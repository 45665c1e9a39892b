# udp_rdt in Dafny

A Dafny model of the reliability layer of `udp_rdt`, a reliable-transfer protocol built on lossy datagrams. The model covers:

- **Checksum.** The 16-bit one's-complement checksum with end-around carry, close to the Internet checksum of section 1 of RFC 1071. There is one difference: an odd first byte is added unshifted before the big-endian words.
- **Packets and flags.** The packet record and its flag byte. The flag byte packs three fields into disjoint bits: split (bits 7–6), body-size category (bits 5–3) and packet type (bits 2–0).
- **Frame codec.** A frame is `[flag][id][length field][body][checksum]`, and a frame that fails the checksum is dropped.
- **Ring buffers.** Two ring buffers indexed by `u8` sequence ids, both wrapping modulo 256:
  - `CycleBuffer`, the send window (push, cumulative `set_button`, mark-done, slide over the done prefix);
  - `FixedCycleBuffer`, the receive window (insert within `S` of `offset`, release of the filled run).
- **Go-Back-N.** The Go-Back-N sender and receiver state machines.
- **Selective Repeat.** The Selective-Repeat sender and receiver state machines. The receiver reassembles split messages.

Modelling choices:

- **Byte types.** `byte`, `u8` and `u16` are integer subtypes. `Wrap` and `Dist` are the `u8` `wrapping_add` and `wrapping_sub`.
- **Ring buffer state.** The ring buffers and the state machines are classes whose fields change in place. Their slot vectors are arrays.
- **Socket.** The socket becomes a `sendOk` parameter, which says whether `send_to` succeeds, and a ghost `sent` record of the datagrams it accepted.
- **Timers.** Timers are values `Timer(serial, phase)` (Pending, Running, Fired, Stopped). A timer that is dropped or replaced is stopped and kept in a ghost `retired` record.
- **Panics.** A panic the caller can reach becomes an explicit outcome: `Panic` of `Outcome`, or a `false` result. Examples are an out-of-range index, `todo!()` and the capacity overflow of `vec![0u8; n]`.

Five defects of the code are modelled as written. For each, a corrected version sits beside it with the intended property proved about it (see Findings).

## Model

| member | source | states |
|---|---|---|
| Bytes.Dist | src/fixed_cycle_buf.rs:19-21 | the wrapping difference `d = to - from` satisfies `from + d == to` modulo 256 and is zero exactly when the ids are equal |
| Bytes.BeRoundTrip | src/packet/io.rs:84-111 | a number below 256^w written as `w` big-endian bytes reads back as the same number |
| Checksum.VerifyInfoGen | src/verify.rs:5-28 | the loop returns the bitwise complement `0xFFFF - Sum(buf)` of the one's-complement sum (odd first byte unshifted, then big-endian words with end-around carry) |
| Checksum.Verify | src/verify.rs:30-48 | the loop answers true exactly when the one's-complement sum of the whole buffer is `0xFFFF` |
| Checksum.OnesAddMod | src/verify.rs:19-24 | the end-around-carry add never overflows and is addition modulo 0xFFFF; it is 0 only for 0 + 0 |
| Checksum.SumWordsAppend | src/verify.rs:16-25 | one more big-endian word folds into the running sum by one end-around-carry add |
| Checksum.SumAppendWord | src/verify.rs:5-28 | appending a big-endian word to any buffer, odd or even, adds it to the buffer's sum |
| Checksum.ChecksumRoundTrip | src/verify.rs:57-88 | for every buffer, the buffer followed by its checksum in big-endian order verifies |
| Checksum.OddFirstByteUnshifted | src/verify.rs:11-17 | on an odd length the first byte counts unshifted and the rest are read as big-endian words |
| Checksum.SumWordsTotal | src/verify.rs:16-25 | the running sum is congruent modulo 0xFFFF to the plain total of the words, and zero only when the total is |
| Checksum.SumTotal | src/verify.rs:30-48 | the same for a whole buffer, odd first byte included |
| Checksum.TotalWordsUpdate | src/verify.rs:40-45 | changing one byte moves the word total by the change times 0x100 (high byte) or 1 (low byte) |
| Checksum.TotalMoved | src/verify.rs:35-45 | changing one byte of a buffer moves its total by a non-zero amount smaller than 0xFFFF in magnitude |
| Checksum.SingleByteCorruptionDetected | src/verify.rs:30-48 | a buffer that verifies stops verifying when any single byte is changed |
| Checksum.ChangedDigitRejected | src/verify.rs:89-100 | "1234568" carrying the checksum of "1234567" is rejected |
| Flags.FieldsDisjoint | src/packet/flags.rs:11-42 | the split, size and type constants lie inside their own masks and the three masks are disjoint |
| Flags.CategoryIsNarrowest | src/packet/flags.rs:86-98 | the size category chosen for a length holds the length and is the narrowest one that does |
| Flags.FromPacketInfoReadsBack | src/packet/flags.rs:85-141 | the three getters read back the category of the size, the split and the type from `from_packet_info` |
| Flags.Contains | src/packet/flags.rs:81-83 | `contains` holds exactly when the two flags share a set bit |
| Flags.SharedBit | src/packet/flags.rs:81-83 | a bitwise and is non-zero exactly when some bit is set in both operands |
| Flags.GetPackSize | src/packet/flags.rs:114-124 | None exactly for size bits 000 and 111; otherwise the category whose constant matches the bits |
| Flags.GetPackSplit | src/packet/flags.rs:126-132 | None exactly for split bits 00 and 11; otherwise the split whose constant matches the bits |
| Flags.GetPackType | src/packet/flags.rs:134-141 | None exactly for type bits 000 and 100 to 111; otherwise the type whose constant matches the bits |
| Packets.DefaultPacket | src/packet/mod.rs:7-18 | the default packet is Data, End, id 0 and an empty body |
| Packets.New | src/packet/mod.rs:21-28 | code, body, type and split are stored verbatim, and `get_id` and `get_body` return them |
| Packets.NewData | src/packet/mod.rs:30-32 | a data packet has type Data, split End, and the given id and body |
| Packets.NewAck | src/packet/ack.rs:9-11 | an ack is an Ack, End packet with body `[0xFF]` whose ack number is its code |
| Packets.NewAckAcceptedExactly | src/packet/ack.rs:14-16 | `new_ack(c)` is a correct ack for `e` exactly when `c == e` |
| Packets.AckVerifyCases | src/packet/ack.rs:39-53 | a wrong code and a `[0xFA]` body are rejected, and `new_ack(0)` is accepted for 0 |
| PacketIo.WriteBodySize | src/packet/io.rs:79-103 | the length field is 8, 4, 2 or 1 big-endian bytes for U64, U32, U16 or U8 and absent for Single and Empty, and its width is returned |
| PacketIo.WriteBodySizeOfThree | src/packet/io.rs:123-134 | the length field for 3 is the single byte 3 |
| PacketIo.Write | src/packet/io.rs:13-43 | the writer gets flag, id, length field, body and checksum in that order, and `4 + width + body length` is returned |
| PacketIo.WriteCleared | src/slide_windows/gbn/receiver.rs:45-47 | a cleared buffer written with a packet holds exactly the packet's frame |
| PacketIo.ReadBodySize | src/packet/io.rs:105-116 | an unknown size category gives None and consumes nothing; a truncated field is an error; otherwise the field's value (1 for Single, 0 for Empty) and the rest |
| PacketIo.Read | src/packet/io.rs:45-77 | reading field by field agrees with the frame decoder: a frame failing the checksum gives None, a truncated one `UnexpectedEof`, a length above `isize::MAX` a panic; a packet comes back only from a frame that verifies |
| PacketIo.CategoryHoldsLength | src/packet/io.rs:79-116 | the length field written for a body length reads back as that length |
| PacketIo.FieldsWellFormed | src/packet/io.rs:50-75 | the fields after flag and id of a written frame parse back to the packet |
| PacketIo.EncodeShape | src/packet/io.rs:13-43 | a frame is flag byte, id, length field, body and checksum |
| PacketIo.EncodeChecks | src/packet/io.rs:33-40 | every written frame passes `verify` |
| PacketIo.RoundTrip | src/packet/io.rs:13-77 | reading a written frame gives back the same packet (type, split, id and body) for every body a `Vec` can hold |
| PacketIo.UnknownFlagNeverDecodes | src/packet/io.rs:57-73 | a frame whose flag has an unknown type, split or size category never decodes to a packet |
| PacketIo.PanicNeedsHugeLength | src/packet/io.rs:57-68 | `read` panics exactly when the frame verifies and its U64 length field names more than `isize::MAX` bytes |
| PacketIo.HugeLengthPanics | src/packet/io.rs:63-68 | for every id, the 12-byte frame `[0x49, id, 0xFF x 8]` plus its checksum verifies and makes `read` panic, while the intended `read` refuses it as truncated |
| PacketIo.DecodeIntendedNeverPanics | src/packet/io.rs:45-77 | the intended `read`, which checks the remaining length before allocating, never panics |
| PacketIo.DecodeIntendedAgrees | src/packet/io.rs:45-77 | the intended `read` gives what `read` gives wherever `read` does not panic, and `UnexpectedEof` where it does |
| PacketIo.RoundTripIntended | src/packet/io.rs:13-77 | the intended `read` keeps the round trip of every written frame |
| PacketIo.AckFrame | src/packet/ack.rs:9-11 | `new_ack(c)` is the 5-byte frame `[0x6A, c, 0xFF]` followed by its checksum |
| SlideWindows.Start | src/slide_windows/mod.rs:75-83 | a started timer is running at once |
| SlideWindows.LaterStart | src/slide_windows/mod.rs:59-73 | a `later_start` timer is pending and not yet running |
| SlideWindows.Begin | src/slide_windows/mod.rs:23-27 | the starter turns a pending timer into a running one and leaves any other alone |
| SlideWindows.Elapse | src/slide_windows/mod.rs:77-80 | only a running timer fires when its delay passes |
| SlideWindows.Stop | src/slide_windows/mod.rs:85-96 | stopping aborts an unfinished timer and leaves a finished one as it is |
| SlideWindows.StopIdempotent | src/slide_windows/mod.rs:85-96 | a second stop does nothing, a stopped timer never fires, and stopping keeps a fired timer fired |
| SlideWindows.LaterStartWaitsForStarter | src/slide_windows/mod.rs:59-73 | a `later_start` timer does not fire before it is started, fires once started, and stops if dropped first |
| SlideWindows.DefaultStatePacket | src/slide_windows/mod.rs:98-109 | the default state packet is waiting for its ack and holds the default packet |
| SlideWindows.NewWaiting | src/slide_windows/mod.rs:112-117 | `new_waiting` keeps the packet and waits for its ack |
| SlideWindows.RecvAck | src/slide_windows/mod.rs:119-125 | after `recv_ack` the state packet is done and its packet is unchanged |
| GoBackN.WindowFullNeverHolds | src/slide_windows/gbn/sender.rs:55-57 | the capacity guard as written never holds, so `BufferFilled` is never returned |
| GoBackN.WindowFullIntendedGuardsIndex | src/slide_windows/gbn/sender.rs:55-67 | with the intended guard, a send that passes it has `head < 255`, a slot that exists |
| GoBackN.StaleAckMovesEndBack | src/slide_windows/gbn/sender.rs:102-103 | the test as written lets the stale ack 255 through once `end` is 1 and moves `end` back to 0 |
| GoBackN.AckInWindowMovesForward | src/slide_windows/gbn/sender.rs:101-103 | under the intended test an accepted ack moves `end` forward by one past the ack and never beyond `head` |
| GoBackN.StaleAckRefused | src/slide_windows/gbn/sender.rs:102-103 | the intended test refuses that stale ack |
| GbnSender.Retire | src/slide_windows/gbn/sender.rs:107 | a replaced or taken timer is handed back finished: exactly one timer when there was one and none otherwise, with the same serial, Stopped if it was still pending or running and untouched if it had already finished |
| GbnSender.TransmitWindow | src/slide_windows/gbn/sender.rs:138-152 | the intended resend loop sends the frames of the window's slots oldest first, and sends nothing once a send fails |
| GbnSender.GoBackNSender.constructor | src/slide_windows/gbn/sender.rs:37-46 | 255 default slots, counters 0 and no timer |
| GbnSender.GoBackNSender.Send | src/slide_windows/gbn/sender.rs:48-95 | the packet is stored Waiting at `head`, `head` and `size` advance and the first frame-length bytes of the uncleared buffer are sent; the timer is armed only when `size` becomes 1; at `head == 255` the store panics |
| GbnSender.GoBackNSender.SendIntended | src/slide_windows/gbn/sender.rs:55-95 | with the intended guard a send at 255 outstanding packets is refused with `BufferFilled` and changes nothing; any other send stores the packet Waiting at `head`, advances `head` and `size` and sends its frame, arming a fresh timer and retiring the old one exactly when `size` becomes 1, with no panic case left |
| GbnSender.GoBackNSender.Enqueue | src/slide_windows/gbn/sender.rs:60-67 | the store step: slot `head` takes the packet Waiting and `head` and `size` advance, unless slot 255 is indexed |
| GbnSender.GoBackNSender.ArmIfFirst | src/slide_windows/gbn/sender.rs:76-92 | a fresh timer replaces the old one, which is stopped, exactly when the window holds one packet |
| GbnSender.GoBackNSender.RecvAck | src/slide_windows/gbn/sender.rs:100-124 | when `end <= ack`, `end` becomes `ack + 1` and a fresh timer replaces the old one; otherwise nothing changes; `head`, `size` and the slots never change |
| GbnSender.GoBackNSender.RecvAckIntended | src/slide_windows/gbn/sender.rs:100-124 | with the intended test `end` only moves forward within the window and never passes `head` |
| GbnSender.GoBackNSender.ResendAll | src/slide_windows/gbn/sender.rs:127-169 | the timer is dropped; when `end != head` nothing is resent and a fresh timer is installed; when `end == head` the loop runs once and resends the default packet of slot `head`, with a fresh timer unless that send fails, and at `head == 255` it panics |
| GbnSender.GoBackNSender.ResendAllIntended | src/slide_windows/gbn/sender.rs:127-169 | with the intended loop every packet of `[end, head)` is resent oldest first, then a fresh timer is installed; a failed send returns the error with no timer |
| GbnReceiver.GoBackNReceiver.constructor | src/slide_windows/gbn/receiver.rs:17-23 | expects id 0 and holds `new_ack(255)` |
| GbnReceiver.GoBackNReceiver.Receive | src/slide_windows/gbn/receiver.rs:25-42 | the expected id is accepted (ack updated, id advanced, body returned) and any other id is refused with `PacketIdMisMatch`; the held ack is sent either way; a failed send returns the I/O error after the state has changed |
| GbnReceiver.GoBackNReceiver.SendAck | src/slide_windows/gbn/receiver.rs:44-52 | exactly the held ack's frame is sent, and nothing changes |
| GbnReceiver.AckNamesLastInOrder | src/slide_windows/gbn/receiver.rs:20-33 | the held ack names the last id accepted in order, or 255 before any, and is a 5-byte frame |
| SrSender.MarkAcked | src/slide_windows/sr/sender.rs:63-68 | the acked slot is marked Done with its packet kept, and a Waiting slot's timer is stopped |
| SrSender.SlideKeepsDataInWindow | src/cycle_buffer.rs:43-58 | after a slide no data lies outside the shrunk window |
| SrSender.SlidPrefixWasDone | src/slide_windows/sr/sender.rs:62-70 | every slot the slide passes, apart from the acked one, was already Done, so an out-of-order ack never moves the window past an earlier Waiting packet |
| SrSender.SelectResendSender.constructor | src/slide_windows/sr/sender.rs:22-27 | an empty window at 0 |
| SrSender.SelectResendSender.Send | src/slide_windows/sr/sender.rs:29-60 | the packet gets id `top`; with 128 outstanding the push fails with `BufferFilled`, its timer is dropped and nothing is sent; otherwise it is stored, `top` and `size` advance, one frame is sent and only then is its timer started |
| SrSender.SelectResendSender.Store | src/slide_windows/sr/sender.rs:49 | the push of `send` keeps the window invariant and adds the packet with its pending timer at `top` |
| SrSender.SelectResendSender.SetWaiting | src/slide_windows/sr/sender.rs:79-82 | replacing a Waiting slot's payload keeps the window invariant |
| SrSender.SelectResendSender.Slide | src/slide_windows/sr/sender.rs:69 | the slide over the Done prefix keeps the window invariant |
| SrSender.SelectResendSender.RecvAck | src/slide_windows/sr/sender.rs:62-70 | an ack inside the window marks its slot Done and slides over the Done prefix; an ack outside it reaches `todo!()` (panicked) with nothing changed |
| SrSender.SelectResendSender.AckSlot | src/slide_windows/sr/sender.rs:63-68 | the acked slot's timer is stopped and the slot becomes Done exactly when it is in the window |
| SrSender.SelectResendSender.SelectResend | src/slide_windows/sr/sender.rs:72-100 | a Waiting slot has its timer stopped and replaced, its packet resent, and the new timer started if the send succeeded; any other slot is left alone with Ok; `button`, `top` and `size` never change |
| SrReceiver.ReassembleSpec | src/slide_windows/sr/receiver.rs:64-74 | one message per End entry, an empty pending buffer after an End, and messages plus pending equal the old pending plus all bodies in order |
| SrReceiver.ReassembleAppend | src/slide_windows/sr/receiver.rs:64-74 | reassembling two batches one after the other equals reassembling them together |
| SrReceiver.EndAlone | src/slide_windows/sr/receiver.rs:66-71 | a lone End entry with nothing pending is released as one message |
| SrReceiver.SelectResendReceiver.constructor | src/slide_windows/sr/receiver.rs:19-37 | an empty window at 0, nothing pending, and `last_ack[i] == (i << 4) mod 256` |
| SrReceiver.SelectResendReceiver.Store | src/slide_windows/sr/receiver.rs:45-62 | the offset is the packet's distance from `offset`; an accepted packet is stored and recorded in `last_ack` at that offset |
| SrReceiver.SelectResendReceiver.Release | src/slide_windows/sr/receiver.rs:63-74 | the filled run is taken from the window and reassembled onto the pending buffer |
| SrReceiver.SelectResendReceiver.Join | src/slide_windows/sr/receiver.rs:65-74 | the loop over released entries appends Follow bodies to the pending buffer and emits pending plus body at each End |
| SrReceiver.SelectResendReceiver.Accept | src/slide_windows/sr/receiver.rs:45-74 | the store and release of `receive`, ending with the new window, `last_ack` and reassembly |
| SrReceiver.SelectResendReceiver.SendAck | src/slide_windows/sr/receiver.rs:81-104 | `last_ack[offset]` is acked; an offset of 128 or more indexes past the array and panics |
| SrReceiver.SelectResendReceiver.SendAckOf | src/slide_windows/sr/receiver.rs:87-96 | exactly the ack frame of the code is sent |
| SrReceiver.SelectResendReceiver.Receive | src/slide_windows/sr/receiver.rs:39-79 | store, release and reassembly as above; an in-window packet is acked with its own id; an out-of-window one panics after the release; a failed send discards the released messages |
| SrReceiver.SelectResendReceiver.ReceiveIntended | src/slide_windows/sr/receiver.rs:39-79 | the same, except that an out-of-window packet is acked with its own id instead of panicking |
| SrReceiver.DuplicateScenario | src/slide_windows/sr/receiver.rs:45-87 | a second copy of packet 0 at a fresh receiver makes `receive` panic |
| SrReceiver.FirstCopyIntended | src/slide_windows/sr/receiver.rs:39-79 | the first copy of packet 0 is released alone and acked, and the window moves to 1 |
| SrReceiver.DuplicateScenarioIntended | src/slide_windows/sr/receiver.rs:39-79 | in the intended receiver the second copy releases nothing and is acked again with 0 |
| CycleBuffers.DoneRunSpec | src/cycle_buffer.rs:43-58 | the run from `button` is all Done and stops at `top` or at a slot that is not Done |
| CycleBuffers.DoneRunExact | src/cycle_buffer.rs:43-58 | a run of `m` Done slots ended by a non-Done slot or the limit has length `m` |
| CycleBuffers.SlideKeepsWindow | src/cycle_buffer.rs:43-58 | after the slide every slot of the shrunk window still holds data |
| CycleBuffers.SlideFinish | src/cycle_buffer.rs:43-58 | when the slide loop stops, it has taken the whole Done run and `size == (top - button) mod 256` again |
| CycleBuffers.CycleBuffer.constructor | src/cycle_buffer.rs:74-83 | 256 Nil slots and an empty window at 0 |
| CycleBuffers.CycleBuffer.Get | src/cycle_buffer.rs:9-14 | data only for a Waiting slot; None for Nil and Done |
| CycleBuffers.CycleBuffer.Push | src/cycle_buffer.rs:27-37 | at `size == S`, `BufferFilled` and nothing changes; otherwise the data goes Waiting at `top`, `top` wraps forward and `size` grows |
| CycleBuffers.CycleBuffer.BufferDown | src/cycle_buffer.rs:39-41 | a slot holding data becomes Done with its data kept |
| CycleBuffers.CycleBuffer.SetWaitingData | src/slide_windows/sr/sender.rs:79-82 | the payload of a Waiting slot is replaced in place |
| CycleBuffers.CycleBuffer.TakeDone | src/cycle_buffer.rs:44-57 | the loop resets the Done slots it passes to Nil and moves `button` past them |
| CycleBuffers.CycleBuffer.SlideBuff | src/cycle_buffer.rs:43-58 | the maximal Done run from `button` becomes Nil, `button` moves past it and `size` drops by its length, never passing `top` |
| CycleBuffers.CycleBuffer.SetButton | src/cycle_buffer.rs:60-71 | succeeds exactly when `id` is in the window; then `size` drops by `(id - button) + 1` and `button` becomes `id + 1`; the slots are never touched |
| CycleBuffers.SlideSetup | src/cycle_buffer.rs:136-145 | the test's starting buffer: ids 245 round to 4 are Done, `button` 245, `top` 5, `size` 16 |
| CycleBuffers.SlideScenario | src/cycle_buffer.rs:135-187 | the test's sequence of push, set_button, slide_buff and buffer_down ends with `button == top == 6` and `size == 0` |
| FixedCycleBuffers.SetRunSpec | src/fixed_cycle_buf.rs:33-46 | the run holds the Set values from `offset` in id order and stops at a Nil slot or the limit |
| FixedCycleBuffers.SetRunLength | src/fixed_cycle_buf.rs:33-46 | `m` Set slots followed by a Nil one make a run of length `m` |
| FixedCycleBuffers.SetRunExact | src/fixed_cycle_buf.rs:33-46 | a run matching a sequence of values slot by slot and then stopping equals that sequence |
| FixedCycleBuffers.SlideFinish | src/fixed_cycle_buf.rs:33-46 | when the slide loop stops, the slots taken are Nil and every Set slot lies in the new window |
| FixedCycleBuffers.FixedCycleBuffer.constructor | src/fixed_cycle_buf.rs:8-13 | 256 Nil slots and offset 0 |
| FixedCycleBuffers.FixedCycleBuffer.CalculateOffset | src/fixed_cycle_buf.rs:19-21 | the distance `d` of the id past `offset` satisfies `offset + d == id` modulo 256, and is 0 only at `offset` |
| FixedCycleBuffers.FixedCycleBuffer.Insert | src/fixed_cycle_buf.rs:23-31 | accepted exactly when `(id - offset) mod 256 < S`; an accepted insert overwrites only slot `id`, and a refused one returns its data and changes nothing |
| FixedCycleBuffers.FixedCycleBuffer.TakeRun | src/fixed_cycle_buf.rs:36-45 | the loop takes the values of the slots it resets to Nil, in id order, and stops at a Nil slot |
| FixedCycleBuffers.FixedCycleBuffer.SlideWindows | src/fixed_cycle_buf.rs:33-46 | returns the maximal Set run from `offset` in id order, resets it to Nil and moves `offset` past it, keeping every Set slot within `S` of `offset` |
| FixedCycleBuffers.WrapSetup | src/fixed_cycle_buf.rs:76-83 | the test's starting buffer: offset 245 with ids 245 round to 8 Set |
| FixedCycleBuffers.WrapRelease | src/fixed_cycle_buf.rs:85-89 | the 20 values wrap round to offset 9 and every slot is Nil afterwards |
| FixedCycleBuffers.WrapScenario | src/fixed_cycle_buf.rs:75-117 | the whole test: the first slide releases 20 values, and after the inserts of 10, 28, 8 and 9 the last slide releases exactly `[9, 10]` and leaves `offset` at 11 |

## Left out

- The socket and I/O are left out. `send_to` becomes the `sendOk` flag plus the ghost `sent` record, so the model has no addresses and no partial sends.
- The tokio machinery of `src/slide_windows/mod.rs` is left out: spawned tasks, `sleep`, `abort`, oneshot channels, `need_resend_do`, the timeout channels and `yield_now`. Timers are the abstract phases of `SlideWindows.Timer`. Time is never advanced inside the state machines, and races between a timer and the code are not modelled.
- The process entry points are left out: `src/bin/*`, `src/lib.rs` and `src/fake_udp.rs`. They do argument parsing, actor dispatch, stdin/stdout pumps and random loss and corruption.
- Logging (`println!`, `eprintln!`) is left out.
- Writes into an in-memory `Vec` cannot fail, so their `io::Result` is dropped.
- PacketIo.Read: a truncated frame that passes the checksum is `Failure(UnexpectedEof)`, the model's stand-in for `io::Error`. A length field of at most `isize::MAX` that is larger than the memory available makes the allocation abort in the source. The model does not capture that abort and gives `UnexpectedEof`. Only lengths above `isize::MAX` are the modelled panic.
- The target is taken to be 64-bit: `usize` holds 8 bytes and `isize::MAX` is 2^63 - 1.
- PacketIo.RoundTrip and PacketIo.RoundTripIntended require a body of at most `isize::MAX` bytes, the most a `Vec<u8>` holds. Flags.CategoryIsNarrowest and PacketIo.CategoryHoldsLength require a length below 2^64, which every `usize` is.
- PacketIo.Write has no bound on the body. It writes the length as `size as u64` does, truncated modulo 2^64.
- The modelled code calls `Packet::packet_split()` and `CycleBuffer::get_mut`, but their definitions are not part of this model. `packet_split()` is read as the packet's split field. `get_mut` is modelled like `get`: it yields only Waiting slots, and an assignment through it is `SetWaitingData`.
- The caller's scratch buffer `buf` of the receivers and of the Selective-Repeat sender is cleared before each write, so each write is modelled as `WriteCleared`. Only the Go-Back-N `send` keeps the uncleared buffer, because it does not clear it.
- GbnSender.GoBackNSender.ResendAllIntended requires `end <= head`. The intended `recv_ack` (RecvAckIntended) keeps that true, and `head` never wraps because slot 255 does not exist. The as-written `recv_ack` can break it.
- The generic `S` of both ring buffers is a constructor argument kept in a `const` field, not a type parameter.
- SlideWindows.LaterStart: when a `later_start` timer's starter is dropped unused (an SR `send` or `select_resend` whose `send_to` fails), the spawned task reaches `todo!()` (src/slide_windows/mod.rs:68) and panics inside that task only. The model does not capture that panic and keeps the timer Pending. Neither version ever fires.
- The slots of the Selective-Repeat sender hold `(timer, packet)` pairs (`SrSender.Outstanding`). The timer state in a slot is a value. The running task behind it is not modelled.

## Findings

| source | as written | input that shows it | evidently intended | confidence | as-written member | corrected member |
|---|---|---|---|---|---|---|
| src/slide_windows/gbn/sender.rs:102-103 | `recv_ack` moves `end` whenever `end <= ack_num`, a plain unsigned order with no wraparound and no bound at `head` | `end == 1` (id 0 acked) and a delayed ack 255 arrives: `end` moves back to 0 | accept only an ack inside the outstanding window `[end, head)` | not executed | GoBackN.StaleAckMovesEndBack, GbnSender.GoBackNSender.RecvAck | GoBackN.AckInWindowMovesForward, GoBackN.StaleAckRefused, GbnSender.GoBackNSender.RecvAckIntended |
| src/slide_windows/gbn/sender.rs:140 | `resend_all` loops `while idx == self.head` | `end == 0`, `head == 3`: no packet is resent, only the timer is restarted | loop `while idx != self.head`, resending `[end, head)` | not executed | GbnSender.GoBackNSender.ResendAll | GbnSender.GoBackNSender.ResendAllIntended, GbnSender.TransmitWindow |
| src/slide_windows/gbn/sender.rs:55 | the capacity guard is `size as usize > 255`, which a `u8` never meets | 255 sends in a row: the 256th indexes slot 255 of a 255-slot vector and panics | refuse with `BufferFilled` once `size >= 255` | not executed | GoBackN.WindowFullNeverHolds, GbnSender.GoBackNSender.Send | GoBackN.WindowFullIntendedGuardsIndex, GbnSender.GoBackNSender.SendIntended |
| src/slide_windows/sr/receiver.rs:87 | `send_ack` indexes the 128-entry `last_ack` with the packet's offset even when the insert refused it | a fresh receiver gets data packet 0 twice (its first ack lost): the second copy has offset 255 and `receive` panics | ack an out-of-window packet with its own id, as Selective Repeat requires for duplicates | not executed | SrReceiver.SelectResendReceiver.Receive, SrReceiver.DuplicateScenario | SrReceiver.SelectResendReceiver.ReceiveIntended, SrReceiver.DuplicateScenarioIntended |
| src/packet/io.rs:65 | `read` allocates `vec![0u8; size]` from the length field before checking that the datagram holds that many bytes | for every id, the 12-byte frame `[0x49, id, 0xFF x 8]` plus its checksum names a body of 2^64 - 1 bytes, so the capacity overflow panics the peer that reads it | refuse a length field larger than the bytes left, with `UnexpectedEof`, before allocating | not executed | PacketIo.HugeLengthPanics, PacketIo.PanicNeedsHugeLength, PacketIo.Read | PacketIo.DecodeIntendedNeverPanics, PacketIo.DecodeIntendedAgrees, PacketIo.RoundTripIntended |

Three more defects are modelled as the code behaves. They have no corrected version:

- The Go-Back-N `send` writes into `buf` without clearing it, so it sends a stale prefix when `buf` arrives non-empty (GbnSender.GoBackNSender.Send).
- The Selective-Repeat `recv_ack` reaches `todo!()` on a Nil slot, for example on a duplicate ack after the window has slid. SrSender.SelectResendSender.RecvAck reports this as `panicked`.
- The Go-Back-N `recv_ack` moves `end` but never lowers `size` (src/slide_windows/gbn/sender.rs:100-124). GbnSender.GoBackNSender.RecvAck and RecvAckIntended both keep `size == head`. After 255 sends, every further send panics as written, and SendIntended refuses it with `BufferFilled`, whatever acks have arrived. The corrected members do not fix this.
