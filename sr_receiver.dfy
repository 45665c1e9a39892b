/**
 * `SelectResendReceiver` of `src/slide_windows/sr/receiver.rs`: packets are stored
 * by id in a `FixedCycleBuffer` of 128, the in-order run at the window's front is
 * released, and its pieces are joined into messages (`Follow` pieces are held in
 * `localBuf` until an `End` piece completes the message). Every packet is answered
 * with an ack looked up in `lastAck` by the packet's distance past the window.
 * The socket is reduced to `sendOk` and the ghost record `sent`.
 */
module SrReceiver {
  import opened Bytes
  import opened Wrappers
  import opened Flags
  import opened Packets
  import opened PacketIo
  import opened SelectResend
  import FC = FixedCycleBuffers

  /** `RecvWrap`: a received piece, its split flag and its body. */
  datatype RecvWrap = RecvWrap(split: PackSplit, body: seq<byte>)

  /** The messages completed so far and the pieces still waiting for their `End`. */
  datatype Assembly = Assembly(messages: seq<seq<byte>>, pending: seq<byte>)

  /** Joining `entries`, in order, onto the pending bytes `pending`. */
  function Reassemble(pending: seq<byte>, entries: seq<RecvWrap>): Assembly
    decreases |entries|
  {
    if entries == [] then Assembly([], pending)
    else
      var a := Reassemble(pending, entries[..|entries| - 1]);
      var e := entries[|entries| - 1];
      match e.split
      case End => Assembly(a.messages + [a.pending + e.body], [])
      case Follow => Assembly(a.messages, a.pending + e.body)
  }

  /** The number of `End` pieces. */
  function CountEnds(entries: seq<RecvWrap>): nat {
    if entries == [] then 0
    else CountEnds(entries[..|entries| - 1]) + (if entries[|entries| - 1].split == End then 1 else 0)
  }

  /** The bodies of the pieces, concatenated. */
  function Bodies(entries: seq<RecvWrap>): seq<byte> {
    if entries == [] then [] else Bodies(entries[..|entries| - 1]) + entries[|entries| - 1].body
  }

  /** The messages, concatenated. */
  function Flatten(messages: seq<seq<byte>>): seq<byte> {
    if messages == [] then [] else Flatten(messages[..|messages| - 1]) + messages[|messages| - 1]
  }

  /**
   * One message per `End` piece, nothing pending right after an `End`, and no byte
   * lost, added or reordered: the messages followed by what is pending are the old
   * pending bytes followed by every body.
   */
  lemma {:induction false} ReassembleSpec(pending: seq<byte>, entries: seq<RecvWrap>)
    ensures |Reassemble(pending, entries).messages| == CountEnds(entries)
    ensures entries != [] && entries[|entries| - 1].split == End ==> Reassemble(pending, entries).pending == []
    ensures Flatten(Reassemble(pending, entries).messages) + Reassemble(pending, entries).pending
      == pending + Bodies(entries)
    decreases |entries|
  {
    if entries != [] {
      var init := entries[..|entries| - 1];
      var e := entries[|entries| - 1];
      var a := Reassemble(pending, init);
      ReassembleSpec(pending, init);
      match e.split
      case End =>
        var ms := a.messages + [a.pending + e.body];
        assert ms[..|ms| - 1] == a.messages;
        calc {
          Flatten(ms) + [];
          Flatten(a.messages) + (a.pending + e.body);
          (Flatten(a.messages) + a.pending) + e.body;
          pending + Bodies(init) + e.body;
        }
      case Follow =>
        assert Flatten(a.messages) + (a.pending + e.body) == (Flatten(a.messages) + a.pending) + e.body;
    }
  }

  /**
   * Releasing pieces over several calls, each starting from the pending bytes the
   * previous one left, yields the same messages as releasing them all at once.
   */
  lemma {:induction false} ReassembleAppend(pending: seq<byte>, first: seq<RecvWrap>, second: seq<RecvWrap>)
    ensures var a := Reassemble(pending, first);
      var b := Reassemble(a.pending, second);
      Reassemble(pending, first + second) == Assembly(a.messages + b.messages, b.pending)
    decreases |second|
  {
    if second == [] {
      assert first + second == first;
    } else {
      var init := second[..|second| - 1];
      var all := first + second;
      assert all[..|all| - 1] == first + init;
      assert all[|all| - 1] == second[|second| - 1];
      ReassembleAppend(pending, first, init);
      var a := Reassemble(pending, first);
      var b := Reassemble(a.pending, init);
      match second[|second| - 1].split
      case End =>
        assert (a.messages + b.messages) + [b.pending + second[|second| - 1].body]
          == a.messages + (b.messages + [b.pending + second[|second| - 1].body]);
      case Follow =>
    }
  }

  /** A single `End` piece onto nothing pending is one whole message. */
  lemma EndAlone(body: seq<byte>)
    ensures Reassemble([], [RecvWrap(End, body)]) == Assembly([body], [])
  {
    assert [RecvWrap(End, body)][..0] == [];
    assert Reassemble([], []) == Assembly([], []);
    var none: seq<byte> := [];
    var noMessages: seq<seq<byte>> := [];
    assert none + body == body;
    assert noMessages + [body] == [body];
  }

  /** The piece a packet becomes. */
  function Piece(packet: Packet): RecvWrap {
    RecvWrap(packet.packetSplit, GetBody(packet))
  }

  /** The slots after `insert`: the packet's piece at its id when the id is in the window at `offset`. */
  function Admit(slots: seq<FC.Slot<RecvWrap>>, offset: u8, packet: Packet): (r: seq<FC.Slot<RecvWrap>>)
    requires |slots| == 256
    ensures |r| == 256
  {
    if Dist(offset, GetId(packet)) < MAX_WINDOWS_SIZE then slots[GetId(packet) := FC.Set(Piece(packet))] else slots
  }

  class SelectResendReceiver {
    const buffer: FC.FixedCycleBuffer<RecvWrap>
    const lastAck: array<u8>
    var localBuf: seq<byte>
    ghost var sent: seq<seq<byte>>

    /** The window holds 128 ids and `lastAck` has one entry per window position. */
    ghost predicate Valid()
      reads this, buffer, buffer.buffer, lastAck
    {
      buffer.Valid() && buffer.S == MAX_WINDOWS_SIZE && lastAck.Length == MAX_WINDOWS_SIZE as int
    }

    /**
     * `SelectResendReceiver::new`: an empty window at 0, nothing pending, and entry
     * `i` of `lastAck` set to `i << 4` truncated to a byte.
     */
    constructor ()
      ensures Valid() && fresh(buffer) && fresh(buffer.buffer) && fresh(lastAck)
      ensures buffer.offset == 0 && forall i :: 0 <= i < 256 ==> buffer.buffer[i] == FC.Nil
      ensures forall i :: 0 <= i < MAX_WINDOWS_SIZE ==> lastAck[i] == (i * 16) % 256
      ensures localBuf == [] && sent == []
    {
      var ack := new u8[MAX_WINDOWS_SIZE];
      for i := 0 to MAX_WINDOWS_SIZE
        invariant forall j :: 0 <= j < i ==> ack[j] == (j * 16) % 256
      {
        ack[i] := (i * 16) % 256;
      }
      buffer := new FC.FixedCycleBuffer<RecvWrap>(MAX_WINDOWS_SIZE);
      lastAck := ack;
      localBuf := [];
      sent := [];
    }

    /**
     * The first step of `receive`: the packet's distance past the window is taken
     * before the insert; an accepted packet (one inside the window) is stored at its
     * id and its id recorded as the ack for that distance.
     */
    method Store(packet: Packet) returns (offset: u8, accepted: bool)
      requires Valid()
      modifies buffer.buffer, lastAck
      ensures Valid()
      ensures Wrap(buffer.offset + offset) == GetId(packet)
      ensures accepted <==> offset < MAX_WINDOWS_SIZE
      ensures buffer.buffer[..] == Admit(old(buffer.buffer[..]), buffer.offset, packet)
      ensures lastAck[..] == if accepted then old(lastAck[..])[offset := GetId(packet)] else old(lastAck[..])
    {
      var id := GetId(packet);
      offset := buffer.CalculateOffset(id);
      var r := buffer.Insert(id, Piece(packet));
      accepted := r.Ok?;
      if accepted {
        lastAck[offset] := id;
      }
    }

    /**
     * The second step of `receive`: the in-order run is released from the window
     * and its pieces are joined onto `localBuf`; completed messages are returned.
     */
    method Release() returns (messages: seq<seq<byte>>)
      requires Valid()
      modifies this, buffer, buffer.buffer
      ensures Valid() && sent == old(sent)
      ensures var entries := FC.SetRun(old(buffer.buffer[..]), old(buffer.offset), buffer.buffer.Length);
        && buffer.offset == Wrap(old(buffer.offset) + |entries|)
        && buffer.buffer[..] == FC.Cleared(old(buffer.buffer[..]), old(buffer.offset), |entries|)
        && Assembly(messages, localBuf) == Reassemble(old(localBuf), entries)
    {
      var entries := buffer.SlideWindows();
      messages := Join(entries);
    }

    /** The closure `receive` applies to each released piece, in order. */
    method Join(entries: seq<RecvWrap>) returns (messages: seq<seq<byte>>)
      modifies this
      ensures sent == old(sent)
      ensures Assembly(messages, localBuf) == Reassemble(old(localBuf), entries)
    {
      messages := [];
      for i := 0 to |entries|
        invariant sent == old(sent)
        invariant Assembly(messages, localBuf) == Reassemble(old(localBuf), entries[..i])
      {
        var e := entries[i];
        assert entries[..i + 1][..i] == entries[..i];
        match e.split
        case End =>
          var v := localBuf;
          localBuf := [];
          messages := messages + [v + e.body];
        case Follow =>
          localBuf := localBuf + e.body;
      }
      assert entries[..|entries|] == entries;
    }

    /**
     * Everything `receive` does before `send_ack`: `offset` is the packet's distance
     * past the window as it was, and `messages` what the release completed.
     */
    method Accept(packet: Packet) returns (offset: u8, messages: seq<seq<byte>>)
      requires Valid()
      modifies this, buffer, buffer.buffer, lastAck
      ensures Valid() && sent == old(sent)
      ensures offset == Dist(old(buffer.offset), GetId(packet))
      ensures offset < MAX_WINDOWS_SIZE ==> lastAck[offset] == GetId(packet)
      ensures var id := GetId(packet);
        var d := Dist(old(buffer.offset), id);
        var slots := Admit(old(buffer.buffer[..]), old(buffer.offset), packet);
        var entries := FC.SetRun(slots, old(buffer.offset), buffer.buffer.Length);
        && buffer.offset == Wrap(old(buffer.offset) + |entries|)
        && buffer.buffer[..] == FC.Cleared(slots, old(buffer.offset), |entries|)
        && lastAck[..] == (if d < MAX_WINDOWS_SIZE then old(lastAck[..])[d := id] else old(lastAck[..]))
        && localBuf == Reassemble(old(localBuf), entries).pending
        && messages == Reassemble(old(localBuf), entries).messages
    {
      var accepted;
      offset, accepted := Store(packet);
      ghost var slots := buffer.buffer[..];
      messages := Release();
      assert lastAck[..] == if accepted then old(lastAck[..])[offset := GetId(packet)] else old(lastAck[..]);
    }

    /**
     * `send_ack`: the ack for `lastAck[offset]`, written into a cleared buffer and
     * sent. `lastAck` has 128 entries: an offset past them panics.
     */
    method SendAck(offset: u8, sendOk: bool) returns (r: Outcome<(), SrError>)
      requires Valid()
      modifies this
      ensures localBuf == old(localBuf)
      ensures r.Panic? <==> offset >= MAX_WINDOWS_SIZE
      ensures r.Panic? ==> sent == old(sent)
      ensures offset < MAX_WINDOWS_SIZE && !sendOk ==> r == Failure(Io) && sent == old(sent)
      ensures offset < MAX_WINDOWS_SIZE && sendOk ==>
        r.Success? && sent == old(sent) + [Encode(NewAck(lastAck[offset]))]
    {
      if offset as int >= lastAck.Length {
        return Panic;
      }
      var ok := SendAckOf(lastAck[offset], sendOk);
      r := if ok then Success(()) else Failure(Io);
    }

    /** Writing the ack for `code` into a cleared buffer and sending it. */
    method SendAckOf(code: u8, sendOk: bool) returns (ok: bool)
      modifies this
      ensures ok == sendOk && localBuf == old(localBuf)
      ensures sent == old(sent) + (if sendOk then [Encode(NewAck(code))] else [])
    {
      var frame := WriteCleared(NewAck(code));
      if !sendOk {
        return false;
      }
      sent := sent + [frame];
      ok := true;
    }

    /**
     * `receive`: stores the packet if it is inside the window, releases the in-order
     * run and joins its pieces, then acks. An accepted packet is acked by its own id.
     * A packet outside the window (a duplicate of one already delivered, say) leaves
     * `offset` at 128 or more, and `send_ack` indexes past `lastAck`: `receive` panics.
     */
    method Receive(packet: Packet, sendOk: bool) returns (r: Outcome<seq<seq<byte>>, SrError>)
      requires Valid()
      modifies this, buffer, buffer.buffer, lastAck
      ensures Valid()
      ensures var id := GetId(packet);
        var d := Dist(old(buffer.offset), id);
        var slots := Admit(old(buffer.buffer[..]), old(buffer.offset), packet);
        var entries := FC.SetRun(slots, old(buffer.offset), buffer.buffer.Length);
        && buffer.offset == Wrap(old(buffer.offset) + |entries|)
        && buffer.buffer[..] == FC.Cleared(slots, old(buffer.offset), |entries|)
        && lastAck[..] == (if d < MAX_WINDOWS_SIZE then old(lastAck[..])[d := id] else old(lastAck[..]))
        && localBuf == Reassemble(old(localBuf), entries).pending
        && (r.Panic? <==> d >= MAX_WINDOWS_SIZE)
        && (r.Panic? ==> sent == old(sent))
        && (d < MAX_WINDOWS_SIZE && !sendOk ==> r == Failure(Io) && sent == old(sent))
        && (d < MAX_WINDOWS_SIZE && sendOk ==>
              && r == Success(Reassemble(old(localBuf), entries).messages)
              && sent == old(sent) + [Encode(NewAck(id))])
    {
      var offset, messages := Accept(packet);
      var acked := SendAck(offset, sendOk);
      match acked
      case Panic => return Panic;
      case Failure(e) => return Failure(e);
      case Success(_) => r := Success(messages);
    }

    /**
     * `receive` as evidently intended: a packet outside the window is not stored but
     * is still answered, with the ack for its own id, so a sender whose ack was lost
     * stops resending it. Everything else is as in `Receive`.
     */
    method ReceiveIntended(packet: Packet, sendOk: bool) returns (r: Result<seq<seq<byte>>, SrError>)
      requires Valid()
      modifies this, buffer, buffer.buffer, lastAck
      ensures Valid()
      ensures var id := GetId(packet);
        var d := Dist(old(buffer.offset), id);
        var slots := Admit(old(buffer.buffer[..]), old(buffer.offset), packet);
        var entries := FC.SetRun(slots, old(buffer.offset), buffer.buffer.Length);
        && buffer.offset == Wrap(old(buffer.offset) + |entries|)
        && buffer.buffer[..] == FC.Cleared(slots, old(buffer.offset), |entries|)
        && lastAck[..] == (if d < MAX_WINDOWS_SIZE then old(lastAck[..])[d := id] else old(lastAck[..]))
        && localBuf == Reassemble(old(localBuf), entries).pending
        && (!sendOk ==> r == Err(Io) && sent == old(sent))
        && (sendOk ==>
              && r == Ok(Reassemble(old(localBuf), entries).messages)
              && sent == old(sent) + [Encode(NewAck(id))])
    {
      var offset, messages := Accept(packet);
      var code := if offset < MAX_WINDOWS_SIZE then lastAck[offset] else GetId(packet);
      var ok := SendAckOf(code, sendOk);
      if !ok {
        return Err(Io);
      }
      r := Ok(messages);
    }
  }

  /** A fresh receiver given data packet 0 twice, as when the ack of the first copy is lost. */
  method DuplicateScenario(body: seq<byte>) returns (first: Outcome<seq<seq<byte>>, SrError>, second: Outcome<seq<seq<byte>>, SrError>)
    ensures first == Success([body])
    ensures second.Panic?
  {
    var rx := new SelectResendReceiver();
    var packet := NewData(0, body);
    ghost var slots := rx.buffer.buffer[..][0 := FC.Set(RecvWrap(End, body))];
    assert slots[1] == FC.Nil;
    FC.SetRunLength(slots, 0, 256, 1);
    first := rx.Receive(packet, true);
    EndAlone(body);
    assert rx.buffer.offset == 1;
    second := rx.Receive(packet, true);
  }

  /** The first copy of data packet 0 at a fresh intended receiver: released alone, acked, the window moved to 1. */
  method FirstCopyIntended(body: seq<byte>) returns (rx: SelectResendReceiver, first: Result<seq<seq<byte>>, SrError>)
    ensures fresh(rx) && fresh(rx.buffer) && fresh(rx.buffer.buffer) && fresh(rx.lastAck) && rx.Valid()
    ensures rx.buffer.offset == 1 && forall i :: 0 <= i < 256 ==> rx.buffer.buffer[i] == FC.Nil
    ensures rx.localBuf == [] && rx.sent == [Encode(NewAck(0))]
    ensures first == Ok([body])
  {
    rx := new SelectResendReceiver();
    var packet := NewData(0, body);
    ghost var slots := rx.buffer.buffer[..][0 := FC.Set(RecvWrap(End, body))];
    assert slots[1] == FC.Nil;
    FC.SetRunLength(slots, 0, 256, 1);
    first := rx.ReceiveIntended(packet, true);
    EndAlone(body);
  }

  /** The same two packets for the intended receiver: the duplicate is acked again and releases nothing. */
  method DuplicateScenarioIntended(body: seq<byte>) returns (first: Result<seq<seq<byte>>, SrError>, second: Result<seq<seq<byte>>, SrError>, ghost acks: seq<seq<byte>>)
    ensures first == Ok([body]) && second == Ok([])
    ensures acks == [Encode(NewAck(0)), Encode(NewAck(0))]
  {
    var rx;
    rx, first := FirstCopyIntended(body);
    assert rx.buffer.buffer[1] == FC.Nil;
    FC.SetRunLength(rx.buffer.buffer[..], 1, 256, 0);
    second := rx.ReceiveIntended(NewData(0, body), true);
    acks := rx.sent;
  }
}
