/**
 * `GoBackNSender` of `src/slide_windows/gbn/sender.rs`. Packets get consecutive
 * ids from `head`; `end` is the oldest id not yet acknowledged; one timer covers
 * the whole window. The socket is reduced to `sendOk`, whether `send_to`
 * succeeds, and `sent`, the datagrams it accepted; dropped and replaced timers
 * are kept, stopped, in `retired`.
 */
module GbnSender {
  import opened Bytes
  import opened Wrappers
  import opened Packets
  import opened PacketIo
  import opened SlideWindows
  import opened GoBackN

  /** What `Option::replace` / `Option::take` hand back and the code then stops. */
  function Retire(t: Option<Timer>): (r: seq<Timer>)
    ensures |r| == (if t.Some? then 1 else 0)
    ensures forall x :: x in r ==> x.Finished()
    ensures t.Some? ==> r[0].serial == t.value.serial
    ensures t.Some? && !t.value.Finished() ==> r[0].phase == Stopped
    ensures t.Some? && t.value.Finished() ==> r[0] == t.value
  {
    if t.Some? then [Stop(t.value)] else []
  }

  /** The frames of a run of slots, in slot order. */
  function Frames(slots: seq<StatePacket>): (r: seq<seq<byte>>)
    ensures |r| == |slots|
  {
    if slots == [] then [] else Frames(slots[..|slots| - 1]) + [Encode(slots[|slots| - 1].pkg)]
  }

  /** One more slot resent: its frame follows the frames already sent. */
  lemma FramesSnoc(base: seq<seq<byte>>, done: seq<StatePacket>, x: StatePacket, all: seq<StatePacket>)
    requires all == done + [x]
    ensures (base + Frames(done)) + [Encode(x.pkg)] == base + Frames(all)
  {
    assert all[..|done|] == done;
  }

  /**
   * The loop of the intended `resend_all` over the window's slots: each frame is
   * written and sent oldest first, and the first failed send stops it (with `sendOk`
   * false that is the first send, so nothing has gone out).
   */
  method TransmitWindow(window: seq<StatePacket>, sendOk: bool) returns (ok: bool, frames: seq<seq<byte>>)
    ensures ok <==> sendOk || window == []
    ensures frames == (if ok then Frames(window) else [])
  {
    frames := [];
    var idx := 0;
    while idx < |window|
      invariant idx <= |window|
      invariant frames == Frames(window[..idx])
      invariant !sendOk ==> idx == 0
    {
      var frame := WriteCleared(window[idx].pkg);
      if !sendOk {
        return false, [];
      }
      FramesSnoc([], window[..idx], window[idx], window[..idx + 1]);
      frames := frames + [frame];
      idx := idx + 1;
    }
    assert window[..idx] == window;
    ok := true;
  }

  class GoBackNSender {
    const buffer: array<StatePacket>
    var head: u8
    var end: u8
    var size: u8
    var timer: Option<Timer>
    var nextSerial: nat
    ghost var sent: seq<seq<byte>>
    ghost var retired: seq<Timer>

    /**
     * 255 slots; `size` moves with `head` (neither is ever decreased), the slots from
     * `head` on still hold the default packet, and the running timer is one already
     * handed out.
     */
    ghost predicate Valid()
      reads this, buffer
    {
      buffer.Length == MAX_WINDOWS &&
      size == head &&
      (forall i :: head <= i < MAX_WINDOWS ==> buffer[i] == DefaultStatePacket()) &&
      (timer.Some? ==> timer.value.serial < nextSerial)
    }

    /** `GoBackNSender::new`: 255 default slots, every counter 0 and no timer. */
    constructor ()
      ensures Valid() && fresh(buffer)
      ensures head == 0 && end == 0 && size == 0 && timer == None
      ensures sent == [] && retired == []
    {
      buffer := new StatePacket[MAX_WINDOWS](_ => DefaultStatePacket());
      head, end, size := 0, 0, 0;
      timer := None;
      nextSerial := 0;
      sent, retired := [], [];
    }

    /**
     * `send`: frames `body` as data packet `head` into `buf`, stores it Waiting at slot
     * `head`, advances `head` and `size`, and transmits the first `|frame|` bytes of
     * `buf`. The timer is armed only when `size` becomes 1. `buf` is not cleared first,
     * so the bytes sent are the frame only when `buf` arrives empty. Slot 255 does not
     * exist: once `head` is 255 the store panics.
     */
    method Send(buf: seq<byte>, body: seq<byte>, sendOk: bool) returns (r: Outcome<(), GbnError>, bufOut: seq<byte>)
      requires Valid()
      modifies this, buffer
      ensures Valid()
      ensures bufOut == buf + Encode(NewData(old(head), body))
      ensures r.Panic? <==> old(head) == 255
      ensures r.Panic? ==> unchanged(this) && unchanged(buffer)
      ensures !r.Panic? ==>
        && buffer[..] == old(buffer[..])[old(head) := NewWaiting(NewData(old(head), body))]
        && head == Wrap(old(head) + 1) && size == old(size) + 1 && end == old(end)
      ensures r.Failure? ==> r.error == Io && !sendOk
      ensures !r.Panic? && !sendOk ==>
        r.Failure? && sent == old(sent) && timer == old(timer) && retired == old(retired)
      ensures !r.Panic? && sendOk ==>
        && r.Success?
        && sent == old(sent) + [bufOut[..|Encode(NewData(old(head), body))|]]
        && (size == 1 ==>
             timer == Some(Start(old(nextSerial))) && retired == old(retired) + Retire(old(timer)))
        && (size != 1 ==> timer == old(timer) && retired == old(retired))
    {
      var packet := NewData(head, body);
      var n;
      bufOut, n := Write(packet, buf);
      var sendPacket := bufOut[..n];

      var stored := Enqueue(packet);
      if !stored {
        return Panic, bufOut;
      }

      if !sendOk {
        return Failure(Io), bufOut;
      }
      sent := sent + [sendPacket];
      ArmIfFirst();
      r := Success(());
    }

    /**
     * `send` with the capacity guard evidently intended, `size >= MAX_WINDOWS`: a full
     * window is refused with `BufferFilled` before anything is written, and every send
     * that gets past the guard stores into an existing slot.
     */
    method SendIntended(buf: seq<byte>, body: seq<byte>, sendOk: bool) returns (r: Result<(), GbnError>, bufOut: seq<byte>)
      requires Valid()
      modifies this, buffer
      ensures Valid()
      ensures WindowFullIntended(old(size)) ==>
        r == Err(BufferFilled) && bufOut == buf && unchanged(this) && unchanged(buffer)
      ensures !WindowFullIntended(old(size)) ==>
        && bufOut == buf + Encode(NewData(old(head), body))
        && buffer[..] == old(buffer[..])[old(head) := NewWaiting(NewData(old(head), body))]
        && head == old(head) + 1 && size == old(size) + 1 && end == old(end)
        && (!sendOk ==> r == Err(Io) && sent == old(sent) && timer == old(timer) && retired == old(retired))
        && (sendOk ==>
             && r == Ok(())
             && sent == old(sent) + [bufOut[..|Encode(NewData(old(head), body))|]]
             && (size == 1 ==>
                  timer == Some(Start(old(nextSerial))) && retired == old(retired) + Retire(old(timer)))
             && (size != 1 ==> timer == old(timer) && retired == old(retired)))
    {
      if WindowFullIntended(size) {
        return Err(BufferFilled), buf;
      }
      WindowFullIntendedGuardsIndex(size, head);
      var packet := NewData(head, body);
      var n;
      bufOut, n := Write(packet, buf);
      var sendPacket := bufOut[..n];

      var stored := Enqueue(packet);
      if !stored {
        assert false;
      }

      if !sendOk {
        return Err(Io), bufOut;
      }
      sent := sent + [sendPacket];
      ArmIfFirst();
      r := Ok(());
    }

    /**
     * The store step of `send`: the packet goes Waiting into slot `head`, and `head`
     * and `size` advance. Slot 255 does not exist: there the index panics, which
     * `stored == false` reports, with nothing changed.
     */
    method Enqueue(packet: Packet) returns (stored: bool)
      requires Valid()
      modifies this, buffer
      ensures Valid()
      ensures stored <==> old(head) != 255
      ensures !stored ==> unchanged(this) && unchanged(buffer)
      ensures stored ==>
        && buffer[..] == old(buffer[..])[old(head) := NewWaiting(packet)]
        && head == Wrap(old(head) + 1) && size == old(size) + 1
      ensures end == old(end) && timer == old(timer) && nextSerial == old(nextSerial)
      ensures sent == old(sent) && retired == old(retired)
    {
      if head as int >= buffer.Length {
        return false;
      }
      buffer[head] := NewWaiting(packet);
      head := Wrap(head as int + 1);
      size := size + 1;
      stored := true;
    }

    /**
     * The end of `send`: when the packet just stored is the only one in the window
     * a fresh timer replaces the old one, which is stopped.
     */
    method ArmIfFirst()
      requires Valid()
      modifies this
      ensures Valid()
      ensures head == old(head) && end == old(end) && size == old(size) && sent == old(sent)
      ensures size == 1 ==> timer == Some(Start(old(nextSerial))) && retired == old(retired) + Retire(old(timer))
      ensures size != 1 ==> timer == old(timer) && retired == old(retired)
    {
      if size == 1 {
        var t := Start(nextSerial);
        nextSerial := nextSerial + 1;
        retired := retired + Retire(timer);
        timer := Some(t);
      }
    }

    /**
     * `recv_ack`: a cumulative ack. When `end <= ack` (plain unsigned order) `end`
     * moves to `ack + 1` and a fresh timer replaces the old one; otherwise nothing
     * changes. `head`, `size` and the slots are never touched.
     */
    method RecvAck(ack: u8)
      requires Valid()
      modifies this
      ensures Valid()
      ensures head == old(head) && size == old(size) && sent == old(sent)
      ensures AckAdvances(old(end), ack) ==>
        && end == Wrap(ack + 1)
        && timer == Some(Start(old(nextSerial)))
        && retired == old(retired) + Retire(old(timer))
      ensures !AckAdvances(old(end), ack) ==> unchanged(this)
    {
      if AckAdvances(end, ack) {
        end := Wrap(ack as int + 1);
        var t := Start(nextSerial);
        nextSerial := nextSerial + 1;
        retired := retired + Retire(timer);
        timer := Some(t);
      }
    }

    /**
     * `recv_ack` with the test evidently intended: only an ack naming an id of the
     * outstanding window `[end, head)` moves `end`, so `end` never passes `head`.
     */
    method RecvAckIntended(ack: u8)
      requires Valid()
      requires end <= head
      modifies this
      ensures Valid()
      ensures end <= head
      ensures head == old(head) && size == old(size) && sent == old(sent)
      ensures AckInWindow(old(end), head, ack) ==>
        && end == ack + 1 && old(end) <= ack
        && timer == Some(Start(old(nextSerial)))
        && retired == old(retired) + Retire(old(timer))
      ensures !AckInWindow(old(end), head, ack) ==> unchanged(this)
    {
      if AckInWindow(end, head, ack) {
        AckInWindowMovesForward(end, head, ack);
        end := Wrap(ack as int + 1);
        var t := Start(nextSerial);
        nextSerial := nextSerial + 1;
        retired := retired + Retire(timer);
        timer := Some(t);
      }
    }

    /**
     * `resend_all`: stops and drops the timer, then loops `while idx == head` from
     * `idx = end`. The loop body runs at most once, only when `end == head`, and then
     * resends slot `head`, which still holds the default packet (slot 255 does not
     * exist, so `unwrap` panics there). A fresh timer is installed unless the send
     * fails.
     */
    method ResendAll(sendOk: bool) returns (r: Outcome<(), GbnError>)
      requires Valid()
      modifies this
      ensures Valid()
      ensures head == old(head) && end == old(end) && size == old(size)
      ensures retired == old(retired) + Retire(old(timer))
      ensures old(end) != old(head) ==>
        r.Success? && sent == old(sent) && timer == Some(Start(old(nextSerial)))
      ensures old(end) == old(head) == 255 ==> r.Panic?
      ensures old(end) == old(head) < 255 && sendOk ==>
        && r.Success?
        && sent == old(sent) + [Encode(DefaultPacket())]
        && timer == Some(Start(old(nextSerial)))
      ensures old(end) == old(head) < 255 && !sendOk ==>
        r == Failure(Io) && sent == old(sent) && timer == None
    {
      retired := retired + Retire(timer);
      timer := None;

      var idx := end;
      ghost var resent: nat := 0;
      while idx == head
        invariant resent <= 1 && (!sendOk ==> resent == 0)
        invariant resent == 0 ==> idx == end && sent == old(sent)
        invariant resent == 1 ==> idx == Wrap(head + 1) && end == head < 255
        invariant resent == 1 ==> sent == old(sent) + [Encode(DefaultPacket())]
        invariant head == old(head) && end == old(end) && size == old(size) && nextSerial == old(nextSerial)
        invariant timer == None && retired == old(retired) + Retire(old(timer))
        decreases 1 - resent
      {
        if idx as int >= buffer.Length {
          return Panic;
        }
        assert buffer[idx] == DefaultStatePacket();
        var frame := WriteCleared(buffer[idx].pkg);
        if !sendOk {
          return Failure(Io);
        }
        sent := sent + [frame];
        idx := Wrap(idx as int + 1);
        resent := resent + 1;
      }

      var t := Start(nextSerial);
      nextSerial := nextSerial + 1;
      timer := Some(t);
      r := Success(());
    }

    /**
     * `resend_all` as evidently intended, looping `while idx != head`: every packet of
     * the window `[end, head)` is resent, oldest first. The window is in order here,
     * as the intended `recv_ack` test keeps it.
     */
    method ResendAllIntended(sendOk: bool) returns (r: Outcome<(), GbnError>)
      requires Valid()
      requires end <= head
      modifies this
      ensures Valid()
      ensures head == old(head) && end == old(end) && size == old(size)
      ensures retired == old(retired) + Retire(old(timer))
      ensures sendOk || old(end) == old(head) ==>
        && r.Success?
        && sent == old(sent) + Frames(buffer[old(end)..old(head)])
        && timer == Some(Start(old(nextSerial)))
      ensures !sendOk && old(end) != old(head) ==>
        r == Failure(Io) && sent == old(sent) && timer == None
    {
      retired := retired + Retire(timer);
      timer := None;

      var ok, frames := TransmitWindow(buffer[end..head], sendOk);
      if !ok {
        return Failure(Io);
      }
      sent := sent + frames;

      var t := Start(nextSerial);
      nextSerial := nextSerial + 1;
      timer := Some(t);
      r := Success(());
    }
  }
}
