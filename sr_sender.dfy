/**
 * `SelectResendSender` of `src/slide_windows/sr/sender.rs`: every outstanding
 * packet keeps its own timer in a `CycleBuffer` of 128. The socket is reduced to
 * `sendOk` and the ghost record `sent`; timers that are stopped and dropped are
 * kept in `retired`.
 */
module SrSender {
  import opened Bytes
  import opened Wrappers
  import opened Packets
  import opened PacketIo
  import opened SlideWindows
  import opened SelectResend
  import CB = CycleBuffers

  /** A slot's payload: the packet's own timer and the packet. */
  datatype Outstanding = Outstanding(timer: Timer, pkg: Packet)

  type Slot = CB.BufferWrap<Outstanding>

  /** What `recv_ack` does to the acknowledged slot: a Waiting one has its timer stopped and becomes Done. */
  function MarkAcked(w: Slot): (r: Slot)
    requires w.Data?
    ensures r.IsDown() && r.data.pkg == w.data.pkg
    ensures w.state == CB.Waiting ==> r.data.timer == Stop(w.data.timer)
    ensures w.state == CB.Done ==> r == w
  {
    if w.state == CB.Waiting then CB.Data(w.data.(timer := Stop(w.data.timer)), CB.Done) else w
  }

  /** Only the `s` slots from `b` on hold data. */
  ghost predicate DataInWindow(slots: seq<Slot>, b: u8, s: nat)
    requires |slots| == 256
  {
    forall i :: 0 <= i < 256 && slots[i].Data? ==> Dist(b, i) < s
  }

  /** After a slide, a slot still holding data lies in the shrunk window. */
  lemma SlideKeepsDataInWindow(slots: seq<Slot>, b: u8, s: nat, n: nat)
    requires |slots| == 256 && n <= s < 256
    requires DataInWindow(slots, b, s)
    ensures DataInWindow(CB.ClearRun(slots, b, n), Wrap(b + n), s - n)
  {
    forall i | 0 <= i < 256 && CB.ClearRun(slots, b, n)[i].Data?
      ensures Dist(Wrap(b + n), i) < s - n
    {
      assert Dist(b, i) == Dist(Wrap(b + n), i) + n;
    }
  }

  /**
   * The slots a slide passes were all Done once `ack` was marked: apart from `ack`
   * itself, they were Done before the ack arrived.
   */
  lemma SlidPrefixWasDone(before: seq<Slot>, ack: u8, b: u8, s: nat)
    requires |before| == 256 && s < 256 && before[ack].Data?
    ensures var marked := before[ack := MarkAcked(before[ack])];
      var n := CB.DoneRun(marked, b, s);
      forall i :: 0 <= i < 256 && Dist(b, i) < Dist(b, Wrap(b + n)) ==> i == ack || before[i].IsDown()
  {
    var marked := before[ack := MarkAcked(before[ack])];
    var n := CB.DoneRun(marked, b, s);
    CB.DoneRunSpec(marked, b, s);
    DistWrap(b, n);
  }

  class SelectResendSender {
    const buffer: CB.CycleBuffer<Outstanding>
    var nextSerial: nat
    ghost var sent: seq<seq<byte>>
    ghost var retired: seq<Timer>

    /**
     * The buffer's own invariant with capacity 128, and no data outside the window:
     * this sender never calls `set_button`, the only operation that leaves data behind.
     */
    ghost predicate Valid()
      reads this, buffer, buffer.buffer
    {
      buffer.Valid() && buffer.S == MAX_WINDOWS_SIZE &&
      DataInWindow(buffer.buffer[..], buffer.button, buffer.size)
    }

    /** `SelectResendSender::new`: an empty window at 0. */
    constructor ()
      ensures Valid() && fresh(buffer) && fresh(buffer.buffer)
      ensures buffer.top == 0 && buffer.button == 0 && buffer.size == 0
      ensures sent == [] && retired == []
    {
      buffer := new CB.CycleBuffer<Outstanding>(MAX_WINDOWS_SIZE);
      nextSerial := 0;
      sent, retired := [], [];
    }

    /**
     * `send`: data packet `top` with a `later_start` timer is pushed; when the window
     * is full the push fails, the timer is dropped and nothing is sent. Otherwise the
     * frame is sent and, only if that succeeds, the timer is started.
     */
    method Send(body: seq<byte>, sendOk: bool) returns (r: Result<(), SrError>)
      requires Valid()
      modifies this, buffer, buffer.buffer
      ensures Valid()
      ensures var id := old(buffer.top);
        var t := LaterStart(old(nextSerial));
        var pkt := NewData(id, body);
        && (old(buffer.size) == MAX_WINDOWS_SIZE ==>
             && r == Err(CycleBuffer(CB.BufferFilled))
             && buffer.buffer[..] == old(buffer.buffer[..])
             && buffer.top == old(buffer.top) && buffer.button == old(buffer.button) && buffer.size == old(buffer.size)
             && sent == old(sent) && retired == old(retired) + [Stop(t)])
        && (old(buffer.size) < MAX_WINDOWS_SIZE ==>
             && buffer.top == Wrap(id + 1) && buffer.size == old(buffer.size) + 1
             && buffer.button == old(buffer.button)
             && buffer.buffer[..] == old(buffer.buffer[..])[id := CB.Data(Outstanding(if sendOk then Begin(t) else t, pkt), CB.Waiting)]
             && retired == old(retired)
             && (sendOk ==> r == Ok(()) && sent == old(sent) + [Encode(pkt)])
             && (!sendOk ==> r == Err(Io) && sent == old(sent)))
    {
      var id := buffer.top;
      var packet := NewData(id, body);
      var frame := WriteCleared(packet);

      var t := LaterStart(nextSerial);
      nextSerial := nextSerial + 1;
      var pushed := Store(packet, t);
      if pushed.Err? {
        retired := retired + [Stop(t)];
        return Err(CycleBuffer(pushed.error));
      }
      if !sendOk {
        return Err(Io);
      }
      sent := sent + [frame];

      SetWaiting(id, Outstanding(Begin(t), packet));
      r := Ok(());
    }

    /** The push of `send`: slot `top` takes the packet and its timer, Waiting, unless the window is full. */
    method Store(packet: Packet, t: Timer) returns (r: Result<(), CB.CbError>)
      requires Valid()
      modifies buffer, buffer.buffer
      ensures Valid()
      ensures old(buffer.size) == MAX_WINDOWS_SIZE ==>
        && r == Err(CB.BufferFilled) && buffer.buffer[..] == old(buffer.buffer[..])
        && buffer.top == old(buffer.top) && buffer.button == old(buffer.button) && buffer.size == old(buffer.size)
      ensures old(buffer.size) < MAX_WINDOWS_SIZE ==>
        && r == Ok(())
        && buffer.buffer[..] == old(buffer.buffer[..])[old(buffer.top) := CB.Data(Outstanding(t, packet), CB.Waiting)]
        && buffer.top == Wrap(old(buffer.top) + 1) && buffer.size == old(buffer.size) + 1
        && buffer.button == old(buffer.button)
    {
      ghost var id := buffer.top;
      r := buffer.Push(Outstanding(t, packet));
      assert Dist(buffer.button, id) == old(buffer.size);
    }

    /** `set_waiting_data` on a Waiting slot: its payload is replaced and it stays Waiting. */
    method SetWaiting(id: u8, data: Outstanding)
      requires Valid()
      requires buffer.buffer[id].Data? && buffer.buffer[id].state == CB.Waiting
      modifies buffer.buffer
      ensures Valid()
      ensures buffer.buffer[..] == old(buffer.buffer[..])[id := CB.Data(data, CB.Waiting)]
    {
      buffer.SetWaitingData(id, data);
    }

    /** `slide_buff` from this sender: the window invariant and the absence of data outside it are kept. */
    method Slide()
      requires Valid()
      modifies buffer, buffer.buffer
      ensures Valid()
      ensures var n := CB.DoneRun(old(buffer.buffer[..]), old(buffer.button), old(buffer.size));
        && buffer.button == Wrap(old(buffer.button) + n) && buffer.size == old(buffer.size) - n
        && buffer.top == old(buffer.top)
        && buffer.buffer[..] == CB.ClearRun(old(buffer.buffer[..]), old(buffer.button), n)
    {
      ghost var slots := buffer.buffer[..];
      ghost var b0, s0 := buffer.button, buffer.size;
      buffer.SlideBuff();
      SlideKeepsDataInWindow(slots, b0, s0, CB.DoneRun(slots, b0, s0));
    }

    /**
     * `recv_ack`: stops the timer of a Waiting slot, marks the slot Done and slides
     * over the Done prefix. A slot outside the window is Nil, and `buffer_down`
     * reaches `todo!()` there: `recv_ack` panics.
     */
    method RecvAck(ack: u8) returns (panicked: bool)
      requires Valid()
      modifies buffer, buffer.buffer
      ensures Valid()
      ensures panicked <==> Dist(old(buffer.button), ack) >= old(buffer.size)
      ensures panicked ==>
        buffer.buffer[..] == old(buffer.buffer[..]) &&
        buffer.button == old(buffer.button) && buffer.size == old(buffer.size) && buffer.top == old(buffer.top)
      ensures !panicked ==>
        var marked := old(buffer.buffer[..])[ack := MarkAcked(old(buffer.buffer[ack]))];
        var n := CB.DoneRun(marked, old(buffer.button), old(buffer.size));
        && buffer.buffer[..] == CB.ClearRun(marked, old(buffer.button), n)
        && buffer.button == Wrap(old(buffer.button) + n)
        && buffer.size == old(buffer.size) - n && buffer.top == old(buffer.top)
      ensures forall i :: 0 <= i < 256 && Dist(old(buffer.button), i) < Dist(old(buffer.button), buffer.button) ==>
        i == ack || old(buffer.buffer[i]).IsDown()
    {
      ghost var slots0 := buffer.buffer[..];
      ghost var b0, s0 := buffer.button, buffer.size;
      var held := AckSlot(ack);
      if !held {
        return true;
      }
      SlidPrefixWasDone(slots0, ack, b0, s0);
      Slide();
      panicked := false;
    }

    /**
     * The first half of `recv_ack`: stops the timer of a Waiting slot through
     * `get_mut`, then `buffer_down` marks the slot Done. `held` is false exactly when
     * the slot is Nil, where `buffer_down` reaches `todo!()`; nothing has changed then.
     */
    method AckSlot(ack: u8) returns (held: bool)
      requires Valid()
      modifies buffer.buffer
      ensures Valid()
      ensures held <==> Dist(buffer.button, ack) < buffer.size
      ensures held ==> buffer.buffer[..] == old(buffer.buffer[..])[ack := MarkAcked(old(buffer.buffer[ack]))]
      ensures !held ==> buffer.buffer[..] == old(buffer.buffer[..])
    {
      var w := buffer.Get(ack);
      if w.Some? {
        buffer.SetWaitingData(ack, w.value.(timer := Stop(w.value.timer)));
      }
      if buffer.buffer[ack].Nil? {
        return false;
      }
      buffer.BufferDown(ack);
      held := true;
    }

    /**
     * `select_resend`: for a Waiting slot, stops its timer, installs a fresh
     * `later_start` one, resends the packet and starts the new timer if the send
     * succeeded. Any other slot is left alone and the call succeeds.
     */
    method SelectResend(id: u8, sendOk: bool) returns (r: Result<(), SrError>)
      requires Valid()
      modifies this, buffer.buffer
      ensures Valid()
      ensures buffer.button == old(buffer.button) && buffer.top == old(buffer.top) && buffer.size == old(buffer.size)
      ensures !(old(buffer.buffer[id]).Data? && old(buffer.buffer[id]).state == CB.Waiting) ==>
        r == Ok(()) && buffer.buffer[..] == old(buffer.buffer[..]) && sent == old(sent) && retired == old(retired)
      ensures old(buffer.buffer[id]).Data? && old(buffer.buffer[id]).state == CB.Waiting ==>
        var held := old(buffer.buffer[id]).data;
        var t := LaterStart(old(nextSerial));
        && retired == old(retired) + [Stop(held.timer)]
        && buffer.buffer[..] == old(buffer.buffer[..])[id := CB.Data(Outstanding(if sendOk then Begin(t) else t, held.pkg), CB.Waiting)]
        && (sendOk ==> r == Ok(()) && sent == old(sent) + [Encode(held.pkg)])
        && (!sendOk ==> r == Err(Io) && sent == old(sent))
    {
      var held := buffer.Get(id);
      if held.None? {
        return Ok(());
      }
      var packet := held.value.pkg;
      retired := retired + [Stop(held.value.timer)];
      var t := LaterStart(nextSerial);
      nextSerial := nextSerial + 1;
      SetWaiting(id, Outstanding(t, packet));

      var frame := WriteCleared(packet);
      if !sendOk {
        return Err(Io);
      }
      sent := sent + [frame];
      SetWaiting(id, Outstanding(Begin(t), packet));
      r := Ok(());
    }
  }
}
