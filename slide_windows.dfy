/**
 * The shared pieces of `src/slide_windows/mod.rs`: the per-packet acknowledgement
 * state, and the retransmission timer reduced to the phases of its task.
 */
module SlideWindows {
  import opened Packets

  /**
   * The life of a timer task: `later_start` leaves it Pending until its starter
   * fires, `start` sets it Running, the delay running out makes it Fired, and
   * `stop` aborts an unfinished task, leaving it Stopped. `serial` tells timers
   * apart, the way distinct task handles are.
   */
  datatype TimerPhase = Pending | Running | Fired | Stopped

  datatype Timer = Timer(serial: nat, phase: TimerPhase) {
    /** `JoinHandle::is_finished`. */
    predicate Finished() {
      phase == Fired || phase == Stopped
    }
  }

  /** `Timer::start`: the delay begins at once. */
  function Start(serial: nat): (t: Timer)
    ensures t.serial == serial && !t.Finished() && t.phase != Pending
  {
    Timer(serial, Running)
  }

  /** `Timer::later_start`: the spawned timer waits for its starter before the delay begins. */
  function LaterStart(serial: nat): (t: Timer)
    ensures t.serial == serial && !t.Finished() && t.phase != Running
  {
    Timer(serial, Pending)
  }

  /** `TimerStarter::start`: lets a Pending timer begin its delay; any other timer is left as it is. */
  function Begin(t: Timer): (r: Timer)
    ensures r.serial == t.serial
    ensures t.phase == Pending ==> r.phase == Running
    ensures t.phase != Pending ==> r == t
  {
    if t.phase == Pending then t.(phase := Running) else t
  }

  /** The delay running out: only a Running timer fires. */
  function Elapse(t: Timer): (r: Timer)
    ensures r.serial == t.serial
    ensures r.phase == Fired <==> t.phase == Running || t.phase == Fired
    ensures t.phase != Running ==> r == t
  {
    if t.phase == Running then t.(phase := Fired) else t
  }

  /** `Timer::stop` (and so dropping a timer): aborts the spawned timer unless it has already finished. */
  function Stop(t: Timer): (r: Timer)
    ensures r.serial == t.serial && r.Finished()
    ensures !t.Finished() ==> r.phase == Stopped
    ensures t.Finished() ==> r == t
  {
    if t.Finished() then t else t.(phase := Stopped)
  }

  /** Stopping twice is stopping once, and a stopped timer never fires. */
  lemma StopIdempotent(t: Timer)
    ensures Stop(Stop(t)) == Stop(t)
    ensures Elapse(Stop(t)) == Stop(t)
    ensures Stop(t).phase == Fired <==> t.phase == Fired
  {
  }

  /** A `later_start` timer does not run out until its starter is called; after that it can. */
  lemma LaterStartWaitsForStarter(serial: nat)
    ensures Elapse(LaterStart(serial)) == LaterStart(serial)
    ensures Elapse(Begin(LaterStart(serial))).phase == Fired
    ensures Stop(LaterStart(serial)).phase == Stopped
  {
  }

  datatype State = WaitingAck | Done

  /** `StatePacket`: a sent packet and whether its ack has arrived. */
  datatype StatePacket = StatePacket(state: State, pkg: Packet)

  /** The derived `Default`: WaitingAck around the default packet. */
  function DefaultStatePacket(): (sp: StatePacket)
    ensures !IsDown(sp) && sp.pkg == DefaultPacket()
  {
    StatePacket(WaitingAck, DefaultPacket())
  }

  /** `StatePacket::new_waiting`. */
  function NewWaiting(p: Packet): (sp: StatePacket)
    ensures !IsDown(sp) && sp.pkg == p
  {
    StatePacket(WaitingAck, p)
  }

  /** `StatePacket::recv_ack`: the packet becomes Done and is kept. */
  function RecvAck(sp: StatePacket): (r: StatePacket)
    ensures IsDown(r) && r.pkg == sp.pkg
  {
    sp.(state := Done)
  }

  /** `StatePacket::is_down`. */
  predicate IsDown(sp: StatePacket) {
    sp.state == Done
  }
}
