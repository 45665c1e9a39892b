/** The Go-Back-N error type and window constant of `src/slide_windows/gbn/`. */
module GoBackN {
  import opened Bytes

  datatype GbnError = Io | BufferFilled | PacketFault | PacketIdMisMatch

  /** `MAX_WINDOWS`: the sender's slot vector holds 255 packets, ids 0 to 254. */
  const MAX_WINDOWS: nat := 255

  /** The capacity guard of `send` as written: `size as usize > MAX_WINDOWS`. */
  predicate WindowFull(size: u8) {
    size as int > MAX_WINDOWS
  }

  /** A `u8` never exceeds 255, so the guard never holds and `BufferFilled` is never returned. */
  lemma WindowFullNeverHolds(size: u8)
    ensures !WindowFull(size)
  {
  }

  /** The guard that evidently was meant: the window is full once it holds `MAX_WINDOWS` packets. */
  predicate WindowFullIntended(size: u8) {
    size as int >= MAX_WINDOWS
  }

  /**
   * With the intended guard, a send that gets past it writes an existing slot: since
   * `size` and `head` move together, `head` is then below 255.
   */
  lemma WindowFullIntendedGuardsIndex(size: u8, head: u8)
    requires size == head
    ensures !WindowFullIntended(size) <==> head < MAX_WINDOWS
    ensures WindowFullIntended(size) <==> head == 255
  {
  }

  /** The test of `recv_ack` as written: a plain unsigned `end <= ack_num`, with no wraparound. */
  predicate AckAdvances(end: u8, ack: u8) {
    end <= ack
  }

  /**
   * A delayed ack for id 255 (the receiver's initial "nothing yet") that arrives once
   * id 0 is acknowledged passes the test and moves `end` back from 1 to 0.
   */
  lemma StaleAckMovesEndBack()
    ensures AckAdvances(1, 255) && Wrap(255 + 1) == 0
  {
  }

  /** The evidently intended test: the ack names an id in the outstanding window `[end, head)`. */
  predicate AckInWindow(end: u8, head: u8, ack: u8) {
    Dist(end, ack) < Dist(end, head)
  }

  /** With the intended test, an accepted ack moves `end` forward and never past `head`. */
  lemma AckInWindowMovesForward(end: u8, head: u8, ack: u8)
    requires AckInWindow(end, head, ack)
    ensures 0 < Dist(end, Wrap(ack + 1)) <= Dist(end, head)
    ensures Dist(end, Wrap(ack + 1)) == Dist(end, ack) + 1
  {
  }

  /** The stale ack 255 of `StaleAckMovesEndBack` is refused by the intended test while ids 1 to 4 are outstanding. */
  lemma StaleAckRefused()
    ensures !AckInWindow(1, 5, 255)
  {
  }
}
