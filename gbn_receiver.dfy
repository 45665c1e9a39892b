/**
 * `GoBackNReceiver` of `src/slide_windows/gbn/receiver.rs`: accepts only the next
 * id in order and answers every packet with the ack of the last one accepted. The
 * socket is reduced to `sendOk` and the ghost record `sent` of datagrams it took.
 */
module GbnReceiver {
  import opened Bytes
  import opened Wrappers
  import opened Packets
  import opened PacketIo
  import opened GoBackN

  class GoBackNReceiver {
    var lastAck: Packet
    var pkgId: u8
    ghost var sent: seq<seq<byte>>

    /** The ack held is always for the id just before the expected one: the last id accepted, or 255 before any. */
    ghost predicate Valid()
      reads this
    {
      lastAck == NewAck(Wrap(pkgId + 255))
    }

    /** `GoBackNReceiver::new`: expects id 0 and holds `new_ack(255)`. */
    constructor ()
      ensures Valid() && pkgId == 0 && lastAck == NewAck(255) && sent == []
    {
      lastAck := NewAck(255);
      pkgId := 0;
      sent := [];
    }

    /**
     * `receive`: the expected id is accepted (its body returned, the ack updated, the
     * expected id advanced); any other id is refused with `PacketIdMisMatch`. Either
     * way the held ack is sent; if that fails the I/O error is returned instead,
     * after the state has changed.
     */
    method Receive(packet: Packet, sendOk: bool) returns (r: Result<seq<byte>, GbnError>)
      requires Valid()
      modifies this
      ensures Valid()
      ensures GetId(packet) == old(pkgId) ==>
        lastAck == NewAck(old(pkgId)) && pkgId == Wrap(old(pkgId) + 1)
      ensures GetId(packet) != old(pkgId) ==>
        lastAck == old(lastAck) && pkgId == old(pkgId)
      ensures sendOk ==> sent == old(sent) + [Encode(lastAck)]
      ensures sendOk && GetId(packet) == old(pkgId) ==> r == Ok(GetBody(packet))
      ensures sendOk && GetId(packet) != old(pkgId) ==> r == Err(PacketIdMisMatch)
      ensures !sendOk ==> r == Err(Io) && sent == old(sent)
    {
      var resp: Result<seq<byte>, GbnError>;
      if GetId(packet) == pkgId {
        lastAck := NewAck(pkgId);
        pkgId := Wrap(pkgId as int + 1);
        resp := Ok(GetBody(packet));
      } else {
        resp := Err(PacketIdMisMatch);
      }

      var ok := SendAck(sendOk);
      if !ok {
        return Err(Io);
      }
      r := resp;
    }

    /** `send_ack`: writes the held ack into a cleared buffer and sends it. */
    method SendAck(sendOk: bool) returns (ok: bool)
      modifies this
      ensures ok == sendOk
      ensures lastAck == old(lastAck) && pkgId == old(pkgId)
      ensures sent == old(sent) + (if sendOk then [Encode(lastAck)] else [])
    {
      var frame := WriteCleared(lastAck);
      if !sendOk {
        return false;
      }
      sent := sent + [frame];
      ok := true;
    }
  }

  /** The ack every reply carries names the last id accepted in order, 255 before any. */
  lemma AckNamesLastInOrder(pkgId: u8, lastAck: Packet)
    requires lastAck == NewAck(Wrap(pkgId + 255))
    ensures GetAckNum(lastAck) == (if pkgId == 0 then 255 else pkgId - 1)
    ensures |Encode(lastAck)| == 5
  {
    AckFrame(Wrap(pkgId + 255));
  }
}
