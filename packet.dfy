/** The `Packet` record of `src/packet/mod.rs` and the ack helpers of `src/packet/ack.rs`. */
module Packets {
  import opened Bytes
  import opened Flags

  datatype Packet = Packet(packetType: PacketType, packetSplit: PackSplit, identifyCode: u8, body: seq<byte>)

  /** `Packet::default()`: the derived defaults of both enums, id 0 and an empty body. */
  function DefaultPacket(): (p: Packet)
    ensures p == New(0, [], Data, End)
  {
    Packet(Data, End, 0, [])
  }

  /** `Packet::new`: stores the four fields as given. */
  function New(code: u8, body: seq<byte>, ty: PacketType, split: PackSplit): (p: Packet)
    ensures GetId(p) == code && GetBody(p) == body
    ensures p.packetType == ty && p.packetSplit == split
  {
    Packet(ty, split, code, body)
  }

  /** `Packet::new_data`: a single-fragment data packet. */
  function NewData(code: u8, body: seq<byte>): (p: Packet)
    ensures p.packetType == Data && p.packetSplit == End
    ensures GetId(p) == code && GetBody(p) == body
  {
    New(code, body, Data, End)
  }

  function GetBody(p: Packet): seq<byte> {
    p.body
  }

  function GetId(p: Packet): u8 {
    p.identifyCode
  }

  /** The body byte every ack carries. */
  const ACK_SENTINEL: byte := 0xFF

  /** `Ack::new_ack`: an Ack-typed, End-split packet whose id is the acknowledged number. */
  function NewAck(code: u8): (a: Packet)
    ensures a.packetType == Ack && a.packetSplit == End && GetBody(a) == [ACK_SENTINEL]
    ensures GetAckNum(a) == code
  {
    New(code, [ACK_SENTINEL], Ack, End)
  }

  /** `is_correct_ack`: the id matches and the body is exactly the sentinel (the type is not checked). */
  predicate IsCorrectAck(p: Packet, code: u8) {
    p.identifyCode == code && p.body == [ACK_SENTINEL]
  }

  /** `get_ack_num`. */
  function GetAckNum(p: Packet): u8 {
    p.identifyCode
  }

  /** An ack built for one number is accepted for that number and no other. */
  lemma NewAckAcceptedExactly(code: u8, expected: u8)
    ensures IsCorrectAck(NewAck(code), expected) <==> code == expected
  {
  }

  /** `ack_verify_test`: a wrong number or a wrong body is rejected; `new_ack(0)` is accepted for 0. */
  lemma AckVerifyCases()
    ensures !IsCorrectAck(NewAck(0), 1)
    ensures !IsCorrectAck(New(1, [0xFA], Ack, End), 1)
    ensures IsCorrectAck(NewAck(0), 0)
  {
  }
}
