/**
 * The frame codec of `src/packet/io.rs`:
 * `[flags][id][length: 0/1/2/4/8 bytes][body][checksum, big-endian]`.
 * `Encode` and `Decode` state the byte-level format; the methods `Write` and `Read`
 * build and consume a frame step by step, as the source does, and are proved
 * equal to them.
 */
module PacketIo {
  import opened Bytes
  import opened Wrappers
  import opened Flags
  import opened Packets
  import opened Checksum

  /** `read` reports a truncated input as an I/O error (`UnexpectedEof`). */
  datatype ReadError = UnexpectedEof

  /**
   * What `read` ends with: a packet or `None`, an I/O error, or a panic (the
   * `vec![0u8; size]` of a length above `isize::MAX` aborts with a capacity overflow).
   */
  type ReadResult = Outcome<Option<Packet>, ReadError>

  /** `isize::MAX` on a 64-bit target: no `Vec<u8>` holds more bytes than this. */
  const ISIZE_MAX: nat := 0x7FFF_FFFF_FFFF_FFFF

  /** A body that a `Vec<u8>` can hold. */
  predicate Writable(p: Packet) {
    |p.body| <= ISIZE_MAX
  }

  /** Width in bytes of the length field of each category. */
  function Width(c: BodySize): nat {
    match c
    case U64 => 8
    case U32 => 4
    case U16 => 2
    case U8 => 1
    case Single => 0
    case Empty => 0
  }

  /** The flag byte as the `u8` written on the wire. */
  function FlagByte(f: PacketFlag): byte {
    f.bits as int
  }

  function FlagOf(p: Packet): PacketFlag {
    FromPacketInfo(|p.body|, p.packetSplit, p.packetType)
  }

  /** What `write_body_size` writes: `size as uN`, truncated to the width of the category. */
  function LengthField(size: nat, c: BodySize): seq<byte> {
    BeBytes(size % Pow256(Width(c)), Width(c))
  }

  /** Every byte that the checksum covers: flags, id, length field and body. */
  function Unsealed(p: Packet): seq<byte> {
    [FlagByte(FlagOf(p)), p.identifyCode] + LengthField(|p.body|, Category(|p.body|)) + p.body
  }

  /** The complete frame that `write` emits. */
  function Encode(p: Packet): seq<byte> {
    Unsealed(p) + BeBytes(0xFFFF - Sum(Unsealed(p)), 2)
  }

  /** The body length `read_body_size` yields for a category and its length-field bytes. */
  function BodySizeValue(c: BodySize, field: seq<byte>): nat {
    match c
    case Single => 1
    case Empty => 0
    case _ => BeValue(field)
  }

  /** What `read` returns for a received datagram. */
  function Decode(entity: seq<byte>): ReadResult {
    DecodeFrame(entity, true)
  }

  /**
   * `read` as evidently intended: a length field that names more bytes than the
   * datagram has left is refused with `UnexpectedEof` before any body is allocated.
   */
  function DecodeIntended(entity: seq<byte>): ReadResult {
    DecodeFrame(entity, false)
  }

  /**
   * The steps of `read`. With `allocFirst` the body vector is allocated from the
   * length field before its bytes are read, as the source does.
   */
  function DecodeFrame(entity: seq<byte>, allocFirst: bool): ReadResult {
    if Sum(entity) != 0xFFFF then Success(None)
    else if |entity| < 2 then Failure(UnexpectedEof)
    else DecodeFields(PacketFlag(entity[0] as bv8), entity[1], entity[2..], allocFirst)
  }

  /** The rest of `read` once the flag byte and the id are taken. */
  function DecodeFields(flag: PacketFlag, code: u8, rest: seq<byte>, allocFirst: bool): ReadResult {
    match GetPackSize(flag)
    case None =>
      // no body is read; the two checksum bytes still are
      if |rest| < 2 then Failure(UnexpectedEof) else Success(None)
    case Some(c) =>
      if |rest| < Width(c) then Failure(UnexpectedEof)
      else
        var size := BodySizeValue(c, rest[..Width(c)]);
        var tail := rest[Width(c)..];
        if allocFirst && size > ISIZE_MAX then Panic
        else if |tail| < size || |tail| - size < 2 then Failure(UnexpectedEof)
        else
          match (GetPackType(flag), GetPackSplit(flag))
          case (Some(ty), Some(split)) => Success(Some(New(code, tail[..size], ty, split)))
          case _ => Success(None)
  }

  /** `write_body_size`: appends the length field for the category `flag` names. */
  method WriteBodySize(size: nat, flag: PacketFlag, writer: seq<byte>) returns (out: seq<byte>, n: nat)
    requires GetPackSize(flag).Some?
    ensures n == Width(GetPackSize(flag).value)
    ensures out == writer + LengthField(size, GetPackSize(flag).value)
    ensures GetPackSize(flag) == Some(Single) || GetPackSize(flag) == Some(Empty) ==> out == writer
  {
    match GetPackSize(flag).value
    case U64 =>
      out := writer + BeBytes(size % Pow256(8), 8);
      n := 8;
    case U32 =>
      out := writer + BeBytes(size % Pow256(4), 4);
      n := 4;
    case U16 =>
      out := writer + BeBytes(size % Pow256(2), 2);
      n := 2;
    case U8 =>
      out := writer + BeBytes(size % Pow256(1), 1);
      n := 1;
    case Single =>
      out := writer;
      n := 0;
    case Empty =>
      out := writer;
      n := 0;
  }

  /** `test_write_body_size`: a 3-byte body takes a one-byte length field holding 3. */
  method WriteBodySizeOfThree() returns (buf: seq<byte>)
    ensures buf == [3]
  {
    var flag := FromPacketInfo(3, End, Data);
    FromPacketInfoReadsBack(3, End, Data);
    var n;
    buf, n := WriteBodySize(3, flag, []);
  }

  /**
   * `write`: builds flags, id, length field and body in a scratch vector, appends it
   * to the writer followed by its checksum, and returns the number of bytes written.
   */
  method Write(p: Packet, writer: seq<byte>) returns (out: seq<byte>, n: nat)
    ensures out == writer + Encode(p)
    ensures n == |Encode(p)| == 4 + Width(Category(|p.body|)) + |p.body|
  {
    var flag := FromPacketInfo(|p.body|, p.packetSplit, p.packetType);
    FromPacketInfoReadsBack(|p.body|, p.packetSplit, p.packetType);
    var bufWriter: seq<byte> := [];
    bufWriter := bufWriter + [FlagByte(flag)];
    bufWriter := bufWriter + [p.identifyCode];
    var width;
    bufWriter, width := WriteBodySize(|p.body|, flag, bufWriter);
    bufWriter := bufWriter + p.body;
    assert bufWriter == Unsealed(p);
    var verify := VerifyInfoGen(bufWriter);
    out := writer + bufWriter;
    var size := |bufWriter|;
    out := out + BeBytes(verify, 2);
    n := 2 + size;
  }

  /**
   * The `buf.clear(); let size = p.write(buf)?; &buf[0..size]` idiom of the senders
   * and receivers: the bytes handed to the socket are exactly the frame.
   */
  method WriteCleared(p: Packet) returns (frame: seq<byte>)
    ensures frame == Encode(p)
  {
    var buf, size := Write(p, []);
    frame := buf[..size];
  }

  /** `read_body_size`: the body length named by the flag, consuming its length field. */
  method ReadBodySize(flag: PacketFlag, reader: seq<byte>) returns (r: Result<Option<nat>, ReadError>, rest: seq<byte>)
    ensures GetPackSize(flag).None? ==> r == Ok(None) && rest == reader
    ensures GetPackSize(flag).Some? && |reader| < Width(GetPackSize(flag).value) ==> r == Err(UnexpectedEof)
    ensures GetPackSize(flag).Some? && |reader| >= Width(GetPackSize(flag).value) ==>
      var w := Width(GetPackSize(flag).value);
      r == Ok(Some(BodySizeValue(GetPackSize(flag).value, reader[..w]))) && rest == reader[w..]
  {
    rest := reader;
    var size := GetPackSize(flag);
    if size.None? {
      return Ok(None), rest;
    }
    match size.value
    case Single =>
      r := Ok(Some(1));
    case Empty =>
      r := Ok(Some(0));
    case _ =>
      var w := Width(size.value);
      if |reader| < w {
        return Err(UnexpectedEof), rest;
      }
      r := Ok(Some(BeValue(reader[..w])));
      rest := reader[w..];
  }

  /**
   * `read`: drops a datagram whose checksum fails; otherwise consumes flags, id,
   * length field, body and checksum in turn.
   */
  method Read(entity: seq<byte>) returns (r: ReadResult)
    ensures r == Decode(entity)
    ensures r.Success? && r.value.Some? ==> Sum(entity) == 0xFFFF
  {
    var verified := Verify(entity);
    if !verified {
      return Success(None);
    }
    var reader := entity;
    if |reader| < 1 {
      return Failure(UnexpectedEof);
    }
    var flag := PacketFlag(reader[0] as bv8);
    reader := reader[1..];
    if |reader| < 1 {
      return Failure(UnexpectedEof);
    }
    var code := reader[0];
    reader := reader[1..];
    assert reader == entity[2..];
    var size;
    size, reader := ReadBodySize(flag, reader);
    if size.Err? {
      return Failure(size.error);
    }
    var ty := GetPackType(flag);
    var split := GetPackSplit(flag);
    var body: Option<seq<byte>> := None;
    if size.value.Some? {
      var n := size.value.value;
      if n > ISIZE_MAX {
        // `vec![0u8; n]`: capacity overflow
        return Panic;
      }
      if |reader| < n {
        return Failure(UnexpectedEof);
      }
      body := Some(reader[..n]);
      reader := reader[n..];
    }
    if |reader| < 2 {
      return Failure(UnexpectedEof);
    }
    reader := reader[2..];
    if body.Some? && ty.Some? && split.Some? {
      r := Success(Some(New(code, body.value, ty.value, split.value)));
    } else {
      r := Success(None);
    }
  }

  /** The length field of every writable body reads back as the body's length. */
  lemma CategoryHoldsLength(n: nat)
    requires n < Pow256(8)
    ensures BodySizeValue(Category(n), LengthField(n, Category(n))) == n
  {
    var c := Category(n);
    if c != Single && c != Empty {
      var w := Width(c);
      FitsWidth(n);
      assert n % Pow256(w) == n;
      BeRoundTrip(n, w);
    }
  }

  /** A length of two or more fits the width of the field its category selects. */
  lemma FitsWidth(n: nat)
    requires 2 <= n < Pow256(8)
    ensures n < Pow256(Width(Category(n)))
  {
    Pow256Widths();
  }

  /** The flag byte read back is the flag written. */
  lemma FlagByteBack(f: PacketFlag)
    ensures PacketFlag(FlagByte(f) as bv8) == f
  {
  }

  /** The fields after the header of a well-formed frame parse back to the packet. */
  lemma FieldsWellFormed(p: Packet, lf: seq<byte>, after: seq<byte>)
    requires lf == LengthField(|p.body|, Category(|p.body|))
    requires BodySizeValue(Category(|p.body|), lf) == |p.body|
    requires |after| == |p.body| + 2 && after[..|p.body|] == p.body
    requires |p.body| <= ISIZE_MAX
    ensures DecodeFields(FlagOf(p), p.identifyCode, lf + after, true) == Success(Some(p))
  {
    var rest := lf + after;
    var c := Category(|p.body|);
    FromPacketInfoReadsBack(|p.body|, p.packetSplit, p.packetType);
    assert |lf| == Width(c);
    assert rest[..Width(c)] == lf && rest[Width(c)..] == after;
  }

  /** A written frame is the flag byte and the id, then the length field, the body and the checksum. */
  lemma EncodeShape(p: Packet)
    requires Writable(p)
    ensures var ck := BeBytes(0xFFFF - Sum(Unsealed(p)), 2);
      Encode(p) == [FlagByte(FlagOf(p)), p.identifyCode] + (LengthField(|p.body|, Category(|p.body|)) + (p.body + ck))
  {
    var head := [FlagByte(FlagOf(p)), p.identifyCode];
    var lf := LengthField(|p.body|, Category(|p.body|));
    var ck := BeBytes(0xFFFF - Sum(Unsealed(p)), 2);
    assert Encode(p) == ((head + lf) + p.body) + ck;
    SeqAssoc3(head, lf, p.body, ck);
  }

  /** A written frame carries a checksum that `verify` accepts. */
  lemma EncodeChecks(p: Packet)
    ensures Sum(Encode(p)) == 0xFFFF
  {
    ChecksumRoundTrip(Unsealed(p));
  }

  lemma SeqAssoc3(a: seq<byte>, b: seq<byte>, c: seq<byte>, d: seq<byte>)
    ensures ((a + b) + c) + d == a + (b + (c + d))
  {
  }

  /** Round trip: reading a written frame gives back the packet. */
  lemma RoundTrip(p: Packet)
    requires Writable(p)
    ensures Decode(Encode(p)) == Success(Some(p))
  {
    Pow256Widths();
    EncodeShape(p);
    EncodeChecks(p);
    CategoryHoldsLength(|p.body|);
    FlagByteBack(FlagOf(p));
    var frame := Encode(p);
    var lf := LengthField(|p.body|, Category(|p.body|));
    var after := p.body + BeBytes(0xFFFF - Sum(Unsealed(p)), 2);
    assert after[..|p.body|] == p.body;
    FieldsWellFormed(p, lf, after);
    assert frame[2..] == lf + after;
  }

  /** A datagram whose flag byte names no known type, split or size never decodes to a packet. */
  lemma UnknownFlagNeverDecodes(entity: seq<byte>)
    requires |entity| >= 1
    requires var f := PacketFlag(entity[0] as bv8);
      GetPackType(f).None? || GetPackSplit(f).None? || GetPackSize(f).None?
    ensures Decode(entity).Success? ==> Decode(entity).value.None?
  {
  }

  /**
   * An ack encodes to five bytes: flag 0x6A (End | Single | Ack), the number,
   * the sentinel 0xFF and the checksum of those three.
   */
  lemma AckFrame(code: u8)
    ensures Encode(NewAck(code)) == [0x6A, code, 0xFF] + BeBytes(0xFFFF - Sum([0x6A, code, 0xFF]), 2)
    ensures |Encode(NewAck(code))| == 5
  {
    var a := NewAck(code);
    assert FlagOf(a).bits == 0x6A;
    assert LengthField(1, Single) == [];
    assert Unsealed(a) == [0x6A, code, 0xFF];
  }

  /** Ten header bytes: End | U64 | Data, the id, and a length field of eight 0xFF bytes. */
  function HugeLengthHeader(code: u8): seq<byte> {
    [0x49, code, 0xFF, 0xFF, 0xFF, 0xFF, 0xFF, 0xFF, 0xFF, 0xFF]
  }

  /** That header sealed with its checksum: a 12-byte datagram anyone can send. */
  function HugeLengthFrame(code: u8): seq<byte> {
    HugeLengthHeader(code) + BeBytes(0xFFFF - Sum(HugeLengthHeader(code)), 2)
  }

  /**
   * Whatever its id, the 12-byte frame passes the checksum and names a body of
   * 2^64 - 1 bytes, so `read` panics allocating it; the intended `read` refuses it
   * as truncated.
   */
  lemma HugeLengthPanics(code: u8)
    ensures |HugeLengthFrame(code)| == 12 && Sum(HugeLengthFrame(code)) == 0xFFFF
    ensures Decode(HugeLengthFrame(code)).Panic?
    ensures DecodeIntended(HugeLengthFrame(code)) == Failure(UnexpectedEof)
  {
    var e := HugeLengthFrame(code);
    HugeLengthFields(code);
    assert GetPackSize(PacketFlag(0x49)) == Some(U64);
    PanicNeedsHugeLength(e);
    DecodeIntendedAgrees(e);
  }

  /** The frame verifies, its flag byte is 0x49 and its length field reads as 2^64 - 1. */
  lemma HugeLengthFields(code: u8)
    ensures var e := HugeLengthFrame(code);
      |e| == 12 && Sum(e) == 0xFFFF && e[0] == 0x49 && BeValue(e[2..10]) == Pow256(8) - 1
  {
    var h := HugeLengthHeader(code);
    var e := HugeLengthFrame(code);
    ChecksumRoundTrip(h);
    assert e[..10] == h;
    var field: seq<byte> := [0xFF, 0xFF, 0xFF, 0xFF, 0xFF, 0xFF, 0xFF, 0xFF];
    assert e[2..10] == field;
    AllOnes(field);
  }

  /** `k` bytes of 0xFF read big-endian as 256^k - 1. */
  lemma {:induction false} AllOnes(s: seq<byte>)
    requires forall i :: 0 <= i < |s| ==> s[i] == 0xFF
    ensures BeValue(s) == Pow256(|s|) - 1
  {
    if |s| > 0 {
      AllOnes(s[..|s| - 1]);
    }
  }

  /**
   * `read` panics exactly on a datagram that passes the checksum and has a U64
   * length field naming more than `isize::MAX` bytes.
   */
  lemma PanicNeedsHugeLength(entity: seq<byte>)
    ensures Decode(entity).Panic? <==>
      && Sum(entity) == 0xFFFF && |entity| >= 10
      && GetPackSize(PacketFlag(entity[0] as bv8)) == Some(U64)
      && BeValue(entity[2..10]) > ISIZE_MAX
  {
    Pow256Widths();
    if Sum(entity) == 0xFFFF && |entity| >= 2 {
      var rest := entity[2..];
      match GetPackSize(PacketFlag(entity[0] as bv8))
      case None =>
      case Some(c) =>
        if |rest| >= Width(c) {
          assert BodySizeValue(c, rest[..Width(c)]) < Pow256(Width(c)) || c == Single || c == Empty;
          if c == U64 {
            assert rest[..8] == entity[2..10];
          }
        }
    }
  }

  /** The intended `read` never panics. */
  lemma DecodeIntendedNeverPanics(entity: seq<byte>)
    ensures !DecodeIntended(entity).Panic?
  {
  }

  /**
   * The intended `read` agrees with `read` wherever `read` does not panic, and where
   * it does, a datagram that fits in memory is refused as truncated.
   */
  lemma DecodeIntendedAgrees(entity: seq<byte>)
    ensures !Decode(entity).Panic? ==> DecodeIntended(entity) == Decode(entity)
    ensures Decode(entity).Panic? && |entity| <= ISIZE_MAX ==> DecodeIntended(entity) == Failure(UnexpectedEof)
  {
  }

  /** The intended `read` keeps the round trip. */
  lemma RoundTripIntended(p: Packet)
    requires Writable(p)
    ensures DecodeIntended(Encode(p)) == Success(Some(p))
  {
    RoundTrip(p);
    DecodeIntendedAgrees(Encode(p));
  }
}
