/**
 * The flag byte of `src/packet/flags.rs`. It packs three fields into disjoint bit
 * ranges: the split (bits 7-6), the body-size category (bits 5-3) and the packet
 * type (bits 2-0).
 */
module Flags {
  import opened Bytes
  import opened Wrappers

  datatype PackSplit = End | Follow
  datatype BodySize = U64 | U32 | U16 | U8 | Single | Empty
  datatype PacketType = Data | Ack | Leave

  /** `PacketFlag(u8)`. */
  datatype PacketFlag = PacketFlag(bits: bv8)

  const SPLIT_MASK: bv8 := 0xC0
  const SIZE_MASK: bv8 := 0x38
  const TYPE_MASK: bv8 := 0x07

  const END_PACKET: bv8 := 0x40
  const FOLLOW_PACKET: bv8 := 0x80

  const U64_SIZE: bv8 := 0x08
  const U32_SIZE: bv8 := 0x10
  const U16_SIZE: bv8 := 0x18
  const U8_SIZE: bv8 := 0x20
  const SINGLE: bv8 := 0x28
  const EMPTY: bv8 := 0x30

  const DATA: bv8 := 0x01
  const ACK: bv8 := 0x02
  const LEAVE: bv8 := 0x03

  const U8_MAX: nat := 0xFF
  const U16_MAX: nat := 0xFFFF
  const U32_MAX: nat := 0xFFFF_FFFF

  function SplitBits(split: PackSplit): bv8 {
    match split
    case End => END_PACKET
    case Follow => FOLLOW_PACKET
  }

  function SizeBits(size: BodySize): bv8 {
    match size
    case U64 => U64_SIZE
    case U32 => U32_SIZE
    case U16 => U16_SIZE
    case U8 => U8_SIZE
    case Single => SINGLE
    case Empty => EMPTY
  }

  function TypeBits(ty: PacketType): bv8 {
    match ty
    case Data => DATA
    case Ack => ACK
    case Leave => LEAVE
  }

  /** Each constant lies inside its own field's mask, and the masks are disjoint. */
  lemma FieldsDisjoint(split: PackSplit, size: BodySize, ty: PacketType)
    ensures SplitBits(split) & SPLIT_MASK == SplitBits(split) && SplitBits(split) & (SIZE_MASK | TYPE_MASK) == 0
    ensures SizeBits(size) & SIZE_MASK == SizeBits(size) && SizeBits(size) & (SPLIT_MASK | TYPE_MASK) == 0
    ensures TypeBits(ty) & TYPE_MASK == TypeBits(ty) && TypeBits(ty) & (SPLIT_MASK | SIZE_MASK) == 0
    ensures SPLIT_MASK & SIZE_MASK == 0 && SPLIT_MASK & TYPE_MASK == 0 && SIZE_MASK & TYPE_MASK == 0
  {
  }

  /** The size category of the first branches of `from_packet_info`. */
  function Category(size: nat): BodySize {
    if size == 0 then Empty
    else if size == 1 then Single
    else if size <= U8_MAX then U8
    else if size <= U16_MAX then U16
    else if size <= U32_MAX then U32
    else U64
  }

  /** Whether a body of `size` bytes can be described by category `c`. */
  predicate Fits(c: BodySize, size: nat) {
    match c
    case Empty => size == 0
    case Single => size == 1
    case U8 => size <= U8_MAX
    case U16 => size <= U16_MAX
    case U32 => size <= U32_MAX
    case U64 => size < Pow256(8)
  }

  /** Categories from the narrowest to the widest. */
  function Rank(c: BodySize): nat {
    match c
    case Empty => 0
    case Single => 1
    case U8 => 2
    case U16 => 3
    case U32 => 4
    case U64 => 5
  }

  /** `Category` picks the narrowest category that can describe the length. */
  lemma CategoryIsNarrowest(size: nat, c: BodySize)
    requires size < Pow256(8)
    ensures Fits(Category(size), size)
    ensures Fits(c, size) ==> Rank(Category(size)) <= Rank(c)
  {
    Pow256Widths();
  }

  /** `from_packet_info`: the three constants OR-ed together. */
  function FromPacketInfo(size: nat, split: PackSplit, ty: PacketType): PacketFlag {
    PacketFlag(SizeBits(Category(size)) | SplitBits(split) | TypeBits(ty))
  }

  /** Each field of a built flag reads back as what it was built from. */
  lemma FromPacketInfoReadsBack(size: nat, split: PackSplit, ty: PacketType)
    ensures var f := FromPacketInfo(size, split, ty);
      && GetPackSize(f) == Some(Category(size))
      && GetPackSplit(f) == Some(split)
      && GetPackType(f) == Some(ty)
  {
  }

  /** `contains`: the two flags share at least one set bit. */
  function Contains(a: PacketFlag, b: PacketFlag): (r: bool)
    ensures r <==> exists i :: 0 <= i < 8 && Bit(a.bits, i) && Bit(b.bits, i)
  {
    SharedBit(a.bits, b.bits);
    a.bits & b.bits > 0
  }

  /** Two bytes AND to something non-zero iff some bit is set in both. */
  lemma SharedBit(x: bv8, y: bv8)
    ensures x & y != 0 <==> exists i :: 0 <= i < 8 && Bit(x, i) && Bit(y, i)
  {
    AndBits(x, y);
    NonZeroHasBit(x & y);
    if x & y != 0 {
      var i :| 0 <= i < 8 && Bit(x & y, i);
      assert Bit(x, i) && Bit(y, i);
    } else {
      forall i | 0 <= i < 8
        ensures !(Bit(x, i) && Bit(y, i))
      {
        assert !Bit(x & y, i);
      }
    }
  }

  /** Bit `i` of `x & y` is set iff it is set in both. */
  lemma AndBits(x: bv8, y: bv8)
    ensures forall i :: 0 <= i < 8 ==> (Bit(x & y, i) <==> Bit(x, i) && Bit(y, i))
  {
  }

  /** A non-zero byte has a set bit. */
  lemma NonZeroHasBit(x: bv8)
    ensures x != 0 <==> exists i :: 0 <= i < 8 && Bit(x, i)
  {
    if x != 0 {
      assert Bit(x, 0) || Bit(x, 1) || Bit(x, 2) || Bit(x, 3) ||
        Bit(x, 4) || Bit(x, 5) || Bit(x, 6) || Bit(x, 7);
    }
  }

  /** Bit `i` of a byte. */
  predicate Bit(f: bv8, i: nat)
    requires i < 8
  {
    f & Mask(i) != 0
  }

  /** The byte with only bit `i` set. */
  function Mask(i: nat): bv8
    requires i < 8
  {
    if i == 0 then 0x01 else if i == 1 then 0x02 else if i == 2 then 0x04 else if i == 3 then 0x08
    else if i == 4 then 0x10 else if i == 5 then 0x20 else if i == 6 then 0x40 else 0x80
  }

  /** `get_pack_size`: the category named by bits 5-3, if any. */
  function GetPackSize(f: PacketFlag): (r: Option<BodySize>)
    ensures r.None? <==> f.bits & SIZE_MASK == 0 || f.bits & SIZE_MASK == SIZE_MASK
    ensures r.Some? ==> SizeBits(r.value) == f.bits & SIZE_MASK
  {
    var m := f.bits & SIZE_MASK;
    if m == U64_SIZE then Some(U64)
    else if m == U32_SIZE then Some(U32)
    else if m == U16_SIZE then Some(U16)
    else if m == U8_SIZE then Some(U8)
    else if m == SINGLE then Some(Single)
    else if m == EMPTY then Some(Empty)
    else None
  }

  /** `get_pack_split`: the split named by bits 7-6, if any. */
  function GetPackSplit(f: PacketFlag): (r: Option<PackSplit>)
    ensures r.None? <==> f.bits & SPLIT_MASK == 0 || f.bits & SPLIT_MASK == SPLIT_MASK
    ensures r.Some? ==> SplitBits(r.value) == f.bits & SPLIT_MASK
  {
    var m := f.bits & SPLIT_MASK;
    if m == END_PACKET then Some(End)
    else if m == FOLLOW_PACKET then Some(Follow)
    else None
  }

  /** `get_pack_type`: the type named by bits 2-0, if any. */
  function GetPackType(f: PacketFlag): (r: Option<PacketType>)
    ensures r.None? <==> f.bits & TYPE_MASK == 0 || f.bits & TYPE_MASK >= 4
    ensures r.Some? ==> TypeBits(r.value) == f.bits & TYPE_MASK
  {
    var m := f.bits & TYPE_MASK;
    if m == DATA then Some(Data)
    else if m == ACK then Some(Ack)
    else if m == LEAVE then Some(Leave)
    else None
  }
}
