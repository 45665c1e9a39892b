/**
 * Fixed-width unsigned integers of the Rust code (`u8`, `u16`) as subsets of `int`,
 * their wrapping arithmetic, and big-endian byte encodings (the `byteorder::BE`
 * readers and writers).
 */
module Bytes {
  type byte = x: int | 0 <= x < 0x100
  type u8 = byte
  type u16 = x: int | 0 <= x < 0x1_0000

  /** `a.wrapping_add(b)` on `u8`, given the mathematical sum of two `u8` values. */
  function Wrap(x: int): u8
    requires 0 <= x < 0x200
  {
    if x < 0x100 then x else x - 0x100
  }

  /** `to.wrapping_sub(from)` on `u8`: how far `to` lies ahead of `from` on the 256-cycle. */
  function Dist(from: u8, to: u8): (d: u8)
    ensures Wrap(from + d) == to
    ensures d == 0 <==> from == to
  {
    if from <= to then to - from else to + 0x100 - from
  }

  /** Moving the base one step forward brings every other id one step closer. */
  lemma DistStep(from: u8, i: u8)
    requires i != from
    ensures Dist(Wrap(from + 1), i) == Dist(from, i) - 1
  {
  }

  /** Stepping `n` times from `from` lands `n` ahead of it. */
  lemma DistWrap(from: u8, n: nat)
    requires n < 0x100
    ensures Dist(from, Wrap(from + n)) == n
  {
  }

  function Pow256(w: nat): (p: nat)
    ensures p >= 1
  {
    if w == 0 then 1 else 0x100 * Pow256(w - 1)
  }

  /** The ranges of `u8`, `u16`, `u32` and `u64`. */
  lemma Pow256Widths()
    ensures Pow256(1) == 0x100
    ensures Pow256(2) == 0x1_0000
    ensures Pow256(4) == 0x1_0000_0000
    ensures Pow256(8) == 0x1_0000_0000_0000_0000
  {
    assert Pow256(1) == 0x100;
    assert Pow256(2) == 0x1_0000;
    assert Pow256(3) == 0x100_0000;
    assert Pow256(4) == 0x1_0000_0000;
    assert Pow256(5) == 0x100_0000_0000;
    assert Pow256(6) == 0x1_0000_0000_0000;
    assert Pow256(7) == 0x100_0000_0000_0000;
  }

  /** `n` written as `w` big-endian bytes. */
  function BeBytes(n: nat, w: nat): (r: seq<byte>)
    requires n < Pow256(w)
    ensures |r| == w
  {
    if w == 0 then [] else BeBytes(n / 0x100, w - 1) + [n % 0x100]
  }

  /** The number that a big-endian byte string denotes. */
  function BeValue(s: seq<byte>): (v: nat)
    ensures v < Pow256(|s|)
  {
    if |s| == 0 then 0 else BeValue(s[..|s| - 1]) * 0x100 + s[|s| - 1]
  }

  /** Reading back a big-endian field gives the number that was written. */
  lemma {:induction false} BeRoundTrip(n: nat, w: nat)
    requires n < Pow256(w)
    ensures BeValue(BeBytes(n, w)) == n
  {
    if w > 0 {
      var r := BeBytes(n, w);
      assert r[..w - 1] == BeBytes(n / 0x100, w - 1);
      BeRoundTrip(n / 0x100, w - 1);
    }
  }

  /** The two bytes of a big-endian `u16`. */
  lemma Be16(n: u16)
    ensures BeBytes(n, 2) == [n / 0x100, n % 0x100]
  {
  }

  /** One more slot consumed: the next index is one further from the base and one closer to every other slot. */
  lemma SlideStep(base: u8, idx: u8, k: nat)
    requires k < 255 && Dist(base, idx) == k
    ensures Dist(base, Wrap(idx + 1)) == k + 1
    ensures forall i :: 0 <= i < 256 ==> (Dist(base, i) < k + 1 <==> Dist(base, i) < k || i == idx)
  {
  }
}
