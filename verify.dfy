/**
 * The frame checksum of `src/verify.rs`: a 16-bit one's-complement sum with
 * end-around carry, close to the Internet checksum of section 1 of RFC 1071.
 * It differs from RFC 1071 on odd lengths: the FIRST byte is added unshifted and
 * the remaining bytes are read as big-endian words, where RFC 1071 zero-pads the
 * trailing byte. The sender stores the complement of the sum; a receiver accepts a
 * buffer iff the sum over the whole buffer is 0xFFFF.
 */
module Checksum {
  import opened Bytes

  /**
   * One step of `overflowing_add` followed by the end-around carry: addition
   * modulo 0xFFFF in which only a sum of zeros stays zero.
   */
  function OnesAdd(a: u16, b: u16): u16 {
    if a + b >= 0x1_0000 then (a + b - 0x1_0000) + 1 else a + b
  }

  /** `OnesAdd` is addition modulo 0xFFFF in which only a sum of zeros stays zero. */
  lemma OnesAddMod(a: u16, b: u16)
    ensures OnesAdd(a, b) % 0xFFFF == (a + b) % 0xFFFF
    ensures OnesAdd(a, b) == 0 <==> a + b == 0
  {
  }

  /** The big-endian word formed by two bytes (`read_u16::<BE>`). */
  function Word(hi: byte, lo: byte): u16 {
    hi * 0x100 + lo
  }

  /** Folds the big-endian words of an even-length buffer into `acc`, left to right. */
  function SumWords(acc: u16, s: seq<byte>): u16
    requires |s| % 2 == 0
    decreases |s|
  {
    if |s| == 0 then acc else SumWords(OnesAdd(acc, Word(s[0], s[1])), s[2..])
  }

  /** The running sum both functions of the source compute over a buffer. */
  function Sum(buf: seq<byte>): u16 {
    if |buf| % 2 != 0 then SumWords(buf[0], buf[1..]) else SumWords(0, buf)
  }

  /** The plain integer total of the words added by `SumWords`. */
  function TotalWords(s: seq<byte>): nat
    requires |s| % 2 == 0
    decreases |s|
  {
    if |s| == 0 then 0 else Word(s[0], s[1]) + TotalWords(s[2..])
  }

  /** The plain integer total of all addends of `Sum`. */
  function Total(buf: seq<byte>): nat {
    if |buf| % 2 != 0 then buf[0] + TotalWords(buf[1..]) else TotalWords(buf)
  }

  /** `verify_info_gen`: the bitwise complement of the running sum. */
  method VerifyInfoGen(buf: seq<byte>) returns (r: u16)
    ensures r == 0xFFFF - Sum(buf)
  {
    var start: u16 := 0;
    var reader := buf;
    if |buf| % 2 != 0 {
      start := start + reader[0];
      reader := reader[1..];
    }
    var i := 0;
    while i < |buf| / 2
      invariant 0 <= i <= |buf| / 2
      invariant |reader| == 2 * (|buf| / 2 - i)
      invariant SumWords(start, reader) == Sum(buf)
    {
      var num := Word(reader[0], reader[1]);
      assert SumWords(start, reader) == SumWords(OnesAdd(start, num), reader[2..]);
      reader := reader[2..];
      var r := (start + num) % 0x1_0000;
      if start + num >= 0x1_0000 {
        assert r == start + num - 0x1_0000;
        start := r + 1;
      } else {
        assert r == start + num;
        start := r;
      }
      i := i + 1;
    }
    r := 0xFFFF - start;
  }

  /** `verify`: accept iff the running sum of the whole buffer is `u16::MAX`. */
  method Verify(data: seq<byte>) returns (ok: bool)
    ensures ok <==> Sum(data) == 0xFFFF
  {
    var size := |data|;
    var verify: u16 := 0;
    var reader := data;
    if size % 2 != 0 {
      verify := verify + reader[0];
      reader := reader[1..];
    }
    var i := 0;
    while i < size / 2
      invariant 0 <= i <= size / 2
      invariant |reader| == 2 * (size / 2 - i)
      invariant SumWords(verify, reader) == Sum(data)
    {
      var num := Word(reader[0], reader[1]);
      assert SumWords(verify, reader) == SumWords(OnesAdd(verify, num), reader[2..]);
      reader := reader[2..];
      var r := (verify + num) % 0x1_0000;
      assert r == if verify + num >= 0x1_0000 then verify + num - 0x1_0000 else verify + num;
      verify := r + if verify + num >= 0x1_0000 then 1 else 0;
      i := i + 1;
    }
    ok := verify == 0xFFFF;
  }

  /** Appending one word to the buffer adds it last to the running sum. */
  lemma {:induction false} SumWordsAppend(acc: u16, s: seq<byte>, hi: byte, lo: byte)
    requires |s| % 2 == 0
    ensures SumWords(acc, s + [hi, lo]) == OnesAdd(SumWords(acc, s), Word(hi, lo))
    decreases |s|
  {
    if |s| > 0 {
      assert (s + [hi, lo])[2..] == s[2..] + [hi, lo];
      SumWordsAppend(OnesAdd(acc, Word(s[0], s[1])), s[2..], hi, lo);
    }
  }

  /**
   * Because the odd byte is consumed FIRST, appending a two-byte word keeps the
   * same parity split for odd and even lengths alike.
   */
  lemma SumAppendWord(b: seq<byte>, hi: byte, lo: byte)
    ensures Sum(b + [hi, lo]) == OnesAdd(Sum(b), Word(hi, lo))
  {
    var c := b + [hi, lo];
    assert |c| % 2 == |b| % 2;
    if |b| % 2 != 0 {
      assert c[0] == b[0];
      assert c[1..] == b[1..] + [hi, lo];
      SumWordsAppend(b[0], b[1..], hi, lo);
      assert Sum(c) == SumWords(c[0], c[1..]);
    } else {
      SumWordsAppend(0, b, hi, lo);
      assert Sum(c) == SumWords(0, c);
    }
  }

  /** For every buffer `b`, `verify(b ++ be16(verify_info_gen(b)))` holds. */
  lemma ChecksumRoundTrip(b: seq<byte>)
    ensures Sum(b + BeBytes(0xFFFF - Sum(b), 2)) == 0xFFFF
  {
    var c := 0xFFFF - Sum(b);
    Be16(c);
    SumAppendWord(b, c / 0x100, c % 0x100);
  }

  /** On an odd length the first byte counts unshifted: the sum of `[x]` is `x`, not `x << 8`. */
  lemma OddFirstByteUnshifted(x: byte, hi: byte, lo: byte)
    ensures Sum([x]) == x
    ensures Sum([x, hi, lo]) == OnesAdd(x, Word(hi, lo))
  {
    assert [x, hi, lo][1..] == [hi, lo];
    assert [hi, lo][2..] == [];
    assert SumWords(x, [hi, lo]) == SumWords(OnesAdd(x, Word(hi, lo)), []);
  }

  /** Adding a multiple of 0xFFFF leaves the residue alone. */
  lemma ModShift(y: int, k: int)
    ensures (y + 0xFFFF * k) % 0xFFFF == y % 0xFFFF
  {
  }

  /** Congruence modulo 0xFFFF survives adding the same amount to both sides. */
  lemma ModAddCongruent(a: int, b: int, c: int)
    requires a % 0xFFFF == b % 0xFFFF
    ensures (a + c) % 0xFFFF == (b + c) % 0xFFFF
  {
    var k := a / 0xFFFF - b / 0xFFFF;
    assert a + c == (b + c) + 0xFFFF * k;
    ModShift(b + c, k);
  }

  /** The end-around sum is the integer total reduced modulo 0xFFFF, zero only for a zero total. */
  lemma {:induction false} SumWordsTotal(acc: u16, s: seq<byte>)
    requires |s| % 2 == 0
    ensures SumWords(acc, s) % 0xFFFF == (acc + TotalWords(s)) % 0xFFFF
    ensures SumWords(acc, s) == 0 <==> acc + TotalWords(s) == 0
    decreases |s|
  {
    if |s| > 0 {
      var w := Word(s[0], s[1]);
      var next := OnesAdd(acc, w);
      var rest := TotalWords(s[2..]);
      assert SumWords(acc, s) == SumWords(next, s[2..]);
      assert TotalWords(s) == w + rest;
      OnesAddMod(acc, w);
      SumWordsTotal(next, s[2..]);
      ModAddCongruent(next, acc + w, rest);
    }
  }

  lemma SumTotal(b: seq<byte>)
    ensures Sum(b) % 0xFFFF == Total(b) % 0xFFFF
    ensures Sum(b) == 0 <==> Total(b) == 0
  {
    if |b| % 2 != 0 {
      SumWordsTotal(b[0], b[1..]);
    } else {
      SumWordsTotal(0, b);
    }
  }

  /** Replacing one byte changes the word total by the difference, scaled by its place in the word. */
  lemma {:induction false} TotalWordsUpdate(s: seq<byte>, p: nat, v: byte)
    requires |s| % 2 == 0 && p < |s|
    ensures TotalWords(s[p := v]) == TotalWords(s) + (v - s[p]) * (if p % 2 == 0 then 0x100 else 1)
    decreases |s|
  {
    if p >= 2 {
      assert s[p := v][2..] == s[2..][p - 2 := v];
      TotalWordsUpdate(s[2..], p - 2, v);
    } else {
      assert s[p := v][2..] == s[2..];
    }
  }

  /** Changing one byte moves the total by the byte's change, weighted 0x100 or 1 by its place in its word. */
  lemma TotalMoved(x: seq<byte>, p: nat, v: byte) returns (delta: int)
    requires p < |x| && v != x[p]
    ensures Total(x[p := v]) == Total(x) + delta
    ensures delta != 0 && -0xFFFF < delta < 0xFFFF
  {
    var y := x[p := v];
    if |x| % 2 != 0 {
      if p == 0 {
        assert y[1..] == x[1..];
        delta := v - x[0];
      } else {
        assert y[1..] == x[1..][p - 1 := v];
        TotalWordsUpdate(x[1..], p - 1, v);
        delta := (v - x[p]) * (if (p - 1) % 2 == 0 then 0x100 else 1);
      }
    } else {
      TotalWordsUpdate(x, p, v);
      delta := (v - x[p]) * (if p % 2 == 0 then 0x100 else 1);
    }
  }

  /**
   * A buffer that verifies stops verifying when any single byte is changed:
   * the total moves by a non-zero amount smaller than 0xFFFF in magnitude.
   */
  lemma SingleByteCorruptionDetected(x: seq<byte>, p: nat, v: byte)
    requires p < |x| && v != x[p]
    requires Sum(x) == 0xFFFF
    ensures Sum(x[p := v]) != 0xFFFF
  {
    SumTotal(x);
    SumTotal(x[p := v]);
    var delta := TotalMoved(x, p, v);
    ModMoved(Total(x), delta);
  }

  /** A non-zero shift smaller than 0xFFFF in magnitude changes the residue modulo 0xFFFF. */
  lemma ModMoved(a: int, d: int)
    requires d != 0 && -0xFFFF < d < 0xFFFF
    ensures (a + d) % 0xFFFF != a % 0xFFFF
  {
  }

  /** The `test_bad` case: "1234568" carrying the checksum of "1234567" is rejected. */
  lemma ChangedDigitRejected()
    ensures Sum([0x31, 0x32, 0x33, 0x34, 0x35, 0x36, 0x37]) == 0x9CD0
    ensures Sum([0x31, 0x32, 0x33, 0x34, 0x35, 0x36, 0x38] + BeBytes(0xFFFF - 0x9CD0, 2)) != 0xFFFF
  {
    var good := [0x31, 0x32, 0x33, 0x34, 0x35, 0x36, 0x37];
    var bad := [0x31, 0x32, 0x33, 0x34, 0x35, 0x36, 0x38];
    assert good[1..][2..] == [0x34, 0x35, 0x36, 0x37];
    assert good[1..][2..][2..] == [0x36, 0x37];
    assert good[1..][2..][2..][2..] == [];
    assert Sum(good) == 0x9CD0;
    SumAppendWord(bad, 0x63, 0x2F);
    Be16(0xFFFF - 0x9CD0);
    assert bad[1..][2..] == [0x34, 0x35, 0x36, 0x38];
    assert bad[1..][2..][2..] == [0x36, 0x38];
    assert bad[1..][2..][2..][2..] == [];
    assert Sum(bad) == 0x9CD1;
  }
}
