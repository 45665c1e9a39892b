/**
 * `FixedCycleBuffer<S, T>` of `src/fixed_cycle_buf.rs`: the receive window. 256
 * slots indexed by a `u8` sequence id; ids `offset .. offset + S` (wrapping) are
 * accepted, and the filled run at `offset` is released in id order.
 */
module FixedCycleBuffers {
  import opened Bytes
  import opened Wrappers

  datatype Slot<T> = Nil | Set(value: T)

  /** The values of the consecutive Set slots from `from`, looking at no more than `limit` slots. */
  function SetRun<T>(slots: seq<Slot<T>>, from: u8, limit: nat): (r: seq<T>)
    requires |slots| == 256 && limit <= 256
    ensures |r| <= limit
    decreases limit
  {
    if limit == 0 || slots[from].Nil? then []
    else [slots[from].value] + SetRun(slots, Wrap(from + 1), limit - 1)
  }

  /** Slot `Dist(from, i)` of the run is slot `i`, and the run stops at the limit or at a Nil slot. */
  lemma {:induction false} SetRunSpec<T>(slots: seq<Slot<T>>, from: u8, limit: nat)
    requires |slots| == 256 && limit <= 256
    ensures var r := SetRun(slots, from, limit);
      forall i :: 0 <= i < 256 && Dist(from, i) < |r| ==> slots[i] == Set(r[Dist(from, i)])
    ensures var r := SetRun(slots, from, limit);
      |r| < limit ==> slots[Wrap(from + |r|)].Nil?
    decreases limit
  {
    if limit > 0 && slots[from].Set? {
      SetRunSpec(slots, Wrap(from + 1), limit - 1);
      forall i | 0 <= i < 256 && i != from
        ensures Dist(Wrap(from + 1), i) == Dist(from, i) - 1
      {
        DistStep(from, i);
      }
    }
  }

  /** A run is as long as the first Nil slot is far: `m` Set slots followed by a Nil one (or the limit). */
  lemma {:induction false} SetRunLength<T>(slots: seq<Slot<T>>, from: u8, limit: nat, m: nat)
    requires |slots| == 256 && m <= limit <= 256
    requires forall i :: 0 <= i < 256 && Dist(from, i) < m ==> slots[i].Set?
    requires m < limit ==> slots[Wrap(from + m)].Nil?
    ensures |SetRun(slots, from, limit)| == m
    decreases m
  {
    if m > 0 {
      assert Dist(from, from) == 0;
      forall i | 0 <= i < 256 && Dist(Wrap(from + 1), i) < m - 1
        ensures slots[i].Set?
      {
        if i == from {
          DistWrap(from, 1);
        } else {
          DistStep(from, i);
        }
      }
      SetRunLength(slots, Wrap(from + 1), limit - 1, m - 1);
    }
  }

  /** The run is exactly `vals` when slot `Dist(from, i)` of `vals` is slot `i` and the run stops right after. */
  lemma {:induction false} SetRunExact<T>(slots: seq<Slot<T>>, from: u8, limit: nat, vals: seq<T>)
    requires |slots| == 256 && |vals| <= limit <= 256
    requires forall i :: 0 <= i < 256 && Dist(from, i) < |vals| ==> slots[i] == Set(vals[Dist(from, i)])
    requires |vals| < limit ==> slots[Wrap(from + |vals|)].Nil?
    ensures SetRun(slots, from, limit) == vals
    decreases |vals|
  {
    if |vals| == 0 {
      assert Wrap(from + 0) == from;
    } else {
      assert Dist(from, from) == 0;
      var next := Wrap(from + 1);
      var rest := vals[1..];
      forall i | 0 <= i < 256 && Dist(next, i) < |rest|
        ensures slots[i] == Set(rest[Dist(next, i)])
      {
        DistStep(from, i);
      }
      assert Wrap(next + |rest|) == Wrap(from + |vals|);
      SetRunExact(slots, next, limit - 1, rest);
      assert vals == [vals[0]] + rest;
    }
  }

  /** `slots` with the `n` slots from `from` onward reset to Nil. */
  function Cleared<T>(slots: seq<Slot<T>>, from: u8, n: nat): seq<Slot<T>>
    requires |slots| == 256
  {
    seq(256, i requires 0 <= i < 256 => if Dist(from, i) < n then Nil else slots[i])
  }

  /** After the loop of `slide_windows`: the run taken is the whole Set run, and the window invariant holds again. */
  lemma SlideFinish<T>(slots: seq<Slot<T>>, now: seq<Slot<T>>, o0: u8, size: u8, k: nat, offset: u8)
    requires |slots| == 256 && |now| == 256 && k <= size
    requires forall i :: 0 <= i < 256 && slots[i].Set? ==> Dist(o0, i) < size
    requires offset == Wrap(o0 + k) && Dist(o0, offset) == k
    requires now[offset].Nil?
    requires forall i :: 0 <= i < 256 ==> now[i] == if Dist(o0, i) < k then Nil else slots[i]
    ensures now == Cleared(slots, o0, k)
    ensures forall i :: 0 <= i < 256 && now[i].Set? ==> Dist(offset, i) < size
  {
    assert now == Cleared(slots, o0, k);
    forall i | 0 <= i < 256 && now[i].Set?
      ensures Dist(offset, i) < size
    {
      assert Dist(o0, i) == Dist(offset, i) + k;
    }
  }

  class FixedCycleBuffer<T> {
    const S: u8
    const buffer: array<Slot<T>>
    var offset: u8

    /** Every Set slot lies in the window `[offset, offset + S)`, so no more than `S` slots are Set. */
    ghost predicate Valid()
      reads this, buffer
    {
      buffer.Length == 256 &&
      forall i :: 0 <= i < 256 && buffer[i].Set? ==> Dist(offset, i) < S
    }

    /** `FixedCycleBuffer::new`: 256 Nil slots, window at 0. */
    constructor (capacity: u8)
      ensures Valid() && S == capacity && fresh(buffer) && offset == 0
      ensures forall i :: 0 <= i < 256 ==> buffer[i] == Nil
    {
      S := capacity;
      buffer := new Slot<T>[256](_ => Nil);
      offset := 0;
    }

    /** `calculate_offset`: the distance of `id` past `offset`, modulo 256. */
    function CalculateOffset(id: u8): (d: u8)
      reads this
      ensures Wrap(offset + d) == id
      ensures d == 0 <==> id == offset
    {
      Dist(offset, id)
    }

    /** `insert`: accepted iff `idx` falls in the window; an accepted one overwrites slot `idx`. */
    method Insert(idx: u8, data: T) returns (r: Result<(), T>)
      requires Valid()
      modifies buffer
      ensures Valid()
      ensures r.Ok? <==> Dist(offset, idx) < S
      ensures r.Ok? ==> buffer[..] == old(buffer[..])[idx := Set(data)]
      ensures r.Err? ==> r.error == data && buffer[..] == old(buffer[..])
    {
      if CalculateOffset(idx) < S {
        buffer[idx] := Set(data);
        r := Ok(());
      } else {
        r := Err(data);
      }
    }

    /** The loop of `slide_windows`: the values taken are those of the slots it has reset to Nil, up to a Nil slot. */
    method TakeRun() returns (vec: seq<T>)
      requires Valid()
      modifies this, buffer
      ensures buffer.Length == 256 && |vec| <= S
      ensures offset == Wrap(old(offset) + |vec|) && Dist(old(offset), offset) == |vec|
      ensures buffer[offset].Nil?
      ensures forall i :: 0 <= i < 256 && Dist(old(offset), i) < |vec| ==> old(buffer[i]) == Set(vec[Dist(old(offset), i)])
      ensures forall i :: 0 <= i < 256 ==> buffer[i] == if Dist(old(offset), i) < |vec| then Nil else old(buffer[i])
    {
      ghost var slots := buffer[..];
      ghost var o0 := offset;
      assert forall i :: 0 <= i < 256 && slots[i].Set? ==> Dist(o0, i) < S;
      vec := [];
      while buffer[offset].Set?
        invariant |vec| <= S
        invariant offset == Wrap(o0 + |vec|) && Dist(o0, offset) == |vec|
        invariant forall i :: 0 <= i < 256 && Dist(o0, i) < |vec| ==> slots[i] == Set(vec[Dist(o0, i)])
        invariant forall i :: 0 <= i < 256 ==> buffer[i] == if Dist(o0, i) < |vec| then Nil else slots[i]
        decreases S - |vec|
      {
        assert slots[offset] == buffer[offset];
        SlideStep(o0, offset, |vec|);
        vec := vec + [buffer[offset].value];
        buffer[offset] := Nil;
        offset := Wrap(offset as int + 1);
      }
    }

    /**
     * `slide_windows`: takes the values of the Set run at `offset`, in id order,
     * leaving those slots Nil and `offset` just past them.
     */
    method SlideWindows() returns (vec: seq<T>)
      requires Valid()
      modifies this, buffer
      ensures Valid()
      ensures vec == SetRun(old(buffer[..]), old(offset), buffer.Length)
      ensures |vec| <= S
      ensures offset == Wrap(old(offset) + |vec|)
      ensures buffer[..] == Cleared(old(buffer[..]), old(offset), |vec|)
    {
      ghost var slots := buffer[..];
      ghost var o0 := offset;
      vec := TakeRun();
      SlideFinish(slots, buffer[..], o0, S, |vec|, offset);
      SetRunExact(slots, o0, |slots|, vec);
    }
  }

  /** The starting point of the test in `src/fixed_cycle_buf.rs` with `S = 20`: ids 245 round to 8 are Set. */
  method WrapSetup() returns (buf: FixedCycleBuffer<int>)
    ensures fresh(buf) && fresh(buf.buffer) && buf.Valid() && buf.S == 20 && buf.offset == 245
    ensures forall i :: 0 <= i < 256 ==> buf.buffer[i] == if Dist(245, i) < 20 then Set(i) else Nil
  {
    buf := new FixedCycleBuffer<int>(20);
    forall i | 0 <= i < 256 && Dist(245, i) < 20 {
      buf.buffer[i] := Set(i);
    }
    buf.offset := 245;
  }

  /** The first release of that test: the 20 Set ids from 245 come out and the window moves round to 9, all slots Nil. */
  method WrapRelease() returns (buf: FixedCycleBuffer<int>, first: seq<int>)
    ensures fresh(buf) && fresh(buf.buffer) && buf.Valid() && buf.S == 20 && buf.offset == 9
    ensures |first| == 20
    ensures forall i :: 0 <= i < 256 ==> buf.buffer[i] == Nil
  {
    buf := WrapSetup();
    ghost var slots := buf.buffer[..];
    assert slots[Wrap(245 + 20)] == Nil;
    SetRunLength(slots, 245, 256, 20);
    first := buf.SlideWindows();
  }

  /** The scenario of that test: 20 ids from 245 wrap round to offset 9, then 9 and 10 are released in order. */
  method WrapScenario() returns (first: seq<int>, offset: u8, last: seq<int>)
    ensures |first| == 20 && offset == 11 && last == [9, 10]
  {
    var buf;
    buf, first := WrapRelease();

    var r := buf.Insert(10, 10);
    assert Dist(9, 10) == 1;
    assert r.Ok?;
    r := buf.Insert(28, 28);
    assert Dist(9, 28) == 19;
    assert r.Ok?;

    ghost var slots := buf.buffer[..];
    assert slots[9] == Nil;
    var none := buf.SlideWindows();
    assert none == [] && buf.offset == 9;

    r := buf.Insert(8, 8);
    assert Dist(9, 8) == 255;
    assert r == Err(8);
    r := buf.Insert(9, 9);
    assert Dist(9, 9) == 0;
    assert r.Ok?;

    slots := buf.buffer[..];
    assert slots[9] == Set(9) && slots[10] == Set(10) && slots[11] == Nil;
    last := buf.SlideWindows();
    assert last == [9, 10];
    offset := buf.offset;
  }
}
