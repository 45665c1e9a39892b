/**
 * `CycleBuffer<S, T>` of `src/cycle_buffer.rs`: the send window. 256 slots indexed
 * by a `u8` sequence id; the live window runs from `button` (oldest unacknowledged)
 * up to `top` (next free), both wrapping, and holds `size` slots, at most `S`.
 */
module CycleBuffers {
  import opened Bytes
  import opened Wrappers

  datatype BufferState = Done | Waiting

  datatype BufferWrap<T> = Nil | Data(data: T, state: BufferState) {
    /** `is_down`. */
    predicate IsDown() {
      Data? && state == Done
    }
  }

  datatype CbError = BufferFilled

  /**
   * The number of consecutive Done slots starting at `from`, looking at no more
   * than `limit` slots: how far `slide_buff` moves the window.
   */
  function DoneRun<T>(slots: seq<BufferWrap<T>>, from: u8, limit: nat): (n: nat)
    requires |slots| == 256 && limit <= 256
    ensures n <= limit
    decreases limit
  {
    if limit == 0 || !slots[from].IsDown() then 0
    else 1 + DoneRun(slots, Wrap(from + 1), limit - 1)
  }

  /** Every slot of the run is Done, and the run ends at the limit or at a slot that is not. */
  lemma {:induction false} DoneRunSpec<T>(slots: seq<BufferWrap<T>>, from: u8, limit: nat)
    requires |slots| == 256 && limit <= 256
    ensures forall i :: 0 <= i < 256 && Dist(from, i) < DoneRun(slots, from, limit) ==> slots[i].IsDown()
    ensures DoneRun(slots, from, limit) < limit ==> !slots[Wrap(from + DoneRun(slots, from, limit))].IsDown()
    decreases limit
  {
    if limit > 0 && slots[from].IsDown() {
      DoneRunSpec(slots, Wrap(from + 1), limit - 1);
      forall i | 0 <= i < 256 && i != from
        ensures Dist(Wrap(from + 1), i) == Dist(from, i) - 1
      {
        DistStep(from, i);
      }
    }
  }

  /** `DoneRun` is the only run length that is all Done and stops at a non-Done slot or at the limit. */
  lemma {:induction false} DoneRunExact<T>(slots: seq<BufferWrap<T>>, from: u8, limit: nat, m: nat)
    requires |slots| == 256 && m <= limit <= 256
    requires forall i :: 0 <= i < 256 && Dist(from, i) < m ==> slots[i].IsDown()
    requires m < limit ==> !slots[Wrap(from + m)].IsDown()
    ensures DoneRun(slots, from, limit) == m
    decreases m
  {
    if m > 0 {
      assert Dist(from, from) == 0;
      forall i | 0 <= i < 256 && Dist(Wrap(from + 1), i) < m - 1
        ensures slots[i].IsDown()
      {
        if i == from {
          DistWrap(from, 1);
        } else {
          DistStep(from, i);
        }
      }
      DoneRunExact(slots, Wrap(from + 1), limit - 1, m - 1);
    }
  }

  lemma DoneRunUnfold<T>(slots: seq<BufferWrap<T>>, from: u8, limit: nat)
    requires |slots| == 256 && 0 < limit <= 256 && slots[from].IsDown()
    ensures DoneRun(slots, from, limit) == 1 + DoneRun(slots, Wrap(from + 1), limit - 1)
  {
  }

  lemma DoneRunStop<T>(slots: seq<BufferWrap<T>>, from: u8, limit: nat)
    requires |slots| == 256 && limit <= 256 && (limit == 0 || !slots[from].IsDown())
    ensures DoneRun(slots, from, limit) == 0
  {
  }

  /** After the slide, every slot of the shrunk window still holds its old data. */
  lemma SlideKeepsWindow<T>(slots: seq<BufferWrap<T>>, now: seq<BufferWrap<T>>, b0: u8, s0: nat, k: nat)
    requires |slots| == 256 && k <= s0 < 256
    requires forall i :: 0 <= i < 256 && Dist(b0, i) < s0 ==> slots[i].Data?
    requires now == ClearRun(slots, b0, k)
    ensures forall i :: 0 <= i < 256 && Dist(Wrap(b0 + k), i) < s0 - k ==> now[i].Data?
  {
    forall i | 0 <= i < 256 && Dist(Wrap(b0 + k), i) < s0 - k
      ensures now[i].Data?
    {
      assert Dist(b0, i) == Dist(Wrap(b0 + k), i) + k;
    }
  }

  lemma SlideFinish<T>(slots: seq<BufferWrap<T>>, now: seq<BufferWrap<T>>, b0: u8, s0: nat, k: nat, idx: u8, top: u8)
    requires |slots| == 256 && |now| == 256 && k <= s0 < 256
    requires s0 == Dist(b0, top)
    requires forall i :: 0 <= i < 256 && Dist(b0, i) < s0 ==> slots[i].Data?
    requires idx == Wrap(b0 + k) && Dist(b0, idx) == k
    requires DoneRun(slots, b0, s0) == k + DoneRun(slots, idx, s0 - k)
    requires idx != top ==> !now[idx].IsDown()
    requires forall i :: 0 <= i < 256 ==> now[i] == if Dist(b0, i) < k then Nil else slots[i]
    ensures DoneRun(slots, b0, s0) == k
    ensures now == ClearRun(slots, b0, k)
    ensures s0 - k == Dist(idx, top)
    ensures forall i :: 0 <= i < 256 && Dist(idx, i) < s0 - k ==> now[i].Data?
  {
    if idx != top {
      DoneRunStop(slots, idx, s0 - k);
    }
    assert now == ClearRun(slots, b0, k);
    SlideKeepsWindow(slots, now, b0, s0, k);
    assert Dist(b0, top) == Dist(idx, top) + k;
  }

  /** `slots` with the `n` slots from `from` onward reset to Nil. */
  function ClearRun<T>(slots: seq<BufferWrap<T>>, from: u8, n: nat): seq<BufferWrap<T>>
    requires |slots| == 256
  {
    seq(256, i requires 0 <= i < 256 => if Dist(from, i) < n then Nil else slots[i])
  }

  class CycleBuffer<T> {
    const S: u8
    const buffer: array<BufferWrap<T>>
    var size: u8
    var top: u8
    var button: u8

    /** `size` counts the window `[button, top)`, stays within `S`, and every slot in the window holds data. */
    ghost predicate Valid()
      reads this, buffer
    {
      buffer.Length == 256 &&
      size == Dist(button, top) && size <= S &&
      forall i :: 0 <= i < 256 && Dist(button, i) < size ==> buffer[i].Data?
    }

    /** `CycleBuffer::new`: 256 Nil slots and an empty window at 0. */
    constructor (capacity: u8)
      ensures Valid() && S == capacity && fresh(buffer)
      ensures size == 0 && top == 0 && button == 0
      ensures forall i :: 0 <= i < 256 ==> buffer[i] == Nil
    {
      S := capacity;
      buffer := new BufferWrap<T>[256](_ => Nil);
      size, top, button := 0, 0, 0;
    }

    /** `get`: the data of a Waiting slot; Nil and Done slots give None. */
    method Get(id: u8) returns (r: Option<T>)
      requires Valid()
      ensures r.Some? <==> buffer[id].Data? && buffer[id].state == Waiting
      ensures r.Some? ==> r.value == buffer[id].data
    {
      match buffer[id]
      case Data(d, Waiting) =>
        r := Some(d);
      case _ =>
        r := None;
    }

    /** `push`: refuses when full, otherwise stores Waiting data at `top` and advances it. */
    method Push(data: T) returns (r: Result<(), CbError>)
      requires Valid()
      modifies this, buffer
      ensures Valid()
      ensures old(size) == S ==> r == Err(BufferFilled) && unchanged(this) && unchanged(buffer)
      ensures old(size) < S ==>
        && r == Ok(())
        && buffer[..] == old(buffer[..])[old(top) := Data(data, Waiting)]
        && top == Wrap(old(top) + 1) && size == old(size) + 1 && button == old(button)
    {
      if size == S {
        return Err(BufferFilled);
      }
      buffer[top] := Data(data, Waiting);
      top := Wrap(top + 1);
      size := size + 1;
      r := Ok(());
      assert forall i :: 0 <= i < 256 && Dist(button, i) < size && i != old(top) ==> Dist(button, i) < old(size);
    }

    /** `buffer_down`: marks a slot Done; a Nil slot reaches `todo!()`, hence the precondition. */
    method BufferDown(id: u8)
      requires Valid()
      requires buffer[id].Data?
      modifies buffer
      ensures Valid()
      ensures buffer[..] == old(buffer[..])[id := Data(old(buffer[id]).data, Done)]
    {
      buffer[id] := Data(buffer[id].data, Done);
    }

    /** Writes through the reference that `get_mut` hands out for a Waiting slot. */
    method SetWaitingData(id: u8, data: T)
      requires Valid()
      requires buffer[id].Data? && buffer[id].state == Waiting
      modifies buffer
      ensures Valid()
      ensures buffer[..] == old(buffer[..])[id := Data(data, Waiting)]
    {
      buffer[id] := Data(data, Waiting);
    }

    /** The loop of `slide_buff`: `k` Done slots from `button` are reset to Nil and `button` has moved past them. */
    method TakeDone() returns (ghost k: nat)
      requires Valid()
      modifies this, buffer
      ensures buffer.Length == 256 && k <= old(size) && top == old(top)
      ensures button == Wrap(old(button) + k) && Dist(old(button), button) == k && size == old(size) - k
      ensures DoneRun(old(buffer[..]), old(button), old(size)) == k + DoneRun(old(buffer[..]), button, old(size) - k)
      ensures button != top ==> !buffer[button].IsDown()
      ensures forall i :: 0 <= i < 256 ==> buffer[i] == if Dist(old(button), i) < k then Nil else old(buffer[i])
    {
      ghost var slots := buffer[..];
      ghost var b0, s0 := button, size;
      k := 0;
      var idx := button;
      while idx != top
        invariant k <= s0
        invariant idx == Wrap(b0 + k) && Dist(b0, idx) == k
        invariant button == idx && size == s0 - k && top == old(top)
        invariant DoneRun(slots, b0, s0) == k + DoneRun(slots, idx, s0 - k)
        invariant forall i :: 0 <= i < 256 ==> buffer[i] == if Dist(b0, i) < k then Nil else slots[i]
        decreases s0 - k
      {
        if buffer[idx].IsDown() {
          buffer[idx] := Nil;
          size := size - 1;
        } else {
          break;
        }
        DoneRunUnfold(slots, idx, s0 - k);
        SlideStep(b0, idx, k);
        idx := Wrap(idx as int + 1);
        button := idx;
        k := k + 1;
      }
    }

    /**
     * `slide_buff`: resets the maximal run of Done slots at the front of the window
     * to Nil, moving `button` past them; stops at `top` or at the first slot that is
     * not Done.
     */
    method SlideBuff()
      requires Valid()
      modifies this, buffer
      ensures Valid()
      ensures var n := DoneRun(old(buffer[..]), old(button), old(size));
        && button == Wrap(old(button) + n) && size == old(size) - n && top == old(top)
        && buffer[..] == ClearRun(old(buffer[..]), old(button), n)
    {
      ghost var slots := buffer[..];
      ghost var b0, s0 := button, size;
      ghost var k := TakeDone();
      SlideFinish(slots, buffer[..], b0, s0, k, button, top);
    }

    /**
     * `set_button`: a cumulative acknowledgement of every id from `button` through `id`.
     * Accepted iff `id` lies in the window; the slots themselves are not touched.
     */
    method SetButton(id: u8) returns (ok: bool)
      requires Valid()
      modifies this
      ensures Valid()
      ensures ok <==> Dist(old(button), id) < Dist(old(button), old(top))
      ensures ok ==> size == old(size) - (Dist(old(button), id) + 1) && button == Wrap(id + 1) && top == old(top)
      ensures !ok ==> unchanged(this)
      ensures buffer[..] == old(buffer[..])
    {
      if Dist(button, id) < Dist(button, top) {
        size := size - (Dist(button, id) + 1);
        button := Wrap(id + 1);
        ok := true;
        forall i | 0 <= i < 256 && Dist(button, i) < size
          ensures Dist(old(button), i) < old(size)
        {
          assert Dist(old(button), i) == Dist(button, i) + Dist(old(button), id) + 1;
        }
      } else {
        ok := false;
      }
    }
  }

  /** The starting point of `test_slide` with `S = 16`: a full window of Done slots from 245 round to 4. */
  method SlideSetup() returns (buf: CycleBuffer<int>)
    ensures fresh(buf) && fresh(buf.buffer) && buf.Valid() && buf.S == 16
    ensures buf.button == 245 && buf.top == 5 && buf.size == 16
    ensures forall i :: 0 <= i < 256 ==> buf.buffer[i] == if i < 5 || i >= 245 then Data(11, Done) else Nil
  {
    buf := new CycleBuffer<int>(16);
    forall i | 0 <= i < 256 && (i < 5 || i >= 245) {
      buf.buffer[i] := Data(11, Done);
    }
    buf.button, buf.top, buf.size := 245, 5, 16;
  }

  /** The scenario of `test_slide`, replayed step by step. */
  method SlideScenario() returns (button: u8, top: u8, size: u8)
    ensures button == 6 && top == 6 && size == 0
  {
    var buf := SlideSetup();

    var r := buf.Push(11);
    assert r == Err(BufferFilled);

    var ok := buf.SetButton(200);
    assert !ok;

    ok := buf.SetButton(250);
    assert ok && buf.button == 251 && buf.size == 10;

    r := buf.Push(112);
    assert buf.top == 6 && buf.size == 11;

    ghost var slots := buf.buffer[..];
    assert !slots[5].IsDown();
    DoneRunExact(slots, 251, 11, 10);
    buf.SlideBuff();
    assert buf.button == 5 && buf.top == 6 && buf.size == 1;

    buf.BufferDown(buf.button);
    slots := buf.buffer[..];
    DoneRunExact(slots, 5, 1, 1);
    buf.SlideBuff();
    button, top, size := buf.button, buf.top, buf.size;
  }
}
