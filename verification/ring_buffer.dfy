/**
 * The single-producer single-consumer ring buffer of the server
 * (sp/server/src/CircularBufferQueue.hpp), with its sequential semantics:
 * one slot is always left free, so a buffer of `Size` slots holds at most
 * `Size - 1` items. Blocking waits are modelled as a `None` outcome ("would
 * wait"); the caller retries once the other side has moved.
 */
module RingBuffer {
  import opened Wrappers

  /** `Buffer`: `|data|` is `Size`. */
  datatype Buffer<T> = Buffer(data: seq<T>, readPos: nat, writePos: nat)

  /** Positions are slots of the array; `Size` must leave room for `write_pos = 1`. */
  predicate Valid<T>(b: Buffer<T>) {
    |b.data| >= 2 && b.readPos < |b.data| && b.writePos < |b.data|
  }

  /** `x mod n` for `x < 2n`, without division. */
  function Wrap(x: nat, n: nat): (r: nat)
    requires n >= 1 && x < 2 * n
    ensures r < n
  {
    if x < n then x else x - n
  }

  lemma ModSmall(x: nat, n: nat)
    requires n >= 1 && x < 2 * n
    ensures x % n == Wrap(x, n)
  {
    if x >= n {
      assert x == 1 * n + (x - n);
    }
  }

  /** `advanced_pos` (and `advance_read`/`advance_write`): the next slot, wrapping to 0. */
  function Advanced<T>(b: Buffer<T>, pos: nat): (r: nat)
    requires Valid(b) && pos < |b.data|
    ensures r < |b.data|
    ensures r == if pos + 1 == |b.data| then 0 else pos + 1
  {
    ModSmall(pos + 1, |b.data|);
    (pos + 1) % |b.data|
  }

  /** A fresh buffer over the default-constructed array `init`. */
  function New<T>(init: seq<T>): (b: Buffer<T>)
    requires |init| >= 2
    ensures Valid(b) && b.readPos == 0 && b.writePos == 1
  {
    Buffer(init, 0, 1)
  }

  /** How many items are queued: the slots strictly between `read_pos` and `write_pos`. */
  function Count<T>(b: Buffer<T>): (n: nat)
    requires Valid(b)
    ensures n < |b.data|
  {
    if b.readPos < b.writePos then b.writePos - b.readPos - 1
    else b.writePos + |b.data| - b.readPos - 1
  }

  /** The queued items, oldest first: slots `read_pos + 1`, ..., `write_pos - 1` (mod `Size`). */
  function Contents<T>(b: Buffer<T>): (s: seq<T>)
    requires Valid(b)
    ensures |s| == Count(b)
  {
    seq(Count(b), i requires 0 <= i < Count(b) => b.data[Wrap(b.readPos + 1 + i, |b.data|)])
  }

  /** `Reader::read`: the oldest item, or `nullopt` when empty (nothing changes then). */
  function Read<T>(b: Buffer<T>): (r: (Buffer<T>, Option<T>))
    requires Valid(b)
    ensures Valid(r.0)
    ensures r.1.None? <==> Contents(b) == []
    ensures r.1.None? ==> r.0 == b
    ensures r.1.Some? ==> r.1.value == Contents(b)[0] && Contents(r.0) == Contents(b)[1..]
    ensures r.0.data == b.data && r.0.writePos == b.writePos
  {
    if Advanced(b, b.readPos) == b.writePos then (b, None)
    else
      var b1 := b.(readPos := Advanced(b, b.readPos));
      ReadShifts(b, b1);
      (b1, Some(b1.data[b1.readPos]))
  }

  lemma ReadShifts<T>(b: Buffer<T>, b1: Buffer<T>)
    requires Valid(b) && Count(b) > 0
    requires b1 == b.(readPos := Wrap(b.readPos + 1, |b.data|))
    ensures Valid(b1) && Count(b1) == Count(b) - 1
    ensures Contents(b1) == Contents(b)[1..]
    ensures b1.data[b1.readPos] == Contents(b)[0]
  {
    forall i | 0 <= i < Count(b1)
      ensures Contents(b1)[i] == Contents(b)[1..][i]
    {
      var n := |b.data|;
      assert Contents(b)[1..][i] == Contents(b)[i + 1] == b.data[Wrap(b.readPos + 1 + (i + 1), n)];
      assert Contents(b1)[i] == b1.data[Wrap(b1.readPos + 1 + i, n)];
      assert Wrap(b1.readPos + 1 + i, n) == Wrap(b.readPos + 1 + (i + 1), n);
    }
  }

  /** `Reader::peek` as written: the slot at `read_pos`, the item read last, not the next one. */
  function Peek<T>(b: Buffer<T>): T
    requires Valid(b)
  {
    b.data[b.readPos]
  }

  /** What `peek` really returns: after a successful `read`, the item that read returned. */
  lemma PeekReturnsLastRead<T>(b: Buffer<T>)
    requires Valid(b) && Read(b).1.Some?
    ensures Peek(Read(b).0) == Read(b).1.value
    ensures Contents(Read(b).0) == Contents(b)[1..]
  {
  }

  /** On a fresh buffer holding one item, `peek` shows the unused slot 0, not that item. */
  lemma PeekIsNotNext()
    ensures var b := Insert(New([0, 0, 0]), 7).0;
      Contents(b) == [7] && Peek(b) == 0 && PeekFixed(b) == Some(7)
  {
    var b := Insert(New([0, 0, 0]), 7).0;
    assert b == Buffer([0, 7, 0], 0, 2);
  }

  /** `Writer::insert`: refuses, changing nothing, exactly when `Size - 1` items are queued. */
  function Insert<T>(b: Buffer<T>, item: T): (r: (Buffer<T>, bool))
    requires Valid(b)
    ensures Valid(r.0)
    ensures r.1 <==> Count(b) < |b.data| - 1
    ensures !r.1 ==> r.0 == b
    ensures r.1 ==> Contents(r.0) == Contents(b) + [item]
    ensures r.0.readPos == b.readPos
  {
    if b.writePos == b.readPos then (b, false)
    else
      var b1 := b.(data := b.data[b.writePos := item], writePos := Advanced(b, b.writePos));
      InsertAppends(b, item, b1);
      (b1, true)
  }

  lemma InsertAppends<T>(b: Buffer<T>, item: T, b1: Buffer<T>)
    requires Valid(b) && b.writePos != b.readPos
    requires b1 == b.(data := b.data[b.writePos := item], writePos := Wrap(b.writePos + 1, |b.data|))
    ensures Valid(b1) && Count(b1) == Count(b) + 1
    ensures Contents(b1) == Contents(b) + [item]
  {
    forall i | 0 <= i < Count(b1)
      ensures Contents(b1)[i] == (Contents(b) + [item])[i]
    {
      SlotOf(b, i);
    }
  }

  /** Slot `read_pos + 1 + i` is the write slot exactly for `i == Count`. */
  lemma SlotOf<T>(b: Buffer<T>, i: nat)
    requires Valid(b) && i <= Count(b)
    ensures (Wrap(b.readPos + 1 + i, |b.data|) == b.writePos) <==> i == Count(b)
  {
  }

  /** `Reader::wait_and_read` as written: takes the slot at `read_pos`, then advances. */
  function WaitAndRead<T>(b: Buffer<T>): (r: Option<(Buffer<T>, T)>)
    requires Valid(b)
    ensures r.None? <==> Contents(b) == []
    ensures r.Some? ==> Valid(r.value.0)
    ensures r.Some? ==> r.value.1 == b.data[b.readPos] && Contents(r.value.0) == Contents(b)[1..]
  {
    if Advanced(b, b.readPos) == b.writePos then None
    else
      var b1 := b.(readPos := Advanced(b, b.readPos));
      ReadShifts(b, b1);
      Some((b1, b.data[b.readPos]))
  }

  /** `wait_and_read` returning the item it dequeues, as `read` does. */
  function WaitAndReadFixed<T>(b: Buffer<T>): (r: Option<(Buffer<T>, T)>)
    requires Valid(b)
    ensures r.None? <==> Contents(b) == []
    ensures r.Some? ==> Valid(r.value.0)
    ensures r.Some? ==> r.value.1 == Contents(b)[0] && Contents(r.value.0) == Contents(b)[1..]
  {
    var (b1, v) := Read(b);
    if v.None? then None else Some((b1, v.value))
  }

  /** `peek` as its comment describes it: the item `read` would return, positions untouched. */
  function PeekFixed<T>(b: Buffer<T>): (r: Option<T>)
    requires Valid(b)
    ensures r.None? <==> Contents(b) == []
    ensures r.Some? ==> r.value == Contents(b)[0]
  {
    if Advanced(b, b.readPos) == b.writePos then None
    else
      ReadShifts(b, b.(readPos := Advanced(b, b.readPos)));
      Some(b.data[Advanced(b, b.readPos)])
  }

  /** `Writer::wait_and_insert`: waits while full, then inserts like `insert`. */
  function WaitAndInsert<T>(b: Buffer<T>, item: T): (r: Option<Buffer<T>>)
    requires Valid(b)
    ensures r.None? <==> Count(b) == |b.data| - 1
    ensures r.Some? ==> Valid(r.value) && Contents(r.value) == Contents(b) + [item]
  {
    var (b1, ok) := Insert(b, item);
    if ok then Some(b1) else None
  }

  /** A fresh buffer is empty: `read` yields `nullopt`. */
  lemma NewIsEmpty<T>(init: seq<T>)
    requires |init| >= 2
    ensures Contents(New(init)) == [] && Read(New(init)).1 == None
  {
  }

  /** The scenario in sp/server/exp/main.cpp: two inserts into a `Size = 3` buffer succeed and a third is refused. */
  lemma ScenarioCapacity()
    ensures var b0 := New([0, 0, 0]);
      var (b1, ok1) := Insert(b0, 1);
      var (b2, ok2) := Insert(b1, 2);
      var (b3, ok3) := Insert(b2, 3);
      ok1 && ok2 && !ok3 && Contents(b2) == [1, 2]
  {
  }

  /**
   * The scenario in sp/server/exp/main.cpp, continued: after reading 1 and 2 with `read` and inserting
   * 3, `wait_and_read` hands back 2 a second time instead of 3.
   */
  lemma ScenarioStaleRead()
    ensures var b0 := New([0, 0, 0]);
      var b2 := Insert(Insert(b0, 1).0, 2).0;
      var r1 := Read(b2);
      var r2 := Read(r1.0);
      var b3 := Insert(r2.0, 3).0;
      && r1.1 == Some(1) && r2.1 == Some(2)
      && Contents(b3) == [3]
      && WaitAndRead(b3) == Some((b3.(readPos := 0), 2))
      && WaitAndReadFixed(b3) == Some((b3.(readPos := 0), 3))
  {
    var b0 := New([0, 0, 0]);
    var b1 := Insert(b0, 1).0;
    assert b1 == Buffer([0, 1, 0], 0, 2);
    var b2 := Insert(b1, 2).0;
    assert b2 == Buffer([0, 1, 2], 0, 0);
    var r1 := Read(b2);
    assert r1 == (Buffer([0, 1, 2], 1, 0), Some(1));
    var r2 := Read(r1.0);
    assert r2 == (Buffer([0, 1, 2], 2, 0), Some(2));
    var b3 := Insert(r2.0, 3).0;
    assert b3 == Buffer([3, 1, 2], 2, 1);
  }

  /** Insert every item in turn, failing if one is refused. */
  function InsertAll<T>(b: Buffer<T>, items: seq<T>): (r: Option<Buffer<T>>)
    requires Valid(b)
    ensures r.Some? ==> Valid(r.value)
    decreases |items|
  {
    if |items| == 0 then Some(b)
    else
      var (b1, ok) := Insert(b, items[0]);
      if !ok then None else InsertAll(b1, items[1..])
  }

  /** Items that fit are all accepted and queued behind the current contents, in order. */
  lemma {:induction false} InsertAllFits<T>(b: Buffer<T>, items: seq<T>)
    requires Valid(b) && Count(b) + |items| <= |b.data| - 1
    ensures var r := InsertAll(b, items);
      r.Some? && Contents(r.value) == Contents(b) + items
    decreases |items|
  {
    if |items| > 0 {
      var b1 := Insert(b, items[0]).0;
      InsertAllFits(b1, items[1..]);
      assert Contents(b) + items == Contents(b) + [items[0]] + items[1..];
    }
  }

  /** Repeated `read`s until `nullopt`: returns the contents in order and leaves the buffer empty. */
  function DrainAll<T>(b: Buffer<T>): (r: (Buffer<T>, seq<T>))
    requires Valid(b)
    ensures Valid(r.0) && Contents(r.0) == [] && r.1 == Contents(b)
    decreases Count(b)
  {
    var (b1, v) := Read(b);
    if v.None? then (b, [])
    else
      var (b2, rest) := DrainAll(b1);
      (b2, [v.value] + rest)
  }

  /** FIFO: whatever is inserted into an empty buffer is read back in the same order. */
  lemma FifoOrder<T>(b: Buffer<T>, items: seq<T>)
    requires Valid(b) && Count(b) == 0 && |items| <= |b.data| - 1
    ensures InsertAll(b, items).Some? && DrainAll(InsertAll(b, items).value).1 == items
  {
    InsertAllFits(b, items);
  }
}
