/**
 * The bounded FIFO of src/ring_buffer.rs. The retained items, oldest first,
 * are the abstract value; `Pushed` says what one `push` does to them and the
 * class `RingBuffer` is proved to implement it with the source's own cursor
 * arithmetic over a growable vector.
 */
module RingBuffers {
  import opened Wrappers

  /** The retained items after pushing `x` into a buffer of capacity `size`. */
  function Pushed<T>(items: seq<T>, size: nat, x: T): (r: seq<T>)
    requires 0 < size && |items| <= size
    ensures |r| <= size && r != [] && r[|r| - 1] == x
  {
    if |items| < size then items + [x] else items[1..] + [x]
  }

  /** The retained items after pushing every element of `xs`, in order. */
  function PushedAll<T>(items: seq<T>, size: nat, xs: seq<T>): (r: seq<T>)
    requires 0 < size && |items| <= size
    ensures |r| <= size
    decreases |xs|
  {
    if xs == [] then items else PushedAll(Pushed(items, size, xs[0]), size, xs[1..])
  }

  function Min(a: nat, b: nat): nat { if a < b then a else b }

  /** The cursor step `(i + 1) % size` for an index in range. */
  lemma NextIndex(i: nat, size: nat)
    requires i < size
    ensures (i + 1) % size == if i + 1 < size then i + 1 else 0
  {
  }

  /** `(i + size - 1) % size` for an index in range: the slot before `i`, cyclically. */
  lemma PreviousIndex(i: nat, size: nat)
    requires i < size
    ensures (i + size - 1) % size == if i == 0 then size - 1 else i - 1
  {
    if i > 0 {
      assert i + size - 1 == (i - 1) + size;
    }
  }

  /** The last `min(n, |s|)` elements of `s`. */
  function Newest<T>(s: seq<T>, n: nat): seq<T> {
    s[|s| - Min(n, |s|)..]
  }

  /** Dropping the oldest element of a sequence longer than `n` keeps its newest `n`. */
  lemma NewestOfTail<T>(s: seq<T>, n: nat)
    requires |s| > n
    ensures Newest(s[1..], n) == Newest(s, n)
  {
    assert s[1..][|s| - 1 - n..] == s[|s| - n..];
  }

  /**
   * Pushing a sequence keeps exactly the newest `size` items of everything
   * pushed so far: the buffer is a sliding window over its input.
   */
  lemma {:induction false} PushedAllIsWindow<T>(items: seq<T>, size: nat, xs: seq<T>)
    requires 0 < size && |items| <= size
    ensures PushedAll(items, size, xs) == Newest(items + xs, size)
    decreases |xs|
  {
    if xs == [] {
      assert items + xs == items;
    } else {
      var next := Pushed(items, size, xs[0]);
      PushedAllIsWindow(next, size, xs[1..]);
      if |items| < size {
        assert next + xs[1..] == items + xs;
      } else {
        assert next + xs[1..] == (items + xs)[1..];
        NewestOfTail(items + xs, size);
      }
    }
  }

  /** Pushing at most `size` items into an empty buffer keeps all of them, in order. */
  lemma PushedAllKeepsShortInput<T>(size: nat, xs: seq<T>)
    requires 0 < size && |xs| <= size
    ensures PushedAll([], size, xs) == xs
  {
    PushedAllIsWindow([], size, xs);
    assert [] + xs == xs;
  }

  /** A push into a full buffer evicts exactly the oldest item and keeps the count at `size`. */
  lemma PushedFullEvictsOldest<T>(items: seq<T>, size: nat, x: T)
    requires 0 < size && |items| == size
    ensures |Pushed(items, size, x)| == size
    ensures Pushed(items, size, x) == items[1..] + [x]
    ensures forall i :: 1 <= i < size ==> Pushed(items, size, x)[i - 1] == items[i]
  {
  }

  /** After `extend(x)` on a full buffer, the next push evicts `x` and nothing else. */
  lemma ExtendedItemEvictedFirst<T>(items: seq<T>, x: T, y: T)
    ensures Pushed([x] + items, |items| + 1, y) == items + [y]
  {
    assert ([x] + items)[1..] == items;
  }

  /**
   * The layout of a ring buffer's fields. While it fills, `buffer` holds the
   * items in push order with `start == 0` and `end == |buffer|`; once full,
   * `end` is the slot of the oldest item.
   */
  ghost predicate Layout<T>(buffer: seq<T>, start: nat, end: nat, size: nat) {
    |buffer| <= size &&
    (size == 0 ==> start == 0 && end == 0) &&
    (size > 0 ==> start < size && end < size) &&
    (|buffer| < size ==> start == 0 && end == |buffer|)
  }

  /** The items a layout retains, oldest first. */
  ghost function Window<T>(buffer: seq<T>, start: nat, end: nat, size: nat): (c: seq<T>)
    requires Layout(buffer, start, end, size)
    ensures |c| == |buffer|
  {
    if |buffer| < size then buffer else buffer[end..] + buffer[..end]
  }

  /** The field updates of `push` keep the layout and push `item` onto the window. */
  lemma PushLayout<T>(buffer: seq<T>, start: nat, end: nat, size: nat, item: T)
    requires Layout(buffer, start, end, size) && size > 0
    ensures var b := if |buffer| < size then buffer + [item] else buffer[end := item];
            var e := (end + 1) % size;
            var s := if e == start then (start + 1) % size else start;
            Layout(b, s, e, size) &&
            Window(b, s, e, size) == Pushed(Window(buffer, start, end, size), size, item)
  {
    NextIndex(end, size);
    NextIndex(start, size);
    var before := Window(buffer, start, end, size);
    var e := (end + 1) % size;
    if |buffer| < size {
      var b := buffer + [item];
      if |b| == size {
        assert e == 0 && b[e..] + b[..e] == b;
      }
    } else {
      var b := buffer[end := item];
      assert before == buffer[end..] + buffer[..end];
      if e == 0 {
        assert b == buffer[..end] + [item];
      } else {
        assert b[e..] == buffer[e..];
        assert b[..e] == buffer[..end] + [item];
      }
    }
  }

  /**
   * The buffer itself, laid out as `Layout` describes. `start` is maintained as
   * in the source but read only by `last` while filling.
   */
  class RingBuffer<T(==)> {
    var buffer: seq<T>
    var start: nat
    var end: nat
    var size: nat

    ghost predicate Valid()
      reads this
    {
      Layout(buffer, start, end, size)
    }

    /** The retained items, oldest first. */
    ghost function Contents(): (c: seq<T>)
      reads this
      requires Valid()
      ensures |c| == |buffer|
    {
      Window(buffer, start, end, size)
    }

    /** `RingBuffer::new`; the preallocation hint only sizes the vector's allocation. */
    constructor (preallocateCapacity: nat, size: nat)
      ensures Valid() && this.size == size && Contents() == []
    {
      buffer := [];
      start := 0;
      end := 0;
      this.size := size;
    }

    /** `push`: append while filling, otherwise overwrite the oldest slot. */
    method Push(item: T)
      requires Valid() && size > 0
      modifies this
      ensures Valid() && size == old(size)
      ensures Contents() == Pushed(old(Contents()), size, item)
    {
      PushLayout(buffer, start, end, size, item);
      var next := (end + 1) % size;
      buffer, end, start :=
        (if |buffer| < size then buffer + [item] else buffer[end := item]),
        next,
        (if next == start then (start + 1) % size else start);
    }

    /** `extend`: grow the capacity by one, placing `item` as the oldest element. */
    method Extend(item: T)
      requires Valid() && |buffer| == size
      modifies this
      ensures Valid() && size == old(size) + 1 && |buffer| == size
      ensures Contents() == [item] + old(Contents())
    {
      size := size + 1;
      buffer := buffer[..end] + [item] + buffer[end..];
      assert buffer[end..] == [item] + old(buffer)[end..];
      assert buffer[..end] == old(buffer)[..end];
    }

    /** `first`: the newest item. */
    function First(): (r: Option<T>)
      reads this
      requires Valid()
      ensures r.None? <==> Contents() == []
      ensures r.Some? ==> r.value == Contents()[|Contents()| - 1]
    {
      if |buffer| == 0 then None
      else if |buffer| < size then Some(buffer[end - 1])
      else
        PreviousIndex(end, size);
        Some(buffer[(end + size - 1) % size])
    }

    /** `last`: the oldest item. */
    function Last(): (r: Option<T>)
      reads this
      requires Valid()
      ensures r.None? <==> Contents() == []
      ensures r.Some? ==> r.value == Contents()[0]
    {
      if |buffer| == 0 then None
      else if |buffer| < size then Some(buffer[start])
      else Some(buffer[end])
    }

    /** `contains`: membership among the retained items. */
    function Contains(item: T): (b: bool)
      reads this
      requires Valid()
      ensures b <==> item in Contents()
    {
      assert buffer == buffer[..end] + buffer[end..];
      item in buffer
    }
  }

  function SeqMin(s: seq<int>): (m: int)
    requires s != []
    ensures m in s && forall x :: x in s ==> m <= x
  {
    if |s| == 1 then s[0]
    else
      var m' := SeqMin(s[1..]);
      assert forall x :: x in s ==> x == s[0] || x in s[1..];
      if s[0] < m' then s[0] else m'
  }

  function SeqMax(s: seq<int>): (m: int)
    requires s != []
    ensures m in s && forall x :: x in s ==> x <= m
  {
    if |s| == 1 then s[0]
    else
      var m' := SeqMax(s[1..]);
      assert forall x :: x in s ==> x == s[0] || x in s[1..];
      if s[0] > m' then s[0] else m'
  }

  /**
   * The tests' helper `contains_all`: the capacity equals the number of expected
   * items, each of them is retained, and the integers just below the least and
   * just above the greatest are not.
   */
  predicate ContainsAll(b: RingBuffer<int>, expected: seq<int>): (r: bool)
    reads b
    requires b.Valid() && expected != []
    ensures r <==> b.size == |expected| && (forall x :: x in expected ==> x in b.Contents()) &&
                   SeqMin(expected) - 1 !in b.Contents() && SeqMax(expected) + 1 !in b.Contents()
  {
    b.size == |expected| &&
    (forall x :: x in expected ==> b.Contains(x)) &&
    !b.Contains(SeqMin(expected) - 1) && !b.Contains(SeqMax(expected) + 1)
  }

  /** `contains_all` holds when the retained items are exactly the expected ones, in any order. */
  lemma ContainsAllOf(b: RingBuffer<int>, expected: seq<int>)
    requires b.Valid() && expected != [] && b.size == |expected|
    requires forall x :: x in expected <==> x in b.Contents()
    ensures ContainsAll(b, expected)
  {
    var lo, hi := SeqMin(expected), SeqMax(expected);
    assert lo - 1 !in expected && hi + 1 !in expected;
  }

  /** The unit test `can_push_items`. */
  method CanPushItems() returns (passes: bool)
    ensures passes
  {
    var result := new RingBuffer<int>(10, 3);
    result.Push(1);
    result.Push(2);
    result.Push(3);
    assert result.Contents() == [1, 2, 3];
    passes := ContainsAll(result, [1, 2, 3]);
  }

  /** The unit test `can_push_more_items_than_size`. */
  method CanPushMoreItemsThanSize() returns (passes: bool)
    ensures passes
  {
    var result := new RingBuffer<int>(10, 3);
    result.Push(1);
    result.Push(2);
    result.Push(3);
    result.Push(4);
    assert result.Contents() == [2, 3, 4];
    passes := ContainsAll(result, [2, 3, 4]);
  }

  /** The unit test `can_expand_more_items_than_size` (without its debug print). */
  method CanExpandMoreItemsThanSize() returns (passes: bool)
    ensures passes
  {
    var result := new RingBuffer<int>(10, 2);
    result.Push(1);
    result.Push(2);
    assert result.Contents() == [1, 2];
    ContainsAllOf(result, [1, 2]);
    var early := ContainsAll(result, [1, 2]);
    result.Extend(3);
    result.Extend(4);
    result.Push(5);
    result.Extend(6);
    assert result.Contents() == [6, 3, 1, 2, 5];
    ContainsAllOf(result, [1, 2, 3, 5, 6]);
    passes := early && ContainsAll(result, [1, 2, 3, 5, 6]);
  }

  /** The unit test `correctly_calculates_first`: the value of `first` after each step. */
  method CorrectlyCalculatesFirst() returns (firsts: seq<Option<int>>)
    ensures firsts == [Some(1), Some(2), Some(3), Some(4), Some(5), Some(6), Some(6)]
  {
    var result := new RingBuffer<int>(10, 3);
    result.Push(1);
    var f1 := result.First();
    result.Push(2);
    var f2 := result.First();
    result.Push(3);
    var f3 := result.First();
    result.Push(4);
    var f4 := result.First();
    result.Push(5);
    var f5 := result.First();
    result.Push(6);
    var f6 := result.First();
    result.Extend(7);
    var f7 := result.First();
    firsts := [f1, f2, f3, f4, f5, f6, f7];
  }

  /** The unit test `correctly_calculates_last`: the value of `last` after each step. */
  method CorrectlyCalculatesLast() returns (lasts: seq<Option<int>>)
    ensures lasts == [Some(1), Some(1), Some(1), Some(2), Some(3), Some(4), Some(7)]
  {
    var result := new RingBuffer<int>(10, 3);
    result.Push(1);
    var l1 := result.Last();
    result.Push(2);
    var l2 := result.Last();
    result.Push(3);
    var l3 := result.Last();
    result.Push(4);
    var l4 := result.Last();
    result.Push(5);
    var l5 := result.Last();
    result.Push(6);
    var l6 := result.Last();
    result.Extend(7);
    var l7 := result.Last();
    lasts := [l1, l2, l3, l4, l5, l6, l7];
  }
}
