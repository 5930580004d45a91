/**
 * `SimpleVector`: a dynamic array of `int`s over an `ArrayPtr`, tracking the
 * logical size and the allocated capacity separately.
 *
 * Positions (the source's pointer iterators) are indices in `[0, size]`.
 * Slots at `[size, capacity)` are allocated but logically absent; nothing is
 * stated about them.
 */
module Vector {
  import opened Ownership
  import opened Algorithms

  /** Capacity hint that selects the reserving constructor. */
  datatype ReserveProxyObj = ReserveProxyObj(capacity: nat)

  /** Free function that wraps a capacity into a hint. */
  function Reserve(capacityToReserve: nat): (proxy: ReserveProxyObj)
    ensures proxy.capacity == capacityToReserve
  {
    ReserveProxyObj(capacityToReserve)
  }

  // ---------------------------------------------------------------------
  // Growth rule

  /** Capacity after a reallocating growth: 1 from empty, else doubled. */
  function Grown(capacity: nat): (r: nat)
    ensures r > capacity && r >= 1
    ensures capacity == 0 ==> r == 1
    ensures capacity > 0 ==> r == 2 * capacity
  {
    if capacity > 0 then 2 * capacity else 1
  }

  /** Capacity after one `PushBack` on a vector of this size and capacity:
      it grows only when the vector is full. */
  function CapacityAfterPushBack(size: nat, capacity: nat): nat
  {
    if size == capacity then Grown(capacity) else capacity
  }

  /** Capacity of a default-constructed vector after `n` calls to `PushBack`. */
  function CapacityAfterPushBacks(n: nat): nat
  {
    if n == 0 then 0 else CapacityAfterPushBack(n - 1, CapacityAfterPushBacks(n - 1))
  }

  ghost predicate IsPowerOfTwo(x: nat)
  {
    x == 1 || (x >= 2 && x % 2 == 0 && IsPowerOfTwo(x / 2))
  }

  /** Starting from an empty vector, repeated `PushBack` gives the capacities
      0, 1, 2, 4, 8, ...: after `n >= 1` appends the capacity is the least
      power of two that holds `n` elements. */
  lemma {:induction false} DoublingGrowth(n: nat)
    requires n >= 1
    ensures IsPowerOfTwo(CapacityAfterPushBacks(n))
    ensures n <= CapacityAfterPushBacks(n) < 2 * n
  {
    if n > 1 {
      DoublingGrowth(n - 1);
      var c := CapacityAfterPushBacks(n - 1);
      if c == n - 1 {
        assert CapacityAfterPushBacks(n) == 2 * c;
        assert (2 * c) / 2 == c;
      }
    }
  }

  /** In the full-capacity branch of `Insert` the element is appended to a
      vector of the grown capacity that holds only the first `pos` elements;
      that append never needs to grow again, and the whole old contents plus
      the new element fit. */
  lemma InsertGrowthRoom(size: nat, capacity: nat, pos: nat)
    requires size == capacity && pos <= size
    ensures CapacityAfterPushBack(pos, Grown(capacity)) == Grown(capacity)
    ensures size + 1 <= Grown(capacity)
  {
  }

  // ---------------------------------------------------------------------
  // Specification of the sequence operations

  /** The sequence after inserting `v` at position `pos`. */
  function Inserted(s: seq<int>, pos: nat, v: int): (r: seq<int>)
    requires pos <= |s|
    ensures |r| == |s| + 1 && r[pos] == v
    ensures forall i :: 0 <= i < pos ==> r[i] == s[i]
    ensures forall i :: pos < i < |r| ==> r[i] == s[i - 1]
  {
    s[..pos] + [v] + s[pos..]
  }

  /** The sequence after removing the element at position `pos`. */
  function Erased(s: seq<int>, pos: nat): (r: seq<int>)
    requires pos < |s|
    ensures |r| == |s| - 1
    ensures forall i :: 0 <= i < pos ==> r[i] == s[i]
    ensures forall i :: pos <= i < |r| ==> r[i] == s[i + 1]
  {
    s[..pos] + s[pos + 1..]
  }

  /** Erasing what was just inserted gives the original sequence back. */
  lemma {:induction false} EraseInserted(s: seq<int>, pos: nat, v: int)
    requires pos <= |s|
    ensures Erased(Inserted(s, pos, v), pos) == s
  {
    var r := Erased(Inserted(s, pos, v), pos);
    assert |r| == |s|;
    forall i | 0 <= i < |s| ensures r[i] == s[i] {
    }
  }

  /** Inserting at the end is appending. */
  lemma InsertAtEnd(s: seq<int>, v: int)
    ensures Inserted(s, |s|, v) == s + [v]
  {
  }

  /** The sequence after `Resize(n)`: truncated, or extended with
      value-initialised elements. */
  function Resized(s: seq<int>, n: nat): (r: seq<int>)
    ensures |r| == n
    ensures forall i :: 0 <= i < n && i < |s| ==> r[i] == s[i]
    ensures forall i :: |s| <= i < n ==> r[i] == Default
  {
    if n <= |s| then s[..n] else s + Defaults(n - |s|)
  }

  /** Resizing to the current size changes nothing, and a grow-then-shrink
      back to the old size restores the sequence. */
  lemma {:induction false} ResizeRoundTrip(s: seq<int>, n: nat)
    ensures Resized(s, |s|) == s
    ensures Resized(Resized(s, n), |s|) == (if n >= |s| then s else s[..n] + Defaults(|s| - n))
  {
    assert Resized(s, |s|) == s;
    var t := Resized(Resized(s, n), |s|);
    var u := if n >= |s| then s else s[..n] + Defaults(|s| - n);
    assert |t| == |u|;
    forall i | 0 <= i < |s| ensures t[i] == u[i] {
    }
  }

  // ---------------------------------------------------------------------
  // std::copy and std::fill on (possibly absent) buffers

  /** Copies `src[first..last]` to `dst` starting at `out`. An empty range
      may name absent buffers. */
  method CopyRange(src: array?<int>, first: nat, last: nat, dst: array?<int>, out: nat)
    requires first <= last
    requires first < last ==> src != null && dst != null && src != dst
    requires src != null ==> last <= src.Length
    requires dst != null ==> out + (last - first) <= dst.Length
    modifies dst
    ensures dst != null ==> forall k :: 0 <= k < dst.Length ==>
      dst[k] == if out <= k < out + (last - first) then src[first + k - out] else old(dst[k])
  {
    var i := first;
    while i < last
      invariant first <= i <= last
      invariant dst != null ==> forall k :: 0 <= k < dst.Length ==>
        dst[k] == if out <= k < out + (i - first) then src[first + k - out] else old(dst[k])
    {
      dst[out + (i - first)] := src[i];
      i := i + 1;
    }
  }

  /** `std::copy_backward(first, last, last + 1)` inside one buffer: shifts
      `a[first..last]` one slot right, last element first, so that no element
      is overwritten before it is moved. */
  method CopyBackward(a: array<int>, first: nat, last: nat)
    requires first <= last < a.Length
    modifies a
    ensures forall k :: 0 <= k < a.Length ==>
      a[k] == if first < k <= last then old(a[k - 1]) else old(a[k])
  {
    var i := last;
    while i > first
      invariant first <= i <= last
      invariant forall k :: 0 <= k < a.Length ==>
        a[k] == if i < k <= last then old(a[k - 1]) else old(a[k])
    {
      a[i] := a[i - 1];
      i := i - 1;
    }
  }

  /** `std::copy(first, last, out)` inside one buffer with `out < first`:
      moves `a[first..last]` left to start at `out`, front element first. */
  method CopyWithin(a: array<int>, first: nat, last: nat, out: nat)
    requires out < first <= last <= a.Length
    modifies a
    ensures forall k :: 0 <= k < a.Length ==>
      a[k] == if out <= k < out + (last - first) then old(a[first + k - out]) else old(a[k])
  {
    var i := first;
    while i < last
      invariant first <= i <= last
      invariant forall k :: 0 <= k < a.Length ==>
        a[k] == if out <= k < out + (i - first) then old(a[first + k - out]) else old(a[k])
    {
      a[out + (i - first)] := a[i];
      i := i + 1;
    }
  }

  /** Sets `a[first..last]` to `value`. */
  method Fill(a: array?<int>, first: nat, last: nat, value: int)
    requires first <= last
    requires a == null ==> first == last
    requires a != null ==> last <= a.Length
    modifies a
    ensures a != null ==> forall k :: 0 <= k < a.Length ==>
      a[k] == if first <= k < last then value else old(a[k])
  {
    var i := first;
    while i < last
      invariant first <= i <= last
      invariant a != null ==> forall k :: 0 <= k < a.Length ==>
        a[k] == if first <= k < i then value else old(a[k])
    {
      a[i] := value;
      i := i + 1;
    }
  }

  /** Result of the checked accessor `At`. */
  datatype Access = Element(value: int) | OutOfRange

  // ---------------------------------------------------------------------
  // The vector

  class SimpleVector {
    /** The owned storage; the handle itself is a fixed subobject, only the
        buffer it holds changes. */
    const items: ArrayPtr
    var size: nat
    var capacity: nat

    /** Object invariant: `size <= capacity`, the buffer holds exactly
        `capacity` slots, and capacity 0 means no buffer at all. */
    ghost predicate Valid()
      reads this, items
    {
      && size <= capacity
      && (capacity == 0 <==> items.raw == null)
      && (items.raw != null ==> items.raw.Length == capacity)
    }

    /** The logical contents: the first `size` slots. */
    function Elements(): (s: seq<int>)
      reads this, items, items.raw
      requires Valid()
      ensures |s| == size
    {
      if items.raw == null then [] else items.raw[..size]
    }

    /** Default construction: empty, no allocation. */
    constructor ()
      ensures Valid() && fresh(items)
      ensures items.raw == null && capacity == 0 && Elements() == []
    {
      items := new ArrayPtr();
      size, capacity := 0, 0;
    }

    /** `n` value-initialised elements; size and capacity are both `n`. */
    constructor Sized(n: nat)
      ensures Valid() && fresh(items) && (items.raw != null ==> fresh(items.raw))
      ensures capacity == n && Elements() == Defaults(n)
    {
      items := new ArrayPtr.Sized(n);
      size, capacity := n, n;
      new;
      assert items.raw != null ==> items.raw[..n] == items.raw[..];
    }

    /** `n` copies of `value`; size and capacity are both `n`. */
    constructor Filled(n: nat, value: int)
      ensures Valid() && fresh(items) && (items.raw != null ==> fresh(items.raw))
      ensures capacity == n && Elements() == seq(n, _ => value)
    {
      items := new ArrayPtr.Sized(n);
      size, capacity := n, n;
      new;
      Fill(items.raw, 0, n, value);
    }

    /** The elements of an initializer list, in order; size and capacity are
        both the list's length. */
    constructor FromList(list: seq<int>)
      ensures Valid() && fresh(items) && (items.raw != null ==> fresh(items.raw))
      ensures capacity == |list| && Elements() == list
    {
      items := new ArrayPtr.Sized(|list|);
      size, capacity := |list|, |list|;
      new;
      var i := 0;
      while i < |list|
        invariant 0 <= i <= |list|
        invariant items.raw != null ==> forall k :: 0 <= k < i ==> items.raw[k] == list[k]
        modifies items.raw
      {
        items.raw[i] := list[i];
        i := i + 1;
      }
    }

    /** Copy construction: a fresh buffer of the source's capacity holding
        the source's elements, so later changes to either vector leave the
        other alone. */
    constructor Copy(other: SimpleVector)
      requires other.Valid()
      ensures Valid() && fresh(items) && (items.raw != null ==> fresh(items.raw))
      ensures capacity == other.capacity && Elements() == other.Elements()
    {
      items := new ArrayPtr.Sized(other.capacity);
      size, capacity := other.size, other.capacity;
      new;
      CopyRange(other.items.raw, 0, other.size, items.raw, 0);
      assert items.raw != null ==> items.raw[..size] == other.items.raw[..size];
    }

    /** Reserving construction: no elements, capacity exactly the hint. */
    constructor Reserved(proxy: ReserveProxyObj)
      ensures Valid() && fresh(items) && (items.raw != null ==> fresh(items.raw))
      ensures capacity == proxy.capacity && Elements() == []
    {
      items := new ArrayPtr();
      size, capacity := 0, 0;
      new;
      Reserve(proxy.capacity);
    }

    /** Move construction: takes `other`'s buffer, size and capacity, and
        leaves `other` empty with capacity 0. */
    constructor Move(other: SimpleVector)
      requires other.Valid()
      modifies other, other.items
      ensures Valid() && fresh(items)
      ensures items.raw == old(other.items.raw)
      ensures capacity == old(other.capacity) && Elements() == old(other.Elements())
      ensures other.Valid() && other.items.raw == null
      ensures other.capacity == 0 && other.Elements() == []
    {
      items := new ArrayPtr.Move(other.items);
      size, capacity := other.size, other.capacity;
      new;
      other.size, other.capacity := 0, 0;
    }

    /** Number of logical elements. */
    function GetSize(): (n: nat)
      reads this, items, items.raw
      requires Valid()
      ensures n == |Elements()|
    {
      size
    }

    /** Number of allocated slots: never below the size, and 0 exactly when
        no buffer is held. */
    function GetCapacity(): (n: nat)
      reads this, items
      requires Valid()
      ensures n >= size
      ensures n == 0 <==> items.raw == null
    {
      capacity
    }

    predicate IsEmpty()
      reads this, items, items.raw
      requires Valid()
      ensures IsEmpty() <==> Elements() == []
    {
      size == 0
    }

    /** Appends `item`. A full vector first moves its elements to a fresh
        buffer of the grown capacity (1 from empty, else double). */
    method PushBack(item: int)
      requires Valid()
      modifies this, items, items.raw
      ensures Valid() && (items.raw == old(items.raw) || fresh(items.raw))
      ensures Elements() == old(Elements()) + [item]
      ensures capacity == CapacityAfterPushBack(old(size), old(capacity))
      ensures old(size) < old(capacity) ==> items.raw == old(items.raw)
    {
      if size == capacity {
        var newCapacity := Grown(capacity);
        var doubled := new SimpleVector.Sized(newCapacity);
        doubled.size := size;
        CopyRange(items.raw, 0, size, doubled.items.raw, 0);
        Swap(doubled);
      }
      ghost var before := Elements();
      items.raw[size] := item;
      size := size + 1;
      assert Elements() == before + [item];
    }

    /** Inserts `value` at position `pos` and returns that position. Room
        left: the tail moves one slot right, last element first. Full: the
        elements before `pos`, the value and the rest are placed in a fresh
        buffer of the grown capacity. */
    method Insert(pos: nat, value: int) returns (r: nat)
      requires Valid() && pos <= size
      modifies this, items, items.raw
      ensures Valid() && (items.raw == old(items.raw) || fresh(items.raw))
      ensures r == pos
      ensures Elements() == Inserted(old(Elements()), pos, value)
      ensures capacity == CapacityAfterPushBack(old(size), old(capacity))
      ensures old(size) < old(capacity) ==> items.raw == old(items.raw)
    {
      ghost var s := Elements();
      if size < capacity {
        CopyBackward(items.raw, pos, size);
        items.raw[pos] := value;
        size := size + 1;
        r := pos;
        assert Elements() == Inserted(s, pos, value);
      } else {
        InsertGrowthRoom(size, capacity, pos);
        var newCapacity := Grown(capacity);
        var doubled := new SimpleVector.Sized(newCapacity);
        CopyRange(items.raw, 0, pos, doubled.items.raw, 0);
        doubled.size := pos;
        r := doubled.size;
        doubled.PushBack(value);
        assert doubled.Elements() == s[..pos] + [value];
        CopyRange(items.raw, pos, size, doubled.items.raw, doubled.size);
        doubled.size := size + 1;
        assert doubled.Elements() == Inserted(s, pos, value);
        Swap(doubled);
      }
    }

    /** The overload of `Insert` that takes the value by move, as written.
        With room it behaves like `Insert`. On a full vector it writes the
        value at index `pos` of the grown buffer but leaves the size at `pos`,
        so copying the tail to the end position then overwrites the value:
        for `pos < size` the result is the old contents followed by one
        value-initialised element, and the returned position holds the old
        element at `pos`. The source's overload compiles only for class
        element types (its in-place shift assigns through an rvalue
        reference), so `int` stands in here for such a type. */
    method InsertMove(pos: nat, value: int) returns (r: nat)
      requires Valid() && pos <= size
      modifies this, items, items.raw
      ensures Valid() && (items.raw == old(items.raw) || fresh(items.raw))
      ensures r == pos
      ensures Elements() ==
        if old(size) < old(capacity) then Inserted(old(Elements()), pos, value)
        else if pos < old(size) then old(Elements()) + [Default]
        else old(Elements()) + [value]
      ensures capacity == CapacityAfterPushBack(old(size), old(capacity))
      ensures old(size) < old(capacity) ==> items.raw == old(items.raw)
    {
      ghost var s := Elements();
      if size < capacity {
        CopyBackward(items.raw, pos, size);
        items.raw[pos] := value;
        size := size + 1;
        r := pos;
        assert Elements() == Inserted(s, pos, value);
      } else {
        var newCapacity := Grown(capacity);
        var doubled := new SimpleVector.Sized(newCapacity);
        var grown := doubled.items.raw;
        CopyRange(items.raw, 0, pos, grown, 0);
        doubled.size := pos;
        r := doubled.size;
        grown[r] := value;
        CopyRange(items.raw, pos, size, grown, doubled.size);
        assert grown[size] == if pos < size then Default else value;
        doubled.size := size + 1;
        assert doubled.Elements() == if pos < size then s + [Default] else s + [value];
        Swap(doubled);
      }
    }

    /** Drops the last element; does nothing on an empty vector. */
    method PopBack()
      requires Valid()
      modifies this
      ensures Valid() && items.raw == old(items.raw) && capacity == old(capacity)
      ensures Elements() == if old(size) == 0 then old(Elements()) else old(Elements())[..old(size) - 1]
    {
      if !IsEmpty() {
        size := size - 1;
      }
    }

    /** Removes the element at `pos` by moving the tail one slot left, and
        returns `pos`, where the next element now sits. */
    method Erase(pos: nat) returns (r: nat)
      requires Valid() && pos < size
      modifies this, items.raw
      ensures Valid() && items.raw == old(items.raw) && capacity == old(capacity)
      ensures r == pos
      ensures Elements() == Erased(old(Elements()), pos)
    {
      ghost var s := Elements();
      CopyWithin(items.raw, pos + 1, size, pos);
      size := size - 1;
      r := pos;
      assert Elements() == Erased(s, pos);
    }

    /** Grows to exactly `newCapacity` when that exceeds the capacity, keeping
        the elements; never shrinks. */
    method Reserve(newCapacity: nat)
      requires Valid()
      modifies this, items, items.raw
      ensures Valid() && (items.raw == old(items.raw) || fresh(items.raw))
      ensures Elements() == old(Elements())
      ensures capacity == if newCapacity > old(capacity) then newCapacity else old(capacity)
      ensures newCapacity <= old(capacity) ==> items.raw == old(items.raw)
    {
      if capacity < newCapacity {
        var reserved := new SimpleVector.Sized(newCapacity);
        CopyRange(items.raw, 0, size, reserved.items.raw, 0);
        reserved.size := size;
        assert reserved.Elements() == Elements();
        Swap(reserved);
      }
    }

    /** Changes the size to `newSize`. Beyond the capacity: a fresh buffer of
        exactly `newSize` slots takes the elements and value-initialised
        elements after them. Within the capacity: the new slots are set to
        value-initialised elements. Otherwise the size just shrinks. */
    method Resize(newSize: nat)
      requires Valid()
      modifies this, items, items.raw
      ensures Valid() && (items.raw == old(items.raw) || fresh(items.raw))
      ensures Elements() == Resized(old(Elements()), newSize)
      ensures capacity == if newSize > old(capacity) then newSize else old(capacity)
      ensures newSize <= old(capacity) ==> items.raw == old(items.raw)
    {
      ghost var s := Elements();
      if newSize > capacity {
        var newItems := new ArrayPtr.Sized(newSize);
        CopyRange(items.raw, 0, size, newItems.raw, 0);
        var emptyItems := new ArrayPtr.Sized(newSize - size);
        CopyRange(emptyItems.raw, 0, newSize - size, newItems.raw, size);
        items.Swap(newItems);
        size, capacity := newSize, newSize;
        assert Elements() == Resized(s, newSize);
      } else if newSize > size && newSize <= capacity {
        var emptyItems := new ArrayPtr.Sized(newSize - size);
        CopyRange(emptyItems.raw, 0, newSize - size, items.raw, size);
        size := newSize;
        assert Elements() == Resized(s, newSize);
      } else {
        size := newSize;
        assert Elements() == Resized(s, newSize);
      }
    }

    /** Empties the vector; capacity and buffer stay. */
    method Clear()
      requires Valid()
      modifies this
      ensures Valid() && items.raw == old(items.raw) && capacity == old(capacity)
      ensures Elements() == []
    {
      size := 0;
    }

    /** `operator[]`, read: the index must be below the size (an assertion
        in the source). */
    method Get(index: nat) returns (x: int)
      requires Valid() && index < size
      ensures x == Elements()[index]
    {
      x := items.raw[index];
    }

    /** `operator[]`, write through the returned reference. */
    method Set(index: nat, x: int)
      requires Valid() && index < size
      modifies items.raw
      ensures Valid() && Elements() == old(Elements())[index := x]
    {
      items.raw[index] := x;
    }

    /** `At`, read: reports `OutOfRange` exactly when the index is not below
        the size, and otherwise gives the element. */
    method At(index: nat) returns (r: Access)
      requires Valid()
      ensures r == OutOfRange <==> index >= size
      ensures r.Element? ==> index < size && r.value == Elements()[index]
    {
      if index >= size {
        r := OutOfRange;
      } else {
        r := Element(items.raw[index]);
      }
    }

    /** `At`, write through the returned reference: `OutOfRange` exactly
        when the index is not below the size, and then nothing changes. */
    method AtSet(index: nat, x: int) returns (r: Access)
      requires Valid()
      modifies items.raw
      ensures Valid()
      ensures r == OutOfRange <==> index >= size
      ensures Elements() == if index >= size then old(Elements()) else old(Elements())[index := x]
    {
      if index >= size {
        r := OutOfRange;
      } else {
        r := Element(x);
        items.raw[index] := x;
      }
    }

    /** Exchanges buffers, sizes and capacities; no element is copied. */
    method Swap(other: SimpleVector)
      requires Valid() && other.Valid()
      requires other == this || other.items != items
      modifies this, items, other, other.items
      ensures Valid() && other.Valid()
      ensures items.raw == old(other.items.raw) && other.items.raw == old(items.raw)
      ensures size == old(other.size) && other.size == old(size)
      ensures capacity == old(other.capacity) && other.capacity == old(capacity)
      ensures Elements() == old(other.Elements()) && other.Elements() == old(Elements())
    {
      items.Swap(other.items);
      var mySize := size;
      size := other.size;
      other.size := mySize;
      var myCapacity := capacity;
      capacity := other.capacity;
      other.capacity := myCapacity;
    }

    /** Copy assignment: rebuilt from a copy of `rhs` only when the contents
        differ; equal contents keep this vector's buffer and capacity. */
    method CopyAssign(rhs: SimpleVector)
      requires Valid() && rhs.Valid()
      requires rhs == this || rhs.items != items
      modifies this, items
      ensures Valid() && (items.raw == old(items.raw) || items.raw == null || fresh(items.raw))
      ensures Elements() == old(rhs.Elements())
      ensures old(Elements()) == old(rhs.Elements()) ==> items.raw == old(items.raw) && capacity == old(capacity)
      ensures old(Elements()) != old(rhs.Elements()) ==> capacity == old(rhs.capacity)
      ensures rhs != this ==> rhs.items.raw == old(rhs.items.raw) && rhs.size == old(rhs.size)
    {
      if NotEqual(this, rhs) {
        var rhsCopy := new SimpleVector.Copy(rhs);
        Swap(rhsCopy);
      }
    }

    /** The defaulted move assignment, member by member: the handle's move
        assignment exchanges the two buffers, while size and capacity are
        copied. `rhs` thus keeps its size and capacity but holds this
        vector's old buffer, so its invariant is not kept. */
    method MoveAssign(rhs: SimpleVector)
      requires Valid() && rhs.Valid()
      requires rhs == this || rhs.items != items
      modifies this, items, rhs.items
      ensures Valid()
      ensures items.raw == old(rhs.items.raw)
      ensures capacity == old(rhs.capacity) && Elements() == old(rhs.Elements())
      ensures rhs.items.raw == old(items.raw)
      ensures rhs.size == old(rhs.size) && rhs.capacity == old(rhs.capacity)
    {
      items.MoveAssign(rhs.items);
      size := rhs.size;
      capacity := rhs.capacity;
    }

    /** Move assignment as the move constructor shows it is meant to behave:
        this vector takes `rhs`'s buffer, size and capacity, and `rhs` is left
        empty (no buffer, size 0, capacity 0); a self-move changes nothing. */
    method MoveAssignEmptying(rhs: SimpleVector)
      requires Valid() && rhs.Valid()
      requires rhs == this || rhs.items != items
      modifies this, items, rhs, rhs.items
      ensures Valid() && rhs.Valid()
      ensures items.raw == old(rhs.items.raw)
      ensures capacity == old(rhs.capacity) && Elements() == old(rhs.Elements())
      ensures rhs != this ==> rhs.items.raw == null && rhs.capacity == 0 && rhs.Elements() == []
    {
      if rhs != this {
        items.MoveAssign(rhs.items);
        size, capacity := rhs.size, rhs.capacity;
        var emptied := new ArrayPtr();
        rhs.items.MoveAssign(emptied);
        rhs.size, rhs.capacity := 0, 0;
      }
    }
  }

  // ---------------------------------------------------------------------
  // Comparison operators

  /** `==`: equal sizes and equal elements in order. */
  predicate Equal(lhs: SimpleVector, rhs: SimpleVector)
    reads lhs, lhs.items, lhs.items.raw, rhs, rhs.items, rhs.items.raw
    requires lhs.Valid() && rhs.Valid()
    ensures Equal(lhs, rhs) <==> lhs.Elements() == rhs.Elements()
  {
    lhs.GetSize() == rhs.GetSize() && EqualRange(lhs.Elements(), rhs.Elements())
  }

  /** `!=`: the negation of `==`. */
  predicate NotEqual(lhs: SimpleVector, rhs: SimpleVector)
    reads lhs, lhs.items, lhs.items.raw, rhs, rhs.items, rhs.items.raw
    requires lhs.Valid() && rhs.Valid()
    ensures NotEqual(lhs, rhs) <==> lhs.Elements() != rhs.Elements()
  {
    !Equal(lhs, rhs)
  }

  /** `<`: lexicographic order on the elements. */
  predicate Less(lhs: SimpleVector, rhs: SimpleVector)
    reads lhs, lhs.items, lhs.items.raw, rhs, rhs.items, rhs.items.raw
    requires lhs.Valid() && rhs.Valid()
    ensures Less(lhs, rhs) <==> LexLess(lhs.Elements(), rhs.Elements())
  {
    LexicographicalCompare(lhs.Elements(), rhs.Elements())
  }

  /** `>=`: not `<`, which by trichotomy is "greater or equal". */
  predicate GreaterOrEqual(lhs: SimpleVector, rhs: SimpleVector)
    reads lhs, lhs.items, lhs.items.raw, rhs, rhs.items, rhs.items.raw
    requires lhs.Valid() && rhs.Valid()
    ensures GreaterOrEqual(lhs, rhs) <==>
      LexLess(rhs.Elements(), lhs.Elements()) || lhs.Elements() == rhs.Elements()
  {
    LexTrichotomy(lhs.Elements(), rhs.Elements());
    !Less(lhs, rhs)
  }

  /** `>`: `<` with the arguments swapped. */
  predicate Greater(lhs: SimpleVector, rhs: SimpleVector)
    reads lhs, lhs.items, lhs.items.raw, rhs, rhs.items, rhs.items.raw
    requires lhs.Valid() && rhs.Valid()
    ensures Greater(lhs, rhs) <==> LexLess(rhs.Elements(), lhs.Elements())
  {
    LexicographicalCompare(rhs.Elements(), lhs.Elements())
  }

  /** `<=`: not `>`, which by trichotomy is "less or equal". */
  predicate LessOrEqual(lhs: SimpleVector, rhs: SimpleVector)
    reads lhs, lhs.items, lhs.items.raw, rhs, rhs.items, rhs.items.raw
    requires lhs.Valid() && rhs.Valid()
    ensures LessOrEqual(lhs, rhs) <==>
      LexLess(lhs.Elements(), rhs.Elements()) || lhs.Elements() == rhs.Elements()
  {
    LexTrichotomy(lhs.Elements(), rhs.Elements());
    !Greater(lhs, rhs)
  }
}
