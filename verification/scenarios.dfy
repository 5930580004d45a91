/**
 * Client code that uses only the contracts of `ArrayPtr` and `SimpleVector`
 * to derive the behaviour of the container on concrete inputs.
 */
module Scenarios {
  import opened Ownership
  import opened Algorithms
  import opened Vector

  /** A second `Release` finds the handle empty and returns `null`. */
  method ReleaseTwice(handle: ArrayPtr) returns (first: array?<int>, second: array?<int>)
    modifies handle
    ensures first == old(handle.raw)
    ensures second == null && handle.raw == null
  {
    first := handle.Release();
    second := handle.Release();
  }

  method HandleTransfers() {
    var p := new ArrayPtr.Sized(3);
    var empty := new ArrayPtr.Sized(0);
    assert empty.raw == null;
    var buffer := p.raw;
    p.MoveAssign(p);
    assert p.raw == buffer;
    var q := new ArrayPtr.Move(p);
    assert q.raw == buffer && p.raw == null;
    p.Swap(q);
    assert p.raw == buffer && q.raw == null;
    var owning := q.IsOwning();
    assert !owning;
  }

  method SizedConstruction(n: nat) {
    var v := new SimpleVector.Sized(n);
    assert v.GetSize() == n && v.GetCapacity() == n;
    assert forall i :: 0 <= i < n ==> v.Elements()[i] == Default;
  }

  method PushBackThenPopBack(v: SimpleVector, x: int)
    requires v.Valid()
    modifies v, v.items, v.items.raw
  {
    ghost var s := v.Elements();
    ghost var c := v.capacity;
    v.PushBack(x);
    v.PopBack();
    assert v.Elements() == s;
    assert v.capacity >= c;
  }

  method CopyIsIndependent() {
    var a := new SimpleVector.FromList([1, 2, 3]);
    var b := new SimpleVector.Copy(a);
    b.Set(0, 7);
    b.PushBack(4);
    assert a.Elements() == [1, 2, 3];
    assert b.Elements() == [7, 2, 3, 4];
  }

  method ClearTwice(v: SimpleVector)
    requires v.Valid()
    modifies v
  {
    v.Clear();
    v.Clear();
    assert v.GetSize() == 0;
  }

  method GrowthFromEmpty() {
    var v := new SimpleVector();
    v.PushBack(10);
    assert v.capacity == 1;
    v.PushBack(20);
    assert v.capacity == 2;
    v.PushBack(30);
    assert v.capacity == 4;
    v.PushBack(40);
    assert v.capacity == 4;
    v.PushBack(50);
    assert v.capacity == 8;
    assert v.Elements() == [10, 20, 30, 40, 50];
  }

  method InsertPositions() {
    var v := new SimpleVector.FromList([1, 2, 3, 4, 5]);
    var r := v.Insert(0, 0);
    assert r == 0 && v.Elements() == [0, 1, 2, 3, 4, 5] && v.capacity == 10;
    var w := new SimpleVector.FromList([1, 2, 3, 4, 5]);
    r := w.Insert(5, 6);
    assert w.Elements() == [1, 2, 3, 4, 5, 6];
    var u := new SimpleVector.FromList([1, 2, 3, 4, 5]);
    r := u.Insert(2, 9);
    assert u.Elements() == [1, 2, 9, 3, 4, 5];
  }

  /** The move overload of `Insert` on a full two-element vector: moving an
      element into the front leaves the old elements followed by one
      value-initialised element, so the value is lost, while the copy
      overload puts it in front. That overload compiles only for class
      element types (with `int` its in-place shift assigns through an
      `int&&`), so `int` stands in here for such a type: `{"a", "b"}` and
      `"c"` give `{"a", "b", ""}`. */
  method InsertMoveLosesValue() returns (moved: SimpleVector, copied: SimpleVector)
    ensures moved.Valid() && moved.Elements() == [1, 2, Default]
    ensures copied.Valid() && copied.Elements() == [5, 1, 2]
  {
    moved := new SimpleVector.FromList([1, 2]);
    var r := moved.InsertMove(0, 5);
    copied := new SimpleVector.FromList([1, 2]);
    r := copied.Insert(0, 5);
  }

  method ErasePositions() {
    var v := new SimpleVector.FromList([1, 2, 3, 4, 5]);
    var r := v.Erase(0);
    assert v.Elements() == [2, 3, 4, 5];
    var w := new SimpleVector.FromList([1, 2, 3, 4, 5]);
    r := w.Erase(4);
    assert w.Elements() == [1, 2, 3, 4];
    var u := new SimpleVector.FromList([1, 2, 3, 4, 5]);
    r := u.Erase(2);
    assert u.Elements() == [1, 2, 4, 5] && u.capacity == 5;
  }

  method Comparisons() {
    var a := new SimpleVector.FromList([1, 2, 3]);
    var b := new SimpleVector.FromList([1, 2, 3]);
    var c := new SimpleVector.FromList([1, 2]);
    var d := new SimpleVector.FromList([1, 3]);
    assert Equal(a, b);
    assert !Equal(a, c);
    assert Less(c, d) by {
      assert Mismatch([1, 2], [1, 3]) == 1;
    }
    assert LessOrEqual(c, a) by {
      LexPrefixLess([1, 2], [3]);
      assert [1, 2] + [3] == [1, 2, 3];
    }
  }

  method CheckedAccess() {
    var v := new SimpleVector.FromList([4, 5]);
    var r := v.At(1);
    assert r == Element(5);
    r := v.At(2);
    assert r == OutOfRange;
  }

  method MoveLeavesSourceEmpty() {
    var a := new SimpleVector.FromList([1, 2]);
    var b := new SimpleVector.Move(a);
    assert a.GetSize() == 0 && a.GetCapacity() == 0;
    assert b.Elements() == [1, 2] && b.capacity == 2;
  }

  /** The defaulted move assignment leaves the moved-from vector claiming two
      elements and capacity 2 while it holds no buffer at all. */
  method MoveAssignBreaksSource() returns (target: SimpleVector, source: SimpleVector)
    ensures source.size == 2 && source.capacity == 2 && source.items.raw == null
    ensures !source.Valid()
  {
    target := new SimpleVector();
    source := new SimpleVector.FromList([1, 2]);
    target.MoveAssign(source);
  }

  /** The corrected move assignment leaves the moved-from vector empty. */
  method MoveAssignEmptiesSource() returns (target: SimpleVector, source: SimpleVector)
    ensures target.Valid() && target.Elements() == [1, 2]
    ensures source.Valid() && source.Elements() == [] && source.capacity == 0
  {
    target := new SimpleVector();
    source := new SimpleVector.FromList([1, 2]);
    target.MoveAssignEmptying(source);
  }

  method CopyAssignKeepsCapacityOfEqualContents() {
    var a := new SimpleVector.Reserved(Reserve(8));
    a.PushBack(1);
    var b := new SimpleVector.FromList([1]);
    a.CopyAssign(b);
    assert a.capacity == 8;
    var c := new SimpleVector.FromList([2, 3]);
    a.CopyAssign(c);
    assert a.capacity == 2 && a.Elements() == [2, 3];
  }

  method ResizeCases() {
    var v := new SimpleVector.FromList([1, 2, 3]);
    v.Resize(5);
    assert v.Elements() == [1, 2, 3, Default, Default] && v.capacity == 5;
    v.Resize(2);
    assert v.Elements() == [1, 2] && v.capacity == 5;
    v.Resize(4);
    assert v.Elements() == [1, 2, Default, Default] && v.capacity == 5;
  }
}
