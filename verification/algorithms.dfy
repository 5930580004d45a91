/**
 * The standard range algorithms that the comparison operators of the vector
 * are built from (`std::equal`, `std::lexicographical_compare`), written as
 * recursive functions over the logical element sequences, together with an
 * independent characterisation of lexicographic order through the length of
 * the common prefix (`std::mismatch`) and the order laws proved from it.
 */
module Algorithms {

  /** `std::equal(a.begin(), a.end(), b.begin())`: the first `|a|` elements of
      `b` agree with `a`, compared from the front. */
  function EqualRange(a: seq<int>, b: seq<int>): (r: bool)
    requires |a| <= |b|
    ensures r <==> a == b[..|a|]
  {
    if a == [] then true
    else a[0] == b[0] && EqualRange(a[1..], b[1..])
  }

  /** Length of the longest common prefix of `a` and `b`: the index at which
      `std::mismatch` stops. */
  function Mismatch(a: seq<int>, b: seq<int>): (k: nat)
    ensures k <= |a| && k <= |b|
    ensures a[..k] == b[..k]
    ensures k < |a| && k < |b| ==> a[k] != b[k]
  {
    if a == [] || b == [] || a[0] != b[0] then 0
    else 1 + Mismatch(a[1..], b[1..])
  }

  /** Lexicographic "less than", defined independently of any loop: `a` is a
      proper prefix of `b`, or at the first position where they differ the
      element of `a` is smaller. */
  ghost predicate LexLess(a: seq<int>, b: seq<int>)
  {
    var k := Mismatch(a, b);
    k < |b| && (k == |a| || a[k] < b[k])
  }

  /** `std::lexicographical_compare(a.begin(), a.end(), b.begin(), b.end())`,
      following its loop: `b` exhausted first gives false, then `a` exhausted
      gives true, then the front elements decide, else compare the rests. */
  function LexicographicalCompare(a: seq<int>, b: seq<int>): (r: bool)
    ensures r <==> LexLess(a, b)
  {
    if b == [] then false
    else if a == [] then true
    else if a[0] < b[0] then true
    else if b[0] < a[0] then false
    else LexicographicalCompare(a[1..], b[1..])
  }

  /** Both sequences lose their common first element: the order between them
      is unchanged. */
  lemma {:induction false} LexLessTail(a: seq<int>, b: seq<int>)
    requires a != [] && b != [] && a[0] == b[0]
    ensures LexLess(a, b) <==> LexLess(a[1..], b[1..])
  {
    assert Mismatch(a, b) == 1 + Mismatch(a[1..], b[1..]);
  }

  /** No sequence is less than itself. */
  lemma {:induction false} LexIrreflexive(a: seq<int>)
    ensures !LexLess(a, a)
  {
    assert Mismatch(a, a) == |a| by { MismatchSelf(a); }
  }

  lemma {:induction false} MismatchSelf(a: seq<int>)
    ensures Mismatch(a, a) == |a|
  {
    if a != [] {
      MismatchSelf(a[1..]);
    }
  }

  /** Trichotomy: exactly one of `a < b`, `a == b`, `b < a` holds. */
  lemma {:induction false} LexTrichotomy(a: seq<int>, b: seq<int>)
    ensures LexLess(a, b) || a == b || LexLess(b, a)
    ensures !(LexLess(a, b) && a == b)
    ensures !(LexLess(a, b) && LexLess(b, a))
    ensures !(a == b && LexLess(b, a))
  {
    if a == [] || b == [] {
      LexIrreflexive(a);
    } else if a[0] != b[0] {
    } else {
      LexTrichotomy(a[1..], b[1..]);
      LexLessTail(a, b);
      LexLessTail(b, a);
      if a[1..] == b[1..] {
        assert a == [a[0]] + a[1..] && b == [b[0]] + b[1..];
      }
    }
  }

  /** The order is transitive. */
  lemma {:induction false} LexTransitive(a: seq<int>, b: seq<int>, c: seq<int>)
    requires LexLess(a, b) && LexLess(b, c)
    ensures LexLess(a, c)
  {
    assert b != [] && c != [];
    if a != [] && a[0] == b[0] && b[0] == c[0] {
      LexLessTail(a, b);
      LexLessTail(b, c);
      LexLessTail(a, c);
      LexTransitive(a[1..], b[1..], c[1..]);
    }
  }

  /** A proper prefix is smaller than the sequence it starts. */
  lemma {:induction false} LexPrefixLess(a: seq<int>, tail: seq<int>)
    requires tail != []
    ensures LexLess(a, a + tail)
  {
    if a != [] {
      assert (a + tail)[1..] == a[1..] + tail;
      LexLessTail(a, a + tail);
      LexPrefixLess(a[1..], tail);
    }
  }
}
