/**
 * Python's `sorted` on a list of integers. The model sorts by insertion; what
 * the rest of the model relies on is only that the result is sorted and a
 * permutation of the input, and `SortedUnique` shows that these two facts fix
 * the result, so any correct sorting algorithm gives the same sequence.
 */
module Sorting {

  predicate Sorted(s: seq<int>)
  {
    forall i, j :: 0 <= i < j < |s| ==> s[i] <= s[j]
  }

  /** Inserts `x` into the sorted sequence `s`. */
  function Insert(x: int, s: seq<int>): (r: seq<int>)
    requires Sorted(s)
    ensures Sorted(r)
    ensures multiset(r) == multiset(s) + multiset{x}
  {
    if s == [] then [x]
    else if x <= s[0] then [x] + s
    else
      assert s == [s[0]] + s[1..];
      var rest := Insert(x, s[1..]);
      SortedHeadBound(s);
      PrependSorted(s[0], rest, s[1..], x);
      [s[0]] + rest
  }

  /** The head of a sorted sequence bounds every later element from below. */
  lemma {:induction false} SortedHeadBound(s: seq<int>)
    requires Sorted(s) && s != []
    ensures forall v :: v in s[1..] ==> s[0] <= v
  {
    forall v | v in s[1..]
      ensures s[0] <= v
    {
      var k :| 0 <= k < |s[1..]| && s[1..][k] == v;
      assert s[k + 1] == v && 0 < k + 1;
      assert s[0] <= s[k + 1];
    }
  }

  /** Prepending a lower bound of all the elements keeps a sequence sorted. */
  lemma {:induction false} PrependSorted(lo: int, rest: seq<int>, t: seq<int>, x: int)
    requires Sorted(rest) && multiset(rest) == multiset(t) + multiset{x}
    requires lo <= x && forall v :: v in t ==> lo <= v
    ensures Sorted([lo] + rest)
  {
    forall k | 0 <= k < |rest|
      ensures lo <= rest[k]
    {
      assert rest[k] in multiset(t) + multiset{x};
      if rest[k] != x {
        assert rest[k] in multiset(t);
        assert rest[k] in t;
      }
    }
  }

  /** `sorted(s)`. */
  function Sort(s: seq<int>): (r: seq<int>)
    ensures Sorted(r)
    ensures multiset(r) == multiset(s)
    ensures |r| == |s|
  {
    if s == [] then []
    else
      assert s == [s[0]] + s[1..];
      var r := Insert(s[0], Sort(s[1..]));
      assert |r| == |multiset(r)|;
      r
  }

  /** Two sorted sequences with the same elements start with the same, smallest, element. */
  lemma {:induction false} SortedSameHead(a: seq<int>, b: seq<int>)
    requires Sorted(a) && Sorted(b) && a != [] && b != []
    requires multiset(a) == multiset(b)
    ensures a[0] == b[0]
  {
    assert a[0] in multiset(b) && b[0] in multiset(a);
    var j :| 0 <= j < |b| && b[j] == a[0];
    var i :| 0 <= i < |a| && a[i] == b[0];
    assert a[0] <= a[i] && b[0] <= b[j];
  }

  /** The tail of a non-empty sequence holds its elements but the first. */
  lemma {:induction false} MultisetTail(a: seq<int>)
    requires a != []
    ensures multiset(a[1..]) == multiset(a) - multiset{a[0]}
  {
    assert a == [a[0]] + a[1..];
  }

  /** Two sorted sequences with the same elements are equal. */
  lemma {:induction false} SortedUnique(a: seq<int>, b: seq<int>)
    requires Sorted(a) && Sorted(b)
    requires multiset(a) == multiset(b)
    ensures a == b
  {
    assert |a| == |multiset(a)| == |multiset(b)| == |b|;
    if a != [] {
      SortedSameHead(a, b);
      MultisetTail(a);
      MultisetTail(b);
      SortedUnique(a[1..], b[1..]);
      assert a == [a[0]] + a[1..] && b == [b[0]] + b[1..];
    }
  }

  /** Sorting depends only on the elements, not on their order. */
  lemma {:induction false} SortPermutation(a: seq<int>, b: seq<int>)
    requires multiset(a) == multiset(b)
    ensures Sort(a) == Sort(b)
  {
    SortedUnique(Sort(a), Sort(b));
  }
}
