/** Ascending sort of integer sequences: a functional reference definition,
    its correctness, uniqueness of sorted permutations, and the in-place
    array sort the distance pipeline performs. */
module Sorting {

  predicate Sorted(s: seq<int>) {
    forall i, j :: 0 <= i < j < |s| ==> s[i] <= s[j]
  }

  /** Inserts x before the first element not smaller than it. */
  function Insert(x: int, s: seq<int>): (r: seq<int>)
    ensures |r| == |s| + 1
  {
    if |s| == 0 then [x]
    else if x <= s[0] then [x] + s
    else [s[0]] + Insert(x, s[1..])
  }

  /** Reference definition of ascending order. */
  function InsertionSort(s: seq<int>): (r: seq<int>)
    ensures |r| == |s|
  {
    if |s| == 0 then [] else Insert(s[0], InsertionSort(s[1..]))
  }

  lemma {:induction false} InsertPermutes(x: int, s: seq<int>)
    ensures multiset(Insert(x, s)) == multiset(s) + multiset{x}
  {
    if |s| > 0 && x > s[0] {
      InsertPermutes(x, s[1..]);
      assert s == [s[0]] + s[1..];
    }
  }

  lemma {:induction false} InsertSorted(x: int, s: seq<int>)
    requires Sorted(s)
    ensures Sorted(Insert(x, s))
  {
    if |s| > 0 && x > s[0] {
      var t := s[1..];
      InsertSorted(x, t);
      InsertPermutes(x, t);
      var r := Insert(x, t);
      assert Insert(x, s) == [s[0]] + r;
      forall i | 0 <= i < |r| ensures s[0] <= r[i] {
        assert r[i] in multiset(r);
        assert r[i] in multiset(t) || r[i] == x;
        if r[i] in multiset(t) {
          var k :| 0 <= k < |t| && t[k] == r[i];
          assert s[k + 1] == t[k];
        }
      }
    }
  }

  lemma {:induction false} InsertionSortCorrect(s: seq<int>)
    ensures Sorted(InsertionSort(s))
    ensures multiset(InsertionSort(s)) == multiset(s)
  {
    if |s| > 0 {
      InsertionSortCorrect(s[1..]);
      InsertSorted(s[0], InsertionSort(s[1..]));
      InsertPermutes(s[0], InsertionSort(s[1..]));
      assert s == [s[0]] + s[1..];
    }
  }

  /** The first element of a sorted sequence is not larger than any element. */
  lemma SortedHeadIsMin(s: seq<int>, x: int)
    requires Sorted(s) && x in multiset(s)
    ensures |s| > 0 && s[0] <= x
  {
    var i :| 0 <= i < |s| && s[i] == x;
  }

  /** A sorted permutation is unique: two sorted sequences with the same
      elements are equal. */
  lemma {:induction false} SortedUnique(a: seq<int>, b: seq<int>)
    requires Sorted(a) && Sorted(b)
    requires multiset(a) == multiset(b)
    ensures a == b
  {
    if |a| == 0 {
      assert |multiset(b)| == 0;
    } else {
      assert a[0] in multiset(b);
      SortedHeadIsMin(b, a[0]);
      assert b[0] in multiset(a);
      SortedHeadIsMin(a, b[0]);
      assert a[0] == b[0];
      assert a == [a[0]] + a[1..];
      assert b == [b[0]] + b[1..];
      assert multiset(a) == multiset{a[0]} + multiset(a[1..]);
      assert multiset(b) == multiset{b[0]} + multiset(b[1..]);
      assert multiset(a[1..]) == multiset(a) - multiset{a[0]};
      assert multiset(b[1..]) == multiset(b) - multiset{b[0]};
      SortedUnique(a[1..], b[1..]);
    }
  }

  /** Exchanges two neighbouring elements. */
  method SwapDown(a: array<int>, j: int)
    requires 0 < j < a.Length
    modifies a
    ensures a[..] == old(a[..])[j - 1 := old(a[j])][j := old(a[j - 1])]
    ensures multiset(a[..]) == multiset(old(a[..]))
  {
    a[j - 1], a[j] := a[j], a[j - 1];
  }

  /** `arr.sort()`: sorts the array ascending in place. */
  method SortInPlace(a: array<int>)
    modifies a
    ensures Sorted(a[..])
    ensures multiset(a[..]) == multiset(old(a[..]))
    ensures a[..] == InsertionSort(old(a[..]))
  {
    var i := 0;
    while i < a.Length
      invariant 0 <= i <= a.Length
      invariant forall p, q :: 0 <= p < q < i ==> a[p] <= a[q]
      invariant multiset(a[..]) == multiset(old(a[..]))
    {
      var j := i;
      while j > 0 && a[j - 1] > a[j]
        invariant 0 <= j <= i
        invariant forall p, q :: 0 <= p < q <= i && p != j && q != j ==> a[p] <= a[q]
        invariant forall q :: j < q <= i ==> a[j] <= a[q]
        invariant multiset(a[..]) == multiset(old(a[..]))
      {
        SwapDown(a, j);
        j := j - 1;
      }
      i := i + 1;
    }
    InsertionSortCorrect(old(a[..]));
    SortedUnique(a[..], InsertionSort(old(a[..])));
  }
}
