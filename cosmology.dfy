/** A cosmology: a seed, the luminaries generated from it and a list of
    numbers. The random draws the generator makes are the constructor's
    inputs, in the order they are drawn: the body count n, n distance
    samples (already rounded, in hundredths), and n + 1 RGB triples. */
module Cosmologies {
  import opened Errors
  import opened Text
  import opened Sorting
  import opened Elements
  import Dict

  /** Visibility threshold: 9.5 in hundredths. */
  const Threshold: int := 950

  function Abs(x: int): int {
    if x < 0 then -x else x
  }

  /** `absolute(append(samples, [0]))`: every entry made non-negative, with the
      central body's distance 0 added last. */
  function Anchored(samples: seq<int>): (r: seq<int>)
    ensures |r| == |samples| + 1
  {
    var s := samples + [0];
    seq(|s|, i requires 0 <= i < |s| => Abs(s[i]))
  }

  /** The distance list after `dist.sort()`. */
  function SortedDistances(samples: seq<int>): seq<int> {
    InsertionSort(Anchored(samples))
  }

  /** `dist <= 9.5`, element by element. */
  function Mask(dist: seq<int>): (vis: seq<bool>)
    ensures |vis| == |dist|
  {
    seq(|dist|, i requires 0 <= i < |dist| => dist[i] <= Threshold)
  }

  /** One luminary's keyword arguments per index. */
  function Build(dist: seq<int>, vis: seq<bool>, rgbs: seq<Rgb>): (ls: seq<Dict.Items<Value>>)
    requires |vis| == |dist| && |rgbs| == |dist|
    ensures |ls| == |dist|
  {
    seq(|dist|, i requires 0 <= i < |dist| => LuminaryItems(dist[i], vis[i], rgbs[i]))
  }

  /** The luminaries `__generate_luminaries` builds from its draws. */
  function Generate(samples: seq<int>, rgbs: seq<Rgb>): (ls: seq<Dict.Items<Value>>)
    requires |rgbs| == |samples| + 1
    ensures |ls| == |samples| + 1
  {
    var dist := SortedDistances(samples);
    Build(dist, Mask(dist), rgbs)
  }

  /** Whether `l["visible"]` holds. */
  predicate IsVisible(l: Dict.Items<Value>) {
    Dict.Get(l, "visible") == Some(Bool(true))
  }

  /** `len(list(filter(lambda l: l["visible"], ls)))`. */
  function VisibleCount(ls: seq<Dict.Items<Value>>): nat {
    if |ls| == 0 then 0 else (if IsVisible(ls[0]) then 1 else 0) + VisibleCount(ls[1..])
  }

  /** The number of true entries of a mask. */
  function CountTrue(m: seq<bool>): (c: nat)
    ensures c <= |m|
    ensures |m| > 0 && m[0] ==> c >= 1
  {
    if |m| == 0 then 0 else (if m[0] then 1 else 0) + CountTrue(m[1..])
  }

  /** The anchored samples: the absolute values of the samples, then a 0. */
  lemma AnchoredItems(samples: seq<int>)
    ensures Anchored(samples)[|samples|] == 0
    ensures forall i :: 0 <= i < |samples| ==> Anchored(samples)[i] == Abs(samples[i])
    ensures forall i :: 0 <= i < |samples| + 1 ==> Anchored(samples)[i] >= 0
  {
  }

  /** The distance list is the anchored samples in ascending order: sorted, a
      permutation of them, non-negative, and it starts with the anchor 0. */
  lemma SortedDistancesSpec(samples: seq<int>)
    ensures Sorted(SortedDistances(samples))
    ensures multiset(SortedDistances(samples)) == multiset(Anchored(samples))
    ensures |SortedDistances(samples)| == |samples| + 1
    ensures forall i :: 0 <= i < |SortedDistances(samples)| ==> SortedDistances(samples)[i] >= 0
    ensures SortedDistances(samples)[0] == 0
  {
    var a := Anchored(samples);
    var d := SortedDistances(samples);
    InsertionSortCorrect(a);
    assert |multiset(d)| == |multiset(a)|;
    forall i | 0 <= i < |d| ensures d[i] >= 0 {
      assert d[i] in multiset(a);
    }
    assert a[|samples|] == 0;
    assert 0 in multiset(d);
    SortedHeadIsMin(d, 0);
  }

  /** With n drawn from [1, 13) there are n + 1 luminaries: between 2 and 13. */
  lemma LuminaryCount(samples: seq<int>, rgbs: seq<Rgb>)
    requires 1 <= |samples| < 13 && |rgbs| == |samples| + 1
    ensures |Generate(samples, rgbs)| == |samples| + 1
    ensures 2 <= |Generate(samples, rgbs)| <= 13
  {
  }

  /** Luminary i holds exactly the keys distance, visible and rgb: the i-th
      sorted distance, whether that distance is at most 9.5, and the i-th
      drawn triple, each of whose channels lies in [0, 255]. */
  lemma LuminaryAttributes(samples: seq<int>, rgbs: seq<Rgb>, i: int)
    requires |rgbs| == |samples| + 1
    requires forall j :: 0 <= j < |rgbs| ==> InByteRange(rgbs[j])
    requires 0 <= i < |samples| + 1
    ensures |Generate(samples, rgbs)| == |samples| + 1
    ensures var l := Generate(samples, rgbs)[i];
      && Dict.Keys(l) == ["distance", "visible", "rgb"]
      && Dict.Get(l, "distance") == Some(Hundredths(SortedDistances(samples)[i]))
      && Dict.Get(l, "visible") == Some(Bool(SortedDistances(samples)[i] <= Threshold))
      && Dict.Get(l, "rgb") == Some(Channels(rgbs[i]))
      && InByteRange(rgbs[i])
  {
    SortedDistancesSpec(samples);
    var d := SortedDistances(samples);
    LuminaryLookup(d[i], Mask(d)[i], rgbs[i]);
  }

  /** Counting visible luminaries counts the true entries of the visibility mask. */
  lemma {:induction false} VisibleCountIsMaskCount(dist: seq<int>, vis: seq<bool>, rgbs: seq<Rgb>)
    requires |vis| == |dist| && |rgbs| == |dist|
    ensures VisibleCount(Build(dist, vis, rgbs)) == CountTrue(vis)
  {
    if |dist| > 0 {
      var ls := Build(dist, vis, rgbs);
      assert ls[1..] == Build(dist[1..], vis[1..], rgbs[1..]);
      LuminaryLookup(dist[0], vis[0], rgbs[0]);
      assert IsVisible(ls[0]) == vis[0];
      VisibleCountIsMaskCount(dist[1..], vis[1..], rgbs[1..]);
    }
  }

  /** The initial number is at least 1 (the anchor at distance 0 is visible)
      and at most the number of luminaries. */
  lemma VisibleCountBounds(samples: seq<int>, rgbs: seq<Rgb>)
    requires |rgbs| == |samples| + 1
    ensures 1 <= VisibleCount(Generate(samples, rgbs)) <= |Generate(samples, rgbs)|
  {
    var d := SortedDistances(samples);
    SortedDistancesSpec(samples);
    VisibleCountIsMaskCount(d, Mask(d), rgbs);
  }

  /** The collections `count` can measure. */
  datatype Collection = LuminaryList | NumberList

  /** The attribute `getattr(self, name.lower())` finds, if it is a collection. */
  function ParseCollection(name: string): Option<Collection> {
    var l := Lower(name);
    if l == "luminary" then Some(LuminaryList)
    else if l == "number" then Some(NumberList)
    else None
  }

  /** `count` ignores case. */
  lemma CollectionCaseInsensitive(name: string)
    ensures ParseCollection(Lower(name)) == ParseCollection(name)
  {
    LowerIdempotent(name);
  }

  class Cosmology {
    /** `__seed`, exposed read-only by the `seed` property. */
    const seed: nat
    var luminary: seq<Element>
    var number: seq<int>

    constructor (seed: nat, n: int, samples: seq<int>, rgbs: seq<Rgb>)
      requires 1 <= n < 13
      requires |samples| == n && |rgbs| == n + 1
      requires forall i :: 0 <= i < |rgbs| ==> InByteRange(rgbs[i])
      ensures this.seed == seed
      ensures |luminary| == n + 1
      ensures forall i :: 0 <= i < |luminary| ==>
        fresh(luminary[i]) && luminary[i].Valid() && luminary[i].className == "Luminary"
        && luminary[i].association == Generate(samples, rgbs)[i]
      ensures forall i, j :: 0 <= i < j < |luminary| ==> luminary[i] != luminary[j]
      ensures number == [VisibleCount(Generate(samples, rgbs))]
    {
      this.seed := seed;
      new;
      var anchored := Anchored(samples);
      var dist := new int[|anchored|](i requires 0 <= i < |anchored| => anchored[i]);
      assert dist[..] == anchored;
      SortInPlace(dist);
      var d := dist[..];
      assert d == SortedDistances(samples);
      var vis := Mask(d);
      var items := Build(d, vis, rgbs);
      assert items == Generate(samples, rgbs);
      var ls: seq<Element> := [];
      var i := 0;
      while i < n + 1
        invariant 0 <= i <= n + 1 && |ls| == i
        invariant forall j :: 0 <= j < i ==> fresh(ls[j])
        invariant forall j, k :: 0 <= j < k < i ==> ls[j] != ls[k]
        invariant forall j :: 0 <= j < i ==>
          ls[j].Valid() && ls[j].className == "Luminary" && ls[j].association == items[j]
      {
        var l := new Element.Luminary(d[i], vis[i], rgbs[i]);
        ls := ls + [l];
        i := i + 1;
      }
      luminary := ls;
      number := [VisibleCount(items)];
    }

    /** `count(name)`: the length of the named collection, whatever the case
        of the name; AttributeError for any other name. */
    function Count(name: string): (r: Result<nat>)
      reads this
      ensures Lower(name) == "luminary" ==> r == Ok(|luminary|)
      ensures Lower(name) == "number" ==> r == Ok(|number|)
      ensures r.Err? <==> Lower(name) != "luminary" && Lower(name) != "number"
      ensures r.Err? ==> r.error == AttributeError(Lower(name))
    {
      match ParseCollection(name)
      case Some(LuminaryList) => Ok(|luminary|)
      case Some(NumberList) => Ok(|number|)
      case None => Err(AttributeError(Lower(name)))
    }

    /** `repr(c)`: `Cosmology(luminary=<count>, number=<list>)`. The luminary
        count can be read back from it. */
    function Repr(): (s: string)
      reads this
      ensures var p := "Cosmology(luminary="; var k := |ShowNat(|luminary|)|;
        && |s| > |p| + k && s[..|p|] == p
        && s[|p|..|p| + k] == ShowNat(|luminary|) && ParseNat(s[|p|..|p| + k]) == |luminary|
        && s[|p| + k..] == ", number=" + ShowIntList(number) + ")"
    {
      var p := "Cosmology(luminary=";
      var c := ShowNat(|luminary|);
      var tail := ", number=" + ShowIntList(number) + ")";
      ConcatParts(p, c, tail);
      ParseShowNat(|luminary|);
      var s := p + c + tail;
      s
    }
  }
}
