/** Python's `dict` keyed by strings: a finite map that remembers the order in
    which keys were first inserted. It is represented by its items in that
    order; a well-formed dictionary has no key twice. */
module Dict {
  import opened Errors

  type Items<V> = seq<(string, V)>

  /** The keys in insertion order, as `list(d.keys())`. */
  function Keys<V>(d: Items<V>): (ks: seq<string>)
    ensures |ks| == |d|
    ensures forall i :: 0 <= i < |d| ==> ks[i] == d[i].0
  {
    seq(|d|, i requires 0 <= i < |d| => d[i].0)
  }

  predicate DistinctKeys<V>(d: Items<V>) {
    forall i, j :: 0 <= i < j < |d| ==> d[i].0 != d[j].0
  }

  /** Position of a present key. */
  function IndexOf<V>(d: Items<V>, k: string): (r: nat)
    requires k in Keys(d)
    ensures r < |d| && d[r].0 == k
    ensures forall j :: 0 <= j < r ==> d[j].0 != k
  {
    if d[0].0 == k then 0
    else
      assert k in Keys(d[1..]) by { var i :| 0 <= i < |d| && Keys(d)[i] == k; assert Keys(d[1..])[i - 1] == k; }
      1 + IndexOf(d[1..], k)
  }

  /** `d[k]`, with `None` standing for the KeyError of a missing key. */
  function Get<V>(d: Items<V>, k: string): (r: Option<V>)
    ensures r.Some? <==> k in Keys(d)
    ensures r.Some? ==> (k, r.value) in d
  {
    if |d| == 0 then None
    else if d[0].0 == k then Some(d[0].1)
    else
      var r := Get(d[1..], k);
      assert k in Keys(d) ==> k in Keys(d[1..]) by {
        if k in Keys(d) { var i :| 0 <= i < |d| && Keys(d)[i] == k; assert Keys(d[1..])[i - 1] == k; }
      }
      assert k in Keys(d[1..]) ==> k in Keys(d) by {
        if k in Keys(d[1..]) { var i :| 0 <= i < |d| - 1 && Keys(d[1..])[i] == k; assert Keys(d)[i + 1] == k; }
      }
      r
  }

  /** `d[k] = v`: an existing key keeps its position and takes the new value;
      a new key is appended. */
  function Put<V>(d: Items<V>, k: string, v: V): Items<V> {
    if |d| == 0 then [(k, v)]
    else if d[0].0 == k then [(k, v)] + d[1..]
    else [d[0]] + Put(d[1..], k, v)
  }

  /** In a well-formed dictionary the stored pairs are exactly what lookup answers. */
  lemma {:induction false} GetIffItem<V>(d: Items<V>, k: string, v: V)
    requires DistinctKeys(d)
    ensures Get(d, k) == Some(v) <==> (k, v) in d
  {
    if |d| > 0 && d[0].0 != k {
      assert (k, v) in d <==> (k, v) in d[1..];
      GetIffItem(d[1..], k, v);
    } else if |d| > 0 && (k, v) in d {
      var i :| 0 <= i < |d| && d[i] == (k, v);
      assert i == 0;
    }
  }

  /** Writing a new key appends it; overwriting an existing key replaces that
      item in place, so the key order is unchanged. */
  lemma {:induction false} PutShape<V>(d: Items<V>, k: string, v: V)
    ensures k !in Keys(d) ==> Put(d, k, v) == d + [(k, v)]
    ensures k in Keys(d) ==> Put(d, k, v) == d[IndexOf(d, k) := (k, v)]
  {
    if |d| > 0 {
      if d[0].0 != k {
        assert k in Keys(d) <==> k in Keys(d[1..]) by {
          if k in Keys(d) { var i :| 0 <= i < |d| && Keys(d)[i] == k; assert Keys(d[1..])[i - 1] == k; }
          if k in Keys(d[1..]) { var i :| 0 <= i < |d| - 1 && Keys(d[1..])[i] == k; assert Keys(d)[i + 1] == k; }
        }
        PutShape(d[1..], k, v);
      }
    }
  }

  /** `list(d.keys())` after `d[k] = v`: unchanged if k was present, otherwise k comes last. */
  lemma KeysPut<V>(d: Items<V>, k: string, v: V)
    ensures Keys(Put(d, k, v)) == if k in Keys(d) then Keys(d) else Keys(d) + [k]
  {
    PutShape(d, k, v);
  }

  /** Writing keeps keys distinct. */
  lemma PutDistinct<V>(d: Items<V>, k: string, v: V)
    requires DistinctKeys(d)
    ensures DistinctKeys(Put(d, k, v))
  {
    PutShape(d, k, v);
    if k !in Keys(d) {
      assert forall i :: 0 <= i < |d| ==> d[i].0 == Keys(d)[i];
    }
  }

  /** After `d[k] = v`, `d[k]` is v. */
  lemma {:induction false} GetPutSame<V>(d: Items<V>, k: string, v: V)
    ensures Get(Put(d, k, v), k) == Some(v)
  {
    if |d| > 0 && d[0].0 != k {
      GetPutSame(d[1..], k, v);
    }
  }

  /** `d[k] = v` leaves every other key's lookup unchanged. */
  lemma {:induction false} GetPutOther<V>(d: Items<V>, k: string, v: V, k': string)
    requires k' != k
    ensures Get(Put(d, k, v), k') == Get(d, k')
  {
    if |d| > 0 && d[0].0 != k {
      GetPutOther(d[1..], k, v, k');
    }
  }

  /** Last write wins: writing a key twice is writing it once with the second value. */
  lemma {:induction false} PutPut<V>(d: Items<V>, k: string, v: V, w: V)
    ensures Put(Put(d, k, v), k, w) == Put(d, k, w)
  {
    if |d| > 0 && d[0].0 != k {
      PutPut(d[1..], k, v, w);
    }
  }
}
