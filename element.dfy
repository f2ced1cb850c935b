/** The attribute bag every member of a cosmology is built on, and its
    specialisation for luminaries. */
module Elements {
  import opened Errors
  import opened Text
  import Dict

  /** An RGB triple as drawn for a luminary. */
  datatype Rgb = Rgb(red: int, green: int, blue: int)

  predicate InByteRange(c: Rgb) {
    0 <= c.red <= 255 && 0 <= c.green <= 255 && 0 <= c.blue <= 255
  }

  /** The values stored in a bag. A distance is a float rounded to two
      decimals, so it is kept as a whole number of hundredths. */
  datatype Value =
    | Str(s: string)
    | Int(i: int)
    | Bool(b: bool)
    | Hundredths(h: int)
    | Channels(rgb: Rgb)

  /** One `name=value` entry of the display form: string values are quoted
      with single quotes, every other value is rendered by `show`. */
  function Entry(k: string, v: Value, show: Value -> string): string {
    if v.Str? then k + "='" + v.s + "'" else k + "=" + show(v)
  }

  /** The entries of the display form, in insertion order. */
  function Entries(d: Dict.Items<Value>, show: Value -> string): (es: seq<string>)
    ensures |es| == |d|
  {
    seq(|d|, i requires 0 <= i < |d| => Entry(d[i].0, d[i].1, show))
  }

  /** `ClassName(k1=v1, k2=v2, ...)`. */
  function Render(className: string, d: Dict.Items<Value>, show: Value -> string): (s: string)
    ensures |s| == |className| + 2 + |Join(", ", Entries(d, show))|
    ensures s[..|className| + 1] == className + "(" && s[|s| - 1] == ')'
    ensures |d| == 0 ==> s == className + "()"
    ensures |d| == 1 ==> s == className + "(" + Entry(d[0].0, d[0].1, show) + ")"
  {
    var s := className + "(" + Join(", ", Entries(d, show)) + ")";
    assert s[..|className| + 1] == className + "(";
    s
  }

  /** Overwriting a key re-renders its entry where it stood; a new key's entry comes last. */
  lemma EntriesPut(d: Dict.Items<Value>, k: string, v: Value, show: Value -> string)
    ensures k in Dict.Keys(d) ==>
      Entries(Dict.Put(d, k, v), show) == Entries(d, show)[Dict.IndexOf(d, k) := Entry(k, v, show)]
    ensures k !in Dict.Keys(d) ==>
      Entries(Dict.Put(d, k, v), show) == Entries(d, show) + [Entry(k, v, show)]
  {
    Dict.PutShape(d, k, v);
  }

  /** The display form after writing a new key: the old entries, then the new one. */
  lemma RenderPutNew(className: string, d: Dict.Items<Value>, k: string, v: Value, show: Value -> string)
    requires k !in Dict.Keys(d)
    ensures Render(className, Dict.Put(d, k, v), show) ==
      className + "(" + (if |d| == 0 then "" else Join(", ", Entries(d, show)) + ", ") + Entry(k, v, show) + ")"
  {
    EntriesPut(d, k, v, show);
    JoinAppend(", ", Entries(d, show), Entry(k, v, show));
  }

  /** The keyword arguments a luminary is built from, in the order they are passed. */
  function LuminaryItems(distance: int, visible: bool, rgb: Rgb): Dict.Items<Value> {
    [("distance", Hundredths(distance)), ("visible", Bool(visible)), ("rgb", Channels(rgb))]
  }

  /** A luminary answers its three keys with the values it was built from. */
  lemma LuminaryLookup(distance: int, visible: bool, rgb: Rgb)
    ensures Dict.Keys(LuminaryItems(distance, visible, rgb)) == ["distance", "visible", "rgb"]
    ensures Dict.DistinctKeys(LuminaryItems(distance, visible, rgb))
    ensures Dict.Get(LuminaryItems(distance, visible, rgb), "distance") == Some(Hundredths(distance))
    ensures Dict.Get(LuminaryItems(distance, visible, rgb), "visible") == Some(Bool(visible))
    ensures Dict.Get(LuminaryItems(distance, visible, rgb), "rgb") == Some(Channels(rgb))
  {
    var l := LuminaryItems(distance, visible, rgb);
    assert "distance" != "visible" && "distance" != "rgb" && "visible" != "rgb";
    assert l[1..] == [("visible", Bool(visible)), ("rgb", Channels(rgb))];
    assert l[2..] == [("rgb", Channels(rgb))];
  }

  /** An attribute bag whose contents are given as keyword arguments at
      construction and read and written by key afterwards. */
  class Element {
    /** `__class__.__name__`, shown by the display form. */
    const className: string
    /** The `__association` dictionary. */
    var association: Dict.Items<Value>

    ghost predicate Valid()
      reads this
    {
      Dict.DistinctKeys(association)
    }

    /** `Element(**associations)`: keyword names are distinct by construction of a call. */
    constructor (associations: Dict.Items<Value>)
      requires Dict.DistinctKeys(associations)
      ensures Valid()
      ensures className == "Element" && association == associations
    {
      className := "Element";
      association := associations;
    }

    /** `Luminary(distance=..., visible=..., rgb=...)`: a bag with exactly these three keys. */
    constructor Luminary(distance: int, visible: bool, rgb: Rgb)
      ensures Valid()
      ensures className == "Luminary" && association == LuminaryItems(distance, visible, rgb)
    {
      LuminaryLookup(distance, visible, rgb);
      className := "Luminary";
      association := LuminaryItems(distance, visible, rgb);
    }

    /** `e[key]`: the stored value, or KeyError naming the key. */
    function Get(key: string): (r: Result<Value>)
      reads this
      requires Valid()
      ensures r.Ok? <==> key in Dict.Keys(association)
      ensures r.Err? ==> r.error == KeyError(key)
      ensures forall v :: r == Ok(v) <==> (key, v) in association
    {
      match Dict.Get(association, key)
      case Some(v) =>
        assert forall w :: (key, w) in association ==> w == v by {
          forall w | (key, w) in association ensures w == v { Dict.GetIffItem(association, key, w); }
        }
        Ok(v)
      case None => Err(KeyError(key))
    }

    /** `e[key] = value`. */
    method Set(key: string, value: Value)
      requires Valid()
      modifies this
      ensures Valid()
      ensures association == Dict.Put(old(association), key, value)
      ensures Dict.Get(association, key) == Some(value)
      ensures forall k :: k != key ==> Dict.Get(association, k) == Dict.Get(old(association), k)
    {
      Dict.PutDistinct(association, key, value);
      Dict.GetPutSame(association, key, value);
      forall k | k != key ensures Dict.Get(Dict.Put(association, key, value), k) == Dict.Get(association, k) {
        Dict.GetPutOther(association, key, value, k);
      }
      association := Dict.Put(association, key, value);
    }

    /** `repr(e)`: the class name, then the entries in insertion order. */
    function Repr(show: Value -> string): (s: string)
      reads this
      ensures |s| >= |className| + 2
      ensures s[..|className| + 1] == className + "(" && s[|s| - 1] == ')'
      ensures association == [] ==> s == className + "()"
    {
      Render(className, association, show)
    }
  }
}
