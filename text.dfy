/** The pieces of Python's text handling the model needs: `str` of an integer,
    `", ".join(...)`, `str(list_of_ints)` and ASCII `str.lower()`. */
module Text {

  predicate IsDigit(c: char) {
    '0' <= c <= '9'
  }

  function DigitChar(d: nat): (c: char)
    requires d < 10
    ensures IsDigit(c) && DigitValue(c) == d
  {
    ('0' as int + d) as char
  }

  function DigitValue(c: char): nat {
    if IsDigit(c) then c as int - '0' as int else 0
  }

  /** Decimal rendering of a natural number, as Python's `str(n)`. */
  function ShowNat(n: nat): (s: string)
    ensures |s| >= 1
    ensures forall i :: 0 <= i < |s| ==> IsDigit(s[i])
    ensures s[0] == '0' ==> n == 0 && |s| == 1
  {
    if n < 10 then [DigitChar(n)] else ShowNat(n / 10) + [DigitChar(n % 10)]
  }

  /** Reads a string of decimal digits back as a number (the inverse of ShowNat). */
  function ParseNat(s: string): nat {
    if |s| == 0 then 0 else ParseNat(s[..|s| - 1]) * 10 + DigitValue(s[|s| - 1])
  }

  lemma {:induction false} ParseShowNat(n: nat)
    ensures ParseNat(ShowNat(n)) == n
  {
    var s := ShowNat(n);
    if n < 10 {
      assert s[..|s| - 1] == [];
    } else {
      assert s[..|s| - 1] == ShowNat(n / 10);
      ParseShowNat(n / 10);
    }
  }

  /** ShowNat is injective: distinct numbers render to distinct strings. */
  lemma ShowNatInjective(m: nat, n: nat)
    ensures ShowNat(m) == ShowNat(n) ==> m == n
  {
    ParseShowNat(m);
    ParseShowNat(n);
  }

  /** Decimal rendering of an integer, with a leading '-' for negatives, as Python's `str(i)`. */
  function ShowInt(i: int): (s: string)
    ensures |s| >= 1
    ensures s[0] == '-' <==> i < 0
    ensures i < 0 ==> ParseNat(s[1..]) == -i
    ensures i >= 0 ==> ParseNat(s) == i
    ensures var start := if i < 0 then 1 else 0;
      |s| > start && (forall k :: start <= k < |s| ==> IsDigit(s[k])) && (s[start] == '0' ==> i == 0 && |s| == 1)
  {
    ParseShowNat(if i < 0 then -i else i);
    if i < 0 then "-" + ShowNat(-i) else ShowNat(i)
  }

  /** The three parts of a concatenation can be cut back out of it. */
  lemma ConcatParts(a: string, b: string, c: string)
    ensures (a + b + c)[..|a|] == a
    ensures (a + b + c)[|a|..|a| + |b|] == b
    ensures (a + b + c)[|a| + |b|..] == c
  {
  }

  /** `sep.join(xs)`. */
  function Join(sep: string, xs: seq<string>): string {
    if |xs| == 0 then ""
    else if |xs| == 1 then xs[0]
    else xs[0] + sep + Join(sep, xs[1..])
  }

  /** Joining one more string appends the separator and that string. */
  lemma {:induction false} JoinAppend(sep: string, xs: seq<string>, x: string)
    ensures Join(sep, xs + [x]) == if |xs| == 0 then x else Join(sep, xs) + sep + x
  {
    if |xs| > 1 {
      assert (xs + [x])[1..] == xs[1..] + [x];
      JoinAppend(sep, xs[1..], x);
    } else if |xs| == 1 {
      assert (xs + [x])[1..] == [x];
    }
  }

  /** Python's `str(list_of_ints)`: "[" + ", ".join(str(i) for i in xs) + "]". */
  function ShowIntList(xs: seq<int>): (s: string)
    ensures |s| >= 2 && s[0] == '[' && s[|s| - 1] == ']'
    ensures |xs| == 0 ==> s == "[]"
    ensures |xs| == 1 ==> s == "[" + ShowInt(xs[0]) + "]"
  {
    "[" + Join(", ", ShowInts(xs)) + "]"
  }

  function ShowInts(xs: seq<int>): (ss: seq<string>)
    ensures |ss| == |xs|
  {
    seq(|xs|, i requires 0 <= i < |xs| => ShowInt(xs[i]))
  }

  /** Rendering a list with one more element: the old entries, a ", " unless
      the list was empty, then the new element's rendering, inside brackets. */
  lemma ShowIntListAppend(xs: seq<int>, x: int)
    ensures ShowIntList(xs + [x]) ==
      "[" + (if |xs| == 0 then "" else Join(", ", ShowInts(xs)) + ", ") + ShowInt(x) + "]"
  {
    var ss, y := ShowInts(xs), ShowInt(x);
    ShowIntsAppend(xs, x);
    JoinAppend(", ", ss, y);
    assert Join(", ", ShowInts(xs + [x])) == if |xs| == 0 then y else Join(", ", ss) + ", " + y;
  }

  lemma ShowIntsAppend(xs: seq<int>, x: int)
    ensures ShowInts(xs + [x]) == ShowInts(xs) + [ShowInt(x)]
  {
    var l, r := ShowInts(xs + [x]), ShowInts(xs) + [ShowInt(x)];
    assert |l| == |r|;
    forall i | 0 <= i < |l| ensures l[i] == r[i] {
      if i < |xs| { assert (xs + [x])[i] == xs[i]; }
    }
  }

  function LowerChar(c: char): char {
    if 'A' <= c <= 'Z' then (c as int - 'A' as int + 'a' as int) as char else c
  }

  /** `s.lower()` restricted to ASCII letters. */
  function Lower(s: string): (r: string)
    ensures |r| == |s|
    ensures forall i :: 0 <= i < |s| ==> !('A' <= r[i] <= 'Z')
    ensures forall i :: 0 <= i < |s| && !('A' <= s[i] <= 'Z') ==> r[i] == s[i]
    ensures forall i :: 0 <= i < |s| && 'A' <= s[i] <= 'Z' ==> r[i] as int == s[i] as int + 32
  {
    seq(|s|, i requires 0 <= i < |s| => LowerChar(s[i]))
  }

  /** Lowering twice is lowering once. */
  lemma LowerIdempotent(s: string)
    ensures Lower(Lower(s)) == Lower(s)
  {
  }
}
