/**
 * The few JavaScript string primitives the site's logic relies on, stated over
 * `seq<char>`: the white-space class shared by `\s` and `String.prototype.trim`,
 * the ASCII digit class `[0-9]` (and its complement `\D`), `trim`,
 * `replace(/\D/g, '')`, `split(c)[0]` and `Array.prototype.join`.
 */
module JsText {

  /** ECMAScript WhiteSpace and LineTerminator code points: the `\s` class and what `trim` removes. */
  predicate IsWhitespace(c: char) {
    var n := c as int;
    || 0x09 <= n <= 0x0D
    || n == 0x20 || n == 0xA0 || n == 0x1680
    || 0x2000 <= n <= 0x200A
    || n == 0x2028 || n == 0x2029 || n == 0x202F || n == 0x205F
    || n == 0x3000 || n == 0xFEFF
  }

  /** The regular-expression class `[0-9]`; `\d` and `\D` are ASCII-only in JavaScript. */
  predicate IsDigit(c: char) {
    '0' <= c <= '9'
  }

  predicate AllWhitespace(s: string) {
    forall i :: 0 <= i < |s| ==> IsWhitespace(s[i])
  }

  predicate AllDigits(s: string) {
    forall i :: 0 <= i < |s| ==> IsDigit(s[i])
  }

  /** Drops leading white space. */
  function TrimStart(s: string): (r: string)
    ensures |r| <= |s| && r == s[|s| - |r|..]
    ensures AllWhitespace(s[..|s| - |r|])
    ensures r == [] || !IsWhitespace(r[0])
    decreases |s|
  {
    if |s| > 0 && IsWhitespace(s[0]) then TrimStart(s[1..]) else s
  }

  /** Drops trailing white space. */
  function TrimEnd(s: string): (r: string)
    ensures |r| <= |s| && r == s[..|r|]
    ensures AllWhitespace(s[|r|..])
    ensures r == [] || !IsWhitespace(r[|r| - 1])
    decreases |s|
  {
    if |s| > 0 && IsWhitespace(s[|s| - 1]) then
      var r := TrimEnd(s[..|s| - 1]);
      assert s[|r|..] == s[..|s| - 1][|r|..] + [s[|s| - 1]];
      r
    else s
  }

  /** `value.trim()`: the result is empty exactly when the value is all white space. */
  function Trim(s: string): (r: string)
    ensures r == [] <==> AllWhitespace(s)
    ensures r == [] || (!IsWhitespace(r[0]) && !IsWhitespace(r[|r| - 1]))
  {
    var t := TrimStart(s);
    var r := TrimEnd(t);
    TrimEmptyIff(s, t, r);
    r
  }

  lemma {:induction false} TrimEmptyIff(s: string, t: string, r: string)
    requires t == TrimStart(s) && r == TrimEnd(t)
    ensures r == [] <==> AllWhitespace(s)
  {
    if r == [] {
      TrimEmptyOnlyIfBlank(s, t, r);
    } else {
      TrimOfBlankIsEmpty(s, t, r);
    }
  }

  lemma {:induction false} TrimEmptyOnlyIfBlank(s: string, t: string, r: string)
    requires t == TrimStart(s) && r == TrimEnd(t)
    requires r == []
    ensures AllWhitespace(s)
  {
    TrimEndEmpty(t, r);
    TrimStartBlank(s, t);
  }

  lemma {:induction false} TrimStartBlank(s: string, t: string)
    requires t == TrimStart(s)
    requires AllWhitespace(t)
    ensures AllWhitespace(s)
  {
    WhitespaceSplit(s, |s| - |t|);
  }

  lemma {:induction false} TrimOfBlankIsEmpty(s: string, t: string, r: string)
    requires t == TrimStart(s) && r == TrimEnd(t)
    ensures AllWhitespace(s) ==> r == []
  {
  }

  lemma {:induction false} TrimEndEmpty(t: string, r: string)
    requires r == TrimEnd(t) && r == []
    ensures AllWhitespace(t)
  {
    assert t[|r|..] == t;
  }

  lemma {:induction false} WhitespaceSplit(s: string, k: nat)
    requires k <= |s|
    requires AllWhitespace(s[..k]) && AllWhitespace(s[k..])
    ensures AllWhitespace(s)
  {
    forall i | 0 <= i < |s|
      ensures IsWhitespace(s[i])
    {
      if i < k {
        assert s[i] == s[..k][i];
      } else {
        assert s[i] == s[k..][i - k];
      }
    }
  }

  /** `value.replace(/\D/g, '')`: the digits of the value, in order. */
  function Digits(s: string): (r: string)
    ensures AllDigits(r)
    ensures |r| <= |s|
    decreases |s|
  {
    if s == [] then []
    else if IsDigit(s[0]) then [s[0]] + Digits(s[1..])
    else Digits(s[1..])
  }

  lemma {:induction false} DigitsAppend(a: string, b: string)
    ensures Digits(a + b) == Digits(a) + Digits(b)
    decreases |a|
  {
    if a == [] {
      assert a + b == b;
    } else {
      assert (a + b)[1..] == a[1..] + b;
      DigitsAppend(a[1..], b);
    }
  }

  /** A string of digits is its own digit string. */
  lemma {:induction false} DigitsOfDigits(s: string)
    requires AllDigits(s)
    ensures Digits(s) == s
    decreases |s|
  {
    if s != [] {
      DigitsOfDigits(s[1..]);
    }
  }

  /** `s.split(c)[0]`: everything before the first `c`, or all of `s` when there is none. */
  function BeforeFirst(s: string, c: char): (r: string)
    ensures |r| <= |s| && r == s[..|r|]
    ensures c !in r
    ensures |r| < |s| ==> s[|r|] == c
    decreases |s|
  {
    if s == [] || s[0] == c then [] else [s[0]] + BeforeFirst(s[1..], c)
  }

  /** The split stops exactly at the first `c`. */
  lemma {:induction false} BeforeFirstStops(x: string, rest: string, c: char)
    requires c !in x && |rest| > 0 && rest[0] == c
    ensures BeforeFirst(x + rest, c) == x
    decreases |x|
  {
    if x != [] {
      assert (x + rest)[1..] == x[1..] + rest;
      BeforeFirstStops(x[1..], rest, c);
    }
  }

  /** `xs.join(sep)`. */
  function Join(xs: seq<string>, sep: string): string
    decreases |xs|
  {
    if xs == [] then []
    else if |xs| == 1 then xs[0]
    else xs[0] + sep + Join(xs[1..], sep)
  }

  /** Concatenation of all the strings, in order (`xs.join("")`). */
  function Concat(xs: seq<string>): string
    decreases |xs|
  {
    if xs == [] then [] else xs[0] + Concat(xs[1..])
  }

  /** Prefixing a non-empty join with its separator puts the separator in front of every element. */
  lemma {:induction false} JoinPrefixed(xs: seq<string>, sep: string, ys: seq<string>)
    requires |xs| > 0
    requires |ys| == |xs|
    requires forall i :: 0 <= i < |xs| ==> ys[i] == sep + xs[i]
    ensures sep + Join(xs, sep) == Concat(ys)
    decreases |xs|
  {
    if |xs| == 1 {
      assert Concat(ys) == ys[0] + Concat(ys[1..]);
      assert Concat(ys[1..]) == [];
      assert ys[0] + [] == ys[0];
    } else {
      JoinPrefixed(xs[1..], sep, ys[1..]);
      calc {
        sep + Join(xs, sep);
        sep + (xs[0] + sep + Join(xs[1..], sep));
        { assert sep + (xs[0] + sep + Join(xs[1..], sep)) == (sep + xs[0]) + (sep + Join(xs[1..], sep)); }
        ys[0] + Concat(ys[1..]);
        Concat(ys);
      }
    }
  }
}
