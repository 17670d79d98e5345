/** An optional value, used where the source either produces a value or fails. */
module Maybe {
  datatype Option<T> = None | Some(value: T)
}

/**
 * The Python `str` operations that the parsers and the path helpers use:
 * `strip`, `startswith`/`endswith`, `split` on one character, `sep.join`,
 * substring search, integer parsing and the decimal rendering of a number.
 */
module Strings {
  import opened Maybe

  /** Python's `str.isspace()` on a single character. */
  predicate IsSpace(c: char) {
    || c == ' '
    || ('\t' <= c <= '\r')
    || ('\U{1C}' <= c <= '\U{1F}')
    || c == '\U{85}' || c == '\U{A0}' || c == '\U{1680}'
    || ('\U{2000}' <= c <= '\U{200A}')
    || c == '\U{2028}' || c == '\U{2029}' || c == '\U{202F}' || c == '\U{205F}' || c == '\U{3000}'
  }

  predicate StartsWith(s: string, prefix: string) {
    |prefix| <= |s| && s[..|prefix|] == prefix
  }

  predicate EndsWith(s: string, suffix: string) {
    |suffix| <= |s| && s[|s| - |suffix|..] == suffix
  }

  /** Python's `s[k:]`: empty when `k` is past the end. */
  function SliceFrom(s: string, k: nat): (r: string)
    ensures k <= |s| ==> r == s[k..]
    ensures k > |s| ==> r == []
  {
    if k <= |s| then s[k..] else []
  }

  /** `s.lstrip()`: what is dropped is whitespace, and what is left does not start with it. */
  function TrimLeft(s: string): (r: string)
    ensures |r| <= |s| && r == s[|s| - |r|..]
    ensures forall i :: 0 <= i < |s| - |r| ==> IsSpace(s[i])
    ensures r == [] || !IsSpace(r[0])
  {
    if s != [] && IsSpace(s[0]) then TrimLeft(s[1..]) else s
  }

  /** `s.rstrip()`: what is dropped is whitespace, and what is left does not end with it. */
  function TrimRight(s: string): (r: string)
    ensures |r| <= |s| && r == s[..|r|]
    ensures forall i :: |r| <= i < |s| ==> IsSpace(s[i])
    ensures r == [] || !IsSpace(r[|r| - 1])
  {
    if s != [] && IsSpace(s[|s| - 1]) then TrimRight(s[..|s| - 1]) else s
  }

  /**
   * Python's `s.strip()`: the longest slice of `s` that neither starts nor
   * ends with whitespace, and everything around it is whitespace.
   */
  function Strip(s: string): (r: string)
    ensures r == [] || (!IsSpace(r[0]) && !IsSpace(r[|r| - 1]))
    ensures var lo := |s| - |TrimLeft(s)|;
      && lo + |r| <= |s| && r == s[lo..lo + |r|]
      && (forall i :: 0 <= i < lo ==> IsSpace(s[i]))
      && (forall i :: lo + |r| <= i < |s| ==> IsSpace(s[i]))
  {
    TrimRight(TrimLeft(s))
  }

  /** Python's `sep.join(xs)`. */
  function JoinWith(sep: string, xs: seq<string>): string
  {
    if |xs| == 0 then ""
    else if |xs| == 1 then xs[0]
    else xs[0] + sep + JoinWith(sep, xs[1..])
  }

  /**
   * Python's `s.split(c)` for a one-character separator: never empty, no
   * piece holds the separator, and joining the pieces gives `s` back.
   */
  function Split(s: string, c: char): (r: seq<string>)
    ensures 1 <= |r| <= |s| + 1
    ensures forall k :: 0 <= k < |r| ==> c !in r[k]
    ensures JoinWith([c], r) == s
  {
    if s == [] then [""]
    else
      var rest := Split(s[1..], c);
      if s[0] == c then [""] + rest
      else [[s[0]] + rest[0]] + rest[1..]
  }

  predicate OccursAt(s: string, pat: string, k: nat) {
    k + |pat| <= |s| && s[k..k + |pat|] == pat
  }

  /** The first index at or after `from` where `pat` occurs in `s`. */
  function Find(s: string, pat: string, from: nat): (r: Option<nat>)
    ensures r.Some? ==> from <= r.value && OccursAt(s, pat, r.value)
    ensures forall k :: from <= k && (r.None? || k < r.value) ==> !OccursAt(s, pat, k)
    decreases |s| - from
  {
    if from + |pat| > |s| then None
    else if OccursAt(s, pat, from) then Some(from)
    else Find(s, pat, from + 1)
  }

  /** `s * n`. */
  function Repeat(s: string, n: nat): (r: string)
    ensures |r| == |s| * n
  {
    if n == 0 then "" else s + Repeat(s, n - 1)
  }

  predicate IsDigit(c: char) {
    '0' <= c <= '9'
  }

  predicate AllDigits(s: string) {
    forall k :: 0 <= k < |s| ==> IsDigit(s[k])
  }

  /** The value of a string of decimal digits. */
  function DigitsValue(s: string): nat
    requires AllDigits(s)
  {
    if s == [] then 0 else 10 * DigitsValue(s[..|s| - 1]) + (s[|s| - 1] as int - '0' as int)
  }

  /**
   * Python's `int(s)` on ASCII text: surrounding whitespace is ignored, one
   * optional sign, then at least one decimal digit; anything else fails.
   */
  function ParseInt(s: string): (r: Option<int>)
    ensures r.Some? ==> Strip(s) != [] && IsDigit(Strip(s)[|Strip(s)| - 1])
  {
    var t := Strip(s);
    if t != [] && (t[0] == '+' || t[0] == '-') then
      var body := t[1..];
      if body != [] && AllDigits(body) then
        Some(if t[0] == '-' then -(DigitsValue(body) as int) else DigitsValue(body))
      else None
    else if t != [] && AllDigits(t) then Some(DigitsValue(t))
    else None
  }

  /** Python's `str(n)` for a natural number. */
  function NatToString(n: nat): (r: string)
    ensures r != [] && AllDigits(r)
    ensures DigitsValue(r) == n
  {
    var d := [('0' as int + n % 10) as char];
    if n < 10 then d else NatToString(n / 10) + d
  }

  // ---------------------------------------------------------------------
  // Laws of JoinWith and Split

  lemma JoinWithSnoc(sep: string, xs: seq<string>, y: string)
    requires xs != []
    ensures JoinWith(sep, xs + [y]) == JoinWith(sep, xs) + sep + y
  {
    if |xs| == 1 {
      assert xs + [y] == [xs[0], y];
    } else {
      assert (xs + [y])[1..] == xs[1..] + [y];
      JoinWithSnoc(sep, xs[1..], y);
    }
  }

  lemma JoinWithConcat(sep: string, xs: seq<string>, ys: seq<string>)
    requires xs != [] && ys != []
    ensures JoinWith(sep, xs + ys) == JoinWith(sep, xs) + sep + JoinWith(sep, ys)
  {
    if |xs| == 1 {
      assert xs + ys == [xs[0]] + ys;
      assert ([xs[0]] + ys)[1..] == ys;
    } else {
      assert (xs + ys)[1..] == xs[1..] + ys;
      JoinWithConcat(sep, xs[1..], ys);
    }
  }

  /** Appending to the last piece appends to the joined string. */
  lemma JoinWithExtendLast(sep: string, xs: seq<string>, t: string)
    requires xs != []
    ensures JoinWith(sep, xs[..|xs| - 1] + [xs[|xs| - 1] + t]) == JoinWith(sep, xs) + t
  {
    var init := xs[..|xs| - 1];
    if init == [] {
      assert xs == [xs[0]];
    } else {
      JoinWithSnoc(sep, init, xs[|xs| - 1] + t);
      JoinWithSnoc(sep, init, xs[|xs| - 1]);
      assert init + [xs[|xs| - 1]] == xs;
    }
  }

  lemma JoinWithEndsWith(sep: string, xs: seq<string>)
    requires xs != []
    ensures EndsWith(JoinWith(sep, xs), xs[|xs| - 1])
  {
    if |xs| > 1 {
      JoinWithEndsWith(sep, xs[1..]);
    }
  }

  lemma JoinWithStartsWith(sep: string, xs: seq<string>)
    requires xs != []
    ensures StartsWith(JoinWith(sep, xs), xs[0])
  {
  }

  /** A suffix of a suffix is a suffix. */
  lemma EndsWithTrans(s: string, t: string, u: string)
    requires EndsWith(s, t) && EndsWith(t, u)
    ensures EndsWith(s, u)
  {
    assert s[|s| - |u|..] == s[|s| - |t|..][|t| - |u|..];
  }

  /** Text in front keeps a suffix. */
  lemma EndsWithAppend(a: string, s: string, u: string)
    requires EndsWith(s, u)
    ensures EndsWith(a + s, u)
  {
    assert (a + s)[|a + s| - |u|..] == s[|s| - |u|..];
  }

  /** A joined list with a non-empty first piece is itself non-empty. */
  lemma JoinWithNonEmpty(sep: string, xs: seq<string>)
    requires xs != [] && xs[0] != []
    ensures JoinWith(sep, xs) != []
  {
    JoinWithStartsWith(sep, xs);
  }

  /** A string without the separator is one piece. */
  lemma SplitNoSep(s: string, c: char)
    requires c !in s
    ensures Split(s, c) == [s]
  {
    if s != [] {
      assert c !in s[1..];
      SplitNoSep(s[1..], c);
    }
  }

  /** Splitting is a homomorphism over a separator occurrence. */
  lemma {:induction false} SplitConcat(x: string, c: char, y: string)
    ensures Split(x + [c] + y, c) == Split(x, c) + Split(y, c)
  {
    if x == [] {
      assert [c] + y == x + [c] + y;
      assert ([c] + y)[1..] == y;
    } else {
      var s := x + [c] + y;
      assert s[0] == x[0];
      assert s[1..] == x[1..] + [c] + y;
      SplitConcat(x[1..], c, y);
    }
  }

  /** Split undoes JoinWith when no piece holds the separator. */
  lemma {:induction false} SplitJoinWith(xs: seq<string>, c: char)
    requires xs != []
    requires forall k :: 0 <= k < |xs| ==> c !in xs[k]
    ensures Split(JoinWith([c], xs), c) == xs
  {
    if |xs| == 1 {
      SplitNoSep(xs[0], c);
    } else {
      SplitJoinWith(xs[1..], c);
      SplitNoSep(xs[0], c);
      SplitConcat(xs[0], c, JoinWith([c], xs[1..]));
      assert [xs[0]] + xs[1..] == xs;
    }
  }

  // ---------------------------------------------------------------------
  // Laws of the number helpers

  /** A digit string has no whitespace around it, so strip keeps it whole. */
  lemma StripDigits(s: string)
    requires AllDigits(s)
    ensures Strip(s) == s
  {
  }

  /** A non-empty string of digits parses to its value. */
  lemma ParseIntDigits(s: string)
    requires AllDigits(s) && s != []
    ensures ParseInt(s) == Some(DigitsValue(s))
  {
    StripDigits(s);
  }

  /** `int(str(n)) == n`. */
  lemma ParseIntNatToString(n: nat)
    ensures ParseInt(NatToString(n)) == Some(n)
  {
    ParseIntDigits(NatToString(n));
  }
}
