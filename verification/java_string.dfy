/** The few `java.lang.String` / `Integer` operations the application relies
    on, with their Java semantics: `indexOf` and `lastIndexOf` return -1 when
    nothing is found, `trim` strips characters up to U+0020, `split` with a
    one-character literal delimiter drops trailing empty fields, and
    `Integer.parseInt` accepts an optional sign followed by decimal digits
    within the 32-bit range. Case conversion is modelled on ASCII letters. */
module JavaString {
  import opened Wrappers

  /** Java's rendering of a possibly-null string in a concatenation. */
  function StringOf(s: Option<string>): string {
    match s
    case Some(v) => v
    case None => "null"
  }

  /** Java's `int`. */
  type int32 = x: int | -0x8000_0000 <= x < 0x8000_0000

  predicate StartsWith(s: string, p: string) {
    |p| <= |s| && s[..|p|] == p
  }

  predicate EndsWith(s: string, p: string) {
    |p| <= |s| && s[|s| - |p|..] == p
  }

  /** `p` occurs in `s` starting at index `i`. */
  predicate OccursAt(s: string, p: string, i: int) {
    0 <= i && i + |p| <= |s| && s[i..i + |p|] == p
  }

  /** `r` is a contiguous piece of `s`. */
  ghost predicate IsSlice(r: string, s: string) {
    exists i, j :: 0 <= i <= j <= |s| && r == s[i..j]
  }

  lemma SliceOfSlice(r: string, t: string, s: string)
    requires IsSlice(r, t) && IsSlice(t, s)
    ensures IsSlice(r, s)
  {
    var i, j :| 0 <= i <= j <= |t| && r == t[i..j];
    var i', j' :| 0 <= i' <= j' <= |s| && t == s[i'..j'];
    var a, b := i' + i, i' + j;
    assert 0 <= a <= b <= |s|;
    forall k | 0 <= k < |r|
      ensures r[k] == s[a + k]
    {
      assert r[k] == t[i + k];
      assert t[i + k] == s[i' + (i + k)];
    }
    assert r == s[a..b];
  }

  /** `s.indexOf(c)`: the first position of `c`, or -1. */
  function IndexOfChar(s: string, c: char): (r: int)
    ensures -1 <= r < |s|
    ensures 0 <= r ==> s[r] == c
    ensures forall k :: 0 <= k < |s| && (r < 0 || k < r) ==> s[k] != c
  {
    if |s| == 0 then -1
    else if s[0] == c then 0
    else
      var t := IndexOfChar(s[1..], c);
      if t < 0 then -1 else t + 1
  }

  /** `s.lastIndexOf(c)`: the last position of `c`, or -1. */
  function LastIndexOfChar(s: string, c: char): (r: int)
    ensures -1 <= r < |s|
    ensures 0 <= r ==> s[r] == c
    ensures forall k :: r < k < |s| ==> s[k] != c
  {
    if |s| == 0 then -1
    else if s[|s| - 1] == c then |s| - 1
    else LastIndexOfChar(s[..|s| - 1], c)
  }

  /** `s.indexOf(p, from)` for a non-empty `p`: the first occurrence at or
      after `from` (a negative `from` counts as 0), or -1. */
  function IndexOfFrom(s: string, p: string, from: int): (r: int)
    requires |p| > 0
    ensures r == -1 || (from <= r && OccursAt(s, p, r))
    ensures forall k :: from <= k && (r < 0 || k < r) ==> !OccursAt(s, p, k)
    decreases |s| - from
  {
    if from < 0 then IndexOfFrom(s, p, 0)
    else if from + |p| > |s| then -1
    else if OccursAt(s, p, from) then from
    else IndexOfFrom(s, p, from + 1)
  }

  /** The last occurrence of `p` starting at or before `k`, or -1. */
  function LastOccurrenceUpTo(s: string, p: string, k: int): (r: int)
    ensures r == -1 || (r <= k && OccursAt(s, p, r))
    ensures forall j :: r < j <= k ==> !OccursAt(s, p, j)
    decreases k + 1
  {
    if k < 0 then -1
    else if OccursAt(s, p, k) then k
    else LastOccurrenceUpTo(s, p, k - 1)
  }

  /** `s.lastIndexOf(p)`: the last occurrence of `p`, or -1. */
  function LastIndexOf(s: string, p: string): (r: int)
    ensures r == -1 || OccursAt(s, p, r)
    ensures forall j :: r < j ==> !OccursAt(s, p, j)
  {
    LastOccurrenceUpTo(s, p, |s| - |p|)
  }

  /** `s.contains(p)`. */
  predicate Contains(s: string, p: string)
    requires |p| > 0
  {
    IndexOfFrom(s, p, 0) >= 0
  }

  lemma ContainsIff(s: string, p: string)
    requires |p| > 0
    ensures Contains(s, p) <==> exists i :: OccursAt(s, p, i)
  {
  }

  /** Whatever surrounds it, a piece of a concatenation occurs in it. */
  lemma OccursInConcat(a: string, p: string, b: string)
    ensures OccursAt(a + p + b, p, |a|)
  {
    assert (a + p + b)[|a|..|a| + |p|] == p;
  }

  /** The characters `String.trim` removes. */
  predicate IsBlank(c: char) {
    c <= ' '
  }

  function LeadingBlanks(s: string): (n: nat)
    ensures n <= |s|
    ensures forall k :: 0 <= k < n ==> IsBlank(s[k])
    ensures n < |s| ==> !IsBlank(s[n])
  {
    if |s| == 0 || !IsBlank(s[0]) then 0 else 1 + LeadingBlanks(s[1..])
  }

  function TrailingBlanks(s: string): (n: nat)
    ensures n <= |s|
    ensures forall k :: |s| - n <= k < |s| ==> IsBlank(s[k])
    ensures n < |s| ==> !IsBlank(s[|s| - n - 1])
  {
    if |s| == 0 || !IsBlank(s[|s| - 1]) then 0 else 1 + TrailingBlanks(s[..|s| - 1])
  }

  /** `r` is `s` with blanks only cut from its two ends: it starts at `a`,
      and every character of `s` before or after it is blank. */
  predicate CutAt(s: string, r: string, a: int) {
    && 0 <= a <= |s| - |r|
    && r == s[a..a + |r|]
    && (forall k :: 0 <= k < a ==> IsBlank(s[k]))
    && (forall k :: a + |r| <= k < |s| ==> IsBlank(s[k]))
  }

  /** `s.trim()`: the slice of `s` between its first and last non-blank
      characters (empty when every character is blank). */
  function Trim(s: string): (r: string)
    ensures IsSlice(r, s)
    ensures exists a :: CutAt(s, r, a)
    ensures |r| > 0 ==> !IsBlank(r[0]) && !IsBlank(r[|r| - 1])
    ensures |r| == 0 <==> forall k :: 0 <= k < |s| ==> IsBlank(s[k])
  {
    var a := LeadingBlanks(s);
    var b := TrailingBlanks(s[a..]);
    var r := s[a..|s| - b];
    assert r == s[a..|s| - b];
    forall k | a + |r| <= k < |s|
      ensures IsBlank(s[k])
    {
      assert s[k] == s[a..][k - a];
    }
    assert CutAt(s, r, a);
    r
  }

  /** `trim` is the only blanks-only cut of `s` that is empty or has
      non-blank ends. */
  lemma TrimUnique(s: string, t: string, a: int)
    requires CutAt(s, t, a)
    requires |t| > 0 ==> !IsBlank(t[0]) && !IsBlank(t[|t| - 1])
    ensures t == Trim(s)
  {
    var r := Trim(s);
    var b :| CutAt(s, r, b);
    if |t| == 0 {
      forall k | 0 <= k < |s|
        ensures IsBlank(s[k])
      {
      }
    } else {
      assert s[a] == t[0];
      assert s[b] == r[0];
      assert s[a + |t| - 1] == t[|t| - 1];
      assert s[b + |r| - 1] == r[|r| - 1];
      assert a == b;
      assert a + |t| == b + |r|;
    }
  }

  function LowerChar(c: char): char {
    if 'A' <= c <= 'Z' then (c as int + 32) as char else c
  }

  /** `s.toLowerCase()` on ASCII letters. */
  function ToLower(s: string): (r: string)
    ensures |r| == |s|
    ensures forall k :: 0 <= k < |s| ==> r[k] == LowerChar(s[k])
  {
    seq(|s|, k requires 0 <= k < |s| => LowerChar(s[k]))
  }

  /** `a.equalsIgnoreCase(b)` on ASCII letters. */
  predicate EqualsIgnoreCase(a: string, b: string) {
    ToLower(a) == ToLower(b)
  }

  /** `String.join(sep, xs)`. */
  function Join(sep: string, xs: seq<string>): string {
    if |xs| == 0 then ""
    else if |xs| == 1 then xs[0]
    else xs[0] + sep + Join(sep, xs[1..])
  }

  /** Every piece of `s` between occurrences of `c`, empty ones included. */
  function Fields(s: string, c: char): (r: seq<string>)
    ensures |r| >= 1
    decreases |s|
  {
    var k := IndexOfChar(s, c);
    if k < 0 then [s] else [s[..k]] + Fields(s[k + 1..], c)
  }

  /** Joining the fields back with the delimiter restores the string. */
  lemma {:induction false} FieldsJoin(s: string, c: char)
    ensures Join([c], Fields(s, c)) == s
    decreases |s|
  {
    var k := IndexOfChar(s, c);
    if k >= 0 {
      FieldsJoin(s[k + 1..], c);
      JoinCons([c], s[..k], Fields(s[k + 1..], c));
      assert s == s[..k] + [c] + s[k + 1..];
    }
  }

  /** Joining a list of two or more pieces puts the separator after the
      first. */
  lemma JoinCons(sep: string, x: string, rest: seq<string>)
    requires |rest| >= 1
    ensures Join(sep, [x] + rest) == x + sep + Join(sep, rest)
  {
    assert ([x] + rest)[1..] == rest;
  }

  function DropTrailingEmpty(xs: seq<string>): (r: seq<string>)
    ensures |r| <= |xs| && r == xs[..|r|]
    ensures |r| > 0 ==> r[|r| - 1] != ""
    ensures forall i :: |r| <= i < |xs| ==> xs[i] == ""
  {
    if |xs| > 0 && xs[|xs| - 1] == "" then DropTrailingEmpty(xs[..|xs| - 1]) else xs
  }

  /** `s.split(d)` for a one-character delimiter that is not a regular
      expression metacharacter (`,` and `/` here). */
  function Split(s: string, c: char): seq<string> {
    if c !in s then [s] else DropTrailingEmpty(Fields(s, c))
  }

  predicate IsDigit(c: char) {
    '0' <= c <= '9'
  }

  predicate AllDigits(s: string) {
    forall k :: 0 <= k < |s| ==> IsDigit(s[k])
  }

  function DigitChar(d: nat): (c: char)
    requires d < 10
    ensures IsDigit(c)
  {
    ('0' as int + d) as char
  }

  /** The number a string of decimal digits denotes. */
  function DigitsValue(s: string): nat
    requires AllDigits(s)
  {
    if |s| == 0 then 0
    else DigitsValue(s[..|s| - 1]) * 10 + (s[|s| - 1] as int - '0' as int)
  }

  /** Decimal rendering of a natural number, without leading zeros. */
  function NatToString(n: nat): (r: string)
    ensures |r| >= 1 && AllDigits(r)
    ensures |r| > 1 ==> r[0] != '0'
  {
    if n < 10 then [DigitChar(n)] else NatToString(n / 10) + [DigitChar(n % 10)]
  }

  /** `String.valueOf(i)` for an `int`. */
  function IntToString(i: int): string {
    if i < 0 then "-" + NatToString(-i) else NatToString(i)
  }

  lemma {:induction false} NatToStringValue(n: nat)
    ensures DigitsValue(NatToString(n)) == n
  {
    if n >= 10 {
      NatToStringValue(n / 10);
      var s := NatToString(n);
      assert s[..|s| - 1] == NatToString(n / 10);
    }
  }

  /** `Integer.parseInt(s)`: an optional `+` or `-` followed by at least one
      decimal digit, with a value inside the 32-bit range; anything else is a
      `NumberFormatException`, modelled as `None`. */
  function ParseInt(s: string): (r: Option<int32>)
    ensures r.Some? ==> |s| >= 1
  {
    if |s| == 0 then None
    else
      var signed := s[0] == '-' || s[0] == '+';
      var digits := if signed then s[1..] else s;
      if |digits| == 0 || !AllDigits(digits) then None
      else
        var v: int := if s[0] == '-' then -(DigitsValue(digits) as int) else DigitsValue(digits);
        if -0x8000_0000 <= v < 0x8000_0000 then Some(v) else None
  }

  /** Parsing undoes `String.valueOf` on every `int`. */
  lemma ParseIntOfIntToString(i: int32)
    ensures ParseInt(IntToString(i)) == Some(i)
  {
    var s := IntToString(i);
    if i < 0 {
      var n: nat := -(i as int);
      NatToStringValue(n);
      assert s[0] == '-' && s[1..] == NatToString(n);
    } else {
      NatToStringValue(i);
      assert IsDigit(s[0]);
    }
  }

  function Pow10(n: nat): nat {
    if n == 0 then 1 else 10 * Pow10(n - 1)
  }

  lemma {:induction false} DigitsValueBound(s: string)
    requires AllDigits(s)
    ensures DigitsValue(s) < Pow10(|s|)
  {
    if |s| > 0 {
      DigitsValueBound(s[..|s| - 1]);
    }
  }

  /** A two-character string parses to a number between -9 and 99. */
  lemma ParseIntTwoChars(s: string)
    requires |s| == 2
    ensures ParseInt(s).Some? ==> -9 <= ParseInt(s).value <= 99
  {
    if ParseInt(s).Some? {
      if s[0] == '-' || s[0] == '+' {
        DigitsValueBound(s[1..]);
      } else {
        DigitsValueBound(s);
      }
    }
  }
}
