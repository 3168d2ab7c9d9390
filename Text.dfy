/**
 * Character classes and small string functions shared by the workout parser,
 * the CSV writer and the duration formatter.  They follow JavaScript where it
 * matters: `\s` and `String.prototype.trim` use the same white-space and
 * line-terminator code points, `\d` is ASCII only, and case mapping is the
 * ASCII part of `toLowerCase`/`toUpperCase`.
 */
module Text {
  import opened Wrappers

  predicate IsLineTerminator(c: char) {
    c == '\n' || c == '\r' || c == '\U{2028}' || c == '\U{2029}'
  }

  /** What the regular-expression class `\s` matches and what `trim` removes. */
  predicate IsSpace(c: char) {
    || IsLineTerminator(c)
    || c == ' ' || c == '\t' || c == '\U{000B}' || c == '\U{000C}'
    || c == '\U{00A0}' || c == '\U{FEFF}' || c == '\U{1680}'
    || ('\U{2000}' <= c <= '\U{200A}')
    || c == '\U{202F}' || c == '\U{205F}' || c == '\U{3000}'
  }

  predicate IsDigit(c: char) { '0' <= c <= '9' }

  predicate IsAsciiLetter(c: char) { 'a' <= c <= 'z' || 'A' <= c <= 'Z' }

  predicate AllDigits(s: string) { forall k | 0 <= k < |s| :: IsDigit(s[k]) }

  predicate NoLineTerminator(s: string) { forall k | 0 <= k < |s| :: !IsLineTerminator(s[k]) }

  predicate IsBlank(s: string) { forall k | 0 <= k < |s| :: IsSpace(s[k]) }

  function LowerChar(c: char): char {
    if 'A' <= c <= 'Z' then (c as int + 32) as char else c
  }

  function UpperChar(c: char): char {
    if 'a' <= c <= 'z' then (c as int - 32) as char else c
  }

  function Lower(s: string): string {
    seq(|s|, k requires 0 <= k < |s| => LowerChar(s[k]))
  }

  function Upper(s: string): string {
    seq(|s|, k requires 0 <= k < |s| => UpperChar(s[k]))
  }

  /** End of the longest run of characters satisfying `P` that starts at `p`. */
  function Span(s: string, p: nat, P: char -> bool): (e: nat)
    requires p <= |s|
    ensures p <= e <= |s|
    ensures e == |s| || !P(s[e])
    decreases |s| - p
  {
    if p < |s| && P(s[p]) then Span(s, p + 1, P) else p
  }

  /** Every character of the run satisfies `P`. */
  lemma {:induction false} SpanAll(s: string, p: nat, P: char -> bool)
    requires p <= |s|
    ensures forall k | p <= k < Span(s, p, P) :: P(s[k])
    decreases |s| - p
  {
    if p < |s| && P(s[p]) {
      SpanAll(s, p + 1, P);
    }
  }

  /** A run is determined by where it starts: any end with the two properties is the one `Span` finds. */
  lemma {:induction false} SpanIs(s: string, p: nat, P: char -> bool, e: nat)
    requires p <= e <= |s|
    requires forall k | p <= k < e :: P(s[k])
    requires e == |s| || !P(s[e])
    ensures Span(s, p, P) == e
    decreases e - p
  {
    if p < e {
      SpanIs(s, p + 1, P, e);
    }
  }

  /** The leftmost position in `[i, n)` at which `P` holds: how an unanchored regular expression picks its match. */
  function FindFrom(P: nat -> bool, i: nat, n: nat): (r: Option<nat>)
    ensures r.Some? ==> i <= r.value < n && P(r.value)
    ensures r.Some? ==> forall q | i <= q < r.value :: !P(q)
    ensures r.None? ==> forall q | i <= q < n :: !P(q)
    decreases n - i
  {
    if i >= n then None
    else if P(i) then Some(i)
    else FindFrom(P, i + 1, n)
  }

  lemma FindFromIs(P: nat -> bool, i: nat, n: nat, p: nat)
    requires i <= p < n && P(p)
    requires forall q | i <= q < p :: !P(q)
    ensures FindFrom(P, i, n) == Some(p)
  {
  }

  /** The longest slice without leading or trailing white space. */
  function TrimStartIndex(s: string): (a: nat)
    ensures a <= |s|
  {
    Span(s, 0, IsSpace)
  }

  function TrimEnd(s: string): (r: string)
    ensures |r| <= |s| && r == s[..|r|]
    ensures r == [] || !IsSpace(r[|r| - 1])
    ensures forall k | |r| <= k < |s| :: IsSpace(s[k])
  {
    if s == [] || !IsSpace(s[|s| - 1]) then s
    else
      var r := TrimEnd(s[..|s| - 1]);
      assert s[..|s| - 1][..|r|] == s[..|r|];
      r
  }

  /** `String.prototype.trim`. */
  function Trim(s: string): (r: string)
    ensures TrimStartIndex(s) + |r| <= |s|
    ensures r == s[TrimStartIndex(s)..TrimStartIndex(s) + |r|]
    ensures r == [] <==> IsBlank(s)
    ensures r == [] || (!IsSpace(r[0]) && !IsSpace(r[|r| - 1]))
    ensures forall k | 0 <= k < TrimStartIndex(s) :: IsSpace(s[k])
    ensures forall k | TrimStartIndex(s) + |r| <= k < |s| :: IsSpace(s[k])
  {
    var a := TrimStartIndex(s);
    var r := TrimEnd(s[a..]);
    SpanAll(s, 0, IsSpace);
    TrimSlices(s, a, r);
    r
  }

  lemma TrimSlices(s: string, a: nat, r: string)
    requires a == TrimStartIndex(s) && r == TrimEnd(s[a..])
    ensures a + |r| <= |s|
    ensures r == s[a..a + |r|]
    ensures r == [] <==> IsBlank(s)
    ensures forall k | a + |r| <= k < |s| :: IsSpace(s[k])
  {
    SpanAll(s, 0, IsSpace);
    assert s[a..][..|r|] == s[a..a + |r|];
    if r == [] {
      assert a == |s|;
    } else {
      assert !IsSpace(s[a]);
    }
    forall k | a + |r| <= k < |s| ensures IsSpace(s[k]) {
      assert s[k] == s[a..][k - a];
    }
  }

  /** A string already free of white space at both ends is its own trim. */
  lemma TrimNoop(s: string)
    requires s == [] || (!IsSpace(s[0]) && !IsSpace(s[|s| - 1]))
    ensures Trim(s) == s
  {
    if s != [] {
      SpanIs(s, 0, IsSpace, 0);
      var r := Trim(s);
      assert |r| == |s|;
    }
  }

  /** White space around a string does not survive trimming. */
  lemma TrimPadded(pre: string, s: string, post: string)
    requires IsBlank(pre) && IsBlank(post)
    requires s == [] || (!IsSpace(s[0]) && !IsSpace(s[|s| - 1]))
    ensures Trim(pre + s + post) == s
  {
    var t := pre + s + post;
    if s == [] {
      assert IsBlank(t) by {
        forall k | 0 <= k < |t| ensures IsSpace(t[k]) {
          if k < |pre| { assert t[k] == pre[k]; } else { assert t[k] == post[k - |pre|]; }
        }
      }
    } else {
      var a := |pre|;
      forall k | 0 <= k < a ensures IsSpace(t[k]) { assert t[k] == pre[k]; }
      assert t[a] == s[0];
      SpanIs(t, 0, IsSpace, a);
      var r := Trim(t);
      assert t[a + |s| - 1] == s[|s| - 1];
      assert |r| >= |s|;
      forall k | a + |s| <= k < |t| ensures IsSpace(t[k]) { assert t[k] == post[k - a - |s|]; }
      assert |r| <= |s|;
      assert r == t[a..a + |s|] == s;
    }
  }

  predicate OccursAt(s: string, t: string, i: nat) {
    i + |t| <= |s| && s[i..i + |t|] == t
  }

  /** `String.prototype.includes`. */
  predicate Contains(s: string, t: string) {
    exists i: nat | i <= |s| :: OccursAt(s, t, i)
  }

  /** A string occurs wherever a longer string it begins occurs. */
  lemma ContainsPrefixOf(s: string, long: string, short: string)
    requires short <= long && Contains(s, long)
    ensures Contains(s, short)
  {
    var i: nat :| i <= |s| && OccursAt(s, long, i);
    assert s[i..i + |short|] == long[..|short|] == short;
    assert OccursAt(s, short, i);
  }

  function DigitValue(c: char): nat
    requires IsDigit(c)
  {
    c as int - '0' as int
  }

  function DigitChar(d: nat): (c: char)
    requires d < 10
    ensures IsDigit(c) && DigitValue(c) == d
  {
    ('0' as int + d) as char
  }

  /** `parseInt` of a string of decimal digits. */
  function DigitsValue(s: string): nat
    requires AllDigits(s)
  {
    if s == [] then 0 else DigitsValue(s[..|s| - 1]) * 10 + DigitValue(s[|s| - 1])
  }

  function Pow10(n: nat): (r: nat)
    ensures r >= 1
  {
    if n == 0 then 1 else 10 * Pow10(n - 1)
  }

  /** The decimal rendering of a non-negative integer, as JavaScript's `String(n)` gives it. */
  function NatToString(n: nat): (r: string)
    ensures r != [] && AllDigits(r)
    ensures DigitsValue(r) == n
    ensures |r| > 1 ==> r[0] != '0'
  {
    if n < 10 then [DigitChar(n)]
    else
      var r := NatToString(n / 10) + [DigitChar(n % 10)];
      assert r[..|r| - 1] == NatToString(n / 10);
      r
  }

  /** A number below one hundred as exactly two digits, the tens first. */
  function TwoDigits(c: nat): (r: string)
    requires c < 100
    ensures |r| == 2 && AllDigits(r) && DigitsValue(r) == c
  {
    var r := [DigitChar(c / 10), DigitChar(c % 10)];
    assert r[..1] == [DigitChar(c / 10)] && r[..1][..0] == [];
    assert DigitsValue(r[..1]) == c / 10;
    assert c / 10 * 10 + c % 10 == c;
    r
  }

  /** `Array.prototype.join`. */
  function Join(parts: seq<string>, sep: string): string {
    if parts == [] then []
    else if |parts| == 1 then parts[0]
    else parts[0] + sep + Join(parts[1..], sep)
  }

  /** `String.prototype.split` with a one-character separator: joining the pieces back gives the input. */
  function SplitOn(s: string, sep: char): (parts: seq<string>)
    ensures |parts| >= 1
    ensures forall k | 0 <= k < |parts| :: sep !in parts[k]
    ensures Join(parts, [sep]) == s
  {
    if s == [] then [[]]
    else
      var rest := SplitOn(s[1..], sep);
      if s[0] == sep then
        assert Join([[]] + rest, [sep]) == [] + [sep] + Join(rest, [sep]);
        [[]] + rest
      else
        var parts := [[s[0]] + rest[0]] + rest[1..];
        assert Join(parts, [sep]) == [s[0]] + Join(rest, [sep]) by {
          if |rest| > 1 {
            assert parts[1..] == rest[1..];
          }
        }
        assert s == [s[0]] + s[1..];
        parts
  }

  /** A string without the separator is a single piece. */
  lemma {:induction false} SplitOnAbsent(s: string, sep: char)
    requires sep !in s
    ensures SplitOn(s, sep) == [s]
  {
    if s != [] {
      SplitOnAbsent(s[1..], sep);
      assert [s[0]] + s[1..] == s;
    }
  }
}
