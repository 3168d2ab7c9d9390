/**
 * The token extractors of src/parser.ts: distance, duration and intensity.
 * Each regular expression is a "matches at position p" predicate; an
 * unanchored `match` takes the leftmost position (`Text.FindFrom`).
 */
module Tokens {
  import opened Wrappers
  import opened Text
  import opened Types

  predicate IsDigitOrComma(c: char) { IsDigit(c) || c == ',' }

  predicate IsDecimalChar(c: char) { IsDigit(c) || c == ',' || c == '.' }

  /**
   * `([C]+)\s*lit` matches at `p`.  Used with a class `C` and a literal whose
   * first character is neither in `C` nor white space, so the greedy run and
   * the greedy `\s*` are the only way to match: backtracking would leave a
   * character of `C` or a space where `lit` must start.
   */
  predicate RunThenLiteralAt(s: string, p: nat, C: char -> bool, lit: string) {
    && p < |s| && C(s[p])
    && var w := Span(s, Span(s, p, C), IsSpace);
       w + |lit| <= |s| && s[w..w + |lit|] == lit
  }

  function LiteralMatcher(s: string, C: char -> bool, lit: string): nat -> bool {
    (p: nat) => RunThenLiteralAt(s, p, C, lit)
  }

  /** The capture group `[C]+` of the leftmost match of `([C]+)\s*lit`. */
  function RunBeforeLiteral(s: string, C: char -> bool, lit: string): (run: Option<string>)
    ensures run.Some? ==> run.value != [] && forall k | 0 <= k < |run.value| :: C(run.value[k])
    ensures run.Some? ==> Contains(s, lit)
  {
    match FindFrom(LiteralMatcher(s, C, lit), 0, |s|)
    case None => None
    case Some(p) =>
      var w := Span(s, Span(s, p, C), IsSpace);
      SpanAll(s, p, C);
      assert OccursAt(s, lit, w);
      Some(s[p..Span(s, p, C)])
  }

  /** A run of `C` from `p` to `e` followed directly by `lit` is a match at `p` whose capture ends at `e`. */
  lemma RunLiteralAt(s: string, p: nat, e: nat, C: char -> bool, lit: string)
    requires p < e <= |s|
    requires forall k | p <= k < e :: C(s[k])
    requires lit != [] && e + |lit| <= |s| && s[e..e + |lit|] == lit
    requires !C(lit[0]) && !IsSpace(lit[0])
    ensures Span(s, p, C) == e
    ensures RunThenLiteralAt(s, p, C, lit)
  {
    assert s[e] == lit[0];
    SpanIs(s, p, C, e);
    SpanIs(s, e, IsSpace, e);
  }

  /** A run of `C` followed directly by a character that is neither white space nor the literal's first character is no match. */
  lemma RunOtherAt(s: string, p: nat, e: nat, C: char -> bool, lit: string)
    requires p < e < |s|
    requires forall k | p <= k < e :: C(s[k])
    requires !C(s[e]) && !IsSpace(s[e]) && lit != [] && s[e] != lit[0]
    ensures !RunThenLiteralAt(s, p, C, lit)
  {
    SpanIs(s, p, C, e);
    SpanIs(s, e, IsSpace, e);
  }

  /** `String.prototype.replace` with a one-character string pattern: only the first occurrence changes. */
  function ReplaceFirst(s: string, from: char, to: char): (r: string)
    ensures |r| == |s|
    ensures forall k | 0 <= k < |s| :: r[k] == s[k] || r[k] == to
    ensures from !in s ==> r == s
  {
    if s == [] then []
    else if s[0] == from then [to] + s[1..]
    else [s[0]] + ReplaceFirst(s[1..], from, to)
  }

  /** The value of the decimal literal `whole.frac`. */
  function DecimalValue(whole: string, frac: string): (v: real)
    requires AllDigits(whole) && AllDigits(frac)
    ensures v >= 0.0
  {
    DigitsValue(whole) as real + DigitsValue(frac) as real / Pow10(|frac|) as real
  }

  /**
   * `parseFloat` on a string of digits, commas and points: the longest
   * decimal-literal prefix `digits [. digits]`, NaN when that prefix has no digit.
   */
  function ParseFloat(t: string): (r: Number)
    requires forall k | 0 <= k < |t| :: IsDecimalChar(t[k])
    ensures r.NaN? <==> !(t != [] && (IsDigit(t[0]) || (|t| > 1 && t[0] == '.' && IsDigit(t[1]))))
    ensures r.Finite? ==> r.value >= 0.0
  {
    var i := Span(t, 0, IsDigit);
    SpanAll(t, 0, IsDigit);
    var whole := DigitsValue(t[..i]) as real;
    if i < |t| && t[i] == '.' then
      var f := Span(t, i + 1, IsDigit);
      SpanAll(t, i + 1, IsDigit);
      if i == 0 && f == i + 1 then NaN
      else Finite(DecimalValue(t[..i], t[i + 1..f]))
    else if i == 0 then NaN
    else Finite(whole)
  }

  /** A plain digit string reads as its integer value. */
  lemma ParseFloatDigits(ds: string)
    requires ds != [] && AllDigits(ds)
    ensures ParseFloat(ds) == Finite(DigitsValue(ds) as real)
  {
    SpanIs(ds, 0, IsDigit, |ds|);
    assert ds[..|ds|] == ds;
  }

  /** `a.b` reads as a + b / 10^|b|. */
  lemma ParseFloatPoint(a: string, b: string)
    requires a != [] && AllDigits(a) && AllDigits(b)
    ensures ParseFloat(a + "." + b) == Finite(DecimalValue(a, b))
  {
    var t := a + "." + b;
    assert forall k | 0 <= k < |a| :: t[k] == a[k];
    assert forall k | |a| + 1 <= k < |t| :: t[k] == b[k - |a| - 1];
    assert t[|a|] == '.';
    SpanIs(t, 0, IsDigit, |a|);
    SpanIs(t, |a| + 1, IsDigit, |t|);
    assert t[..|a|] == a;
    assert t[|a| + 1..|t|] == b;

  }

  function Scale(n: Number, k: real): Number {
    match n
    case NaN => NaN
    case Finite(v) => Finite(v * k)
  }

  /**
   * parseDistance: the leftmost `([\d,]+)\s*km` of the lower-cased trimmed text
   * gives thousands of metres; failing that, `([\d,]+)\s*m` gives metres;
   * failing both, 0.  Only the first comma becomes a decimal point.  Neither
   * pattern takes a sign, so a distance is never negative.
   */
  function ParseDistance(distanceStr: string): (meters: Number)
    ensures meters.Finite? ==> meters.value >= 0.0
  {
    DistanceOfNormalized(Lower(Trim(distanceStr)))
  }

  function DistanceOfNormalized(normalized: string): (meters: Number)
    ensures meters.Finite? ==> meters.value >= 0.0
  {
    match RunBeforeLiteral(normalized, IsDigitOrComma, "km")
    case Some(digits) => Scale(ParseFloat(ReplaceFirst(digits, ',', '.')), 1000.0)
    case None =>
      (match RunBeforeLiteral(normalized, IsDigitOrComma, "m")
       case Some(digits) => ParseFloat(ReplaceFirst(digits, ',', '.'))
       case None => Finite(0.0))
  }

  /** Text that starts and ends with something other than white space and has no capital letter is already normalized. */
  lemma NormalizedNoop(s: string)
    requires s == [] || (!IsSpace(s[0]) && !IsSpace(s[|s| - 1]))
    requires forall k | 0 <= k < |s| :: !('A' <= s[k] <= 'Z')
    ensures Lower(Trim(s)) == s
  {
    TrimNoop(s);
  }

  /** The capture is the run at `p` when `p` is the leftmost position where a run is followed by the literal. */
  lemma FirstRunBeforeLiteral(s: string, p: nat, e: nat, C: char -> bool, lit: string)
    requires p < e <= |s|
    requires forall k | p <= k < e :: C(s[k])
    requires lit != [] && e + |lit| <= |s| && s[e..e + |lit|] == lit
    requires !C(lit[0]) && !IsSpace(lit[0])
    requires forall q | 0 <= q < p :: !RunThenLiteralAt(s, q, C, lit)
    ensures RunBeforeLiteral(s, C, lit) == Some(s[p..e])
  {
    RunLiteralAt(s, p, e, C, lit);
    FindFromIs(LiteralMatcher(s, C, lit), 0, |s|, p);
  }

  /** A run at the very start followed directly by the literal is the leftmost capture, whatever comes after. */
  lemma LeadingRun(run: string, lit: string, rest: string, C: char -> bool)
    requires run != [] && forall k | 0 <= k < |run| :: C(run[k])
    requires lit != [] && !C(lit[0]) && !IsSpace(lit[0])
    ensures RunBeforeLiteral(run + lit + rest, C, lit) == Some(run)
  {
    var s := run + lit + rest;
    assert s[|run|..|run| + |lit|] == lit;
    FirstRunBeforeLiteral(s, 0, |run|, C, lit);
    assert s[0..|run|] == run;
  }

  /** A run that follows a first run and a separator is the leftmost capture when the separator is not the literal. */
  lemma RunAfterSeparator(first: string, sep: char, run: string, lit: string, C: char -> bool)
    requires forall k | 0 <= k < |first| :: C(first[k])
    requires !C(sep) && !IsSpace(sep)
    requires run != [] && forall k | 0 <= k < |run| :: C(run[k])
    requires lit != [] && !C(lit[0]) && !IsSpace(lit[0]) && sep != lit[0]
    ensures RunBeforeLiteral(first + [sep] + run + lit, C, lit) == Some(run)
  {
    var s := first + [sep] + run + lit;
    var start := |first| + 1;
    assert s[start + |run|..start + |run| + |lit|] == lit;
    forall q | 0 <= q < start ensures !RunThenLiteralAt(s, q, C, lit) {
      if q < |first| {
        RunOtherAt(s, q, |first|, C, lit);
      }
    }
    FirstRunBeforeLiteral(s, start, start + |run|, C, lit);
    assert s[start..start + |run|] == run;
  }

  /** A number followed by a unit is already trimmed and lower-case. */
  lemma NumberWithUnit(run: string, unit: string)
    requires run != [] && forall k | 0 <= k < |run| :: IsDecimalChar(run[k])
    requires unit == "km" || unit == "m"
    ensures ParseDistance(run + unit) == DistanceOfNormalized(run + unit)
  {
    var s := run + unit;
    assert s[0] == run[0];
    NormalizedNoop(s);
    NormalizedDistance(s);
  }

  /** A number read as kilometres. */
  lemma KilometresOf(s: string, run: string, v: Number)
    requires RunBeforeLiteral(s, IsDigitOrComma, "km") == Some(run)
    requires ParseFloat(ReplaceFirst(run, ',', '.')) == v
    ensures DistanceOfNormalized(s) == Scale(v, 1000.0)
  {
  }

  /** A number read as metres, when no kilometres match. */
  lemma MetresOf(s: string, run: string, v: Number)
    requires RunBeforeLiteral(s, IsDigitOrComma, "km") == None
    requires RunBeforeLiteral(s, IsDigitOrComma, "m") == Some(run)
    requires ParseFloat(ReplaceFirst(run, ',', '.')) == v
    ensures DistanceOfNormalized(s) == v
  {
  }

  lemma NormalizedDistance(s: string)
    requires Lower(Trim(s)) == s
    ensures ParseDistance(s) == DistanceOfNormalized(s)
  {
  }

  /** A digit string has no comma to replace. */
  lemma ParseDigitRun(ds: string)
    requires ds != [] && AllDigits(ds)
    ensures ParseFloat(ReplaceFirst(ds, ',', '.')) == Finite(DigitsValue(ds) as real)
  {
    assert ',' !in ds;
    ParseFloatDigits(ds);
  }

  /** `<digits>km` is that many thousand metres. */
  lemma DistanceKilometres(ds: string)
    requires ds != [] && AllDigits(ds)
    ensures ParseDistance(ds + "km") == Finite(DigitsValue(ds) as real * 1000.0)
  {
    NumberWithUnit(ds, "km");
    KilometreDigits(ds);
    ScaledDistance(ds + "km", DigitsValue(ds) as real);
  }

  lemma KilometreDigits(ds: string)
    requires ds != [] && AllDigits(ds)
    ensures DistanceOfNormalized(ds + "km") == Scale(Finite(DigitsValue(ds) as real), 1000.0)
  {
    LeadingRun(ds, "km", [], IsDigitOrComma);
    assert ds + "km" + [] == ds + "km";
    ParseDigitRun(ds);
    KilometresOf(ds + "km", ds, Finite(DigitsValue(ds) as real));
  }

  /** `<digits>m` is that many metres. */
  lemma DistanceMetres(ds: string)
    requires ds != [] && AllDigits(ds)
    ensures ParseDistance(ds + "m") == Finite(DigitsValue(ds) as real)
  {
    NumberWithUnit(ds, "m");
    MetreDigits(ds);
  }

  lemma MetreDigits(ds: string)
    requires ds != [] && AllDigits(ds)
    ensures DistanceOfNormalized(ds + "m") == Finite(DigitsValue(ds) as real)
  {
    NoKilometres(ds);
    LeadingRun(ds, "m", [], IsDigitOrComma);
    assert ds + "m" + [] == ds + "m";
    ParseDigitRun(ds);
    MetresOf(ds + "m", ds, Finite(DigitsValue(ds) as real));
  }

  lemma NoKilometres(ds: string)
    requires ds != [] && AllDigits(ds)
    ensures RunBeforeLiteral(ds + "m", IsDigitOrComma, "km") == None
  {
    var s := ds + "m";
    forall q | 0 <= q < |s| ensures !LiteralMatcher(s, IsDigitOrComma, "km")(q) {
      if q < |ds| {
        SpanIs(s, q, IsDigitOrComma, |ds|);
        SpanIs(s, |ds|, IsSpace, |ds|);
      }
    }
  }

  /** `<a>,<b>km`: the comma is a decimal separator. */
  lemma DistanceDecimalComma(a: string, b: string)
    requires a != [] && AllDigits(a) && AllDigits(b)
    ensures ParseDistance(a + "," + b + "km") == Finite(DecimalValue(a, b) * 1000.0)
  {
    NumberWithUnit(a + "," + b, "km");
    KilometreDecimal(a, b);
    ScaledDistance(a + "," + b + "km", DecimalValue(a, b));
  }

  lemma KilometreDecimal(a: string, b: string)
    requires a != [] && AllDigits(a) && AllDigits(b)
    ensures DistanceOfNormalized(a + "," + b + "km") == Scale(Finite(DecimalValue(a, b)), 1000.0)
  {
    var run := a + "," + b;
    LeadingRun(run, "km", [], IsDigitOrComma);
    assert run + "km" + [] == run + "km";
    ReplaceFirstAfter(a, ',', '.', b);
    ParseFloatPoint(a, b);
    KilometresOf(run + "km", run, Finite(DecimalValue(a, b)));
  }

  lemma ReplaceFirstAfter(a: string, from: char, to: char, b: string)
    requires from !in a
    ensures ReplaceFirst(a + [from] + b, from, to) == a + [to] + b
  {
    if a != [] {
      assert (a + [from] + b)[1..] == a[1..] + [from] + b;
      ReplaceFirstAfter(a[1..], from, to, b);
    }
  }

  /**
   * `<a>.<b>km`: a point is not part of the number pattern, so the leftmost
   * match starts after it and the distance is b thousand metres ("1.5km" is 5000).
   */
  lemma DistancePointIgnored(a: string, b: string)
    requires a != [] && AllDigits(a) && b != [] && AllDigits(b)
    ensures ParseDistance(a + "." + b + "km") == Finite(DigitsValue(b) as real * 1000.0)
  {
    KilometresAfterPoint(a, b);
    PointRun(a, b);
    KilometreChain(a + "." + b, DigitsValue(b) as real);
  }

  lemma PointRun(a: string, b: string)
    requires AllDigits(a) && AllDigits(b)
    ensures forall k | 0 <= k < |a + "." + b| :: IsDecimalChar((a + "." + b)[k])
  {}

  lemma KilometreChain(run: string, v: real)
    requires run != [] && forall k | 0 <= k < |run| :: IsDecimalChar(run[k])
    requires DistanceOfNormalized(run + "km") == Scale(Finite(v), 1000.0)
    ensures ParseDistance(run + "km") == Finite(v * 1000.0)
  {
    NumberWithUnit(run, "km");
    ScaledDistance(run + "km", v);
  }

  lemma ScaledDistance(s: string, v: real)
    requires ParseDistance(s) == DistanceOfNormalized(s) && DistanceOfNormalized(s) == Scale(Finite(v), 1000.0)
    ensures ParseDistance(s) == Finite(v * 1000.0)
  {
  }

  lemma KilometresAfterPoint(a: string, b: string)
    requires a != [] && AllDigits(a) && b != [] && AllDigits(b)
    ensures DistanceOfNormalized(a + "." + b + "km") == Scale(Finite(DigitsValue(b) as real), 1000.0)
  {
    RunAfterSeparator(a, '.', b, "km", IsDigitOrComma);
    ParseDigitRun(b);
    KilometresOf(a + "." + b + "km", b, Finite(DigitsValue(b) as real));
  }

  /** Without an `m` or `M` the text has no distance, which reads as 0. */
  lemma DistanceWithoutUnit(s: string)
    requires forall k | 0 <= k < |s| :: LowerChar(s[k]) != 'm'
    ensures ParseDistance(s) == Finite(0.0)
  {
    var n := Lower(Trim(s));
    forall k | 0 <= k < |n| ensures n[k] != 'm' {
      assert n[k] == LowerChar(s[TrimStartIndex(s) + k]);
    }
    NoMetreMatch(n, "km");
    NoMetreMatch(n, "m");
  }

  lemma NoMetreMatch(n: string, lit: string)
    requires forall k | 0 <= k < |n| :: n[k] != 'm'
    requires lit == "km" || lit == "m"
    ensures RunBeforeLiteral(n, IsDigitOrComma, lit) == None
  {
    forall q: nat ensures !LiteralMatcher(n, IsDigitOrComma, lit)(q) {
      NoMetreAt(n, lit, q);
    }
  }

  lemma NoMetreAt(n: string, lit: string, q: nat)
    requires forall k | 0 <= k < |n| :: n[k] != 'm'
    requires lit == "km" || lit == "m"
    ensures !RunThenLiteralAt(n, q, IsDigitOrComma, lit)
  {
    if q < |n| {
      var w := Span(n, Span(n, q, IsDigitOrComma), IsSpace);
      if w + |lit| <= |n| {
        assert n[w..w + |lit|][|lit| - 1] == n[w + |lit| - 1];
      }
    }
  }

  /**
   * parseTime: 60 times the digits before the leftmost `'` plus the digits
   * before the leftmost `"`; each part is optional.
   */
  function TimeSeconds(timeStr: string): (seconds: nat)
    ensures '\'' !in timeStr && '"' !in timeStr ==> seconds == 0
  {
    var normalized := Trim(timeStr);
    var minutes := RunBeforeLiteral(normalized, IsDigit, "'");
    var secs := RunBeforeLiteral(normalized, IsDigit, "\"");
    MarksComeFromInput(timeStr, normalized);
    (if minutes.Some? then DigitsValue(minutes.value) * 60 else 0)
    + (if secs.Some? then DigitsValue(secs.value) else 0)
  }

  lemma MarksComeFromInput(s: string, t: string)
    requires t == Trim(s)
    ensures '\'' !in s ==> !Contains(t, "'")
    ensures '"' !in s ==> !Contains(t, "\"")
  {
    var a := TrimStartIndex(s);
    if '\'' !in s {
      forall i: nat | i + 1 <= |t| ensures !OccursAt(t, "'", i) {
        assert t[i] == s[a + i];
      }
    }
    if '"' !in s {
      forall i: nat | i + 1 <= |t| ensures !OccursAt(t, "\"", i) {
        assert t[i] == s[a + i];
      }
    }
  }

  lemma MarkAbsent(s: string, c: char)
    requires c !in s
    ensures !Contains(s, [c])
  {
    forall i: nat | i + 1 <= |s| ensures !OccursAt(s, [c], i) {
      assert s[i] in s;
    }
  }

  /** The same computation as the source writes it, accumulating into `seconds`. */
  method ParseTime(timeStr: string) returns (seconds: nat)
    ensures seconds == TimeSeconds(timeStr)
  {
    var normalized := Trim(timeStr);
    var minutesMatch := RunBeforeLiteral(normalized, IsDigit, "'");
    var secondsMatch := RunBeforeLiteral(normalized, IsDigit, "\"");
    seconds := 0;
    if minutesMatch.Some? {
      seconds := seconds + DigitsValue(minutesMatch.value) * 60;
    }
    if secondsMatch.Some? {
      seconds := seconds + DigitsValue(secondsMatch.value);
    }
  }

  /** One or more digits, as `\d+` takes them. */
  predicate DigitRun(s: string) {
    s != [] && AllDigits(s)
  }

  /** A duration written `M'S"`, each part a run of digits. */
  function MinSec(mm: string, ss: string): string {
    mm + "'" + ss + "\""
  }

  /** `M'S"` reads as M * 60 + S seconds, whatever digits M and S are written with. */
  lemma TimeOfMinSec(mm: string, ss: string)
    requires DigitRun(mm) && DigitRun(ss)
    ensures TimeSeconds(MinSec(mm, ss)) == 60 * DigitsValue(mm) + DigitsValue(ss)
  {
    MinSecTrimmed(mm, ss);
    MinutesOfMinSec(mm, ss);
    SecondsOfMinSec(mm, ss);
  }

  lemma MinSecTrimmed(mm: string, ss: string)
    requires DigitRun(mm)
    ensures Trim(MinSec(mm, ss)) == MinSec(mm, ss)
  {
    var t := MinSec(mm, ss);
    assert t[0] == mm[0];
    TrimNoop(t);
  }

  lemma MinutesOfMinSec(mm: string, ss: string)
    requires DigitRun(mm)
    ensures RunBeforeLiteral(MinSec(mm, ss), IsDigit, "'") == Some(mm)
  {
    LeadingRun(mm, "'", ss + "\"", IsDigit);
    assert MinSec(mm, ss) == mm + "'" + (ss + "\"");
  }

  lemma SecondsOfMinSec(mm: string, ss: string)
    requires DigitRun(mm) && DigitRun(ss)
    ensures RunBeforeLiteral(MinSec(mm, ss), IsDigit, "\"") == Some(ss)
  {
    RunAfterSeparator(mm, '\'', ss, "\"", IsDigit);
    assert MinSec(mm, ss) == mm + ['\''] + ss + "\"";
  }

  /** `M'` reads as M minutes, whatever digits M is written with. */
  lemma TimeOfMinutes(mm: string)
    requires DigitRun(mm)
    ensures TimeSeconds(mm + "'") == 60 * DigitsValue(mm)
  {
    var t := mm + "'";
    assert t[0] == mm[0];
    TrimNoop(t);
    LeadingRun(mm, "'", [], IsDigit);
    assert t + [] == t;
    forall k | 0 <= k < |t| ensures t[k] != '"' {
      if k < |mm| {
        assert t[k] == mm[k];
      }
    }
    MarkAbsent(t, '"');
  }

  /** `S"` reads back as S seconds: the minutes part is optional. */
  lemma TimeOfSeconds(s: string)
    requires DigitRun(s)
    ensures TimeSeconds(s + "\"") == DigitsValue(s)
  {
    var t := s + "\"";
    assert t[0] == s[0];
    TrimNoop(t);
    LeadingRun(s, "\"", [], IsDigit);
    assert t + [] == t;
    forall k | 0 <= k < |t| ensures t[k] != '\'' {
      if k < |s| {
        assert t[k] == s[k];
      }
    }
    MarkAbsent(t, '\'');
  }

  /** How each code is searched for in the upper-cased text. */
  function Marker(c: IntensityType): string {
    match c
    case Ca => "CA"
    case _ => CodeName(c)
  }

  /** The order in which extractIntensity tries the codes. */
  function Rank(c: IntensityType): nat {
    match c
    case TS => 0
    case TL => 1
    case TR => 2
    case Ca => 3
    case PA => 4
    case RC => 5
    case PL => 6
  }

  /** The source also tests `CAMINAR`, which never matters: it contains `CA`. */
  lemma CaminarRedundant(u: string)
    ensures (Contains(u, "CA") || Contains(u, "CAMINAR")) == Contains(u, "CA")
  {
    if Contains(u, "CAMINAR") {
      ContainsPrefixOf(u, "CAMINAR", "CA");
    }
  }

  /**
   * extractIntensity: the first code, in the fixed order TS, TL, TR, Ca, PA,
   * RC, PL, that occurs in the upper-cased text; none when no code occurs.
   */
  function ExtractIntensity(text: string): (code: Option<IntensityType>)
    ensures code.Some? ==> Contains(Upper(text), Marker(code.value))
    ensures code.None? <==> forall c :: !Contains(Upper(text), Marker(c))
  {
    var upper := Upper(text);
    CaminarRedundant(upper);
    if Contains(upper, "TS") then Some(TS)
    else if Contains(upper, "TL") then Some(TL)
    else if Contains(upper, "TR") then Some(TR)
    else if Contains(upper, "CA") || Contains(upper, "CAMINAR") then Some(Ca)
    else if Contains(upper, "PA") then Some(PA)
    else if Contains(upper, "RC") then Some(RC)
    else if Contains(upper, "PL") then Some(PL)
    else None
  }

  /**
   * The code found occurs in the upper-cased text and no code tried before it
   * does; none is found exactly when no code occurs.
   */
  lemma ExtractIntensityFirst(text: string)
    ensures var code := ExtractIntensity(text);
      && (code.Some? ==> Contains(Upper(text), Marker(code.value)))
      && (code.Some? ==> forall c :: Rank(c) < Rank(code.value) ==> !Contains(Upper(text), Marker(c)))
      && (code.None? <==> forall c :: !Contains(Upper(text), Marker(c)))
  {
    CaminarRedundant(Upper(text));
  }

  /** The search ignores case: lower-casing the text first changes nothing. */
  lemma ExtractIntensityIgnoresCase(text: string)
    ensures ExtractIntensity(Lower(text)) == ExtractIntensity(text)
  {
    assert Upper(Lower(text)) == Upper(text);
  }
}
