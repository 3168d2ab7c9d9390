/**
 * The single-step classifier and the combined-step splitter of src/parser.ts.
 * As in Tokens, each regular expression is a "matches at p" function and an
 * unanchored match takes the leftmost position.
 */
module Steps {
  import opened Wrappers
  import opened Text
  import opened Types
  import opened Tokens

  predicate HasDigit(t: string) { exists k | 0 <= k < |t| :: IsDigit(t[k]) }

  /** `word` (lower-case ASCII) at `p`, ignoring case. */
  predicate WordAt(t: string, p: nat, word: string) {
    p + |word| <= |t| && Lower(t[p..p + |word|]) == word
  }

  /** `\.?\s*\d` at `a`: the position of the digit. */
  function DigitAfterPoint(t: string, a: nat): (d: Option<nat>)
    requires a <= |t|
    ensures d.Some? ==> a <= d.value < |t| && IsDigit(t[d.value])
  {
    var b := if a < |t| && t[a] == '.' then a + 1 else a;
    var c := Span(t, b, IsSpace);
    if c < |t| && IsDigit(t[c]) then Some(c) else None
  }

  /**
   * End of `\d+['"]?\s*\d*"?` at a digit `p`.  Everything after the first
   * run is optional, so the greedy attempt is the match.
   */
  function TimeTokenEnd(t: string, p: nat): (e: nat)
    requires p < |t| && IsDigit(t[p])
    ensures p < e <= |t|
  {
    var e1 := Span(t, p, IsDigit);
    var e2 := if e1 < |t| && (t[e1] == '\'' || t[e1] == '"') then e1 + 1 else e1;
    var e3 := Span(t, e2, IsSpace);
    var e4 := Span(t, e3, IsDigit);
    if e4 < |t| && t[e4] == '"' then e4 + 1 else e4
  }

  function DigitMatcher(t: string): nat -> bool {
    (p: nat) => p < |t| && IsDigit(t[p])
  }

  /** The capture of the leftmost `(\d+['"]?\s*\d*"?)`: it starts at the first digit. */
  function FirstTimeToken(t: string): (token: Option<string>)
    ensures token.None? <==> !HasDigit(t)
    ensures token.Some? ==> token.value != [] && IsDigit(token.value[0])
    ensures token.Some? ==> forall k | 0 <= k < |token.value| :: token.value[k] in t
  {
    match FindFrom(DigitMatcher(t), 0, |t|)
    case None =>
      forall k | 0 <= k < |t| ensures !IsDigit(t[k]) {
        assert !DigitMatcher(t)(k);
      }
      None
    case Some(p) => Some(t[p..TimeTokenEnd(t, p)])
  }

  /** `^PL\.?\s*\d`, ignoring case. */
  predicate PauseHeader(t: string) {
    WordAt(t, 0, "pl") && DigitAfterPoint(t, 2).Some?
  }

  /** `^rec\.?\s*\d`, ignoring case. */
  predicate RecHeader(t: string) {
    WordAt(t, 0, "rec") && DigitAfterPoint(t, 3).Some?
  }

  /** `^rest`, ignoring case. */
  predicate RestPrefix(t: string) {
    WordAt(t, 0, "rest")
  }

  predicate RecAt(t: string, p: nat) {
    WordAt(t, p, "rec") && DigitAfterPoint(t, p + 3).Some?
  }

  function RecMatcher(t: string): nat -> bool {
    (p: nat) => RecAt(t, p)
  }

  /** The duration captured by the leftmost `rec\.?\s*(\d+['"]?\s*\d*"?)`, ignoring case. */
  function FindRecTime(t: string): (token: Option<string>)
    ensures token.None? <==> forall p | 0 <= p < |t| :: !RecAt(t, p)
    ensures token.Some? ==> token.value != [] && IsDigit(token.value[0])
  {
    match FindFrom(RecMatcher(t), 0, |t|)
    case None =>
      forall p | 0 <= p < |t| ensures !RecAt(t, p) {
        assert !RecMatcher(t)(p);
      }
      None
    case Some(p) =>
      var d := DigitAfterPoint(t, p + 3).value;
      Some(t[d..TimeTokenEnd(t, d)])
  }

  /**
   * End of `[\d,]+(?:\.\d+)?\s*(km|m)` at `p`, ignoring case.  No shorter
   * choice of any part can succeed where the greedy one fails: it would leave
   * a digit, a comma, a point or a space where the unit must start.
   */
  function DistanceMatchEnd(t: string, p: nat): (e: Option<nat>)
    ensures e.Some? ==> p < e.value <= |t| && IsDigitOrComma(t[p]) && LowerChar(t[e.value - 1]) == 'm'
  {
    if !(p < |t| && IsDigitOrComma(t[p])) then None
    else UnitEnd(t, Span(t, NumberEnd(t, p), IsSpace))
  }

  /** End of `[\d,]+(?:\.\d+)?` at `p`. */
  function NumberEnd(t: string, p: nat): (e: nat)
    requires p < |t| && IsDigitOrComma(t[p])
    ensures p < e <= |t|
  {
    var e1 := Span(t, p, IsDigitOrComma);
    if e1 + 1 < |t| && t[e1] == '.' && IsDigit(t[e1 + 1]) then Span(t, e1 + 1, IsDigit) else e1
  }

  /** End of `(km|m)` at `p`, ignoring case: `km` is tried first. */
  function UnitEnd(t: string, p: nat): (e: Option<nat>)
    ensures e.Some? ==> p < e.value <= |t| && LowerChar(t[e.value - 1]) == 'm'
  {
    if WordAt(t, p, "km") then
      WordAtLast(t, p, "km");
      Some(p + 2)
    else if WordAt(t, p, "m") then
      WordAtLast(t, p, "m");
      Some(p + 1)
    else None
  }

  lemma WordAtLast(t: string, p: nat, word: string)
    requires word != [] && WordAt(t, p, word)
    ensures LowerChar(t[p + |word| - 1]) == word[|word| - 1]
  {
    assert Lower(t[p..p + |word|])[|word| - 1] == LowerChar(t[p + |word| - 1]);
  }

  lemma NotWordAt(t: string, p: nat, word: string, k: nat)
    requires p + |word| <= |t| && k < |word| && LowerChar(t[p + k]) != word[k]
    ensures !WordAt(t, p, word)
  {
    assert Lower(t[p..p + |word|])[k] == LowerChar(t[p + k]);
  }

  function DistanceMatcher(t: string): nat -> bool {
    (p: nat) => DistanceMatchEnd(t, p).Some?
  }

  /** The whole leftmost match of the distance pattern. */
  function FindDistance(t: string): (m: Option<string>)
    ensures m.None? <==> forall p | 0 <= p < |t| :: DistanceMatchEnd(t, p).None?
    ensures m.Some? ==> m.value != [] && IsDigitOrComma(m.value[0]) && LowerChar(m.value[|m.value| - 1]) == 'm'
  {
    match FindFrom(DistanceMatcher(t), 0, |t|)
    case None =>
      forall p | 0 <= p < |t| ensures DistanceMatchEnd(t, p).None? {
        assert !DistanceMatcher(t)(p);
      }
      None
    case Some(p) => Some(t[p..DistanceMatchEnd(t, p).value])
  }

  /** An intensity code together with its pace-range label. */
  function IntensityOf(code: Option<IntensityType>): (i: Option<Intensity>)
    ensures i.Some? <==> code.Some?
    ensures i.Some? ==> i.value.code == code.value && i.value.paceRange == Some(PaceRange(code.value))
  {
    match code
    case None => None
    case Some(c) => Some(Intensity(c, Some(PaceRange(c))))
  }

  function RestOf(seconds: nat): Step {
    Step(Rest, None, Some(seconds), None, None)
  }

  /**
   * parseStep, on the trimmed text, in the source's order: a pause header; a
   * recovery header or a `rest` prefix; a distance; any other number as a
   * duration; otherwise nothing.
   */
  function ParseStep(stepText: string): (step: Option<Step>)
    ensures step.Some? ==> step.value.kind == Rest || step.value.kind == Run
    ensures step.Some? ==> step.value.lapButtonPress.None?
    ensures step.Some? && step.value.kind == Rest ==> step.value.duration.Some? && step.value.distance.None?
    ensures step.Some? ==> (step.value.distance.Some? <==> step.value.duration.None?)
  {
    var trimmed := Trim(stepText);
    if PauseHeader(trimmed) && FirstTimeToken(trimmed).Some? then
      Some(RestOf(TimeSeconds(FirstTimeToken(trimmed).value)))
    else if RecHeader(trimmed) || RestPrefix(trimmed) then
      match FindRecTime(trimmed)
      case Some(token) => Some(RestOf(TimeSeconds(token)))
      case None => None
    else
      match FindDistance(trimmed)
      case Some(m) => Some(Step(Run, Some(ParseDistance(m)), None, IntensityOf(ExtractIntensity(trimmed)), None))
      case None =>
        match FirstTimeToken(trimmed)
        case Some(token) =>
          var intensity := ExtractIntensity(trimmed);
          Some(Step(if intensity == Some(PL) then Rest else Run, None, Some(TimeSeconds(token)), IntensityOf(intensity), None))
        case None => None
  }

  /**
   * When parseStep gives nothing: no pause header, and then no recovery time
   * after a `rec`/`rest` header, or otherwise neither a distance nor any digit.
   * An intensity, when there is one, is the one found in the whole text.
   */
  lemma ParseStepCases(stepText: string)
    ensures var t := Trim(stepText);
      ParseStep(stepText).None? <==>
        !PauseHeader(t) &&
        if RecHeader(t) || RestPrefix(t) then FindRecTime(t).None?
        else FindDistance(t).None? && !HasDigit(t)
    ensures var step := ParseStep(stepText);
      step.Some? && step.value.intensity.Some? ==>
        step.value.intensity == IntensityOf(ExtractIntensity(Trim(stepText)))
  {
  }

  /** Where the groups of the combined-step pattern lie: `[0, distanceEnd)`, `[codeStart, codeStart + 2)` and `[recStart, recEnd)`. */
  datatype Combined = Combined(distanceEnd: nat, codeStart: nat, recStart: nat, recEnd: nat)

  /** `\s+([A-Z]{2})\s` at `e`, ignoring case: the start of the two letters. */
  function CodeAfter(t: string, e: nat): (f: Option<nat>)
    requires e <= |t|
    ensures f.Some? ==> e < f.value && f.value + 2 < |t|
    ensures f.Some? ==> IsAsciiLetter(t[f.value]) && IsAsciiLetter(t[f.value + 1]) && IsSpace(t[f.value + 2])
  {
    if !(e < |t| && IsSpace(t[e])) then None
    else
      var f := Span(t, e, IsSpace);
      if f + 2 < |t| && IsAsciiLetter(t[f]) && IsAsciiLetter(t[f + 1]) && IsSpace(t[f + 2]) then Some(f) else None
  }

  /** `\s*(Rec\.?\s*\d+['"]?\s*\d*"?)` at `p`, ignoring case: the bounds of the group. */
  function RecoveryAfter(t: string, p: nat): (r: Option<(nat, nat)>)
    requires p <= |t|
    ensures r.Some? ==> p <= r.value.0 && r.value.0 + 3 < r.value.1 <= |t| && WordAt(t, r.value.0, "rec")
  {
    var g := Span(t, p, IsSpace);
    if !WordAt(t, g, "rec") then None
    else
      match DigitAfterPoint(t, g + 3)
      case None => None
      case Some(d) => Some((g, TimeTokenEnd(t, d)))
  }

  /**
   * `^([\d,]+(?:\.\d+)?\s*(?:km|m))\s+([A-Z]{2})\s+(Rec\.?\s*\d+['"]?\s*\d*"?)`,
   * ignoring case.  Every part is greedy and no shorter choice could let a
   * later part match, so the first attempt decides.
   */
  function CombinedMatch(t: string): (c: Option<Combined>)
    ensures c.Some? ==>
      && 0 < c.value.distanceEnd < c.value.codeStart
      && c.value.codeStart + 2 <= c.value.recStart && c.value.recStart + 3 < c.value.recEnd <= |t|
      && IsDigitOrComma(t[0])
      && WordAt(t, c.value.recStart, "rec")
  {
    match DistanceMatchEnd(t, 0)
    case None => None
    case Some(e) => CombinedAfter(t, e)
  }

  /** The code and the recovery after a distance ending at `e`. */
  function CombinedAfter(t: string, e: nat): (c: Option<Combined>)
    requires e <= |t|
    ensures c.Some? ==>
      && c.value.distanceEnd == e < c.value.codeStart
      && c.value.codeStart + 2 <= c.value.recStart && c.value.recStart + 3 < c.value.recEnd <= |t|
      && WordAt(t, c.value.recStart, "rec")
  {
    match CodeAfter(t, e)
    case None => None
    case Some(f) =>
      match RecoveryAfter(t, f + 2)
      case None => None
      case Some(r) => Some(Combined(e, f, r.0, r.1))
  }

  /**
   * splitCombinedSteps: a distance with a unit, a two-letter code and a
   * recovery become `<distance> <code>` and the recovery; anything else is
   * left whole.  Whatever follows the recovery's duration is dropped.
   */
  function SplitCombinedSteps(stepText: string): (parts: seq<string>)
    ensures |parts| == 2 <==> CombinedMatch(stepText).Some?
    ensures CombinedMatch(stepText).None? ==> parts == [stepText]
    ensures |parts| == 2 ==>
      && |parts[0]| >= 4 && IsDigitOrComma(parts[0][0]) && parts[0][|parts[0]| - 3] == ' '
      && WordAt(parts[1], 0, "rec")
  {
    match CombinedMatch(stepText)
    case None => [stepText]
    case Some(c) =>
      RecoveryPartIsRec(stepText, c);
      [RunPart(stepText, c.distanceEnd, c.codeStart), stepText[c.recStart..c.recEnd]]
  }

  /** `${match[1]} ${match[2]}`: the distance with its unit, one space, the code. */
  function RunPart(t: string, distanceEnd: nat, codeStart: nat): (run: string)
    requires 0 < distanceEnd <= codeStart && codeStart + 2 <= |t|
    ensures |run| == distanceEnd + 3 && run[0] == t[0] && run[distanceEnd] == ' '
  {
    t[..distanceEnd] + " " + t[codeStart..codeStart + 2]
  }

  lemma RecoveryPartIsRec(t: string, c: Combined)
    requires c.recStart + 3 < c.recEnd <= |t| && WordAt(t, c.recStart, "rec")
    ensures WordAt(t[c.recStart..c.recEnd], 0, "rec")
  {
    assert t[c.recStart..c.recEnd][0..3] == t[c.recStart..c.recStart + 3];
  }

  /** A two-letter code between single spaces is taken by the code part of the combined pattern. */
  lemma CodeAt(t: string, e: nat)
    requires e + 3 < |t| && t[e] == ' ' && IsAsciiLetter(t[e + 1]) && IsAsciiLetter(t[e + 2]) && t[e + 3] == ' '
    ensures CodeAfter(t, e) == Some(e + 1)
  {
    SpanIs(t, e, IsSpace, e + 1);
  }

  /** ` Rec.` and a written `M'S"` are the recovery group, whatever follows. */
  lemma RecoveryAt(t: string, g: nat, d: nat, r: nat, mm: string, ss: string)
    requires DigitRun(mm) && DigitRun(ss)
    requires 1 <= g && d == g + 4 && r == d + |MinSec(mm, ss)| <= |t|
    requires t[g - 1] == ' ' && t[g..d] == "Rec." && t[d..r] == MinSec(mm, ss)
    ensures RecoveryAfter(t, g - 1) == Some((g, r))
  {
    TokenAt(t, d, r, mm, ss);
    assert t[g] == 'R' && t[g + 3] == '.';
    SpanIs(t, g - 1, IsSpace, g);
    RecWord(t, g);
    SpanIs(t, d, IsSpace, d);
    RecoveryFrom(t, g - 1, g, d, r);
  }

  lemma RecoveryFrom(t: string, p: nat, g: nat, d: nat, r: nat)
    requires p <= |t| && Span(t, p, IsSpace) == g && WordAt(t, g, "rec")
    requires DigitAfterPoint(t, g + 3) == Some(d) && TimeTokenEnd(t, d) == r
    ensures RecoveryAfter(t, p) == Some((g, r))
  {
  }

  /** A written `M'S"` inside a text is taken whole by the time pattern. */
  lemma TokenAt(t: string, d: nat, r: nat, mm: string, ss: string)
    requires DigitRun(mm) && DigitRun(ss)
    requires r == d + |MinSec(mm, ss)| <= |t| && t[d..r] == MinSec(mm, ss)
    ensures d < |t| && IsDigit(t[d]) && TimeTokenEnd(t, d) == r
  {
    var ms := MinSec(mm, ss);
    var pre, tail := t[..d], t[r..];
    assert t == pre + ms + tail;
    TokenOfMinSec(pre, mm, ss, tail);
  }

  lemma RecWord(t: string, g: nat)
    requires g + 4 <= |t| && t[g..g + 4] == "Rec."
    ensures WordAt(t, g, "rec")
  {
    assert t[g..g + 3] == t[g..g + 4][..3];
  }

  /** The split is read off the three groups of the combined pattern. */
  lemma SplitAt(t: string, e: nat, f: nat, g: nat, r: nat)
    requires DistanceMatchEnd(t, 0) == Some(e) && CodeAfter(t, e) == Some(f) && RecoveryAfter(t, f + 2) == Some((g, r))
    ensures SplitCombinedSteps(t) == [t[..e] + " " + t[f..f + 2], t[g..r]]
  {
    CombinedAt(t, e, f, g, r);
  }

  lemma CombinedAt(t: string, e: nat, f: nat, g: nat, r: nat)
    requires DistanceMatchEnd(t, 0) == Some(e) && CodeAfter(t, e) == Some(f) && RecoveryAfter(t, f + 2) == Some((g, r))
    ensures CombinedMatch(t) == Some(Combined(e, f, g, r))
  {
    CombinedAfterAt(t, e, f, g, r);
  }

  lemma CombinedAfterAt(t: string, e: nat, f: nat, g: nat, r: nat)
    requires e <= |t| && CodeAfter(t, e) == Some(f) && RecoveryAfter(t, f + 2) == Some((g, r))
    ensures CombinedAfter(t, e) == Some(Combined(e, f, g, r))
  {
  }

  /**
   * `<digits><unit> <code> Rec.M'S"<tail>` is split into `<digits><unit> <code>`
   * and `Rec.M'S"`: the text after the recovery's duration is dropped.
   */
  lemma SplitDropsTail(ds: string, unit: string, code: string, mm: string, ss: string, tail: string)
    requires DigitRun(mm) && DigitRun(ss)
    requires ds != [] && AllDigits(ds) && (unit == "m" || unit == "km")
    requires |code| == 2 && IsAsciiLetter(code[0]) && IsAsciiLetter(code[1])
    ensures SplitCombinedSteps(ds + unit + " " + code + " Rec." + MinSec(mm, ss) + tail)
         == [ds + unit + " " + code, "Rec." + MinSec(mm, ss)]
  {
    var head, ms := ds + unit, MinSec(mm, ss);
    CombinedText(head, code, ms, tail);
    SplitOfLayout(head + " " + code + " Rec." + ms + tail, ds, unit, |head|, |head| + 8 + |ms|, mm, ss);
  }

  lemma SplitOfLayout(t: string, ds: string, unit: string, e: nat, r: nat, mm: string, ss: string)
    requires DigitRun(mm) && DigitRun(ss)
    requires ds != [] && AllDigits(ds) && (unit == "m" || unit == "km")
    requires e == |ds| + |unit| && r == e + 8 + |MinSec(mm, ss)| <= |t| && t[..e] == ds + unit
    requires t[e] == ' ' && IsAsciiLetter(t[e + 1]) && IsAsciiLetter(t[e + 2]) && t[e + 3] == ' '
    requires t[e + 4..e + 8] == "Rec." && t[e + 8..r] == MinSec(mm, ss)
    ensures SplitCombinedSteps(t) == [t[..e] + " " + t[e + 1..e + 3], t[e + 4..r]]
  {
    DistanceAt(t, ds, unit);
    CodeAt(t, e);
    RecoveryAt(t, e + 4, e + 8, r, mm, ss);
    SplitAt(t, e, e + 1, e + 4, r);
  }

  lemma DistanceAt(t: string, ds: string, unit: string)
    requires ds != [] && AllDigits(ds) && (unit == "m" || unit == "km")
    requires |ds| + |unit| <= |t| && t[..|ds| + |unit|] == ds + unit
    ensures DistanceMatchEnd(t, 0) == Some(|ds| + |unit|)
  {
    var w := t[|ds| + |unit|..];
    assert t == ds + unit + w;
    DistanceEndAtStart(ds, unit, w);
  }

  /** Where the pieces of `<head> <code> Rec.<ms><tail>` lie. */
  lemma CombinedText(head: string, code: string, ms: string, tail: string)
    requires |code| == 2
    ensures var t := head + " " + code + " Rec." + ms + tail; var e := |head|;
      && t[..e] == head
      && t[e] == ' ' && t[e + 1..e + 3] == code && t[e + 1] == code[0] && t[e + 2] == code[1] && t[e + 3] == ' '
      && t[e + 4..e + 8] == "Rec." && t[e + 8..e + 8 + |ms|] == ms && t[e + 4..e + 8 + |ms|] == "Rec." + ms
  {
    var t := head + " " + code + " Rec." + ms + tail;
    var e := |head|;
    assert t == head + (" " + code + " Rec." + ms + tail);
    assert t[e + 4..e + 8 + |ms|] == "Rec." + ms;
  }

  /**
   * A number without a unit before the code, as in `400 TL Rec.1'30"`, does not
   * match the combined pattern, so the text is not split.
   */
  lemma UnitlessNotSplit(ds: string, code: string, rest: string)
    requires ds != [] && AllDigits(ds)
    requires |code| == 2 && IsAsciiLetter(code[0]) && LowerChar(code[0]) != 'k' && LowerChar(code[0]) != 'm'
    ensures SplitCombinedSteps(ds + " " + code + rest) == [ds + " " + code + rest]
  {
    var t := ds + " " + code + rest;
    var n := |ds|;
    assert t[n] == ' ' && t[n + 1] == code[0];
    assert forall k | 0 <= k < n :: t[k] == ds[k];
    NoUnitAfterNumber(t, n);
  }

  lemma NoUnitAfterNumber(t: string, n: nat)
    requires 0 < n && n + 2 < |t| && (forall k | 0 <= k < n :: IsDigit(t[k])) && t[n] == ' '
    requires IsAsciiLetter(t[n + 1]) && LowerChar(t[n + 1]) != 'k' && LowerChar(t[n + 1]) != 'm'
    ensures DistanceMatchEnd(t, 0).None?
  {
    SpanIs(t, 0, IsDigitOrComma, n);
    SpanIs(t, n, IsSpace, n + 1);
    NotWordAt(t, n + 1, "km", 0);
    NotWordAt(t, n + 1, "m", 0);
  }

  /** The time pattern at the start of a written `M'S"` takes all of it, whatever follows. */
  lemma TokenOfMinSec(pre: string, mm: string, ss: string, tail: string)
    requires DigitRun(mm) && DigitRun(ss)
    ensures var t := pre + MinSec(mm, ss) + tail;
      IsDigit(t[|pre|]) && TimeTokenEnd(t, |pre|) == |pre| + |MinSec(mm, ss)|
  {
    var M, S := mm, ss;
    var t := pre + MinSec(mm, ss) + tail;
    var p := |pre|;
    assert t == pre + M + "'" + S + "\"" + tail;
    assert t[p] == M[0];
    SpanIs(t, p, IsDigit, p + |M|);
    assert t[p + |M|] == '\'';
    assert t[p + |M| + 1] == S[0];
    SpanIs(t, p + |M| + 1, IsSpace, p + |M| + 1);
    SpanIs(t, p + |M| + 1, IsDigit, p + |M| + 1 + |S|);
    assert t[p + |M| + 1 + |S|] == '"';
  }

  /** The text after a header ending in a point, a written `M'S"`, is taken whole by the time pattern. */
  lemma TokenAfterHeader(head: string, mm: string, ss: string)
    requires DigitRun(mm) && DigitRun(ss)
    ensures var t := head + MinSec(mm, ss);
      IsDigit(t[|head|]) && t[|head|..TimeTokenEnd(t, |head|)] == MinSec(mm, ss)
  {
    var t := head + MinSec(mm, ss);
    TokenOfMinSec(head, mm, ss, []);
    assert t + [] == t;
    assert t[|head|..|t|] == MinSec(mm, ss);
  }

  lemma HeaderTrimmed(head: string, mm: string, ss: string)
    requires head != [] && !IsSpace(head[0])
    ensures Trim(head + MinSec(mm, ss)) == head + MinSec(mm, ss)
  {
    var t := head + MinSec(mm, ss);
    assert t[0] == head[0];
    assert t[|t| - 1] == '"';
    TrimNoop(t);
  }

  lemma DigitAfterHeader(head: string, mm: string, ss: string)
    requires DigitRun(mm) && DigitRun(ss)
    requires head != [] && head[|head| - 1] == '.'
    ensures DigitAfterPoint(head + MinSec(mm, ss), |head| - 1) == Some(|head|)
  {
    var t := head + MinSec(mm, ss);
    assert t[|head| - 1] == '.';
    assert t[|head|] == mm[0];
    SpanIs(t, |head|, IsSpace, |head|);
  }

  /** When the rest of the text is a recovery, parseStep gives a rest step of its duration. */
  lemma RecoveryStep(t: string, token: string)
    requires Trim(t) == t && !PauseHeader(t) && RecHeader(t) && FindRecTime(t) == Some(token)
    ensures ParseStep(t) == Some(RestOf(TimeSeconds(token)))
  {
  }

  /** `Rec.M'S"` is a rest step of parseTime(`M'S"`) = M * 60 + S seconds. */
  lemma RecoveryOfMinSec(mm: string, ss: string)
    requires DigitRun(mm) && DigitRun(ss)
    ensures ParseStep("Rec." + MinSec(mm, ss)) == Some(RestOf(TimeSeconds(MinSec(mm, ss))))
    ensures ParseStep("Rec." + MinSec(mm, ss)).value.duration.value == 60 * DigitsValue(mm) + DigitsValue(ss)
  {
    var t := "Rec." + MinSec(mm, ss);
    RecoveryText(t, mm, ss);
    RecoveryStep(t, MinSec(mm, ss));
    TimeOfMinSec(mm, ss);
  }

  lemma RecoveryText(t: string, mm: string, ss: string)
    requires DigitRun(mm) && DigitRun(ss)
    requires t == "Rec." + MinSec(mm, ss)
    ensures Trim(t) == t && !PauseHeader(t) && RecHeader(t) && FindRecTime(t) == Some(MinSec(mm, ss))
  {
    HeaderTrimmed("Rec.", mm, ss);
    DigitAfterHeader("Rec.", mm, ss);
    TokenAfterHeader("Rec.", mm, ss);
    RecFirst(t);
  }

  lemma RecFirst(t: string)
    requires |t| >= 3 && t[0..3] == "Rec" && DigitAfterPoint(t, 3).Some?
    ensures !PauseHeader(t) && RecHeader(t)
    ensures FindRecTime(t) == Some(t[DigitAfterPoint(t, 3).value..TimeTokenEnd(t, DigitAfterPoint(t, 3).value)])
  {
    assert t[0..2] == t[0..3][0..2];
    assert RecAt(t, 0);
    FindFromIs(RecMatcher(t), 0, |t|, 0);
  }

  /** When the text is a pause header, parseStep gives a rest step of the first duration in it. */
  lemma PauseStep(t: string, token: string)
    requires Trim(t) == t && PauseHeader(t) && FirstTimeToken(t) == Some(token)
    ensures ParseStep(t) == Some(RestOf(TimeSeconds(token)))
  {
  }

  /** `PL.M'S"` is a rest step of M * 60 + S seconds, with no intensity. */
  lemma PauseOfMinSec(mm: string, ss: string)
    requires DigitRun(mm) && DigitRun(ss)
    ensures ParseStep("PL." + MinSec(mm, ss)) == Some(RestOf(TimeSeconds(MinSec(mm, ss))))
    ensures ParseStep("PL." + MinSec(mm, ss)).value.duration.value == 60 * DigitsValue(mm) + DigitsValue(ss)
  {
    var t := "PL." + MinSec(mm, ss);
    PauseText(t, mm, ss);
    PauseStep(t, MinSec(mm, ss));
    TimeOfMinSec(mm, ss);
  }

  lemma PauseText(t: string, mm: string, ss: string)
    requires DigitRun(mm) && DigitRun(ss)
    requires t == "PL." + MinSec(mm, ss)
    ensures Trim(t) == t && PauseHeader(t) && FirstTimeToken(t) == Some(MinSec(mm, ss))
  {
    HeaderTrimmed("PL.", mm, ss);
    DigitAfterHeader("PL.", mm, ss);
    TokenAfterHeader("PL.", mm, ss);
    PauseFirst(t);
  }

  lemma PauseFirst(t: string)
    requires |t| >= 4 && t[0..3] == "PL." && IsDigit(t[3])
    ensures WordAt(t, 0, "pl")
    ensures FirstTimeToken(t) == Some(t[3..TimeTokenEnd(t, 3)])
  {
    assert t[0..2] == t[0..3][0..2];
    FindFromIs(DigitMatcher(t), 0, |t|, 3);
  }

  /** Without a digit or a comma there is no step. */
  lemma NoDigitNoStep(s: string)
    requires !HasDigit(Trim(s)) && ',' !in Trim(s)
    ensures ParseStep(s) == None
  {
    var t := Trim(s);
    forall p | 0 <= p < |t| ensures DistanceMatchEnd(t, p).None? {
      assert t[p] in t;
    }
  }

  /**
   * A `rest` prefix with no `rec` anywhere, in any case, gives no step: the
   * recovery pattern is searched for and fails.
   */
  lemma RestWithoutRecovery(s: string)
    requires RestPrefix(Trim(s))
    requires forall p | 0 <= p < |Trim(s)| :: !WordAt(Trim(s), p, "rec")
    ensures ParseStep(s) == None
  {
    var t := Trim(s);
    RestIsNoPause(t);
    assert FindRecTime(t).None?;
    NoRecoveryNoStep(s);
  }

  lemma RestIsNoPause(t: string)
    requires RestPrefix(t)
    ensures !PauseHeader(t)
  {
    assert Lower(t[0..2])[0] == LowerChar(t[0]) == Lower(t[0..4])[0];
  }

  lemma NoRecoveryNoStep(s: string)
    requires !PauseHeader(Trim(s)) && RestPrefix(Trim(s)) && FindRecTime(Trim(s)).None?
    ensures ParseStep(s) == None
  {
  }

  /**
   * A `rest` prefix is not always fruitless: the recovery pattern is not
   * anchored, so a later `Rec.` with a duration still gives a rest step.
   */
  lemma RestThenRecovery(mm: string, ss: string)
    requires DigitRun(mm) && DigitRun(ss)
    ensures ParseStep("rest Rec." + MinSec(mm, ss)) == Some(RestOf(TimeSeconds(MinSec(mm, ss))))
  {
    var t := "rest Rec." + MinSec(mm, ss);
    RestRecoveryText(t, mm, ss);
    RestIsNoPause(t);
    RecoveryAnywhere(t, MinSec(mm, ss));
  }

  lemma RestRecoveryText(t: string, mm: string, ss: string)
    requires DigitRun(mm) && DigitRun(ss)
    requires t == "rest Rec." + MinSec(mm, ss)
    ensures Trim(t) == t && RestPrefix(t) && FindRecTime(t) == Some(MinSec(mm, ss))
  {
    HeaderTrimmed("rest Rec.", mm, ss);
    DigitAfterHeader("rest Rec.", mm, ss);
    TokenAfterHeader("rest Rec.", mm, ss);
    RecAfterRest(t);
  }

  lemma RecAfterRest(t: string)
    requires |t| >= 10 && t[0..9] == "rest Rec." && IsDigit(t[9])
    ensures RestPrefix(t)
    ensures FindRecTime(t) == Some(t[9..TimeTokenEnd(t, 9)])
  {
    NoRecInRest(t);
    assert t[0..4] == t[0..9][0..4];
    assert t[5..8] == t[0..9][5..8];
    assert RecAt(t, 5);
    FindFromIs(RecMatcher(t), 0, |t|, 5);
  }

  lemma NoRecInRest(t: string)
    requires |t| >= 9 && t[0..9] == "rest Rec."
    ensures forall p | 0 <= p < 5 :: !RecAt(t, p)
  {
    var h := t[0..9];
    assert t[1] == h[1] && t[2] == h[2] && t[3] == h[3] && t[4] == h[4];
    NotWordAt(t, 0, "rec", 2);
    NotWordAt(t, 1, "rec", 0);
    NotWordAt(t, 2, "rec", 0);
    NotWordAt(t, 3, "rec", 0);
    NotWordAt(t, 4, "rec", 0);
  }

  /** A trimmed text that is no pause and whose recovery pattern matches is a rest step of that duration. */
  lemma RecoveryAnywhere(t: string, token: string)
    requires Trim(t) == t && !PauseHeader(t) && RestPrefix(t) && FindRecTime(t) == Some(token)
    ensures ParseStep(t) == Some(RestOf(TimeSeconds(token)))
  {
  }

  /** A text that starts with a digit is neither a pause, a recovery nor a `rest`. */
  lemma DigitFirst(t: string)
    requires t != [] && IsDigitOrComma(t[0])
    ensures !PauseHeader(t) && !RecHeader(t) && !RestPrefix(t)
  {
    if |t| >= 2 { NotWordAt(t, 0, "pl", 0); }
    if |t| >= 3 { NotWordAt(t, 0, "rec", 0); }
    if |t| >= 4 { NotWordAt(t, 0, "rest", 0); }
  }

  /** The distance pattern at the start of `<digits><unit>...` ends right after the unit. */
  lemma DistanceEndAtStart(ds: string, unit: string, w: string)
    requires ds != [] && AllDigits(ds) && (unit == "m" || unit == "km")
    ensures DistanceMatchEnd(ds + unit + w, 0) == Some(|ds| + |unit|)
  {
    var t := ds + unit + w;
    var n := |ds|;
    assert t[n] == unit[0];
    SpanIs(t, 0, IsDigitOrComma, n);
    SpanIs(t, n, IsSpace, n);
    assert t[n..n + |unit|] == unit;
    if unit == "m" {
      if n + 2 <= |t| { NotWordAt(t, n, "km", 0); }
    }
  }

  lemma DistanceAtStart(ds: string, unit: string, w: string)
    requires ds != [] && AllDigits(ds) && (unit == "m" || unit == "km")
    ensures FindDistance(ds + unit + w) == Some(ds + unit)
  {
    var t := ds + unit + w;
    var n := |ds|;
    DistanceEndAtStart(ds, unit, w);
    FindFromIs(DistanceMatcher(t), 0, |t|, 0);
    assert t[0..n + |unit|] == ds + unit;
  }

  /** A trimmed text whose first match is a distance is a run step of that distance. */
  lemma DistanceBranch(t: string, m: string)
    requires Trim(t) == t && !PauseHeader(t) && !RecHeader(t) && !RestPrefix(t) && FindDistance(t) == Some(m)
    ensures ParseStep(t) == Some(Step(Run, Some(ParseDistance(m)), None, IntensityOf(ExtractIntensity(t)), None))
  {
  }

  /**
   * `<digits>m...` and `<digits>km...` are run steps whose distance is parseDistance
   * of the number and its unit, and whose intensity is found anywhere in the text.
   */
  lemma DistanceStep(ds: string, unit: string, w: string)
    requires ds != [] && AllDigits(ds) && (unit == "m" || unit == "km")
    requires w == [] || !IsSpace(w[|w| - 1])
    ensures ParseStep(ds + unit + w) ==
      Some(Step(Run, Some(ParseDistance(ds + unit)), None, IntensityOf(ExtractIntensity(ds + unit + w)), None))
  {
    var t := ds + unit + w;
    assert t[0] == ds[0];
    assert t[|t| - 1] == if w == [] then unit[|unit| - 1] else w[|w| - 1];
    TrimNoop(t);
    DigitFirst(t);
    DistanceAtStart(ds, unit, w);
    DistanceBranch(t, ds + unit);
  }

  /** A trimmed text with no distance but a number is a step of parseTime of the first time token. */
  lemma TimeBranch(t: string, token: string)
    requires Trim(t) == t && !PauseHeader(t) && !RecHeader(t) && !RestPrefix(t)
    requires FindDistance(t).None? && FirstTimeToken(t) == Some(token)
    ensures ParseStep(t) == Some(Step(if ExtractIntensity(t) == Some(PL) then Rest else Run, None,
      Some(TimeSeconds(token)), IntensityOf(ExtractIntensity(t)), None))
  {
  }

  /**
   * A number without a unit, such as `400 TL`, is not a distance: it is a
   * step of duration 0, a rest when its intensity is PL and a run otherwise.
   */
  lemma UnitlessNumber(ds: string, w: string)
    requires ds != [] && AllDigits(ds)
    requires w != [] && !IsSpace(w[|w| - 1])
    requires forall k | 0 <= k < |w| :: LowerChar(w[k]) != 'm' && w[k] != '\'' && w[k] != '"'
    ensures var t := ds + " " + w;
      ParseStep(t) == Some(Step(if ExtractIntensity(t) == Some(PL) then Rest else Run, None,
        Some(0), IntensityOf(ExtractIntensity(t)), None))
  {
    var t := ds + " " + w;
    assert t[0] == ds[0];
    assert t[|t| - 1] == w[|w| - 1];
    TrimNoop(t);
    DigitFirst(t);
    UnitlessChars(ds, w);
    forall p | 0 <= p < |t| ensures DistanceMatchEnd(t, p).None? {
    }
    assert IsDigit(t[0]);
    var token := FirstTimeToken(t).value;
    assert '\'' !in token && '"' !in token;
    TimeBranch(t, token);
  }

  lemma UnitlessChars(ds: string, w: string)
    requires AllDigits(ds)
    requires forall k | 0 <= k < |w| :: LowerChar(w[k]) != 'm' && w[k] != '\'' && w[k] != '"'
    ensures forall k | 0 <= k < |ds + " " + w| ::
      var c := (ds + " " + w)[k]; LowerChar(c) != 'm' && c != '\'' && c != '"'
  {
  }

  /**
   * Commas alone count as digits for the distance pattern, so `,m` is a run
   * step whose distance is not a number (parseFloat of `.`).
   */
  lemma CommaDistance()
    ensures ParseStep(",m") == Some(Step(Run, Some(NaN), None, None, None))
  {
    var t := ",m";
    TrimNoop(t);
    DigitFirst(t);
    CommaAtStart();
    CommaIsNaN();
    NoMarkerInCommaM();
    DistanceBranch(t, t);
  }

  lemma CommaAtStart()
    ensures FindDistance(",m") == Some(",m")
  {
    var t := ",m";
    SpanIs(t, 0, IsDigitOrComma, 1);
    SpanIs(t, 1, IsSpace, 1);
    assert t[1..2] == "m";
    assert Lower(t[1..2]) == "m";
    assert UnitEnd(t, 1) == Some(2);
    assert DistanceMatchEnd(t, 0) == Some(2);
    FindFromIs(DistanceMatcher(t), 0, |t|, 0);
    assert t[0..2] == t;
  }

  lemma CommaIsNaN()
    ensures ParseDistance(",m") == NaN
  {
    NormalizedNoop(",m");
    NormalizedDistance(",m");
    CommaRuns();
    CommaBecomesPoint();
    MetresOf(",m", ",", NaN);
  }

  lemma CommaBecomesPoint()
    ensures ParseFloat(ReplaceFirst(",", ',', '.')) == NaN
  {
    assert ReplaceFirst(",", ',', '.') == ".";
  }

  lemma CommaRuns()
    ensures RunBeforeLiteral(",m", IsDigitOrComma, "km") == None
    ensures RunBeforeLiteral(",m", IsDigitOrComma, "m") == Some(",")
  {
    var t := ",m";
    SpanIs(t, 0, IsDigitOrComma, 1);
    SpanIs(t, 1, IsSpace, 1);
    assert !LiteralMatcher(t, IsDigitOrComma, "km")(0);
    assert !LiteralMatcher(t, IsDigitOrComma, "km")(1);
    assert t[1..2] == "m";
    FirstRunBeforeLiteral(t, 0, 1, IsDigitOrComma, "m");
    assert t[0..1] == ",";
  }

  lemma NoMarkerInCommaM()
    ensures ExtractIntensity(",m") == None
  {
    assert Upper(",m") == ",M";
    forall c: IntensityType ensures !Contains(",M", Marker(c)) {
      assert Marker(c) != ",M";
    }
    ExtractIntensityFirst(",m");
  }
}
