/**
 * How a step's duration is shown (formatDuration in
 * src/components/WorkoutDisplay.tsx): whole minutes, a colon, and the
 * remaining seconds as two digits.
 */
module Display {
  import opened Wrappers
  import opened Text

  /** `String.prototype.padStart(2, '0')`. */
  function PadStart2(s: string): (r: string)
    ensures |s| >= 2 ==> r == s
    ensures |s| < 2 ==> |r| == 2 && r[2 - |s|..] == s && forall k | 0 <= k < 2 - |s| :: r[k] == '0'
  {
    if |s| >= 2 then s else if |s| == 1 then "0" + s else "00"
  }

  /**
   * formatDuration: `M:00` on a whole minute, else `M:SS` with the seconds
   * padded to two digits.  Both branches write the whole minutes, a colon and
   * the remaining seconds as exactly two digits: `:00` is the padded case at zero.
   */
  function FormatDuration(seconds: nat): (r: string)
    ensures r == NatToString(seconds / 60) + ":" + TwoDigits(seconds % 60)
  {
    var mins := seconds / 60;
    var secs := seconds % 60;
    var two := TwoDigits(secs);
    if secs == 0 then
      assert two == "00";
      NatToString(mins) + ":00"
    else if secs < 10 then
      assert NatToString(secs) == [DigitChar(secs)];
      assert two == "0" + NatToString(secs);
      NatToString(mins) + ":" + PadStart2(NatToString(secs))
    else
      assert NatToString(secs) == NatToString(secs / 10) + [DigitChar(secs % 10)];
      assert NatToString(secs / 10) == [DigitChar(secs / 10)];
      assert two == NatToString(secs);
      NatToString(mins) + ":" + PadStart2(NatToString(secs))
  }

  /** Reads `M:SS` back into seconds: digits, a colon, then exactly two digits. */
  function ParseClock(t: string): (r: Option<nat>)
    ensures r.Some? ==> ':' in t
  {
    var i := Span(t, 0, IsDigit);
    SpanAll(t, 0, IsDigit);
    if 0 < i < |t| && t[i] == ':' && |t[i + 1..]| == 2 && AllDigits(t[i + 1..]) then
      Some(DigitsValue(t[..i]) * 60 + DigitsValue(t[i + 1..]))
    else None
  }

  /** `M` followed by `:SS` reads back as M minutes and SS seconds. */
  lemma ParseClockOf(m: string, ss: string)
    requires m != [] && AllDigits(m) && |ss| == 2 && AllDigits(ss)
    ensures ParseClock(m + ":" + ss) == Some(DigitsValue(m) * 60 + DigitsValue(ss))
  {
    var t := m + ":" + ss;
    assert forall k | 0 <= k < |m| :: t[k] == m[k];
    SpanIs(t, 0, IsDigit, |m|);
    assert t[..|m|] == m && t[|m|] == ':' && t[|m| + 1..] == ss;
    ParseClockAt(t, |m|, m, ss);
  }

  lemma ParseClockAt(t: string, i: nat, m: string, ss: string)
    requires 0 < i < |t| && Span(t, 0, IsDigit) == i && t[i] == ':'
    requires t[..i] == m && t[i + 1..] == ss && AllDigits(m) && |ss| == 2 && AllDigits(ss)
    ensures ParseClock(t) == Some(DigitsValue(m) * 60 + DigitsValue(ss))
  {
  }

  /** The shown duration reads back as the number of seconds, and the colon is followed by exactly two digits. */
  lemma DurationReadsBack(seconds: nat)
    ensures ParseClock(FormatDuration(seconds)) == Some(seconds)
    ensures var r := FormatDuration(seconds); |r| >= 4 && r[|r| - 3] == ':'
  {
    var m := NatToString(seconds / 60);
    var ss := TwoDigits(seconds % 60);
    ParseClockOf(m, ss);
    assert seconds == seconds / 60 * 60 + seconds % 60;
  }
}
