/**
 * The scanner of a repetition body: `parseStepsFromText`, which walks the text
 * keeping a parenthesis depth and an accumulated fragment, and
 * `parseRepetitionBlock`, which reads `<times> x <body>` and scans the body.
 * The two call each other.  Each is specified by a function over the input
 * (`ScanFrom`, `RepetitionBlock`) and written as a method proved equal to it.
 */
module Scanner {
  import opened Wrappers
  import opened Text
  import opened Types
  import opened Tokens
  import opened Steps

  /** What the scanner emits: a step of the kinds parseStep makes, or a block with at least one item. */
  predicate WellFormed(it: Item)
    decreases it
  {
    match it
    case Single(s) => (s.kind == Run || s.kind == Rest) && s.lapButtonPress.None?
    case Repetition(_, steps) => |steps| > 0 && forall k | 0 <= k < |steps| :: WellFormed(steps[k])
  }

  predicate AllWellFormed(items: seq<Item>) {
    forall k | 0 <= k < |items| :: WellFormed(items[k])
  }

  /** `^\d+\s*x`, ignoring case. */
  predicate HeaderAt(t: string) {
    var d := Span(t, 0, IsDigit);
    var a := Span(t, d, IsSpace);
    0 < d && a < |t| && LowerChar(t[a]) == 'x'
  }

  /**
   * `^(\d+)\s*x\s*(.+)$`, ignoring case: the value of the digits and the second
   * group.  `.` takes no line terminator and the group runs to the end of the
   * text.  When the spaces after `x` reach the end, the engine gives one back
   * to the group, unless it is a line terminator.
   */
  function RepetitionMatch(t: string): (m: Option<(nat, string)>)
    ensures m.Some? ==> HeaderAt(t)
    ensures m.Some? ==> m.value.1 != [] && NoLineTerminator(m.value.1) && |m.value.1| < |t|
    ensures m.Some? ==> m.value.1 == t[|t| - |m.value.1|..]
    ensures m.Some? ==> var d := Span(t, 0, IsDigit); AllDigits(t[..d]) && m.value.0 == DigitsValue(t[..d])
  {
    var d := Span(t, 0, IsDigit);
    SpanAll(t, 0, IsDigit);
    var a := Span(t, d, IsSpace);
    if !(0 < d && a < |t| && LowerChar(t[a]) == 'x') then None
    else
      var q := Span(t, a + 1, IsSpace);
      var times := DigitsValue(t[..d]);
      if q < |t| then
        if NoLineTerminator(t[q..]) then Some((times, t[q..])) else None
      else if a + 1 < q && !IsLineTerminator(t[q - 1]) then Some((times, t[q - 1..]))
      else None
  }

  /** `content.replace(/^\((.+)\)$/, '$1')`: one pair of outer parentheses around a line is removed. */
  function StripOuterParens(c: string): (r: string)
    ensures |r| <= |c|
    ensures r == c || (|c| >= 3 && c[0] == '(' && c[|c| - 1] == ')' && r == c[1..|c| - 1] && NoLineTerminator(r))
  {
    if |c| >= 3 && c[0] == '(' && c[|c| - 1] == ')' && NoLineTerminator(c[1..|c| - 1]) then c[1..|c| - 1] else c
  }

  /** The items of one step that parseStep may or may not give. */
  function OptionalStep(o: Option<Step>): (items: seq<Item>)
    ensures |items| <= 1
    ensures items == [] <==> o.None?
  {
    match o
    case None => []
    case Some(s) => [Single(s)]
  }

  /** parseStep of each part in turn, keeping the steps it gives. */
  function StepsOf(parts: seq<string>): (items: seq<Item>)
    ensures |items| <= |parts|
  {
    if parts == [] then []
    else StepsOf(parts[..|parts| - 1]) + OptionalStep(ParseStep(parts[|parts| - 1]))
  }

  /** A fragment flushed at a separator: split, then each part parsed; a blank fragment gives nothing. */
  function FragmentItems(cur: string): (items: seq<Item>)
    ensures |items| <= 2
    ensures IsBlank(cur) ==> items == []
  {
    var t := Trim(cur);
    if t == [] then [] else StepsOf(SplitCombinedSteps(t))
  }

  /** The change a character makes to the parenthesis depth. */
  function Delta(c: char): int {
    if c == '(' then 1 else if c == ')' then -1 else 0
  }

  /** The inner `while`: one past the parenthesis that brings `nested` to zero, or the end of the text. */
  function CloseIndex(text: string, j: nat, nested: int): (k: nat)
    requires j <= |text|
    ensures j <= k <= |text|
    ensures nested > 0 ==> k == |text| || (j < k && text[k - 1] == ')')
    decreases |text| - j
  {
    if j < |text| && nested > 0 then CloseIndex(text, j + 1, nested + Delta(text[j])) else j
  }

  /** `String.prototype.substring` with both ends inside the text: the ends are swapped when out of order. */
  function JsSubstring(s: string, a: nat, b: nat): (r: string)
    requires a <= |s| && b <= |s|
    ensures |r| <= |s|
    ensures a <= b ==> r == s[a..b]
  {
    if a <= b then s[a..b] else s[b..a]
  }

  /** The `x` at `i` is a separator: lowercase, at depth zero, after a space. */
  predicate IsSeparator(text: string, i: nat, depth: int)
    requires i < |text|
  {
    text[i] == 'x' && depth == 0 && i > 0 && text[i - 1] == ' '
  }

  /** Where scanning resumes after a separator: one following space is skipped. */
  function AfterSeparator(text: string, i: nat): (next: nat)
    requires i < |text|
    ensures i < next <= |text|
  {
    if i + 1 < |text| && text[i + 1] == ' ' then i + 2 else i + 1
  }

  /** The fragment is cleared at a separator only when it held something besides white space. */
  function ClearedFragment(cur: string): (r: string)
    ensures |r| <= |cur|
    ensures IsBlank(r)
  {
    if Trim(cur) != [] then [] else cur
  }

  /**
   * The items parseStepsFromText pushes from position `i` on, when it has reached
   * `i` with fragment `cur` and depth `depth`.  White space alone, with nothing
   * accumulated, gives no items.
   */
  function ScanFrom(text: string, i: nat, cur: string, depth: int): (items: seq<Item>)
    requires |cur| <= i <= |text|
    ensures IsBlank(cur) && IsBlank(text[i..]) ==> items == []
    decreases |text|, 2, |text| - i
  {
    if i == |text| then FinalItems(cur)
    else
      var c := text[i];
      var d := depth + Delta(c);
      var nested := if c == '(' && d == 1 then NestedBlock(text, i) else None;
      if nested.Some? then
        [nested.value.0] + ScanFrom(text, nested.value.1, [], d)
      else if IsSeparator(text, i, d) then
        FragmentItems(cur) + ScanFrom(text, AfterSeparator(text, i), ClearedFragment(cur), d)
      else
        ScanFrom(text, i + 1, cur + [c], d)
  }

  /** From the `(` at `i`: one past its matching `)`, and the text between the two. */
  function NestedSpan(text: string, i: nat): (span: (nat, string))
    requires i < |text|
    ensures i < span.0 <= |text| && (|span.1| < |text| || span.1 == [text[i]])
  {
    var j := CloseIndex(text, i + 1, 1);
    (j, JsSubstring(text, i + 1, j - 1))
  }

  lemma NestedSpanIs(text: string, i: nat, j: nat, content: string)
    requires i < |text|
    requires j == CloseIndex(text, i + 1, 1) && content == JsSubstring(text, i + 1, j - 1)
    ensures NestedSpan(text, i) == (j, content)
  {
  }

  /**
   * The `(` at `i` opens a nested block: its content up to the matching `)`
   * starts `<digits> x` and parseRepetitionBlock accepts it.  Gives the block
   * and the position after the `)`.
   */
  function NestedBlock(text: string, i: nat): (r: Option<(Item, nat)>)
    requires i < |text| && text[i] == '('
    ensures r.Some? ==> i < r.value.1 <= |text|
    decreases |text|, 1, 0
  {
    var (j, content) := NestedSpan(text, i);
    if !HeaderAt(content) then None
    else
      match RepetitionBlock(content)
      case None => None
      case Some(b) => Some((b, j))
  }

  /** The flush after the loop: a fragment that starts `<digits> x` is tried as a block first. */
  function FinalItems(cur: string): (items: seq<Item>)
    ensures IsBlank(cur) ==> items == []
    decreases |cur|, 1, 0
  {
    var t := Trim(cur);
    if t == [] then []
    else if HeaderAt(t) then
      match RepetitionBlock(t)
      case Some(b) => [b]
      case None => OptionalStep(ParseStep(t))
    else FragmentItems(cur)
  }

  /**
   * parseStepsFromText: every item it returns is a step of parseStep's kinds or
   * a block that is not empty, and a blank text gives none.
   */
  function StepsFromText(text: string): (items: seq<Item>)
    ensures AllWellFormed(items)
    ensures IsBlank(text) ==> items == []
  {
    ScanWellFormed(text, 0, [], 0);
    assert text[0..] == text;
    ScanFrom(text, 0, [], 0)
  }

  /** The text parseRepetitionBlock hands to the scanner: the second group, trimmed, without outer parentheses. */
  function BlockBody(t: string): (body: Option<string>)
    ensures body.Some? <==> RepetitionMatch(t).Some?
    ensures body.Some? ==> |body.value| < |t|
  {
    match RepetitionMatch(t)
    case None => None
    case Some((_, g)) => Some(StripOuterParens(Trim(g)))
  }

  /**
   * parseRepetitionBlock: no block unless the text is `<digits> x <rest>`; the
   * count is the digits' value, zero included; no block when the body scans
   * to nothing.
   */
  function RepetitionBlock(t: string): (r: Option<Item>)
    ensures r.None? <==> RepetitionMatch(t).None? || ScanFrom(BlockBody(t).value, 0, [], 0) == []
    ensures r.Some? ==> r.value == Repetition(RepetitionMatch(t).value.0, ScanFrom(BlockBody(t).value, 0, [], 0))
    decreases |t|, 0, 0
  {
    match BlockBody(t)
    case None => None
    case Some(body) =>
      var items := ScanFrom(body, 0, [], 0);
      if items == [] then None else Some(Repetition(RepetitionMatch(t).value.0, items))
  }

  lemma StepsOfWellFormed(parts: seq<string>)
    ensures AllWellFormed(StepsOf(parts))
  {
    if parts != [] {
      StepsOfWellFormed(parts[..|parts| - 1]);
    }
  }

  lemma FragmentWellFormed(cur: string)
    ensures AllWellFormed(FragmentItems(cur))
  {
    if Trim(cur) != [] {
      StepsOfWellFormed(SplitCombinedSteps(Trim(cur)));
    }
  }

  lemma ConcatWellFormed(a: seq<Item>, b: seq<Item>)
    requires AllWellFormed(a) && AllWellFormed(b)
    ensures AllWellFormed(a + b)
  {
    forall k | 0 <= k < |a + b|
      ensures WellFormed((a + b)[k])
    {
      if k < |a| {
        assert (a + b)[k] == a[k];
      } else {
        assert (a + b)[k] == b[k - |a|];
      }
    }
  }

  /** Everything the scanner emits is well formed: steps of parseStep's kinds, blocks that are not empty. */
  lemma {:induction false} ScanWellFormed(text: string, i: nat, cur: string, depth: int)
    requires |cur| <= i <= |text|
    ensures AllWellFormed(ScanFrom(text, i, cur, depth))
    decreases |text|, 2, |text| - i
  {
    if i == |text| {
      assert ScanFrom(text, i, cur, depth) == FinalItems(cur);
      FinalWellFormed(cur);
    } else {
      var d := depth + Delta(text[i]);
      if text[i] == '(' && d == 1 && NestedBlock(text, i).Some? {
        var (b, j) := NestedBlock(text, i).value;
        ScanNested(text, i, cur, depth, b, j);
        NestedWellFormed(text, i);
        ScanWellFormed(text, j, [], 1);
        ConcatWellFormed([b], ScanFrom(text, j, [], 1));
      } else if IsSeparator(text, i, d) {
        ScanSeparator(text, i, cur, depth);
        FragmentWellFormed(cur);
        ScanWellFormed(text, AfterSeparator(text, i), ClearedFragment(cur), d);
        ConcatWellFormed(FragmentItems(cur), ScanFrom(text, AfterSeparator(text, i), ClearedFragment(cur), d));
      } else {
        ScanChar(text, i, cur, depth);
        ScanWellFormed(text, i + 1, cur + [text[i]], d);
      }
    }
  }

  lemma {:induction false} NestedWellFormed(text: string, i: nat)
    requires i < |text| && text[i] == '('
    ensures NestedBlock(text, i).Some? ==> WellFormed(NestedBlock(text, i).value.0)
    decreases |text|, 1, 0
  {
    var j := CloseIndex(text, i + 1, 1);
    var content := JsSubstring(text, i + 1, j - 1);
    NestedSpanIs(text, i, j, content);
    NestedBlockOf(text, i, j, content);
    if HeaderAt(content) {
      BlockWellFormed(content);
    }
  }

  lemma {:induction false} FinalWellFormed(cur: string)
    ensures AllWellFormed(FinalItems(cur))
    decreases |cur|, 1, 0
  {
    var t := Trim(cur);
    if t != [] {
      if HeaderAt(t) {
        BlockWellFormed(t);
      } else {
        FragmentWellFormed(cur);
      }
    }
  }

  lemma {:induction false} BlockWellFormed(t: string)
    ensures RepetitionBlock(t).Some? ==> WellFormed(RepetitionBlock(t).value)
    decreases |t|, 0, 0
  {
    if BlockBody(t).Some? {
      ScanWellFormed(BlockBody(t).value, 0, [], 0);
    }
  }

  /** parseStepsFromText, as the source writes it: a loop over the characters. */
  method ParseStepsFromText(text: string) returns (steps: seq<Item>)
    ensures steps == StepsFromText(text)
    decreases |text|, 2
  {
    steps := [];
    var cur: string := [];
    var depth: int := 0;
    var i: nat := 0;
    while i < |text|
      invariant |cur| <= i <= |text|
      invariant steps + ScanFrom(text, i, cur, depth) == StepsFromText(text)
      decreases |text| - i
    {
      var c := text[i];
      ghost var before := depth;
      if c == '(' { depth := depth + 1; }
      if c == ')' { depth := depth - 1; }
      assert depth == before + Delta(c);
      var nested := None;
      if c == '(' && depth == 1 {
        nested := NestedAt(text, i);
      }
      if nested.Some? {
        ScanNested(text, i, cur, before, nested.value.0, nested.value.1);
        steps := Push(steps, nested.value.0, ScanFrom(text, nested.value.1, [], depth), StepsFromText(text));
        i := nested.value.1;
        cur := [];
        continue;
      }
      if c == 'x' && depth == 0 && i > 0 && text[i - 1] == ' ' {
        ScanSeparator(text, i, cur, before);
        ghost var next := AfterSeparator(text, i);
        ghost var rest := ScanFrom(text, next, ClearedFragment(cur), depth);
        steps, cur := FlushFragment(steps, cur, rest, StepsFromText(text));
        if i + 1 < |text| && text[i + 1] == ' ' {
          i := i + 1;
        }
        i := i + 1;
        assert i == next;
        continue;
      }
      ScanChar(text, i, cur, before);
      cur := cur + [c];
      i := i + 1;
    }
    steps := FlushLast(steps, cur);
  }

  /** The inner `while`: from the `(` at `i`, one past its matching `)`, or the end of the text. */
  method MatchingClose(text: string, i: nat) returns (j: nat)
    requires i < |text|
    ensures j == CloseIndex(text, i + 1, 1)
  {
    var nestedDepth: int := 1;
    j := i + 1;
    while j < |text| && nestedDepth > 0
      invariant i + 1 <= j <= |text|
      invariant CloseIndex(text, j, nestedDepth) == CloseIndex(text, i + 1, 1)
      decreases |text| - j
    {
      ghost var outer := nestedDepth;
      if text[j] == '(' { nestedDepth := nestedDepth + 1; }
      if text[j] == ')' { nestedDepth := nestedDepth - 1; }
      assert nestedDepth == outer + Delta(text[j]);
      j := j + 1;
    }
  }

  /** The `(` at depth one: the nested block, when its content is one, and where scanning resumes. */
  method NestedAt(text: string, i: nat) returns (nested: Option<(Item, nat)>)
    requires i < |text| && text[i] == '('
    ensures nested == NestedBlock(text, i)
    decreases |text|, 1
  {
    var j := MatchingClose(text, i);
    var nestedContent := JsSubstring(text, i + 1, j - 1);
    NestedSpanIs(text, i, j, nestedContent);
    NestedBlockOf(text, i, j, nestedContent);
    if !HeaderAt(nestedContent) {
      return None;
    }
    var nestedBlock := ParseRepetitionBlock(nestedContent);
    if nestedBlock.None? {
      return None;
    }
    return Some((nestedBlock.value, j));
  }

  lemma NestedBlockOf(text: string, i: nat, j: nat, content: string)
    requires i < |text| && text[i] == '('
    requires NestedSpan(text, i) == (j, content)
    ensures !HeaderAt(content) ==> NestedBlock(text, i).None?
    ensures HeaderAt(content) && RepetitionBlock(content).None? ==> NestedBlock(text, i).None?
    ensures HeaderAt(content) && RepetitionBlock(content).Some? ==>
      NestedBlock(text, i) == Some((RepetitionBlock(content).value, j))
  {
  }

  /** At a separator: a fragment with something besides white space is split, parsed and cleared. */
  method FlushFragment(steps0: seq<Item>, cur0: string, ghost rest: seq<Item>, ghost all: seq<Item>)
    returns (steps: seq<Item>, cur: string)
    requires steps0 + (FragmentItems(cur0) + rest) == all
    ensures steps == steps0 + FragmentItems(cur0) && cur == ClearedFragment(cur0)
    ensures steps + rest == all
  {
    steps, cur := steps0, cur0;
    var fragment := Trim(cur);
    if fragment != [] {
      steps := PushSteps(steps, SplitCombinedSteps(fragment));
      cur := [];
    }
    Associative(steps0, FragmentItems(cur0), rest);
  }

  lemma Associative(a: seq<Item>, b: seq<Item>, c: seq<Item>)
    ensures a + (b + c) == (a + b) + c
  {
  }

  /** After the loop: the last fragment, tried as a block when it starts `<digits> x`. */
  method FlushLast(steps0: seq<Item>, cur: string) returns (steps: seq<Item>)
    ensures steps == steps0 + FinalItems(cur)
    decreases |cur|, 1
  {
    steps := steps0;
    var fragment := Trim(cur);
    if fragment != [] {
      if HeaderAt(fragment) {
        var nestedBlock := ParseRepetitionBlock(fragment);
        if nestedBlock.Some? {
          steps := steps + [nestedBlock.value];
        } else {
          var step := ParseStep(fragment);
          if step.Some? {
            steps := steps + [Single(step.value)];
          }
        }
      } else {
        steps := PushSteps(steps, SplitCombinedSteps(fragment));
      }
    }
  }

  /** The inner `for ... of` loop: parseStep of each part, pushing the steps it gives. */
  method PushSteps(steps0: seq<Item>, parts: seq<string>) returns (steps: seq<Item>)
    ensures steps == steps0 + StepsOf(parts)
  {
    steps := steps0;
    for k := 0 to |parts|
      invariant steps == steps0 + StepsOf(parts[..k])
    {
      var step := ParseStep(parts[k]);
      if step.Some? {
        steps := steps + [Single(step.value)];
      }
      StepsOfPrefix(parts, k);
      Associative(steps0, StepsOf(parts[..k]), OptionalStep(step));
    }
    assert parts[..|parts|] == parts;
  }

  /** `steps.push(item)`, where the rest of the scan is still to come. */
  method Push(steps0: seq<Item>, item: Item, ghost rest: seq<Item>, ghost all: seq<Item>) returns (steps: seq<Item>)
    requires steps0 + ([item] + rest) == all
    ensures steps == steps0 + [item] && steps + rest == all
  {
    steps := steps0 + [item];
    Associative(steps0, [item], rest);
  }

  /** A nested block at `i` is emitted whole and scanning resumes after its `)`. */
  lemma ScanNested(text: string, i: nat, cur: string, depth: int, b: Item, j: nat)
    requires |cur| <= i < |text| && text[i] == '(' && depth + 1 == 1
    requires NestedBlock(text, i) == Some((b, j))
    ensures ScanFrom(text, i, cur, depth) == [b] + ScanFrom(text, j, [], 1)
  {
  }

  /** At a separator the fragment so far is flushed and one following space is skipped. */
  lemma ScanSeparator(text: string, i: nat, cur: string, depth: int)
    requires |cur| <= i < |text| && IsSeparator(text, i, depth)
    ensures ScanFrom(text, i, cur, depth) ==
      FragmentItems(cur) + ScanFrom(text, AfterSeparator(text, i), ClearedFragment(cur), depth)
  {
  }

  /** Any other character is added to the fragment. */
  lemma ScanChar(text: string, i: nat, cur: string, depth: int)
    requires |cur| <= i < |text|
    requires var d := depth + Delta(text[i]); !(text[i] == '(' && d == 1 && NestedBlock(text, i).Some?)
    requires !IsSeparator(text, i, depth + Delta(text[i]))
    ensures ScanFrom(text, i, cur, depth) == ScanFrom(text, i + 1, cur + [text[i]], depth + Delta(text[i]))
  {
  }

  lemma StepsOfPrefix(parts: seq<string>, k: nat)
    requires k < |parts|
    ensures StepsOf(parts[..k + 1]) == StepsOf(parts[..k]) + OptionalStep(ParseStep(parts[k]))
  {
    assert parts[..k + 1][..k] == parts[..k];
  }

  /** parseRepetitionBlock, calling the scanner method. */
  method ParseRepetitionBlock(t: string) returns (block: Option<Item>)
    ensures block == RepetitionBlock(t)
    decreases |t|, 0
  {
    var m := RepetitionMatch(t);
    if m.None? {
      return None;
    }
    var times := m.value.0;
    var content := Trim(m.value.1);
    var cleanContent := StripOuterParens(content);
    var steps := ParseStepsFromText(cleanContent);
    if |steps| == 0 {
      return None;
    }
    return Some(Repetition(times, steps));
  }
}
