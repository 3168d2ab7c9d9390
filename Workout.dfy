/**
 * parseWorkout: the text is cut at every `+` into sections, and each section
 * is placed by its position and shape: a repetition block is appended, a
 * distance section fills the warmup when it is first, the cooldown when it is
 * last and otherwise becomes a run step, and anything else goes through
 * parseStep.  The warmup and cooldown start as lap-button steps at TS.
 */
module Workout {
  import opened Wrappers
  import opened Text
  import opened Types
  import opened Tokens
  import opened Steps
  import opened Scanner

  /** `\d+\s*x` at `p`, ignoring case. */
  predicate HeaderFrom(t: string, p: nat) {
    p < |t| &&
    var d := Span(t, p, IsDigit);
    var a := Span(t, d, IsSpace);
    p < d && a < |t| && LowerChar(t[a]) == 'x'
  }

  function HeaderMatcher(t: string): nat -> bool {
    (p: nat) => HeaderFrom(t, p)
  }

  /** `\(?\d+\s*x` anywhere, ignoring case: the optional parenthesis changes nothing about whether it matches. */
  predicate HeaderAnywhere(t: string) {
    FindFrom(HeaderMatcher(t), 0, |t|).Some?
  }

  /** The anchored header test adds nothing to the unanchored one. */
  lemma AnchoredHeaderFound(t: string)
    requires HeaderAt(t)
    ensures HeaderAnywhere(t)
  {
    FindFromIs(HeaderMatcher(t), 0, |t|, 0);
  }

  /** `^\d+[km]`, ignoring case. */
  predicate StartsWithDistance(t: string) {
    var d := Span(t, 0, IsDigit);
    0 < d < |t| && (LowerChar(t[d]) == 'k' || LowerChar(t[d]) == 'm')
  }

  /** `.replace(/^\(/, '').replace(/\)$/, '')`: one leading `(`, then one trailing `)`, is removed. */
  function StripBlockParens(s: string): (r: string)
    ensures |r| <= |s|
  {
    var a := if |s| > 0 && s[0] == '(' then s[1..] else s;
    if |a| > 0 && a[|a| - 1] == ')' then a[..|a| - 1] else a
  }

  /** The sections: the trimmed text cut at every `+`, each trimmed. */
  function Sections(text: string): (sections: seq<string>)
    ensures |sections| >= 1
    ensures forall k | 0 <= k < |sections| :: '+' !in sections[k]
    ensures forall k | 0 <= k < |sections| :: sections[k] == [] || (!IsSpace(sections[k][0]) && !IsSpace(sections[k][|sections[k]| - 1]))
  {
    var parts := SplitOn(Trim(text), '+');
    var sections := seq(|parts|, k requires 0 <= k < |parts| => Trim(parts[k]));
    forall k | 0 <= k < |sections| ensures '+' !in sections[k] {
      var a := TrimStartIndex(parts[k]);
      assert sections[k] == parts[k][a..a + |sections[k]|];
      assert forall i | 0 <= i < |sections[k]| :: sections[k][i] == parts[k][a + i];
    }
    sections
  }

  /** The block a section gives, when it has a header and parseRepetitionBlock accepts it. */
  function SectionBlock(s: string): Option<Item> {
    if HeaderAt(s) || HeaderAnywhere(s) then RepetitionBlock(StripBlockParens(s)) else None
  }

  /** The distance of a section that starts `<digits>k` or `<digits>m` and holds a distance. */
  function SectionDistance(s: string): Option<Number> {
    if StartsWithDistance(s) then
      match FindDistance(s)
      case Some(m) => Some(ParseDistance(m))
      case None => None
    else None
  }

  const DefaultEnd: Step := Step(Warmup, None, None, IntensityOf(Some(TS)), Some(true))

  function InitialWarmup(): Step { DefaultEnd }

  function InitialCooldown(): Step { DefaultEnd.(kind := Cooldown) }

  /** A warmup or cooldown takes the distance, and the intensity only when one is found. */
  function WithDistance(end: Step, distance: Number, code: Option<IntensityType>): Step {
    end.(distance := Some(distance), intensity := if code.Some? then IntensityOf(code) else end.intensity)
  }

  /** What a section is, tried in the source's order: a block, a distance (with its intensity), a step, or nothing. */
  datatype Shape =
    | BlockSection(block: Item)
    | DistanceSection(distance: Number, code: Option<IntensityType>)
    | StepSection(step: Step)
    | Dropped

  function Classify(s: string): Shape {
    match SectionBlock(s)
    case Some(b) => BlockSection(b)
    case None =>
      match SectionDistance(s)
      case Some(distance) => DistanceSection(distance, ExtractIntensity(s))
      case None =>
        match ParseStep(s)
        case Some(step) => StepSection(step)
        case None => Dropped
  }

  /** The shape of every section. */
  function ShapesOf(sections: seq<string>): (shapes: seq<Shape>)
    ensures |shapes| == |sections|
  {
    seq(|sections|, k requires 0 <= k < |sections| => Classify(sections[k]))
  }

  /** `shapes` holds the shape of each section; it is looked at only where a section's shape is computed. */
  predicate Classified(sections: seq<string>, shapes: seq<Shape>) {
    |shapes| == |sections| && forall k {:trigger Classify(sections[k])} | 0 <= k < |sections| :: shapes[k] == Classify(sections[k])
  }

  datatype Progress = Progress(warmup: Step, cooldown: Step, blocks: seq<Item>)

  /** One turn of the loop: the section at `i` of `n`, of the given shape, is placed. */
  function Place(acc: Progress, shape: Shape, i: nat, n: nat): Progress {
    match shape
    case BlockSection(b) => acc.(blocks := acc.blocks + [b])
    case DistanceSection(distance, code) =>
      if i == 0 then acc.(warmup := WithDistance(acc.warmup, distance, code))
      else if i == n - 1 then acc.(cooldown := WithDistance(acc.cooldown, distance, code))
      else acc.(blocks := acc.blocks + [Single(Step(Run, Some(distance), None, IntensityOf(code), None))])
    case StepSection(step) => acc.(blocks := acc.blocks + [Single(step)])
    case Dropped => acc
  }

  /** The state after the first `k` sections. */
  function PlaceAll(shapes: seq<Shape>, k: nat): Progress
    requires k <= |shapes|
  {
    if k == 0 then Progress(InitialWarmup(), InitialCooldown(), [])
    else Place(PlaceAll(shapes, k - 1), shapes[k - 1], k - 1, |shapes|)
  }

  lemma PlaceAllStep(shapes: seq<Shape>, i: nat, j: nat)
    requires j <= |shapes| && 0 < j && i == j - 1
    ensures PlaceAll(shapes, j) == Place(PlaceAll(shapes, i), shapes[i], i, |shapes|)
  {
  }

  /** The warmup and cooldown stay lap-button steps of their kinds with an intensity, whatever is placed. */
  lemma {:induction false} EndsKeepTheirKind(shapes: seq<Shape>, k: nat)
    requires k <= |shapes|
    ensures var p := PlaceAll(shapes, k);
      && p.warmup.kind == Warmup && p.warmup.lapButtonPress == Some(true) && p.warmup.intensity.Some?
      && p.cooldown.kind == Cooldown && p.cooldown.lapButtonPress == Some(true) && p.cooldown.intensity.Some?
      && p.warmup.duration.None? && p.cooldown.duration.None?
  {
    if k > 0 {
      EndsKeepTheirKind(shapes, k - 1);
    }
  }

  /** What the first section does to the warmup: a distance section sets its distance, and its intensity only when it names one. */
  function FirstWarmup(first: Shape): Step {
    match first
    case DistanceSection(distance, code) => WithDistance(InitialWarmup(), distance, code)
    case _ => InitialWarmup()
  }

  /** Only the first section touches the warmup. */
  lemma {:induction false} WarmupFromFirst(shapes: seq<Shape>, k: nat)
    requires 1 <= k <= |shapes|
    ensures PlaceAll(shapes, k).warmup == FirstWarmup(shapes[0])
  {
    if k > 1 {
      WarmupFromFirst(shapes, k - 1);
    }
  }

  /** Before the last section the cooldown is the default one. */
  lemma {:induction false} CooldownUntouched(shapes: seq<Shape>, k: nat)
    requires k < |shapes|
    ensures PlaceAll(shapes, k).cooldown == InitialCooldown()
  {
    if k > 0 {
      CooldownUntouched(shapes, k - 1);
    }
  }

  /**
   * The finished warmup and cooldown: the warmup comes from the first section;
   * the cooldown from the last one, and only when there are at least two, so
   * a single section fills the warmup alone.  A distance without an intensity
   * keeps the default TS.
   */
  lemma WarmupAndCooldown(shapes: seq<Shape>)
    requires |shapes| >= 1
    ensures var p := PlaceAll(shapes, |shapes|);
      && p.warmup == FirstWarmup(shapes[0])
      && (|shapes| == 1 ==> p.cooldown == InitialCooldown())
      && (|shapes| >= 2 ==>
            p.cooldown == match shapes[|shapes| - 1]
              case DistanceSection(distance, code) => WithDistance(InitialCooldown(), distance, code)
              case _ => InitialCooldown())
      && (shapes[0].DistanceSection? && shapes[0].code.None? ==> p.warmup.intensity == IntensityOf(Some(TS)))
  {
    WarmupFromFirst(shapes, |shapes|);
    CooldownUntouched(shapes, |shapes| - 1);
  }

  /** Every section adds at most one item, in section order: the items so far are a prefix of the items after more sections. */
  lemma {:induction false} BlocksGrow(shapes: seq<Shape>, k: nat, m: nat)
    requires k <= m <= |shapes|
    ensures |PlaceAll(shapes, m).blocks| <= |PlaceAll(shapes, k).blocks| + (m - k)
    ensures PlaceAll(shapes, k).blocks <= PlaceAll(shapes, m).blocks
    decreases m - k
  {
    if k < m {
      BlocksGrow(shapes, k, m - 1);
    }
  }

  /** A shape whose item, if it has one, is well formed. */
  predicate ShapeWellFormed(shape: Shape) {
    match shape
    case BlockSection(b) => WellFormed(b)
    case StepSection(step) => WellFormed(Single(step))
    case _ => true
  }

  lemma ClassifyWellFormed(s: string)
    ensures ShapeWellFormed(Classify(s))
  {
    if SectionBlock(s).Some? {
      BlockWellFormed(StripBlockParens(s));
    }
  }

  /** The items come from blocks, run steps and parseStep: all well formed. */
  lemma {:induction false} PlacedWellFormed(shapes: seq<Shape>, k: nat)
    requires k <= |shapes|
    requires forall j | 0 <= j < |shapes| :: ShapeWellFormed(shapes[j])
    ensures AllWellFormed(PlaceAll(shapes, k).blocks)
  {
    if k > 0 {
      PlacedWellFormed(shapes, k - 1);
      var p := PlaceAll(shapes, k - 1);
      assert ShapeWellFormed(shapes[k - 1]);
      var q := PlaceAll(shapes, k);
      assert q.blocks == p.blocks || exists it :: q.blocks == p.blocks + [it] && WellFormed(it);
      forall j | 0 <= j < |q.blocks|
        ensures WellFormed(q.blocks[j])
      {
        if j < |p.blocks| {
          assert q.blocks[j] == p.blocks[j];
        }
      }
    }
  }

  /**
   * parseWorkout: the name and date pass through, each section adds at most
   * one item, and every item is well formed.
   */
  function WorkoutOf(text: string, name: Option<string>, date: Option<string>): (w: ParsedWorkout)
    ensures w.name == name && w.date == date
    ensures |w.blocks| <= |Sections(text)|
    ensures AllWellFormed(w.blocks)
  {
    var shapes := ShapesOf(Sections(text));
    ShapesWellFormed(Sections(text));
    PlacedWellFormed(shapes, |shapes|);
    BlocksGrow(shapes, 0, |shapes|);
    var p := PlaceAll(shapes, |shapes|);
    ParsedWorkout(name, date, p.warmup, p.blocks, p.cooldown)
  }

  /** An empty section is neither a block, nor a distance, nor a step. */
  lemma EmptySectionDropped()
    ensures Classify([]) == Dropped
  {
    TrimNoop([]);
    ParseStepCases([]);
    assert FindFrom(HeaderMatcher([]), 0, 0).None?;
  }

  /** Blank input: no blocks, and the default warmup and cooldown. */
  lemma BlankInput(text: string, name: Option<string>, date: Option<string>)
    requires IsBlank(text)
    ensures var w := WorkoutOf(text, name, date);
      && w.blocks == [] && w.warmup == InitialWarmup() && w.cooldown == InitialCooldown()
      && w.name == name && w.date == date
  {
    TrimNoop([]);
    assert SplitOn([], '+') == [[]];
    assert Sections(text) == [[]];
    EmptySectionDropped();
    var shapes := ShapesOf(Sections(text));
    assert shapes == [Dropped];
    PlaceAllStep(shapes, 0, 1);
  }

  /** Without a `+` there is one section, so the cooldown keeps its defaults and at most one item is made. */
  lemma SingleSection(text: string, name: Option<string>, date: Option<string>)
    requires '+' !in text
    ensures var w := WorkoutOf(text, name, date);
      && w.cooldown == InitialCooldown() && |w.blocks| <= 1
  {
    var t := Trim(text);
    assert '+' !in t by {
      forall k | 0 <= k < |t|
        ensures t[k] != '+'
      {
        assert t[k] == text[TrimStartIndex(text) + k];
      }
    }
    SplitOnAbsent(t, '+');
    var shapes := ShapesOf(Sections(text));
    assert |shapes| == 1;
    WarmupAndCooldown(shapes);
    BlocksGrow(shapes, 0, 1);
  }

  /** Every section's shape has a well-formed item, if it has one. */
  lemma ShapesWellFormed(sections: seq<string>)
    ensures forall j | 0 <= j < |sections| :: ShapeWellFormed(ShapesOf(sections)[j])
  {
    forall j | 0 <= j < |sections|
      ensures ShapeWellFormed(ShapesOf(sections)[j])
    {
      ClassifyWellFormed(sections[j]);
    }
  }

  /** parseWorkout as the source writes it: a loop that updates the warmup and cooldown and pushes to the blocks. */
  method ParseWorkout(workoutText: string, name: Option<string>, date: Option<string>) returns (workout: ParsedWorkout)
    ensures workout == WorkoutOf(workoutText, name, date)
  {
    var sections := Sections(workoutText);
    ghost var shapes := ShapesOf(sections);
    var warmup, cooldown, blocks := PlaceSections(sections, shapes);
    workout := ParsedWorkout(name, date, warmup, blocks, cooldown);
  }

  /** The loop over the sections, starting from the default warmup and cooldown and no blocks. */
  method PlaceSections(sections: seq<string>, ghost shapes: seq<Shape>) returns (warmup: Step, cooldown: Step, blocks: seq<Item>)
    requires Classified(sections, shapes)
    ensures Progress(warmup, cooldown, blocks) == PlaceAll(shapes, |shapes|)
  {
    warmup := InitialWarmup();
    cooldown := InitialCooldown();
    blocks := [];
    for i := 0 to |sections|
      invariant Progress(warmup, cooldown, blocks) == PlaceAll(shapes, i)
    {
      warmup, cooldown, blocks := PlaceNext(sections, shapes, i, i + 1, warmup, cooldown, blocks);
    }
  }

  /** The body of the loop: section `i` is classified and placed, giving the state after the first `j`. */
  method PlaceNext(sections: seq<string>, ghost shapes: seq<Shape>, i: nat, j: nat, warmup0: Step, cooldown0: Step, blocks0: seq<Item>)
    returns (warmup: Step, cooldown: Step, blocks: seq<Item>)
    requires Classified(sections, shapes)
    requires j <= |sections| && 0 < j && i == j - 1
    requires Progress(warmup0, cooldown0, blocks0) == PlaceAll(shapes, i)
    ensures Progress(warmup, cooldown, blocks) == PlaceAll(shapes, j)
  {
    var shape := ClassifySection(sections[i]);
    assert shape == shapes[i];
    PlaceAllStep(shapes, i, j);
    warmup, cooldown, blocks := warmup0, cooldown0, blocks0;
    match shape {
      case BlockSection(b) =>
        blocks := blocks + [b];
      case DistanceSection(distance, code) =>
        if i == 0 {
          warmup := WithDistance(warmup, distance, code);
        } else if i == |sections| - 1 {
          cooldown := WithDistance(cooldown, distance, code);
        } else {
          blocks := blocks + [Single(Step(Run, Some(distance), None, IntensityOf(code), None))];
        }
      case StepSection(step) =>
        blocks := blocks + [Single(step)];
      case Dropped =>
    }
  }

  /** The tests of the loop body: a header and a block, then a distance, then parseStep. */
  method ClassifySection(section: string) returns (shape: Shape)
    ensures shape == Classify(section)
  {
    if HeaderAt(section) || HeaderAnywhere(section) {
      var block := ParseRepetitionBlock(StripBlockParens(section));
      if block.Some? {
        return BlockSection(block.value);
      }
    }
    if StartsWithDistance(section) {
      var distanceMatch := FindDistance(section);
      if distanceMatch.Some? {
        return DistanceSection(ParseDistance(distanceMatch.value), ExtractIntensity(section));
      }
    }
    var step := ParseStep(section);
    if step.Some? {
      return StepSection(step.value);
    }
    return Dropped;
  }
}
