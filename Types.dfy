/**
 * The workout tree the parser builds and the race/user records the store
 * keeps (src/types.ts).  A JavaScript `number` that the parser may produce is
 * either a finite value or NaN; distances are exact rationals here.
 */
module Types {
  import opened Wrappers

  /** The seven intensity zone codes. */
  datatype IntensityType = TS | TL | TR | Ca | PA | RC | PL

  /** How a code is spelled in the source and in the reference table. */
  function CodeName(c: IntensityType): (name: string)
    ensures |name| == 2
  {
    match c
    case TS => "TS"
    case TL => "TL"
    case TR => "TR"
    case Ca => "Ca"
    case PA => "PA"
    case RC => "RC"
    case PL => "PL"
  }

  /** Reads a code back from its spelling: exactly the seven spellings are codes. */
  function CodeFromName(name: string): (c: Option<IntensityType>)
    ensures c.Some? ==> CodeName(c.value) == name
    ensures c.None? ==> forall t: IntensityType :: CodeName(t) != name
  {
    if name == "TS" then Some(TS)
    else if name == "TL" then Some(TL)
    else if name == "TR" then Some(TR)
    else if name == "Ca" then Some(Ca)
    else if name == "PA" then Some(PA)
    else if name == "RC" then Some(RC)
    else if name == "PL" then Some(PL)
    else None
  }

  lemma CodeNameRoundTrip(c: IntensityType)
    ensures CodeFromName(CodeName(c)) == Some(c)
  {
  }

  /** INTENSITY_PACE_RANGES: the fixed human-readable label of each code. */
  function PaceRange(c: IntensityType): string {
    match c
    case TS => "Trote Suave"
    case TL => "Trote Ligero"
    case TR => "Trote R\U{E1}pido"
    case Ca => "Caminar"
    case PA => "Paso Ajustado"
    case RC => "Ritmo de Competici\U{F3}n"
    case PL => "Pausa en el lugar"
  }

  /** INTENSITY_REFERENCES: the same pairs, keyed by the code's spelling. */
  const IntensityReferences: map<string, string> := map[
    "TS" := "Trote Suave",
    "TL" := "Trote Ligero",
    "TR" := "Trote R\U{E1}pido",
    "Ca" := "Caminar",
    "PA" := "Paso Ajustado",
    "RC" := "Ritmo de Competici\U{F3}n",
    "PL" := "Pausa en el lugar"
  ]

  /** The reference table holds exactly the seven codes, each with its pace-range label. */
  lemma ReferencesMatchPaceRanges()
    ensures forall c: IntensityType :: CodeName(c) in IntensityReferences && IntensityReferences[CodeName(c)] == PaceRange(c)
    ensures forall name | name in IntensityReferences :: CodeFromName(name).Some?
    ensures |IntensityReferences| == 7
  {
    forall c: IntensityType ensures CodeName(c) in IntensityReferences && IntensityReferences[CodeName(c)] == PaceRange(c) {
      ReferenceAgrees(c);
    }
    ReferenceKeys();
    forall name | name in IntensityReferences ensures CodeFromName(name).Some? {
      KnownName(name);
    }
    assert |IntensityReferences.Keys| == 7;
  }

  lemma KnownName(name: string)
    requires name in {"TS", "TL", "TR", "Ca", "PA", "RC", "PL"}
    ensures CodeFromName(name).Some?
  {
  }

  lemma ReferenceAgrees(c: IntensityType)
    ensures CodeName(c) in IntensityReferences && IntensityReferences[CodeName(c)] == PaceRange(c)
  {
  }

  lemma ReferenceKeys()
    ensures IntensityReferences.Keys == {"TS", "TL", "TR", "Ca", "PA", "RC", "PL"}
  {
  }

  datatype Intensity = Intensity(code: IntensityType, paceRange: Option<string>)

  datatype StepKind = Warmup | Cooldown | Run | Rest | Recover

  /** A JavaScript number as the parser can produce it: parseFloat may give NaN. */
  datatype Number = Finite(value: real) | NaN

  /** WorkoutStep: every attribute but the kind is optional. */
  datatype Step = Step(
    kind: StepKind,
    distance: Option<Number>,
    duration: Option<nat>,
    intensity: Option<Intensity>,
    lapButtonPress: Option<bool>)

  /** An element of a workout's sequence: a step or a WorkoutBlock, whose steps may nest further blocks. */
  datatype Item =
    | Single(step: Step)
    | Repetition(times: nat, steps: seq<Item>)

  datatype ParsedWorkout = ParsedWorkout(
    name: Option<string>,
    date: Option<string>,
    warmup: Step,
    blocks: seq<Item>,
    cooldown: Step)

  /** The longest chain of nested blocks in an item: the tree has no fixed depth bound. */
  function Depth(it: Item): nat {
    match it
    case Single(_) => 0
    case Repetition(_, steps) => 1 + MaxDepth(steps)
  }

  function MaxDepth(items: seq<Item>): nat {
    if items == [] then 0
    else
      var d := Depth(items[0]);
      var rest := MaxDepth(items[1..]);
      if d < rest then rest else d
  }

  /** A block around an item is one level deeper, so every depth is reachable. */
  lemma NestingDeepens(n: nat, it: Item)
    ensures Depth(Repetition(n, [it])) == Depth(it) + 1
  {
    assert [it][1..] == [];
    assert MaxDepth([it]) == Depth(it);
  }

  /** The shape of a race record: the fields the store and the CSV export read. */
  datatype RaceType = Calle | Trail | Montana | Postas | Natacion | Triatlon | Duatlon | Otro
  datatype RacePriority = Maxima | Alta | Media | Baja | Ninguna
  datatype RaceGoal = Completar | Tiempo | Disfrutar | Ninguno

  datatype Race = Race(
    id: string,
    userId: string,
    name: string,
    date: string,
    raceType: RaceType,
    distance: real,
    actualDistance: Option<real>,
    targetTime: Option<string>,
    actualTime: Option<string>,
    priority: RacePriority,
    goal: RaceGoal,
    notes: Option<string>,
    createdAt: string,
    updatedAt: string)

  datatype User = User(id: string, email: string, name: string, createdAt: string)

  /** The string value each enumerated race field carries in the source. */
  function RaceTypeName(t: RaceType): string {
    match t
    case Calle => "calle"
    case Trail => "trail"
    case Montana => "monta\U{F1}a"
    case Postas => "postas"
    case Natacion => "nataci\U{F3}n"
    case Triatlon => "triatl\U{F3}n"
    case Duatlon => "duatl\U{F3}n"
    case Otro => "otro"
  }

  function PriorityName(p: RacePriority): string {
    match p
    case Maxima => "m\U{E1}xima"
    case Alta => "alta"
    case Media => "media"
    case Baja => "baja"
    case Ninguna => "ninguna"
  }

  function GoalName(g: RaceGoal): string {
    match g
    case Completar => "completar"
    case Tiempo => "tiempo"
    case Disfrutar => "disfrutar"
    case Ninguno => "ninguno"
  }
}
