# sportCalendar workout parser, in Dafny

This project models the core of sportCalendar, a race calendar for runners.
The main part is its workout-shorthand parser. It reads text such as
`2km TS + 4 x 400m TL Rec.1'30" + 1km TS` and builds a warmup step, a
sequence of steps and repetition blocks (blocks may nest), and a cooldown
step. Around it the project models:

- the workout and race types and the intensity tables;
- the browser store of users and races;
- the CSV export of races;
- the `M:SS` rendering of durations.

The parser follows `src/parser.ts` layer by layer:

- **Token readers** (`Tokens`): `parseDistance`, `parseTime` and `extractIntensity`.
  Each regular expression becomes a hand-written "matches at position p" predicate, plus a leftmost search.
- **Step classifier** (`Steps`): `parseStep`, and `splitCombinedSteps`, which cuts a distance+code+recovery fragment in two.
- **Scanner** (`Scanner`): `parseStepsFromText` and `parseRepetitionBlock`.
  - They are specified by mutually recursive functions that follow the character loop.
  - The source's loop is then written as methods, each proved equal to its function.
  - `ScannerLaws` states what the scanner does to texts of simple shapes.
- **Assembler** (`Workout`): `parseWorkout`.
  - Each `+` section is classified once.
  - A fold (`PlaceAll`) places the sections in order.
  - The source's loop is a method proved equal to that fold.

Both `parseTime` and the two loops are imperative in the source. They are
methods here, with loop invariants, proved equal to their specification
functions. The store is a class whose `seq` fields are reassigned by every
save or delete.

Modelling choices:

- JavaScript numbers produced by `parseFloat` are modelled as `Finite(real) | NaN`. Decimal literals are exact rationals here, not IEEE doubles.
- `\s` and `trim` use JavaScript's white-space and line-terminator set.
- Case-insensitive matching, `toUpperCase` and `toLowerCase` act on ASCII letters only.
- Every optional field of the source is an `Option`.

## Model

| member | source | states |
|---|---|---|
| Types.CodeFromName | src/types.ts:57 | exactly the seven spellings TS, TL, TR, Ca, PA, RC, PL name an intensity code |
| Types.CodeNameRoundTrip | src/types.ts:57 | reading a code's spelling gives the code back |
| Types.ReferencesMatchPaceRanges | src/types.ts:86-104 | INTENSITY_REFERENCES has exactly the seven codes, each with its INTENSITY_PACE_RANGES label |
| Types.NestingDeepens | src/types.ts:72-76 | a block around an item is one level deeper, so nesting has no depth bound |
| Tokens.ParseDistance | src/parser.ts:4-16 | a distance is never negative: neither pattern takes a sign; the cases below give its value |
| Tokens.DistanceKilometres | src/parser.ts:4-16 | `<digits>km` is the digits' value times 1000 |
| Tokens.DistanceMetres | src/parser.ts:4-16 | `<digits>m` is the digits' value; the `km` pattern is tried first and fails |
| Tokens.DistanceDecimalComma | src/parser.ts:4-16 | in `<a>,<b>km` the comma becomes a decimal point: a.b × 1000 |
| Tokens.DistancePointIgnored | src/parser.ts:4-16 | in `<a>.<b>km` the number stops at the point, so `1.5km` is 5000 |
| Tokens.DistanceWithoutUnit | src/parser.ts:4-16 | text without an `m` of either case has distance 0 |
| Tokens.ParseFloat | src/parser.ts:10-13 | `parseFloat` is NaN exactly when the text does not start with a digit or with a point and a digit; otherwise it is non-negative |
| Tokens.TimeSeconds | src/parser.ts:19-32 | without a `'` or `"` the duration is 0 |
| Tokens.ParseTime | src/parser.ts:19-32 | the accumulating computation equals the specification of parseTime |
| Tokens.TimeOfMinSec | src/parser.ts:19-32 | `M'S"`, for any digit runs M and S (leading zeros included), reads as 60 × M + S seconds |
| Tokens.TimeOfMinutes | src/parser.ts:19-32 | `M'`, for any digit run M, reads as 60 × M seconds |
| Tokens.TimeOfSeconds | src/parser.ts:19-32 | `S"` reads as S seconds: the minutes part is optional |
| Tokens.ExtractIntensity | src/parser.ts:35-45 | a code found occurs in the upper-cased text, and there is none exactly when no code occurs |
| Tokens.ExtractIntensityFirst | src/parser.ts:35-45 | the result is a code found in the upper-cased text, every code ranked before it is absent, and there is no result exactly when no code occurs |
| Tokens.CaminarRedundant | src/parser.ts:40 | the `CAMINAR` test never changes the answer, because `CAMINAR` contains `CA` |
| Tokens.ExtractIntensityIgnoresCase | src/parser.ts:35-36 | lower-casing the text first gives the same code |
| Steps.FindDistance | src/parser.ts:75 | there is no match exactly when the pattern matches at no position; a match starts with a digit or comma and ends in `m` or `M` |
| Steps.IntensityOf | src/parser.ts:83-86 | an intensity is present exactly when a code was found, and it carries that code's pace-range label |
| Steps.ParseStep | src/parser.ts:48-107 | a step is a rest or a run, without lap flag; a rest has a duration and no distance; a step has a distance exactly when it has no duration |
| Steps.ParseStepCases | src/parser.ts:48-107 | no step exactly when the text is no pause, and then either a rec/rest fragment with no recovery time, or no distance and no digit; a present intensity is extractIntensity of the trimmed text |
| Steps.PauseOfMinSec | src/parser.ts:52-60 | `PL.M'S"` is a rest step of 60 × M + S seconds without intensity |
| Steps.RecoveryOfMinSec | src/parser.ts:63-72 | `Rec.M'S"` is a rest step of 60 × M + S seconds |
| Steps.RestWithoutRecovery | src/parser.ts:63-72 | a fragment starting `rest` with no `rec` in it gives no step |
| Steps.RestThenRecovery | src/parser.ts:63-72 | `rest Rec.M'S"` gives a rest step: the recovery pattern is searched anywhere |
| Steps.DistanceStep | src/parser.ts:75-88 | `<digits><unit>…` is a run step of parseDistance of the number and unit, with extractIntensity of the text |
| Steps.UnitlessNumber | src/parser.ts:91-104 | a number without a unit, like `400 TL`, is a step of duration 0 |
| Steps.NoDigitNoStep | src/parser.ts:48-107 | without a digit or a comma there is no step |
| Steps.CommaDistance | src/parser.ts:75-77 | `,m` is a run step whose distance is NaN |
| Steps.SplitCombinedSteps | src/parser.ts:134-150 | two parts exactly when the combined pattern matches, else the input alone; the first part is a number, unit, space and two letters, the second starts `rec` |
| Steps.SplitDropsTail | src/parser.ts:138-145 | `<n><unit> <code> Rec.M'S"<tail>` splits into `<n><unit> <code>` and `Rec.M'S"`; the tail is dropped |
| Steps.UnitlessNotSplit | src/parser.ts:138-149 | a number without km or m before the code is never split |
| Scanner.RepetitionMatch | src/parser.ts:112-115 | a match needs the `<digits> x` header; the count is the value of the leading digits; the body is a non-empty suffix without line terminator |
| Scanner.StripOuterParens | src/parser.ts:119 | either the text is unchanged, or one pair of outer parentheses around a body of one line is removed |
| Scanner.RepetitionBlock | src/parser.ts:110-131 | no block exactly when the header does not match or the body scans to no items; otherwise the count and the scanned items |
| Scanner.ParseRepetitionBlock | src/parser.ts:110-131 | the method calling the scanner method equals the block function |
| Scanner.CloseIndex | src/parser.ts:166-172 | the inner scan stops one past a `)` or at the end of the text |
| Scanner.MatchingClose | src/parser.ts:166-172 | the inner `while` loop equals the matching-parenthesis function |
| Scanner.JsSubstring | src/parser.ts:174 | with ends in order, `substring` is the slice |
| Scanner.NestedAt | src/parser.ts:163-187 | the nested-block step of the loop equals its specification |
| Scanner.FinalItems | src/parser.ts:211-229 | a blank last fragment gives no items |
| Scanner.ParseStepsFromText | src/parser.ts:153-232 | the character loop with its depth counter, fragment and index jumps equals the scanner function |
| Scanner.ScanFrom | src/parser.ts:153-232 | from any position, white space alone with nothing accumulated gives no items |
| Scanner.StepsFromText | src/parser.ts:153-232 | every item is a rest or run step or a non-empty well-formed block, and a blank text gives none |
| Scanner.ScanWellFormed | src/parser.ts:153-232 | every item the scanner emits is a rest or run step, or a block with at least one well-formed item |
| Scanner.BlockWellFormed | src/parser.ts:110-131 | every block parseRepetitionBlock returns is well formed |
| ScannerLaws.PlainText | src/parser.ts:153-232 | a text without parentheses or separator is one fragment, flushed at the end |
| ScannerLaws.SeparatorSplits | src/parser.ts:189-205 | ` x ` splits the text; the fragment before it is flushed first, and neither fragment contains the `x` or the skipped space |
| ScannerLaws.NestedDropsPrefix | src/parser.ts:160-186 | a nested block discards the text before its `(`; the depth stays at one, so all the text after the `)` is one fragment |
| ScannerLaws.RepetitionMatchOf | src/parser.ts:112-115 | `<digits> x <body>` has the digits' value as count and the body as group |
| ScannerLaws.PlainBlock | src/parser.ts:110-131 | a block with a plain body counts its digits, 0 included, and holds the body's items; no block when the body gives none |
| Workout.Sections | src/parser.ts:236-239 | there is always at least one section; no section holds a `+` or starts or ends with whitespace |
| Workout.AnchoredHeaderFound | src/parser.ts:265 | the anchored header test adds nothing to the unanchored one |
| Workout.ClassifySection | src/parser.ts:264-313 | the loop body's tests (block, then distance, then parseStep) give the section's shape |
| Workout.PlaceSections | src/parser.ts:261-314 | the loop over the sections equals placing all their shapes in order |
| Workout.WorkoutOf | src/parser.ts:235-323 | name and date pass through, each `+` section adds at most one item, and every item is well formed |
| Workout.ParseWorkout | src/parser.ts:235-323 | the method equals the specification of parseWorkout |
| Workout.EndsKeepTheirKind | src/parser.ts:241-257 | warmup and cooldown stay lap-button steps of their kinds with an intensity and no duration, whatever is placed |
| Workout.WarmupFromFirst | src/parser.ts:281-286 | only the first section touches the warmup |
| Workout.CooldownUntouched | src/parser.ts:287-292 | before the last section the cooldown is the default one |
| Workout.WarmupAndCooldown | src/parser.ts:273-307 | the warmup comes from the first section; the cooldown is the default for one section, else set by a last distance section; a distance without a code keeps intensity TS |
| Workout.BlocksGrow | src/parser.ts:259-314 | each section adds at most one item, at the end |
| Workout.BlankInput | src/parser.ts:235-323 | blank input gives no blocks and the default warmup and cooldown; name and date pass through |
| Workout.SingleSection | src/parser.ts:235-323 | without a `+` the cooldown keeps its defaults and at most one item is made |
| Storage.IndexOfKey | src/utils/storage.ts:10 | findIndex gives the first position carrying the key, or none when no position does |
| Storage.FindByKeyFirst | src/utils/storage.ts:24-27 | find gives the first element carrying the key, or null exactly when none does |
| Storage.UpsertThenFind | src/utils/storage.ts:43-51 | after a save, a lookup by the saved id finds the saved record |
| Storage.Upsert | src/utils/storage.ts:43-51 | a save puts the record at the first index holding its id and leaves every other position as it was, later records with the same id included; with no such index it appends; the saved record is present (saveUser at storage.ts:8-16 is the same step) |
| Storage.UpsertKeepsUnique | src/utils/storage.ts:43-51 | a save keeps ids unique |
| Storage.KeepWhere | src/utils/storage.ts:57 | filter never yields more elements than it was given |
| Storage.KeepWhereIn | src/utils/storage.ts:57 | filter keeps exactly the elements that pass |
| Storage.KeepWhereConcat | src/utils/storage.ts:54-60 | filtering keeps the stored order |
| Storage.WithoutKey | src/utils/storage.ts:68-71 | the records left are exactly the stored ones with another id |
| Storage.KeepWhereUnique | src/utils/storage.ts:70 | filtering a list with unique ids leaves the ids unique |
| Storage.WithoutKeyUnique | src/utils/storage.ts:68-71 | a delete keeps ids unique |
| Storage.DeleteRemoves | src/utils/storage.ts:68-71 | after a delete no record has the id, and exactly the records with other ids remain |
| Storage.DeleteAbsent | src/utils/storage.ts:68-71 | deleting an id no record carries changes nothing |
| Storage.RacesOf | src/utils/storage.ts:54-60 | no id or an empty id gives all races; otherwise exactly the races of that user |
| Storage.RacesOfConcat | src/utils/storage.ts:54-60 | a user's races in a two-part list are those of the first part, then those of the second |
| Storage.Store.constructor | src/utils/storage.ts:19-22 | an empty store has no users, no races and no current user |
| Storage.Store.SaveUser | src/utils/storage.ts:8-16 | saveUser upserts by id, finds the user by id afterwards and keeps ids unique |
| Storage.Store.GetUserByEmail | src/utils/storage.ts:24-27 | the first user with the email, or null exactly when none has it |
| Storage.Store.SetCurrentUser | src/utils/storage.ts:29-35 | stores the user, or clears it on null; users and races unchanged |
| Storage.Store.GetCurrentUser | src/utils/storage.ts:37-40 | returns what was last set, null after a clear |
| Storage.Store.SaveRace | src/utils/storage.ts:43-51 | saveRace upserts by id, getRaceById finds the race afterwards and ids stay unique |
| Storage.Store.GetRaces | src/utils/storage.ts:54-60 | all races for no or empty id, else exactly that user's races, in stored order with duplicates kept |
| Storage.Store.GetRaceById | src/utils/storage.ts:63-66 | the first stored race with the id, or null exactly when none has it |
| Storage.Store.DeleteRace | src/utils/storage.ts:68-71 | removes every race with the id, keeps all others, is a no-op when none matches, and keeps race ids unique |
| Export.RoundCents | src/utils/export.ts:22 | the nearest whole number of hundredths, ties to the larger |
| Export.Fixed2 | src/utils/export.ts:22 | toFixed(2) of a non-negative value: digits, a point, two decimals |
| Export.ToFixed2 | src/utils/export.ts:22 | a negative value is a minus sign and the rendering of its magnitude |
| Export.Fixed2ReadsBack | src/utils/export.ts:22 | parseFloat of the rendering is within half a hundredth of the value |
| Export.FormatDistance | src/utils/export.ts:20-23 | the cell is empty exactly when the distance is missing or zero |
| Export.OrEmpty | src/utils/export.ts:40-44 | an optional text field gives an empty cell exactly when it is absent or empty, else its value |
| Export.RaceRow | src/utils/export.ts:34-45 | ten cells in header order, each field in its column; an absent optional text field is an empty cell |
| Export.RaceRows | src/utils/export.ts:19-46 | one row per race, in order |
| Export.DoubleQuotes | src/utils/export.ts:56 | doubling quotes never shortens a cell and leaves a cell without quotes unchanged |
| Export.Escape | src/utils/export.ts:55-58 | a cell needing no quotes is written unchanged; otherwise it is at least two characters longer and wrapped in quotes |
| Export.EscapeUnchanged | src/utils/export.ts:55-58 | a cell is written unchanged exactly when it has no comma, quote or line feed |
| Export.ReadCellOf | src/utils/export.ts:52-58 | every escaped cell reads back as itself |
| Export.ReadLineOf | src/utils/export.ts:51-59 | a comma-joined line of escaped cells reads back as its cells |
| Export.ReadTableOf | src/utils/export.ts:49-61 | a table joined with line feeds reads back row for row |
| Export.HeaderLine | src/utils/export.ts:5-16 | no header needs quoting, so the plain header join is a written line |
| Export.CsvContent | src/utils/export.ts:49-61 | the CSV text is the written table of the header row and the race rows |
| Export.ExportReadsBack | src/utils/export.ts:5-61 | the CSV reads back as the ten headers followed by one ten-cell row per race, in order |
| Display.PadStart2 | src/components/WorkoutDisplay.tsx:22 | a short text is padded with zeros on the left to two characters |
| Display.FormatDuration | src/components/WorkoutDisplay.tsx:16-23 | both branches give floor(s / 60), a colon and s mod 60 as exactly two digits; the `:00` case is the padded case at zero |
| Display.DurationReadsBack | src/components/WorkoutDisplay.tsx:16-23 | reading `M:SS` back as M × 60 + SS gives the input |

## Left out

- Curly quotes: the time patterns are modelled with the ASCII `'` and `"` only.
- Case-insensitive matching and case mapping act on ASCII letters only. Unicode case folding is not modelled.
- `parseInt` and `parseFloat` read digits into exact integers and rationals. Precision loss on very long numbers is not modelled.
- Steps.ParseStep: a distance is an exact rational or NaN, never an IEEE double, so rounding in `parseFloat(…) * 1000` is not modelled.
- Export.ToFixed2: rendering of values of 10^21 and above, which use exponent notation, is not modelled. Rounding is done on the exact value, not on the nearest double.
- The locale date rendering (`toLocaleDateString`) is a parameter `formatDate` of the export.
- The file download (the byte-order mark, Blob, link and file name) is left out: it is DOM I/O.
- `localStorage` and the JSON encoding are not modelled. The store keeps the decoded lists in fields, and the JSON round trip is treated as the identity. A missing key is modelled by the empty store.
- `generateId` is left out: it depends on the clock and on randomness.
- `getUsers` is not modelled separately: it only reads the list that the store holds as a field.
- Race fields for triathlon and duathlon disciplines and times are left out of the race record. The store and the export never read them.
- Formatting of distances on screen, and the rest of the React components, are left out: they are UI.

The code's own comments promise a few things the code does not do. The model follows the code:

- A number without `km` or `m` is not a distance. The comments at src/parser.ts:133 and src/parser.ts:136 give `400 TL Rec.1'30"` as a text that is split; yet it is neither split nor read as 400 m: it becomes one run step of duration 0 with intensity TL (Steps.UnitlessNotSplit, Steps.UnitlessNumber).
- The comment at src/parser.ts:62 announces a rest/recovery check. A fragment starting `rest` gives a rest step only when `rec` and a number follow it anywhere. Otherwise it gives no step, so `rest 2'` gives nothing (Steps.RestThenRecovery, Steps.RestWithoutRecovery).
- `,m` has no digit, yet it is a distance match with a NaN distance (Steps.CommaDistance).
- The comment at src/parser.ts:183 says scanning continues after the closing parenthesis. It does, but the depth counter is not lowered after a nested block. So an `x` after a `)` no longer separates, and the text accumulated before the `(` is lost (ScannerLaws.NestedDropsPrefix).
