/**
 * The CSV export of a user's races (src/utils/export.ts): one header line
 * and one line per race, ten cells each; a cell holding a comma, a double
 * quote or a line feed is quoted, with its quotes doubled.  The reader below
 * is the partner of the writer: it reads every exported table back cell for
 * cell.
 */
module Export {
  import opened Wrappers
  import opened Text
  import opened Types
  import opened Tokens

  const Headers: seq<string> := [
    "Nombre",
    "Fecha",
    "Tipo de Carrera",
    "Distancia (km)",
    "Distancia Real (km)",
    "Tiempo Objetivo",
    "Tiempo Real",
    "Prioridad",
    "Objetivo",
    "Notas"
  ]

  /** The nearest whole number of hundredths to a non-negative value; a tie goes to the larger one. */
  function RoundCents(x: real): (n: nat)
    requires x >= 0.0
    ensures n as real - 0.5 <= x * 100.0 < n as real + 0.5
  {
    (x * 100.0 + 0.5).Floor
  }

  /**
   * `Number.prototype.toFixed(2)` on a non-negative value: the whole part,
   * a point and exactly two decimals (a whole part below one is written `0`).
   */
  function Fixed2(x: real): (r: string)
    requires x >= 0.0
    ensures |r| >= 4 && r[|r| - 3] == '.'
    ensures forall k | 0 <= k < |r| :: IsDecimalChar(r[k])
  {
    var n := RoundCents(x);
    var whole := NatToString(n / 100);
    var r := whole + "." + TwoDigits(n % 100);
    assert forall k | 0 <= k < |whole| :: r[k] == whole[k];
    r
  }

  /** `toFixed(2)`: a negative value gets a minus sign in front of its magnitude's rendering. */
  function ToFixed2(x: real): (r: string)
    ensures x < 0.0 ==> r == "-" + Fixed2(-x)
    ensures x >= 0.0 ==> r == Fixed2(x)
  {
    if x < 0.0 then "-" + Fixed2(-x) else Fixed2(x)
  }

  /** The two decimals read back by `parseFloat` are within half a hundredth of the value. */
  lemma Fixed2ReadsBack(x: real)
    requires x >= 0.0
    ensures ParseFloat(Fixed2(x)).Finite?
    ensures var v := ParseFloat(Fixed2(x)).value; x - 0.005 < v <= x + 0.005
  {
    var n := RoundCents(x);
    var whole := NatToString(n / 100);
    var frac := TwoDigits(n % 100);
    assert Fixed2(x) == whole + "." + frac;
    ParseFloatPoint(whole, frac);
    assert Pow10(|frac|) == 100;
    assert n == 100 * (n / 100) + n % 100;
    assert DecimalValue(whole, frac) == n as real / 100.0;
  }

  /** formatDistance: kilometres with two decimals, empty for a missing or zero distance. */
  function FormatDistance(meters: Option<real>): (r: string)
    ensures r == [] <==> meters.None? || meters.value == 0.0
  {
    if meters.None? || meters.value == 0.0 then "" else ToFixed2(meters.value / 1000.0)
  }

  /** `value || ''` for an optional text field. */
  function OrEmpty(s: Option<string>): (r: string)
    ensures r == [] <==> s.None? || s.value == []
    ensures s.Some? ==> r == s.value
  {
    if s.Some? then s.value else ""
  }

  /**
   * One race's cells in header order.  The date is rendered by the browser's
   * locale formatter, given here as `formatDate`.
   */
  function RaceRow(race: Race, formatDate: string -> string): (row: seq<string>)
    ensures |row| == |Headers|
    ensures row[0] == race.name && row[1] == formatDate(race.date) && row[2] == RaceTypeName(race.raceType)
    ensures row[3] == FormatDistance(Some(race.distance)) && row[4] == FormatDistance(race.actualDistance)
    ensures row[5] == OrEmpty(race.targetTime) && row[6] == OrEmpty(race.actualTime)
    ensures row[7] == PriorityName(race.priority) && row[8] == GoalName(race.goal)
    ensures row[9] == OrEmpty(race.notes)
  {
    [
      race.name,
      formatDate(race.date),
      RaceTypeName(race.raceType),
      FormatDistance(Some(race.distance)),
      FormatDistance(race.actualDistance),
      OrEmpty(race.targetTime),
      OrEmpty(race.actualTime),
      PriorityName(race.priority),
      GoalName(race.goal),
      OrEmpty(race.notes)
    ]
  }

  function RaceRows(races: seq<Race>, formatDate: string -> string): (rows: seq<seq<string>>)
    ensures |rows| == |races|
    ensures forall i | 0 <= i < |rows| :: rows[i] == RaceRow(races[i], formatDate)
  {
    if races == [] then [] else [RaceRow(races[0], formatDate)] + RaceRows(races[1..], formatDate)
  }

  /** `replace(/"/g, '""')`. */
  function DoubleQuotes(s: string): (r: string)
    ensures |r| >= |s|
    ensures '"' !in s ==> r == s
  {
    if s == [] then []
    else if s[0] == '"' then "\"\"" + DoubleQuotes(s[1..])
    else [s[0]] + DoubleQuotes(s[1..])
  }

  predicate NeedsQuotes(cell: string) {
    ',' in cell || '"' in cell || '\n' in cell
  }

  /** A cell as written: quoted, with its quotes doubled, when it holds a comma, a quote or a line feed. */
  function Escape(cell: string): (r: string)
    ensures !NeedsQuotes(cell) ==> r == cell
    ensures NeedsQuotes(cell) ==> |r| >= |cell| + 2 && r[0] == '"' && r[|r| - 1] == '"'
  {
    if NeedsQuotes(cell) then "\"" + DoubleQuotes(cell) + "\"" else cell
  }

  /** A cell is written unchanged exactly when it holds no comma, quote or line feed. */
  lemma EscapeUnchanged(cell: string)
    ensures Escape(cell) == cell <==> !NeedsQuotes(cell)
  {
    if NeedsQuotes(cell) {
      assert |Escape(cell)| >= |cell| + 2;
    }
  }

  function EscapeAll(cells: seq<string>): (r: seq<string>)
    ensures |r| == |cells|
  {
    if cells == [] then [] else [Escape(cells[0])] + EscapeAll(cells[1..])
  }

  /** One CSV line: the escaped cells joined with commas. */
  function Line(cells: seq<string>): string {
    Join(EscapeAll(cells), ",")
  }

  function Lines(rows: seq<seq<string>>): (r: seq<string>)
    ensures |r| == |rows|
  {
    if rows == [] then [] else [Line(rows[0])] + Lines(rows[1..])
  }

  /** A table as written: its lines joined with line feeds. */
  function EncodeTable(rows: seq<seq<string>>): string {
    Join(Lines(rows), "\n")
  }

  /**
   * The CSV text of exportRacesToCSV: the header names joined as they are, then
   * one line per race.  No header needs quoting, so this is the written table
   * of the header row and the race rows.
   */
  function CsvContent(races: seq<Race>, formatDate: string -> string): (csv: string)
    ensures csv == EncodeTable([Headers] + RaceRows(races, formatDate))
  {
    var rows := RaceRows(races, formatDate);
    HeaderLine();
    assert ([Headers] + rows)[1..] == rows;
    assert Lines([Headers] + rows) == [Line(Headers)] + Lines(rows);
    Join([Join(Headers, ",")] + Lines(rows), "\n")
  }

  /** Reads a quoted cell after its opening quote: `""` is one quote and a lone `"` closes the cell. */
  function QuotedRest(s: string): (r: Option<(string, string)>)
    ensures r.Some? ==> |r.value.1| < |s|
  {
    if s == [] then None
    else if s[0] == '"' then
      if |s| > 1 && s[1] == '"' then
        match QuotedRest(s[2..])
        case None => None
        case Some((c, rest)) => Some(("\"" + c, rest))
      else Some(([], s[1..]))
    else
      match QuotedRest(s[1..])
      case None => None
      case Some((c, rest)) => Some(([s[0]] + c, rest))
  }

  /** Reads an unquoted cell: everything up to the next comma or line feed. */
  function PlainPrefix(s: string): (r: (string, string))
    ensures |r.1| <= |s|
  {
    if s == [] || s[0] == ',' || s[0] == '\n' then ([], s)
    else
      var (c, rest) := PlainPrefix(s[1..]);
      ([s[0]] + c, rest)
  }

  function ReadCell(s: string): (r: Option<(string, string)>)
    ensures r.Some? ==> |r.value.1| <= |s|
  {
    if s != [] && s[0] == '"' then QuotedRest(s[1..]) else Some(PlainPrefix(s))
  }

  /**
   * Reads the cells of one line; besides them, None when the text ended with
   * the line, or the text after the line feed that ended it.
   */
  function ReadLine(s: string): (r: Option<(seq<string>, Option<string>)>)
    ensures r.Some? && r.value.1.Some? ==> |r.value.1.value| < |s|
    decreases |s|
  {
    match ReadCell(s)
    case None => None
    case Some((c, rest)) =>
      if rest == [] then Some(([c], None))
      else if rest[0] == '\n' then Some(([c], Some(rest[1..])))
      else if rest[0] == ',' then
        match ReadLine(rest[1..])
        case None => None
        case Some((cells, tail)) => Some(([c] + cells, tail))
      else None
  }

  /** Reads a whole CSV text into its lines of cells; None for a malformed text. */
  function ReadTable(s: string): Option<seq<seq<string>>>
    decreases |s|
  {
    match ReadLine(s)
    case None => None
    case Some((cells, None)) => Some([cells])
    case Some((cells, Some(rest))) =>
      match ReadTable(rest)
      case None => None
      case Some(rows) => Some([cells] + rows)
  }

  lemma {:induction false} QuotedRestOf(c: string, rest: string)
    requires rest == [] || rest[0] != '"'
    ensures QuotedRest(DoubleQuotes(c) + "\"" + rest) == Some((c, rest))
  {
    var s := DoubleQuotes(c) + "\"" + rest;
    if c == [] {
      assert s == "\"" + rest;
      assert s[1..] == rest;
    } else {
      QuotedRestOf(c[1..], rest);
      QuotedRestStep(c, rest, s, DoubleQuotes(c[1..]) + "\"" + rest);
    }
  }

  /** One step of the quoted reader: a doubled quote or another character, then the rest of the cell. */
  lemma QuotedRestStep(c: string, rest: string, s: string, t: string)
    requires c != [] && s == DoubleQuotes(c) + "\"" + rest && t == DoubleQuotes(c[1..]) + "\"" + rest
    requires QuotedRest(t) == Some((c[1..], rest))
    ensures QuotedRest(s) == Some((c, rest))
  {
    var d := DoubleQuotes(c[1..]);
    if c[0] == '"' {
      assert DoubleQuotes(c) == "\"\"" + d;
      PrefixLayout("\"\"", d, rest, s, t);
      assert "\"" + c[1..] == c;
    } else {
      assert DoubleQuotes(c) == [c[0]] + d;
      PrefixLayout([c[0]], d, rest, s, t);
      assert [c[0]] + c[1..] == c;
    }
  }

  lemma PrefixLayout(p: string, d: string, rest: string, s: string, t: string)
    requires s == p + d + "\"" + rest && t == d + "\"" + rest
    ensures |s| == |p| + |t| && s[..|p|] == p && s[|p|..] == t
  {
    assert s == p + t;
  }

  lemma {:induction false} PlainPrefixOf(c: string, rest: string)
    requires ',' !in c && '\n' !in c
    requires rest == [] || rest[0] == ',' || rest[0] == '\n'
    ensures PlainPrefix(c + rest) == (c, rest)
  {
    if c == [] {
      assert c + rest == rest;
    } else {
      PlainPrefixOf(c[1..], rest);
      assert (c + rest)[1..] == c[1..] + rest;
      assert [c[0]] + c[1..] == c;
    }
  }

  /** Every escaped cell reads back as itself, whatever it holds. */
  lemma ReadCellOf(c: string, rest: string, s: string)
    requires rest == [] || rest[0] == ',' || rest[0] == '\n'
    requires s == Escape(c) + rest
    ensures ReadCell(s) == Some((c, rest))
  {
    if NeedsQuotes(c) {
      QuotedCellOf(c, rest, s);
    } else {
      PlainCellOf(c, rest, s);
    }
  }

  lemma QuotedCellOf(c: string, rest: string, s: string)
    requires NeedsQuotes(c)
    requires rest == [] || rest[0] == ',' || rest[0] == '\n'
    requires s == Escape(c) + rest
    ensures ReadCell(s) == Some((c, rest))
  {
    QuotedLayout(DoubleQuotes(c), rest, s);
    QuotedRestOf(c, rest);
    ReadQuoted(s, c, rest);
  }

  lemma QuotedLayout(d: string, rest: string, s: string)
    requires s == "\"" + d + "\"" + rest
    ensures s != [] && s[0] == '"' && s[1..] == d + "\"" + rest
  {
    assert s[1..] == d + "\"" + rest;
  }

  lemma ReadQuoted(s: string, c: string, rest: string)
    requires s != [] && s[0] == '"' && QuotedRest(s[1..]) == Some((c, rest))
    ensures ReadCell(s) == Some((c, rest))
  {
  }

  lemma PlainCellOf(c: string, rest: string, s: string)
    requires !NeedsQuotes(c)
    requires rest == [] || rest[0] == ',' || rest[0] == '\n'
    requires s == Escape(c) + rest
    ensures ReadCell(s) == Some((c, rest))
  {
    assert s == c + rest;
    PlainPrefixOf(c, rest);
    if c != [] {
      assert s[0] == c[0] && c[0] in c;
    }
  }

  /** The reader goes on after a comma. */
  lemma ReadLineComma(s: string, c: string, rest: string, cells: seq<string>, tail: Option<string>)
    requires ReadCell(s) == Some((c, rest)) && rest != [] && rest[0] == ','
    requires ReadLine(rest[1..]) == Some((cells, tail))
    ensures ReadLine(s) == Some(([c] + cells, tail))
  {
  }

  /** What is left after a line: nothing at the end of the text, else what follows the line feed. */
  function AfterLine(tail: string): Option<string> {
    if tail == [] then None else Some(tail[1..])
  }

  /** The reader stops at a line feed or at the end of the text. */
  lemma ReadLineLast(s: string, c: string, tail: string)
    requires ReadCell(s) == Some((c, tail)) && (tail == [] || tail[0] == '\n')
    ensures ReadLine(s) == Some(([c], AfterLine(tail)))
  {
  }

  lemma LineCons(cells: seq<string>)
    requires |cells| > 1
    ensures Line(cells) == Escape(cells[0]) + "," + Line(cells[1..])
  {
    assert EscapeAll(cells)[1..] == EscapeAll(cells[1..]);
  }

  lemma ReadLineOne(cells: seq<string>, tail: string, s: string)
    requires |cells| == 1 && (tail == [] || tail[0] == '\n')
    requires s == Line(cells) + tail
    ensures ReadLine(s) == Some((cells, AfterLine(tail)))
  {
    assert Line(cells) == Escape(cells[0]);
    ReadCellOf(cells[0], tail, s);
    ReadLineLast(s, cells[0], tail);
    assert [cells[0]] == cells;
  }

  /** Where the parts of `e + "," + line + tail` lie. */
  lemma CommaLayout(e: string, line: string, tail: string, s: string, more: string)
    requires s == e + "," + line + tail && more == "," + line + tail
    ensures s == e + more && more != [] && more[0] == ',' && more[1..] == line + tail
  {
  }

  lemma ReadLineMore(cells: seq<string>, tail: string, s: string, line: string)
    requires |cells| > 1 && (tail == [] || tail[0] == '\n')
    requires s == Escape(cells[0]) + "," + line + tail
    requires ReadLine(line + tail) == Some((cells[1..], AfterLine(tail)))
    ensures ReadLine(s) == Some((cells, AfterLine(tail)))
  {
    var more := "," + line + tail;
    CommaLayout(Escape(cells[0]), line, tail, s, more);
    ReadCellOf(cells[0], more, s);
    ReadLineComma(s, cells[0], more, cells[1..], AfterLine(tail));
    assert [cells[0]] + cells[1..] == cells;
  }

  /** A written line reads back as its cells, and the reader stops after its line feed. */
  lemma {:induction false} ReadLineOf(cells: seq<string>, tail: string)
    requires cells != []
    requires tail == [] || tail[0] == '\n'
    ensures ReadLine(Line(cells) + tail) == Some((cells, AfterLine(tail)))
  {
    if |cells| == 1 {
      ReadLineOne(cells, tail, Line(cells) + tail);
    } else {
      ReadLineOf(cells[1..], tail);
      LineCons(cells);
      ReadLineMore(cells, tail, Line(cells) + tail, Line(cells[1..]));
    }
  }

  /** The table reader goes on after a line feed. */
  lemma ReadTableNext(s: string, cells: seq<string>, rest: string, rows: seq<seq<string>>)
    requires ReadLine(s) == Some((cells, Some(rest)))
    requires ReadTable(rest) == Some(rows)
    ensures ReadTable(s) == Some([cells] + rows)
  {
  }

  lemma EncodeCons(rows: seq<seq<string>>)
    requires |rows| > 1
    ensures EncodeTable(rows) == Line(rows[0]) + "\n" + EncodeTable(rows[1..])
  {
    assert Lines(rows)[1..] == Lines(rows[1..]);
  }

  /** Reading a written table gives back its rows, cell for cell, when no row is empty. */
  lemma {:induction false} ReadTableOf(rows: seq<seq<string>>)
    requires rows != []
    requires forall i | 0 <= i < |rows| :: rows[i] != []
    ensures ReadTable(EncodeTable(rows)) == Some(rows)
  {
    var s := EncodeTable(rows);
    if |rows| == 1 {
      assert s == Line(rows[0]) + [];
      ReadLineOf(rows[0], []);
      assert [rows[0]] == rows;
    } else {
      var next := EncodeTable(rows[1..]);
      var tail := "\n" + next;
      EncodeCons(rows);
      assert s == Line(rows[0]) + tail;
      ReadLineOf(rows[0], tail);
      assert tail[1..] == next;
      ReadTableOf(rows[1..]);
      ReadTableNext(s, rows[0], next, rows[1..]);
      assert [rows[0]] + rows[1..] == rows;
    }
  }

  /** No header name needs quoting, so the header line is the written line of the headers. */
  lemma HeaderLine()
    ensures Line(Headers) == Join(Headers, ",")
  {
    forall k | 0 <= k < |Headers| ensures !NeedsQuotes(Headers[k]) {
    }
    EscapeNoop(Headers);
  }

  lemma {:induction false} EscapeNoop(cells: seq<string>)
    requires forall k | 0 <= k < |cells| :: !NeedsQuotes(cells[k])
    ensures EscapeAll(cells) == cells
  {
    if cells != [] {
      EscapeNoop(cells[1..]);
      assert [cells[0]] + cells[1..] == cells;
    }
  }

  /**
   * The exported text reads back as the header row followed by one row per
   * race, in order, each of ten cells.
   */
  lemma ExportReadsBack(races: seq<Race>, formatDate: string -> string)
    ensures ReadTable(CsvContent(races, formatDate)) == Some([Headers] + RaceRows(races, formatDate))
  {
    var rows := [Headers] + RaceRows(races, formatDate);
    forall i | 0 <= i < |rows| ensures rows[i] != [] {
      if i > 0 {
        assert rows[i] == RaceRows(races, formatDate)[i - 1];
      }
    }
    ReadTableOf(rows);
  }
}
