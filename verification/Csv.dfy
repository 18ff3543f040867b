/** The CSV printer of backend/src/csv.ts against a reader for the quoting of section 2 of RFC 4180. */
module Csv {
  import opened Options
  import opened Text

  // ---- Printing ----

  /** FORMULA_TRIGGER: what spreadsheet programs take for the start of a formula. */
  predicate IsTrigger(c: char) {
    c == '=' || c == '+' || c == '-' || c == '@' || c == '\t' || c == '\r'
  }

  function Neutralised(value: string): string {
    if value != "" && IsTrigger(value[0]) then "'" + value else value
  }

  predicate NeedsQuotes(s: string) {
    '"' in s || '\n' in s || '\r' in s || ',' in s
  }

  function Doubled(s: string): string {
    if s == "" then "" else (if s[0] == '"' then "\"\"" else [s[0]]) + Doubled(s[1..])
  }

  function CsvField(value: string): string {
    var safe := Neutralised(value);
    if NeedsQuotes(safe) then ['"'] + Doubled(safe) + ['"'] else safe
  }

  function CsvFields(values: seq<string>): (fields: seq<string>)
    ensures |fields| == |values|
  {
    if values == [] then [] else [CsvField(values[0])] + CsvFields(values[1..])
  }

  function CsvRow(values: seq<string>): string {
    Join(CsvFields(values), ',')
  }

  /** A file: each row ended by a line break, as the exports write it. */
  function Print(rows: seq<seq<string>>): string {
    if rows == [] then "" else CsvRow(rows[0]) + ['\n'] + Print(rows[1..])
  }

  // ---- Reading ----

  /** A cell and what follows it. */
  datatype Cell = Cell(text: string, rest: string)

  function Prepend(c: char, cell: Option<Cell>): Option<Cell> {
    if cell.None? then None else Some(Cell([c] + cell.value.text, cell.value.rest))
  }

  /** Behind an opening quote: up to the next quote that is not doubled. */
  function ReadQuoted(s: string): (cell: Option<Cell>)
    ensures cell.Some? ==> |cell.value.rest| < |s|
    decreases |s|
  {
    if s == "" then None
    else if s[0] != '"' then Prepend(s[0], ReadQuoted(s[1..]))
    else if |s| > 1 && s[1] == '"' then Prepend('"', ReadQuoted(s[2..]))
    else Some(Cell("", s[1..]))
  }

  /** Unquoted text holds no quote and no carriage return and ends before a comma or line break. */
  function ReadPlain(s: string): (cell: Option<Cell>)
    ensures cell.Some? ==> |cell.value.rest| <= |s|
    decreases |s|
  {
    if s == "" || s[0] == '"' || s[0] == '\r' then None
    else if s[0] == ',' || s[0] == '\n' then Some(Cell("", s))
    else Prepend(s[0], ReadPlain(s[1..]))
  }

  function ReadCell(s: string): (cell: Option<Cell>)
    ensures cell.Some? ==> |cell.value.rest| <= |s|
  {
    if s != "" && s[0] == '"' then ReadQuoted(s[1..]) else ReadPlain(s)
  }

  datatype Record = Record(cells: seq<string>, rest: string)

  function ReadRecord(s: string): (record: Option<Record>)
    ensures record.Some? ==> |record.value.rest| < |s|
    decreases |s|
  {
    match ReadCell(s)
    case None => None
    case Some(Cell(text, rest)) =>
      if rest == "" then None
      else if rest[0] == '\n' then Some(Record([text], rest[1..]))
      else if rest[0] != ',' then None
      else match ReadRecord(rest[1..])
        case None => None
        case Some(Record(cells, after)) => Some(Record([text] + cells, after))
  }

  function Read(s: string): Option<seq<seq<string>>>
    decreases |s|
  {
    if s == "" then Some([])
    else match ReadRecord(s)
      case None => None
      case Some(Record(cells, rest)) =>
        var rows := Read(rest);
        if rows.None? then None else Some([cells] + rows.value)
  }

  // ---- What is read back ----

  predicate EndsCell(rest: string) {
    rest != "" && (rest[0] == ',' || rest[0] == '\n')
  }

  lemma ReadsOneMore(c: char, tail: string, v: string, rest: string)
    requires ReadQuoted(tail) == Some(Cell(v, rest))
    ensures ReadQuoted((if c == '"' then "\"\"" else [c]) + tail) == Some(Cell([c] + v, rest))
  {
    var s := (if c == '"' then "\"\"" else [c]) + tail;
    if c == '"' {
      assert s[0] == '"' && s[1] == '"' && s[2..] == tail;
    } else {
      assert s[0] == c && s[1..] == tail;
    }
  }

  lemma {:induction false} ReadsDoubled(v: string, rest: string)
    requires EndsCell(rest)
    ensures ReadQuoted(Doubled(v) + ['"'] + rest) == Some(Cell(v, rest))
  {
    if v == "" {
      assert (['"'] + rest)[1..] == rest && Doubled(v) + ['"'] + rest == ['"'] + rest;
    } else {
      var tail, first := Doubled(v[1..]) + ['"'] + rest, if v[0] == '"' then "\"\"" else [v[0]];
      ReadsDoubled(v[1..], rest);
      ReadsOneMore(v[0], tail, v[1..], rest);
      assert Doubled(v) + ['"'] + rest == first + tail;
      assert [v[0]] + v[1..] == v;
    }
  }

  lemma {:induction false} ReadsPlain(v: string, rest: string)
    requires EndsCell(rest) && !NeedsQuotes(v)
    ensures ReadPlain(v + rest) == Some(Cell(v, rest))
  {
    var s := v + rest;
    if v == "" {
      assert s == rest;
    } else {
      ReadsPlain(v[1..], rest);
      assert v[0] in v && s[0] == v[0] && s[1..] == v[1..] + rest;
      assert [v[0]] + v[1..] == v;
    }
  }

  lemma ReadsOpeningQuote(s: string)
    ensures ReadCell(['"'] + s) == ReadQuoted(s)
  {
    assert (['"'] + s)[1..] == s;
  }

  lemma QuotedText(safe: string, rest: string)
    ensures ['"'] + Doubled(safe) + ['"'] + rest == ['"'] + (Doubled(safe) + ['"'] + rest)
  {
  }

  lemma ReadsQuotedCell(safe: string, rest: string)
    requires EndsCell(rest)
    ensures ReadCell(['"'] + Doubled(safe) + ['"'] + rest) == Some(Cell(safe, rest))
  {
    var quoted := Doubled(safe) + ['"'] + rest;
    ReadsDoubled(safe, rest);
    QuotedText(safe, rest);
    ReadsOpeningQuote(quoted);
  }

  lemma ReadsPlainCell(safe: string, rest: string)
    requires EndsCell(rest) && !NeedsQuotes(safe)
    ensures ReadCell(safe + rest) == Some(Cell(safe, rest))
  {
    ReadsPlain(safe, rest);
    if safe != "" {
      assert (safe + rest)[0] == safe[0] && safe[0] in safe;
    } else {
      assert safe + rest == rest;
    }
  }

  /** A printed field is read as its value, neutralised. */
  lemma ReadsField(value: string, rest: string)
    requires EndsCell(rest)
    ensures ReadCell(CsvField(value) + rest) == Some(Cell(Neutralised(value), rest))
  {
    var safe := Neutralised(value);
    if NeedsQuotes(safe) {
      ReadsQuotedCell(safe, rest);
    } else {
      ReadsPlainCell(safe, rest);
    }
  }

  function Cells(values: seq<string>): (cells: seq<string>)
    ensures |cells| == |values|
    ensures forall i :: 0 <= i < |values| ==> cells[i] == Neutralised(values[i])
  {
    if values == [] then [] else [Neutralised(values[0])] + Cells(values[1..])
  }

  /** A record whose first cell is followed by a line break, or by a comma and more. */
  lemma ReadsFirstCell(s: string, text: string, rest: string)
    requires ReadCell(s) == Some(Cell(text, rest)) && EndsCell(rest)
    ensures rest[0] == '\n' ==> ReadRecord(s) == Some(Record([text], rest[1..]))
    ensures rest[0] == ',' && ReadRecord(rest[1..]).Some? ==>
      ReadRecord(s) == Some(Record([text] + ReadRecord(rest[1..]).value.cells, ReadRecord(rest[1..]).value.rest))
  {
  }

  lemma RowSplits(values: seq<string>)
    requires |values| >= 1
    ensures CsvRow(values) ==
      if |values| == 1 then CsvField(values[0]) else CsvField(values[0]) + [','] + CsvRow(values[1..])
  {
    var fields := CsvFields(values);
    assert fields[0] == CsvField(values[0]) && fields[1..] == CsvFields(values[1..]);
  }

  lemma ReadsLastField(value: string, rest: string)
    ensures ReadRecord(CsvField(value) + ['\n'] + rest) == Some(Record([Neutralised(value)], rest))
  {
    var end := ['\n'] + rest;
    ReadsField(value, end);
    assert CsvField(value) + ['\n'] + rest == CsvField(value) + end && end[1..] == rest;
    ReadsFirstCell(CsvField(value) + end, Neutralised(value), end);
  }

  lemma ReadsFirstField(value: string, more: string)
    requires ReadRecord(more).Some?
    ensures ReadRecord(CsvField(value) + [','] + more) ==
      Some(Record([Neutralised(value)] + ReadRecord(more).value.cells, ReadRecord(more).value.rest))
  {
    var end := [','] + more;
    ReadsField(value, end);
    assert CsvField(value) + [','] + more == CsvField(value) + end && end[1..] == more;
    ReadsFirstCell(CsvField(value) + end, Neutralised(value), end);
  }

  lemma JoinedText(first: string, more: string, rest: string)
    ensures first + [','] + more + ['\n'] + rest == first + [','] + (more + ['\n'] + rest)
  {
  }

  lemma {:induction false} ReadsRow(values: seq<string>, rest: string)
    requires values != []
    ensures ReadRecord(CsvRow(values) + ['\n'] + rest) == Some(Record(Cells(values), rest))
  {
    RowSplits(values);
    if |values| == 1 {
      ReadsLastField(values[0], rest);
      assert Cells(values) == [Neutralised(values[0])];
    } else {
      ReadsRow(values[1..], rest);
      ReadsFirstField(values[0], CsvRow(values[1..]) + ['\n'] + rest);
      JoinedText(CsvField(values[0]), CsvRow(values[1..]), rest);
    }
  }

  lemma ReadsEmptyRow(rest: string)
    ensures ReadRecord(CsvRow([]) + ['\n'] + rest) == Some(Record([""], rest))
  {
    EmptyRowIsAmbiguous();
    ReadsRow([""], rest);
    assert Cells([""]) == [""];
  }

  /** A row without cells reads as one empty cell. */
  function RowBack(row: seq<string>): seq<string> {
    if row == [] then [""] else Cells(row)
  }

  /** What a reader makes of printed rows. */
  function ReadBack(rows: seq<seq<string>>): (r: seq<seq<string>>)
    ensures |r| == |rows|
    ensures forall i :: 0 <= i < |rows| ==> r[i] == RowBack(rows[i])
  {
    if rows == [] then [] else [RowBack(rows[0])] + ReadBack(rows[1..])
  }

  lemma {:induction false} ReadsWhatWasPrinted(rows: seq<seq<string>>)
    ensures Read(Print(rows)) == Some(ReadBack(rows))
  {
    if rows != [] {
      ReadsWhatWasPrinted(rows[1..]);
      if rows[0] == [] {
        ReadsEmptyRow(Print(rows[1..]));
      } else {
        ReadsRow(rows[0], Print(rows[1..]));
      }
    }
  }

  /** Every cell is there, with an apostrophe before it if it would start a formula. */
  predicate HoldsCells(cells: seq<string>, values: seq<string>) {
    && |cells| == |values|
    && forall j :: 0 <= j < |values| ==>
         cells[j] == if values[j] != "" && values[j][0] in "=+-@\t\r" then "'" + values[j] else values[j]
  }

  lemma CellsHold(values: seq<string>)
    ensures HoldsCells(Cells(values), values)
  {
  }

  /**
   What a reader finds in printed rows, whatever they hold: as many rows, and in each row every cell
   whole, behind an apostrophe if its first character is one of = + - @ tab CR. A row without cells
   reads as one empty cell.
   */
  lemma PrintedCellsReadBack(rows: seq<seq<string>>)
    ensures var r := Read(Print(rows));
      && r.Some? && |r.value| == |rows|
      && (forall i :: 0 <= i < |rows| ==> if rows[i] == [] then r.value[i] == [""] else HoldsCells(r.value[i], rows[i]))
      && forall i, j :: 0 <= i < |rows| && 0 <= j < |rows[i]| ==>
           j < |r.value[i]| &&
           var value, cell := rows[i][j], r.value[i][j];
           if value != "" && value[0] in {'=', '+', '-', '@', '\t', '\r'}
           then |cell| == |value| + 1 && cell[0] == '\'' && cell[1..] == value
           else cell == value
  {
    ReadsWhatWasPrinted(rows);
    forall i | 0 <= i < |rows| ensures HoldsCells(Cells(rows[i]), rows[i]) {
      CellsHold(rows[i]);
    }
  }

  /** So the cells come back, each behind its apostrophe if it needs one, exactly when no row is empty. */
  lemma RoundTripExactly(rows: seq<seq<string>>)
    ensures Read(Print(rows)).Some? && |Read(Print(rows)).value| == |rows|
    ensures (forall i :: 0 <= i < |rows| ==> HoldsCells(Read(Print(rows)).value[i], rows[i])) <==>
      forall i :: 0 <= i < |rows| ==> rows[i] != []
  {
    PrintedCellsReadBack(rows);
  }

  /** A row without cells and a row of one empty cell print alike. */
  lemma EmptyRowIsAmbiguous()
    ensures CsvRow([]) == CsvRow([""])
  {
    assert CsvFields([""]) == [""];
  }

  /** No cell a reader sees starts a formula. */
  lemma NoCellStartsAFormula(rows: seq<seq<string>>)
    ensures Read(Print(rows)).Some?
    ensures forall i, j :: 0 <= i < |Read(Print(rows)).value| && 0 <= j < |Read(Print(rows)).value[i]| ==>
      var cell := Read(Print(rows)).value[i][j];
      cell == "" || cell[0] !in {'=', '+', '-', '@', '\t', '\r'}
  {
    ReadsWhatWasPrinted(rows);
  }
}
