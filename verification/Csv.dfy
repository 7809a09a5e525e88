/**
 The CSV export of frontend/src/utils/csv.ts, and a reader for the grammar of section 2 of RFC 4180 that
 inverts it.  Cells are the strings of `runToCsvRow`, before escaping.
 */
module Csv {
  import opened Options
  import opened Texts

  const CRLF := "\r\n"
  const BOM := "\U{FEFF}"

  /** The columns of CSV_HEADERS, which are the cells of every row `runToCsvRow` makes. */
  const COLUMNS := ["index", "reportName", "datasetName", "refreshType", "status", "scheduledTime", "startTime",
                    "endTime", "duration", "requestId", "errorMessage"]

  /** Records of cells. */
  type Table = seq<seq<string>>

  // ---------------------------------------------------------------- the printer

  predicate NeedsQuotes(cell: string) {
    '"' in cell || ',' in cell || '\r' in cell || '\n' in cell
  }

  /** `s.replace(/"/g, '""')` */
  function DoubleQuotes(cell: string): string {
    if cell == "" then ""
    else (if cell[0] == '"' then "\"\"" else [cell[0]]) + DoubleQuotes(cell[1..])
  }

  /** `escapeCsvField` on a string. */
  function EscapeCsvField(cell: string): string {
    if NeedsQuotes(cell) then "\"" + DoubleQuotes(cell) + "\"" else cell
  }

  function Escaped(cells: seq<string>): (escaped: seq<string>)
    ensures |escaped| == |cells|
  {
    if cells == [] then [] else [EscapeCsvField(cells[0])] + Escaped(cells[1..])
  }

  function Line(cells: seq<string>): string {
    Join(Escaped(cells), ",")
  }

  function Lines(records: seq<seq<string>>): seq<string> {
    if records == [] then [] else [Line(records[0])] + Lines(records[1..])
  }

  function TableText(table: Table): string {
    Join(Lines(table), CRLF)
  }

  function CsvText(header: seq<string>, rows: seq<seq<string>>): string {
    TableText([header] + rows)
  }

  lemma {:induction false} LinesSnoc(records: seq<seq<string>>, last: seq<string>)
    ensures Lines(records + [last]) == Lines(records) + [Line(last)]
    decreases |records|
  {
    if records == [] {
      assert [last][1..] == [];
    } else {
      assert (records + [last])[1..] == records[1..] + [last];
      LinesSnoc(records[1..], last);
    }
  }

  /** `buildCsvString`: the header line, then one line pushed per row. */
  method BuildCsvString(header: seq<string>, rows: seq<seq<string>>) returns (text: string)
    ensures text == CsvText(header, rows)
  {
    var lines := [Line(header)];
    assert Lines([header]) == [Line(header)] + Lines([]);
    for n := 0 to |rows|
      invariant lines == Lines([header] + rows[..n])
    {
      LinesSnoc([header] + rows[..n], rows[n]);
      assert [header] + rows[..n + 1] == [header] + rows[..n] + [rows[n]];
      lines := lines + [Line(rows[n])];
    }
    assert rows[..|rows|] == rows;
    text := Join(lines, CRLF);
  }

  /** `buildCsv` */
  method BuildCsv(header: seq<string>, rows: seq<seq<string>>) returns (text: string)
    ensures text == BOM + CsvText(header, rows) && text[0] == '\U{FEFF}' && text[1..] == CsvText(header, rows)
  {
    var body := BuildCsvString(header, rows);
    text := BOM + body;
  }

  // ---------------------------------------------------------------- the reader

  /** Where the reader stands: at the start of a field, inside one, inside quotes, after a closing quote. */
  datatype Mode = Start | Plain | Quoted | Closed

  /** Reads `text` with `records` and `fields` complete and `field` begun; None for text outside the grammar. */
  function Read(text: string, mode: Mode, records: Table, fields: seq<string>, field: string): Option<Table>
    decreases |text|
  {
    if text == "" then
      if mode == Quoted then None
      else if mode == Start && fields == [] && records != [] then Some(records)   // the line break that may end a file
      else Some(records + [fields + [field]])
    else
      var c, rest := text[0], text[1..];
      if mode == Quoted then
        if c == '"' then Read(rest, Closed, records, fields, field)
        else Read(rest, Quoted, records, fields, field + [c])
      else if c == ',' then Read(rest, Start, records, fields + [field], "")
      else if c == '\r' then
        if rest != "" && rest[0] == '\n' then Read(rest[1..], Start, records + [fields + [field]], [], "")
        else None
      else if c == '\n' then None
      else if c == '"' then
        match mode
        case Start => Read(rest, Quoted, records, fields, "")
        case Closed => Read(rest, Quoted, records, fields, field + "\"")   // a doubled quote
        case _ => None
      else if mode == Closed then None
      else Read(rest, Plain, records, fields, field + [c])
  }

  /** A file by the grammar of section 2 of RFC 4180, read as its records. */
  function Parse(text: string): Option<Table> {
    Read(text, Start, [], [], "")
  }

  /**
   * What the grammar does not allow is refused wherever it comes: a CR or LF alone, a quote left open or opened inside
   * a plain field, and anything but a separator after a closing quote.
   */
  lemma RefusesMalformed(c: char, rest: string, mode: Mode, records: Table, fields: seq<string>, field: string)
    ensures Read("", Quoted, records, fields, field) == None
    ensures mode != Quoted ==> Read(['\n'] + rest, mode, records, fields, field) == None
    ensures mode != Quoted && (rest == "" || rest[0] != '\n') ==>
              Read(['\r'] + rest, mode, records, fields, field) == None
    ensures Read(['"'] + rest, Plain, records, fields, field) == None
    ensures c != '"' && c != ',' && c != '\r' ==> Read([c] + rest, Closed, records, fields, field) == None
  {
    assert (['\r'] + rest)[1..] == rest;
  }

  // ---------------------------------------------------------------- reading back what was printed

  lemma {:induction false} ReadPlain(cell: string, mode: Mode,
      rest: string, records: Table, fields: seq<string>, field: string)
    requires !NeedsQuotes(cell) && (mode.Start? || mode.Plain?)
    ensures Read(cell + rest, mode, records, fields, field)
            == Read(rest, if cell == "" then mode else Plain, records, fields, field + cell)
    decreases |cell|
  {
    if cell == "" {
      assert cell + rest == rest && field + cell == field;
    } else {
      assert (cell + rest)[1..] == cell[1..] + rest;
      assert field + cell == (field + [cell[0]]) + cell[1..];
      ReadPlain(cell[1..], Plain, rest, records, fields, field + [cell[0]]);
    }
  }

  lemma ReadDoubledQuote(tail: string, records: Table, fields: seq<string>, field: string)
    ensures Read("\"\"" + tail, Quoted, records, fields, field) == Read(tail, Quoted, records, fields, field + "\"")
  {
    var text := "\"\"" + tail;
    assert text[1..] == "\"" + tail && text[1..][1..] == tail;
    assert Read(text[1..], Closed, records, fields, field) == Read(tail, Quoted, records, fields, field + "\"");
  }

  lemma ReadQuotedChar(c: char, tail: string, records: Table, fields: seq<string>, field: string)
    ensures Read([c] + tail, Quoted, records, fields, field)
            == if c == '"' then Read(tail, Closed, records, fields, field)
               else Read(tail, Quoted, records, fields, field + [c])
  {
    assert ([c] + tail)[1..] == tail;
  }

  lemma {:induction false} ReadQuoted(cell: string, rest: string, records: Table, fields: seq<string>, field: string)
    ensures Read(DoubleQuotes(cell) + "\"" + rest, Quoted, records, fields, field)
            == Read(rest, Closed, records, fields, field + cell)
    decreases |cell|
  {
    hide Read;
    if cell == "" {
      ReadQuotedChar('"', rest, records, fields, field);
      assert DoubleQuotes(cell) + "\"" + rest == ['"'] + rest && field + cell == field;
    } else {
      var c, tail := cell[0], DoubleQuotes(cell[1..]) + "\"" + rest;
      ReadQuoted(cell[1..], rest, records, fields, field + [c]);
      assert field + cell == (field + [c]) + cell[1..];
      if c == '"' {
        assert DoubleQuotes(cell) + "\"" + rest == "\"\"" + tail && field + [c] == field + "\"";
        ReadDoubledQuote(tail, records, fields, field);
      } else {
        assert DoubleQuotes(cell) + "\"" + rest == [c] + tail;
        ReadQuotedChar(c, tail, records, fields, field);
      }
    }
  }

  /** Where the reader stands once it has taken in a printed cell. */
  function AfterCell(cell: string): Mode {
    if NeedsQuotes(cell) then Closed else if cell == "" then Start else Plain
  }

  /** After a printed cell the reader has it whole. */
  lemma ReadCell(cell: string, rest: string, records: Table, fields: seq<string>)
    ensures Read(EscapeCsvField(cell) + rest, Start, records, fields, "")
            == Read(rest, AfterCell(cell), records, fields, cell)
  {
    if NeedsQuotes(cell) {
      var inner := DoubleQuotes(cell) + "\"" + rest;
      assert EscapeCsvField(cell) + rest == "\"" + inner && ("\"" + inner)[1..] == inner;
      ReadQuoted(cell, rest, records, fields, "");
      assert "" + cell == cell;
    } else {
      ReadPlain(cell, Start, rest, records, fields, "");
      assert "" + cell == cell;
    }
  }

  /** The records a reader takes a file for: a last record of one empty cell looks like a closing line break. */
  function AsRead(table: Table): Table {
    if |table| > 1 && table[|table| - 1] == [""] then table[..|table| - 1] else table
  }

  lemma {:induction false} ReadLine(cells: seq<string>, rest: string, records: Table, fields: seq<string>)
    requires cells != [] && (rest == "" || CRLF <= rest)
    ensures Read(Line(cells) + rest, Start, records, fields, "")
            == if rest == "" then Some(AsRead(records + [fields + cells]))
               else Read(rest[2..], Start, records + [fields + cells], [], "")
    decreases |cells|
  {
    hide EscapeCsvField;
    var cell := cells[0];
    if |cells| == 1 {
      ReadCell(cell, rest, records, fields);
      assert cells == [cell] && Line(cells) == EscapeCsvField(cell);
      if rest == "" {
        ReadEnd(AfterCell(cell), records, fields, cell);
      } else {
        assert rest[1..][1..] == rest[2..];
      }
    } else {
      var tail := "," + (Line(cells[1..]) + rest);
      assert Escaped(cells)[1..] == Escaped(cells[1..]);
      assert Line(cells) + rest == EscapeCsvField(cell) + tail;
      ReadCell(cell, tail, records, fields);
      assert tail[1..] == Line(cells[1..]) + rest;
      ReadLine(cells[1..], rest, records, fields + [cell]);
      assert fields + cells == (fields + [cell]) + cells[1..];
    }
  }

  lemma ReadEnd(mode: Mode, records: Table, fields: seq<string>, field: string)
    requires mode != Quoted && (mode == Start <==> field == "")
    ensures Read("", mode, records, fields, field) == Some(AsRead(records + [fields + [field]]))
  {
    var last := fields + [field];
    assert (records + [last])[..|records|] == records;
    assert last[|fields|] == field && (last == [""] ==> |last| == 1);
  }

  lemma TableTextUnrolls(table: Table)
    requires table != []
    ensures TableText(table)
            == if |table| == 1 then Line(table[0]) else Line(table[0]) + (CRLF + TableText(table[1..]))
  {
    hide Line;
    if |table| == 1 {
      assert Lines(table) == [Line(table[0])] + Lines([]);
    } else {
      assert Lines(table)[1..] == Lines(table[1..]);
    }
  }

  lemma {:induction false} ReadRecords(table: Table, end: string, records: Table)
    requires table != [] && (end == "" || end == CRLF) && forall n :: 0 <= n < |table| ==> table[n] != []
    ensures Read(TableText(table) + end, Start, records, [], "")
            == Some(if end == "" then AsRead(records + table) else records + table)
    decreases |table|
  {
    hide Line, TableText, AsRead;
    TableTextUnrolls(table);
    assert [] + table[0] == table[0];
    if |table| == 1 {
      ReadLine(table[0], end, records, []);
      assert records + [table[0]] == records + table;
    } else {
      var rest := CRLF + (TableText(table[1..]) + end);
      ReadLine(table[0], rest, records, []);
      assert TableText(table) + end == Line(table[0]) + rest && rest[2..] == TableText(table[1..]) + end;
      ReadRecords(table[1..], end, records + [table[0]]);
      assert records + table == (records + [table[0]]) + table[1..];
    }
  }

  /**
   * Reading the export back gives the exact header and cells, whatever characters the cells hold, if and only
   * if the last row is not a single empty cell; that one row reads as the line break that may end a file.
   */
  lemma ParseInvertsExport(header: seq<string>, rows: seq<seq<string>>)
    requires header != [] && forall n :: 0 <= n < |rows| ==> rows[n] != []
    ensures Parse(CsvText(header, rows)) == Some([header] + rows) <==> rows == [] || rows[|rows| - 1] != [""]
    ensures rows != [] && rows[|rows| - 1] == [""] ==>
              Parse(CsvText(header, rows)) == Some([header] + rows[..|rows| - 1])
    ensures Parse(CsvText(header, rows) + CRLF) == Some([header] + rows)
  {
    hide Read, TableText;
    var table := [header] + rows;
    ReadRecords(table, "", []);
    ReadRecords(table, CRLF, []);
    assert TableText(table) + "" == TableText(table) && [] + table == table;
    if rows != [] { assert table[..|table| - 1] == [header] + rows[..|rows| - 1]; }
  }

  /** What the portal exports, rows of as many cells as there are columns, always reads back exactly. */
  lemma ExportReadsBack(header: seq<string>, rows: seq<seq<string>>)
    requires |header| == |COLUMNS| && forall n :: 0 <= n < |rows| ==> |rows[n]| == |COLUMNS|
    ensures Parse(CsvText(header, rows)) == Some([header] + rows)
  {
    ParseInvertsExport(header, rows);
  }

  // ---------------------------------------------------------------- counting lines

  /** How often a line break occurs; a split at line breaks has one piece more. */
  function Breaks(text: string): nat {
    if |text| < 2 then 0
    else (if text[0] == '\r' && text[1] == '\n' then 1 else 0) + Breaks(text[1..])
  }

  /** `text.split("\r\n")`, as the number of its pieces. */
  function Pieces(text: string): nat {
    if |text| < 2 then 1
    else if text[0] == '\r' && text[1] == '\n' then 1 + Pieces(text[2..])
    else Pieces(text[1..])
  }

  lemma {:induction false} PiecesAreBreaks(text: string)
    ensures Pieces(text) == 1 + Breaks(text)
    decreases |text|
  {
    if |text| >= 2 {
      if text[0] == '\r' && text[1] == '\n' {
        PiecesAreBreaks(text[2..]);
        if |text| > 2 { assert text[1..][1..] == text[2..]; }
      } else {
        PiecesAreBreaks(text[1..]);
      }
    }
  }

  /** Texts that meet without forming a line break across the seam. */
  predicate Seamless(a: string, b: string) {
    a == "" || b == "" || a[|a| - 1] != '\r' || b[0] != '\n'
  }

  lemma {:induction false} BreaksCat(a: string, b: string)
    requires Seamless(a, b)
    ensures Breaks(a + b) == Breaks(a) + Breaks(b)
    decreases |a|
  {
    if a == "" {
      assert a + b == b;
    } else if |a| == 1 {
      assert (a + b)[1..] == b;
    } else {
      assert (a + b)[1..] == a[1..] + b;
      BreaksCat(a[1..], b);
    }
  }

  lemma {:induction false} BreaksDoubled(cell: string)
    ensures Breaks(DoubleQuotes(cell)) == Breaks(cell)
    ensures cell == "" <==> DoubleQuotes(cell) == ""
    ensures cell != "" ==> DoubleQuotes(cell)[0] == cell[0]
    decreases |cell|
  {
    if cell != "" {
      var c, rest := cell[0], DoubleQuotes(cell[1..]);
      BreaksDoubled(cell[1..]);
      if c == '"' {
        assert DoubleQuotes(cell) == "\"\"" + rest;
        BreaksCat("\"\"", rest);
        BreaksCat("\"", cell[1..]);
        assert cell == "\"" + cell[1..];
      } else {
        assert DoubleQuotes(cell) == [c] + rest && ([c] + rest)[1..] == rest;
      }
    }
  }

  lemma BreaksEscaped(cell: string)
    ensures Breaks(EscapeCsvField(cell)) == Breaks(cell)
    ensures EscapeCsvField(cell) == "" || (EscapeCsvField(cell)[0] != '\n'
      && EscapeCsvField(cell)[|EscapeCsvField(cell)| - 1] != '\r')
  {
    if NeedsQuotes(cell) {
      var inner := DoubleQuotes(cell);
      BreaksDoubled(cell);
      assert EscapeCsvField(cell) == "\"" + (inner + "\"");
      BreaksCat(inner, "\"");
      BreaksCat("\"", inner + "\"");
    }
  }

  function BreaksIn(cells: seq<string>): nat {
    if cells == [] then 0 else Breaks(cells[0]) + BreaksIn(cells[1..])
  }

  function BreaksInAll(records: Table): nat {
    if records == [] then 0 else BreaksIn(records[0]) + BreaksInAll(records[1..])
  }

  predicate CleanEnds(text: string) {
    text == "" || (text[0] != '\n' && text[|text| - 1] != '\r')
  }

  lemma CommaSeam(first: string, rest: string)
    requires CleanEnds(first) && CleanEnds(rest)
    ensures Breaks(first + ("," + rest)) == Breaks(first) + Breaks(rest) && CleanEnds(first + ("," + rest))
  {
    BreaksCat(",", rest);
    BreaksCat(first, "," + rest);
  }

  lemma CrlfSeam(first: string, rest: string)
    requires CleanEnds(first) && (rest == "" || rest[0] != '\n')
    ensures Breaks(first + (CRLF + rest)) == Breaks(first) + 1 + Breaks(rest)
    ensures (first + (CRLF + rest))[0] != '\n'
  {
    assert (CRLF + rest)[1..] == "\n" + rest;
    BreaksCat("\n", rest);
    BreaksCat(first, CRLF + rest);
  }

  lemma {:induction false} BreaksInLine(cells: seq<string>)
    ensures Breaks(Line(cells)) == BreaksIn(cells) && CleanEnds(Line(cells))
    decreases |cells|
  {
    hide Breaks, EscapeCsvField;
    if cells == [] {
      assert Breaks("") == 0 by { NoReturnNoBreak(""); }
    } else {
      BreaksEscaped(cells[0]);
      var first := EscapeCsvField(cells[0]);
      BreaksInLine(cells[1..]);
      if |cells| == 1 {
        assert Line(cells) == first;
      } else {
        assert Escaped(cells)[1..] == Escaped(cells[1..]);
        CommaSeam(first, Line(cells[1..]));
        assert Line(cells) == first + ("," + Line(cells[1..]));
      }
    }
  }

  lemma {:induction false} BreaksInText(table: Table)
    requires table != []
    ensures Breaks(TableText(table)) == |table| - 1 + BreaksInAll(table)
    ensures TableText(table) != "" ==> TableText(table)[0] != '\n'
    decreases |table|
  {
    hide Breaks, Line, BreaksIn, TableText;
    BreaksInLine(table[0]);
    TableTextUnrolls(table);
    if |table| > 1 {
      BreaksInText(table[1..]);
      CrlfSeam(Line(table[0]), TableText(table[1..]));
    }
  }

  /** Splitting at line breaks gives a piece per line and one more for every line break inside a cell. */
  lemma LineCount(header: seq<string>, rows: seq<seq<string>>)
    ensures Pieces(CsvText(header, rows)) == 1 + |rows| + BreaksInAll([header] + rows)
  {
    PiecesAreBreaks(CsvText(header, rows));
    BreaksInText([header] + rows);
  }

  /** The documented count, 1 + rows, holds if and only if no cell contains a line break. */
  lemma DocumentedLineCountIff(header: seq<string>, rows: seq<seq<string>>)
    ensures Pieces(CsvText(header, rows)) == 1 + |rows| <==>
            forall r :: r in [header] + rows ==> forall c :: c in r ==> Breaks(c) == 0
  {
    LineCount(header, rows);
    NoBreaksIff([header] + rows);
  }

  lemma {:induction false} NoBreaksIff(table: Table)
    ensures BreaksInAll(table) == 0 <==> forall r :: r in table ==> forall c :: c in r ==> Breaks(c) == 0
    decreases |table|
  {
    hide Breaks;
    if table != [] {
      NoBreaksInIff(table[0]);
      NoBreaksIff(table[1..]);
      assert table[0] in table && forall r :: r in table <==> r == table[0] || r in table[1..];
    }
  }

  lemma {:induction false} NoBreaksInIff(cells: seq<string>)
    ensures BreaksIn(cells) == 0 <==> forall c :: c in cells ==> Breaks(c) == 0
    decreases |cells|
  {
    hide Breaks;
    if cells != [] {
      NoBreaksInIff(cells[1..]);
      assert cells[0] in cells && forall c :: c in cells <==> c == cells[0] || c in cells[1..];
    }
  }

  /** It does fail: one run whose error message, the last of its eleven cells, has a line break in it. */
  lemma DocumentedLineCountCanFail(header: seq<string>, cells: seq<string>)
    requires |header| == 11 == |COLUMNS| && |cells| == 10 && BreaksIn(header) == BreaksIn(cells) == 0
    ensures Pieces(CsvText(header, [cells + ["a\r\nb"]])) == 3
  {
    hide CsvText, Pieces, Breaks;
    var run := cells + ["a\r\nb"];
    LineCount(header, [run]);
    OneBreak();
    BreaksInCat(cells, ["a\r\nb"]);
    assert BreaksIn(["a\r\nb"]) == 1;
    var table := [header] + [run];
    assert table[0] == header && table[1..] == [run] && [run][0] == run && [run][1..] == [];
    assert BreaksInAll([run]) == BreaksIn(run) + BreaksInAll([]);
    assert BreaksInAll(table) == BreaksIn(header) + BreaksInAll([run]);
  }

  lemma OneBreak()
    ensures Breaks("a\r\nb") == 1
  {
    assert "a\r\nb"[1..] == "\r\nb" && "\r\nb"[1..] == "\nb" && "\nb"[1..] == "b";
  }

  lemma {:induction false} BreaksInCat(a: seq<string>, b: seq<string>)
    ensures BreaksIn(a + b) == BreaksIn(a) + BreaksIn(b)
    decreases |a|
  {
    if a == [] {
      assert a + b == b;
    } else {
      assert (a + b)[1..] == a[1..] + b;
      BreaksInCat(a[1..], b);
    }
  }

  lemma {:induction false} NoReturnNoBreak(text: string)
    requires '\r' !in text
    ensures Breaks(text) == 0
    decreases |text|
  {
    if |text| >= 2 {
      NoReturnNoBreak(text[1..]);
    }
  }
}
