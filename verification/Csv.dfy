// The CSV reader of the contact import (section 2 of RFC 4180, with three
// separators and three line breaks), and its round trip.

module Csv {

  predicate IsSeparator(c: char) {
    c == ',' || c == ';' || c == '\t'
  }

  predicate IsBreak(c: char) {
    c == '\n' || c == '\r'
  }

  predicate IsBlank(row: seq<string>) {
    forall i | 0 <= i < |row| :: row[i] == ""
  }

  function Keep(rows: seq<seq<string>>, row: seq<string>): seq<seq<string>> {
    if IsBlank(row) then rows else rows + [row]
  }

  /** The reader on what is left of the text, with the rows, the row and the field
      collected so far. */
  function Scan(text: string, rows: seq<seq<string>>, row: seq<string>, field: string, quoted: bool): seq<seq<string>>
    decreases |text|
  {
    if text == "" then Keep(rows, row + [field])
    else
      var ch := text[0];
      if quoted then
        if ch != '"' then Scan(text[1..], rows, row, field + [ch], true)
        else if |text| > 1 && text[1] == '"' then Scan(text[2..], rows, row, field + ['"'], true)
        else Scan(text[1..], rows, row, field, false)
      else if ch == '"' then Scan(text[1..], rows, row, field, true)
      else if IsSeparator(ch) then Scan(text[1..], rows, row + [field], "", false)
      else if IsBreak(ch) then
        var rest := if ch == '\r' && |text| > 1 && text[1] == '\n' then text[2..] else text[1..];
        Scan(rest, Keep(rows, row + [field]), [], "", false)
      else Scan(text[1..], rows, row, field + [ch], false)
  }

  method ParseCsv(text: string) returns (rows: seq<seq<string>>)
    ensures rows == Scan(text, [], [], "", false)
  {
    rows := [];
    var row: seq<string> := [];
    var field := "";
    var quoted := false;
    var i := 0;
    assert text[0..] == text;
    while i < |text|
      invariant 0 <= i <= |text|
      invariant Scan(text[i..], rows, row, field, quoted) == Scan(text, [], [], "", false)
    {
      var ch := text[i];
      var doubled := i + 1 < |text| && text[i + 1] == '"';
      var feed := i + 1 < |text| && text[i + 1] == '\n';
      assert text[i..][1..] == text[i + 1..];
      assert doubled || feed ==> text[i..][2..] == text[i + 2..];
      if quoted {
        if ch == '"' {
          if doubled {
            field := field + ['"'];
            i := i + 1;
          } else {
            quoted := false;
          }
        } else {
          field := field + [ch];
        }
      } else if ch == '"' {
        quoted := true;
      } else if IsSeparator(ch) {
        row := row + [field];
        field := "";
      } else if IsBreak(ch) {
        if ch == '\r' && feed {
          i := i + 1;
        }
        row := row + [field];
        field := "";
        rows := Keep(rows, row);
        row := [];
      } else {
        field := field + [ch];
      }
      i := i + 1;
    }
    row := row + [field];
    rows := Keep(rows, row);
  }

  // ---- Printing ----

  /** A field as a writer may print it; `sep` stands behind it when another follows. */
  datatype Cell = Cell(value: string, quoted: bool, sep: char)

  datatype Line = Line(cells: seq<Cell>, end: string)

  predicate Plain(value: string) {
    forall i | 0 <= i < |value| :: value[i] !in "\",;\t\n\r"
  }

  predicate ValidCell(c: Cell) {
    c.sep in ",;\t" && (c.quoted || Plain(c.value))
  }

  /** Every line has a cell and ends in LF, CRLF or CR; the last may end in nothing. */
  predicate ValidLines(lines: seq<Line>) {
    forall i | 0 <= i < |lines| ::
      && lines[i].cells != []
      && (forall k | 0 <= k < |lines[i].cells| :: ValidCell(lines[i].cells[k]))
      && (lines[i].end in {"\n", "\r\n", "\r"} || (i == |lines| - 1 && lines[i].end == ""))
  }

  function Escape(value: string): string {
    if value == "" then ""
    else (if value[0] == '"' then "\"\"" else [value[0]]) + Escape(value[1..])
  }

  function PrintCell(c: Cell): string {
    if c.quoted then "\"" + (Escape(c.value) + "\"") else c.value
  }

  function PrintCells(cells: seq<Cell>): string
    requires cells != []
  {
    if |cells| == 1 then PrintCell(cells[0])
    else PrintCell(cells[0]) + ([cells[0].sep] + PrintCells(cells[1..]))
  }

  function Print(lines: seq<Line>): string
    requires ValidLines(lines)
  {
    if lines == [] then "" else PrintCells(lines[0].cells) + (lines[0].end + Print(lines[1..]))
  }

  function Values(cells: seq<Cell>): seq<string> {
    seq(|cells|, i requires 0 <= i < |cells| => cells[i].value)
  }

  predicate AllEmpty(cells: seq<Cell>) {
    forall k | 0 <= k < |cells| :: cells[k].value == ""
  }

  /** The rows of the lines, without those whose fields are all empty. */
  function Rows(lines: seq<Line>): seq<seq<string>> {
    if lines == [] then []
    else if AllEmpty(lines[0].cells) then Rows(lines[1..])
    else [Values(lines[0].cells)] + Rows(lines[1..])
  }

  // ---- Round trip ----

  lemma {:induction false} ScanPlain(
    value: string, rest: string, rows: seq<seq<string>>, row: seq<string>, field: string)
    requires Plain(value)
    ensures Scan(value + rest, rows, row, field, false) == Scan(rest, rows, row, field + value, false)
    decreases |value|
  {
    if value == "" {
      assert value + rest == rest && field + value == field;
    } else {
      assert (value + rest)[1..] == value[1..] + rest;
      assert (field + [value[0]]) + value[1..] == field + value;
      ScanPlain(value[1..], rest, rows, row, field + [value[0]]);
    }
  }

  predicate NoQuoteFirst(rest: string) {
    rest == "" || rest[0] != '"'
  }

  lemma {:induction false} ScanEscaped(
    value: string, rest: string, rows: seq<seq<string>>, row: seq<string>, field: string)
    requires NoQuoteFirst(rest)
    ensures Scan(Escape(value) + "\"" + rest, rows, row, field, true) == Scan(rest, rows, row, field + value, false)
    decreases |value|
  {
    var text := Escape(value) + "\"" + rest;
    if value == "" {
      assert text == "\"" + rest && text[1..] == rest && field + value == field;
    } else {
      var tail := Escape(value[1..]) + "\"" + rest;
      assert (field + [value[0]]) + value[1..] == field + value;
      if value[0] == '"' {
        assert text == "\"\"" + tail && text[2..] == tail;
      } else {
        assert text == [value[0]] + tail && text[1..] == tail;
      }
      ScanEscaped(value[1..], rest, rows, row, field + [value[0]]);
    }
  }

  lemma {:induction false} ScanUnclosed(value: string, rows: seq<seq<string>>, row: seq<string>, field: string)
    ensures Scan(Escape(value), rows, row, field, true) == Keep(rows, row + [field + value])
    decreases |value|
  {
    if value == "" {
      assert field + value == field;
    } else {
      var text := Escape(value);
      assert (field + [value[0]]) + value[1..] == field + value;
      if value[0] == '"' {
        assert text[2..] == Escape(value[1..]);
      } else {
        assert text[1..] == Escape(value[1..]);
      }
      ScanUnclosed(value[1..], rows, row, field + [value[0]]);
    }
  }

  /** A quote that is never closed takes the rest of the text, breaks and separators included. */
  lemma UnclosedQuote(value: string, rows: seq<seq<string>>, row: seq<string>)
    ensures Scan("\"" + Escape(value), rows, row, "", false)
         == if value == "" && (forall i | 0 <= i < |row| :: row[i] == "") then rows else rows + [row + [value]]
  {
    assert ("\"" + Escape(value))[1..] == Escape(value);
    ScanUnclosed(value, rows, row, "");
    assert "" + value == value;
    var whole := row + [value];
    assert whole[|row|] == value;
    assert IsBlank(whole) ==> forall i | 0 <= i < |row| :: row[i] == whole[i];
  }

  lemma ScanCell(c: Cell, rest: string, rows: seq<seq<string>>, row: seq<string>)
    requires ValidCell(c) && NoQuoteFirst(rest)
    ensures Scan(PrintCell(c) + rest, rows, row, "", false) == Scan(rest, rows, row, c.value, false)
  {
    if c.quoted {
      assert (PrintCell(c) + rest)[1..] == Escape(c.value) + "\"" + rest;
      ScanEscaped(c.value, rest, rows, row, "");
    } else {
      ScanPlain(c.value, rest, rows, row, "");
    }
    assert "" + c.value == c.value;
  }

  lemma ValuesAfterFirst(cells: seq<Cell>, row: seq<string>)
    requires |cells| > 1
    ensures row + [cells[0].value] + Values(cells[1..][..|cells| - 2]) == row + Values(cells[..|cells| - 1])
  {
    assert cells[..|cells| - 1] == [cells[0]] + cells[1..][..|cells| - 2];
  }

  lemma ScanSeparator(sep: char, after: string, rows: seq<seq<string>>, row: seq<string>, field: string)
    requires sep in ",;\t"
    ensures Scan([sep] + after, rows, row, field, false) == Scan(after, rows, row + [field], "", false)
  {
    assert ([sep] + after)[1..] == after;
  }

  lemma PrintFirst(cells: seq<Cell>, rest: string)
    requires |cells| > 1
    ensures PrintCells(cells) + rest == PrintCell(cells[0]) + ([cells[0].sep] + (PrintCells(cells[1..]) + rest))
  {
  }

  lemma ScanFirstCell(cells: seq<Cell>, rest: string, rows: seq<seq<string>>, row: seq<string>)
    requires |cells| > 1 && ValidCell(cells[0])
    ensures Scan(PrintCells(cells) + rest, rows, row, "", false)
         == Scan(PrintCells(cells[1..]) + rest, rows, row + [cells[0].value], "", false)
  {
    var after := PrintCells(cells[1..]) + rest;
    PrintFirst(cells, rest);
    ScanCell(cells[0], [cells[0].sep] + after, rows, row);
    ScanSeparator(cells[0].sep, after, rows, row, cells[0].value);
  }

  lemma {:induction false} ScanCells(cells: seq<Cell>, rest: string, rows: seq<seq<string>>, row: seq<string>)
    requires cells != [] && forall k | 0 <= k < |cells| :: ValidCell(cells[k])
    requires NoQuoteFirst(rest)
    ensures Scan(PrintCells(cells) + rest, rows, row, "", false)
         == Scan(rest, rows, row + Values(cells[..|cells| - 1]), cells[|cells| - 1].value, false)
    decreases |cells|
  {
    if |cells| == 1 {
      ScanCell(cells[0], rest, rows, row);
      assert row + Values(cells[..0]) == row;
    } else {
      ScanFirstCell(cells, rest, rows, row);
      ScanCells(cells[1..], rest, rows, row + [cells[0].value]);
      ValuesAfterFirst(cells, row);
    }
  }

  lemma CellsStart(cells: seq<Cell>)
    requires cells != [] && ValidCell(cells[0])
    ensures if PrintCells(cells) == "" then |cells| == 1 && cells[0].value == "" else PrintCells(cells)[0] != '\n'
  {
  }

  /** A text that starts with LF starts with an empty, unquoted, LF-ended line. */
  lemma FeedFirst(lines: seq<Line>)
    requires ValidLines(lines) && Print(lines) != "" && Print(lines)[0] == '\n'
    ensures Values(lines[0].cells) == [""]
    ensures Print(lines)[1..] == Print(lines[1..])
  {
    var cells, after := lines[0].cells, lines[0].end + Print(lines[1..]);
    CellsStart(cells);
    assert Print(lines) == after;
    assert lines[0].end == "\n";
  }

  /** What reading a printed line and its line break leaves to be read. */
  lemma ScanLine(cells: seq<Cell>, end: string, after: string, rows: seq<seq<string>>)
    requires cells != [] && forall k | 0 <= k < |cells| :: ValidCell(cells[k])
    requires end in {"\n", "\r\n", "\r"} || (end == "" && after == "")
    ensures var fed := end == "\r" && after != "" && after[0] == '\n';
            Scan(PrintCells(cells) + (end + after), rows, [], "", false)
            == Scan(if fed then after[1..] else after, Keep(rows, Values(cells)), [], "", false)
  {
    var n := |cells| - 1;
    var rest := end + after;
    ScanCells(cells, rest, rows, []);
    assert [] + Values(cells[..n]) + [cells[n].value] == Values(cells);
    assert [] + [""] == [""];
    if end != "" {
      assert end == "\r\n" ==> rest[2..] == after;
      assert end != "\r\n" ==> rest[1..] == after;
      assert after != "" && end != "\r\n" ==> rest[2..] == after[1..];
    }
  }

  lemma Associative<T>(a: seq<T>, b: seq<T>, c: seq<T>)
    ensures (a + b) + c == a + (b + c)
  {
  }

  lemma KeepValues(rows: seq<seq<string>>, cells: seq<Cell>)
    ensures Keep(rows, Values(cells)) == if AllEmpty(cells) then rows else rows + [Values(cells)]
  {
    assert forall k | 0 <= k < |cells| :: Values(cells)[k] == cells[k].value;
  }

  lemma RowsStep(lines: seq<Line>, rows: seq<seq<string>>)
    requires lines != []
    ensures Keep(rows, Values(lines[0].cells)) + Rows(lines[1..]) == rows + Rows(lines)
  {
    KeepValues(rows, lines[0].cells);
    Associative(rows, [Values(lines[0].cells)], Rows(lines[1..]));
  }

  lemma BlankFirst(lines: seq<Line>)
    requires lines != [] && Values(lines[0].cells) == [""]
    ensures Rows(lines) == Rows(lines[1..])
  {
  }

  lemma {:induction false} ScanLines(lines: seq<Line>, rows: seq<seq<string>>)
    requires ValidLines(lines)
    ensures Scan(Print(lines), rows, [], "", false) == rows + Rows(lines)
    decreases |lines|
  {
    if lines == [] {
      assert [] + [""] == [""];
    } else {
      var tail := lines[1..];
      var after := Print(tail);
      var kept := Keep(rows, Values(lines[0].cells));
      var fed := lines[0].end == "\r" && after != "" && after[0] == '\n';
      ScanLine(lines[0].cells, lines[0].end, after, rows);
      RowsStep(lines, rows);
      if fed {
        FeedFirst(tail);
        BlankFirst(tail);
        ScanLines(tail[1..], kept);
      } else {
        ScanLines(tail, kept);
      }
    }
  }

  /** Whatever quoting, separators and line breaks a writer chooses, reading gives back
      exactly its rows minus those whose fields are all empty. */
  lemma RoundTrip(lines: seq<Line>)
    requires ValidLines(lines)
    ensures Scan(Print(lines), [], [], "", false) == Rows(lines)
  {
    ScanLines(lines, []);
    assert [] + Rows(lines) == Rows(lines);
  }

  predicate Filled(row: seq<string>) {
    exists k | 0 <= k < |row| :: row[k] != ""
  }

  /** Every table of strings has such a printing, so every table without blank rows is
      read back unchanged. */
  function Quoted(table: seq<seq<string>>): seq<Line> {
    seq(|table|, i requires 0 <= i < |table| =>
      Line(seq(|table[i]|, k requires 0 <= k < |table[i]| => Cell(table[i][k], true, ',')), "\n"))
  }

  lemma {:induction false} QuotedRows(table: seq<seq<string>>)
    requires forall i | 0 <= i < |table| :: Filled(table[i])
    ensures ValidLines(Quoted(table)) && Rows(Quoted(table)) == table
  {
    if table != [] {
      QuotedRows(table[1..]);
      assert Quoted(table)[1..] == Quoted(table[1..]);
      assert Values(Quoted(table)[0].cells) == table[0];
      assert table == [table[0]] + table[1..];
    }
  }

  lemma TableRoundTrip(table: seq<seq<string>>)
    requires forall i | 0 <= i < |table| :: Filled(table[i])
    ensures ValidLines(Quoted(table))
    ensures Scan(Print(Quoted(table)), [], [], "", false) == table
  {
    QuotedRows(table);
    RoundTrip(Quoted(table));
  }
}
