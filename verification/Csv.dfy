/** The CSV reader of the import page, against the quoting rules of section 2 of RFC 4180. */
module Csv {
  import opened JsText

  type Row = seq<Text>

  /** A row of nothing but white space. */
  ghost predicate Blank(row: Row) {
    forall cell :: cell in row ==> !HasText(cell)
  }

  ghost function NonBlank(rows: seq<Row>): seq<Row> {
    if rows == [] then [] else (if Blank(rows[0]) then [] else [rows[0]]) + NonBlank(rows[1..])
  }

  /** What the reader makes of `t`, having read `row` and `field` of the current line. */
  function Scan(t: Text, field: Text, quoted: bool, row: Row): seq<Row>
    decreases |t|
  {
    if t == [] then [row + [field]]
    else if quoted then
      if t[0] == QUOTE && |t| > 1 && t[1] == QUOTE then Scan(t[2..], field + [QUOTE], true, row)
      else if t[0] == QUOTE then Scan(t[1..], field, false, row)
      else Scan(t[1..], field + [t[0]], true, row)
    else if t[0] == QUOTE then Scan(t[1..], field, true, row)
    else if t[0] == COMMA then Scan(t[1..], [], false, row + [field])
    else if t[0] == NEWLINE || t[0] == RETURN then
      [row + [field]] + Scan(t[if t[0] == RETURN && |t| > 1 && t[1] == NEWLINE then 2 else 1..], [], false, [])
    else Scan(t[1..], field + [t[0]], false, row)
  }

  method CsvRows(t: Text) returns (result: seq<Row>)
    ensures result == NonBlank(Scan(t, [], false, []))
  {
    var rows: seq<Row> := [[]];
    var field: Text := [];
    var quoted := false;
    var i := 0;
    assert t[0..] == t;
    while i < |t|
      invariant 0 <= i <= |t| && rows != []
      invariant Scan(t, [], false, []) == rows[..|rows| - 1] + Scan(t[i..], field, quoted, rows[|rows| - 1])
    {
      var last := |rows| - 1;
      var unit := t[i];
      assert t[i..][1..] == t[i + 1..] && (i + 1 < |t| ==> t[i..][2..] == t[i + 2..]);
      if quoted {
        if unit == QUOTE && i + 1 < |t| && t[i + 1] == QUOTE {
          field := field + [QUOTE];
          i := i + 1;
        } else if unit == QUOTE {
          quoted := false;
        } else {
          field := field + [unit];
        }
      } else if unit == QUOTE {
        quoted := true;
      } else if unit == COMMA {
        rows := rows[last := rows[last] + [field]];
        field := [];
      } else if unit == NEWLINE || unit == RETURN {
        if unit == RETURN && i + 1 < |t| && t[i + 1] == NEWLINE {
          i := i + 1;
        }
        rows := rows[last := rows[last] + [field]];
        field := [];
        rows := rows + [[]];
      } else {
        field := field + [unit];
      }
      i := i + 1;
    }
    rows := rows[|rows| - 1 := rows[|rows| - 1] + [field]];
    assert rows == Scan(t, [], false, []);
    result := DropBlank(rows);
  }

  method DropBlank(rows: seq<Row>) returns (kept: seq<Row>)
    ensures kept == NonBlank(rows)
  {
    kept := [];
    for i := 0 to |rows|
      invariant kept + NonBlank(rows[i..]) == NonBlank(rows)
    {
      assert rows[i..][1..] == rows[i + 1..];
      var some := false;
      for j := 0 to |rows[i]|
        invariant some <==> exists k :: 0 <= k < j && HasText(rows[i][k])
      {
        some := some || exists k | 0 <= k < |rows[i][j]| :: !IsSpace(rows[i][j][k]);
      }
      if some {
        kept := kept + [rows[i]];
      }
    }
  }

  // ----- printing -----

  datatype Cell = Cell(text: Text, quoted: bool)

  datatype LineEnd = Crlf | Lf | Cr

  datatype Line = Line(cells: seq<Cell>, end: LineEnd)

  /** Only quoted cells may hold commas, quotes and line breaks. */
  ghost predicate Printable(cells: seq<Cell>) {
    forall i :: 0 <= i < |cells| ==> cells[i].quoted || Bare(cells[i].text)
  }

  predicate IsSpecial(u: CodeUnit) {
    u == ',' as int || u == '"' as int || u == '\n' as int || u == '\r' as int
  }

  predicate Bare(t: Text) {
    forall i :: 0 <= i < |t| ==> !IsSpecial(t[i])
  }

  function Doubled(t: Text): Text {
    if t == [] then [] else (if t[0] == '"' as int then ['"' as int, '"' as int] else [t[0]]) + Doubled(t[1..])
  }

  function PrintCell(c: Cell): Text {
    if c.quoted then ['"' as int] + Doubled(c.text) + ['"' as int] else c.text
  }

  function PrintRow(cells: seq<Cell>): Text {
    if cells == [] then [] else if |cells| == 1 then PrintCell(cells[0])
    else PrintCell(cells[0]) + [',' as int] + PrintRow(cells[1..])
  }

  function EndText(end: LineEnd): Text {
    match end
    case Crlf => ['\r' as int, '\n' as int]
    case Lf => ['\n' as int]
    case Cr => ['\r' as int]
  }

  /** Lines with their ends, then a last line that may have none. */
  function Print(lines: seq<Line>, tail: seq<Cell>): Text {
    if lines == [] then PrintRow(tail)
    else PrintRow(lines[0].cells) + (EndText(lines[0].end) + Print(lines[1..], tail))
  }

  function CellTexts(cells: seq<Cell>): Row {
    seq(|cells|, i requires 0 <= i < |cells| => cells[i].text)
  }

  function RowsOf(lines: seq<Line>, tail: seq<Cell>): seq<Row> {
    seq(|lines|, i requires 0 <= i < |lines| => CellTexts(lines[i].cells)) + [CellTexts(tail)]
  }

  // ----- the reader undoes the printer -----

  lemma {:induction false} ScanBare(t: Text, rest: Text, field: Text, row: Row)
    requires Bare(t)
    ensures Scan(t + rest, field, false, row) == Scan(rest, field + t, false, row)
    decreases |t|
  {
    if t == [] {
      assert t + rest == rest && field + t == field;
    } else {
      assert (t + rest)[1..] == t[1..] + rest;
      assert !IsSpecial(t[0]);
      ScanBare(t[1..], rest, field + [t[0]], row);
      assert field + [t[0]] + t[1..] == field + t;
    }
  }

  lemma {:induction false} ScanQuoted(t: Text, rest: Text, field: Text, row: Row)
    requires rest == [] || rest[0] != QUOTE
    ensures Scan(Doubled(t) + ([QUOTE] + rest), field, true, row) == Scan(rest, field + t, false, row)
    decreases |t|
  {
    var text := Doubled(t) + ([QUOTE] + rest);
    if t == [] {
      assert text == [QUOTE] + rest && text[1..] == rest && field + t == field;
    } else {
      var more := Doubled(t[1..]) + ([QUOTE] + rest);
      assert text == (if t[0] == QUOTE then [QUOTE, QUOTE] else [t[0]]) + more;
      assert text[if t[0] == QUOTE then 2 else 1..] == more;
      ScanQuoted(t[1..], rest, field + [t[0]], row);
      assert field + [t[0]] + t[1..] == field + t;
    }
  }

  lemma ScanCell(c: Cell, rest: Text, row: Row)
    requires c.quoted || Bare(c.text)
    requires rest == [] || rest[0] != QUOTE
    ensures Scan(PrintCell(c) + rest, [], false, row) == Scan(rest, c.text, false, row)
  {
    assert [] + c.text == c.text;
    if c.quoted {
      var text := PrintCell(c) + rest;
      assert text[1..] == Doubled(c.text) + ([QUOTE] + rest);
      ScanQuoted(c.text, rest, [], row);
    } else {
      ScanBare(c.text, rest, [], row);
    }
  }

  predicate EndsLine(rest: Text) {
    rest == [] || rest[0] == NEWLINE || rest[0] == RETURN
  }

  /** The texts of all cells but the last. */
  function FrontTexts(cells: seq<Cell>): Row {
    if |cells| <= 1 then [] else [cells[0].text] + FrontTexts(cells[1..])
  }

  lemma {:induction false} FrontAndLast(cells: seq<Cell>)
    requires cells != []
    ensures FrontTexts(cells) + [cells[|cells| - 1].text] == CellTexts(cells)
  {
    if |cells| == 1 {
    } else {
      FrontAndLast(cells[1..]);
      assert CellTexts(cells) == [cells[0].text] + CellTexts(cells[1..]);
    }
  }

  lemma {:induction false} ScanCells(cells: seq<Cell>, rest: Text, row: Row)
    requires cells != [] && Printable(cells) && EndsLine(rest)
    ensures Scan(PrintRow(cells) + rest, [], false, row)
            == Scan(rest, cells[|cells| - 1].text, false, row + FrontTexts(cells))
    decreases |cells|
  {
    if |cells| == 1 {
      ScanCell(cells[0], rest, row);
      assert row + [] == row;
    } else {
      var head, tail := cells[0], cells[1..];
      ScanFirstCell(cells, rest, row);
      ScanCells(tail, rest, row + [head.text]);
      Associative(row, [head.text], FrontTexts(tail));
      assert tail[|tail| - 1] == cells[|cells| - 1];
    }
  }

  lemma ScanFirstCell(cells: seq<Cell>, rest: Text, row: Row)
    requires |cells| > 1 && Printable(cells)
    ensures Scan(PrintRow(cells) + rest, [], false, row)
            == Scan(PrintRow(cells[1..]) + rest, [], false, row + [cells[0].text])
  {
    var more := PrintRow(cells[1..]) + rest;
    PrintRowOn(cells, rest);
    ScanCell(cells[0], [COMMA] + more, row);
    ScanComma(more, cells[0].text, row);
  }

  lemma PrintRowOn(cells: seq<Cell>, rest: Text)
    requires |cells| > 1
    ensures PrintRow(cells) + rest == PrintCell(cells[0]) + ([COMMA] + (PrintRow(cells[1..]) + rest))
  {
    Regroup(PrintCell(cells[0]), [COMMA], PrintRow(cells[1..]), rest);
  }

  lemma Regroup(a: Text, b: Text, c: Text, d: Text)
    ensures (a + b + c) + d == a + (b + (c + d))
  {
  }

  lemma ScanComma(more: Text, field: Text, row: Row)
    ensures Scan([COMMA] + more, field, false, row) == Scan(more, [], false, row + [field])
  {
    assert ([COMMA] + more)[1..] == more;
  }

  /** A printed row is read as its cells; one without cells as one empty cell. */
  function ReadBack(cells: seq<Cell>): Row {
    if cells == [] then [[]] else CellTexts(cells)
  }

  lemma ScanRow(cells: seq<Cell>, rest: Text)
    requires Printable(cells) && EndsLine(rest)
    ensures Scan(PrintRow(cells) + rest, [], false, []) ==
            if rest == [] then [ReadBack(cells)]
            else [ReadBack(cells)] +
                 Scan(rest[if rest[0] == RETURN && |rest| > 1 && rest[1] == NEWLINE then 2 else 1..], [], false, [])
  {
    if cells == [] {
      assert PrintRow(cells) + rest == rest;
      var empty: Row := [];
      assert empty + [[]] == [[]];
    } else {
      ScanCells(cells, rest, []);
      FrontAndLast(cells);
      assert [] + FrontTexts(cells) == FrontTexts(cells);
    }
  }

  lemma PrintedRowStart(cells: seq<Cell>, rest: Text)
    requires Printable(cells) && PrintRow(cells) != []
    ensures (PrintRow(cells) + rest)[0] != NEWLINE
  {
  }

  lemma BlankReadBack(cells: seq<Cell>)
    ensures Blank(ReadBack(cells)) == Blank(CellTexts(cells))
    ensures PrintRow(cells) == [] && Printable(cells) ==> Blank(CellTexts(cells))
  {
    if PrintRow(cells) == [] && |cells| == 1 {
      assert CellTexts(cells) == [[]];
    }
  }

  lemma NonBlankCons(row: Row, rest: seq<Row>)
    ensures NonBlank([row] + rest) == if Blank(row) then NonBlank(rest) else [row] + NonBlank(rest)
  {
    assert ([row] + rest)[1..] == rest;
  }

  ghost predicate AllPrintable(lines: seq<Line>, tail: seq<Cell>) {
    (forall i :: 0 <= i < |lines| ==> Printable(lines[i].cells)) && Printable(tail)
  }

  lemma RowsOfCons(lines: seq<Line>, tail: seq<Cell>)
    requires lines != []
    ensures RowsOf(lines, tail) == [CellTexts(lines[0].cells)] + RowsOf(lines[1..], tail)
  {
  }

  /**
   Whatever the cells hold, and however the lines end, reading printed rows gives them back, rows of
   white space only left out.
   */
  lemma {:induction false} ReaderUndoesPrinter(lines: seq<Line>, tail: seq<Cell>)
    requires AllPrintable(lines, tail)
    ensures NonBlank(Scan(Print(lines, tail), [], false, [])) == NonBlank(RowsOf(lines, tail))
    decreases |lines|
  {
    if lines == [] {
      ScanRow(tail, []);
      assert PrintRow(tail) + [] == PrintRow(tail);
      BlankReadBack(tail);
      assert RowsOf(lines, tail) == [CellTexts(tail)];
    } else {
      var cells, end, more := lines[0].cells, lines[0].end, Print(lines[1..], tail);
      var rest := EndText(end) + more;
      ScanRow(cells, rest);
      BlankReadBack(cells);
      RowsOfCons(lines, tail);
      if end == Cr && more != [] && more[0] == NEWLINE {
        // The next line prints as nothing and ends in a newline: the two ends are read as one.
        MergedEnds(lines, tail);
      } else {
        assert rest[if rest[0] == RETURN && |rest| > 1 && rest[1] == NEWLINE then 2 else 1..] == more;
        ReaderUndoesPrinter(lines[1..], tail);
        NonBlankCons(ReadBack(cells), Scan(more, [], false, []));
        NonBlankCons(CellTexts(cells), RowsOf(lines[1..], tail));
      }
    }
  }

  lemma NewlineStart(lines: seq<Line>, tail: seq<Cell>)
    requires AllPrintable(lines, tail) && Print(lines, tail) != [] && Print(lines, tail)[0] == NEWLINE
    ensures lines != [] && PrintRow(lines[0].cells) == [] && lines[0].end == Lf
    ensures Print(lines, tail) == [NEWLINE] + Print(lines[1..], tail)
  {
    var first := if lines == [] then tail else lines[0].cells;
    var rest := if lines == [] then [] else EndText(lines[0].end) + Print(lines[1..], tail);
    assert Print(lines, tail) == PrintRow(first) + rest;
    if PrintRow(first) != [] {
      PrintedRowStart(first, rest);
    }
  }

  lemma ScanMergedEnds(cells: seq<Cell>, after: Text)
    requires Printable(cells)
    ensures Scan(PrintRow(cells) + ([RETURN] + ([NEWLINE] + after)), [], false, [])
         == [ReadBack(cells)] + Scan(after, [], false, [])
  {
    var rest := [RETURN] + ([NEWLINE] + after);
    ScanRow(cells, rest);
    assert rest[2..] == after;
  }

  lemma {:induction false} MergedEnds(lines: seq<Line>, tail: seq<Cell>)
    requires AllPrintable(lines, tail) && lines != [] && lines[0].end == Cr
    requires var more := Print(lines[1..], tail); more != [] && more[0] == NEWLINE
    ensures NonBlank(Scan(Print(lines, tail), [], false, [])) == NonBlank(RowsOf(lines, tail))
    decreases |lines|, 0
  {
    NewlineStart(lines[1..], tail);
    assert lines[1..][1..] == lines[2..];
    var after := Print(lines[2..], tail);
    assert Print(lines, tail) == PrintRow(lines[0].cells) + ([RETURN] + ([NEWLINE] + after));
    ScanMergedEnds(lines[0].cells, after);
    ReaderUndoesPrinter(lines[2..], tail);
    BlankReadBack(lines[0].cells);
    BlankReadBack(lines[1].cells);
    RowsOfCons(lines, tail);
    RowsOfCons(lines[1..], tail);
    NonBlankCons(ReadBack(lines[0].cells), Scan(after, [], false, []));
    NonBlankCons(CellTexts(lines[0].cells), RowsOf(lines[1..], tail));
    NonBlankCons(CellTexts(lines[1].cells), RowsOf(lines[2..], tail));
  }
}
