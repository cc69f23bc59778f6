/** Delimited tables: the quoted-cell state machine, and reading back what was written cell by cell. */
module DelimitedText {
  import opened Wrappers
  import opened Whitespace

  type Row = seq<string>

  datatype ParseError = TextAfterQuote | UnterminatedQuote

  /** The reader between two characters. */
  datatype Reader = Reader(rows: seq<Row>, row: Row, cell: string, quoted: bool, afterQuote: bool)

  const START: Reader := Reader([], [], "", false, false)

  // ----- the machine as functions -----

  function EndCell(s: Reader): Reader {
    Reader(s.rows, s.row + [s.cell], "", false, false)
  }

  function EndRow(s: Reader): Reader {
    Reader(s.rows + [s.row + [s.cell]], [], "", false, false)
  }

  /** One character outside quotes; `peek` is the one after it. */
  function Outside(s: Reader, c: char, peek: Option<char>, delimiter: char): Result<Reader, ParseError> {
    if s.afterQuote then
      if c == delimiter then Ok(EndCell(s))
      else if c == '\n' then Ok(EndRow(s))
      else if c == '\r' && peek == Some('\n') then Ok(s)
      else if IsSpace(c) then Ok(s)
      else Err(TextAfterQuote)
    else
      if c == '"' && s.cell == "" then Ok(s.(quoted := true))
      else if c == delimiter then Ok(EndCell(s))
      else if c == '\n' then Ok(EndRow(s))
      else if c == '\r' && peek == Some('\n') then Ok(s)
      else Ok(s.(cell := s.cell + [c]))
  }

  function Peek(input: string): Option<char> {
    if input == [] then None else Some(input[0])
  }

  /** Reads all of `input`. */
  function Run(s: Reader, input: string, delimiter: char): Result<Reader, ParseError>
    decreases |input|
  {
    if input == [] then Ok(s)
    else
      var c, rest := input[0], input[1..];
      if s.quoted then
        if c != '"' then Run(s.(cell := s.cell + [c]), rest, delimiter)
        else if Peek(rest) == Some('"') then Run(s.(cell := s.cell + ['"']), rest[1..], delimiter)
        else Run(s.(quoted := false, afterQuote := true), rest, delimiter)
      else
        var next := Outside(s, c, Peek(rest), delimiter);
        if next.Err? then next else Run(next.value, rest, delimiter)
  }

  predicate Blank(row: Row) {
    forall i :: 0 <= i < |row| ==> Trim(row[i]) == []
  }

  /** The rows that are not entirely blank, in order. */
  function Kept(rows: seq<Row>): seq<Row> {
    if rows == [] then []
    else Kept(rows[..|rows| - 1]) + if Blank(rows[|rows| - 1]) then [] else [rows[|rows| - 1]]
  }

  /** What the reader has at the end of the input. */
  function Finish(s: Reader): Result<seq<Row>, ParseError> {
    if s.quoted then Err(UnterminatedQuote)
    else if s.afterQuote || s.cell != [] || s.row != [] then Ok(Kept(EndRow(s).rows))
    else Ok(Kept(s.rows))
  }

  function Parsed(input: string, delimiter: char): Result<seq<Row>, ParseError> {
    var s := Run(START, input, delimiter);
    if s.Err? then Err(s.error) else Finish(s.value)
  }

  /** `parse_delimited`. */
  method ParseDelimited(input: string, delimiter: char) returns (r: Result<seq<Row>, ParseError>)
    ensures r == Parsed(input, delimiter)
  {
    var rows: seq<Row> := [];
    var row: Row := [];
    var cell := "";
    var quoted, afterQuote := false, false;
    var i := 0;
    while i < |input|
      invariant 0 <= i <= |input|
      invariant Run(START, input, delimiter) == Run(Reader(rows, row, cell, quoted, afterQuote), input[i..], delimiter)
    {
      var c := input[i];
      var peek := if i + 1 < |input| then Some(input[i + 1]) else None;
      assert input[i..][0] == c && input[i..][1..] == input[i + 1..] && Peek(input[i + 1..]) == peek;
      i := i + 1;
      if quoted {
        if c == '"' {
          if peek == Some('"') {
            assert input[i..][1..] == input[i + 1..];
            i := i + 1;
            cell := cell + ['"'];
          } else {
            quoted := false;
            afterQuote := true;
          }
        } else {
          cell := cell + [c];
        }
        continue;
      }
      if afterQuote {
        if c == delimiter {
          row, cell, afterQuote := row + [cell], "", false;
        } else if c == '\n' {
          rows, row, cell, afterQuote := rows + [row + [cell]], [], "", false;
        } else if c == '\r' && peek == Some('\n') {
        } else if !IsSpace(c) {
          return Err(TextAfterQuote);
        }
        continue;
      }
      if c == '"' && cell == "" {
        quoted := true;
      } else if c == delimiter {
        row, cell := row + [cell], "";
      } else if c == '\n' {
        rows, row, cell := rows + [row + [cell]], [], "";
      } else if c == '\r' && peek == Some('\n') {
      } else {
        cell := cell + [c];
      }
    }
    if quoted { return Err(UnterminatedQuote); }
    if afterQuote || cell != [] || row != [] { rows := rows + [row + [cell]]; }
    r := Ok(Kept(rows));
  }

  // ----- writing -----

  /** Inner quotes doubled. */
  function Doubled(cell: string): string {
    if cell == [] then [] else (if cell[0] == '"' then ['"', '"'] else [cell[0]]) + Doubled(cell[1..])
  }

  function Quoted(cell: string): string {
    ['"'] + Doubled(cell) + ['"']
  }

  /** A cell that reads as itself without quotes. */
  predicate Plain(cell: string, delimiter: char) {
    && (cell == [] || cell[0] != '"')
    && forall i :: 0 <= i < |cell| ==> cell[i] != delimiter && cell[i] != '\n' && cell[i] != '\r'
  }

  /** `text` is a way of writing the cell: in quotes, or bare where that is safe. */
  predicate Writes(cell: string, text: string, delimiter: char) {
    text == Quoted(cell) || (Plain(cell, delimiter) && text == cell)
  }

  predicate WritesRow(row: Row, texts: Row, delimiter: char) {
    |row| == |texts| > 0 && forall i :: 0 <= i < |row| ==> Writes(row[i], texts[i], delimiter)
  }

  function RowText(texts: Row, delimiter: char): string
    requires texts != []
  {
    if |texts| == 1 then texts[0] else texts[0] + [delimiter] + RowText(texts[1..], delimiter)
  }

  /** The lines of a table, each row but the last followed by a line break, the last one by `ending`. */
  function TableText(lines: seq<Row>, delimiter: char, lineBreak: string, ending: string): string
    requires forall i :: 0 <= i < |lines| ==> lines[i] != []
  {
    if lines == [] then []
    else if |lines| == 1 then RowText(lines[0], delimiter) + ending
    else RowText(lines[0], delimiter) + lineBreak + TableText(lines[1..], delimiter, lineBreak, ending)
  }

  predicate LineBreak(s: string) {
    s == "\n" || s == "\r\n"
  }

  // ----- reading back -----

  lemma {:induction false} ReadDoubled(s: Reader, cell: string, rest: string, delimiter: char)
    requires s.quoted && Peek(rest) != Some('"')
    ensures Run(s, Doubled(cell) + ['"'] + rest, delimiter) ==
            Run(s.(cell := s.cell + cell, quoted := false, afterQuote := true), rest, delimiter)
    decreases |cell|
  {
    var input := Doubled(cell) + ['"'] + rest;
    if cell == [] {
      assert input[1..] == rest;
      assert s.cell + cell == s.cell;
    } else {
      var tail := Doubled(cell[1..]) + ['"'] + rest;
      var next := s.(cell := s.cell + [cell[0]]);
      ReadDoubled(next, cell[1..], rest, delimiter);
      assert next.cell + cell[1..] == s.cell + cell;
      if cell[0] == '"' {
        assert input == ['"', '"'] + tail;
        assert input[1..] == ['"'] + tail && input[1..][1..] == tail;
      } else {
        assert input[0] == cell[0] && input[1..] == tail;
      }
    }
  }

  /** The reader after a cell written as `text`. */
  function AfterCell(s: Reader, cell: string, text: string): Reader {
    s.(cell := cell, afterQuote := text != [] && text[0] == '"')
  }

  lemma {:induction false} ReadPlain(s: Reader, cell: string, rest: string, delimiter: char)
    requires !s.quoted && !s.afterQuote
    requires s.cell == [] ==> Plain(cell, delimiter)
    requires forall i :: 0 <= i < |cell| ==> cell[i] != delimiter && cell[i] != '\n' && cell[i] != '\r'
    ensures Run(s, cell + rest, delimiter) == Run(s.(cell := s.cell + cell), rest, delimiter)
    decreases |cell|
  {
    if cell == [] {
      assert cell + rest == rest && s.cell + cell == s.cell;
    } else {
      assert (cell + rest)[1..] == cell[1..] + rest;
      ReadPlain(s.(cell := s.cell + [cell[0]]), cell[1..], rest, delimiter);
      assert (s.cell + [cell[0]]) + cell[1..] == s.cell + cell;
    }
  }

  lemma ReadCell(s: Reader, cell: string, text: string, rest: string, delimiter: char)
    requires !s.quoted && !s.afterQuote && s.cell == [] && Writes(cell, text, delimiter) && Peek(rest) != Some('"')
    ensures Run(s, text + rest, delimiter) == Run(AfterCell(s, cell, text), rest, delimiter)
  {
    if text == Quoted(cell) {
      assert (text + rest)[0] == '"' && (text + rest)[1..] == Doubled(cell) + ['"'] + rest;
      ReadDoubled(s.(quoted := true), cell, rest, delimiter);
      assert [] + cell == cell;
    } else {
      ReadPlain(s, cell, rest, delimiter);
      assert [] + cell == cell;
    }
  }

  lemma ReadCellAndDelimiter(s: Reader, cell: string, text: string, more: string, delimiter: char)
    requires delimiter != '"' && delimiter != '\n' && !s.quoted && !s.afterQuote && s.cell == []
    requires Writes(cell, text, delimiter) && more != [] && more[0] == delimiter
    ensures var ended := EndCell(AfterCell(s, cell, text));
      && Run(s, text + more, delimiter) == Run(ended, more[1..], delimiter)
      && ended == s.(row := s.row + [cell])
  {
    ReadCell(s, cell, text, more, delimiter);
  }

  /** The reader at the end of a row whose last cell is not closed yet. */
  function AfterRow(s: Reader, row: Row, texts: Row): Reader
    requires |row| == |texts| > 0
  {
    AfterCell(s.(row := s.row + row[..|row| - 1]), row[|row| - 1], texts[|row| - 1])
  }

  lemma {:induction false} ReadRow(s: Reader, row: Row, texts: Row, rest: string, delimiter: char)
    requires delimiter != '"' && delimiter != '\n' && !s.quoted && !s.afterQuote && s.cell == []
    requires WritesRow(row, texts, delimiter) && Peek(rest) != Some('"')
    ensures Run(s, RowText(texts, delimiter) + rest, delimiter) == Run(AfterRow(s, row, texts), rest, delimiter)
    decreases |row|
  {
    hide Run, EndCell, Writes;
    assert Writes(row[0], texts[0], delimiter);
    if |row| == 1 {
      ReadCell(s, row[0], texts[0], rest, delimiter);
      assert s.row + row[..0] == s.row;
    } else {
      var more := [delimiter] + (RowText(texts[1..], delimiter) + rest);
      assert RowText(texts, delimiter) + rest == texts[0] + more;
      ReadCellAndDelimiter(s, row[0], texts[0], more, delimiter);
      var ended := EndCell(AfterCell(s, row[0], texts[0]));
      assert more[1..] == RowText(texts[1..], delimiter) + rest;
      ReadRow(ended, row[1..], texts[1..], rest, delimiter);
      assert ended.row + row[1..][..|row| - 2] == s.row + row[..|row| - 1];
    }
  }

  lemma ReadBreak(s: Reader, lineBreak: string, rest: string, delimiter: char)
    requires delimiter != '"' && delimiter != '\n' && delimiter != '\r' && !s.quoted && LineBreak(lineBreak)
    ensures Run(s, lineBreak + rest, delimiter) == Run(EndRow(s), rest, delimiter)
  {
    if lineBreak == "\n" {
      assert (lineBreak + rest)[1..] == rest;
    } else {
      assert (lineBreak + rest)[1..] == ['\n'] + rest;
      assert (['\n'] + rest)[1..] == rest;
    }
  }

  predicate WritesTable(rows: seq<Row>, lines: seq<Row>, delimiter: char) {
    |rows| == |lines| && forall i :: 0 <= i < |rows| ==> WritesRow(rows[i], lines[i], delimiter)
  }

  lemma {:induction false} ReadTable(s: Reader, rows: seq<Row>, lines: seq<Row>, delimiter: char, lineBreak: string, ending: string)
    requires delimiter != '"' && delimiter != '\n' && delimiter != '\r' && LineBreak(lineBreak) && (ending == "" || LineBreak(ending))
    requires s == Reader(s.rows, [], "", false, false) && WritesTable(rows, lines, delimiter)
    ensures var r := Run(s, TableText(lines, delimiter, lineBreak, ending), delimiter);
      r.Ok? && Finish(r.value) == Ok(Kept(s.rows + rows))
    decreases |rows|
  {
    hide Run, RowText, WritesRow;
    LinesHaveCells(rows, lines, delimiter);
    if rows == [] {
      ReadNothing(s, delimiter);
      assert s.rows + rows == s.rows;
    } else {
      assert WritesRow(rows[0], lines[0], delimiter);
      RowHasCells(rows[0], lines[0], delimiter);
      var ended := AfterRow(s, rows[0], lines[0]);
      WholeRow(s, rows[0], lines[0]);
      if |rows| == 1 {
        ReadRow(s, rows[0], lines[0], ending, delimiter);
        assert s.rows + rows == s.rows + [rows[0]];
        if ending == "" {
          ReadNothing(ended, delimiter);
          LastRow(ended, s.rows, rows[0]);
        } else {
          assert ending + [] == ending;
          ReadBreak(ended, ending, [], delimiter);
          ReadNothing(EndRow(ended), delimiter);
        }
      } else {
        var more := TableText(lines[1..], delimiter, lineBreak, ending);
        assert TableText(lines, delimiter, lineBreak, ending) == RowText(lines[0], delimiter) + (lineBreak + more);
        ReadRow(s, rows[0], lines[0], lineBreak + more, delimiter);
        ReadBreak(ended, lineBreak, more, delimiter);
        ReadTable(EndRow(ended), rows[1..], lines[1..], delimiter, lineBreak, ending);
        assert EndRow(ended).rows + rows[1..] == s.rows + rows;
      }
    }
  }

  lemma LinesHaveCells(rows: seq<Row>, lines: seq<Row>, delimiter: char)
    requires WritesTable(rows, lines, delimiter)
    ensures forall i :: 0 <= i < |lines| ==> lines[i] != []
  {
  }

  lemma RowHasCells(row: Row, texts: Row, delimiter: char)
    requires WritesRow(row, texts, delimiter)
    ensures |row| == |texts| > 0
  {
  }

  lemma ReadNothing(s: Reader, delimiter: char)
    ensures Run(s, "", delimiter) == Ok(s)
  {
  }

  lemma WholeRow(s: Reader, row: Row, texts: Row)
    requires |row| == |texts| > 0 && s.row == []
    ensures var ended := AfterRow(s, row, texts);
      ended.rows == s.rows && ended.row + [ended.cell] == row && ended.quoted == s.quoted
  {
    assert row == row[..|row| - 1] + [row[|row| - 1]];
  }

  /** At the end of the input an unfinished row counts unless it is a single empty bare cell, which is blank. */
  lemma LastRow(s: Reader, rows: seq<Row>, row: Row)
    requires !s.quoted && s.rows == rows && s.row + [s.cell] == row
    ensures Finish(s) == Ok(Kept(rows + [row]))
  {
    assert (rows + [row])[..|rows|] == rows;
    if !s.afterQuote && s.cell == [] && s.row == [] {
      assert row == [[]];
      TrimBlank([]);
      assert Blank(row);
      assert Kept(rows + [row]) == Kept(rows) + [] == Kept(rows);
    } else {
      assert EndRow(s).rows == rows + [row];
    }
  }

  /** A table written cell by cell, in quotes wherever wanted, reads back as its rows that are not entirely blank:
      for every delimiter but the quote and the line-break characters, either kind of line break, and with or
      without a break at the end. */
  lemma TableRoundTrip(rows: seq<Row>, lines: seq<Row>, delimiter: char, lineBreak: string, ending: string)
    requires delimiter != '"' && delimiter != '\n' && delimiter != '\r' && LineBreak(lineBreak) && (ending == "" || LineBreak(ending))
    requires WritesTable(rows, lines, delimiter)
    ensures Parsed(TableText(lines, delimiter, lineBreak, ending), delimiter) == Ok(Kept(rows))
  {
    ReadTable(START, rows, lines, delimiter, lineBreak, ending);
    assert START.rows + rows == rows;
  }

  function QuotedRow(row: Row): Row {
    seq(|row|, i requires 0 <= i < |row| => Quoted(row[i]))
  }

  function QuotedTable(rows: seq<Row>): seq<Row> {
    seq(|rows|, i requires 0 <= i < |rows| => QuotedRow(rows[i]))
  }

  /** With every cell quoted, any table of rows with at least one cell comes back, whatever the cells contain. */
  lemma QuotedRoundTrip(rows: seq<Row>, delimiter: char)
    requires delimiter == ',' || delimiter == '\t'
    requires forall i :: 0 <= i < |rows| ==> rows[i] != []
    ensures Parsed(TableText(QuotedTable(rows), delimiter, "\r\n", "\r\n"), delimiter) == Ok(Kept(rows))
    ensures (forall i :: 0 <= i < |rows| ==> !Blank(rows[i])) ==>
      Parsed(TableText(QuotedTable(rows), delimiter, "\r\n", "\r\n"), delimiter) == Ok(rows)
  {
    TableRoundTrip(rows, QuotedTable(rows), delimiter, "\r\n", "\r\n");
    if forall i :: 0 <= i < |rows| ==> !Blank(rows[i]) { AllKept(rows); }
  }

  lemma {:induction false} AllKept(rows: seq<Row>)
    requires forall i :: 0 <= i < |rows| ==> !Blank(rows[i])
    ensures Kept(rows) == rows
  {
    hide Blank;
    if rows != [] {
      AllKept(rows[..|rows| - 1]);
      assert rows == rows[..|rows| - 1] + [rows[|rows| - 1]];
    }
  }

  /** The row shows something: a character that is not white space. */
  ghost predicate Shows(row: Row) {
    exists cell :: cell in row && Visible(cell)
  }

  predicate Visible(cell: string) {
    exists i :: 0 <= i < |cell| && !IsSpace(cell[i])
  }

  /** Exactly the rows that show something are kept, each where it stood. */
  lemma {:induction false} KeptExact(a: seq<Row>, row: Row, b: seq<Row>)
    ensures Kept(a + [row] + b) == Kept(a) + (if Shows(row) then [row] else []) + Kept(b)
    decreases |b|
  {
    hide Kept, Shows;
    if b == [] {
      assert a + [row] + b == a + [row];
      KeptLast(a, row);
      NothingKept();
    } else {
      var n := |b| - 1;
      assert a + [row] + b == (a + [row] + b[..n]) + [b[n]] && b == b[..n] + [b[n]];
      KeptLast(a + [row] + b[..n], b[n]);
      KeptLast(b[..n], b[n]);
      KeptExact(a, row, b[..n]);
    }
  }

  lemma KeptLast(rows: seq<Row>, row: Row)
    ensures Kept(rows + [row]) == Kept(rows) + if Shows(row) then [row] else []
  {
    hide Shows, Blank;
    BlankExact(row);
    assert (rows + [row])[..|rows|] == rows;
  }

  lemma NothingKept()
    ensures Kept([]) == []
  {
  }

  lemma BlankExact(row: Row)
    ensures Blank(row) <==> !Shows(row)
  {
    forall cell ensures Trim(cell) == [] <==> !Visible(cell) { TrimBlank(cell); }
    hide Visible;
    assert forall i :: 0 <= i < |row| ==> row[i] in row;
  }

  /** No row that is returned is entirely blank, whatever the input. */
  lemma {:induction false} KeptNotBlank(rows: seq<Row>)
    ensures forall i :: 0 <= i < |Kept(rows)| ==> !Blank(Kept(rows)[i]) && Kept(rows)[i] in rows
  {
    if rows != [] { KeptNotBlank(rows[..|rows| - 1]); }
  }

  // ----- what is refused -----

  /** Whole rows, each with its line break. */
  function RowsText(lines: seq<Row>, delimiter: char, lineBreak: string): string
    requires forall i :: 0 <= i < |lines| ==> lines[i] != []
  {
    if lines == [] then [] else RowText(lines[0], delimiter) + (lineBreak + RowsText(lines[1..], delimiter, lineBreak))
  }

  /** The cells of a row that goes on. */
  function Lead(texts: Row, delimiter: char): string {
    if texts == [] then [] else texts[0] + ([delimiter] + Lead(texts[1..], delimiter))
  }

  predicate WritesLead(row: Row, texts: Row, delimiter: char) {
    |row| == |texts| && forall i :: 0 <= i < |row| ==> Writes(row[i], texts[i], delimiter)
  }

  lemma {:induction false} ReadRows(s: Reader, rows: seq<Row>, lines: seq<Row>, delimiter: char, lineBreak: string, rest: string)
    requires delimiter != '"' && delimiter != '\n' && delimiter != '\r' && LineBreak(lineBreak)
    requires s == Reader(s.rows, [], "", false, false) && WritesTable(rows, lines, delimiter)
    ensures Run(s, RowsText(lines, delimiter, lineBreak) + rest, delimiter) == Run(s.(rows := s.rows + rows), rest, delimiter)
    decreases |rows|
  {
    hide Run, RowText, WritesRow;
    LinesHaveCells(rows, lines, delimiter);
    if rows == [] {
      assert s.rows + rows == s.rows && RowsText(lines, delimiter, lineBreak) + rest == rest;
    } else {
      assert WritesRow(rows[0], lines[0], delimiter);
      RowHasCells(rows[0], lines[0], delimiter);
      var ended := AfterRow(s, rows[0], lines[0]);
      WholeRow(s, rows[0], lines[0]);
      var more := RowsText(lines[1..], delimiter, lineBreak) + rest;
      assert RowsText(lines, delimiter, lineBreak) + rest == RowText(lines[0], delimiter) + (lineBreak + more);
      ReadRow(s, rows[0], lines[0], lineBreak + more, delimiter);
      ReadBreak(ended, lineBreak, more, delimiter);
      ReadRows(EndRow(ended), rows[1..], lines[1..], delimiter, lineBreak, rest);
      assert EndRow(ended).rows + rows[1..] == s.rows + rows;
    }
  }

  lemma {:induction false} ReadLead(s: Reader, row: Row, texts: Row, delimiter: char, rest: string)
    requires delimiter != '"' && delimiter != '\n' && !s.quoted && !s.afterQuote && s.cell == [] && WritesLead(row, texts, delimiter)
    ensures Run(s, Lead(texts, delimiter) + rest, delimiter) == Run(s.(row := s.row + row), rest, delimiter)
    decreases |row|
  {
    hide Run, Writes;
    if row == [] {
      assert s.row + row == s.row && Lead(texts, delimiter) + rest == rest;
    } else {
      var more := [delimiter] + (Lead(texts[1..], delimiter) + rest);
      assert Lead(texts, delimiter) + rest == texts[0] + more;
      assert Writes(row[0], texts[0], delimiter);
      ReadCellAndDelimiter(s, row[0], texts[0], more, delimiter);
      assert more[1..] == Lead(texts[1..], delimiter) + rest;
      ReadLead(s.(row := s.row + [row[0]]), row[1..], texts[1..], delimiter, rest);
      assert (s.row + [row[0]]) + row[1..] == s.row + row;
    }
  }

  lemma {:induction false} ReadOpen(s: Reader, cell: string, delimiter: char)
    requires s.quoted
    ensures Run(s, Doubled(cell), delimiter) == Ok(s.(cell := s.cell + cell))
    decreases |cell|
  {
    if cell == [] {
      assert s.cell + cell == s.cell;
    } else {
      ReadOpen(s.(cell := s.cell + [cell[0]]), cell[1..], delimiter);
      assert (s.cell + [cell[0]]) + cell[1..] == s.cell + cell;
      var input, tail := Doubled(cell), Doubled(cell[1..]);
      if cell[0] == '"' {
        assert input == ['"', '"'] + tail && input[1..] == ['"'] + tail && input[1..][1..] == tail;
      } else {
        assert input[1..] == tail;
      }
    }
  }

  /** Behind whole rows and cells, however written, a quoted cell that is never closed is refused. */
  lemma OpenQuoteRefused(
    rows: seq<Row>, lines: seq<Row>, row: Row, texts: Row, cell: string, delimiter: char, lineBreak: string)
    requires delimiter != '"' && delimiter != '\n' && delimiter != '\r' && LineBreak(lineBreak)
    requires WritesTable(rows, lines, delimiter) && WritesLead(row, texts, delimiter)
    ensures (forall i :: 0 <= i < |lines| ==> lines[i] != []) &&
      Parsed(RowsText(lines, delimiter, lineBreak) + (Lead(texts, delimiter) + (['"'] + Doubled(cell))), delimiter) == Err(UnterminatedQuote)
  {
    hide Run, WritesTable, WritesLead;
    var open := ['"'] + Doubled(cell);
    ReadUpTo(rows, lines, row, texts, open, delimiter, lineBreak);
    LeftOpen(Reader(rows, row, "", false, false), cell, delimiter);
  }

  lemma LeftOpen(s: Reader, cell: string, delimiter: char)
    requires !s.quoted && !s.afterQuote && s.cell == ""
    ensures Run(s, ['"'] + Doubled(cell), delimiter) == Ok(s.(cell := cell, quoted := true))
  {
    assert (['"'] + Doubled(cell))[1..] == Doubled(cell);
    ReadOpen(s.(quoted := true), cell, delimiter);
    assert "" + cell == cell;
  }

  /** Whole rows and leading cells are read as what they were written for. */
  lemma ReadUpTo(
    rows: seq<Row>, lines: seq<Row>, row: Row, texts: Row, rest: string, delimiter: char, lineBreak: string)
    requires delimiter != '"' && delimiter != '\n' && delimiter != '\r' && LineBreak(lineBreak)
    requires WritesTable(rows, lines, delimiter) && WritesLead(row, texts, delimiter)
    ensures (forall i :: 0 <= i < |lines| ==> lines[i] != []) &&
      Run(START, RowsText(lines, delimiter, lineBreak) + (Lead(texts, delimiter) + rest), delimiter) ==
      Run(Reader(rows, row, "", false, false), rest, delimiter)
  {
    hide Run;
    LinesHaveCells(rows, lines, delimiter);
    ReadRows(START, rows, lines, delimiter, lineBreak, Lead(texts, delimiter) + rest);
    assert START.rows + rows == rows && START.row + row == row;
    ReadLead(START.(rows := rows), row, texts, delimiter, rest);
  }

  /** Behind whole rows and cells, however written, a closed quoted cell may be followed by white space, a delimiter or
      a line break, and anything else is refused. */
  lemma TextAfterQuoteRefused(
    rows: seq<Row>, lines: seq<Row>, row: Row, texts: Row, cell: string, c: char, rest: string, delimiter: char, lineBreak: string)
    requires delimiter != '"' && delimiter != '\n' && delimiter != '\r' && LineBreak(lineBreak)
    requires WritesTable(rows, lines, delimiter) && WritesLead(row, texts, delimiter)
    requires c != '"' && c != delimiter && !IsSpace(c)
    ensures (forall i :: 0 <= i < |lines| ==> lines[i] != []) &&
      Parsed(RowsText(lines, delimiter, lineBreak) + (Lead(texts, delimiter) + (Quoted(cell) + ([c] + rest))), delimiter) ==
      Err(TextAfterQuote)
  {
    hide Run, WritesTable, WritesLead;
    ReadUpTo(rows, lines, row, texts, Quoted(cell) + ([c] + rest), delimiter, lineBreak);
    Stuck(Reader(rows, row, "", false, false), cell, c, rest, delimiter);
  }

  lemma Stuck(s: Reader, cell: string, c: char, rest: string, delimiter: char)
    requires !s.quoted && !s.afterQuote && s.cell == "" && c != '"' && c != delimiter && !IsSpace(c)
    ensures Run(s, Quoted(cell) + ([c] + rest), delimiter) == Err(TextAfterQuote)
  {
    var after := [c] + rest;
    assert (Quoted(cell) + after)[1..] == Doubled(cell) + ['"'] + after;
    ReadDoubled(s.(quoted := true), cell, after, delimiter);
  }
}
