/**
 The hand-written CSV scanner and the cell printer of packages/shared/src/assets.ts, and
 what is left of a cell matrix after a trip through both (RFC 4180, section 2).
 */
module Csv {
  import opened Options
  import opened Text

  /** The scanner's variables: finished records, the open row and cell, and the quote flag. */
  datatype Scanner = Scanner(records: seq<seq<string>>, row: seq<string>, cell: string, quoted: bool)

  const START: Scanner := Scanner([], [], "", false)

  /** The scanner's variables once `text` has been read, started from `s`. */
  function Scan(text: string, s: Scanner): Scanner
    decreases |text|
  {
    if text == "" then s
    else if s.quoted then
      if text[0] != '"' then Scan(text[1..], s.(cell := s.cell + [text[0]]))
      else if |text| > 1 && text[1] == '"' then Scan(text[2..], s.(cell := s.cell + "\""))
      else Scan(text[1..], s.(quoted := false))
    else if text[0] == '"' then Scan(text[1..], s.(quoted := true))
    else if text[0] == ',' then Scan(text[1..], s.(row := s.row + [s.cell], cell := ""))
    else if text[0] == '\n' then
      Scan(text[1..], s.(records := s.records + [s.row + [s.cell]], row := [], cell := ""))
    else if text[0] == '\r' then Scan(text[1..], s)
    else Scan(text[1..], s.(cell := s.cell + [text[0]]))
  }

  /** The records a finished scan yields; None is the error for an unfinished quoted field. */
  function Finish(s: Scanner): Option<seq<seq<string>>> {
    if s.quoted then None
    else if |s.cell| > 0 || |s.row| > 0 then Some(s.records + [s.row + [s.cell]])
    else Some(s.records)
  }

  function StripBom(text: string): string {
    if text != "" && text[0] == BOM then text[1..] else text
  }

  function Records(text: string): Option<seq<seq<string>>> {
    Finish(Scan(StripBom(text), START))
  }

  /** The character loop of `parseCsv`, with its look-ahead over a doubled quote. */
  method ScanRecords(text: string) returns (records: Option<seq<seq<string>>>)
    ensures records == Records(text)
  {
    var source := StripBom(text);
    var done: seq<seq<string>> := [];
    var row: seq<string> := [];
    var cell := "";
    var quoted := false;
    var index := 0;
    assert source[0..] == source;
    while index < |source|
      invariant 0 <= index <= |source|
      invariant Scan(source[index..], Scanner(done, row, cell, quoted)) == Scan(source, START)
    {
      var ch := source[index];
      var rest := source[index..];
      assert rest[0] == ch && rest[1..] == source[index + 1..];
      if quoted {
        if ch == '"' {
          if index + 1 < |source| && source[index + 1] == '"' {
            assert rest[2..] == source[index + 2..];
            cell := cell + "\"";
            index := index + 1;
          } else {
            quoted := false;
          }
        } else {
          cell := cell + [ch];
        }
      } else if ch == '"' {
        quoted := true;
      } else if ch == ',' {
        row := row + [cell];
        cell := "";
      } else if ch == '\n' {
        row := row + [cell];
        done := done + [row];
        row := [];
        cell := "";
      } else if ch != '\r' {
        cell := cell + [ch];
      }
      index := index + 1;
    }
    if quoted {
      return None;
    }
    if |cell| > 0 || |row| > 0 {
      row := row + [cell];
      done := done + [row];
    }
    records := Some(done);
  }

  function Quotes(text: string): nat {
    if text == "" then 0 else Quotes(text[..|text| - 1]) + if text[|text| - 1] == '"' then 1 else 0
  }

  lemma {:induction false} QuotesFirst(text: string)
    requires text != ""
    ensures Quotes(text) == (if text[0] == '"' then 1 else 0) + Quotes(text[1..])
    decreases |text|
  {
    if |text| > 1 {
      var init := text[..|text| - 1];
      QuotesFirst(init);
      assert text[1..][..|text| - 2] == init[1..];
    } else {
      assert text[1..] == "" && text[..0] == "";
    }
  }

  lemma {:induction false} QuotedWhileOdd(text: string, s: Scanner)
    ensures Scan(text, s).quoted <==> (Quotes(text) + if s.quoted then 1 else 0) % 2 == 1
    decreases |text|
  {
    if text != "" {
      QuotesFirst(text);
      var tail := text[1..];
      if s.quoted && text[0] == '"' && |text| > 1 && text[1] == '"' {
        QuotesFirst(tail);
        assert tail[1..] == text[2..];
        QuotedWhileOdd(text[2..], s.(cell := s.cell + "\""));
      } else {
        var next := if text[0] == '"' then s.(quoted := !s.quoted)
                    else if s.quoted then s.(cell := s.cell + [text[0]])
                    else if text[0] == ',' then s.(row := s.row + [s.cell], cell := "")
                    else if text[0] == '\n' then s.(records := s.records + [s.row + [s.cell]], row := [], cell := "")
                    else if text[0] == '\r' then s else s.(cell := s.cell + [text[0]]);
        QuotedWhileOdd(tail, next);
      }
    }
  }

  /** The one error, an unfinished quoted field, is an odd number of quotes. */
  lemma UnfinishedIff(text: string)
    ensures Records(text) == None <==> Quotes(StripBom(text)) % 2 == 1
  {
    QuotedWhileOdd(StripBom(text), START);
  }

  /** A last line without its line break counts as if it had one. */
  lemma AsIfEnded(text: string)
    ensures var s := Scan(StripBom(text), START);
            !s.quoted ==>
              Records(text) == Some(if s.cell == "" && s.row == [] then s.records else Scan("\n", s).records)
  {
    hide StripBom;
    var s := Scan(StripBom(text), START);
    if !s.quoted {
      assert "\n"[1..] == "";
      assert Scan("\n", s) == s.(records := s.records + [s.row + [s.cell]], row := [], cell := "");
    }
  }

  predicate Special(c: char) {
    c == '"' || c == ',' || c == '\r' || c == '\n'
  }

  predicate NeedsQuotes(cell: string) {
    exists i :: 0 <= i < |cell| && Special(cell[i])
  }

  lemma PlainTail(cell: string)
    requires cell != "" && !NeedsQuotes(cell)
    ensures !Special(cell[0]) && !NeedsQuotes(cell[1..])
  {
    forall i | 0 <= i < |cell| - 1 ensures !Special(cell[1..][i]) {
      assert cell[1..][i] == cell[i + 1];
    }
  }

  function DoubleQuotes(cell: string): string {
    if cell == "" then ""
    else (if cell[0] == '"' then "\"\"" else [cell[0]]) + DoubleQuotes(cell[1..])
  }

  function EscapeCell(cell: string): string {
    if NeedsQuotes(cell) then "\"" + DoubleQuotes(cell) + "\"" else cell
  }

  function EscapeCells(row: seq<string>): seq<string> {
    seq(|row|, i requires 0 <= i < |row| => EscapeCell(row[i]))
  }

  function PrintRow(row: seq<string>): string {
    Join(EscapeCells(row), ",")
  }

  function PrintRows(rows: seq<seq<string>>): seq<string> {
    seq(|rows|, i requires 0 <= i < |rows| => PrintRow(rows[i]))
  }

  /** Every row on a line of its own, the last one ended too. */
  function Print(rows: seq<seq<string>>): string {
    if rows == [] then "" else PrintRow(rows[0]) + "\r\n" + Print(rows[1..])
  }

  /** Joining the lines and ending the last one, as the printer is written. */
  lemma {:induction false} JoinedLines(rows: seq<seq<string>>)
    requires rows != []
    ensures Join(PrintRows(rows), "\r\n") + "\r\n" == Print(rows)
    decreases |rows|
  {
    assert PrintRows(rows)[1..] == PrintRows(rows[1..]);
    if |rows| > 1 {
      JoinedLines(rows[1..]);
      var rest := Join(PrintRows(rows[1..]), "\r\n");
      assert Join(PrintRows(rows), "\r\n") == PrintRow(rows[0]) + "\r\n" + rest;
      assert PrintRow(rows[0]) + "\r\n" + rest + "\r\n" == PrintRow(rows[0]) + "\r\n" + (rest + "\r\n");
    } else {
      assert Print(rows[1..]) == "";
      assert PrintRow(rows[0]) + "\r\n" + "" == PrintRow(rows[0]) + "\r\n";
    }
  }

  lemma {:induction false} PlainCell(cell: string, rest: string, s: Scanner)
    requires !s.quoted && !NeedsQuotes(cell)
    ensures Scan(cell + rest, s) == Scan(rest, s.(cell := s.cell + cell))
    decreases |cell|
  {
    if cell == "" {
      assert cell + rest == rest && s.cell + cell == s.cell;
    } else {
      assert (cell + rest)[1..] == cell[1..] + rest;
      PlainTail(cell);
      PlainCell(cell[1..], rest, s.(cell := s.cell + [cell[0]]));
      assert s.cell + [cell[0]] + cell[1..] == s.cell + cell;
    }
  }

  /** Inside quotes, the doubled text up to the closing quote gives the cell back. */
  lemma {:induction false} QuotedCell(cell: string, rest: string, s: Scanner)
    requires s.quoted && (rest == "" || rest[0] != '"')
    ensures Scan(DoubleQuotes(cell) + "\"" + rest, s) == Scan(rest, s.(cell := s.cell + cell, quoted := false))
    decreases |cell|
  {
    var text := DoubleQuotes(cell) + "\"" + rest;
    if cell == "" {
      assert text == "\"" + rest && text[1..] == rest && s.cell + cell == s.cell;
    } else if cell[0] == '"' {
      assert text[2..] == DoubleQuotes(cell[1..]) + "\"" + rest;
      QuotedCell(cell[1..], rest, s.(cell := s.cell + "\""));
      assert s.cell + "\"" + cell[1..] == s.cell + cell;
    } else {
      assert text[1..] == DoubleQuotes(cell[1..]) + "\"" + rest;
      QuotedCell(cell[1..], rest, s.(cell := s.cell + [cell[0]]));
      assert s.cell + [cell[0]] + cell[1..] == s.cell + cell;
    }
  }

  lemma PrintedCell(cell: string, rest: string, s: Scanner)
    requires !s.quoted && s.cell == "" && (rest == "" || rest[0] != '"')
    ensures Scan(EscapeCell(cell) + rest, s) == Scan(rest, s.(cell := cell))
  {
    hide Scan, DoubleQuotes, NeedsQuotes;
    assert s.cell + cell == cell;
    if NeedsQuotes(cell) {
      OpeningQuote(DoubleQuotes(cell) + "\"" + rest, s);
      QuotedCell(cell, rest, s.(quoted := true));
      assert EscapeCell(cell) + rest == "\"" + (DoubleQuotes(cell) + "\"" + rest);
    } else {
      PlainCell(cell, rest, s);
    }
  }

  lemma OpeningQuote(text: string, s: Scanner)
    requires !s.quoted
    ensures Scan("\"" + text, s) == Scan(text, s.(quoted := true))
  {
    assert ("\"" + text)[1..] == text;
  }

  lemma Comma(text: string, s: Scanner)
    requires !s.quoted
    ensures Scan("," + text, s) == Scan(text, s.(row := s.row + [s.cell], cell := ""))
  {
    assert ("," + text)[1..] == text;
  }

  /** What the scanner makes of a printed row: a row without cells comes back with one empty cell. */
  function Reread(row: seq<string>): seq<string> {
    if row == [] then [""] else row
  }

  lemma {:induction false} PrintedCells(row: seq<string>, rest: string, s: Scanner)
    requires row != [] && !s.quoted && s.cell == "" && rest != "" && rest[0] == '\r'
    ensures Scan(PrintRow(row) + rest, s)
         == Scan(rest, s.(row := s.row + row[..|row| - 1], cell := row[|row| - 1]))
    decreases |row|
  {
    hide Scan, EscapeCell;
    var cells := EscapeCells(row);
    if |row| == 1 {
      PrintedCell(row[0], rest, s);
      assert s.row + row[..0] == s.row;
    } else {
      assert cells[1..] == EscapeCells(row[1..]);
      var tail := PrintRow(row[1..]) + rest;
      assert PrintRow(row) + rest == EscapeCell(row[0]) + ("," + tail);
      PrintedCell(row[0], "," + tail, s);
      Comma(tail, s.(cell := row[0]));
      PrintedCells(row[1..], rest, s.(row := s.row + [row[0]]));
      assert s.row + [row[0]] + row[1..][..|row| - 2] == s.row + row[..|row| - 1];
    }
  }

  lemma PrintedRow(row: seq<string>, rest: string, records: seq<seq<string>>)
    ensures Scan(PrintRow(row) + "\r\n" + rest, Scanner(records, [], "", false))
         == Scan(rest, Scanner(records + [Reread(row)], [], "", false))
  {
    var s := Scanner(records, [], "", false);
    var ending := "\r\n" + rest;
    assert PrintRow(row) + "\r\n" + rest == PrintRow(row) + ending;
    assert ending[1..][0] == '\n' && ending[1..][1..] == rest;
    if row == [] {
      assert PrintRow(row) + ending == ending && [] + [""] == [""];
    } else {
      PrintedCells(row, ending, s);
      assert [] + row[..|row| - 1] + [row[|row| - 1]] == row;
    }
  }

  function RereadAll(rows: seq<seq<string>>): seq<seq<string>> {
    seq(|rows|, i requires 0 <= i < |rows| => Reread(rows[i]))
  }

  lemma {:induction false} PrintedRows(rows: seq<seq<string>>, records: seq<seq<string>>)
    ensures Scan(Print(rows), Scanner(records, [], "", false)) == Scanner(records + RereadAll(rows), [], "", false)
    decreases |rows|
  {
    if rows == [] {
      assert records + RereadAll(rows) == records;
    } else {
      PrintedRow(rows[0], Print(rows[1..]), records);
      PrintedRows(rows[1..], records + [Reread(rows[0])]);
      assert records + [Reread(rows[0])] + RereadAll(rows[1..]) == records + RereadAll(rows);
    }
  }

  /** The printed text would start with a byte-order mark, which the scanner drops. */
  predicate StartsWithBom(rows: seq<seq<string>>) {
    |rows| > 0 && |rows[0]| > 0 && |rows[0][0]| > 0 && rows[0][0][0] == BOM && !NeedsQuotes(rows[0][0])
  }

  lemma PrintHead(rows: seq<seq<string>>)
    ensures StartsWithBom(rows) <==> Print(rows) != "" && Print(rows)[0] == BOM
  {
    if rows != [] && rows[0] != [] {
      var cells := EscapeCells(rows[0]);
      assert EscapeCell(rows[0][0]) <= PrintRow(rows[0]);
    }
  }

  function WithoutBom(rows: seq<seq<string>>): seq<seq<string>>
    requires StartsWithBom(rows)
  {
    [[rows[0][0][1..]] + rows[0][1..]] + rows[1..]
  }

  lemma PrintWithoutBom(rows: seq<seq<string>>)
    requires StartsWithBom(rows)
    ensures Print(rows)[1..] == Print(WithoutBom(rows))
  {
    var cell, row := rows[0][0], rows[0];
    var shorter := WithoutBom(rows);
    assert shorter[1..] == rows[1..];
    PlainTail(cell);
    var cells, cells' := EscapeCells(row), EscapeCells(shorter[0]);
    assert cells[1..] == cells'[1..];
    assert cells[0] == cell && cells'[0] == cell[1..];
    assert PrintRow(row)[1..] == PrintRow(shorter[0]);
    assert Print(rows)[1..] == PrintRow(row)[1..] + "\r\n" + Print(rows[1..]);
  }

  /** What comes back from printing and scanning any matrix at all. */
  lemma PrintThenScan(rows: seq<seq<string>>)
    ensures Records(Print(rows)) == Some(RereadAll(if StartsWithBom(rows) then WithoutBom(rows) else rows))
  {
    PrintHead(rows);
    var kept := rows;
    if StartsWithBom(rows) {
      PrintWithoutBom(rows);
      kept := WithoutBom(rows);
    }
    assert StripBom(Print(rows)) == Print(kept);
    PrintedRows(kept, []);
    assert [] + RereadAll(kept) == RereadAll(kept);
  }

  /**
   A cell matrix survives printing and scanning - quotes, commas, line breaks and all - exactly
   when every row has a cell and the text does not open with a byte-order mark.
   */
  lemma {:induction false} RoundTripIff(rows: seq<seq<string>>)
    ensures Records(Print(rows)) == Some(rows)
            <==> (forall i :: 0 <= i < |rows| ==> rows[i] != []) && !StartsWithBom(rows)
  {
    PrintThenScan(rows);
    if StartsWithBom(rows) {
      var back := RereadAll(WithoutBom(rows));
      assert back[0] == WithoutBom(rows)[0];
      assert |back[0][0]| == |rows[0][0]| - 1;
    } else if i :| 0 <= i < |rows| && rows[i] == [] {
      assert RereadAll(rows)[i] == [""];
    } else {
      assert RereadAll(rows) == rows;
    }
  }

  /** The two ways of failing, at their smallest: the mark is dropped, and an empty row gains a cell. */
  lemma MarkAndEmptyRowAreLost()
    ensures Records(Print([[[BOM, 'x']]])) == Some([["x"]])
    ensures Records(Print([[]])) == Some([[""]])
  {
    var marked: seq<seq<string>> := [[[BOM, 'x']]];
    assert !NeedsQuotes(marked[0][0]);
    assert StartsWithBom(marked);
    PrintThenScan(marked);
    var plain: seq<seq<string>> := [["x"]];
    assert marked[0][0][1..] == "x" && marked[0][1..] == [] && marked[1..] == [];
    assert WithoutBom(marked)[0] == plain[0] && WithoutBom(marked) == plain;
    assert plain[0] != [] && RereadAll(plain) == plain;
    var bare: seq<seq<string>> := [[]];
    PrintThenScan(bare);
    assert RereadAll(bare) == [[""]];
  }
}
