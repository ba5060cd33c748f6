/**
 CSV text: the reader parseCSV runs (Go's encoding/csv with LazyQuotes off and
 any number of fields per record, a reader for section 2 of RFC 4180) and the
 printer writeCSVRow.

 Characters are the unit of both; the quote character is always '"'.
 */
module Csv {
  import opened JsonValues

  const BOM: char := '\U{FEFF}'

  datatype Dialect = Dialect(delim: char, comment: Option<char>)

  type Row = seq<string>

  predicate ValidDelim(c: char) {
    c != '\U{0000}' && c != '"' && c != '\r' && c != '\n' && c != '\U{FFFD}'
  }

  // What the reader checks before it reads anything.
  predicate ValidDialect(d: Dialect) {
    ValidDelim(d.delim) && (d.comment.Some? ==> ValidDelim(d.comment.value) && d.comment.value != d.delim)
  }

  predicate EndsLine(s: string) {
    s != "" && s[|s| - 1] == '\n'
  }

  /******* Reader *******/

  // CRLF reads as LF.
  function Crlf(s: string): string {
    if s == "" then ""
    else if |s| > 1 && s[0] == '\r' && s[1] == '\n' then Crlf(s[1..])
    else [s[0]] + Crlf(s[1..])
  }

  // A carriage return at the very end of the input is dropped.
  function Normalized(s: string): string {
    Crlf(if s != "" && s[|s| - 1] == '\r' then s[..|s| - 1] else s)
  }

  datatype Field = Field(cell: string, rest: string) | BadField

  function Prepend(c: char, f: Field): Field {
    if f.BadField? then f else Field([c] + f.cell, f.rest)
  }

  // A field after its opening quote, up to its closing quote.
  function Quoted(s: string): (f: Field)
    ensures f.Field? ==> |f.rest| < |s|
  {
    if s == "" then BadField
    else if s[0] != '"' then Prepend(s[0], Quoted(s[1..]))
    else if |s| > 1 && s[1] == '"' then Prepend('"', Quoted(s[2..]))
    else Field("", s[1..])
  }

  // A field without quotes, up to the delimiter or the end of the line.
  function Plain(d: Dialect, s: string): (f: Field)
    ensures f.Field? ==> |f.rest| <= |s|
  {
    if s == "" || s[0] == d.delim || s[0] == '\n' then Field("", s)
    else if s[0] == '"' then BadField
    else Prepend(s[0], Plain(d, s[1..]))
  }

  function OneField(d: Dialect, s: string): (f: Field)
    ensures f.Field? ==> |f.rest| <= |s|
  {
    if s != "" && s[0] == '"' then Quoted(s[1..]) else Plain(d, s)
  }

  datatype Record = Record(row: Row, rest: string) | BadRecord

  function OneRecord(d: Dialect, s: string): (r: Record)
    decreases |s|
    ensures r.Record? ==> r.row != [] && |r.rest| <= |s| && (s != "" ==> |r.rest| < |s|)
  {
    var f := OneField(d, s);
    if f.BadField? then BadRecord
    else if f.rest == "" then Record([f.cell], "")
    else if f.rest[0] == '\n' then Record([f.cell], f.rest[1..])
    else if f.rest[0] != d.delim then BadRecord
    else
      var more := OneRecord(d, f.rest[1..]);
      if more.BadRecord? then BadRecord else Record([f.cell] + more.row, more.rest)
  }

  function AfterLine(s: string): (rest: string)
    ensures |rest| <= |s| && (s != "" ==> |rest| < |s|)
  {
    if s == "" then "" else if s[0] == '\n' then s[1..] else AfterLine(s[1..])
  }

  datatype Table = Rows(rows: seq<Row>) | ParseError

  function Join(a: Table, b: Table): Table {
    if a.ParseError? || b.ParseError? then ParseError else Rows(a.rows + b.rows)
  }

  predicate IsComment(d: Dialect, s: string) {
    d.comment.Some? && s != "" && s[0] == d.comment.value
  }

  // All records of normalized text; comment lines and blank lines are skipped.
  function Records(d: Dialect, s: string): Table
    decreases |s|
  {
    if s == "" then Rows([])
    else if IsComment(d, s) then Records(d, AfterLine(s))
    else if s[0] == '\n' then Records(d, s[1..])
    else
      var r := OneRecord(d, s);
      if r.BadRecord? then ParseError else Join(Rows([r.row]), Records(d, r.rest))
  }

  function StripBom(s: string): string {
    if s != "" && s[0] == BOM then s[1..] else s
  }

  function Read(d: Dialect, text: string): Table {
    if !ValidDialect(d) then ParseError else Records(d, Normalized(StripBom(text)))
  }

  /******* Printer *******/

  datatype Style = Style(delim: char, forceQuote: bool, newline: string)

  predicate NeedsQuote(st: Style, cell: string) {
    st.forceQuote || st.delim in cell || '"' in cell || '\r' in cell || '\n' in cell
  }

  function Escaped(c: char): string {
    if c == '"' then "\"\"" else [c]
  }

  function Doubled(cell: string): string {
    if cell == "" then "" else Escaped(cell[0]) + Doubled(cell[1..])
  }

  function PrintCell(st: Style, cell: string): string {
    if NeedsQuote(st, cell) then "\"" + Doubled(cell) + "\"" else cell
  }

  function PrintCells(st: Style, row: Row): string {
    if row == [] then ""
    else if |row| == 1 then PrintCell(st, row[0])
    else PrintCell(st, row[0]) + [st.delim] + PrintCells(st, row[1..])
  }

  function Print(st: Style, rows: seq<Row>): string {
    if rows == [] then "" else PrintCells(st, rows[0]) + st.newline + Print(st, rows[1..])
  }

  // writeCSVRow: appends one record to buf.
  method WriteRow(st: Style, row: Row, buf: string) returns (out: string)
    ensures out == buf + PrintCells(st, row) + st.newline
  {
    hide *;
    out := buf;
    NoCells(st, row);
    for i := 0 to |row|
      invariant out == buf + CellsBefore(st, row, i)
    {
      if i > 0 {
        out := out + [st.delim];
      }
      var cell := row[i];
      if NeedsQuote(st, row[i]) {
        cell := "\"" + Doubled(row[i]) + "\"";
      }
      CellWritten(st, row[i]);
      OneMoreCell(st, row, i);
      Appended(buf, CellsBefore(st, row, i), if i > 0 then [st.delim] else [], cell);
      out := out + cell;
    }
    out := out + st.newline;
  }

  lemma Appended(buf: string, cells: string, sep: string, cell: string)
    ensures buf + cells + sep + cell == buf + (cells + sep + cell) && (sep == "" ==> buf + cells + sep == buf + cells)
  {
  }

  lemma NoCells(st: Style, row: Row)
    ensures CellsBefore(st, row, 0) == "" && CellsBefore(st, row, |row|) == PrintCells(st, row)
  {
    assert row[..|row|] == row;
  }

  lemma {:induction false} DoubledLength(cell: string)
    ensures |Doubled(cell)| >= |cell|
  {
    if cell != "" { DoubledLength(cell[1..]); }
  }

  // A cell is printed as it is exactly if quotes are not forced and it holds
  // neither the delimiter nor a quote nor a line break.
  lemma QuotedExactly(st: Style, cell: string)
    ensures PrintCell(st, cell) == cell <==>
            !st.forceQuote && st.delim !in cell && '"' !in cell && '\r' !in cell && '\n' !in cell
  {
    DoubledLength(cell);
  }

  lemma CellWritten(st: Style, cell: string)
    ensures PrintCell(st, cell) == if NeedsQuote(st, cell) then "\"" + Doubled(cell) + "\"" else cell
  {
  }

  ghost function CellsBefore(st: Style, row: Row, i: nat): string
    requires i <= |row|
  {
    PrintCells(st, row[..i])
  }

  lemma {:induction false} OneMoreCell(st: Style, row: Row, i: nat)
    requires i < |row|
    ensures CellsBefore(st, row, i + 1) ==
            CellsBefore(st, row, i) + (if i > 0 then [st.delim] else []) + PrintCell(st, row[i])
  {
    if i == 0 {
      assert row[..1] == [row[0]] && row[..0] == [];
    } else {
      assert row[..i + 1][1..] == row[1..][..i] && row[..i][1..] == row[1..][..i - 1];
      OneMoreCell(st, row[1..], i - 1);
      if i == 1 { assert row[..1][1..] == []; }
    }
  }

  // stringifyCSVRaw's loop over the rows.
  method WriteRows(st: Style, rows: seq<Row>) returns (out: string)
    ensures out == Print(st, rows)
  {
    hide PrintCells;
    out := "";
    for i := 0 to |rows|
      invariant out + Print(st, rows[i..]) == Print(st, rows)
    {
      ghost var (row, rest) := (PrintCells(st, rows[i]), Print(st, rows[i + 1..]));
      assert Print(st, rows[i..]) == row + st.newline + rest by { assert rows[i..][1..] == rows[i + 1..]; }
      assert (out + row + st.newline) + rest == out + (row + st.newline + rest);
      out := WriteRow(st, rows[i], out);
    }
  }

  /******* Printing, then reading *******/

  // What the reader makes of CRLF inside cells.
  function Folded(row: Row): Row {
    seq(|row|, i requires 0 <= i < |row| => Crlf(row[i]))
  }

  // Rows the reader skips: no cell, a lone empty cell that is printed without
  // quotes, or a first cell that is printed without quotes and begins a comment.
  predicate Skipped(d: Dialect, st: Style, row: Row) {
    row == [] ||
    (!NeedsQuote(st, row[0]) && (row == [""] || IsComment(d, row[0])))
  }

  function Readable(d: Dialect, st: Style, rows: seq<Row>): seq<Row> {
    if rows == [] then []
    else (if Skipped(d, st, rows[0]) then [] else [Folded(rows[0])]) + Readable(d, st, rows[1..])
  }

  // Without the byte order mark the reader strips: the first character of the
  // first cell, or a delimiter behind an empty first cell.
  function WithoutBom(st: Style, rows: seq<Row>): seq<Row> {
    if rows == [] || rows[0] == [] || NeedsQuote(st, rows[0][0]) then rows
    else if rows[0][0] != "" && rows[0][0][0] == BOM then [[rows[0][0][1..]] + rows[0][1..]] + rows[1..]
    else if rows[0][0] == "" && |rows[0]| > 1 && st.delim == BOM then [rows[0][1..]] + rows[1..]
    else rows
  }

  predicate Newline(nl: string) {
    nl == "\n" || nl == "\r\n"
  }

  lemma {:induction false} CrlfJoin(a: string, b: string)
    requires a == "" || b == "" || a[|a| - 1] != '\r' || b[0] != '\n'
    ensures Crlf(a + b) == Crlf(a) + Crlf(b)
  {
    if a == "" {
      assert a + b == b;
    } else if b == "" {
      assert a + b == a;
    } else {
      assert (a + b)[1..] == a[1..] + b;
      CrlfJoin(a[1..], b);
    }
  }

  lemma {:induction false} CrlfPlain(s: string)
    requires '\r' !in s
    ensures Crlf(s) == s
  {
    if s != "" {
      assert s == [s[0]] + s[1..];
      CrlfPlain(s[1..]);
    }
  }

  lemma {:induction false} CrlfMembers(s: string, c: char)
    requires c != '\r'
    ensures c in Crlf(s) <==> c in s
  {
    if s != "" {
      assert s == [s[0]] + s[1..];
      CrlfMembers(s[1..], c);
    }
  }

  lemma {:induction false} CrlfCarriage(s: string)
    ensures '\r' in Crlf(s) || '\n' in Crlf(s) <==> '\r' in s || '\n' in s
    ensures s != "" ==> Crlf(s) != ""
    ensures Crlf(s) != "" && s[0] != '\r' ==> Crlf(s)[0] == s[0]
  {
    if s != "" {
      assert s == [s[0]] + s[1..];
      CrlfCarriage(s[1..]);
    }
  }

  lemma {:induction false} CrlfDoubled(cell: string)
    ensures Crlf(Doubled(cell)) == Doubled(Crlf(cell))
  {
    if cell != "" {
      CrlfDoubled(cell[1..]);
      var (head, tail) := (Escaped(cell[0]), Doubled(cell[1..]));
      if cell[0] == '\r' && |cell| > 1 && cell[1] == '\n' {
        assert tail[0] == '\n' && Doubled(cell)[1..] == tail;
      } else {
        assert head[|head| - 1] != '\r' || tail == "" || tail[0] != '\n';
        CrlfJoin(head, tail);
        CrlfHead(cell);
      }
    }
  }

  // Away from CRLF, Crlf and Doubled both keep the first character.
  lemma CrlfHead(cell: string)
    requires cell != "" && !(|cell| > 1 && cell[0] == '\r' && cell[1] == '\n')
    ensures Doubled(Crlf(cell)) == Escaped(cell[0]) + Doubled(Crlf(cell[1..]))
    ensures Crlf(Escaped(cell[0])) == Escaped(cell[0])
  {
    assert Crlf(cell)[1..] == Crlf(cell[1..]);
    assert Crlf("\"\"") == "\"\"" by { CrlfPlain("\"\""); }
  }

  lemma QuotingKept(st: Style, cell: string)
    requires st.delim != '\r'
    ensures NeedsQuote(st, Crlf(cell)) <==> NeedsQuote(st, cell)
  {
    CrlfMembers(cell, st.delim);
    CrlfMembers(cell, '"');
    CrlfCarriage(cell);
  }

  lemma CrlfCell(st: Style, cell: string)
    requires st.delim != '\r'
    ensures Crlf(PrintCell(st, cell)) == PrintCell(st, Crlf(cell))
    ensures !NeedsQuote(st, cell) ==> Crlf(cell) == cell
    ensures PrintCell(st, cell) != "" ==> PrintCell(st, cell)[|PrintCell(st, cell)| - 1] != '\r'
  {
    QuotingKept(st, cell);
    if NeedsQuote(st, cell) {
      CrlfJoin("\"", Doubled(cell));
      CrlfPlain("\"");
      CrlfJoin("\"" + Doubled(cell), "\"");
      CrlfDoubled(cell);
    } else {
      CrlfPlain(cell);
    }
  }

  lemma {:induction false} CrlfCells(st: Style, row: Row)
    requires st.delim != '\r' && st.delim != '\n'
    ensures Crlf(PrintCells(st, row)) == PrintCells(st, Folded(row))
    ensures PrintCells(st, row) != "" ==> PrintCells(st, row)[|PrintCells(st, row)| - 1] != '\r'
  {
    if row != [] {
      CrlfCell(st, row[0]);
      assert Folded(row)[0] == Crlf(row[0]);
      if |row| > 1 {
        var (first, more) := (PrintCell(st, row[0]), PrintCells(st, row[1..]));
        CrlfCells(st, row[1..]);
        assert Folded(row)[1..] == Folded(row[1..]);
        hide Crlf, PrintCell;
        CrlfJoin(first, [st.delim]);
        CrlfPlain([st.delim]);
        CrlfJoin(first + [st.delim], more);
      }
    }
  }

  // Normalizing printed text gives the folded row and a plain LF.
  lemma CrlfRow(st: Style, row: Row, rest: string)
    requires st.delim != '\r' && st.delim != '\n' && Newline(st.newline)
    ensures Crlf(PrintCells(st, row) + st.newline + rest) == PrintCells(st, Folded(row)) + "\n" + Crlf(rest)
  {
    var cells := PrintCells(st, row);
    CrlfCells(st, row);
    CrlfJoin(cells, st.newline);
    assert Crlf("\n") == "\n";
    if st.newline == "\r\n" { assert st.newline[1..] == "\n"; }
    CrlfJoin(cells + st.newline, rest);
  }

  lemma QuotedSteps(c: char, s: string)
    ensures c != '"' ==> Quoted([c] + s) == Prepend(c, Quoted(s))
    ensures Quoted("\"\"" + s) == Prepend('"', Quoted(s))
    ensures s == "" || s[0] != '"' ==> Quoted("\"" + s) == Field("", s)
  {
    assert ([c] + s)[1..] == s && ("\"" + s)[1..] == s && ("\"\"" + s)[2..] == s;
  }

  lemma DoubledStep(cell: string, rest: string)
    requires cell != ""
    ensures Doubled(cell) + rest == Escaped(cell[0]) + (Doubled(cell[1..]) + rest)
  {
  }

  lemma {:induction false} ReadQuoted(cell: string, rest: string)
    requires rest == "" || rest[0] != '"'
    ensures Quoted(Doubled(cell) + ("\"" + rest)) == Field(cell, rest)
  {
    if cell == "" {
      assert Doubled(cell) + ("\"" + rest) == "\"" + rest;
      QuotedSteps('"', rest);
    } else {
      hide Quoted, Doubled;
      ReadQuoted(cell[1..], rest);
      DoubledStep(cell, "\"" + rest);
      QuotedSteps(cell[0], Doubled(cell[1..]) + ("\"" + rest));
      assert [cell[0]] + cell[1..] == cell;
    }
  }

  lemma {:induction false} ReadPlain(d: Dialect, cell: string, rest: string)
    requires d.delim !in cell && '"' !in cell && '\n' !in cell
    requires rest != "" && (rest[0] == d.delim || rest[0] == '\n')
    ensures Plain(d, cell + rest) == Field(cell, rest)
  {
    if cell == "" {
      assert cell + rest == rest;
    } else {
      assert (cell + rest)[1..] == cell[1..] + rest && (cell + rest)[0] == cell[0];
      ReadPlain(d, cell[1..], rest);
      assert [cell[0]] + cell[1..] == cell;
    }
  }

  lemma ReadCell(d: Dialect, st: Style, cell: string, rest: string)
    requires ValidDelim(d.delim) && st.delim == d.delim && rest != "" && (rest[0] == d.delim || rest[0] == '\n')
    ensures OneField(d, PrintCell(st, cell) + rest) == Field(cell, rest)
  {
    var text := PrintCell(st, cell) + rest;
    if NeedsQuote(st, cell) {
      assert text[1..] == Doubled(cell) + ("\"" + rest) && text[0] == '"';
      ReadQuoted(cell, rest);
    } else {
      ReadPlain(d, cell, rest);
      assert text[0] != '"' by { if cell != "" { assert text[0] == cell[0]; } }
    }
  }

  lemma {:induction false} ReadCells(d: Dialect, st: Style, row: Row, rest: string)
    requires ValidDelim(d.delim) && st.delim == d.delim && row != []
    ensures OneRecord(d, PrintCells(st, row) + "\n" + rest) == Record(row, rest)
  {
    var text := PrintCells(st, row) + "\n" + rest;
    if |row| == 1 {
      assert text == PrintCell(st, row[0]) + ("\n" + rest);
      ReadCell(d, st, row[0], "\n" + rest);
      assert ("\n" + rest)[1..] == rest && [row[0]] == row;
    } else {
      var more := PrintCells(st, row[1..]) + "\n" + rest;
      assert text == PrintCell(st, row[0]) + ([st.delim] + more);
      ReadCell(d, st, row[0], [st.delim] + more);
      assert ([st.delim] + more)[1..] == more && [row[0]] + row[1..] == row;
      ReadCells(d, st, row[1..], rest);
    }
  }

  // A row printed as a comment line must not span lines: the reader skips
  // only the first of them.
  predicate BeginsComment(d: Dialect, st: Style, row: Row) {
    row != [] && !NeedsQuote(st, row[0]) && IsComment(d, row[0])
  }

  predicate OneLine(row: Row) {
    forall i :: 0 <= i < |row| ==> '\n' !in row[i]
  }

  predicate CommentsOnOneLine(d: Dialect, st: Style, rows: seq<Row>) {
    forall i :: 0 <= i < |rows| ==> BeginsComment(d, st, rows[i]) ==> OneLine(rows[i])
  }

  lemma {:induction false} SkipLine(line: string, rest: string)
    requires '\n' !in line
    ensures AfterLine(line + "\n" + rest) == rest
  {
    var text := line + "\n" + rest;
    if line == "" {
      assert text == "\n" + rest && text[1..] == rest;
    } else {
      assert text[0] == line[0] && text[1..] == line[1..] + "\n" + rest;
      SkipLine(line[1..], rest);
    }
  }

  lemma {:induction false} DoubledOneLine(cell: string)
    requires '\n' !in cell
    ensures '\n' !in Doubled(cell)
  {
    if cell != "" { DoubledOneLine(cell[1..]); }
  }

  lemma {:induction false} CellsOneLine(st: Style, row: Row)
    requires OneLine(row) && st.delim != '\n'
    ensures '\n' !in PrintCells(st, row)
  {
    if row != [] {
      DoubledOneLine(row[0]);
      CellsOneLine(st, row[1..]);
    }
  }

  // Where a printed row starts.
  lemma RowHead(st: Style, row: Row)
    requires row != []
    ensures PrintCells(st, row) == "" <==> !NeedsQuote(st, row[0]) && row == [""]
    ensures PrintCells(st, row) != "" ==>
      PrintCells(st, row)[0] == if NeedsQuote(st, row[0]) then '"' else if row[0] != "" then row[0][0] else st.delim
  {
    if |row| == 1 { assert row == [row[0]]; }
  }

  lemma ReadRow(d: Dialect, st: Style, row: Row, rest: string)
    requires ValidDialect(d) && st.delim == d.delim && (BeginsComment(d, st, row) ==> OneLine(row))
    ensures Records(d, PrintCells(st, row) + "\n" + rest) ==
            if Skipped(d, st, row) then Records(d, rest) else Join(Rows([row]), Records(d, rest))
  {
    var text := PrintCells(st, row) + "\n" + rest;
    if row == [] {
      assert text == "\n" + rest && text[1..] == rest;
    } else {
      RowHead(st, row);
      if PrintCells(st, row) == "" {
        assert text == "\n" + rest && text[1..] == rest;
      } else {
        assert text[0] == PrintCells(st, row)[0];
        if BeginsComment(d, st, row) {
          CellsOneLine(st, row);
          SkipLine(PrintCells(st, row), rest);
        } else {
          ReadCells(d, st, row, rest);
        }
      }
    }
  }

  // Folding CRLF changes neither what is skipped nor what is a comment.
  lemma FoldedAlike(d: Dialect, st: Style, row: Row)
    requires st.delim != '\r'
    ensures Skipped(d, st, Folded(row)) <==> Skipped(d, st, row)
    ensures BeginsComment(d, st, Folded(row)) <==> BeginsComment(d, st, row)
    ensures OneLine(row) ==> OneLine(Folded(row))
  {
    forall i | 0 <= i < |row| ensures '\n' in Folded(row)[i] <==> '\n' in row[i] { CrlfMembers(row[i], '\n'); }
    if row != [] {
      QuotingKept(st, row[0]);
      CrlfCell(st, row[0]);
      CrlfCarriage(row[0]);
      assert Folded(row)[0] == Crlf(row[0]);
      if |row| == 1 { assert row == [row[0]] && Folded(row) == [Crlf(row[0])]; }
    }
  }

  // Rows are read in step with their printing, up to whatever text follows.
  lemma {:induction false} PrintThenRead(d: Dialect, st: Style, rows: seq<Row>, rest: string)
    requires ValidDialect(d) && st.delim == d.delim && Newline(st.newline) && CommentsOnOneLine(d, st, rows)
    ensures Records(d, Crlf(Print(st, rows) + rest)) == Join(Rows(Readable(d, st, rows)), Records(d, Crlf(rest)))
  {
    if rows == [] {
      assert Print(st, rows) + rest == rest;
      NothingJoined(Records(d, Crlf(rest)));
    } else {
      hide Crlf, Print, PrintCells, Skipped, Folded, Records, Readable, Join;
      var (row, more) := (rows[0], Print(st, rows[1..]) + rest);
      PrintFirst(st, rows, rest);
      CrlfRow(st, row, more);
      FoldedAlike(d, st, row);
      ReadRow(d, st, Folded(row), Crlf(more));
      PrintThenRead(d, st, rows[1..], rest);
      ReadableFirst(d, st, rows, Records(d, Crlf(rest)));
    }
  }

  lemma PrintFirst(st: Style, rows: seq<Row>, rest: string)
    requires rows != []
    ensures Print(st, rows) + rest == PrintCells(st, rows[0]) + st.newline + (Print(st, rows[1..]) + rest)
  {
  }

  lemma NothingJoined(t: Table)
    ensures Join(Rows([]), t) == t
  {
  }

  lemma ReadableFirst(d: Dialect, st: Style, rows: seq<Row>, t: Table)
    requires rows != []
    ensures
      var more := Join(Rows(Readable(d, st, rows[1..])), t);
      Join(Rows(Readable(d, st, rows)), t) == if Skipped(d, st, rows[0]) then more else Join(Rows([Folded(rows[0])]), more)
  {
    var more := Readable(d, st, rows[1..]);
    assert [] + more == more;
    if t.Rows? { assert [Folded(rows[0])] + more + t.rows == [Folded(rows[0])] + (more + t.rows); }
  }

  lemma PrintEnds(st: Style, rows: seq<Row>)
    requires Newline(st.newline) && rows != []
    ensures Print(st, rows) != "" && Print(st, rows)[|Print(st, rows)| - 1] == '\n'
  {
    if |rows| > 1 { PrintEnds(st, rows[1..]); }
  }

  lemma BomStripped(st: Style, rows: seq<Row>)
    requires Newline(st.newline)
    ensures StripBom(Print(st, rows)) == Print(st, WithoutBom(st, rows))
  {
    if rows != [] {
      var (row, rows') := (rows[0], WithoutBom(st, rows));
      PrintFirst(st, rows, "");
      PrintFirst(st, rows', "");
      Unchanged(Print(st, rows));
      Unchanged(Print(st, rows'));
      Unchanged(Print(st, rows[1..]));
      if row != [] {
        RowHead(st, row);
        if row[0] != "" && !NeedsQuote(st, row[0]) { BomCell(st, row); }
        if row[0] == "" && |row| > 1 && !NeedsQuote(st, row[0]) { EmptyFirst(st, row); }
      }
      hide Print, PrintCells, NeedsQuote;
      if rows' != rows {
        assert rows'[1..] == rows[1..];
        Shorter(PrintCells(st, row), st.newline + Print(st, rows[1..]));
      }
    }
  }

  lemma Unchanged(s: string)
    ensures s + "" == s
  {
  }

  lemma Shorter(s: string, rest: string)
    requires s != ""
    ensures (s + rest)[1..] == s[1..] + rest
  {
  }

  lemma EmptyFirst(st: Style, row: Row)
    requires |row| > 1 && row[0] == "" && !NeedsQuote(st, "")
    ensures PrintCells(st, row) != "" && PrintCells(st, row)[1..] == PrintCells(st, row[1..])
  {
    assert PrintCells(st, row) == "" + [st.delim] + PrintCells(st, row[1..]);
  }

  lemma BomCell(st: Style, row: Row)
    requires row != [] && row[0] != "" && !NeedsQuote(st, row[0])
    ensures PrintCells(st, row) != "" && PrintCells(st, [row[0][1..]] + row[1..]) == PrintCells(st, row)[1..]
  {
    var row' := [row[0][1..]] + row[1..];
    assert row'[1..] == row[1..];
    assert PrintCell(st, row'[0]) == row[0][1..];
  }

  // Printing and reading back, exactly: of the first n rows those that are
  // not skipped, with CRLF inside cells read as LF and without a leading byte
  // order mark, then whatever the rest of the text reads as; for any n up to
  // the first row that is printed as a comment of several lines.
  lemma RoundTrip(d: Dialect, st: Style, rows: seq<Row>, n: nat)
    requires ValidDialect(d) && st.delim == d.delim && Newline(st.newline) && n <= |rows|
    requires CommentsOnOneLine(d, st, WithoutBom(st, rows)[..n])
    ensures
      var rows' := WithoutBom(st, rows);
      Read(d, Print(st, rows)) == Join(Rows(Readable(d, st, rows'[..n])), Records(d, Normalized(Print(st, rows'[n..]))))
  {
    var rows' := WithoutBom(st, rows);
    BomStripped(st, rows);
    PrintedNormal(st, rows');
    PrintedNormal(st, rows'[n..]);
    hide Print, Readable, CommentsOnOneLine, Records, Crlf, Normalized;
    assert rows' == rows'[..n] + rows'[n..];
    PrintJoin(st, rows'[..n], rows'[n..]);
    PrintThenRead(d, st, rows'[..n], Print(st, rows'[n..]));
  }

  lemma PrintedNormal(st: Style, rows: seq<Row>)
    requires Newline(st.newline)
    ensures Normalized(Print(st, rows)) == Crlf(Print(st, rows))
  {
    if rows != [] { PrintEnds(st, rows); }
  }

  lemma {:induction false} PrintJoin(st: Style, a: seq<Row>, b: seq<Row>)
    ensures Print(st, a + b) == Print(st, a) + Print(st, b)
  {
    if a == [] {
      assert a + b == b && "" + Print(st, b) == Print(st, b);
    } else {
      assert (a + b)[1..] == a[1..] + b && (a + b)[0] == a[0];
      PrintJoin(st, a[1..], b);
      PrintFirst(st, a, Print(st, b));
    }
  }

  // Text that starts with no byte order mark, or has lost it.
  lemma ReadPrinted(d: Dialect, st: Style, rows: seq<Row>)
    requires ValidDialect(d) && st.delim == d.delim && Newline(st.newline) && CommentsOnOneLine(d, st, rows)
    ensures Records(d, Normalized(Print(st, rows))) == Rows(Readable(d, st, rows))
  {
    var text := Print(st, rows);
    PrintedNormal(st, rows);
    assert text + "" == text;
    hide Print, Readable, CommentsOnOneLine;
    PrintThenRead(d, st, rows, "");
    var r := Readable(d, st, rows);
    assert r + [] == r;
  }

  // When no comment spans lines, that is all of it.
  lemma RoundTripWhole(d: Dialect, st: Style, rows: seq<Row>)
    requires ValidDialect(d) && st.delim == d.delim && Newline(st.newline) && CommentsOnOneLine(d, st, WithoutBom(st, rows))
    ensures Read(d, Print(st, rows)) == Rows(Readable(d, st, WithoutBom(st, rows)))
  {
    BomStripped(st, rows);
    ReadPrinted(d, st, WithoutBom(st, rows));
  }

  /******* Lines that are not records *******/

  // Blank lines and comment lines say nothing, wherever they stand.
  lemma IgnoredLines(d: Dialect, line: string, rest: string)
    requires ValidDialect(d) && '\n' !in line
    ensures Records(d, "\n" + rest) == Records(d, rest)
    ensures d.comment.Some? ==> Records(d, [d.comment.value] + line + "\n" + rest) == Records(d, rest)
  {
    assert ("\n" + rest)[1..] == rest;
    if d.comment.Some? {
      var head := [d.comment.value] + line;
      LineSkipped(head, rest);
      assert (head + "\n" + rest)[0] == d.comment.value;
    }
  }

  lemma {:induction false} LineSkipped(line: string, rest: string)
    requires '\n' !in line
    ensures AfterLine(line + "\n" + rest) == rest
  {
    if line == "" {
      assert (line + "\n" + rest)[1..] == rest;
    } else {
      assert (line + "\n" + rest)[1..] == line[1..] + "\n" + rest;
      LineSkipped(line[1..], rest);
    }
  }

  // A quote that is not closed spoils the text.
  lemma UnclosedQuoteFails(d: Dialect, s: string)
    requires ValidDialect(d) && '"' !in s
    ensures Records(d, "\"" + s) == ParseError
  {
    NeverClosed(s);
    assert ("\"" + s)[1..] == s;
  }

  lemma {:induction false} NeverClosed(s: string)
    requires '"' !in s
    ensures Quoted(s) == BadField
  {
    if s != "" { NeverClosed(s[1..]); }
  }
}
