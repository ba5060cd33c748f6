/**
 When printing CSV and reading it back is the identity, for all rows.

 The argument weighs text by its characters other than quotes.  The printer
 adds quotes only; the reader turns all other characters into cells and cell
 ends, save the ones of lines it skips, of CRLF and of the byte order mark.
 Nothing that is lost on the way can be made up for elsewhere.
 */
module CsvIdentity {
  import opened JsonValues
  import opened Csv

  predicate HasCrlf(s: string) {
    exists i :: 0 < i < |s| && s[i - 1] == '\r' && s[i] == '\n'
  }

  lemma {:induction false} CrlfShortens(s: string)
    ensures |Crlf(s)| <= |s| && (Crlf(s) == s <==> !HasCrlf(s))
  {
    if s != "" {
      CrlfShortens(s[1..]);
      assert s == [s[0]] + s[1..];
      if HasCrlf(s[1..]) {
        var i :| 0 < i < |s[1..]| && s[1..][i - 1] == '\r' && s[1..][i] == '\n';
        assert s[i] == '\r' && s[i + 1] == '\n';
      }
      if HasCrlf(s) {
        var i :| 0 < i < |s| && s[i - 1] == '\r' && s[i] == '\n';
        if i > 1 { assert s[1..][i - 2] == '\r' && s[1..][i - 1] == '\n'; }
      }
      if |s| > 1 && s[0] == '\r' && s[1] == '\n' { assert s[0 + 1] == '\n'; }
    }
  }

  // No cell holds CRLF.
  predicate Unfolded(row: Row) {
    forall i :: 0 <= i < |row| ==> !HasCrlf(row[i])
  }

  lemma FoldedSame(row: Row)
    ensures Folded(row) == row <==> Unfolded(row)
  {
    forall i | 0 <= i < |row| ensures Crlf(row[i]) == row[i] <==> !HasCrlf(row[i]) { CrlfShortens(row[i]); }
    if Folded(row) == row {
      forall i | 0 <= i < |row| ensures !HasCrlf(row[i]) { assert Folded(row)[i] == row[i]; }
    }
  }

  lemma {:induction false} ReadableSame(d: Dialect, st: Style, rows: seq<Row>)
    requires forall i :: 0 <= i < |rows| ==> !Skipped(d, st, rows[i])
    ensures Readable(d, st, rows) == rows <==> forall i :: 0 <= i < |rows| ==> Unfolded(rows[i])
  {
    if rows != [] {
      assert forall i :: 0 <= i < |rows[1..]| ==> rows[1..][i] == rows[i + 1];
      ReadableSame(d, st, rows[1..]);
      FoldedSame(rows[0]);
      assert rows == [rows[0]] + rows[1..];
      var r := Readable(d, st, rows);
      assert r[0] == Folded(rows[0]) && r[1..] == Readable(d, st, rows[1..]);
    }
  }

  /******* Weights *******/

  function Weight(s: string): nat {
    if s == "" then 0 else (if s[0] == '"' then 0 else 1) + Weight(s[1..])
  }

  // A cell counts one for the delimiter or line end behind it.
  function RowWeight(row: Row): nat {
    if row == [] then 0 else Weight(row[0]) + 1 + RowWeight(row[1..])
  }

  // A row without cells still prints a line end.
  function Cost(row: Row): nat {
    if row == [] then 1 else RowWeight(row)
  }

  function TableWeight(rows: seq<Row>): nat {
    if rows == [] then 0 else Cost(rows[0]) + TableWeight(rows[1..])
  }

  lemma {:induction false} WeightJoin(a: string, b: string)
    ensures Weight(a + b) == Weight(a) + Weight(b)
  {
    if a == "" {
      assert a + b == b;
    } else {
      assert (a + b)[1..] == a[1..] + b;
      WeightJoin(a[1..], b);
    }
  }

  lemma {:induction false} WeightDoubled(cell: string)
    ensures Weight(Doubled(cell)) == Weight(cell)
  {
    if cell != "" {
      WeightDoubled(cell[1..]);
      WeightJoin(Escaped(cell[0]), Doubled(cell[1..]));
      assert "\"\""[1..] == "\"" && "\""[1..] == "" && [cell[0]][1..] == "";
    }
  }

  lemma WeightCell(st: Style, cell: string)
    ensures Weight(PrintCell(st, cell)) == Weight(cell)
  {
    WeightDoubled(cell);
    assert Weight("\"") == 0 by { assert "\""[1..] == ""; }
    WeightJoin("\"", Doubled(cell));
    WeightJoin("\"" + Doubled(cell), "\"");
  }

  lemma WeightOne(c: char)
    requires c != '"'
    ensures Weight([c]) == 1
  {
    assert [c][1..] == "";
  }

  lemma {:induction false} WeightCells(st: Style, row: Row)
    requires st.delim != '"' && row != []
    ensures Weight(PrintCells(st, row) + "\n") == RowWeight(row)
  {
    WeightCell(st, row[0]);
    WeightOne('\n');
    if |row| == 1 {
      WeightJoin(PrintCell(st, row[0]), "\n");
    } else {
      var (first, more) := (PrintCell(st, row[0]), PrintCells(st, row[1..]));
      WeightCells(st, row[1..]);
      WeightOne(st.delim);
      WeightJoin(first, [st.delim]);
      WeightJoin(first + [st.delim], more + "\n");
      assert first + [st.delim] + more + "\n" == first + [st.delim] + (more + "\n");
    }
  }

  // Folding CRLF loses weight exactly when there is one.
  lemma {:induction false} WeightCrlf(s: string)
    ensures Weight(Crlf(s)) <= Weight(s) && (Weight(Crlf(s)) == Weight(s) <==> Crlf(s) == s)
  {
    if s != "" {
      WeightCrlf(s[1..]);
      assert s == [s[0]] + s[1..];
      if !(|s| > 1 && s[0] == '\r' && s[1] == '\n') {
        assert Crlf(s)[1..] == Crlf(s[1..]) && Crlf(s)[0] == s[0];
      }
    }
  }

  lemma {:induction false} WeightFolded(row: Row)
    ensures RowWeight(Folded(row)) <= RowWeight(row) && (RowWeight(Folded(row)) == RowWeight(row) <==> Folded(row) == row)
  {
    if row != [] {
      WeightCrlf(row[0]);
      WeightFolded(row[1..]);
      assert Folded(row)[1..] == Folded(row[1..]) && Folded(row)[0] == Crlf(row[0]);
      assert row == [row[0]] + row[1..];
    }
  }

  /******* What the reader gets out of a text *******/

  lemma {:induction false} QuotedWeight(s: string)
    requires Quoted(s).Field?
    ensures Weight(Quoted(s).cell) + Weight(Quoted(s).rest) == Weight(s)
    ensures EndsLine(s) ==> EndsLine(Quoted(s).rest)
  {
    if s[0] != '"' {
      QuotedWeight(s[1..]);
      assert Quoted(s).cell[1..] == Quoted(s[1..]).cell;
    } else if |s| > 1 && s[1] == '"' {
      QuotedWeight(s[2..]);
      assert Quoted(s).cell[1..] == Quoted(s[2..]).cell && s[1..][1..] == s[2..];
    }
  }

  lemma {:induction false} PlainWeight(d: Dialect, s: string)
    requires Plain(d, s).Field?
    ensures Weight(Plain(d, s).cell) + Weight(Plain(d, s).rest) == Weight(s)
    ensures EndsLine(s) ==> EndsLine(Plain(d, s).rest)
  {
    if s != "" && s[0] != d.delim && s[0] != '\n' {
      PlainWeight(d, s[1..]);
      assert Plain(d, s).cell[1..] == Plain(d, s[1..]).cell;
    }
  }

  lemma FieldWeight(d: Dialect, s: string)
    requires OneField(d, s).Field?
    ensures Weight(OneField(d, s).cell) + Weight(OneField(d, s).rest) == Weight(s)
    ensures EndsLine(s) ==> EndsLine(OneField(d, s).rest)
  {
    if s != "" && s[0] == '"' { QuotedWeight(s[1..]); } else { PlainWeight(d, s); }
  }

  // A record takes out of a text exactly its own weight.
  lemma {:induction false} RecordWeight(d: Dialect, s: string)
    requires ValidDelim(d.delim) && EndsLine(s) && OneRecord(d, s).Record?
    ensures
      var r := OneRecord(d, s);
      RowWeight(r.row) + Weight(r.rest) == Weight(s) && (r.rest == "" || EndsLine(r.rest))
    decreases |s|
  {
    var (f, r) := (OneField(d, s), OneRecord(d, s));
    FieldWeight(d, s);
    assert Weight(f.rest) == 1 + Weight(f.rest[1..]);
    if f.rest[0] == d.delim {
      RecordWeight(d, f.rest[1..]);
      assert r.row[1..] == OneRecord(d, f.rest[1..]).row;
    } else {
      assert r.row[1..] == [];
    }
  }

  lemma {:induction false} LineWeight(s: string)
    requires EndsLine(s)
    ensures Weight(AfterLine(s)) < Weight(s) && (AfterLine(s) == "" || EndsLine(AfterLine(s)))
  {
    if s[0] != '\n' { LineWeight(s[1..]); }
  }

  lemma {:induction false} RecordsWeight(d: Dialect, s: string)
    requires ValidDelim(d.delim) && (s == "" || EndsLine(s)) && Records(d, s).Rows?
    ensures TableWeight(Records(d, s).rows) <= Weight(s)
    decreases |s|
  {
    if s == "" {
    } else if IsComment(d, s) {
      LineWeight(s);
      RecordsWeight(d, AfterLine(s));
    } else if s[0] == '\n' {
      RecordsWeight(d, s[1..]);
    } else {
      RecordWeight(d, s);
      RecordsWeight(d, OneRecord(d, s).rest);
      assert Records(d, s).rows[1..] == Records(d, OneRecord(d, s).rest).rows;
    }
  }

  // A skipped line is lost.
  lemma SkippingLoses(d: Dialect, s: string)
    requires ValidDelim(d.delim) && EndsLine(s) && Records(d, s).Rows? && (IsComment(d, s) || s[0] == '\n')
    ensures TableWeight(Records(d, s).rows) < Weight(s)
  {
    LineWeight(s);
    if IsComment(d, s) { RecordsWeight(d, AfterLine(s)); } else { RecordsWeight(d, s[1..]); }
  }

  /******* Printing, then reading *******/

  lemma CostFolded(row: Row)
    ensures Cost(Folded(row)) <= Cost(row) && (Cost(Folded(row)) == Cost(row) <==> Unfolded(row))
  {
    WeightFolded(row);
    FoldedSame(row);
  }

  // The first row's line, and the lines after it.
  lemma FirstLine(st: Style, rows: seq<Row>)
    requires ValidDelim(st.delim) && Newline(st.newline) && rows != []
    ensures
      var (row, rest) := (Folded(rows[0]), Crlf(Print(st, rows[1..])));
      Crlf(Print(st, rows)) == PrintCells(st, row) + "\n" + rest && Weight(Crlf(Print(st, rows))) == Cost(row) + Weight(rest) &&
      EndsLine(Crlf(Print(st, rows)))
    decreases |rows|
  {
    var (row, rest) := (Folded(rows[0]), Crlf(Print(st, rows[1..])));
    CrlfRow(st, rows[0], Print(st, rows[1..]));
    if row != [] { WeightCells(st, row); } else { WeightOne('\n'); assert PrintCells(st, row) + "\n" == "\n"; }
    WeightJoin(PrintCells(st, row) + "\n", rest);
    if |rows| > 1 { FirstLine(st, rows[1..]); } else { assert rest == ""; }
  }

  lemma {:induction false} PaperWeight(st: Style, rows: seq<Row>)
    requires ValidDelim(st.delim) && Newline(st.newline)
    ensures Weight(Crlf(Print(st, rows))) <= TableWeight(rows)
  {
    if rows != [] {
      FirstLine(st, rows);
      CostFolded(rows[0]);
      PaperWeight(st, rows[1..]);
    }
  }

  predicate Intact(d: Dialect, st: Style, rows: seq<Row>) {
    forall i :: 0 <= i < |rows| ==> !Skipped(d, st, rows[i]) && Unfolded(rows[i])
  }

  lemma IntactTail(d: Dialect, st: Style, rows: seq<Row>)
    requires rows != []
    ensures Intact(d, st, rows) <==> !Skipped(d, st, rows[0]) && Unfolded(rows[0]) && Intact(d, st, rows[1..])
  {
    assert forall i :: 0 <= i < |rows[1..]| ==> rows[1..][i] == rows[i + 1];
    assert forall i :: 0 < i < |rows| ==> rows[i] == rows[1..][i - 1];
  }

  // What begins the line of a skipped row.
  lemma SkippedLine(d: Dialect, st: Style, row: Row, rest: string)
    requires Skipped(d, st, row)
    ensures
      var text := PrintCells(st, row) + "\n" + rest;
      text[0] == '\n' || IsComment(d, text)
  {
    if row != [] { RowHead(st, row); }
  }

  // Reading gives back no more than was printed, and less if a row is skipped
  // or a cell holds CRLF.
  lemma {:induction false} ReadsNoMore(d: Dialect, st: Style, rows: seq<Row>)
    requires ValidDialect(d) && st.delim == d.delim && Newline(st.newline) && Records(d, Crlf(Print(st, rows))).Rows?
    ensures TableWeight(Records(d, Crlf(Print(st, rows))).rows) <= TableWeight(rows)
    ensures !Intact(d, st, rows) ==> TableWeight(Records(d, Crlf(Print(st, rows))).rows) < TableWeight(rows)
  {
    if rows != [] {
      var (row, rest, text) := (Folded(rows[0]), Crlf(Print(st, rows[1..])), Crlf(Print(st, rows)));
      FirstLine(st, rows);
      FoldedAlike(d, st, rows[0]);
      PaperWeight(st, rows);
      IntactTail(d, st, rows);
      CostFolded(rows[0]);
      hide Intact, Skipped, Print, Crlf, Folded, Unfolded, Cost, Records;
      if Skipped(d, st, row) {
        SkippedLine(d, st, row, rest);
        SkippingLoses(d, text);
      } else {
        NotSkipped(d, st, row);
        ReadRow(d, st, row, rest);
        ReadsNoMore(d, st, rows[1..]);
        assert Records(d, text).rows[1..] == Records(d, rest).rows;
      }
    }
  }

  lemma NotSkipped(d: Dialect, st: Style, row: Row)
    requires !Skipped(d, st, row)
    ensures !BeginsComment(d, st, row)
  {
  }

  lemma BomWeight(st: Style, rows: seq<Row>)
    requires ValidDelim(st.delim) && Newline(st.newline) && StripBom(Print(st, rows)) != Print(st, rows)
    ensures
      var rest := Normalized(StripBom(Print(st, rows)));
      (rest == "" || EndsLine(rest)) && Weight(rest) < TableWeight(rows)
  {
    var text := Print(st, rows);
    var rest := text[1..];
    PrintEnds(st, rows);
    assert text == [BOM] + rest && EndsLine(rest);
    assert Normalized(rest) == Crlf(rest);
    CrlfJoin([BOM], rest);
    CrlfPlain([BOM]);
    WeightOne(BOM);
    WeightJoin([BOM], Crlf(rest));
    PaperWeight(st, rows);
    FirstLine(st, rows);
    assert Crlf(text) == [BOM] + Crlf(rest);
    CrlfCarriage(rest);
  }

  // Printing and reading back is the identity exactly on rows none of which
  // the reader skips, whose cells hold no CRLF, and whose text does not begin
  // with a byte order mark.
  lemma RoundTripIdentity(d: Dialect, st: Style, rows: seq<Row>)
    requires ValidDialect(d) && st.delim == d.delim && Newline(st.newline)
    ensures Read(d, Print(st, rows)) == Rows(rows) <==> Intact(d, st, rows) && StripBom(Print(st, rows)) == Print(st, rows)
  {
    var text := Print(st, rows);
    if StripBom(text) != text {
      BomWeight(st, rows);
      if Read(d, text).Rows? { RecordsWeight(d, Normalized(StripBom(text))); }
    } else {
      if rows != [] { PrintEnds(st, rows); }
      assert Normalized(text) == Crlf(text);
      if Intact(d, st, rows) {
        IntactReads(d, st, rows);
      } else if Records(d, Crlf(text)).Rows? {
        ReadsNoMore(d, st, rows);
      }
    }
  }

  lemma IntactReads(d: Dialect, st: Style, rows: seq<Row>)
    requires ValidDialect(d) && st.delim == d.delim && Newline(st.newline) && Intact(d, st, rows)
    ensures Records(d, Normalized(Print(st, rows))) == Rows(rows)
  {
    ReadPrinted(d, st, rows);
    ReadableSame(d, st, rows);
  }

  // With every cell quoted and no CRLF inside cells, nothing is lost.
  lemma ForcedQuotesRoundTrip(d: Dialect, st: Style, rows: seq<Row>)
    requires ValidDialect(d) && st.delim == d.delim && Newline(st.newline) && st.forceQuote
    requires forall i :: 0 <= i < |rows| ==> rows[i] != [] && Unfolded(rows[i])
    ensures Read(d, Print(st, rows)) == Rows(rows)
  {
    if rows != [] { RowHead(st, rows[0]); }
    RoundTripIdentity(d, st, rows);
  }

  /******* A comment row that spans lines *******/

  lemma {:induction false} DoubledJoin(a: string, b: string)
    ensures Doubled(a + b) == Doubled(a) + Doubled(b)
  {
    if a == "" {
      assert a + b == b;
    } else {
      assert (a + b)[1..] == a[1..] + b;
      DoubledJoin(a[1..], b);
      assert Escaped(a[0]) + (Doubled(a[1..]) + Doubled(b)) == Escaped(a[0]) + Doubled(a[1..]) + Doubled(b);
    }
  }

  lemma {:induction false} DoubledPlain(s: string)
    requires '"' !in s
    ensures Doubled(s) == s
  {
    if s != "" {
      DoubledPlain(s[1..]);
      assert [s[0]] + s[1..] == s;
    }
  }

  function Behind(st: Style, back: Row): string {
    if back == [] then "" else [st.delim] + PrintCells(st, back)
  }

  lemma {:induction false} CellsAround(st: Style, front: Row, cell: string, back: Row)
    requires front != []
    ensures PrintCells(st, front + [cell] + back) == PrintCells(st, front) + [st.delim] + PrintCell(st, cell) + Behind(st, back)
  {
    var row := front + [cell] + back;
    if |front| == 1 {
      assert row[0] == front[0] && row[1..] == [cell] + back && ([cell] + back)[1..] == back;
      assert PrintCells(st, [cell] + back) == PrintCell(st, cell) + Behind(st, back);
    } else {
      assert row[0] == front[0] && row[1..] == front[1..] + [cell] + back;
      CellsAround(st, front[1..], cell, back);
      Regroup(PrintCell(st, front[0]) + [st.delim], PrintCells(st, front[1..]), [st.delim], PrintCell(st, cell), Behind(st, back));
    }
  }

  lemma Regroup(v: string, w: string, x: string, y: string, z: string)
    ensures v + (w + x + y + z) == v + w + x + y + z
    ensures v + w + ("\"" + (x + "\n" + y) + "\"") + z == (v + w + "\"" + x) + "\n" + (y + "\"" + z)
  {
  }

  // Cell text that ends in a lone quote is not a record.
  lemma {:induction false} LoneQuote(d: Dialect, b: string, more: string)
    requires ValidDelim(d.delim) && b != "" && '"' !in b && '\n' !in b && b[|b| - 1] != d.delim
    ensures OneRecord(d, b + "\"" + more) == BadRecord
  {
    var s := b + "\"" + more;
    assert s[0] == b[0] && s[1..] == b[1..] + "\"" + more;
    if |b| == 1 {
      assert s[1] == '"' && Plain(d, s[1..]) == BadField;
    } else {
      assert s[1] == b[1];
      LoneQuote(d, b[1..], more);
      if b[0] == d.delim { assert OneField(d, s) == Field("", s); }
    }
  }

  // The text of such a row: up to its first line feed, and from there.
  lemma CommentRowText(st: Style, front: Row, a: string, b: string, back: Row)
    requires front != [] && OneLine(front) && st.delim != '\n' && '\n' !in a && '"' !in b
    ensures
      var head := PrintCells(st, front) + [st.delim] + "\"" + Doubled(a);
      '\n' !in head && PrintCells(st, front + [a + "\n" + b] + back) == head + "\n" + (b + "\"" + Behind(st, back))
  {
    var cell := a + "\n" + b;
    assert NeedsQuote(st, cell) by { assert cell[|a|] == '\n'; }
    assert PrintCell(st, cell) == "\"" + Doubled(cell) + "\"";
    hide PrintCells, Doubled, Behind, PrintCell;
    CellsAround(st, front, cell, back);
    DoubledJoin(a + "\n", b);
    DoubledJoin(a, "\n");
    DoubledPlain("\n");
    DoubledPlain(b);
    Regroup(PrintCells(st, front), [st.delim], Doubled(a), b, Behind(st, back));
    CellsOneLine(st, front);
    DoubledOneLine(a);
  }

  lemma CommentRowFails(d: Dialect, st: Style, front: Row, a: string, b: string, back: Row, rest: string)
    requires ValidDialect(d) && st.delim == d.delim && BeginsComment(d, st, front) && OneLine(front) && '\n' !in a
    requires b != "" && '"' !in b && '\n' !in b && b[|b| - 1] != d.delim && !IsComment(d, b)
    ensures Records(d, PrintCells(st, front + [a + "\n" + b] + back) + "\n" + rest) == ParseError
  {
    var head := PrintCells(st, front) + [st.delim] + "\"" + Doubled(a);
    var more := Behind(st, back) + "\n" + rest;
    CommentRowText(st, front, a, b, back);
    RowHead(st, front);
    LoneQuote(d, b, more);
    SkipLine(head, b + "\"" + more);
    var text := head + "\n" + (b + "\"" + more);
    assert PrintCells(st, front + [a + "\n" + b] + back) + "\n" + rest == text;
    assert text[0] == head[0] == PrintCells(st, front)[0];
    assert (b + "\"" + more)[0] == b[0];
  }

  // A row printed as a comment, with a line break in a later cell a LF b, is
  // not skipped whole: the reader resumes at b, inside the quotes, and fails,
  // whatever rows stand before and behind.
  lemma MultiLineCommentFails(d: Dialect, st: Style, before: seq<Row>, front: Row, a: string, b: string, back: Row, after: seq<Row>)
    requires ValidDialect(d) && st.delim == d.delim && Newline(st.newline) && CommentsOnOneLine(d, st, before)
    requires BeginsComment(d, st, front) && OneLine(front) && '\n' !in a && Unfolded(front + [a + "\n" + b] + back)
    requires b != "" && '"' !in b && '\n' !in b && b[|b| - 1] != d.delim && !IsComment(d, b)
    requires var text := Print(st, before + ([front + [a + "\n" + b] + back] + after)); StripBom(text) == text
    ensures Read(d, Print(st, before + ([front + [a + "\n" + b] + back] + after))) == ParseError
  {
    var row := front + [a + "\n" + b] + back;
    var rows := [row] + after;
    var text := Print(st, before + rows);
    FoldedSame(row);
    assert rows[1..] == after && rows[0] == row;
    FirstLine(st, rows);
    CommentRowFails(d, st, front, a, b, back, Crlf(Print(st, after)));
    PrintJoin(st, before, rows);
    PrintThenRead(d, st, before, Print(st, rows));
    PrintEnds(st, before + rows);
  }
}
