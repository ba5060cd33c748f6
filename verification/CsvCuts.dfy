/**
 When a chunk of a CSV stream fails: exactly, for a given cutting, and for a
 text however it is cut.
 */
module CsvCuts {
  import opened JsonValues
  import opened Csv
  import opened CsvStreams

  /******* A given cutting *******/

  // The complete lines of every initial run of chunks parse.
  predicate PrefixesRead(d: Dialect, chunks: seq<string>) {
    forall i :: 0 <= i <= |chunks| ==> Read(d, Lines(Concat(chunks[..i]))).Rows?
  }

  lemma PrefixesSnoc(d: Dialect, before: seq<string>, chunk: string)
    ensures
      PrefixesRead(d, before + [chunk]) <==>
      PrefixesRead(d, before) && Read(d, Lines(Concat(before + [chunk]))).Rows?
  {
    hide Read, Lines, Concat;
    var chunks := before + [chunk];
    assert chunks[..|chunks|] == chunks;
    forall i | 0 <= i <= |before| ensures chunks[..i] == before[..i] {}
    if PrefixesRead(d, before) && Read(d, Lines(Concat(chunks))).Rows? {
      forall i | 0 <= i <= |chunks| ensures Read(d, Lines(Concat(chunks[..i]))).Rows? {
        if i <= |before| { assert Read(d, Lines(Concat(before[..i]))).Rows?; }
      }
    }
    if PrefixesRead(d, chunks) {
      forall i | 0 <= i <= |before| ensures Read(d, Lines(Concat(before[..i]))).Rows? {
        assert Read(d, Lines(Concat(chunks[..i]))).Rows?;
      }
      assert Read(d, Lines(Concat(chunks[..|chunks|]))).Rows?;
    }
  }

  lemma HandleFails(cfg: Config, state: State, c: Chunk)
    requires !c.reset
    ensures
      var lines := Lines(state.residue + c.text);
      Handle(cfg, state, c).outcome.Error? <==> lines != "" && !Read(cfg.d, lines).Rows?
  {
  }

  lemma FailedAfter(cfg: Config, before: seq<string>, chunk: string)
    ensures
      var all := Concat(before) + chunk;
      Concat(before + [chunk]) == all &&
      (Feed(cfg, before + [chunk]).failed <==>
       Feed(cfg, before).failed || Handle(cfg, Feed(cfg, before).state, Chunk(chunk, |all|, false)).outcome.Error?)
  {
    hide Handle;
    Extended(cfg, before, chunk);
  }

  lemma LinesParse(d: Dialect, all: string, chunk: string)
    requires BomOnlyFirst(all + chunk) && Read(d, Lines(all)).Rows?
    ensures
      var lines := Lines(Residue(all) + chunk);
      Read(d, Lines(all + chunk)).Rows? <==> lines == "" || Read(d, lines).Rows?
  {
    assert Lines(all) + "" == Lines(all);
    hide Lines, Residue, Read, BomOnlyFirst;
    LinesGrow(all, chunk);
    if Lines(Residue(all) + chunk) != "" { LinesJoin(d, all, chunk); }
  }

  // The chunk fails exactly when the lines so far, with its own, do not parse.
  lemma ChunkFails(cfg: Config, before: seq<string>, chunk: string)
    requires Streamed(cfg, before) && BomOnlyFirst(Concat(before) + chunk) && !Feed(cfg, before).failed
    ensures Feed(cfg, before + [chunk]).failed <==> !Read(cfg.d, Lines(Concat(before + [chunk]))).Rows?
  {
    var (all, state) := (Concat(before), Feed(cfg, before).state);
    assert state.residue == Residue(all) && Read(cfg.d, Lines(all)).Rows?;
    hide *;
    FailedAfter(cfg, before, chunk);
    HandleFails(cfg, state, Chunk(chunk, |all + chunk|, false));
    LinesParse(cfg.d, all, chunk);
  }

  // No chunk of a cutting fails if and only if the complete lines parse after
  // every chunk.
  lemma {:induction false} FailsExactlyWhen(cfg: Config, chunks: seq<string>)
    requires ValidDialect(cfg.d) && BomOnlyFirst(Concat(chunks))
    ensures !Feed(cfg, chunks).failed <==> PrefixesRead(cfg.d, chunks)
  {
    if chunks == [] {
      assert Concat(chunks[..0]) == "" && Read(cfg.d, "") == Table.Rows([]);
    } else {
      var (before, chunk) := (chunks[..|chunks| - 1], chunks[|chunks| - 1]);
      hide *;
      AllButLast(chunks);
      Extended(cfg, before, chunk);
      BomPrefix(Concat(before), chunk);
      FailsExactlyWhen(cfg, before);
      PrefixesSnoc(cfg.d, before, chunk);
      if !Feed(cfg, before).failed {
        StreamInvariant(cfg, before);
        ChunkFails(cfg, before, chunk);
      }
    }
  }

  /******* Every cutting *******/

  // A quoted field that holds a line feed does not close before it.
  lemma {:induction false} QuotedCut(s: string) returns (k: nat)
    requires Quoted(s).Field? && '\n' in Quoted(s).cell
    ensures 0 < k <= |s| && s[k - 1] == '\n' && Quoted(s[..k]).BadField?
  {
    if s[0] == '\n' {
      k := 1;
      assert s[..1][1..] == "";
    } else if s[0] != '"' {
      var j := QuotedCut(s[1..]);
      k := j + 1;
      assert s[..k][1..] == s[1..][..j];
    } else {
      var j := QuotedCut(s[2..]);
      k := j + 2;
      assert s[..k][2..] == s[2..][..j] && s[..k][1] == s[1];
    }
  }

  lemma {:induction false} PlainOneLine(d: Dialect, s: string)
    requires Plain(d, s).Field?
    ensures '\n' !in Plain(d, s).cell
  {
    if s != "" && s[0] != d.delim && s[0] != '\n' { PlainOneLine(d, s[1..]); }
  }

  lemma FieldCut(d: Dialect, s: string) returns (k: nat)
    requires OneField(d, s).Field? && '\n' in OneField(d, s).cell
    ensures 0 < k <= |s| && s[k - 1] == '\n' && OneField(d, s[..k]).BadField?
  {
    if s == "" || s[0] != '"' { PlainOneLine(d, s); }
    var j := QuotedCut(s[1..]);
    k := j + 1;
    assert s[..k][1..] == s[1..][..j] && s[..k][0] == s[0];
  }

  // Cutting a record inside a later field leaves the earlier ones as they are.
  lemma {:induction false} RecordCut(d: Dialect, s: string) returns (k: nat)
    requires ValidDelim(d.delim) && OneRecord(d, s).Record? && !OneLine(OneRecord(d, s).row)
    ensures 0 < k <= |s| && s[k - 1] == '\n' && OneRecord(d, s[..k]).BadRecord?
    decreases |s|
  {
    var (f, r) := (OneField(d, s), OneRecord(d, s));
    if '\n' in f.cell {
      k := FieldCut(d, s);
    } else {
      RowOf(d, s);
      var j := RecordCut(d, f.rest[1..]);
      FieldRest(d, s);
      k := |s| - |f.rest| + 1 + j;
      var (a, b) := (s[..k], s[k..]);
      assert s == a + b && EndsLine(a);
      FieldAppend(d, a, b);
      var g := OneField(d, a);
      assert g.rest + b == f.rest;
      assert g.rest[1..] == f.rest[1..][..j];
    }
  }

  // A record of one field, or of a field and a record.
  lemma RowOf(d: Dialect, s: string)
    requires OneRecord(d, s).Record? && !OneLine(OneRecord(d, s).row) && '\n' !in OneField(d, s).cell
    ensures
      var f := OneField(d, s);
      f.rest != "" && f.rest[0] == d.delim && f.rest[0] != '\n' && OneRecord(d, f.rest[1..]).Record? && !OneLine(OneRecord(d, f.rest[1..]).row)
  {
    var (f, row) := (OneField(d, s), OneRecord(d, s).row);
    var i :| 0 <= i < |row| && '\n' in row[i];
    assert row[0] == f.cell && i > 0;
    assert row[1..] == OneRecord(d, f.rest[1..]).row && row[1..][i - 1] == row[i];
  }

  lemma {:induction false} QuotedRest(s: string)
    requires Quoted(s).Field?
    ensures Quoted(s).rest == s[|s| - |Quoted(s).rest|..]
  {
    if s[0] != '"' { QuotedRest(s[1..]); } else if |s| > 1 && s[1] == '"' { QuotedRest(s[2..]); }
  }

  lemma {:induction false} PlainRest(d: Dialect, s: string)
    requires Plain(d, s).Field?
    ensures Plain(d, s).rest == s[|s| - |Plain(d, s).rest|..]
  {
    if s != "" && s[0] != d.delim && s[0] != '\n' { PlainRest(d, s[1..]); }
  }

  lemma FieldRest(d: Dialect, s: string)
    requires OneField(d, s).Field?
    ensures OneField(d, s).rest == s[|s| - |OneField(d, s).rest|..]
  {
    if s != "" && s[0] == '"' { QuotedRest(s[1..]); } else { PlainRest(d, s); }
  }

  lemma {:induction false} AfterLineRest(s: string)
    ensures AfterLine(s) == s[|s| - |AfterLine(s)|..]
  {
    if s != "" && s[0] != '\n' { AfterLineRest(s[1..]); }
  }

  lemma {:induction false} RecordRest(d: Dialect, s: string)
    requires OneRecord(d, s).Record?
    ensures OneRecord(d, s).rest == s[|s| - |OneRecord(d, s).rest|..]
    decreases |s|
  {
    var f := OneField(d, s);
    FieldRest(d, s);
    if f.rest != "" && f.rest[0] != '\n' { RecordRest(d, f.rest[1..]); }
  }

  lemma OneLineHead(rows: seq<Row>)
    requires rows != []
    ensures AllOneLine(rows) <==> OneLine(rows[0]) && AllOneLine(rows[1..])
  {
    assert forall i :: 0 <= i < |rows[1..]| ==> rows[1..][i] == rows[i + 1];
    assert forall i :: 0 < i < |rows| ==> rows[i] == rows[1..][i - 1];
  }

  lemma CutAfterComment(d: Dialect, s: string, j: nat) returns (k: nat)
    requires IsComment(d, s) && 0 < j <= |AfterLine(s)| && AfterLine(s)[j - 1] == '\n'
    ensures 0 < k <= |s| && s[k - 1] == '\n' && Records(d, s[..k]) == Records(d, AfterLine(s)[..j])
  {
    AfterLineRest(s);
    k := |s| - |AfterLine(s)| + j;
    var (a, b) := (s[..k], s[k..]);
    assert s == a + b && EndsLine(a) && IsComment(d, a);
    AfterLineAppend(a, b);
    assert AfterLine(a) == AfterLine(s)[..j];
  }

  lemma CutAfterRecord(d: Dialect, s: string, j: nat) returns (k: nat)
    requires ValidDelim(d.delim) && s != "" && !IsComment(d, s) && s[0] != '\n'
    requires OneRecord(d, s).Record? && OneLine(OneRecord(d, s).row)
    requires 0 < j <= |OneRecord(d, s).rest| && OneRecord(d, s).rest[j - 1] == '\n'
    requires Records(d, OneRecord(d, s).rest[..j]) == ParseError
    ensures 0 < k <= |s| && s[k - 1] == '\n' && Records(d, s[..k]) == ParseError
  {
    var r := OneRecord(d, s);
    RecordRest(d, s);
    k := |s| - |r.rest| + j;
    var (a, b) := (s[..k], s[k..]);
    assert s == a + b && EndsLine(a) && a[0] == s[0];
    FieldsSplit(d, a, b);
    FieldsAppend(d, a, b);
    hide OneRecord;
    assert OneRecord(d, a).rest == r.rest[..j];
  }

  // A text that parses into a cell with a line feed has a beginning, up to a
  // line feed, that does not parse.
  lemma {:induction false} RecordsCut(d: Dialect, s: string) returns (k: nat)
    requires ValidDelim(d.delim) && Records(d, s).Rows? && !AllOneLine(Records(d, s).rows)
    ensures 0 < k <= |s| && s[k - 1] == '\n' && Records(d, s[..k]) == ParseError
    decreases |s|
  {
    hide OneRecord, AfterLine, AllOneLine, OneLine;
    if s == "" {
      NoRows();
    }
    if IsComment(d, s) {
      var j := RecordsCut(d, AfterLine(s));
      k := CutAfterComment(d, s, j);
    } else if s[0] == '\n' {
      var j := RecordsCut(d, s[1..]);
      k := j + 1;
      assert s[..k][1..] == s[1..][..j] && s[..k][0] == s[0];
    } else {
      var r := OneRecord(d, s);
      OneLineHead(Records(d, s).rows);
      assert Records(d, s).rows[1..] == Records(d, r.rest).rows;
      if OneLine(r.row) {
        var j := RecordsCut(d, r.rest);
        k := CutAfterRecord(d, s, j);
      } else {
        k := RecordCut(d, s);
        assert s[..k][0] == s[0];
      }
    }
  }

  lemma NoRows()
    ensures AllOneLine([])
  {
  }

  // The same place in the text as written, before CRLF was folded.
  lemma {:induction false} CrlfCut(t: string, k: nat) returns (j: nat)
    requires 0 < k <= |Crlf(t)| && Crlf(t)[k - 1] == '\n'
    ensures 0 < j <= |t| && t[j - 1] == '\n' && Crlf(t[..j]) == Crlf(t)[..k]
  {
    if |t| > 1 && t[0] == '\r' && t[1] == '\n' {
      var i := CrlfCut(t[1..], k);
      j := i + 1;
      assert t[..j][1..] == t[1..][..i] && t[..j][0] == t[0] && t[..j][1] == t[1];
    } else if k == 1 {
      j := 1;
      assert t[..1] == "\n" && Crlf(t)[..1] == "\n";
    } else {
      var i := CrlfCut(t[1..], k - 1);
      j := i + 1;
      assert t[..j][1..] == t[1..][..i] && t[..j][0] == t[0];
      assert Crlf(t)[..k] == [t[0]] + Crlf(t[1..])[..k - 1];
    }
  }

  lemma ReadCut(d: Dialect, text: string) returns (j: nat)
    requires (text == "" || EndsLine(text)) && Read(d, text).Rows? && !AllOneLine(Read(d, text).rows)
    ensures 0 < j <= |text| && text[j - 1] == '\n' && Read(d, text[..j]) == ParseError
  {
    var t := StripBom(text);
    assert Normalized(t) == Crlf(t);
    var k := RecordsCut(d, Crlf(t));
    var i := CrlfCut(t, k);
    j := i + |text| - |t|;
    assert StripBom(text[..j]) == t[..i] by {
      if t != text { assert text[..j][0] == BOM && text[..j][1..] == t[..i]; }
    }
    assert Normalized(t[..i]) == Crlf(t[..i]);
  }

  lemma TwoChunks(a: string, b: string)
    ensures Concat([a, b]) == a + b && Concat([a, b][..1]) == a
  {
    assert [a, b][..1] == [a] && [a][..0] == [] && Concat([a]) == "" + a == a;
  }

  lemma LinesWhole(s: string)
    requires s == "" || EndsLine(s)
    ensures Lines(s) == s
  {
  }

  // A cell with a line feed: cutting the text there fails.
  lemma CutInCellFails(cfg: Config, text: string) returns (j: nat)
    requires ValidDialect(cfg.d) && BomOnlyFirst(text)
    requires Read(cfg.d, Lines(text)).Rows? && !AllOneLine(Read(cfg.d, Lines(text)).rows)
    ensures 0 < j <= |text| && text[j - 1] == '\n' && Feed(cfg, [text[..j], text[j..]]).failed
  {
    var lines := Lines(text);
    j := ReadCut(cfg.d, lines);
    var (a, b) := (text[..j], text[j..]);
    assert lines[..j] == a && EndsLine(a) && a + b == text;
    LinesWhole(a);
    TwoChunks(a, b);
    hide Feed, Read, Lines, Concat;
    FailsExactlyWhen(cfg, [a, b]);
    assert !Read(cfg.d, Lines(Concat([a, b][..1]))).Rows?;
  }

  // When all complete lines parse and no cell holds a line feed, no cutting
  // makes a chunk fail.
  lemma NoChunkFails(cfg: Config, chunks: seq<string>)
    requires ValidDialect(cfg.d) && BomOnlyFirst(Concat(chunks))
    requires Read(cfg.d, Lines(Concat(chunks))).Rows? && AllOneLine(Read(cfg.d, Lines(Concat(chunks))).rows)
    ensures !Feed(cfg, chunks).failed
  {
    hide *;
    PrefixesOneLine(cfg.d, chunks);
    FailsExactlyWhen(cfg, chunks);
  }

  lemma {:induction false} PrefixesOneLine(d: Dialect, chunks: seq<string>)
    requires BomOnlyFirst(Concat(chunks)) && Read(d, Lines(Concat(chunks))).Rows? && AllOneLine(Read(d, Lines(Concat(chunks))).rows)
    ensures PrefixesRead(d, chunks)
  {
    if chunks == [] {
      assert chunks[..0] == chunks;
    } else {
      var (before, chunk) := (chunks[..|chunks| - 1], chunks[|chunks| - 1]);
      var all := Concat(before);
      assert Concat(chunks) == all + chunk;
      assert Lines(all) + "" == Lines(all);
      AllButLast(chunks);
      hide Lines, Residue, Read, AllOneLine, BomOnlyFirst, Concat, PrefixesRead;
      BomPrefix(all, chunk);
      LinesGrow(all, chunk);
      LaterLine(all, chunk);
      if Lines(Residue(all) + chunk) != "" { ReadSplit(d, Lines(all), Lines(Residue(all) + chunk)); }
      PrefixesOneLine(d, before);
      PrefixesSnoc(d, before, chunk);
    }
  }

  ghost predicate EveryCuttingWorks(cfg: Config, text: string) {
    forall chunks :: Concat(chunks) == text ==> !Feed(cfg, chunks).failed
  }

  // Every way of cutting a text into chunks works if and only if its complete
  // lines parse and no cell holds a line feed.
  lemma EveryCutting(cfg: Config, text: string)
    requires ValidDialect(cfg.d) && BomOnlyFirst(text)
    ensures EveryCuttingWorks(cfg, text) <==> Read(cfg.d, Lines(text)).Rows? && AllOneLine(Read(cfg.d, Lines(text)).rows)
  {
    hide Feed, Read, Lines, AllOneLine, BomOnlyFirst;
    if Read(cfg.d, Lines(text)).Rows? && AllOneLine(Read(cfg.d, Lines(text)).rows) {
      forall chunks | Concat(chunks) == text ensures !Feed(cfg, chunks).failed { NoChunkFails(cfg, chunks); }
    } else if Read(cfg.d, Lines(text)).Rows? {
      var j := CutInCellFails(cfg, text);
      var chunks := [text[..j], text[j..]];
      TwoChunks(text[..j], text[j..]);
      assert Concat(chunks) == text && Feed(cfg, chunks).failed;
    } else {
      OneChunk(text);
      FailsExactlyWhen(cfg, [text]);
      assert !Read(cfg.d, Lines(Concat([text][..1]))).Rows?;
      assert Concat([text]) == text && Feed(cfg, [text]).failed;
    }
  }

  lemma OneChunk(text: string)
    ensures Concat([text]) == text && [text][..1] == [text]
  {
    assert [text][..0] == [] && Concat([text]) == "" + text;
  }

  /******* The missed header happens *******/

  // With columns configured and a header expected, an empty first line in a
  // chunk of its own lets the header through as data, for every text with a
  // record.
  lemma BlankLineHidesHeader(cfg: Config, text: string)
    requires ValidDialect(cfg.d) && cfg.header && cfg.columns != [] && BomOnlyFirst("\n" + text)
    requires Read(cfg.d, Lines("\n" + text)).Rows? && HoldsRecord(cfg, Lines("\n" + text))
    ensures
      var fed := Feed(cfg, ["\n", text]);
      !fed.failed && fed.rows != Parsed(cfg, Lines("\n" + text), []).rows
  {
    var chunks := ["\n", text];
    TwoChunks("\n", text);
    FirstOfTwo(text);
    BlankReads(cfg.d);
    assert PrefixesRead(cfg.d, chunks) by {
      assert Concat(chunks[..0]) == "" && Lines("") == "" && Read(cfg.d, "") == Table.Rows([]);
      assert chunks[..2] == chunks;
      hide Read, Concat, Lines;
      forall i | 0 <= i <= 2 ensures Read(cfg.d, Lines(Concat(chunks[..i]))).Rows? {
        if i == 1 { assert Concat(chunks[..i]) == "\n"; }
      }
    }
    assert HeaderMissed(cfg, First(chunks)) by { hide Lines, Concat; }
    hide Feed, Read, Lines, Concat, First, Parsed;
    FailsExactlyWhen(cfg, chunks);
    ChunkInvariance(cfg, chunks);
  }

  lemma BlankReads(d: Dialect)
    requires ValidDialect(d)
    ensures Lines("\n") == "\n" && Read(d, "\n") == Table.Rows([])
  {
    assert Crlf("\n") == "\n" by { assert "\n"[1..] == ""; }
    assert Normalized(StripBom("\n")) == "\n" && "\n"[1..] == "";
  }

  lemma FirstOfTwo(text: string)
    ensures First(["\n", text]) == "\n"
  {
    assert ["\n", text][..1] == ["\n"] && ["\n"][..0] == [];
    assert Concat(["\n"]) == "" + "\n" == "\n" && Lines("\n") == "\n";
    assert First(["\n"]) == "\n";
  }
}
