/**
 The csv node's parse: records to rows, with the header taken from the first
 record, and the streaming path that parses a file arriving in chunks, keeping
 the incomplete last line, the clean offset and the columns between chunks.

 `cell` stands for castCell or the identity; both are arbitrary here.
 */
module CsvStreams {
  import opened JsonValues
  import opened Csv

  datatype Config = Config(d: Dialect, header: bool, columns: seq<string>, skipEmpty: bool, cell: string -> Json, missing: Json)

  /******* Records to rows *******/

  predicate EmptyRecord(rec: Row) {
    rec == [] || rec == [""]
  }

  // The record as an object; of two columns with one name the later counts.
  function Keyed(cfg: Config, cols: seq<string>, rec: Row): map<string, Json> {
    if cols == [] then map[]
    else
      var i := |cols| - 1;
      Keyed(cfg, cols[..i], rec)[cols[i] := if i < |rec| then cfg.cell(rec[i]) else cfg.missing]
  }

  function RowValue(cfg: Config, cols: seq<string>, rec: Row): Json {
    if cols == [] then Arr(seq(|rec|, i requires 0 <= i < |rec| => cfg.cell(rec[i]))) else Obj(Keyed(cfg, cols, rec))
  }

  // The column names in force, and whether the header is behind us.
  datatype Reading = Reading(cols: seq<string>, seen: bool)

  datatype Output = Output(reading: Reading, rows: seq<Json>)

  // What parseCSV starts from, given the columns known from earlier chunks.
  function Start(cfg: Config, known: seq<string>): Reading {
    if known != [] then Reading(known, true) else Reading(cfg.columns, !cfg.header)
  }

  function Step(cfg: Config, r: Reading, rec: Row): Output {
    if cfg.skipEmpty && EmptyRecord(rec) then Output(r, [])
    else if !r.seen then Output(Reading(if r.cols == [] then rec else r.cols, true), [])
    else Output(r, [RowValue(cfg, r.cols, rec)])
  }

  function Consume(cfg: Config, r: Reading, recs: seq<Row>): Output
    decreases recs
  {
    if recs == [] then Output(r, [])
    else
      var one := Step(cfg, r, recs[0]);
      var more := Consume(cfg, one.reading, recs[1..]);
      Output(more.reading, one.rows + more.rows)
  }

  datatype Parse = Parse(rows: seq<Json>, cols: seq<string>) | Failed

  function Parsed(cfg: Config, data: string, known: seq<string>): Parse {
    var t := Read(cfg.d, data);
    if t.ParseError? then Failed
    else
      var out := Consume(cfg, Start(cfg, known), t.rows);
      Parse(out.rows, if known != [] then [] else out.reading.cols)
  }

  method BuildRow(cfg: Config, cols: seq<string>, rec: Row) returns (row: Json)
    ensures row == RowValue(cfg, cols, rec)
  {
    if |cols| > 0 {
      var fields := map[];
      for i := 0 to |cols|
        invariant fields == Keyed(cfg, cols[..i], rec)
      {
        assert cols[..i + 1][..i] == cols[..i];
        if i < |rec| {
          fields := fields[cols[i] := cfg.cell(rec[i])];
        } else {
          fields := fields[cols[i] := cfg.missing];
        }
      }
      assert cols[..|cols|] == cols;
      row := Obj(fields);
    } else {
      var items := [];
      for i := 0 to |rec|
        invariant |items| == i && forall j :: 0 <= j < i ==> items[j] == cfg.cell(rec[j])
      {
        items := items + [cfg.cell(rec[i])];
      }
      row := Arr(items);
    }
  }

  // parseCSV, after the reader.
  method ParseCsv(cfg: Config, data: string, known: seq<string>) returns (p: Parse)
    ensures p == Parsed(cfg, data, known)
  {
    var t := Read(cfg.d, data);
    if t.ParseError? {
      return Failed;
    }
    var recs := t.rows;
    var cols: seq<string>, consumed, useConfig := [], false, false;
    if |known| > 0 {
      cols, consumed := known, true;
    } else if |cfg.columns| > 0 {
      cols, useConfig := cfg.columns, true;
      if !cfg.header {
        consumed := true;
      }
    }
    var rows := [];
    ghost var start := Start(cfg, known);
    Rests(cfg, start, [], recs);
    hide Read, RowValue, Rest, Consume, Start, Step;
    for i := 0 to |recs|
      invariant useConfig <==> known == [] && cfg.columns != []
      invariant !consumed && !useConfig ==> cols == []
      invariant useConfig ==> cols != []
      invariant Rest(cfg, Reading(cols, consumed || !cfg.header), rows, recs[i..]) == Consume(cfg, start, recs)
    {
      NextRecord(cfg, Reading(cols, consumed || !cfg.header), rows, recs, i);
      if cfg.skipEmpty && EmptyRecord(recs[i]) {
        continue;
      }
      if cfg.header && !consumed {
        if !useConfig {
          cols := recs[i];
        }
        consumed := true;
        continue;
      }
      var row := BuildRow(cfg, cols, recs[i]);
      rows := rows + [row];
    }
    Rests(cfg, Reading(cols, consumed || !cfg.header), rows, recs[|recs|..]);
    if |known| > 0 {
      return Parse(rows, []);
    }
    return Parse(rows, cols);
  }

  ghost function Rest(cfg: Config, r: Reading, rows: seq<Json>, recs: seq<Row>): Output {
    var more := Consume(cfg, r, recs);
    Output(more.reading, rows + more.rows)
  }

  lemma Rests(cfg: Config, r: Reading, rows: seq<Json>, recs: seq<Row>)
    ensures rows == [] ==> Rest(cfg, r, rows, recs[0..]) == Consume(cfg, r, recs)
    ensures recs == [] ==> Rest(cfg, r, rows, recs) == Output(r, rows)
  {
    assert recs[0..] == recs;
  }

  lemma NextRecord(cfg: Config, r: Reading, rows: seq<Json>, recs: seq<Row>, i: nat)
    requires i < |recs|
    ensures
      Rest(cfg, r, rows, recs[i..]) ==
      if cfg.skipEmpty && EmptyRecord(recs[i]) then Rest(cfg, r, rows, recs[i + 1..])
      else if !r.seen then Rest(cfg, Reading(if r.cols == [] then recs[i] else r.cols, true), rows, recs[i + 1..])
      else Rest(cfg, r, rows + [RowValue(cfg, r.cols, recs[i])], recs[i + 1..])
  {
    var one := Step(cfg, r, recs[i]);
    assert recs[i..][0] == recs[i] && recs[i..][1..] == recs[i + 1..];
    assert rows + (one.rows + Consume(cfg, one.reading, recs[i + 1..]).rows)
        == (rows + one.rows) + Consume(cfg, one.reading, recs[i + 1..]).rows;
    assert rows + [] == rows;
  }

  /******* Reading a text in two pieces *******/

  lemma {:induction false} QuotedAppend(a: string, b: string)
    requires EndsLine(a) && Quoted(a).Field?
    ensures Quoted(a + b) == Field(Quoted(a).cell, Quoted(a).rest + b) && EndsLine(Quoted(a).rest)
  {
    assert (a + b)[1..] == a[1..] + b;
    if a[0] != '"' {
      assert |a| > 1;
      QuotedAppend(a[1..], b);
    } else if |a| > 1 && a[1] == '"' {
      assert (a + b)[2..] == a[2..] + b;
      QuotedAppend(a[2..], b);
    }
  }

  // A quoted field that holds no line feed ends before the line does.
  lemma {:induction false} QuotedSplit(a: string, b: string)
    requires EndsLine(a) && Quoted(a + b).Field? && '\n' !in Quoted(a + b).cell
    ensures Quoted(a).Field?
  {
    assert (a + b)[1..] == a[1..] + b;
    if a[0] != '"' {
      assert Quoted(a + b).cell[0] == a[0];
      assert |a| > 1;
      QuotedSplit(a[1..], b);
    } else if |a| > 1 && a[1] == '"' {
      assert (a + b)[2..] == a[2..] + b;
      QuotedSplit(a[2..], b);
    }
  }

  lemma {:induction false} PlainAppend(d: Dialect, a: string, b: string)
    requires EndsLine(a)
    ensures
      var (f, g) := (Plain(d, a), Plain(d, a + b));
      (f.Field? <==> g.Field?) && (f.Field? ==> g == Field(f.cell, f.rest + b) && EndsLine(f.rest))
  {
    assert (a + b)[1..] == a[1..] + b;
    if a[0] != d.delim && a[0] != '\n' && a[0] != '"' { PlainAppend(d, a[1..], b); }
  }

  lemma FieldAppend(d: Dialect, a: string, b: string)
    requires EndsLine(a)
    ensures var f := OneField(d, a); f.Field? ==> OneField(d, a + b) == Field(f.cell, f.rest + b) && EndsLine(f.rest)
    ensures OneField(d, a + b).Field? && '\n' !in OneField(d, a + b).cell ==> OneField(d, a).Field?
  {
    if a[0] == '"' {
      assert (a + b)[1..] == a[1..] + b;
      if Quoted(a[1..]).Field? { QuotedAppend(a[1..], b); }
      if Quoted(a[1..] + b).Field? && '\n' !in Quoted(a[1..] + b).cell { QuotedSplit(a[1..], b); }
    } else {
      PlainAppend(d, a, b);
    }
  }

  lemma {:induction false} FieldsAppend(d: Dialect, a: string, b: string)
    requires ValidDelim(d.delim) && EndsLine(a) && OneRecord(d, a).Record?
    ensures
      var r := OneRecord(d, a);
      OneRecord(d, a + b) == Record(r.row, r.rest + b) && (r.rest == "" || EndsLine(r.rest))
    decreases |a|
  {
    var f := OneField(d, a);
    FieldAppend(d, a, b);
    assert (f.rest + b)[1..] == f.rest[1..] + b;
    if f.rest[0] == d.delim { FieldsAppend(d, f.rest[1..], b); }
  }

  lemma {:induction false} FieldsSplit(d: Dialect, a: string, b: string)
    requires ValidDelim(d.delim) && EndsLine(a) && OneRecord(d, a + b).Record? && OneLine(OneRecord(d, a + b).row)
    ensures OneRecord(d, a).Record?
    decreases |a|
  {
    var g := OneField(d, a + b);
    assert OneRecord(d, a + b).row[0] == g.cell;
    FieldAppend(d, a, b);
    var f := OneField(d, a);
    assert (f.rest + b)[1..] == f.rest[1..] + b;
    if f.rest[0] == d.delim {
      assert OneRecord(d, a + b).row[1..] == OneRecord(d, f.rest[1..] + b).row;
      FieldsSplit(d, f.rest[1..], b);
    }
  }

  lemma {:induction false} AfterLineAppend(a: string, b: string)
    requires EndsLine(a)
    ensures AfterLine(a + b) == AfterLine(a) + b && (AfterLine(a) == "" || EndsLine(AfterLine(a)))
  {
    assert (a + b)[1..] == a[1..] + b;
    if a[0] != '\n' { AfterLineAppend(a[1..], b); }
  }

  lemma {:induction false} RecordsAppend(d: Dialect, a: string, b: string)
    requires ValidDelim(d.delim) && (a == "" || EndsLine(a)) && Records(d, a).Rows?
    ensures Records(d, a + b) == Join(Records(d, a), Records(d, b))
    decreases |a|
  {
    hide OneRecord, AfterLine;
    if a == "" {
      assert a + b == b;
    } else if IsComment(d, a) {
      AfterLineAppend(a, b);
      RecordsAppend(d, AfterLine(a), b);
    } else if a[0] == '\n' {
      assert (a + b)[1..] == a[1..] + b;
      RecordsAppend(d, a[1..], b);
    } else {
      FieldsAppend(d, a, b);
      RecordsAppend(d, OneRecord(d, a).rest, b);
    }
  }

  predicate AllOneLine(rows: seq<Row>) {
    forall i :: 0 <= i < |rows| ==> OneLine(rows[i])
  }

  lemma {:induction false} RecordsSplit(d: Dialect, a: string, b: string)
    requires ValidDelim(d.delim) && (a == "" || EndsLine(a))
    requires Records(d, a + b).Rows? && AllOneLine(Records(d, a + b).rows)
    ensures Records(d, a).Rows?
    decreases |a|
  {
    if a == "" {
    } else if IsComment(d, a) {
      AfterLineAppend(a, b);
      RecordsSplit(d, AfterLine(a), b);
    } else if a[0] == '\n' {
      assert (a + b)[1..] == a[1..] + b;
      RecordsSplit(d, a[1..], b);
    } else {
      var r := OneRecord(d, a + b);
      assert Records(d, a + b).rows[0] == r.row && Records(d, a + b).rows[1..] == Records(d, r.rest).rows;
      FieldsSplit(d, a, b);
      FieldsAppend(d, a, b);
      RecordsSplit(d, OneRecord(d, a).rest, b);
    }
  }

  lemma CrlfEndsLine(s: string)
    requires EndsLine(s)
    ensures EndsLine(Crlf(s))
  {
    assert s == s[..|s| - 1] + "\n";
    var t := s[..|s| - 1];
    if t != "" && t[|t| - 1] == '\r' {
      assert s == t[..|t| - 1] + "\r\n";
      CrlfJoin(t[..|t| - 1], "\r\n");
      assert "\r\n"[1..] == "\n";
    } else {
      CrlfJoin(t, "\n");
    }
  }

  // The lines of a, then the lines of b.
  lemma NormalizedAppend(a: string, b: string)
    requires EndsLine(a) && EndsLine(b) && b[0] != BOM
    ensures Normalized(StripBom(a + b)) == Normalized(StripBom(a)) + Normalized(StripBom(b))
    ensures EndsLine(Normalized(StripBom(a)))
  {
    var a' := StripBom(a);
    assert StripBom(a + b) == a' + b;
    CrlfEndsLine(a');
    CrlfJoin(a', b);
  }

  lemma ReadAppend(d: Dialect, a: string, b: string)
    requires a == "" || (EndsLine(a) && b != "" && b[0] != BOM)
    requires EndsLine(b) && Read(d, a).Rows?
    ensures Read(d, a + b) == Join(Read(d, a), Read(d, b))
  {
    if a == "" {
      assert a + b == b;
    } else {
      NormalizedAppend(a, b);
      RecordsAppend(d, Normalized(StripBom(a)), Normalized(StripBom(b)));
    }
  }

  lemma ReadSplit(d: Dialect, a: string, b: string)
    requires a == "" || (EndsLine(a) && b != "" && b[0] != BOM)
    requires EndsLine(b) && Read(d, a + b).Rows? && AllOneLine(Read(d, a + b).rows)
    ensures Read(d, a).Rows? && Read(d, b).Rows?
    ensures AllOneLine(Read(d, a).rows) && AllOneLine(Read(d, b).rows)
  {
    if a == "" {
      assert a + b == b;
    } else {
      NormalizedAppend(a, b);
      RecordsSplit(d, Normalized(StripBom(a)), Normalized(StripBom(b)));
      assert Read(d, a).Rows?;
      hide Read, AllOneLine;
      ReadAppend(d, a, b);
      OneLineParts(Read(d, a).rows, Read(d, b).rows);
    }
  }

  lemma OneLineParts(a: seq<Row>, b: seq<Row>)
    requires AllOneLine(a + b)
    ensures AllOneLine(a) && AllOneLine(b)
  {
    assert forall i :: 0 <= i < |a| ==> a[i] == (a + b)[i];
    assert forall i :: 0 <= i < |b| ==> b[i] == (a + b)[|a| + i];
  }

  /******* Chunks *******/

  // bytes.LastIndexByte(s, LF) + 1
  function Cut(s: string): (k: nat)
    ensures k <= |s| && (k > 0 ==> s[k - 1] == '\n')
  {
    if s == "" then 0 else if s[|s| - 1] == '\n' then |s| else Cut(s[..|s| - 1])
  }

  // s up to its last line feed.
  function Lines(s: string): string {
    s[..Cut(s)]
  }

  // The incomplete line after it.
  function Residue(s: string): string {
    s[Cut(s)..]
  }

  datatype State = State(residue: string, offset: int, columns: seq<string>)

  const NewFile := State("", 0, [])

  // `position`: where the chunk ends in the file; `reset`: the file was
  // truncated or rotated.
  datatype Chunk = Chunk(text: string, position: int, reset: bool)

  datatype Outcome = Emitted(rows: seq<Json>, columns: seq<string>, csvPosition: int) | Nothing | Error

  datatype Handled = Handled(state: State, outcome: Outcome)

  function Known(cfg: Config, columns: seq<string>): seq<string> {
    if cfg.header then columns else []
  }

  // handleStreaming, with a store that works: an error leaves the state alone.
  function Handle(cfg: Config, stored: State, c: Chunk): Handled {
    var state := if c.reset then NewFile else stored;
    var combined := state.residue + c.text;
    var k := Cut(combined);
    if k == 0 then Handled(state.(residue := combined), Nothing)
    else
      var offset := c.position - |combined[k..]|;
      var p := Parsed(cfg, combined[..k], Known(cfg, state.columns));
      if p.Failed? then Handled(stored, Error)
      else
        var columns := if cfg.header && state.columns != [] then state.columns else Known(cfg, p.cols);
        Handled(State(combined[k..], offset, columns), Emitted(p.rows, if p.cols != [] then p.cols else columns, offset))
  }

  class CsvNode {
    const cfg: Config
    var stored: State

    constructor (cfg: Config)
      ensures this.cfg == cfg && stored == NewFile
    {
      this.cfg := cfg;
      stored := NewFile;
    }

    // Loading and saving the state may fail; then nothing is stored.
    method HandleStreaming(c: Chunk, loads: bool, saves: bool) returns (outcome: Outcome)
      modifies this
      ensures
        var h := Handle(cfg, old(stored), c);
        if loads && (saves || h.outcome == Error) then stored == h.state && outcome == h.outcome
        else stored == old(stored) && outcome == Error
    {
      if !loads {
        return Error;
      }
      var state := stored;
      if c.reset {
        state := NewFile;
      }
      var combined := state.residue + c.text;
      var k := Cut(combined);
      if k == 0 {
        if !saves {
          return Error;
        }
        stored := state.(residue := combined);
        return Nothing;
      }
      var complete, residue := combined[..k], combined[k..];
      var offset := c.position - |residue|;
      var known: seq<string> := [];
      if cfg.header && |state.columns| > 0 {
        known := state.columns;
      }
      var p := ParseCsv(cfg, complete, known);
      if p.Failed? {
        return Error;
      }
      var columns: seq<string> := [];
      if cfg.header {
        if |state.columns| > 0 {
          columns := state.columns;
        } else if |p.cols| > 0 {
          columns := p.cols;
        }
      }
      if !saves {
        return Error;
      }
      stored := State(residue, offset, columns);
      outcome := Emitted(p.rows, if |p.cols| > 0 then p.cols else columns, offset);
    }
  }

  /******* A whole file, chunk by chunk *******/

  function Concat(chunks: seq<string>): string {
    if chunks == [] then "" else Concat(chunks[..|chunks| - 1]) + chunks[|chunks| - 1]
  }

  datatype Fed = Fed(state: State, rows: seq<Json>, failed: bool)

  // The chunks in order, each with its end position in the file.
  function Feed(cfg: Config, chunks: seq<string>): Fed {
    if chunks == [] then Fed(NewFile, [], false)
    else
      var n := |chunks| - 1;
      var before := Feed(cfg, chunks[..n]);
      var h := Handle(cfg, before.state, Chunk(chunks[n], |Concat(chunks)|, false));
      Fed(h.state, before.rows + (if h.outcome.Emitted? then h.outcome.rows else []), before.failed || h.outcome.Error?)
  }

  lemma {:induction false} CutIsLast(s: string, i: nat)
    requires Cut(s) <= i < |s|
    ensures s[i] != '\n'
  {
    if i < |s| - 1 { CutIsLast(s[..|s| - 1], i); }
  }

  // What comes after the last line feed does not move the cut.
  lemma {:induction false} CutAppend(a: string, b: string)
    ensures Cut(a + b) == if Cut(b) == 0 then Cut(a) else |a| + Cut(b)
  {
    if b == "" {
      assert a + b == a;
    } else if b[|b| - 1] != '\n' {
      var b' := b[..|b| - 1];
      assert (a + b)[..|a + b| - 1] == a + b';
      CutAppend(a, b');
    }
  }

  // Adding a chunk: the new complete lines are cut from residue plus chunk.
  lemma LinesGrow(all: string, chunk: string)
    ensures
      var combined := Residue(all) + chunk;
      Lines(all + chunk) == Lines(all) + Lines(combined) && Residue(all + chunk) == Residue(combined)
  {
    var (done, combined) := (Lines(all), Residue(all) + chunk);
    CutOfLines(all);
    CutAppend(done, combined);
    assert all + chunk == done + combined by { Split(all); }
    SliceApart(done, combined, Cut(combined));
  }

  lemma CutOfLines(s: string)
    ensures Cut(Lines(s)) == |Lines(s)|
  {
    var lines := Lines(s);
    if lines != "" { assert lines[|lines| - 1] == s[Cut(s) - 1]; }
  }

  lemma SliceApart(a: string, b: string, k: nat)
    requires k <= |b|
    ensures (a + b)[..|a| + k] == a + b[..k] && (a + b)[|a| + k..] == b[k..]
  {
  }

  lemma Split(s: string)
    ensures Lines(s) + Residue(s) == s
  {
  }

  /******* Chunk invariance *******/

  lemma {:induction false} ConsumeAppend(cfg: Config, r: Reading, a: seq<Row>, b: seq<Row>)
    ensures
      var (x, y) := (Consume(cfg, r, a), Consume(cfg, Consume(cfg, r, a).reading, b));
      Consume(cfg, r, a + b) == Output(y.reading, x.rows + y.rows)
    decreases a
  {
    if a == [] {
      assert a + b == b;
    } else {
      assert (a + b)[1..] == a[1..] + b;
      ConsumeAppend(cfg, Step(cfg, r, a[0]).reading, a[1..], b);
    }
  }

  predicate Kept(cfg: Config, rec: Row) {
    !(cfg.skipEmpty && EmptyRecord(rec))
  }

  ghost predicate Holds(cfg: Config, recs: seq<Row>) {
    exists i :: 0 <= i < |recs| && Kept(cfg, recs[i])
  }

  ghost predicate HoldsRecord(cfg: Config, text: string) {
    Read(cfg.d, text).Rows? && Holds(cfg, Read(cfg.d, text).rows)
  }

  lemma HoldsStep(cfg: Config, recs: seq<Row>)
    requires recs != []
    ensures Holds(cfg, recs) <==> Kept(cfg, recs[0]) || Holds(cfg, recs[1..])
  {
    if Holds(cfg, recs[1..]) {
      var i :| 0 <= i < |recs[1..]| && Kept(cfg, recs[1..][i]);
      assert Kept(cfg, recs[i + 1]);
    }
    if Holds(cfg, recs) {
      var i :| 0 <= i < |recs| && Kept(cfg, recs[i]);
      if i > 0 { assert Kept(cfg, recs[1..][i - 1]); }
    }
  }

  lemma {:induction false} SeenStays(cfg: Config, r: Reading, recs: seq<Row>)
    requires r.seen
    ensures Consume(cfg, r, recs).reading == r && (Consume(cfg, r, recs).rows == [] <==> !Holds(cfg, recs))
  {
    if recs != [] {
      HoldsStep(cfg, recs);
      SeenStays(cfg, r, recs[1..]);
    }
  }

  ghost predicate NoneBare(recs: seq<Row>) {
    forall i :: 0 <= i < |recs| ==> recs[i] != []
  }

  // The header is taken from the first record that is not skipped.
  lemma {:induction false} HeaderTaken(cfg: Config, cols: seq<string>, recs: seq<Row>)
    requires NoneBare(recs)
    ensures
      var (out, all) := (Consume(cfg, Reading(cols, false), recs), Consume(cfg, Reading(cols, true), recs));
      (out.reading.seen <==> Holds(cfg, recs)) && (cols != [] ==> out.reading.cols == cols) &&
      (out.reading.seen ==> out.reading.cols != []) && (!out.reading.seen ==> out == Output(Reading(cols, false), [])) &&
      (cols != [] && Holds(cfg, recs) ==> all.rows != [] && out.rows == all.rows[1..])
  {
    if recs != [] {
      HoldsStep(cfg, recs);
      if cfg.skipEmpty && EmptyRecord(recs[0]) {
        HeaderTaken(cfg, cols, recs[1..]);
      } else {
        SeenStays(cfg, Step(cfg, Reading(cols, false), recs[0]).reading, recs[1..]);
      }
    }
  }

  lemma {:induction false} RecordsNotBare(d: Dialect, s: string)
    requires Records(d, s).Rows?
    ensures NoneBare(Records(d, s).rows)
    decreases |s|
  {
    if s == "" {
    } else if IsComment(d, s) {
      RecordsNotBare(d, AfterLine(s));
    } else if s[0] == '\n' {
      RecordsNotBare(d, s[1..]);
    } else {
      RecordsNotBare(d, OneRecord(d, s).rest);
    }
  }

  // The columns a chunk leaves in the state.
  function NextColumns(cfg: Config, columns: seq<string>, recs: seq<Row>): seq<string> {
    if !cfg.header then []
    else if columns != [] then columns
    else Consume(cfg, Start(cfg, []), recs).reading.cols
  }

  // They stand for the reading the chunk ended in, except that configured
  // columns make an unseen header look seen.
  lemma ColumnsKept(cfg: Config, columns: seq<string>, recs: seq<Row>)
    requires NoneBare(recs) && (cfg.header && cfg.columns != [] && columns != [] ==> columns == cfg.columns)
    ensures
      var next := NextColumns(cfg, columns, recs);
      var out := Consume(cfg, Start(cfg, Known(cfg, columns)), recs);
      (cfg.header && cfg.columns != [] ==> next == cfg.columns) && (!cfg.header ==> next == []) &&
      (columns != [] || !cfg.header || cfg.columns == [] || Holds(cfg, recs) ==> Start(cfg, Known(cfg, next)) == out.reading)
  {
    if !cfg.header || columns != [] {
      SeenStays(cfg, Start(cfg, Known(cfg, columns)), recs);
    } else {
      HeaderTaken(cfg, cfg.columns, recs);
    }
  }

  // The first text handed to the parser.
  function First(chunks: seq<string>): string {
    if chunks == [] then ""
    else
      var before := First(chunks[..|chunks| - 1]);
      if before != "" then before else Lines(Concat(chunks))
  }

  // Columns are configured, a header is expected, and the first lines held no
  // record: the header will be taken for data.
  ghost predicate HeaderMissed(cfg: Config, first: string) {
    cfg.header && cfg.columns != [] && first != "" && !HoldsRecord(cfg, first)
  }

  ghost function Base(cfg: Config, first: string): Reading {
    if HeaderMissed(cfg, first) then Reading(cfg.columns, true) else Start(cfg, [])
  }

  // No byte order mark at the start of a later line.
  predicate BomOnlyFirst(s: string) {
    forall i :: 0 <= i < |s| - 1 && s[i] == '\n' ==> s[i + 1] != BOM
  }

  // `rows` and `columns` are what the lines so far leave behind.
  ghost predicate RowsOf(cfg: Config, lines: string, first: string, columns: seq<string>, rows: seq<Json>) {
    var t := Read(cfg.d, lines);
    t.Rows? && (lines == "" <==> first == "") && (!cfg.header ==> columns == []) &&
    (cfg.header && cfg.columns != [] && lines != "" ==> columns == cfg.columns) &&
    (lines == "" ==> columns == [] && rows == []) &&
    Consume(cfg, Base(cfg, first), t.rows) == Output(Start(cfg, Known(cfg, columns)), rows)
  }

  ghost predicate Streamed(cfg: Config, chunks: seq<string>) {
    var (all, fed) := (Concat(chunks), Feed(cfg, chunks));
    fed.state.residue == Residue(all) && fed.state.offset == |Lines(all)| &&
    RowsOf(cfg, Lines(all), First(chunks), fed.state.columns, fed.rows)
  }

  lemma RowsOfNothing(cfg: Config)
    requires ValidDialect(cfg.d)
    ensures RowsOf(cfg, "", "", [], [])
  {
    assert Read(cfg.d, "") == Table.Rows([]);
  }

  lemma RowsOfFirst(cfg: Config, lines: string, recs: seq<Row>)
    requires lines != "" && Read(cfg.d, lines) == Table.Rows(recs) && NoneBare(recs)
    ensures RowsOf(cfg, lines, lines, NextColumns(cfg, [], recs), Consume(cfg, Start(cfg, []), recs).rows)
  {
    var missed := HeaderMissed(cfg, lines);
    assert missed <==> cfg.header && cfg.columns != [] && !Holds(cfg, recs);
    hide Read, HeaderMissed;
    ColumnsKept(cfg, [], recs);
    if missed {
      SeenStays(cfg, Reading(cfg.columns, true), recs);
      HeaderTaken(cfg, cfg.columns, recs);
    }
  }

  lemma RowsOfMore(cfg: Config, a: string, b: string, first: string, columns: seq<string>, rows: seq<Json>, recs: seq<Row>)
    requires RowsOf(cfg, a, first, columns, rows) && a != ""
    requires Read(cfg.d, b) == Table.Rows(recs) && NoneBare(recs) && Read(cfg.d, a + b) == Join(Read(cfg.d, a), Read(cfg.d, b))
    ensures
      RowsOf(cfg, a + b, first, NextColumns(cfg, columns, recs),
             rows + Consume(cfg, Start(cfg, Known(cfg, columns)), recs).rows)
  {
    hide Read, Base, Consume, NextColumns, Start;
    ColumnsKept(cfg, columns, recs);
    ConsumeAppend(cfg, Base(cfg, first), Read(cfg.d, a).rows, recs);
  }

  lemma Extended(cfg: Config, before: seq<string>, chunk: string)
    ensures Concat(before + [chunk]) == Concat(before) + chunk
    ensures First(before + [chunk]) == if First(before) != "" then First(before) else Lines(Concat(before) + chunk)
    ensures
      var (fed, all) := (Feed(cfg, before), Concat(before) + chunk);
      var h := Handle(cfg, fed.state, Chunk(chunk, |all|, false));
      Feed(cfg, before + [chunk]) ==
        Fed(h.state, fed.rows + (if h.outcome.Emitted? then h.outcome.rows else []), fed.failed || h.outcome.Error?)
  {
    assert (before + [chunk])[..|before|] == before;
  }

  lemma PartialHandled(cfg: Config, state: State, c: Chunk)
    requires !c.reset && Lines(state.residue + c.text) == ""
    ensures Handle(cfg, state, c) == Handled(state.(residue := Residue(state.residue + c.text)), Nothing)
  {
  }

  // What a chunk that completes lines does to the state and the rows.
  lemma LinesHandled(cfg: Config, state: State, c: Chunk)
    requires !c.reset && Lines(state.residue + c.text) != "" && !Handle(cfg, state, c).outcome.Error?
    ensures
      var combined := state.residue + c.text;
      var (t, h) := (Read(cfg.d, Lines(combined)), Handle(cfg, state, c));
      t.Rows? && h.outcome.Emitted? && NoneBare(t.rows) &&
      h.outcome.rows == Consume(cfg, Start(cfg, Known(cfg, state.columns)), t.rows).rows &&
      h.state == State(Residue(combined), c.position - |Residue(combined)|, NextColumns(cfg, state.columns, t.rows))
  {
    var lines := Lines(state.residue + c.text);
    RecordsNotBare(cfg.d, Normalized(StripBom(lines)));
  }

  // A chunk without a line feed only grows the residue.
  lemma PartialChunk(cfg: Config, before: seq<string>, chunk: string)
    requires Streamed(cfg, before) && Lines(Feed(cfg, before).state.residue + chunk) == ""
    ensures Streamed(cfg, before + [chunk])
  {
    var (all, fed) := (Concat(before), Feed(cfg, before));
    assert Lines(all) + "" == Lines(all) && fed.rows + [] == fed.rows;
    hide Lines, Residue, RowsOf, Handle, Feed, Concat, First;
    Extended(cfg, before, chunk);
    LinesGrow(all, chunk);
    PartialHandled(cfg, fed.state, Chunk(chunk, |all + chunk|, false));
    FirstIsEmpty(cfg, Lines(all), First(before), fed.state.columns, fed.rows);
  }

  lemma FirstIsEmpty(cfg: Config, lines: string, first: string, columns: seq<string>, rows: seq<Json>)
    requires RowsOf(cfg, lines, first, columns, rows)
    ensures lines == "" <==> first == ""
    ensures lines == "" ==> columns == [] && rows == []
  {
  }

  lemma BomPrefix(s: string, more: string)
    requires BomOnlyFirst(s + more)
    ensures BomOnlyFirst(s)
  {
    forall i | 0 <= i < |s| - 1 && s[i] == '\n' ensures s[i + 1] != BOM {
      assert (s + more)[i] == '\n' && (s + more)[i + 1] == s[i + 1];
    }
  }

  // A later line does not begin with a byte order mark.
  lemma LaterLine(all: string, chunk: string)
    requires BomOnlyFirst(all + chunk)
    ensures
      var (a, b) := (Lines(all), Lines(Residue(all) + chunk));
      (a == "" || EndsLine(a)) && (b == "" || EndsLine(b)) && (a != "" && b != "" ==> b[0] != BOM)
  {
    var (a, b) := (Lines(all), Lines(Residue(all) + chunk));
    if a != "" && b != "" {
      LinesGrow(all, chunk);
      assert (a + b)[|a| - 1] == (all + chunk)[|a| - 1] && (a + b)[|a|] == (all + chunk)[|a|];
    }
  }

  lemma LinesJoin(d: Dialect, all: string, chunk: string)
    requires BomOnlyFirst(all + chunk) && Lines(Residue(all) + chunk) != "" && Read(d, Lines(all)).Rows?
    ensures
      Read(d, Lines(all + chunk)) == Join(Read(d, Lines(all)), Read(d, Lines(Residue(all) + chunk)))
  {
    hide Read, Lines, Residue;
    LaterLine(all, chunk);
    LinesGrow(all, chunk);
    ReadAppend(d, Lines(all), Lines(Residue(all) + chunk));
  }

  lemma NewLinesKept(cfg: Config, all: string, state: State, chunk: string)
    requires state.residue == Residue(all) && Lines(state.residue + chunk) != ""
    requires !Handle(cfg, state, Chunk(chunk, |all + chunk|, false)).outcome.Error?
    ensures
      var state' := Handle(cfg, state, Chunk(chunk, |all + chunk|, false)).state;
      state'.residue == Residue(all + chunk) && state'.offset == |Lines(all + chunk)|
  {
    hide Lines, Residue, Handle;
    LinesHandled(cfg, state, Chunk(chunk, |all + chunk|, false));
    LinesGrow(all, chunk);
    Split(all + chunk);
  }

  lemma NewRows(cfg: Config, all: string, first: string, state: State, rows: seq<Json>, chunk: string)
    requires state.residue == Residue(all) && Lines(state.residue + chunk) != "" && BomOnlyFirst(all + chunk)
    requires RowsOf(cfg, Lines(all), first, state.columns, rows)
    requires !Handle(cfg, state, Chunk(chunk, |all + chunk|, false)).outcome.Error?
    ensures
      var (h, lines) := (Handle(cfg, state, Chunk(chunk, |all + chunk|, false)), Lines(all + chunk));
      h.outcome.Emitted? && RowsOf(cfg, lines, if first != "" then first else lines, h.state.columns, rows + h.outcome.rows)
  {
    FirstIsEmpty(cfg, Lines(all), first, state.columns, rows);
    if Lines(all) == "" {
      FirstRows(cfg, all, state, chunk);
    } else {
      MoreRows(cfg, all, first, state, rows, chunk);
    }
  }

  lemma FirstRows(cfg: Config, all: string, state: State, chunk: string)
    requires state.residue == Residue(all) && Lines(state.residue + chunk) != "" && Lines(all) == "" && state.columns == []
    requires !Handle(cfg, state, Chunk(chunk, |all + chunk|, false)).outcome.Error?
    ensures
      var (h, lines) := (Handle(cfg, state, Chunk(chunk, |all + chunk|, false)), Lines(all + chunk));
      h.outcome.Emitted? && RowsOf(cfg, lines, lines, h.state.columns, [] + h.outcome.rows)
  {
    var lines := Lines(state.residue + chunk);
    assert "" + lines == lines;
    hide Lines, Residue, Handle, RowsOf, Read, Consume, Start, NextColumns;
    LinesHandled(cfg, state, Chunk(chunk, |all + chunk|, false));
    LinesGrow(all, chunk);
    RowsOfFirst(cfg, lines, Read(cfg.d, lines).rows);
    var rows := Consume(cfg, Start(cfg, []), Read(cfg.d, lines).rows).rows;
    assert [] + rows == rows;
  }

  lemma MoreRows(cfg: Config, all: string, first: string, state: State, rows: seq<Json>, chunk: string)
    requires state.residue == Residue(all) && Lines(state.residue + chunk) != "" && BomOnlyFirst(all + chunk)
    requires RowsOf(cfg, Lines(all), first, state.columns, rows) && Lines(all) != ""
    requires !Handle(cfg, state, Chunk(chunk, |all + chunk|, false)).outcome.Error?
    ensures
      var h := Handle(cfg, state, Chunk(chunk, |all + chunk|, false));
      h.outcome.Emitted? && RowsOf(cfg, Lines(all + chunk), first, h.state.columns, rows + h.outcome.rows)
  {
    var lines := Lines(state.residue + chunk);
    assert Read(cfg.d, Lines(all)).Rows?;
    hide *;
    LinesHandled(cfg, state, Chunk(chunk, |all + chunk|, false));
    LinesGrow(all, chunk);
    LinesJoin(cfg.d, all, chunk);
    RowsOfMore(cfg, Lines(all), lines, first, state.columns, rows, Read(cfg.d, lines).rows);
  }

  // A chunk that completes lines.
  lemma FullChunk(cfg: Config, before: seq<string>, chunk: string)
    requires Streamed(cfg, before) && BomOnlyFirst(Concat(before) + chunk)
    requires Lines(Feed(cfg, before).state.residue + chunk) != "" && !Feed(cfg, before + [chunk]).failed
    ensures Streamed(cfg, before + [chunk])
  {
    var (all, fed) := (Concat(before), Feed(cfg, before));
    hide Lines, Residue, RowsOf, Handle, Feed, Concat, First, BomOnlyFirst;
    Extended(cfg, before, chunk);
    NewLinesKept(cfg, all, fed.state, chunk);
    NewRows(cfg, all, First(before), fed.state, fed.rows, chunk);
  }

  lemma NothingFed(cfg: Config)
    requires ValidDialect(cfg.d)
    ensures Streamed(cfg, [])
  {
    RowsOfNothing(cfg);
  }

  lemma {:induction false} StreamInvariant(cfg: Config, chunks: seq<string>)
    requires ValidDialect(cfg.d) && !Feed(cfg, chunks).failed && BomOnlyFirst(Concat(chunks))
    ensures Streamed(cfg, chunks)
  {
    if chunks == [] {
      NothingFed(cfg);
    } else {
      var (before, chunk) := (chunks[..|chunks| - 1], chunks[|chunks| - 1]);
      hide *;
      AllButLast(chunks);
      Extended(cfg, before, chunk);
      BomPrefix(Concat(before), chunk);
      StreamInvariant(cfg, before);
      AnyChunk(cfg, before, chunk);
    }
  }

  lemma AllButLast<T>(s: seq<T>)
    requires s != []
    ensures s == s[..|s| - 1] + [s[|s| - 1]]
  {
  }

  lemma AnyChunk(cfg: Config, before: seq<string>, chunk: string)
    requires Streamed(cfg, before) && BomOnlyFirst(Concat(before) + chunk) && !Feed(cfg, before + [chunk]).failed
    ensures Streamed(cfg, before + [chunk])
  {
    hide *;
    if Lines(Feed(cfg, before).state.residue + chunk) == "" {
      PartialChunk(cfg, before, chunk);
    } else {
      FullChunk(cfg, before, chunk);
    }
  }

  // Chunk invariance.  However the input is cut into chunks, if no chunk
  // failed: the parsed lines and the residue together are the input, the
  // stored offset plus the residue is the position reached, the stored
  // columns are those one parse of all complete lines finds, and the emitted
  // rows are those of one parse of all complete lines -- unless a configured
  // header was missed and there is a record to show for it.
  lemma ChunkInvariance(cfg: Config, chunks: seq<string>)
    requires ValidDialect(cfg.d) && !Feed(cfg, chunks).failed && BomOnlyFirst(Concat(chunks))
    ensures
      var (all, fed) := (Concat(chunks), Feed(cfg, chunks));
      Lines(all) + fed.state.residue == all && fed.state.offset + |fed.state.residue| == |all| &&
      Parsed(cfg, Lines(all), []).Parse? &&
      fed.state.columns == (if cfg.header && Lines(all) != "" then Parsed(cfg, Lines(all), []).cols else []) &&
      (fed.rows == Parsed(cfg, Lines(all), []).rows <==> !(HeaderMissed(cfg, First(chunks)) && HoldsRecord(cfg, Lines(all))))
  {
    var (all, fed) := (Concat(chunks), Feed(cfg, chunks));
    StreamInvariant(cfg, chunks);
    hide Lines, Residue, Feed, Concat, First, RowsOf, Parsed, HeaderMissed, HoldsRecord, BomOnlyFirst;
    Split(all);
    RowsAsParsed(cfg, Lines(all), First(chunks), fed.state.columns, fed.rows);
  }

  lemma RowsAsParsed(cfg: Config, lines: string, first: string, columns: seq<string>, rows: seq<Json>)
    requires RowsOf(cfg, lines, first, columns, rows)
    ensures Parsed(cfg, lines, []).Parse?
    ensures columns == if cfg.header && lines != "" then Parsed(cfg, lines, []).cols else []
    ensures rows == Parsed(cfg, lines, []).rows <==> !(HeaderMissed(cfg, first) && HoldsRecord(cfg, lines))
  {
    var recs := Read(cfg.d, lines).rows;
    if HeaderMissed(cfg, first) {
      RecordsNotBare(cfg.d, Normalized(StripBom(lines)));
      hide Read, RowValue, Consume;
      SeenStays(cfg, Reading(cfg.columns, true), recs);
      HeaderTaken(cfg, cfg.columns, recs);
    }
  }
}
