/**
 Objects to CSV and back: stringifyCSVRaw on object rows with given columns,
 and the csv node's parse of what it wrote.
 */
module CsvObjects {
  import opened JsonValues
  import opened Csv
  import opened CsvIdentity
  import opened CsvStreams

  // A row object with its cells already formatted.
  type RowObject = map<string, string>

  // formatCell of a missing value is the empty string.
  function CellOf(r: RowObject, col: string): string {
    if col in r then r[col] else ""
  }

  function CellsOf(cols: seq<string>, r: RowObject): (row: Row)
    ensures |row| == |cols|
  {
    seq(|cols|, i requires 0 <= i < |cols| => CellOf(r, cols[i]))
  }

  function Body(cols: seq<string>, records: seq<RowObject>): (rows: seq<Row>)
    ensures |rows| == |records|
  {
    seq(|records|, i requires 0 <= i < |records| => CellsOf(cols, records[i]))
  }

  function Sheet(cols: seq<string>, records: seq<RowObject>, head: bool): seq<Row> {
    (if head && cols != [] then [cols] else []) + Body(cols, records)
  }

  // stringifyCSVRaw, for object rows.
  method Stringify(st: Style, cols: seq<string>, records: seq<RowObject>, head: bool) returns (out: string)
    ensures out == Print(st, Sheet(cols, records, head))
  {
    var rows: seq<Row> := [];
    if head && |cols| > 0 {
      rows := [cols];
    }
    ghost var first := rows;
    for i := 0 to |records|
      invariant rows == first + Body(cols, records[..i])
    {
      var cells: Row := [];
      for j := 0 to |cols|
        invariant |cells| == j && forall k :: 0 <= k < j ==> cells[k] == CellOf(records[i], cols[k])
      {
        cells := cells + [CellOf(records[i], cols[j])];
      }
      assert cells == CellsOf(cols, records[i]);
      assert Body(cols, records[..i + 1]) == Body(cols, records[..i]) + [cells];
      rows := rows + [cells];
    }
    assert records[..|records|] == records;
    out := WriteRows(st, rows);
  }

  // The object that names each column once.
  function Columned(cols: seq<string>, r: RowObject): Json {
    Obj(map c | c in cols :: Str(CellOf(r, c)))
  }

  function Objects(cols: seq<string>, records: seq<RowObject>): seq<Json> {
    seq(|records|, i requires 0 <= i < |records| => Columned(cols, records[i]))
  }

  lemma {:induction false} KeyedCells(cfg: Config, cols: seq<string>, r: RowObject, row: Row)
    requires (forall s :: cfg.cell(s) == Str(s)) && |cols| <= |row|
    requires forall i :: 0 <= i < |cols| ==> row[i] == CellOf(r, cols[i])
    ensures Keyed(cfg, cols, row) == map c | c in cols :: Str(CellOf(r, c))
  {
    if cols != [] {
      var (init, last) := (cols[..|cols| - 1], cols[|cols| - 1]);
      KeyedCells(cfg, init, r, row);
      assert cols == init + [last];
    }
  }

  lemma OneRowBack(cfg: Config, cols: seq<string>, r: RowObject)
    requires (forall s :: cfg.cell(s) == Str(s)) && cols != [] && Kept(cfg, CellsOf(cols, r))
    ensures Step(cfg, Reading(cols, true), CellsOf(cols, r)) == Output(Reading(cols, true), [Columned(cols, r)])
  {
    KeyedCells(cfg, cols, r, CellsOf(cols, r));
  }

  // With the header behind, every record that is kept becomes its object.
  lemma {:induction false} RowsBack(cfg: Config, cols: seq<string>, records: seq<RowObject>)
    requires (forall s :: cfg.cell(s) == Str(s)) && cols != []
    requires forall i :: 0 <= i < |records| ==> Kept(cfg, CellsOf(cols, records[i]))
    ensures Consume(cfg, Reading(cols, true), Body(cols, records)) == Output(Reading(cols, true), Objects(cols, records))
  {
    if records != [] {
      var (rows, rest) := (Body(cols, records), records[1..]);
      assert rows[1..] == Body(cols, rest) && rows[0] == CellsOf(cols, records[0]);
      assert Objects(cols, records) == [Columned(cols, records[0])] + Objects(cols, rest);
      assert forall i :: 0 <= i < |rest| ==> rest[i] == records[i + 1];
      hide Objects, Body, CellsOf, Columned, Step, Kept;
      OneRowBack(cfg, cols, records[0]);
      RowsBack(cfg, cols, rest);
    }
  }

  // Writing objects under a header and parsing the text gives every object
  // back, cut to the columns, missing cells empty; for all records whose
  // printed rows the reader does not skip or change.
  lemma ObjectsRoundTrip(cfg: Config, st: Style, cols: seq<string>, records: seq<RowObject>)
    requires ValidDialect(cfg.d) && st.delim == cfg.d.delim && Newline(st.newline)
    requires cfg.header && cfg.columns == [] && cols != [] && forall s :: cfg.cell(s) == Str(s)
    requires
      var rows := Sheet(cols, records, true);
      StripBom(Print(st, rows)) == Print(st, rows) && Intact(cfg.d, st, rows) && forall i :: 0 <= i < |rows| ==> Kept(cfg, rows[i])
    ensures
      Parsed(cfg, Print(st, Sheet(cols, records, true)), []) ==
      Parse(Objects(cols, records), cols)
  {
    var (rows, body) := (Sheet(cols, records, true), Body(cols, records));
    RoundTripIdentity(cfg.d, st, rows);
    assert rows[0] == cols && rows[1..] == body;
    forall i | 0 <= i < |records| ensures Kept(cfg, CellsOf(cols, records[i])) { assert rows[i + 1] == body[i]; }
    RowsBack(cfg, cols, records);
  }
}
