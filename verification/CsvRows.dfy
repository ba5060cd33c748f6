/**
 What one parse of a text yields, record by record: which records count, which
 one is the header, and the value of every cell.
 */
module CsvRows {
  import opened JsonValues
  import opened Csv
  import opened CsvStreams

  // The records that are not skipped.
  function KeptOf(cfg: Config, recs: seq<Row>): seq<Row> {
    if recs == [] then []
    else (if Kept(cfg, recs[0]) then [recs[0]] else []) + KeptOf(cfg, recs[1..])
  }

  function Values(cfg: Config, cols: seq<string>, recs: seq<Row>): seq<Json> {
    seq(|recs|, i requires 0 <= i < |recs| => RowValue(cfg, cols, recs[i]))
  }

  lemma ValuesFirst(cfg: Config, cols: seq<string>, rec: Row, rest: seq<Row>)
    ensures Values(cfg, cols, [rec] + rest) == [RowValue(cfg, cols, rec)] + Values(cfg, cols, rest)
  {
  }

  lemma {:induction false} ConsumedSeen(cfg: Config, cols: seq<string>, recs: seq<Row>)
    ensures Consume(cfg, Reading(cols, true), recs) == Output(Reading(cols, true), Values(cfg, cols, KeptOf(cfg, recs)))
  {
    if recs == [] {
      assert Values(cfg, cols, []) == [];
    } else {
      ConsumedSeen(cfg, cols, recs[1..]);
      ValuesFirst(cfg, cols, recs[0], KeptOf(cfg, recs[1..]));
      hide RowValue, Values;
      assert [] + KeptOf(cfg, recs[1..]) == KeptOf(cfg, recs[1..]);
    }
  }

  lemma {:induction false} ConsumedUnseen(cfg: Config, cols: seq<string>, recs: seq<Row>)
    ensures
      var (out, kept) := (Consume(cfg, Reading(cols, false), recs), KeptOf(cfg, recs));
      if kept == [] then out == Output(Reading(cols, false), [])
      else
        var names := if cols == [] then kept[0] else cols;
        out == Output(Reading(names, true), Values(cfg, names, kept[1..]))
  {
    if recs != [] {
      var (first, rest) := (recs[0], KeptOf(cfg, recs[1..]));
      if Kept(cfg, first) {
        var names := if cols == [] then first else cols;
        ConsumedSeen(cfg, names, recs[1..]);
        assert ([first] + rest)[1..] == rest;
      } else {
        ConsumedUnseen(cfg, cols, recs[1..]);
        assert [] + rest == rest;
      }
    }
  }

  // One parse, in full: with known columns every record that counts is a row;
  // without a header they are rows under the configured columns; with one the
  // first of them is the header, which names the columns unless they are
  // configured, and the others are rows.
  lemma ParsedExactly(cfg: Config, text: string, known: seq<string>)
    requires Read(cfg.d, text).Rows?
    ensures
      var (p, kept) := (Parsed(cfg, text, known), KeptOf(cfg, Read(cfg.d, text).rows));
      if known != [] then p == Parse(Values(cfg, known, kept), [])
      else if !cfg.header then p == Parse(Values(cfg, cfg.columns, kept), cfg.columns)
      else if kept == [] then p == Parse([], cfg.columns)
      else
        var cols := if cfg.columns != [] then cfg.columns else kept[0];
        p == Parse(Values(cfg, cols, kept[1..]), cols)
  {
    var recs := Read(cfg.d, text).rows;
    ConsumedSeen(cfg, if known != [] then known else cfg.columns, recs);
    ConsumedUnseen(cfg, cfg.columns, recs);
    hide Read, Consume, Values;
  }

  // A record counts unless empty ones are skipped and it is one.
  lemma {:induction false} KeptExactly(cfg: Config, recs: seq<Row>)
    ensures forall r :: r in KeptOf(cfg, recs) <==> r in recs && !(cfg.skipEmpty && (r == [] || r == [""]))
    ensures !cfg.skipEmpty ==> KeptOf(cfg, recs) == recs
  {
    if recs != [] {
      KeptExactly(cfg, recs[1..]);
      assert recs == [recs[0]] + recs[1..];
    }
  }

  // Without columns a row is the list of its cells, in order.
  lemma ArrayRow(cfg: Config, rec: Row)
    ensures
      var v := RowValue(cfg, [], rec);
      v.Arr? && |v.items| == |rec| && forall i :: 0 <= i < |rec| ==> v.items[i] == cfg.cell(rec[i])
  {
  }

  // With columns it is an object with exactly these keys: under each the cell
  // of its last column, or the missing value if the record is too short; cells
  // beyond the columns are dropped.
  lemma {:induction false} ObjectRow(cfg: Config, cols: seq<string>, rec: Row, k: nat)
    requires k < |cols| && forall j :: k < j < |cols| ==> cols[j] != cols[k]
    ensures RowValue(cfg, cols, rec).Obj? && RowValue(cfg, cols, rec).fields == Keyed(cfg, cols, rec)
    ensures cols[k] in Keyed(cfg, cols, rec)
    ensures Keyed(cfg, cols, rec)[cols[k]] == if k < |rec| then cfg.cell(rec[k]) else cfg.missing
  {
    if k < |cols| - 1 { ObjectRow(cfg, cols[..|cols| - 1], rec, k); }
  }

  lemma {:induction false} ObjectKeys(cfg: Config, cols: seq<string>, rec: Row)
    ensures forall c :: c in Keyed(cfg, cols, rec) <==> c in cols
  {
    if cols != [] {
      ObjectKeys(cfg, cols[..|cols| - 1], rec);
      assert cols == cols[..|cols| - 1] + [cols[|cols| - 1]];
    }
  }
}
