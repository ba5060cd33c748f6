/**
 Streams of chunks in which the file may be truncated or rotated: a chunk that
 says so starts over, whatever was stored before.
 */
module CsvResets {
  import opened JsonValues
  import opened Csv
  import opened CsvStreams

  // A chunk, and whether the file was truncated or rotated before it.
  datatype Piece = Piece(text: string, reset: bool)

  // The texts since the last reset, from its own chunk on.
  function Since(pieces: seq<Piece>): seq<string> {
    if pieces == [] then []
    else
      var last := pieces[|pieces| - 1];
      (if last.reset then [] else Since(pieces[..|pieces| - 1])) + [last.text]
  }

  // The chunks before it.
  function Before(pieces: seq<Piece>): seq<Piece> {
    if pieces == [] then []
    else if pieces[|pieces| - 1].reset then pieces[..|pieces| - 1]
    else Before(pieces[..|pieces| - 1])
  }

  predicate Resets(pieces: seq<Piece>) {
    exists i :: 0 <= i < |pieces| && pieces[i].reset
  }

  // All chunks in order, from whatever is stored.  A chunk's position is where
  // it ends in the file as it is since the last reset.
  function FeedAll(cfg: Config, stored: State, pieces: seq<Piece>): Fed {
    if pieces == [] then Fed(stored, [], false)
    else
      var n := |pieces| - 1;
      var before := FeedAll(cfg, stored, pieces[..n]);
      var h := Handle(cfg, before.state, Chunk(pieces[n].text, |Concat(Since(pieces))|, pieces[n].reset));
      Fed(h.state, before.rows + (if h.outcome.Emitted? then h.outcome.rows else []), before.failed || h.outcome.Error?)
  }

  // A chunk that fails leaves the state alone, with a reset or without.
  lemma FailureChangesNothing(cfg: Config, stored: State, pieces: seq<Piece>, piece: Piece)
    ensures
      var (was, now) := (FeedAll(cfg, stored, pieces), FeedAll(cfg, stored, pieces + [piece]));
      !was.failed && now.failed ==> now.state == was.state && now.rows == was.rows
  {
    OneMorePiece(cfg, stored, pieces, piece);
  }

  lemma OneMorePiece(cfg: Config, stored: State, pieces: seq<Piece>, piece: Piece)
    ensures Since(pieces + [piece]) == (if piece.reset then [] else Since(pieces)) + [piece.text]
    ensures
      var was := FeedAll(cfg, stored, pieces);
      var h := Handle(cfg, was.state, Chunk(piece.text, |Concat(Since(pieces + [piece]))|, piece.reset));
      FeedAll(cfg, stored, pieces + [piece]) ==
        Fed(h.state, was.rows + (if h.outcome.Emitted? then h.outcome.rows else []), was.failed || h.outcome.Error?)
  {
    assert (pieces + [piece])[..|pieces|] == pieces;
  }

  // A reset answers as a new file does.  It also leaves what a new file
  // leaves, unless its complete lines do not parse: then the state of the old
  // file stays stored.
  lemma ResetForgets(cfg: Config, stored: State, text: string, position: int)
    ensures
      var (h, anew) := (Handle(cfg, stored, Chunk(text, position, true)), Handle(cfg, NewFile, Chunk(text, position, false)));
      var fails := Lines(text) != "" && Read(cfg.d, Lines(text)).ParseError?;
      h.outcome == anew.outcome && (h.outcome.Error? <==> fails) && (fails ==> h.state == stored) &&
      (h.state == anew.state <==> !fails || stored == NewFile)
  {
    hide Handle, Read, Lines;
    SameAsNew(cfg, stored, text, position);
    FailsWhen(cfg, text, position);
  }

  lemma SameAsNew(cfg: Config, stored: State, text: string, position: int)
    ensures
      var (h, anew) := (Handle(cfg, stored, Chunk(text, position, true)), Handle(cfg, NewFile, Chunk(text, position, false)));
      h.outcome == anew.outcome && h.state == if h.outcome.Error? then stored else anew.state
  {
    hide Parsed, Cut, Known;
  }

  lemma FailsWhen(cfg: Config, text: string, position: int)
    ensures
      var h := Handle(cfg, NewFile, Chunk(text, position, false));
      (h.outcome.Error? <==> Lines(text) != "" && Read(cfg.d, Lines(text)).ParseError?) && (h.outcome.Error? ==> h.state == NewFile)
  {
    assert NewFile.residue + text == text && (Lines(text) == "" <==> Cut(text) == 0);
    ParsedFails(cfg, Lines(text), Known(cfg, []));
    hide Read, Cut, Parsed, Known;
  }

  lemma ParsedFails(cfg: Config, lines: string, known: seq<string>)
    ensures Parsed(cfg, lines, known).Failed? <==> Read(cfg.d, lines).ParseError?
  {
    hide Read, Consume;
  }

  function Marked(texts: seq<string>): seq<Piece> {
    seq(|texts|, i requires 0 <= i < |texts| => Piece(texts[i], i == 0))
  }

  lemma MarkedSnoc(texts: seq<string>, text: string)
    ensures Marked(texts + [text]) == Marked(texts) + [Piece(text, texts == [])]
  {
  }

  // The chunks before the last reset, its own, and those after it.
  lemma {:induction false} LastReset(pieces: seq<Piece>)
    requires Resets(pieces)
    ensures Since(pieces) != [] && pieces == Before(pieces) + Marked(Since(pieces))
  {
    var (front, last) := (pieces[..|pieces| - 1], pieces[|pieces| - 1]);
    assert pieces == front + [last];
    if last.reset {
      assert Since(pieces) == [last.text];
      MarkedSnoc([], last.text);
      assert Marked([]) == [] && [] + [last.text] == [last.text];
    } else {
      var i :| 0 <= i < |pieces| && pieces[i].reset;
      assert front[i].reset;
      LastReset(front);
      MarkedSnoc(Since(front), last.text);
    }
  }

  lemma {:induction false} SinceMarked(before: seq<Piece>, texts: seq<string>)
    requires texts != []
    ensures Since(before + Marked(texts)) == texts
  {
    var (front, text) := (texts[..|texts| - 1], texts[|texts| - 1]);
    var pieces := before + Marked(texts);
    assert texts == front + [text];
    MarkedSnoc(front, text);
    assert pieces == before + Marked(front) + [Piece(text, front == [])];
    assert pieces[..|pieces| - 1] == before + Marked(front);
    if front != [] { SinceMarked(before, front); }
  }

  // What was fed, and what a new file would have been fed instead.
  ghost predicate StartedOver(was: Fed, now: Fed, anew: Fed) {
    now.state == anew.state && now.rows == was.rows + anew.rows && (now.failed <==> was.failed || anew.failed)
  }

  function Added(was: Fed, h: Handled): Fed {
    Fed(h.state, was.rows + (if h.outcome.Emitted? then h.outcome.rows else []), was.failed || h.outcome.Error?)
  }

  lemma FirstAdded(was: Fed, h: Handled, anew: Handled)
    requires h.state == anew.state && h.outcome == anew.outcome
    ensures StartedOver(was, Added(was, h), Added(Fed(NewFile, [], false), anew))
  {
  }

  lemma NextAdded(was: Fed, now: Fed, anew: Fed, h: Handled)
    requires StartedOver(was, now, anew)
    ensures StartedOver(was, Added(now, h), Added(anew, h))
  {
  }

  lemma FedFirst(cfg: Config, stored: State, before: seq<Piece>, text: string)
    requires FeedAll(cfg, stored, before).state == NewFile || !Feed(cfg, [text]).failed
    ensures StartedOver(FeedAll(cfg, stored, before), FeedAll(cfg, stored, before + [Piece(text, true)]), Feed(cfg, [text]))
  {
    var (was, c) := (FeedAll(cfg, stored, before), Chunk(text, |Concat([text])|, true));
    assert [] + [text] == [text] && Feed(cfg, []) == Fed(NewFile, [], false) && Concat([]) + text == Concat([text]);
    hide FeedAll, Handle, Since, Concat, Read, Lines, Feed, StartedOver;
    OneMorePiece(cfg, stored, before, Piece(text, true));
    Extended(cfg, [], text);
    ResetForgets(cfg, was.state, text, c.position);
    FirstAdded(was, Handle(cfg, was.state, c), Handle(cfg, NewFile, c.(reset := false)));
  }

  lemma FedNext(cfg: Config, stored: State, before: seq<Piece>, pieces: seq<Piece>, front: seq<string>, text: string)
    requires StartedOver(FeedAll(cfg, stored, before), FeedAll(cfg, stored, pieces), Feed(cfg, front))
    requires Since(pieces) == front
    ensures StartedOver(FeedAll(cfg, stored, before), FeedAll(cfg, stored, pieces + [Piece(text, false)]), Feed(cfg, front + [text]))
  {
    var (was, now, anew) := (FeedAll(cfg, stored, before), FeedAll(cfg, stored, pieces), Feed(cfg, front));
    var c := Chunk(text, |Concat(front + [text])|, false);
    hide FeedAll, Handle, Since, Concat, Feed;
    OneMorePiece(cfg, stored, pieces, Piece(text, false));
    Extended(cfg, front, text);
    NextAdded(was, now, anew, Handle(cfg, now.state, c));
  }

  // From a reset that parses on, state and rows are those of a new file.
  lemma {:induction false} FedSinceReset(cfg: Config, stored: State, before: seq<Piece>, texts: seq<string>)
    requires texts != [] && (FeedAll(cfg, stored, before).state == NewFile || !Feed(cfg, texts[..1]).failed)
    ensures StartedOver(FeedAll(cfg, stored, before), FeedAll(cfg, stored, before + Marked(texts)), Feed(cfg, texts))
  {
    hide *;
    var (front, text) := (texts[..|texts| - 1], texts[|texts| - 1]);
    assert texts == front + [text];
    MarkedSnoc(front, text);
    assert before + Marked(texts) == before + Marked(front) + [Piece(text, front == [])];
    if front == [] {
      assert texts[..1] == [text] && texts == [text];
      NoneMarked();
      assert before + [] == before;
      FedFirst(cfg, stored, before, text);
    } else {
      assert front[..1] == texts[..1];
      FedSinceReset(cfg, stored, before, front);
      SinceMarked(before, front);
      FedNext(cfg, stored, before, before + Marked(front), front, text);
    }
  }

  lemma NoneMarked()
    ensures Marked([]) == []
  {
  }

  // Chunk invariance over every run with resets, from any stored state: if no
  // chunk since the last reset failed, residue, offset, columns and the rows
  // emitted since are those of the text since that reset alone.
  lemma RunsStartOver(cfg: Config, stored: State, pieces: seq<Piece>)
    requires ValidDialect(cfg.d) && Resets(pieces)
    requires !Feed(cfg, Since(pieces)).failed && BomOnlyFirst(Concat(Since(pieces)))
    ensures
      var (was, fed, all) := (FeedAll(cfg, stored, Before(pieces)), FeedAll(cfg, stored, pieces), Concat(Since(pieces)));
      Lines(all) + fed.state.residue == all && fed.state.offset + |fed.state.residue| == |all| &&
      Parsed(cfg, Lines(all), []).Parse? &&
      fed.state.columns == (if cfg.header && Lines(all) != "" then Parsed(cfg, Lines(all), []).cols else []) &&
      was.rows <= fed.rows &&
      (fed.rows[|was.rows|..] == Parsed(cfg, Lines(all), []).rows <==>
        !(HeaderMissed(cfg, First(Since(pieces))) && HoldsRecord(cfg, Lines(all))))
  {
    var texts := Since(pieces);
    LastReset(pieces);
    assert texts[..|texts|] == texts;
    hide *;
    FailsFirst(cfg, texts, 1);
    FedSinceReset(cfg, stored, Before(pieces), texts);
    ChunkInvariance(cfg, texts);
    Behind(FeedAll(cfg, stored, Before(pieces)), FeedAll(cfg, stored, pieces), Feed(cfg, texts));
  }

  lemma Behind(was: Fed, now: Fed, anew: Fed)
    requires StartedOver(was, now, anew)
    ensures now.state == anew.state && was.rows <= now.rows && now.rows[|was.rows|..] == anew.rows
  {
  }

  lemma {:induction false} FailsFirst(cfg: Config, texts: seq<string>, k: nat)
    requires k <= |texts| && !Feed(cfg, texts).failed
    ensures !Feed(cfg, texts[..k]).failed
  {
    if k == |texts| {
      assert texts[..k] == texts;
    } else {
      var front := texts[..|texts| - 1];
      assert front[..k] == texts[..k];
      FailsFirst(cfg, front, k);
    }
  }

  // A reset whose lines do not parse is as good as not received: the next
  // chunk is read behind the residue, and under the columns, of the old file.
  lemma FailedResetIsIgnored(cfg: Config, stored: State, text: string, next: string)
    requires Lines(text) != "" && Read(cfg.d, Lines(text)).ParseError?
    ensures
      FeedAll(cfg, stored, [Piece(text, true), Piece(next, false)]).state ==
      Handle(cfg, stored, Chunk(next, |text + next|, false)).state
  {
    var (a, b) := (Piece(text, true), Piece(next, false));
    assert [] + [a] == [a] && [a] + [b] == [a, b] && [] + [text] == [text];
    assert Since([]) == [];
    OneMorePiece(cfg, stored, [], a);
    OneMorePiece(cfg, stored, [a], b);
    TwoTexts(text, next);
    hide Handle, Since, Concat;
    ResetForgets(cfg, stored, text, |Concat([text])|);
  }

  lemma TwoTexts(text: string, next: string)
    ensures Concat([text]) == text && Concat([text] + [next]) == text + next
  {
    assert ([text] + [next])[..1] == [text] && [text][..0] == [] && "" + text == text;
  }

  // What a chunk is emitted with: the position of the end of the last complete
  // line, and the columns one parse of all complete lines finds.
  lemma EmittedWith(cfg: Config, before: seq<string>, chunk: string)
    requires ValidDialect(cfg.d) && !Feed(cfg, before + [chunk]).failed && BomOnlyFirst(Concat(before + [chunk]))
    ensures
      var all := Concat(before + [chunk]);
      var (outcome, p) := (Handle(cfg, Feed(cfg, before).state, Chunk(chunk, |all|, false)).outcome, Parsed(cfg, Lines(all), []));
      p.Parse? && (outcome.Emitted? ==> outcome.csvPosition == |Lines(all)| && outcome.columns == p.cols)
  {
    hide *;
    var (all, was) := (Concat(before + [chunk]), Feed(cfg, before));
    var c := Chunk(chunk, |all|, false);
    ChunkInvariance(cfg, before + [chunk]);
    Extended(cfg, before, chunk);
    CsvStreams.Split(all);
    SameLength(Lines(all), Residue(all), Feed(cfg, before + [chunk]).state.residue, all);
    if Handle(cfg, was.state, c).outcome.Emitted? {
      EmittedColumns(cfg, was.state, c);
      FailsFirst(cfg, before + [chunk], |before|);
      assert (before + [chunk])[..|before|] == before;
      BomPrefix(Concat(before), chunk);
      ResidueFed(cfg, before);
      SomeLines(cfg, was.state, c, Concat(before));
      if !cfg.header { PlainColumns(cfg, Lines(all)); }
    }
  }

  lemma SameLength(lines: string, residue: string, other: string, all: string)
    requires lines + residue == all && lines + other == all
    ensures residue == other && |lines| + |residue| == |all|
  {
    assert residue == all[|lines|..] && other == all[|lines|..];
  }

  lemma ResidueFed(cfg: Config, chunks: seq<string>)
    requires ValidDialect(cfg.d) && !Feed(cfg, chunks).failed && BomOnlyFirst(Concat(chunks))
    ensures Feed(cfg, chunks).state.residue == Residue(Concat(chunks))
  {
    StreamInvariant(cfg, chunks);
  }

  lemma EmittedColumns(cfg: Config, stored: State, c: Chunk)
    requires !c.reset && Handle(cfg, stored, c).outcome.Emitted?
    ensures
      var h := Handle(cfg, stored, c);
      h.outcome.csvPosition == h.state.offset && h.outcome.columns == if cfg.header then h.state.columns else cfg.columns
  {
    if !cfg.header { PlainColumns(cfg, Lines(stored.residue + c.text)); }
    hide Read, Consume;
  }

  lemma PlainColumns(cfg: Config, lines: string)
    requires !cfg.header && Parsed(cfg, lines, []).Parse?
    ensures Parsed(cfg, lines, []).cols == cfg.columns
  {
    SeenStays(cfg, Start(cfg, []), Read(cfg.d, lines).rows);
  }

  lemma SomeLines(cfg: Config, state: State, c: Chunk, all: string)
    requires !c.reset && Handle(cfg, state, c).outcome.Emitted?
    ensures state.residue == Residue(all) ==> Lines(all + c.text) != ""
  {
    LinesGrow(all, c.text);
  }
}
