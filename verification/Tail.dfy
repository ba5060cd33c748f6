/**
 Incremental reading of a growing file: the stored cursor, the line-aware trim
 and what survives a run of appends and reads.

 Bytes are characters here.  The file system and the cursor store appear as an
 environment: any call may fail, and the file may grow between the stat and
 the read.
 */
module Tails {
  import opened JsonValues

  datatype Delimiter = Lf | CrLf | Auto | NoDelimiter | Unknown

  /******* Boundaries *******/

  // A complete delimiter ends at i.
  predicate EndsAt(d: Delimiter, s: string, i: nat) {
    0 < i <= |s| && s[i - 1] == '\n' && (d == CrLf ==> i > 1 && s[i - 2] == '\r')
  }

  // The last such place, or 0.
  function Boundary(d: Delimiter, s: string): (k: nat)
    ensures k <= |s| && (k > 0 ==> EndsAt(d, s, k))
  {
    if s == "" then 0 else if EndsAt(d, s, |s|) then |s| else Boundary(d, s[..|s| - 1])
  }

  function Count(d: Delimiter, s: string): nat {
    if s == "" then 0 else Count(d, s[..|s| - 1]) + if EndsAt(d, s, |s|) then 1 else 0
  }

  lemma {:induction false} BoundaryIsLast(d: Delimiter, s: string, i: nat)
    requires Boundary(d, s) < i <= |s|
    ensures !EndsAt(d, s, i)
  {
    if i < |s| {
      BoundaryIsLast(d, s[..|s| - 1], i);
    }
  }

  // lastBoundaryLF
  method LastBoundaryLf(buf: string) returns (end: int, count: nat)
    ensures end == Boundary(Lf, buf) && count == Count(Lf, buf)
  {
    end, count := -1, 0;
    for i := 0 to |buf|
      invariant count == Count(Lf, buf[..i])
      invariant end == (if Boundary(Lf, buf[..i]) > 0 then Boundary(Lf, buf[..i]) else -1)
      invariant end < 0 ==> count == 0
    {
      assert buf[..i + 1][..i] == buf[..i];
      if buf[i] == '\n' {
        end := i + 1;
        count := count + 1;
      }
    }
    assert buf[..|buf|] == buf;
    if end < 0 {
      return 0, 0;
    }
  }

  // lastBoundaryCRLF: skips the LF of a pair it has counted.
  method LastBoundaryCrLf(buf: string) returns (end: int, count: nat)
    ensures end == Boundary(CrLf, buf) && count == Count(CrLf, buf)
  {
    end, count := -1, 0;
    var i := 0;
    while i + 1 < |buf|
      invariant 0 <= i <= |buf|
      invariant count == Count(CrLf, buf[..i])
      invariant end == (if Boundary(CrLf, buf[..i]) > 0 then Boundary(CrLf, buf[..i]) else -1)
      invariant end < 0 ==> count == 0
      invariant i > 0 && i < |buf| && buf[i - 1] == '\r' ==> buf[i] != '\n'
    {
      assert buf[..i + 1][..i] == buf[..i] && !EndsAt(CrLf, buf[..i + 1], i + 1);
      if buf[i] == '\r' && buf[i + 1] == '\n' {
        assert buf[..i + 2][..i + 1] == buf[..i + 1] && EndsAt(CrLf, buf[..i + 2], i + 2);
        end := i + 2;
        count := count + 1;
        i := i + 1;
      }
      i := i + 1;
    }
    if i < |buf| { assert buf[..i + 1][..i] == buf[..i] && !EndsAt(CrLf, buf[..i + 1], i + 1); }
    assert buf[..|buf|] == buf;
    if end < 0 {
      return 0, 0;
    }
  }

  /******* One read *******/

  datatype Options = Options(delim: Delimiter, maxLineBytes: int, fromStart: bool)

  // How the calls of one read turn out; `content` is the file when it is read.
  datatype Env = Env(stats: bool, size: nat, loads: bool, opens: bool, content: string, saves: bool)

  datatype Result = Failed | Result(data: string, position: nat, lineCount: nat, reset: bool, skipped: bool)

  datatype Outcome = Outcome(stored: Option<nat>, result: Result)

  function From(content: string, cursor: nat): string {
    if cursor <= |content| then content[cursor..] else ""
  }

  // readIncremental: the cursor it leaves stored, and what it returns.
  function Read(o: Options, stored: Option<nat>, e: Env): Outcome {
    var cursor0 := match stored case Some(c) => c case None => if o.fromStart then 0 else e.size;
    var reset := cursor0 > e.size;
    var cursor := if reset then 0 else cursor0;
    var buf := From(e.content, cursor);
    var k := Boundary(o.delim, buf);
    if !e.stats || !e.loads then Outcome(stored, Failed)
    else if cursor == e.size then
      if !reset then Outcome(stored, Result("", cursor, 0, false, true))
      else if !e.saves then Outcome(stored, Failed)
      else Outcome(Some(0), Result("", 0, 0, true, false))
    else if !e.opens then Outcome(stored, Failed)
    else if o.delim == NoDelimiter then
      if !e.saves then Outcome(stored, Failed)
      else Outcome(Some(cursor + |buf|), Result(buf, cursor + |buf|, 0, reset, false))
    else if o.delim == Unknown || (k == 0 && o.maxLineBytes > 0 && |buf| >= o.maxLineBytes) then Outcome(stored, Failed)
    else if k == 0 then Outcome(stored, Result("", cursor, 0, reset, !reset))
    else if !e.saves then Outcome(stored, Failed)
    else Outcome(Some(cursor + k), Result(buf[..k], cursor + k, Count(o.delim, buf), reset, false))
  }

  class Cursor {
    var stored: Option<nat>

    constructor (stored: Option<nat>)
      ensures this.stored == stored
    {
      this.stored := stored;
    }

    method ReadIncremental(o: Options, e: Env) returns (r: Result)
      modifies this
      ensures stored == Read(o, old(stored), e).stored && r == Read(o, old(stored), e).result
    {
      if !e.stats || !e.loads {
        return Failed;
      }
      var cursor: nat;
      match stored {
        case Some(c) => cursor := c;
        case None => if o.fromStart { cursor := 0; } else { cursor := e.size; }
      }
      var reset := false;
      if cursor > e.size {
        reset := true;
        cursor := 0;
      }
      if cursor == e.size {
        if reset {
          if !e.saves {
            return Failed;
          }
          stored := Some(0);
          return Result("", 0, 0, true, false);
        }
        return Result("", cursor, 0, false, true);
      }
      if !e.opens {
        return Failed;
      }
      var buf := From(e.content, cursor);
      if o.delim == NoDelimiter {
        if !e.saves {
          return Failed;
        }
        stored := Some(cursor + |buf|);
        return Result(buf, cursor + |buf|, 0, reset, false);
      }
      var end: int, count: nat;
      match o.delim {
        case CrLf => end, count := LastBoundaryCrLf(buf);
        case Lf => end, count := LastBoundaryLf(buf);
        case Auto => end, count := LastBoundaryLf(buf); AutoIsLf(buf);
        case _ => return Failed;
      }
      if end <= 0 {
        if o.maxLineBytes > 0 && |buf| >= o.maxLineBytes {
          return Failed;
        }
        return Result("", cursor, 0, reset, !reset);
      }
      if !e.saves {
        return Failed;
      }
      stored := Some(cursor + end);
      r := Result(buf[..end], cursor + end, count, reset, false);
    }
  }

  lemma {:induction false} AutoIsLf(s: string)
    ensures Boundary(Auto, s) == Boundary(Lf, s) && Count(Auto, s) == Count(Lf, s)
  {
    if s != "" { AutoIsLf(s[..|s| - 1]); }
  }

  /******* Runs of appends and reads *******/

  datatype Event = Append(text: string) | ReadFile(stats: bool, loads: bool, opens: bool, saves: bool, grown: string)

  // The file, the cursor store, and all that was emitted.
  datatype State = State(file: string, stored: Option<nat>, emitted: string, lines: nat)

  // The environment of a read: `grown` is appended after the stat.
  function EnvOf(file: string, ev: Event): Env
    requires ev.ReadFile?
  {
    Env(ev.stats, |file|, ev.loads, ev.opens, file + ev.grown, ev.saves)
  }

  function Step(o: Options, s: State, ev: Event): State {
    match ev
    case Append(text) => s.(file := s.file + text)
    case ReadFile(_, _, _, _, grown) =>
      var out := Read(o, s.stored, EnvOf(s.file, ev));
      var s' := State(s.file + grown, out.stored, s.emitted, s.lines);
      if out.result.Failed? then s'
      else s'.(emitted := s.emitted + out.result.data, lines := s.lines + out.result.lineCount)
  }

  function Run(o: Options, s: State, events: seq<Event>): State {
    if events == [] then s else Step(o, Run(o, s, events[..|events| - 1]), events[|events| - 1])
  }

  predicate AtBoundary(o: Options, file: string, c: nat) {
    c <= |file| && (o.delim == NoDelimiter || c == 0 || EndsAt(o.delim, file, c))
  }

  // A first read from the start of the file, or a cursor stored at a boundary.
  predicate Started(o: Options, s: State) {
    match s.stored
    case Some(c) => AtBoundary(o, s.file, c)
    case None => o.fromStart
  }

  function Position(s: State): nat {
    if s.stored.Some? then s.stored.value else 0
  }

  // Exactly the bytes from `start` to the cursor have been emitted.
  ghost predicate Inv(o: Options, start: nat, s: State) {
    var c := Position(s);
    (s.stored.Some? || o.fromStart) && start <= c && AtBoundary(o, s.file, start) && AtBoundary(o, s.file, c) &&
    s.emitted == s.file[start..c] &&
    s.lines == if o.delim == NoDelimiter then 0 else Count(o.delim, s.file[start..c])
  }

  lemma {:induction false} CountJoin(d: Delimiter, a: string, b: string)
    requires a == "" || a[|a| - 1] == '\n'
    ensures Count(d, a + b) == Count(d, a) + Count(d, b)
  {
    if b == "" {
      assert a + b == a;
    } else {
      assert (a + b)[..|a + b| - 1] == a + b[..|b| - 1];
      CountJoin(d, a, b[..|b| - 1]);
      assert EndsAt(d, a + b, |a + b|) <==> EndsAt(d, b, |b|);
    }
  }

  lemma {:induction false} CountToBoundary(d: Delimiter, s: string)
    ensures Count(d, s) == Count(d, s[..Boundary(d, s)])
  {
    if s != "" && !EndsAt(d, s, |s|) {
      CountToBoundary(d, s[..|s| - 1]);
      assert s[..|s| - 1][..Boundary(d, s)] == s[..Boundary(d, s)];
    } else {
      assert s[..|s|] == s;
    }
  }

  // Appending moves no boundary and no byte before it.
  lemma AppendKeeps(o: Options, start: nat, s: State, more: string)
    requires Inv(o, start, s)
    ensures Inv(o, start, s.(file := s.file + more))
  {
    assert (s.file + more)[start..Position(s)] == s.file[start..Position(s)];
  }

  // A read that moves the cursor over the bytes buf[..k].
  lemma Advance(o: Options, start: nat, s: State, k: nat)
    requires Inv(o, start, s) && o.delim != NoDelimiter
    requires var buf := s.file[Position(s)..]; k == Boundary(o.delim, buf) && k > 0
    ensures
      var (c, buf) := (Position(s), s.file[Position(s)..]);
      Inv(o, start, State(s.file, Some(c + k), s.emitted + buf[..k], s.lines + Count(o.delim, buf)))
  {
    assert Position(s) <= |s.file|;
    hide Boundary, Count, AtBoundary;
    var (c, buf) := (Position(s), s.file[Position(s)..]);
    AtBoundaryFurther(o, s.file, c, k);
    SlicesJoin(s.file, start, c, k);
    CountFurther(o, s.file, start, c, k);
  }

  lemma AtBoundaryFurther(o: Options, file: string, c: nat, k: nat)
    requires o.delim != NoDelimiter && c <= |file| && k > 0 && k == Boundary(o.delim, file[c..])
    ensures AtBoundary(o, file, c + k)
  {
    hide Boundary, Count;
    EndsFurther(o.delim, file, c, k);
  }

  lemma CountFurther(o: Options, file: string, start: nat, c: nat, k: nat)
    requires o.delim != NoDelimiter && AtBoundary(o, file, c) && start <= c && k == Boundary(o.delim, file[c..])
    ensures c + k <= |file| && Count(o.delim, file[start..c + k]) == Count(o.delim, file[start..c]) + Count(o.delim, file[c..])
  {
    hide Boundary, Count;
    SlicesJoin(file, start, c, k);
    CountToBoundary(o.delim, file[c..]);
    BehindDelimiter(o, file, start, c);
    CountJoin(o.delim, file[start..c], file[c..][..k]);
  }

  lemma EndsFurther(d: Delimiter, file: string, c: nat, k: nat)
    requires c <= |file| && EndsAt(d, file[c..], k)
    ensures EndsAt(d, file, c + k)
  {
  }

  lemma BehindDelimiter(o: Options, file: string, start: nat, c: nat)
    requires o.delim != NoDelimiter && AtBoundary(o, file, c) && start <= c
    ensures var a := file[start..c]; a == "" || a[|a| - 1] == '\n'
  {
  }

  // No delimiter mode: everything there is.
  lemma AdvanceAll(o: Options, start: nat, s: State)
    requires Inv(o, start, s) && o.delim == NoDelimiter
    ensures Inv(o, start, State(s.file, Some(|s.file|), s.emitted + s.file[Position(s)..], s.lines))
  {
    assert s.file[start..|s.file|] == s.file[start..Position(s)] + s.file[Position(s)..];
  }

  // On a file that only grew there is no reset: a read stays or advances.
  lemma ReadCases(o: Options, s: State, ev: Event)
    requires ev.ReadFile? && (s.stored.Some? || o.fromStart) && Position(s) <= |s.file|
    ensures
      var (out, c) := (Read(o, s.stored, EnvOf(s.file, ev)), Position(s));
      var buf := (s.file + ev.grown)[c..];
      if out.result.Failed? || out.result.skipped then out.stored == s.stored && (out.result.Result? ==> out.result.data == "" && out.result.lineCount == 0)
      else if o.delim == NoDelimiter then out.stored == Some(c + |buf|) && out.result.data == buf && out.result.lineCount == 0
      else
        Boundary(o.delim, buf) > 0 && out.stored == Some(c + Boundary(o.delim, buf)) &&
        out.result.data == buf[..Boundary(o.delim, buf)] && out.result.lineCount == Count(o.delim, buf)
  {
  }

  lemma StepCases(o: Options, s: State, ev: Event)
    requires ev.ReadFile? && (s.stored.Some? || o.fromStart) && Position(s) <= |s.file|
    ensures
      var (result, c, file) := (Read(o, s.stored, EnvOf(s.file, ev)).result, Position(s), s.file + ev.grown);
      var (buf, k) := (file[c..], Boundary(o.delim, file[c..]));
      Step(o, s, ev) ==
        if result.Failed? || result.skipped then s.(file := file)
        else if o.delim == NoDelimiter then State(file, Some(|file|), s.emitted + buf, s.lines)
        else State(file, Some(c + k), s.emitted + buf[..k], s.lines + Count(o.delim, buf))
    ensures
      var result := Read(o, s.stored, EnvOf(s.file, ev)).result;
      result.Failed? || result.skipped || o.delim == NoDelimiter || Boundary(o.delim, (s.file + ev.grown)[Position(s)..]) > 0
  {
    assert s.emitted + "" == s.emitted;
    var file := s.file + ev.grown;
    assert Position(s) + |file[Position(s)..]| == |file|;
    hide Read, Boundary, Count, EnvOf;
    ReadCases(o, s, ev);
    if Read(o, s.stored, EnvOf(s.file, ev)).result.Failed? {
      assert Step(o, s, ev) == s.(file := file);
    }
  }

  lemma ReadKeeps(o: Options, start: nat, s: State, ev: Event)
    requires Inv(o, start, s) && ev.ReadFile?
    ensures Inv(o, start, Step(o, s, ev)) && Position(s) <= Position(Step(o, s, ev))
    ensures Read(o, s.stored, EnvOf(s.file, ev)).result.Failed? ==>
      Step(o, s, ev) == s.(file := s.file + ev.grown)
  {
    var grown := s.(file := s.file + ev.grown);
    assert (s.stored.Some? || o.fromStart) && Position(s) <= |s.file|;
    hide Inv, Read, Boundary, Count, EnvOf, Step;
    AppendKeeps(o, start, s, ev.grown);
    StepCases(o, s, ev);
    var result := Read(o, s.stored, EnvOf(s.file, ev)).result;
    if !result.Failed? && !result.skipped {
      if o.delim == NoDelimiter {
        AdvanceAll(o, start, grown);
      } else {
        Advance(o, start, grown, Boundary(o.delim, grown.file[Position(s)..]));
      }
    }
  }

  lemma {:induction false} RunKeeps(o: Options, s: State, events: seq<Event>)
    requires Started(o, s) && s.emitted == "" && s.lines == 0
    ensures Inv(o, Position(s), Run(o, s, events))
  {
    var start := Position(s);
    if events == [] {
      assert s.file[start..start] == "";
    } else {
      var before := events[..|events| - 1];
      var (s1, ev) := (Run(o, s, before), events[|events| - 1]);
      RunKeeps(o, s, before);
      if ev.Append? { AppendKeeps(o, start, s1, ev.text); } else { ReadKeeps(o, start, s1, ev); }
    }
  }

  // Exactly once: over every run of appends and reads, with any failures and
  // any growth in mid-read, what was emitted is the file from the starting
  // cursor to the stored one, no byte twice and none left out; the cursor is
  // just after a delimiter, and the reported lines are the delimiters emitted.
  lemma ExactlyOnce(o: Options, s: State, events: seq<Event>)
    requires Started(o, s) && s.emitted == "" && s.lines == 0
    ensures
      var (start, s') := (Position(s), Run(o, s, events));
      start <= Position(s') <= |s'.file| && s'.emitted == s'.file[start..Position(s')] &&
      (o.delim != NoDelimiter ==>
        s'.lines == Count(o.delim, s'.emitted) &&
        (Position(s') == 0 || EndsAt(o.delim, s'.file, Position(s'))))
  {
    RunKeeps(o, s, events);
  }

  // The next event moves the cursor forward or not at all; a read that fails
  // moves nothing; one that succeeds leaves no complete delimiter unread of
  // what the file held when it began.
  lemma EachEvent(o: Options, s: State, events: seq<Event>, ev: Event)
    requires Started(o, s) && s.emitted == "" && s.lines == 0
    ensures
      var (s1, s2) := (Run(o, s, events), Step(o, Run(o, s, events), ev));
      Position(s1) <= Position(s2) &&
      (ev.ReadFile? && Read(o, s1.stored, EnvOf(s1.file, ev)).result.Failed? ==> s2 == s1.(file := s1.file + ev.grown)) &&
      (ev.ReadFile? && !Read(o, s1.stored, EnvOf(s1.file, ev)).result.Failed? ==>
        if o.delim == NoDelimiter then Position(s2) >= |s1.file|
        else forall i :: Position(s2) < i <= |s1.file| ==> !EndsAt(o.delim, s2.file, i))
  {
    var s1 := Run(o, s, events);
    RunKeeps(o, s, events);
    if ev.ReadFile? {
      ReadKeeps(o, Position(s), s1, ev);
      if !Read(o, s1.stored, EnvOf(s1.file, ev)).result.Failed? && o.delim != NoDelimiter {
        NothingLeft(o, Position(s), s1, ev);
      }
    }
  }

  lemma NothingLeft(o: Options, start: nat, s: State, ev: Event)
    requires Inv(o, start, s) && ev.ReadFile? && o.delim != NoDelimiter
    requires !Read(o, s.stored, EnvOf(s.file, ev)).result.Failed?
    ensures forall i :: Position(Step(o, s, ev)) < i <= |s.file| ==> !EndsAt(o.delim, s.file + ev.grown, i)
  {
    var (c, file) := (Position(s), s.file + ev.grown);
    var (buf, c') := (file[c..], Position(Step(o, s, ev)));
    assert AtBoundary(o, file, c);
    assert c <= |s.file|;
    hide Read, Step, Boundary, Count, Inv, AtBoundary, EnvOf, EndsAt;
    SkipsWhen(o, s, ev);
    StepCases(o, s, ev);
    assert c' >= |s.file| || c' == c + Boundary(o.delim, buf);
    if c' == c + Boundary(o.delim, buf) { NoneBehind(o, file, c); }
  }

  lemma NoneBehind(o: Options, file: string, c: nat)
    requires o.delim != NoDelimiter && AtBoundary(o, file, c)
    ensures forall i :: c + Boundary(o.delim, file[c..]) < i <= |file| ==> !EndsAt(o.delim, file, i)
  {
    forall i | c + Boundary(o.delim, file[c..]) < i <= |file| ensures !EndsAt(o.delim, file, i) {
      Shifted(o, file, c, i);
      BoundaryIsLast(o.delim, file[c..], i - c);
    }
  }

  lemma SkipsWhen(o: Options, s: State, ev: Event)
    requires ev.ReadFile? && (s.stored.Some? || o.fromStart) && Position(s) <= |s.file|
    ensures
      var r := Read(o, s.stored, EnvOf(s.file, ev)).result;
      r.Result? && r.skipped ==> Boundary(o.delim, (s.file + ev.grown)[Position(s)..]) == 0 || Position(s) == |s.file|
  {
  }

  // Past a boundary, delimiters are those of the rest of the file.
  lemma Shifted(o: Options, file: string, c: nat, i: nat)
    requires o.delim != NoDelimiter && AtBoundary(o, file, c) && c < i <= |file|
    ensures EndsAt(o.delim, file, i) <==> EndsAt(o.delim, file[c..], i - c)
  {
  }

  /******* What one read reports *******/

  // Where a read starts: at the cursor, at the beginning of a file that has
  // become shorter, or without a cursor at either end.
  function Begins(o: Options, stored: Option<nat>, size: nat): nat {
    match stored
    case Some(c) => if c > size then 0 else c
    case None => if o.fromStart then 0 else size
  }

  // A read reports the bytes it emits by the place where they end, which is
  // the cursor it leaves stored; only a truncated file without a complete
  // line reports 0 and keeps the old cursor.  It reports a reset exactly when
  // the file is shorter than the cursor, and skips exactly when there is
  // neither data nor a reset.
  lemma ReadReports(o: Options, stored: Option<nat>, e: Env)
    requires e.size <= |e.content| && !Read(o, stored, e).result.Failed?
    ensures
      var (r, now, start) := (Read(o, stored, e).result, Read(o, stored, e).stored, Begins(o, stored, e.size));
      (r.reset <==> stored.Some? && stored.value > e.size) && (r.skipped <==> r.data == "" && !r.reset) &&
      r.position == start + |r.data| <= |e.content| && r.data == e.content[start..r.position] &&
      r.lineCount == (if o.delim == NoDelimiter then 0 else Count(o.delim, r.data)) &&
      (now == Some(r.position) || (now == stored && r.data == "" && (now.Some? ==> r.reset && e.size > 0)))
  {
    var start := Begins(o, stored, e.size);
    var buf := e.content[start..];
    CountToBoundary(o.delim, buf);
    NoCount(o.delim);
    var k := Boundary(o.delim, buf);
    hide Read, Boundary, Count, EndsAt;
    ReadShape(o, stored, e);
    SlicesJoin(e.content, start, start, k);
    NoneBefore(e.content, start, k);
  }

  lemma NoneBefore(content: string, start: nat, k: nat)
    requires start + k <= |content|
    ensures content[start..start] == "" && content[start..start + k] == content[start..][..k]
    ensures content[start..|content|] == content[start..] && start + |content[start..]| == |content|
  {
  }

  lemma ReadShape(o: Options, stored: Option<nat>, e: Env)
    requires e.size <= |e.content| && !Read(o, stored, e).result.Failed?
    ensures
      var (r, now, start) := (Read(o, stored, e).result, Read(o, stored, e).stored, Begins(o, stored, e.size));
      var (buf, k) := (e.content[start..], Boundary(o.delim, e.content[start..]));
      (r.reset <==> stored.Some? && stored.value > e.size) && (r.skipped <==> r.data == "" && !r.reset) &&
      r.position == start + |r.data| &&
      if r.data == "" then r.lineCount == 0 && (now == Some(r.position) || (now == stored && (now.Some? ==> r.reset && e.size > 0)))
      else if o.delim == NoDelimiter then r.data == buf && r.lineCount == 0 && now == Some(r.position)
      else r.data == buf[..k] && r.lineCount == Count(o.delim, buf) && now == Some(r.position)
  {
    hide Boundary, Count, EndsAt;
  }

  lemma NoCount(d: Delimiter)
    ensures Count(d, "") == 0
  {
  }

  // A read fails exactly when a call it makes fails, the delimiter is unknown,
  // or a line without end has reached the limit.
  lemma ReadFailsWhen(o: Options, stored: Option<nat>, e: Env)
    requires e.size <= |e.content|
    ensures
      var start := Begins(o, stored, e.size);
      var rest := e.content[start..];
      var complete := o.delim == NoDelimiter || exists i: nat :: EndsAt(o.delim, rest, i);
      Read(o, stored, e).result.Failed? <==>
        !e.stats || !e.loads ||
        if start == e.size then stored.Some? && stored.value > e.size && !e.saves
        else !e.opens || o.delim == Unknown || if complete then !e.saves else 0 < o.maxLineBytes <= |rest|
  {
    var rest := e.content[Begins(o, stored, e.size)..];
    var k := Boundary(o.delim, rest);
    if k == 0 {
      forall i: nat ensures !EndsAt(o.delim, rest, i) { if 0 < i <= |rest| { BoundaryIsLast(o.delim, rest, i); } }
    } else {
      assert EndsAt(o.delim, rest, k);
    }
    hide Boundary, Count, EndsAt;
  }

  /******* Where the guarantee ends *******/

  // Without fromStart and without a stored cursor, every read starts at the
  // end of the file again: nothing is ever stored or emitted.
  lemma {:induction false} NeverStarts(o: Options, s: State, events: seq<Event>)
    requires !o.fromStart && s.stored == None
    ensures Run(o, s, events).stored == None && Run(o, s, events).emitted == s.emitted
  {
    if events != [] {
      NeverStarts(o, s, events[..|events| - 1]);
      assert s.emitted + "" == s.emitted;
    }
  }

  // After a truncation the new cursor is stored, unless the file holds only a
  // partial first line: then the old cursor stays.
  lemma ResetStoredWhen(o: Options, c: nat, e: Env)
    requires c > e.size && e.size <= |e.content| && !Read(o, Some(c), e).result.Failed?
    ensures
      var out := Read(o, Some(c), e);
      out.result.reset &&
      if e.size > 0 && o.delim != NoDelimiter && Boundary(o.delim, e.content) == 0 then
        out.stored == Some(c) && out.result.data == ""
      else
        out.stored == Some(|out.result.data|) && |out.result.data| <= |e.content| &&
        out.result.data == e.content[..|out.result.data|] && (e.size > 0 ==> out.result.data != "")
  {
    assert e.content[0..] == e.content;
  }

  /******* After a truncation *******/

  // A read that stores a cursor: it emits, or finds a truncated file empty.
  predicate Moves(o: Options, s: State, ev: Event) {
    ev.ReadFile? &&
    var r := Read(o, s.stored, EnvOf(s.file, ev)).result;
    r.Result? && (r.data != "" || (r.reset && |s.file| == 0))
  }

  // The size of the file that the first such read of a run saw.
  function FirstMove(o: Options, s: State, events: seq<Event>): Option<nat> {
    if events == [] then None
    else
      var before := events[..|events| - 1];
      var earlier := FirstMove(o, s, before);
      if earlier.Some? then earlier
      else if Moves(o, Run(o, s, before), events[|events| - 1]) then Some(|Run(o, s, before).file|)
      else None
  }

  // Exactly the bytes from `start` on have been emitted, up to the cursor.
  ghost predicate EmittedFrom(o: Options, start: nat, s: State) {
    s.stored.Some? && start <= Position(s) <= |s.file| && s.emitted == s.file[start..Position(s)]
  }

  // Before the first move nothing has happened; from then on the emissions
  // start at the beginning of the file or at the old cursor.
  ghost predicate Truncated(o: Options, c: nat, s: State, moved: Option<nat>) {
    match moved
    case None => s.stored == Some(c) && s.emitted == ""
    case Some(size) => EmittedFrom(o, if size < c then 0 else c, s)
  }

  // A read below the old cursor starts over.
  lemma MoveFromStart(o: Options, c: nat, s: State, ev: Event)
    requires s.stored == Some(c) && s.emitted == "" && |s.file| < c && Moves(o, s, ev)
    ensures EmittedFrom(o, 0, Step(o, s, ev))
  {
    var file := s.file + ev.grown;
    assert file[0..] == file;
    var out := Read(o, s.stored, EnvOf(s.file, ev));
    assert out.stored == Some(|out.result.data|) && out.result.data == file[..|out.result.data|];
  }

  // A read at or past the old cursor takes it for its own.
  lemma MoveFromCursor(o: Options, c: nat, s: State, ev: Event)
    requires s.stored == Some(c) && s.emitted == "" && c <= |s.file| && c > 0 && Moves(o, s, ev)
    ensures EmittedFrom(o, c, Step(o, s, ev))
  {
    MoveIsNoSkip(o, c, s, ev);
    hide Read, Boundary, Count, Step, Moves;
    StepCases(o, s, ev);
    var file := s.file + ev.grown;
    SlicesJoin(file, c, c, Boundary(o.delim, file[c..]));
    assert file[c..c] == "";
  }

  lemma MoveIsNoSkip(o: Options, c: nat, s: State, ev: Event)
    requires s.stored == Some(c) && c <= |s.file| && Moves(o, s, ev)
    ensures !Read(o, s.stored, EnvOf(s.file, ev)).result.skipped
  {
    hide Boundary, Count;
  }

  lemma StillEmittedFrom(o: Options, start: nat, s: State, ev: Event)
    requires EmittedFrom(o, start, s)
    ensures EmittedFrom(o, start, Step(o, s, ev))
  {
    var c := Position(s);
    match ev
    case Append(text) => assert (s.file + text)[start..c] == s.file[start..c];
    case ReadFile(_, _, _, _, grown) =>
      var file := s.file + grown;
      var k := Boundary(o.delim, file[c..]);
      hide Read, Step, Boundary, Count;
      StepCases(o, s, ev);
      SameStart(s.file, grown, start, c);
      SlicesJoin(file, start, c, k);
  }

  lemma SlicesJoin(file: string, start: nat, c: nat, k: nat)
    requires start <= c && c + k <= |file|
    ensures file[start..c] + file[c..][..k] == file[start..c + k] && file[start..c] + file[c..] == file[start..|file|]
  {
  }

  lemma SameStart(file: string, more: string, start: nat, c: nat)
    requires start <= c <= |file|
    ensures (file + more)[start..c] == file[start..c]
  {
  }

  lemma StillUnmoved(o: Options, c: nat, s: State, ev: Event)
    requires s.stored == Some(c) && s.emitted == "" && c > 0 && !Moves(o, s, ev)
    ensures Step(o, s, ev).stored == Some(c) && Step(o, s, ev).emitted == ""
  {
  }

  lemma {:induction false} RunTruncated(o: Options, c: nat, s: State, events: seq<Event>)
    requires s.stored == Some(c) && |s.file| < c && s.emitted == ""
    ensures Truncated(o, c, Run(o, s, events), FirstMove(o, s, events))
  {
    if events != [] {
      var (before, ev) := (events[..|events| - 1], events[|events| - 1]);
      RunTruncated(o, c, s, before);
      var t := Run(o, s, before);
      hide Step, Moves, EmittedFrom;
      match FirstMove(o, s, before)
      case Some(size) => StillEmittedFrom(o, if size < c then 0 else c, t, ev);
      case None =>
        if !Moves(o, t, ev) {
          StillUnmoved(o, c, t, ev);
        } else if |t.file| < c {
          MoveFromStart(o, c, t, ev);
        } else {
          MoveFromCursor(o, c, t, ev);
        }
    }
  }

  // A file found shorter than the stored cursor c, then any appends and
  // reads, with any failures.  Once a read has moved the cursor, all of the
  // file up to the cursor has been emitted if and only if the first such read
  // saw fewer than c bytes; otherwise the emissions start at c, and the first
  // c bytes never come out.
  lemma TruncationLosesWhen(o: Options, c: nat, s: State, events: seq<Event>)
    requires s.stored == Some(c) && |s.file| < c && s.emitted == ""
    ensures
      var (t, moved) := (Run(o, s, events), FirstMove(o, s, events));
      (moved == None ==> t.stored == Some(c) && t.emitted == "") &&
      (moved.Some? ==>
        Position(t) <= |t.file| &&
        (t.emitted == t.file[..Position(t)] <==> moved.value < c) &&
        (moved.value >= c ==> c <= Position(t) && t.emitted == t.file[c..Position(t)]))
  {
    RunTruncated(o, c, s, events);
    var t := Run(o, s, events);
    if FirstMove(o, s, events).Some? {
      assert t.file[0..Position(t)] == t.file[..Position(t)];
      assert |t.file[..Position(t)]| == Position(t);
    }
  }

  // Such runs exist for every c: a read that finds only a partial line, growth
  // past c, and a read that finds a delimiter there.
  lemma TruncatedFileLosesItsStart(o: Options, c: nat, s: State, more: string)
    requires s.stored == Some(c) && 0 < |s.file| < c && s.emitted == "" && o.delim == Lf && o.maxLineBytes <= 0
    requires Boundary(Lf, s.file) == 0 && c <= |s.file + more| && Boundary(Lf, (s.file + more)[c..]) > 0
    ensures
      var read := ReadFile(true, true, true, true, "");
      var t := Run(o, s, [read, Append(more), read]);
      c < Position(t) <= |t.file| && t.file == s.file + more && t.emitted == t.file[c..Position(t)]
  {
    var read := ReadFile(true, true, true, true, "");
    AppendStep(o, s, more);
    hide *;
    ThreeEvents(o, s, read, Append(more), read);
    PartialReadStays(o, c, s, read);
    LateRead(o, c, s.(file := s.file + more), read);
  }

  lemma AppendStep(o: Options, s: State, more: string)
    ensures Step(o, s, Append(more)) == s.(file := s.file + more)
  {
  }

  lemma LateRead(o: Options, c: nat, u: State, read: Event)
    requires u.stored == Some(c) && u.emitted == "" && o.delim == Lf && read == ReadFile(true, true, true, true, "")
    requires c <= |u.file| && Boundary(Lf, u.file[c..]) > 0
    ensures
      var (t, k) := (Step(o, u, read), Boundary(Lf, u.file[c..]));
      t.file == u.file && t.stored == Some(c + k) && Position(t) == c + k <= |t.file| && t.emitted == t.file[c..Position(t)]
  {
    var k := Boundary(Lf, u.file[c..]);
    assert u.file + "" == u.file;
    LateReadEmits(o, c, u, read);
    hide Boundary, Read, Step, Count;
    StepCases(o, u, read);
    assert u.file[c..c + k] == u.file[c..][..k];
  }

  lemma LateReadEmits(o: Options, c: nat, u: State, read: Event)
    requires u.stored == Some(c) && o.delim == Lf && read == ReadFile(true, true, true, true, "")
    requires u.file + "" == u.file && c <= |u.file| && Boundary(Lf, u.file[c..]) > 0
    ensures var r := Read(o, u.stored, EnvOf(u.file, read)).result; r.Result? && !r.skipped
  {
    hide Boundary, Count;
  }

  lemma PartialReadStays(o: Options, c: nat, s: State, read: Event)
    requires s.stored == Some(c) && 0 < |s.file| < c && s.emitted == "" && o.delim == Lf && o.maxLineBytes <= 0
    requires Boundary(Lf, s.file) == 0 && read == ReadFile(true, true, true, true, "")
    ensures Step(o, s, read) == s
  {
    assert s.file + "" == s.file && s.file[0..] == s.file && s.emitted + "" == s.emitted;
  }

  lemma ThreeEvents(o: Options, s: State, a: Event, b: Event, c: Event)
    ensures Run(o, s, [a, b, c]) == Step(o, Step(o, Step(o, s, a), b), c)
  {
    hide Step;
    assert [a, b, c][..2] == [a, b] && [a, b][..1] == [a] && [a][..0] == [];
    assert Run(o, s, [a]) == Step(o, s, a);
    assert Run(o, s, [a, b]) == Step(o, Step(o, s, a), b);
  }
}
