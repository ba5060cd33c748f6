/**
 The state machine node: the engine's transitions and, around it, the delay
 timers and the bounded history of the node.

 Guards and actions are arbitrary functions of a name, the machine context and
 the event; both may change the context.  Which delay keys denote a duration is
 arbitrary too.  A message or the firing of a timer is one step under the
 node's mutex.
 */
module StateMachines {
  import opened JsonValues

  type Context = Fields

  datatype TransitionDef = TransitionDef(target: string, guard: string, actions: seq<string>)

  // The forms of a transition in the JSON definition.
  datatype Raw = Short(target: string) | Many(defs: seq<TransitionDef>) | One(def: TransitionDef) | Malformed

  datatype StateDef = StateDef(on: map<string, Raw>, after: map<string, Raw>, onEntry: seq<string>, onExit: seq<string>)

  datatype MachineDef = MachineDef(initial: string, context: Context, states: map<string, StateDef>)

  datatype Verdict = Verdict(pass: bool, ctx: Context)

  datatype Machine = Machine(def: MachineDef,
                             guard: (string, Context, Context) -> Verdict,
                             action: (string, Context, Context) -> Context,
                             delayOk: string -> bool)

  datatype Result = Result(from: string, to: string, event: string, context: Context, changed: bool)

  /******* parseTransitions, Validate *******/

  function ParseTransitions(raw: Raw): Option<seq<TransitionDef>> {
    match raw
    case Short(target) => Some([TransitionDef(target, "", [])])
    case Many(defs) => if defs == [] || exists i :: 0 <= i < |defs| && defs[i].target == "" then None else Some(defs)
    case One(def) => if def.target == "" then None else Some([def])
    case Malformed => None
  }

  predicate RawOk(def: MachineDef, raw: Raw) {
    var c := ParseTransitions(raw);
    c.Some? && forall i :: 0 <= i < |c.value| ==> c.value[i].target in def.states
  }

  predicate TableOk(def: MachineDef, table: map<string, Raw>) {
    forall k :: k in table ==> RawOk(def, table[k])
  }

  predicate Valid(def: MachineDef) {
    def.initial in def.states &&
    forall name :: name in def.states ==> TableOk(def, def.states[name].on) && TableOk(def, def.states[name].after)
  }

  method ValidateTable(def: MachineDef, table: map<string, Raw>) returns (ok: bool)
    ensures ok <==> TableOk(def, table)
  {
    var todo := table.Keys;
    while todo != {}
      invariant todo <= table.Keys && forall k :: k in table && k !in todo ==> RawOk(def, table[k])
      decreases todo
    {
      var k :| k in todo;
      var candidates := ParseTransitions(table[k]);
      if candidates.None? {
        return false;
      }
      for i := 0 to |candidates.value|
        invariant forall j :: 0 <= j < i ==> candidates.value[j].target in def.states
      {
        if candidates.value[i].target !in def.states {
          assert !RawOk(def, table[k]);
          return false;
        }
      }
      todo := todo - {k};
    }
    return true;
  }

  method Validate(def: MachineDef) returns (ok: bool)
    ensures ok <==> Valid(def)
  {
    if def.initial !in def.states {
      return false;
    }
    var todo := def.states.Keys;
    while todo != {}
      invariant todo <= def.states.Keys
      invariant forall n :: n in def.states && n !in todo ==> TableOk(def, def.states[n].on) && TableOk(def, def.states[n].after)
      decreases todo
    {
      var name :| name in todo;
      var on := ValidateTable(def, def.states[name].on);
      if !on {
        return false;
      }
      var after := ValidateTable(def, def.states[name].after);
      if !after {
        return false;
      }
      todo := todo - {name};
    }
    return true;
  }

  /******* Send, SendAfter *******/

  // The actions named, in order.
  function Acts(m: Machine, names: seq<string>, ctx: Context, event: Context): Context {
    if names == [] then ctx else Acts(m, names[1..], m.action(names[0], ctx, event), event)
  }

  datatype Choice = Choice(taken: Option<TransitionDef>, ctx: Context)

  // The first candidate that has no guard or whose guard passes.
  function Choose(m: Machine, candidates: seq<TransitionDef>, ctx: Context, event: Context): Choice
    decreases candidates
  {
    if candidates == [] then Choice(None, ctx)
    else if candidates[0].guard == "" then Choice(Some(candidates[0]), ctx)
    else
      var v := m.guard(candidates[0].guard, ctx, event);
      if v.pass then Choice(Some(candidates[0]), v.ctx) else Choose(m, candidates[1..], v.ctx, event)
  }

  datatype Engine = Engine(current: string, context: Context)

  datatype Sent = Sent(engine: Engine, result: Option<Result>)

  // executeTransition: exit actions, transition actions, the move, entry actions.
  function Execute(m: Machine, e: Engine, td: TransitionDef, name: string, event: Context): Sent {
    if td.target !in m.def.states then Sent(e, None)
    else
      var c1 := if e.current in m.def.states then Acts(m, m.def.states[e.current].onExit, e.context, event) else e.context;
      var c2 := Acts(m, td.actions, c1, event);
      var c3 := Acts(m, m.def.states[td.target].onEntry, c2, event);
      Sent(Engine(td.target, c3), Some(Result(e.current, td.target, name, c3, e.current != td.target)))
  }

  function Send(m: Machine, e: Engine, name: string, data: Context): Sent {
    var event := data["type" := Str(name)];
    if e.current !in m.def.states || name !in m.def.states[e.current].on then Sent(e, None)
    else
      var candidates := ParseTransitions(m.def.states[e.current].on[name]);
      if candidates.None? then Sent(e, None)
      else
        var choice := Choose(m, candidates.value, e.context, event);
        match choice.taken
        case Some(td) => Execute(m, e.(context := choice.ctx), td, name, event)
        case None => Sent(e.(context := choice.ctx), Some(Result(e.current, e.current, name, choice.ctx, false)))
  }

  function AfterName(key: string): string {
    "__AFTER_" + key
  }

  function SendAfter(m: Machine, e: Engine, key: string): Sent {
    var event := map["type" := Str(AfterName(key))];
    if e.current !in m.def.states || key !in m.def.states[e.current].after then Sent(e, None)
    else
      var candidates := ParseTransitions(m.def.states[e.current].after[key]);
      if candidates.None? || candidates.value == [] then Sent(e, None)
      else
        var choice := Choose(m, candidates.value, e.context, event);
        match choice.taken
        case Some(td) => Execute(m, e.(context := choice.ctx), td, AfterName(key), event)
        case None => Sent(e.(context := choice.ctx), None)
  }

  // The keys ActiveDelays and ParseDelayMs let through.
  function DelayKeys(m: Machine, state: string): set<string> {
    if state !in m.def.states then {}
    else
      var after := m.def.states[state].after;
      set k | k in after && ParseTransitions(after[k]).Some? && m.delayOk(k)
  }

  class SMEngine {
    const m: Machine
    var current: string
    var context: Context

    constructor (m: Machine)
      ensures this.m == m && State() == Engine(m.def.initial, m.def.context)
    {
      this.m := m;
      current := m.def.initial;
      context := m.def.context;
    }

    function State(): Engine
      reads this
    {
      Engine(current, context)
    }

    method RunActions(names: seq<string>, event: Context)
      modifies this`context
      ensures context == Acts(m, names, old(context), event)
    {
      for i := 0 to |names|
        invariant Acts(m, names[i..], context, event) == Acts(m, names, old(context), event)
      {
        assert names[i..][1..] == names[i + 1..];
        context := m.action(names[i], context, event);
      }
    }

    method ExecuteTransition(td: TransitionDef, name: string, event: Context) returns (r: Option<Result>)
      modifies this
      ensures Sent(State(), r) == Execute(m, old(State()), td, name, event)
    {
      if td.target !in m.def.states {
        return None;
      }
      var from := current;
      if from in m.def.states {
        RunActions(m.def.states[from].onExit, event);
      }
      RunActions(td.actions, event);
      current := td.target;
      RunActions(m.def.states[td.target].onEntry, event);
      return Some(Result(from, td.target, name, context, from != td.target));
    }

    // The candidate loop both kinds of event share.
    method FirstMatch(candidates: seq<TransitionDef>, event: Context) returns (taken: Option<TransitionDef>)
      modifies this`context
      ensures Choice(taken, context) == Choose(m, candidates, old(context), event)
    {
      for i := 0 to |candidates|
        invariant Choose(m, candidates[i..], context, event) == Choose(m, candidates, old(context), event)
      {
        assert candidates[i..][1..] == candidates[i + 1..];
        if candidates[i].guard == "" {
          return Some(candidates[i]);
        }
        var v := m.guard(candidates[i].guard, context, event);
        context := v.ctx;
        if v.pass {
          return Some(candidates[i]);
        }
      }
      return None;
    }

    method SendEvent(name: string, data: Context) returns (r: Option<Result>)
      modifies this
      ensures Sent(State(), r) == Send(m, old(State()), name, data)
    {
      if current !in m.def.states {
        return None;
      }
      var event := data["type" := Str(name)];
      if name !in m.def.states[current].on {
        return None;
      }
      var candidates := ParseTransitions(m.def.states[current].on[name]);
      if candidates.None? {
        return None;
      }
      var taken := FirstMatch(candidates.value, event);
      if taken.Some? {
        r := ExecuteTransition(taken.value, name, event);
        return;
      }
      return Some(Result(current, current, name, context, false));
    }

    method SendDelayed(key: string) returns (r: Option<Result>)
      modifies this
      ensures Sent(State(), r) == SendAfter(m, old(State()), key)
    {
      if current !in m.def.states {
        return None;
      }
      if key !in m.def.states[current].after {
        return None;
      }
      var candidates := ParseTransitions(m.def.states[current].after[key]);
      if candidates.None? || |candidates.value| == 0 {
        return None;
      }
      var event := map["type" := Str(AfterName(key))];
      var taken := FirstMatch(candidates.value, event);
      if taken.Some? {
        r := ExecuteTransition(taken.value, AfterName(key), event);
        return;
      }
      return None;
    }
  }

  /******* The node *******/

  const HISTORY_CAP: nat := 20

  datatype Change = Change(from: string, to: string, event: string)

  // `timers`: the keys of the timer map.
  datatype Node = Node(engine: Engine, timers: set<string>, history: seq<Change>)

  datatype Saved = Saved(current: Option<string>, context: Option<Context>)

  // What restoreState makes of a persisted value.
  function Restored(m: Machine, e: Engine, saved: Option<Saved>): Engine {
    match saved
    case None => e
    case Some(s) =>
      Engine(if s.current.Some? && s.current.value in m.def.states then s.current.value else e.current,
             if s.context.Some? then s.context.value else e.context)
  }

  function Started(m: Machine, saved: Option<Saved>): Node {
    var e := Restored(m, Engine(m.def.initial, m.def.context), saved);
    Node(e, DelayKeys(m, e.current), [])
  }

  function Recorded(history: seq<Change>, r: Result): seq<Change> {
    if !r.changed then history
    else (if |history| >= HISTORY_CAP then history[1..] else history) + [Change(r.from, r.to, r.event)]
  }

  datatype Event = Message(topic: string, data: Context) | Timer(key: string)

  function Delivered(m: Machine, e: Engine, ev: Event): Sent {
    match ev
    case Message(topic, data) => if topic == "" then Sent(e, None) else Send(m, e, topic, data)
    case Timer(key) => SendAfter(m, e, key)
  }

  // HandleMessage and handleAfterTimer: timers and history follow real changes.
  function Step(m: Machine, n: Node, ev: Event): Node {
    var sent := Delivered(m, n.engine, ev);
    if sent.result.None? || !sent.result.value.changed then n.(engine := sent.engine)
    else Node(sent.engine, DelayKeys(m, sent.engine.current), Recorded(n.history, sent.result.value))
  }

  class StateMachineNode {
    const m: Machine
    const engine: SMEngine
    var timers: set<string>
    var history: seq<Change>

    ghost predicate Wired()
      reads this
    {
      engine.m == m
    }

    ghost function State(): Node
      reads this, engine
    {
      Node(engine.State(), timers, history)
    }

    // Start, for a definition that has passed Validate.
    constructor (m: Machine, saved: Option<Saved>)
      ensures Wired() && this.m == m && fresh(engine) && State() == Started(m, saved)
    {
      this.m := m;
      engine := new SMEngine(m);
      timers := {};
      history := [];
      new;
      RestoreState(saved);
      StartDelayTimers();
    }

    method RestoreState(saved: Option<Saved>)
      requires Wired()
      modifies engine
      ensures engine.State() == Restored(m, old(engine.State()), saved)
    {
      if saved.None? {
        return;
      }
      if saved.value.current.Some? {
        if saved.value.current.value in m.def.states {
          engine.current := saved.value.current.value;
        }
      }
      if saved.value.context.Some? {
        engine.context := saved.value.context.value;
      }
    }

    method CancelDelayTimers()
      modifies this`timers
      ensures timers == {}
    {
      while timers != {}
        decreases timers
      {
        var k :| k in timers;
        timers := timers - {k};
      }
    }

    method StartDelayTimers()
      requires Wired()
      modifies this`timers
      ensures timers == old(timers) + DelayKeys(m, engine.current)
    {
      if engine.current !in m.def.states {
        return;
      }
      var after := m.def.states[engine.current].after;
      var todo := after.Keys;
      while todo != {}
        invariant todo <= after.Keys && timers == old(timers) + (DelayKeys(m, engine.current) - todo)
        decreases todo
      {
        var k :| k in todo;
        if ParseTransitions(after[k]).Some? && m.delayOk(k) {
          timers := timers + {k};
        }
        todo := todo - {k};
      }
    }

    method RecordTransition(r: Result)
      modifies this`history
      ensures history == Recorded(old(history), r)
    {
      if !r.changed {
        return;
      }
      if |history| >= HISTORY_CAP {
        history := history[1..];
      }
      history := history + [Change(r.from, r.to, r.event)];
    }

    method HandleMessage(topic: string, data: Context) returns (r: Option<Result>)
      requires Wired()
      modifies this, engine
      ensures State() == Step(m, old(State()), Message(topic, data)) && Wired()
      ensures r == Delivered(m, old(engine.State()), Message(topic, data)).result
    {
      if topic == "" {
        return None;
      }
      r := engine.SendEvent(topic, data);
      if r.None? {
        return;
      }
      if r.value.changed {
        CancelDelayTimers();
        StartDelayTimers();
        RecordTransition(r.value);
      }
    }

    method HandleAfterTimer(key: string) returns (r: Option<Result>)
      requires Wired()
      modifies this, engine
      ensures State() == Step(m, old(State()), Timer(key)) && Wired()
    {
      r := engine.SendDelayed(key);
      if r.None? || !r.value.changed {
        return;
      }
      RecordTransition(r.value);
      CancelDelayTimers();
      StartDelayTimers();
    }
  }

  /******* Runs *******/

  function Run(m: Machine, n: Node, events: seq<Event>): Node {
    if events == [] then n else Step(m, Run(m, n, events[..|events| - 1]), events[|events| - 1])
  }

  function Named(ev: Event): string {
    if ev.Message? then ev.topic else AfterName(ev.key)
  }

  // All real state changes of a run, as seen from outside the engine.
  function Changes(m: Machine, n: Node, events: seq<Event>): seq<Change> {
    if events == [] then []
    else
      var before := events[..|events| - 1];
      var (was, now) := (Run(m, n, before).engine.current, Run(m, n, events).engine.current);
      Changes(m, n, before) + if was != now then [Change(was, now, Named(events[|events| - 1]))] else []
  }

  function Last(changes: seq<Change>, cap: nat): seq<Change> {
    if |changes| <= cap then changes else changes[|changes| - cap..]
  }

  // Every change starts where the one before it ended.
  predicate Chained(changes: seq<Change>) {
    forall i :: 0 < i < |changes| ==> changes[i - 1].to == changes[i].from
  }

  // The engine reports a change exactly when the state changed, and names it.
  lemma ReportsChange(m: Machine, e: Engine, ev: Event)
    requires e.current in m.def.states
    ensures
      var sent := Delivered(m, e, ev);
      sent.engine.current in m.def.states &&
      (sent.engine.current != e.current <==> sent.result.Some? && sent.result.value.changed) &&
      (sent.result.Some? ==> sent.result.value.from == e.current && sent.result.value.to == sent.engine.current &&
                             sent.result.value.event == Named(ev))
  {
  }

  lemma RecordedIsLast(all: seq<Change>, r: Result)
    requires r.changed
    ensures Recorded(Last(all, HISTORY_CAP), r) == Last(all + [Change(r.from, r.to, r.event)], HISTORY_CAP)
  {
  }

  ghost predicate Inv(m: Machine, start: string, n: Node, all: seq<Change>) {
    n.engine.current in m.def.states && n.timers == DelayKeys(m, n.engine.current) &&
    n.history == Last(all, HISTORY_CAP) && Chained(all) &&
    if all == [] then n.engine.current == start
    else all[0].from == start && all[|all| - 1].to == n.engine.current
  }

  lemma StepKeeps(m: Machine, start: string, n: Node, all: seq<Change>, ev: Event)
    requires Inv(m, start, n, all)
    ensures
      var (was, now) := (n.engine.current, Step(m, n, ev).engine.current);
      Inv(m, start, Step(m, n, ev), all + if was != now then [Change(was, now, Named(ev))] else [])
  {
    ReportsChange(m, n.engine, ev);
    var sent := Delivered(m, n.engine, ev);
    hide Delivered;
    if sent.engine.current != n.engine.current {
      RecordedIsLast(all, sent.result.value);
    } else {
      assert all + [] == all;
    }
  }

  lemma {:induction false} RunKeeps(m: Machine, n: Node, events: seq<Event>)
    requires n.engine.current in m.def.states && n.timers == DelayKeys(m, n.engine.current) && n.history == []
    ensures Inv(m, n.engine.current, Run(m, n, events), Changes(m, n, events))
  {
    if events != [] {
      var before := events[..|events| - 1];
      RunKeeps(m, n, before);
      StepKeeps(m, n.engine.current, Run(m, n, before), Changes(m, n, before), events[|events| - 1]);
    }
  }

  // Over every run of messages and timer firings from Start, whatever was
  // persisted: the state is declared, the timers are those of the state, and
  // the history is the last twenty of all changes, which form one chain from
  // the starting state to the current one.
  lemma RunsStayWellFormed(m: Machine, saved: Option<Saved>, events: seq<Event>)
    requires Valid(m.def)
    ensures
      var (n0, n, all) := (Started(m, saved), Run(m, Started(m, saved), events), Changes(m, Started(m, saved), events));
      n.engine.current in m.def.states && n.timers == DelayKeys(m, n.engine.current) &&
      n.history == Last(all, HISTORY_CAP) && Chained(all) &&
      (if all == [] then n.engine.current == n0.engine.current
       else all[0].from == n0.engine.current && all[|all| - 1].to == n.engine.current)
  {
    RunKeeps(m, Started(m, saved), events);
  }

  // In a valid machine the timers are all delay keys that denote a duration.
  lemma ValidDelayKeys(m: Machine, state: string)
    requires Valid(m.def) && state in m.def.states
    ensures DelayKeys(m, state) == set k | k in m.def.states[state].after && m.delayOk(k)
  {
    var after := m.def.states[state].after;
    forall k | k in after ensures ParseTransitions(after[k]).Some? { assert RawOk(m.def, after[k]); }
  }

  /******* One transition *******/

  lemma {:induction false} ActsInTurn(m: Machine, a: seq<string>, b: seq<string>, ctx: Context, event: Context)
    ensures Acts(m, a + b, ctx, event) == Acts(m, b, Acts(m, a, ctx, event), event)
    decreases a
  {
    if a == [] {
      assert a + b == b;
    } else {
      assert (a + b)[1..] == a[1..] + b && (a + b)[0] == a[0];
      ActsInTurn(m, a[1..], b, m.action(a[0], ctx, event), event);
    }
  }

  // A transition runs the exit, transition and entry actions as one list.
  lemma ActionsInOrder(m: Machine, e: Engine, td: TransitionDef, name: string, event: Context)
    requires e.current in m.def.states && td.target in m.def.states
    ensures
      Execute(m, e, td, name, event).engine ==
      Engine(td.target, Acts(m, m.def.states[e.current].onExit + td.actions + m.def.states[td.target].onEntry, e.context, event))
  {
    var (x, y) := (m.def.states[e.current].onExit, m.def.states[td.target].onEntry);
    ActsInTurn(m, x + td.actions, y, e.context, event);
    ActsInTurn(m, x, td.actions, e.context, event);
  }

  ghost predicate Blocked(m: Machine, td: TransitionDef, ctx: Context, event: Context) {
    td.guard != "" && !m.guard(td.guard, ctx, event).pass
  }

  // The context after these guards have been evaluated in turn.
  function Threaded(m: Machine, candidates: seq<TransitionDef>, ctx: Context, event: Context): Context
    decreases candidates
  {
    if candidates == [] then ctx else Threaded(m, candidates[1..], m.guard(candidates[0].guard, ctx, event).ctx, event)
  }

  // Each candidate is blocked in the context its predecessors' guards leave.
  ghost predicate AllBlocked(m: Machine, candidates: seq<TransitionDef>, ctx: Context, event: Context) {
    forall i :: 0 <= i < |candidates| ==> Blocked(m, candidates[i], Threaded(m, candidates[..i], ctx, event), event)
  }

  // The first candidate, i, that is not.
  ghost predicate FirstOpen(m: Machine, candidates: seq<TransitionDef>, i: int, ctx: Context, event: Context) {
    0 <= i < |candidates| && AllBlocked(m, candidates[..i], ctx, event) &&
    !Blocked(m, candidates[i], Threaded(m, candidates[..i], ctx, event), event)
  }

  lemma BlockedFirst(m: Machine, first: TransitionDef, rest: seq<TransitionDef>, ctx: Context, event: Context)
    requires Blocked(m, first, ctx, event)
    ensures AllBlocked(m, [first] + rest, ctx, event) <==> AllBlocked(m, rest, m.guard(first.guard, ctx, event).ctx, event)
    ensures forall i :: 0 <= i <= |rest| ==>
      Threaded(m, ([first] + rest)[..i + 1], ctx, event) == Threaded(m, rest[..i], m.guard(first.guard, ctx, event).ctx, event)
  {
    var (all, ctx') := ([first] + rest, m.guard(first.guard, ctx, event).ctx);
    forall i | 0 <= i <= |rest| ensures Threaded(m, all[..i + 1], ctx, event) == Threaded(m, rest[..i], ctx', event) {
      assert all[..i + 1][1..] == rest[..i] && all[..i + 1][0] == first;
    }
    assert all[..0] == [];
    if AllBlocked(m, rest, ctx', event) {
      forall i | 0 <= i < |all| ensures Blocked(m, all[i], Threaded(m, all[..i], ctx, event), event) {
        if i > 0 {
          assert Blocked(m, rest[i - 1], Threaded(m, rest[..i - 1], ctx', event), event);
          assert Threaded(m, all[..i - 1 + 1], ctx, event) == Threaded(m, rest[..i - 1], ctx', event);
        }
      }
    }
    if AllBlocked(m, all, ctx, event) {
      forall i | 0 <= i < |rest| ensures Blocked(m, rest[i], Threaded(m, rest[..i], ctx', event), event) {
        assert Blocked(m, all[i + 1], Threaded(m, all[..i + 1], ctx, event), event);
      }
    }
  }

  // The transition taken is the first that is not blocked, each guard seeing
  // the context the guards before it left; none is taken exactly when all are
  // blocked.
  lemma {:induction false} FirstMatchWins(m: Machine, candidates: seq<TransitionDef>, ctx: Context, event: Context)
    ensures
      var c := Choose(m, candidates, ctx, event);
      (c.taken == None <==> AllBlocked(m, candidates, ctx, event)) &&
      (c.taken == None ==> c.ctx == Threaded(m, candidates, ctx, event)) &&
      (c.taken.Some? ==> exists i :: FirstOpen(m, candidates, i, ctx, event) && candidates[i] == c.taken.value)
    decreases candidates
  {
    if candidates != [] {
      var (first, rest) := (candidates[0], candidates[1..]);
      assert candidates == [first] + rest;
      if !Blocked(m, first, ctx, event) {
        OpenFirst(m, candidates, ctx, event);
      } else {
        var ctx' := m.guard(first.guard, ctx, event).ctx;
        FirstMatchWins(m, rest, ctx', event);
        BlockedFirst(m, first, rest, ctx, event);
        var c := Choose(m, rest, ctx', event);
        assert Choose(m, candidates, ctx, event) == c;
        if c.taken.Some? {
          var i :| FirstOpen(m, rest, i, ctx', event) && rest[i] == c.taken.value;
          BlockedFirst(m, first, rest[..i], ctx, event);
          assert candidates[..i + 1] == [first] + rest[..i] && candidates[i + 1] == rest[i];
          assert FirstOpen(m, candidates, i + 1, ctx, event);
        }
      }
    }
  }

  lemma OpenFirst(m: Machine, candidates: seq<TransitionDef>, ctx: Context, event: Context)
    requires candidates != [] && !Blocked(m, candidates[0], ctx, event)
    ensures FirstOpen(m, candidates, 0, ctx, event) && !AllBlocked(m, candidates, ctx, event)
  {
    assert candidates[..0] == [];
  }

  /******* One event *******/

  // The transitions an entry of a state's table stands for: a bare name is an
  // unguarded transition without actions; nothing for an entry that does not
  // parse.
  ghost predicate Means(raw: Raw, cs: seq<TransitionDef>) {
    match raw
    case Short(target) => cs == [TransitionDef(target, "", [])]
    case One(def) => def.target != "" && cs == [def]
    case Many(defs) => cs == defs && defs != [] && forall i :: 0 <= i < |defs| ==> defs[i].target != ""
    case Malformed => false
  }

  lemma MeansParsed(raw: Raw, cs: seq<TransitionDef>)
    ensures Means(raw, cs) <==> ParseTransitions(raw) == Some(cs)
  {
  }

  // The context in which candidate i runs: the guards before it and its own
  // have been evaluated.
  function Entered(m: Machine, candidates: seq<TransitionDef>, i: nat, ctx: Context, event: Context): Context
    requires i < |candidates|
  {
    var c := Threaded(m, candidates[..i], ctx, event);
    if candidates[i].guard == "" then c else m.guard(candidates[i].guard, c, event).ctx
  }

  lemma {:induction false} FirstOpenChosen(m: Machine, candidates: seq<TransitionDef>, i: nat, ctx: Context, event: Context)
    requires FirstOpen(m, candidates, i, ctx, event)
    ensures Choose(m, candidates, ctx, event) == Choice(Some(candidates[i]), Entered(m, candidates, i, ctx, event))
    decreases candidates
  {
    var (first, rest) := (candidates[0], candidates[1..]);
    if i == 0 {
      assert candidates[..0] == [];
    } else {
      assert candidates == [first] + rest && candidates[..i] == [first] + rest[..i - 1];
      assert Blocked(m, candidates[..i][0], Threaded(m, candidates[..i][..0], ctx, event), event);
      BlockedFirst(m, first, rest[..i - 1], ctx, event);
      assert ([first] + rest[..i - 1])[..i - 1 + 1] == [first] + rest[..i - 1] && rest[..i - 1][..i - 1] == rest[..i - 1];
      FirstOpenChosen(m, rest, i - 1, m.guard(first.guard, ctx, event).ctx, event);
    }
  }

  // How an event ends, given the transitions it offers: the first open one is
  // taken, with the exit, transition and entry actions run in that order on
  // the context the guards left; a target that is not declared is refused;
  // with all blocked the machine stays, with what the guards did to the
  // context, and reports `blocked`.
  ghost predicate Ends(m: Machine, e: Engine, cs: seq<TransitionDef>, name: string, event: Context, sent: Sent, blocked: bool)
    requires e.current in m.def.states
  {
    (forall i: nat :: FirstOpen(m, cs, i, e.context, event) ==>
      var (td, ctx) := (cs[i], Entered(m, cs, i, e.context, event));
      if td.target in m.def.states then
        var after := Acts(m, m.def.states[e.current].onExit + td.actions + m.def.states[td.target].onEntry, ctx, event);
        sent == Sent(Engine(td.target, after), Some(Result(e.current, td.target, name, after, e.current != td.target)))
      else sent == Sent(Engine(e.current, ctx), None)) &&
    (AllBlocked(m, cs, e.context, event) ==>
      var ctx := Threaded(m, cs, e.context, event);
      sent == Sent(Engine(e.current, ctx), if blocked then Some(Result(e.current, e.current, name, ctx, false)) else None)) &&
    (AllBlocked(m, cs, e.context, event) || exists i: nat :: FirstOpen(m, cs, i, e.context, event))
  }

  lemma Ending(m: Machine, e: Engine, cs: seq<TransitionDef>, name: string, event: Context, sent: Sent, blocked: bool)
    requires e.current in m.def.states
    requires
      var choice := Choose(m, cs, e.context, event);
      sent == match choice.taken
              case Some(td) => Execute(m, e.(context := choice.ctx), td, name, event)
              case None => Sent(e.(context := choice.ctx), if blocked then Some(Result(e.current, e.current, name, choice.ctx, false)) else None)
    ensures Ends(m, e, cs, name, event, sent, blocked)
  {
    FirstMatchWins(m, cs, e.context, event);
    hide Choose, AllBlocked, Threaded, Execute;
    forall i: nat | FirstOpen(m, cs, i, e.context, event)
      ensures
        var (td, ctx) := (cs[i], Entered(m, cs, i, e.context, event));
        if td.target in m.def.states then
          var after := Acts(m, m.def.states[e.current].onExit + td.actions + m.def.states[td.target].onEntry, ctx, event);
          sent == Sent(Engine(td.target, after), Some(Result(e.current, td.target, name, after, e.current != td.target)))
        else sent == Sent(Engine(e.current, ctx), None)
    {
      FirstOpenChosen(m, cs, i, e.context, event);
      Executed(m, e.(context := Entered(m, cs, i, e.context, event)), cs[i], name, event);
    }
    if Choose(m, cs, e.context, event).taken.Some? {
      var i :| FirstOpen(m, cs, i, e.context, event);
      var n: nat := i;
      assert FirstOpen(m, cs, n, e.context, event);
    }
  }

  lemma Executed(m: Machine, e: Engine, td: TransitionDef, name: string, event: Context)
    requires e.current in m.def.states
    ensures
      Execute(m, e, td, name, event) ==
      if td.target in m.def.states then
        var after := Acts(m, m.def.states[e.current].onExit + td.actions + m.def.states[td.target].onEntry, e.context, event);
        Sent(Engine(td.target, after), Some(Result(e.current, td.target, name, after, e.current != td.target)))
      else Sent(e, None)
  {
    if td.target in m.def.states { ActionsInOrder(m, e, td, name, event); }
  }

  // Send, from the definition alone: the event's transitions are those its
  // entry stands for, and without any nothing happens.
  lemma SendExactly(m: Machine, e: Engine, name: string, data: Context, cs: seq<TransitionDef>)
    requires e.current in m.def.states
    ensures
      var (on, sent) := (m.def.states[e.current].on, Send(m, e, name, data));
      (name in on && Means(on[name], cs) ==> Ends(m, e, cs, name, data["type" := Str(name)], sent, true)) &&
      (name !in on || (forall ds :: !Means(on[name], ds)) ==> sent == Sent(e, None))
  {
    var on := m.def.states[e.current].on;
    if name in on {
      var parsed := ParseTransitions(on[name]);
      MeansParsed(on[name], cs);
      if parsed.Some? { MeansParsed(on[name], parsed.value); }
      hide Ends, Choose, Execute, ParseTransitions, Means;
      if Means(on[name], cs) {
        Ending(m, e, cs, name, data["type" := Str(name)], Send(m, e, name, data), true);
      }
    }
  }

  // The same for a delayed transition, except that one with all transitions
  // blocked reports nothing.
  lemma SendAfterExactly(m: Machine, e: Engine, key: string, cs: seq<TransitionDef>)
    requires e.current in m.def.states
    ensures
      var (after, sent, name) := (m.def.states[e.current].after, SendAfter(m, e, key), "__AFTER_" + key);
      (key in after && Means(after[key], cs) ==> Ends(m, e, cs, name, map["type" := Str(name)], sent, false)) &&
      (key !in after || (forall ds :: !Means(after[key], ds)) ==> sent == Sent(e, None))
  {
    var after := m.def.states[e.current].after;
    if key in after {
      var parsed := ParseTransitions(after[key]);
      MeansParsed(after[key], cs);
      if parsed.Some? { MeansParsed(after[key], parsed.value); }
      if Means(after[key], cs) {
        assert cs != [];
        hide Ends, Choose, Execute, ParseTransitions, Means;
        Ending(m, e, cs, AfterName(key), map["type" := Str(AfterName(key))], SendAfter(m, e, key), false);
      }
    }
  }

  // What persistState writes.
  function Persisted(e: Engine): Saved {
    Saved(Some(e.current), Some(e.context))
  }

  // A node that persisted its state after a run and is started again goes on
  // in that state and context, with that state's timers; if the definition
  // no longer has the state it starts at the initial one with the context.
  lemma RestartContinues(m: Machine, saved: Option<Saved>, events: seq<Event>, later: Machine)
    requires Valid(m.def)
    ensures
      var e := Run(m, Started(m, saved), events).engine;
      Started(m, Some(Persisted(e))) == Node(e, Run(m, Started(m, saved), events).timers, []) &&
      Started(later, Some(Persisted(e))).engine ==
        Engine(if e.current in later.def.states then e.current else later.def.initial, e.context)
  {
    RunKeeps(m, Started(m, saved), events);
  }
}
