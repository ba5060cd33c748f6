/**
 The channels of the running nodes, as a state machine over atomic steps.

 Node loops, background goroutines, link sends and manual triggers enqueue
 messages while the engine tears nodes down or brings new ones up.  As in Go,
 a send on a closed channel and a second close of a channel panic; nothing in
 the step relation prevents either, the theorem does.

 One step is: a target lookup plus its enqueue, one channel close, one map
 update of the engine.  Instances are assumed to have ended their own
 goroutines when their Stop returns.
 */
module Channels {

  type Handle = nat

  const BUFFER := 64

  // NotStarted until the engine calls Start; Exited once `done` is closed.
  datatype Loop = NotStarted | AtSelect | Busy | Exited

  datatype Node = Node(loop: Loop, stopped: bool, targets: set<Handle>, queued: nat,
                       stopCloses: nat, doneCloses: nat, inputCloses: nat)

  datatype TearStep = StopInstance | CloseStop | AwaitLoop | CloseInput
  {
    function Rank(): nat {
      match this
      case StopInstance => 0
      case CloseStop => 1
      case AwaitLoop => 2
      case CloseInput => 3
    }
  }

  // Where the engine is, under its write lock.  Tearing down happens after a
  // bulk removal (which first rewires the remaining nodes) or for all nodes.
  datatype Phase =
    | Idle
    | Rewiring(gone: set<Handle>, todo: set<Handle>)
    | Relinking(gone: set<Handle>)
    | Tearing(gone: set<Handle>, step: TearStep, todo: set<Handle>, full: bool)
    | Building(born: set<Handle>)
    | Wiring(born: set<Handle>, todo: set<Handle>)
    | Linking(born: set<Handle>)
    | Starting(todo: set<Handle>)

  datatype State = State(ns: map<Handle, Node>, live: set<Handle>, links: set<Handle>, phase: Phase, panicked: bool)

  datatype Action =
    // node loops
    | TakeMessage(h: Handle) | FinishMessage(h: Handle) | ExitLoop(h: Handle) | ReadClosed(h: Handle)
    | LoopSend(h: Handle, t: Handle) | LoopLinkSend(h: Handle, t: Handle)
    // background goroutines of an instance, and the editor's trigger
    | BackgroundSend(h: Handle, t: Handle) | BackgroundLinkSend(h: Handle, t: Handle) | Trigger(t: Handle)
    // the engine
    | BeginRemove(gone: set<Handle>) | BeginStopAll | BeginBuild
    | Rewire(h: Handle, targets: set<Handle>) | Relink(links: set<Handle>)
    | TearOne(h: Handle) | TearNext
    | Build(h: Handle) | BeginWiring | StartOne(h: Handle, ok: bool) | Finish

  function Gone(p: Phase): set<Handle> {
    match p
    case Rewiring(gone, _) => gone
    case Relinking(gone) => gone
    case Tearing(gone, _, _, _) => gone
    case _ => {}
  }

  // Nodes that exist but whose Start has not been called yet.
  function Unstarted(p: Phase): set<Handle> {
    match p
    case Building(born) => born
    case Wiring(born, _) => born
    case Linking(born) => born
    case Starting(todo) => todo
    case _ => {}
  }

  // h is dealt with in this phase.
  function Without(p: Phase, h: Handle): Phase {
    match p
    case Rewiring(gone, todo) => Rewiring(gone, todo - {h})
    case Tearing(gone, step, todo, full) => Tearing(gone, step, todo - {h}, full)
    case Wiring(born, todo) => Wiring(born, todo - {h})
    case Starting(todo) => Starting(todo - {h})
    case _ => p
  }

  predicate Enabled(s: State, a: Action) {
    match a
    case TakeMessage(h) => h in s.ns && s.ns[h].loop == AtSelect && s.ns[h].queued > 0
    case FinishMessage(h) => h in s.ns && s.ns[h].loop == Busy
    case ExitLoop(h) => h in s.ns && s.ns[h].loop == AtSelect && s.ns[h].stopCloses > 0
    case ReadClosed(h) => h in s.ns && s.ns[h].loop == AtSelect && s.ns[h].inputCloses > 0 && s.ns[h].queued == 0
    case LoopSend(h, t) => h in s.ns && s.ns[h].loop == Busy && t in s.ns[h].targets && t in s.ns
    case LoopLinkSend(h, t) => h in s.ns && s.ns[h].loop == Busy && t in s.links && t in s.ns
    case BackgroundSend(h, t) => h in s.ns && !s.ns[h].stopped && t in s.ns[h].targets && t in s.ns
    case BackgroundLinkSend(h, t) => h in s.ns && !s.ns[h].stopped && t in s.links && t in s.ns
    case Trigger(t) => s.phase == Idle && t in s.live && t in s.ns
    case BeginRemove(gone) => s.phase == Idle && gone <= s.live
    case BeginStopAll => s.phase == Idle
    case BeginBuild => s.phase == Idle
    case Rewire(h, targets) =>
      (s.phase.Rewiring? || s.phase.Wiring?) && h in s.phase.todo && h in s.ns && targets <= s.live
    case Relink(links) =>
      links <= s.live && (s.phase.Relinking? || s.phase.Linking?)
    case TearOne(h) =>
      s.phase.Tearing? && h in s.phase.todo && h in s.ns && (s.phase.step == AwaitLoop ==> s.ns[h].doneCloses > 0)
    case TearNext =>
      (s.phase.Tearing? && s.phase.todo == {}) || (s.phase.Rewiring? && s.phase.todo == {}) || (s.phase.Wiring? && s.phase.todo == {})
    case Build(h) => s.phase.Building? && h !in s.ns
    case BeginWiring => s.phase.Building?
    case StartOne(h, _) => s.phase.Starting? && h in s.phase.todo && h in s.ns
    case Finish => (s.phase.Starting? && s.phase.todo == {}) || s.phase == Building({})
  }

  function Enqueue(s: State, t: Handle): State
    requires t in s.ns
  {
    var n := s.ns[t];
    if n.inputCloses > 0 then s.(panicked := true)
    else if n.queued < BUFFER then s.(ns := s.ns[t := n.(queued := n.queued + 1)])
    else s
  }

  function CloseDone(s: State, h: Handle): State
    requires h in s.ns
  {
    s.(ns := s.ns[h := s.ns[h].(loop := Exited, doneCloses := s.ns[h].doneCloses + 1)],
       panicked := s.panicked || s.ns[h].doneCloses > 0)
  }

  function Tear(s: State, h: Handle): State
    requires s.phase.Tearing? && h in s.ns
  {
    var n := s.ns[h];
    var s' := s.(phase := Without(s.phase, h));
    match s.phase.step
    case StopInstance => s'.(ns := s.ns[h := n.(stopped := true)])
    case CloseStop => s'.(ns := s.ns[h := n.(stopCloses := n.stopCloses + 1)], panicked := s.panicked || n.stopCloses > 0)
    case AwaitLoop => s'
    case CloseInput => s'.(ns := s.ns[h := n.(inputCloses := n.inputCloses + 1)], panicked := s.panicked || n.inputCloses > 0)
  }

  function NextPhase(s: State): State
    requires Enabled(s, TearNext)
  {
    match s.phase
    case Rewiring(gone, _) => s.(phase := Relinking(gone))
    case Wiring(born, _) => s.(phase := Linking(born))
    case Tearing(gone, step, _, full) =>
      match step
      case StopInstance => s.(phase := Tearing(gone, CloseStop, gone, full))
      case CloseStop => s.(phase := Tearing(gone, AwaitLoop, gone, full))
      case AwaitLoop => s.(phase := Tearing(gone, CloseInput, gone, full))
      case CloseInput => if full then s.(live := {}, links := {}, phase := Building({})) else s.(phase := Building({}))
  }

  function Apply(s: State, a: Action): State
    requires Enabled(s, a)
  {
    match a
    case TakeMessage(h) => s.(ns := s.ns[h := s.ns[h].(loop := Busy, queued := s.ns[h].queued - 1)])
    case FinishMessage(h) => s.(ns := s.ns[h := s.ns[h].(loop := AtSelect)])
    case ExitLoop(h) => CloseDone(s, h)
    case ReadClosed(h) => CloseDone(s, h)
    case LoopSend(_, t) => Enqueue(s, t)
    case LoopLinkSend(_, t) => Enqueue(s, t)
    case BackgroundSend(_, t) => Enqueue(s, t)
    case BackgroundLinkSend(_, t) => Enqueue(s, t)
    case Trigger(t) => Enqueue(s, t)
    case BeginRemove(gone) =>
      s.(live := s.live - gone, links := s.links - gone, phase := Rewiring(gone, s.live - gone))
    case BeginStopAll => s.(phase := Tearing(s.live, StopInstance, s.live, true))
    case BeginBuild => s.(phase := Building({}))
    case Rewire(h, targets) =>
      s.(ns := s.ns[h := s.ns[h].(targets := targets)], phase := Without(s.phase, h))
    case Relink(links) =>
      s.(links := links,
         phase := if s.phase.Relinking? then Tearing(s.phase.gone, StopInstance, s.phase.gone, false)
                  else Starting(s.phase.born))
    case TearOne(h) => Tear(s, h)
    case TearNext => NextPhase(s)
    case Build(h) =>
      s.(ns := s.ns[h := Node(NotStarted, false, {}, 0, 0, 0, 0)], live := s.live + {h},
         phase := Building(s.phase.born + {h}))
    case BeginWiring => s.(phase := Wiring(s.phase.born, s.live))
    case StartOne(h, ok) =>
      var s' := s.(phase := Without(s.phase, h));
      if ok then s'.(ns := s.ns[h := s.ns[h].(loop := AtSelect)]) else CloseDone(s', h)
    case Finish => s.(phase := Idle)
  }

  const Init := State(map[], {}, {}, Idle, false)

  // Disabled actions do nothing, so every sequence of actions is a run.
  function Run(actions: seq<Action>): State {
    if actions == [] then Init
    else
      var s := Run(actions[..|actions| - 1]);
      var a := actions[|actions| - 1];
      if Enabled(s, a) then Apply(s, a) else s
  }

  /******* The invariant *******/

  // `step` has been done to h: all of an earlier stage, or this one's part.
  predicate Done(p: Phase, step: TearStep, h: Handle) {
    p.Tearing? && (p.step.Rank() > step.Rank() || (p.step == step && h !in p.todo))
  }

  predicate NodeOk(s: State, h: Handle)
    requires h in s.ns
  {
    var (n, p) := (s.ns[h], s.phase);
    n.queued <= BUFFER &&
    n.doneCloses == (if n.loop == Exited then 1 else 0) &&
    (n.loop == NotStarted <==> h in Unstarted(p)) &&
    if h in Gone(p) then
      (n.stopped <==> Done(p, StopInstance, h)) &&
      n.stopCloses == (if Done(p, CloseStop, h) then 1 else 0) &&
      (Done(p, AwaitLoop, h) ==> n.loop == Exited) &&
      n.inputCloses == (if Done(p, CloseInput, h) then 1 else 0) &&
      n.targets <= s.live + Gone(p)
    else if h in s.live then
      !n.stopped && n.stopCloses == 0 && n.inputCloses == 0 &&
      n.targets <= (if p.Rewiring? && h in p.todo then s.live + p.gone else s.live)
    else
      n.stopped && n.stopCloses == 1 && n.loop == Exited && n.inputCloses == 1
  }

  predicate PhaseOk(s: State) {
    var p := s.phase;
    s.live <= s.ns.Keys && s.links <= s.live && Gone(p) <= s.ns.Keys && Unstarted(p) <= s.live &&
    match p
    case Rewiring(gone, todo) => gone !! s.live && todo <= s.live
    case Relinking(gone) => gone !! s.live
    case Tearing(gone, _, todo, full) => todo <= gone && (if full then gone == s.live else gone !! s.live)
    case Wiring(_, todo) => todo <= s.live
    case _ => true
  }

  predicate Inv(s: State) {
    !s.panicked && PhaseOk(s) && forall h :: h in s.ns ==> NodeOk(s, h)
  }

  /******* Preservation *******/

  // Whoever can still send holds only open targets, and open links.
  lemma SendersHitOpenChannels(s: State, h: Handle, t: Handle)
    requires Inv(s) && h in s.ns && t in s.ns
    requires s.ns[h].loop == Busy || !s.ns[h].stopped
    requires t in s.ns[h].targets || t in s.links
    ensures s.ns[t].inputCloses == 0
  {
    assert NodeOk(s, h) && NodeOk(s, t);
  }

  lemma EnqueueKeepsInv(s: State, t: Handle)
    requires Inv(s) && t in s.ns && s.ns[t].inputCloses == 0
    ensures Inv(Enqueue(s, t))
  {
    var s' := Enqueue(s, t);
    forall k | k in s'.ns ensures NodeOk(s', k) { assert NodeOk(s, k); }
  }

  lemma LoopKeepsInv(s: State, a: Action)
    requires Inv(s) && Enabled(s, a)
    requires a.TakeMessage? || a.FinishMessage? || a.ExitLoop? || a.ReadClosed?
    ensures Inv(Apply(s, a))
  {
    var s' := Apply(s, a);
    assert NodeOk(s, a.h);
    forall k | k in s'.ns ensures NodeOk(s', k) { assert NodeOk(s, k); }
  }

  lemma TearKeepsInv(s: State, h: Handle)
    requires Inv(s) && Enabled(s, TearOne(h))
    ensures Inv(Tear(s, h))
  {
    var s' := Tear(s, h);
    assert NodeOk(s, h);
    forall k | k in s'.ns ensures NodeOk(s', k) { assert NodeOk(s, k); }
  }

  lemma NextPhaseKeepsInv(s: State)
    requires Inv(s) && Enabled(s, TearNext)
    ensures Inv(NextPhase(s))
  {
    var s' := NextPhase(s);
    forall k | k in s'.ns ensures NodeOk(s', k) { assert NodeOk(s, k); }
  }

  lemma EngineKeepsInv(s: State, a: Action)
    requires Inv(s) && Enabled(s, a)
    requires a.BeginRemove? || a.BeginStopAll? || a.BeginBuild? || a.Rewire? || a.Relink? ||
             a.Build? || a.BeginWiring? || a.StartOne? || a.Finish?
    ensures Inv(Apply(s, a))
  {
    var s' := Apply(s, a);
    forall k | k in s'.ns ensures NodeOk(s', k) {
      if k in s.ns { assert NodeOk(s, k); }
    }
    if a.StartOne? { assert NodeOk(s, a.h); }
  }

  lemma StepKeepsInv(s: State, a: Action)
    requires Inv(s) && Enabled(s, a)
    ensures Inv(Apply(s, a))
  {
    match a
    case TakeMessage(_) => LoopKeepsInv(s, a);
    case FinishMessage(_) => LoopKeepsInv(s, a);
    case ExitLoop(_) => LoopKeepsInv(s, a);
    case ReadClosed(_) => LoopKeepsInv(s, a);
    case LoopSend(h, t) => SendersHitOpenChannels(s, h, t); EnqueueKeepsInv(s, t);
    case LoopLinkSend(h, t) => SendersHitOpenChannels(s, h, t); EnqueueKeepsInv(s, t);
    case BackgroundSend(h, t) => SendersHitOpenChannels(s, h, t); EnqueueKeepsInv(s, t);
    case BackgroundLinkSend(h, t) => SendersHitOpenChannels(s, h, t); EnqueueKeepsInv(s, t);
    case Trigger(t) => assert NodeOk(s, t); EnqueueKeepsInv(s, t);
    case TearOne(h) => TearKeepsInv(s, h);
    case TearNext => NextPhaseKeepsInv(s);
    case _ => EngineKeepsInv(s, a);
  }

  lemma {:induction false} RunKeepsInv(actions: seq<Action>)
    ensures Inv(Run(actions))
  {
    if actions != [] {
      var s := Run(actions[..|actions| - 1]);
      RunKeepsInv(actions[..|actions| - 1]);
      if Enabled(s, actions[|actions| - 1]) { StepKeepsInv(s, actions[|actions| - 1]); }
    }
  }

  // Over every interleaving nothing panics: no send reaches a closed channel
  // and stopCh, done and inputCh of a node are each closed at most once.
  // A node's input is closed only after its loop has exited.
  lemma NoSendOnClosedChannel(actions: seq<Action>)
    ensures !Run(actions).panicked
    ensures forall h :: h in Run(actions).ns ==>
              var n := Run(actions).ns[h];
              n.stopCloses <= 1 && n.doneCloses <= 1 && n.inputCloses <= 1 && n.queued <= BUFFER &&
              (n.inputCloses == 1 ==> n.loop == Exited && n.stopped && n.doneCloses == 1)
  {
    RunKeepsInv(actions);
    var s := Run(actions);
    forall h | h in s.ns
      ensures s.ns[h].stopCloses <= 1 && s.ns[h].doneCloses <= 1 && s.ns[h].inputCloses <= 1 && s.ns[h].queued <= BUFFER
      ensures s.ns[h].inputCloses == 1 ==> s.ns[h].loop == Exited && s.ns[h].stopped && s.ns[h].doneCloses == 1
    {
      assert NodeOk(s, h);
    }
  }

  // Between deploys every deployed node has been started once and is open,
  // and every other node has been taken down completely.
  lemma SettledBetweenDeploys(actions: seq<Action>, h: Handle)
    requires Run(actions).phase == Idle && h in Run(actions).ns
    ensures
      var n := Run(actions).ns[h];
      if h in Run(actions).live then
        n.loop != NotStarted && !n.stopped && n.stopCloses == 0 && n.inputCloses == 0 && n.targets <= Run(actions).live
      else
        n.loop == Exited && n.stopped && n.stopCloses == n.doneCloses == n.inputCloses == 1
  {
    RunKeepsInv(actions);
    assert NodeOk(Run(actions), h);
  }

  /******* Why the order matters *******/

  // The same teardown with inputs closed before the loops have exited: a
  // loop that is still handling a message hits a closed channel.
  lemma ClosingInputsEarlyPanics(s: State, h: Handle, t: Handle)
    requires Inv(s) && s.phase.Tearing? && s.phase.step == AwaitLoop
    requires h in s.ns && s.ns[h].loop == Busy && t in s.ns[h].targets && t in s.phase.todo && t in s.ns
    ensures
      var early := s.(phase := Tearing(s.phase.gone, CloseInput, s.phase.todo, s.phase.full));
      Enabled(early, TearOne(t)) &&
      var closed := Apply(early, TearOne(t));
      Enabled(closed, LoopSend(h, t)) && Apply(closed, LoopSend(h, t)).panicked
  {
    assert NodeOk(s, t);
  }

  /******* Messages arrive, and deploys end *******/

  function Sends(a: Action): set<Handle> {
    match a
    case LoopSend(_, t) => {t}
    case LoopLinkSend(_, t) => {t}
    case BackgroundSend(_, t) => {t}
    case BackgroundLinkSend(_, t) => {t}
    case Trigger(t) => {t}
    case _ => {}
  }

  lemma OneMoreAction(actions: seq<Action>, a: Action)
    ensures Run(actions + [a]) == if Enabled(Run(actions), a) then Apply(Run(actions), a) else Run(actions)
  {
    assert (actions + [a])[..|actions|] == actions;
  }

  // A message sent reaches the target's queue, and is dropped exactly when the
  // queue is full; nothing else changes.
  lemma SentIsQueued(actions: seq<Action>, a: Action, t: Handle)
    requires Enabled(Run(actions), a) && Sends(a) == {t}
    ensures
      var (s, s') := (Run(actions), Run(actions + [a]));
      t in s.ns && s' == if s.ns[t].queued < BUFFER then s.(ns := s.ns[t := s.ns[t].(queued := s.ns[t].queued + 1)]) else s
  {
    OneMoreAction(actions, a);
    assert t in Sends(a);
    RunKeepsInv(actions + [a]);
  }

  // A step the deploy itself can take, or one of a loop it waits for.
  predicate MovesOn(s: State, a: Action) {
    Enabled(s, a) &&
    (a.Rewire? || a.Relink? || a.TearOne? || a.TearNext? || a.BeginWiring? || a.StartOne? || a.Finish? ||
     (s.phase.Tearing? && s.phase.step == AwaitLoop && (a.FinishMessage? || a.ExitLoop?) && a.h in s.phase.todo))
  }

  // Whatever the nodes are doing, a deploy under way is never stuck: it can
  // take its next step, or waits for a loop that is handling a message or can
  // leave.
  lemma DeployNeverStuck(actions: seq<Action>)
    requires Run(actions).phase != Idle
    ensures exists a :: MovesOn(Run(actions), a)
  {
    RunKeepsInv(actions);
    var s := Run(actions);
    match s.phase
    case Rewiring(_, todo) => if todo == {} { assert MovesOn(s, TearNext); } else { RewiresOn(s); }
    case Wiring(_, todo) => if todo == {} { assert MovesOn(s, TearNext); } else { RewiresOn(s); }
    case Relinking(_) => assert MovesOn(s, Relink({}));
    case Linking(_) => assert MovesOn(s, Relink({}));
    case Building(_) => assert MovesOn(s, BeginWiring);
    case Starting(todo) =>
      if todo == {} {
        assert MovesOn(s, Finish);
      } else {
        var h :| h in todo;
        assert MovesOn(s, StartOne(h, true));
      }
    case Tearing(_, _, todo, _) =>
      if todo == {} {
        assert MovesOn(s, TearNext);
      } else {
        var h :| h in todo;
        TearsOn(s, h);
      }
  }

  lemma RewiresOn(s: State)
    requires Inv(s) && (s.phase.Rewiring? || s.phase.Wiring?) && s.phase.todo != {}
    ensures exists a :: MovesOn(s, a)
  {
    var h :| h in s.phase.todo;
    assert MovesOn(s, Rewire(h, {}));
  }

  lemma TearsOn(s: State, h: Handle)
    requires Inv(s) && s.phase.Tearing? && h in s.phase.todo
    ensures exists a :: MovesOn(s, a)
  {
    assert NodeOk(s, h);
    if s.phase.step != AwaitLoop || s.ns[h].loop == Exited {
      assert MovesOn(s, TearOne(h));
    } else if s.ns[h].loop == Busy {
      assert MovesOn(s, FinishMessage(h));
    } else {
      assert MovesOn(s, ExitLoop(h));
    }
  }
}
