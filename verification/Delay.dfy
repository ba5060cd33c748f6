/**
 The delay node: the bounded rate queue with its worker, the timers of delayed
 messages, flush and reset, and the timestamp gate of the drop behaviour.

 Every step is atomic: one handled message, one worker tick, one timer ending.
 Flush and reset wake timers by closing a shared channel and installing a new
 one; a timer holds on to the channels of its start, modelled by counting the
 flushes and resets.  Durations and the clock are in nanoseconds.
 */
module Delays {
  import opened JsonValues

  type Msg = nat

  // `cap`: maxQueueLength; `interval`: rateInterval.
  datatype Config = Config(cap: nat, interval: int)

  datatype Exit = Sent | Evicted | Discarded

  datatype Departure = Departure(msg: Msg, how: Exit)

  datatype Timer = Timer(msg: Msg, flushes: nat, resets: nat)

  // How a message went downstream: out of the queue, from a timer, at once.
  datatype Via = FromQueue | FromTimer(id: nat) | Directly

  datatype Output = Output(msg: Msg, via: Via)

  datatype Wake = Expired | Flushed | WasReset | Stopped

  datatype Ended = Ended(timer: Timer, why: Wake)

  // `accepted`, `left`: all messages that ever entered and left the queue;
  // `ended`: each finished timer and how it ended; `out`: everything sent
  // downstream.
  datatype State = State(queue: seq<Msg>, accepted: seq<Msg>, left: seq<Departure>,
                         timers: map<nat, Timer>, ended: map<nat, Ended>, nextTimer: nat, flushes: nat, resets: nat,
                         pending: int, out: seq<Output>, lastSent: Option<int>, forwards: seq<int>, stopped: bool)

  datatype Action =
    | Queue(m: Msg) | Gate(m: Msg, now: int) | After(m: Msg, delay: int)
    | Tick | End(id: nat, why: Wake) | Reset | Flush | Stop

  const Init := State([], [], [], map[], map[], 0, 0, 0, 0, [], None, [], false)

  /******* Steps *******/

  function Depart(s: State, how: Exit): State
    requires s.queue != []
  {
    s.(queue := s.queue[1..], left := s.left + [Departure(s.queue[0], how)], pending := s.pending - 1,
       out := if how == Sent then s.out + [Output(s.queue[0], FromQueue)] else s.out)
  }

  function Departures(queue: seq<Msg>, how: Exit): seq<Departure> {
    seq(|queue|, i requires 0 <= i < |queue| => Departure(queue[i], how))
  }

  function Outputs(queue: seq<Msg>): seq<Output> {
    seq(|queue|, i requires 0 <= i < |queue| => Output(queue[i], FromQueue))
  }

  // All of the queue leaves, oldest first.
  function Drain(s: State, how: Exit): State {
    s.(queue := [], left := s.left + Departures(s.queue, how), pending := s.pending - |s.queue|,
       out := if how == Sent then s.out + Outputs(s.queue) else s.out)
  }

  lemma DrainByOne(s: State, how: Exit)
    ensures s.queue == [] ==> Drain(s, how) == s
    ensures s.queue != [] ==> Drain(Depart(s, how), how) == Drain(s, how)
  {
    if s.queue != [] {
      var (m, rest) := (s.queue[0], s.queue[1..]);
      assert [Departure(m, how)] + Departures(rest, how) == Departures(s.queue, how);
      assert s.left + [Departure(m, how)] + Departures(rest, how) == s.left + ([Departure(m, how)] + Departures(rest, how));
      assert s.out + [Output(m, FromQueue)] + Outputs(rest) == s.out + Outputs(s.queue);
    } else {
      assert s.out + Outputs(s.queue) == s.out && s.left + Departures(s.queue, how) == s.left;
    }
  }

  function Accept(s: State, m: Msg): State {
    s.(queue := s.queue + [m], accepted := s.accepted + [m], pending := s.pending + 1)
  }

  // handleRateQueue: push, or evict the oldest and push.
  function Enqueue(cfg: Config, s: State, m: Msg): State {
    if |s.queue| < cfg.cap then Accept(s, m)
    else
      var room := if s.queue != [] then Depart(s, Evicted) else s;
      if |room.queue| < cfg.cap then Accept(room, m) else room
  }

  function Schedule(s: State, m: Msg, delay: int): State {
    if delay <= 0 then s.(out := s.out + [Output(m, Directly)])
    else
      s.(timers := s.timers[s.nextTimer := Timer(m, s.flushes, s.resets)], nextTimer := s.nextTimer + 1, pending := s.pending + 1)
  }

  predicate CanEnd(s: State, id: nat, why: Wake) {
    id in s.timers &&
    match why
    case Expired => true
    case Flushed => s.timers[id].flushes < s.flushes
    case WasReset => s.timers[id].resets < s.resets
    case Stopped => s.stopped
  }

  predicate Sends(why: Wake) {
    why == Expired || why == Flushed
  }

  function EndTimer(s: State, id: nat, why: Wake): State
    requires id in s.timers
  {
    s.(timers := s.timers - {id}, ended := s.ended[id := Ended(s.timers[id], why)], pending := s.pending - 1,
       out := if Sends(why) then s.out + [Output(s.timers[id].msg, FromTimer(id))] else s.out)
  }

  predicate GateOpen(cfg: Config, s: State, now: int) {
    s.lastSent.None? || now - s.lastSent.value >= cfg.interval
  }

  // handleRateDrop
  function PassGate(cfg: Config, s: State, m: Msg, now: int): State {
    if cfg.interval <= 0 then s.(out := s.out + [Output(m, Directly)])
    else if GateOpen(cfg, s, now) then s.(lastSent := Some(now), forwards := s.forwards + [now], out := s.out + [Output(m, Directly)])
    else s
  }

  function Step(cfg: Config, s: State, a: Action): State {
    match a
    case Queue(m) => Enqueue(cfg, s, m)
    case Gate(m, now) => PassGate(cfg, s, m, now)
    case After(m, delay) => Schedule(s, m, delay)
    case Tick => if cfg.interval > 0 && !s.stopped && s.queue != [] then Depart(s, Sent) else s
    case End(id, why) => if CanEnd(s, id, why) then EndTimer(s, id, why) else s
    case Reset => Drain(s.(resets := s.resets + 1), Discarded)
    case Flush => Drain(s.(flushes := s.flushes + 1), Sent)
    case Stop => s.(stopped := true)
  }

  /******* The node *******/

  class DelayNode {
    const cfg: Config
    var s: State

    constructor (cfg: Config)
      ensures this.cfg == cfg && s == Init
    {
      this.cfg := cfg;
      s := Init;
    }

    method HandleRateQueue(m: Msg)
      modifies this
      ensures s == Step(cfg, old(s), Queue(m))
    {
      if |s.queue| < cfg.cap {
        s := Accept(s, m);
        return;
      }
      if |s.queue| > 0 {
        s := Depart(s, Evicted);
      }
      if |s.queue| < cfg.cap {
        s := Accept(s, m);
      }
    }

    method HandleRateDrop(m: Msg, now: int)
      modifies this
      ensures s == Step(cfg, old(s), Gate(m, now))
    {
      if cfg.interval > 0 {
        if s.lastSent.Some? && now - s.lastSent.value < cfg.interval {
          return;
        }
        s := s.(lastSent := Some(now), forwards := s.forwards + [now]);
      }
      s := s.(out := s.out + [Output(m, Directly)]);
    }

    // resetPending drains the queue one receive at a time.
    method ResetPending()
      modifies this
      ensures s == Step(cfg, old(s), Reset)
    {
      s := s.(resets := s.resets + 1);
      while |s.queue| > 0
        invariant Drain(s, Discarded) == Step(cfg, old(s), Reset)
        decreases |s.queue|
      {
        DrainByOne(s, Discarded);
        s := Depart(s, Discarded);
      }
      DrainByOne(s, Discarded);
    }

    method FlushPending()
      modifies this
      ensures s == Step(cfg, old(s), Flush)
    {
      s := s.(flushes := s.flushes + 1);
      while |s.queue| > 0
        invariant Drain(s, Sent) == Step(cfg, old(s), Flush)
        decreases |s.queue|
      {
        DrainByOne(s, Sent);
        s := Depart(s, Sent);
      }
      DrainByOne(s, Sent);
    }

    // One tick of rateWorker, which Start launches for a positive interval and
    // Stop ends.
    method RateTick()
      modifies this
      ensures s == Step(cfg, old(s), Tick)
    {
      if cfg.interval > 0 && !s.stopped && |s.queue| > 0 {
        s := Depart(s, Sent);
      }
    }

    method ScheduleAfter(m: Msg, delay: int)
      modifies this
      ensures s == Step(cfg, old(s), After(m, delay))
    {
      if delay <= 0 {
        s := s.(out := s.out + [Output(m, Directly)]);
        return;
      }
      s := s.(timers := s.timers[s.nextTimer := Timer(m, s.flushes, s.resets)], nextTimer := s.nextTimer + 1, pending := s.pending + 1);
    }
  }

  /******* Invariants over runs *******/

  function Run(cfg: Config, actions: seq<Action>): State {
    if actions == [] then Init else Step(cfg, Run(cfg, actions[..|actions| - 1]), actions[|actions| - 1])
  }

  function Msgs(left: seq<Departure>): seq<Msg> {
    seq(|left|, i requires 0 <= i < |left| => left[i].msg)
  }

  // First in, first out, and nothing lost: what left, then what is queued.
  ghost predicate QueueOk(cap: nat, queue: seq<Msg>, accepted: seq<Msg>, left: seq<Departure>) {
    Msgs(left) + queue == accepted && |queue| <= cap
  }

  ghost predicate TimersOk(timers: map<nat, Timer>, ended: map<nat, Ended>, nextTimer: nat, flushes: nat, resets: nat) {
    (forall id: nat :: id < nextTimer <==> id in timers || id in ended) && (forall id :: id in timers ==> id !in ended) &&
    (forall id :: id in timers ==> timers[id].flushes <= flushes && timers[id].resets <= resets)
  }

  ghost predicate Inv(cfg: Config, s: State) {
    QueueOk(cfg.cap, s.queue, s.accepted, s.left) && TimersOk(s.timers, s.ended, s.nextTimer, s.flushes, s.resets) &&
    s.pending == |s.queue| + |s.timers|
  }

  lemma DepartKeeps(cap: nat, queue: seq<Msg>, accepted: seq<Msg>, left: seq<Departure>, how: Exit)
    requires QueueOk(cap, queue, accepted, left) && queue != []
    ensures QueueOk(cap, queue[1..], accepted, left + [Departure(queue[0], how)])
  {
    var d := Departure(queue[0], how);
    assert Msgs(left + [d]) == Msgs(left) + [queue[0]];
    assert queue == [queue[0]] + queue[1..];
  }

  lemma AcceptKeeps(cap: nat, queue: seq<Msg>, accepted: seq<Msg>, left: seq<Departure>, m: Msg)
    requires QueueOk(cap, queue, accepted, left) && |queue| < cap
    ensures QueueOk(cap, queue + [m], accepted + [m], left)
  {
    assert Msgs(left) + (queue + [m]) == Msgs(left) + queue + [m];
  }

  lemma DrainKeeps(cap: nat, queue: seq<Msg>, accepted: seq<Msg>, left: seq<Departure>, how: Exit)
    requires QueueOk(cap, queue, accepted, left)
    ensures QueueOk(cap, [], accepted, left + Departures(queue, how))
  {
    assert Msgs(left + Departures(queue, how)) == Msgs(left) + queue;
  }

  lemma QueueBound(cap: nat, queue: seq<Msg>, accepted: seq<Msg>, left: seq<Departure>)
    requires QueueOk(cap, queue, accepted, left)
    ensures |queue| <= cap
  {
  }

  lemma StartKeeps(timers: map<nat, Timer>, ended: map<nat, Ended>, next: nat, flushes: nat, resets: nat, m: Msg)
    requires TimersOk(timers, ended, next, flushes, resets)
    ensures TimersOk(timers[next := Timer(m, flushes, resets)], ended, next + 1, flushes, resets)
    ensures |timers[next := Timer(m, flushes, resets)]| == |timers| + 1
  {
    assert next !in timers && next !in ended;
    OneMoreTimer(timers, next, Timer(m, flushes, resets));
  }

  lemma OneMoreTimer(timers: map<nat, Timer>, id: nat, t: Timer)
    requires id !in timers
    ensures |timers[id := t]| == |timers| + 1
  {
    assert timers[id := t].Keys == timers.Keys + {id};
  }

  lemma EndKeeps(timers: map<nat, Timer>, ended: map<nat, Ended>, next: nat, flushes: nat, resets: nat, id: nat, why: Wake)
    requires TimersOk(timers, ended, next, flushes, resets) && id in timers
    ensures TimersOk(timers - {id}, ended[id := Ended(timers[id], why)], next, flushes, resets) && |timers - {id}| == |timers| - 1
  {
    assert timers.Keys == (timers - {id}).Keys + {id};
  }

  lemma SignalKeeps(timers: map<nat, Timer>, ended: map<nat, Ended>, next: nat, flushes: nat, resets: nat)
    requires TimersOk(timers, ended, next, flushes, resets)
    ensures TimersOk(timers, ended, next, flushes + 1, resets) && TimersOk(timers, ended, next, flushes, resets + 1)
  {
  }

  lemma EnqueueKeeps(cfg: Config, s: State, m: Msg)
    requires Inv(cfg, s)
    ensures Inv(cfg, Enqueue(cfg, s, m))
  {
    hide QueueOk, TimersOk;
    QueueBound(cfg.cap, s.queue, s.accepted, s.left);
    if |s.queue| < cfg.cap {
      AcceptKeeps(cfg.cap, s.queue, s.accepted, s.left, m);
    } else if s.queue != [] {
      DepartKeeps(cfg.cap, s.queue, s.accepted, s.left, Evicted);
      AcceptKeeps(cfg.cap, s.queue[1..], s.accepted, s.left + [Departure(s.queue[0], Evicted)], m);
    }
  }

  lemma StepKeeps(cfg: Config, s: State, a: Action)
    requires Inv(cfg, s)
    ensures Inv(cfg, Step(cfg, s, a))
  {
    match a
    case Queue(m) => EnqueueKeeps(cfg, s, m);
    case Gate(_, _) =>
    case After(m, delay) => ScheduleKeeps(cfg, s, m, delay);
    case Tick => TickKeeps(cfg, s);
    case End(id, why) => if CanEnd(s, id, why) { EndTimerKeeps(cfg, s, id, why); }
    case Reset => SignalledKeeps(cfg, s, Discarded);
    case Flush => SignalledKeeps(cfg, s, Sent);
    case Stop =>
  }

  lemma ScheduleKeeps(cfg: Config, s: State, m: Msg, delay: int)
    requires Inv(cfg, s)
    ensures Inv(cfg, Schedule(s, m, delay))
  {
    hide QueueOk, TimersOk;
    StartKeeps(s.timers, s.ended, s.nextTimer, s.flushes, s.resets, m);
  }

  lemma TickKeeps(cfg: Config, s: State)
    requires Inv(cfg, s)
    ensures s.queue != [] ==> Inv(cfg, Depart(s, Sent))
  {
    hide QueueOk, TimersOk;
    if s.queue != [] { DepartKeeps(cfg.cap, s.queue, s.accepted, s.left, Sent); }
  }

  lemma EndTimerKeeps(cfg: Config, s: State, id: nat, why: Wake)
    requires Inv(cfg, s) && id in s.timers
    ensures Inv(cfg, EndTimer(s, id, why))
  {
    hide QueueOk, TimersOk;
    EndKeeps(s.timers, s.ended, s.nextTimer, s.flushes, s.resets, id, why);
  }

  lemma SignalledKeeps(cfg: Config, s: State, how: Exit)
    requires Inv(cfg, s)
    ensures Inv(cfg, Drain(s.(flushes := s.flushes + 1), how)) && Inv(cfg, Drain(s.(resets := s.resets + 1), how))
  {
    hide QueueOk, TimersOk;
    SignalKeeps(s.timers, s.ended, s.nextTimer, s.flushes, s.resets);
    DrainKeeps(cfg.cap, s.queue, s.accepted, s.left, how);
  }

  lemma {:induction false} RunKeeps(cfg: Config, actions: seq<Action>)
    ensures Inv(cfg, Run(cfg, actions))
  {
    if actions != [] {
      RunKeeps(cfg, actions[..|actions| - 1]);
      StepKeeps(cfg, Run(cfg, actions[..|actions| - 1]), actions[|actions| - 1]);
    }
  }

  // Over every run: the k-th message to enter the queue is the k-th to leave
  // it, once and in one way, or still in its place in the queue; the queue is
  // bounded and holds the newest of what it took; and the pending counter is
  // exact.
  lemma QueueConservation(cfg: Config, actions: seq<Action>)
    ensures
      var s := Run(cfg, actions);
      |s.left| + |s.queue| == |s.accepted| && |s.queue| <= cfg.cap &&
      (forall k :: 0 <= k < |s.left| ==> s.left[k].msg == s.accepted[k]) &&
      s.queue == s.accepted[|s.left|..] && s.pending == |s.queue| + |s.timers|
  {
    RunKeeps(cfg, actions);
    var s := Run(cfg, actions);
    assert forall k :: 0 <= k < |s.left| ==> s.left[k].msg == (Msgs(s.left) + s.queue)[k];
  }

  // The messages offered to the rate queue.
  function Offered(actions: seq<Action>): seq<Msg> {
    if actions == [] then []
    else
      var a := actions[|actions| - 1];
      Offered(actions[..|actions| - 1]) + if a.Queue? then [a.m] else []
  }

  lemma Accepts(cfg: Config, s: State, a: Action)
    requires |s.queue| <= cfg.cap
    ensures Step(cfg, s, a).accepted == s.accepted + if a.Queue? && cfg.cap > 0 then [a.m] else []
  {
  }

  // A queue with room for at least one message takes every message offered;
  // one configured with no room takes none.
  lemma {:induction false} AllOfferedAccepted(cfg: Config, actions: seq<Action>)
    ensures Run(cfg, actions).accepted == if cfg.cap > 0 then Offered(actions) else []
  {
    if actions != [] {
      var (before, a) := (actions[..|actions| - 1], actions[|actions| - 1]);
      AllOfferedAccepted(cfg, before);
      RunKeeps(cfg, before);
      var s := Run(cfg, before);
      QueueBound(cfg.cap, s.queue, s.accepted, s.left);
      Accepts(cfg, s, a);
      hide Step;
    }
  }

  function SentOf(left: seq<Departure>): seq<Msg> {
    if left == [] then []
    else
      var d := left[|left| - 1];
      SentOf(left[..|left| - 1]) + if d.how == Sent then [d.msg] else []
  }

  // What went downstream out of the queue.
  function QueueOut(out: seq<Output>): seq<Msg> {
    if out == [] then []
    else
      var o := out[|out| - 1];
      QueueOut(out[..|out| - 1]) + if o.via == FromQueue then [o.msg] else []
  }

  lemma OneMoreSent(left: seq<Departure>, d: Departure, out: seq<Output>, o: Output)
    ensures SentOf(left + [d]) == SentOf(left) + if d.how == Sent then [d.msg] else []
    ensures QueueOut(out + [o]) == QueueOut(out) + if o.via == FromQueue then [o.msg] else []
  {
    assert (left + [d])[..|left|] == left && (out + [o])[..|out|] == out;
  }

  lemma DrainedInit(queue: seq<Msg>, how: Exit, left: seq<Departure>, out: seq<Output>)
    requires queue != []
    ensures
      var (init, m) := (queue[..|queue| - 1], queue[|queue| - 1]);
      left + Departures(queue, how) == left + Departures(init, how) + [Departure(m, how)] &&
      out + Outputs(queue) == out + Outputs(init) + [Output(m, FromQueue)]
  {
    var (init, m) := (queue[..|queue| - 1], queue[|queue| - 1]);
    assert Departures(queue, how) == Departures(init, how) + [Departure(m, how)];
    assert Outputs(queue) == Outputs(init) + [Output(m, FromQueue)];
  }

  lemma {:induction false} AllSent(left: seq<Departure>, out: seq<Output>, queue: seq<Msg>, how: Exit)
    ensures SentOf(left + Departures(queue, how)) == if how == Sent then SentOf(left) + queue else SentOf(left)
    ensures QueueOut(out + Outputs(queue)) == QueueOut(out) + queue
  {
    if queue == [] {
      assert left + Departures(queue, how) == left && SentOf(left) + queue == SentOf(left);
      assert out + Outputs(queue) == out && QueueOut(out) + queue == QueueOut(out);
    } else {
      hide SentOf, QueueOut, Departures, Outputs;
      var (init, m) := (queue[..|queue| - 1], queue[|queue| - 1]);
      AllSent(left, out, init, how);
      DrainedInit(queue, how, left, out);
      OneMoreSent(left + Departures(init, how), Departure(m, how), out + Outputs(init), Output(m, FromQueue));
      assert init + [m] == queue;
      assert SentOf(left) + init + [m] == SentOf(left) + (init + [m]) && QueueOut(out) + init + [m] == QueueOut(out) + (init + [m]);
    }
  }

  lemma QueueOutStep(cfg: Config, s: State, a: Action)
    requires QueueOut(s.out) == SentOf(s.left)
    ensures QueueOut(Step(cfg, s, a).out) == SentOf(Step(cfg, s, a).left)
  {
    hide SentOf, QueueOut;
    match a
    case Queue(_) => if s.queue != [] { OneMoreSent(s.left, Departure(s.queue[0], Evicted), s.out, Output(s.queue[0], FromQueue)); }
    case Gate(m, _) => OneMoreSent(s.left, Departure(m, Sent), s.out, Output(m, Directly));
    case After(m, _) => OneMoreSent(s.left, Departure(m, Sent), s.out, Output(m, Directly));
    case Tick => if s.queue != [] { OneMoreSent(s.left, Departure(s.queue[0], Sent), s.out, Output(s.queue[0], FromQueue)); }
    case End(id, _) => if id in s.timers { OneMoreSent(s.left, Departure(0, Sent), s.out, Output(s.timers[id].msg, FromTimer(id))); }
    case Reset => AllSent(s.left, s.out, s.queue, Discarded);
    case Flush => AllSent(s.left, s.out, s.queue, Sent);
    case Stop =>
  }

  // What goes downstream out of the queue is what leaves it to be sent, in
  // that order; with QueueConservation, in arrival order.  Messages with a
  // delay override in between change nothing about that.
  lemma {:induction false} SentInArrivalOrder(cfg: Config, actions: seq<Action>)
    ensures QueueOut(Run(cfg, actions).out) == SentOf(Run(cfg, actions).left)
  {
    if actions != [] {
      SentInArrivalOrder(cfg, actions[..|actions| - 1]);
      QueueOutStep(cfg, Run(cfg, actions[..|actions| - 1]), actions[|actions| - 1]);
      hide Step;
    }
  }

  // a comes out of b by leaving elements out.
  predicate Subsequence(a: seq<Msg>, b: seq<Msg>) {
    a == [] ||
    (b != [] && (Subsequence(a, b[..|b| - 1]) || (a[|a| - 1] == b[|b| - 1] && Subsequence(a[..|a| - 1], b[..|b| - 1]))))
  }

  lemma {:induction false} SentAmongLeft(left: seq<Departure>)
    ensures Subsequence(SentOf(left), Msgs(left))
  {
    if left != [] {
      var (init, d) := (left[..|left| - 1], left[|left| - 1]);
      SentAmongLeft(init);
      assert Msgs(left) == Msgs(init) + [d.msg];
      hide Msgs;
      if d.how == Sent {
        LastOfBoth(SentOf(init), Msgs(init), SentOf(left), Msgs(left), d.msg);
      } else {
        NotTaken(SentOf(init), Msgs(init), Msgs(left), d.msg);
        assert SentOf(left) == SentOf(init);
      }
    }
  }

  lemma LastOfBoth(a: seq<Msg>, b: seq<Msg>, aa: seq<Msg>, bb: seq<Msg>, m: Msg)
    requires Subsequence(a, b) && aa == a + [m] && bb == b + [m]
    ensures Subsequence(aa, bb)
  {
    assert aa[..|aa| - 1] == a && bb[..|bb| - 1] == b;
  }

  lemma NotTaken(a: seq<Msg>, b: seq<Msg>, bb: seq<Msg>, m: Msg)
    requires Subsequence(a, b) && bb == b + [m]
    ensures Subsequence(a, bb)
  {
    assert bb[..|bb| - 1] == b;
  }

  lemma {:induction false} SubsequenceOfMore(a: seq<Msg>, b: seq<Msg>, c: seq<Msg>)
    requires Subsequence(a, b)
    ensures Subsequence(a, b + c)
  {
    if c == [] {
      assert b + c == b;
    } else {
      assert (b + c)[..|b + c| - 1] == b + c[..|c| - 1];
      SubsequenceOfMore(a, b, c[..|c| - 1]);
    }
  }

  // What goes downstream out of the queue is a subsequence of what was
  // offered to it, in the order it was offered.
  lemma QueueKeepsArrivalOrder(cfg: Config, actions: seq<Action>)
    ensures Subsequence(QueueOut(Run(cfg, actions).out), Offered(actions))
  {
    var s := Run(cfg, actions);
    RunKeeps(cfg, actions);
    SentInArrivalOrder(cfg, actions);
    AllOfferedAccepted(cfg, actions);
    SentAmongLeft(s.left);
    SubsequenceOfMore(SentOf(s.left), Msgs(s.left), s.queue);
    hide SentOf, QueueOut, Offered, Subsequence, Msgs;
    assert Msgs(s.left) + s.queue == s.accepted;
    if cfg.cap == 0 { NothingSent(SentOf(s.left), s.accepted, Offered(actions)); }
  }

  lemma NothingSent(a: seq<Msg>, b: seq<Msg>, c: seq<Msg>)
    requires Subsequence(a, b) && b == []
    ensures Subsequence(a, c)
  {
  }

  // Each delayed message is waiting or has ended in exactly one way.
  lemma TimersEndOnce(cfg: Config, actions: seq<Action>, id: nat)
    ensures
      var s := Run(cfg, actions);
      (id < s.nextTimer <==> id in s.timers || id in s.ended) && !(id in s.timers && id in s.ended)
  {
    RunKeeps(cfg, actions);
    var s := Run(cfg, actions);
    assert id < s.nextTimer <==> id in s.timers || id in s.ended;
  }

  // How often, and as what, timer id sent.
  function TimerOut(out: seq<Output>, id: nat): seq<Msg> {
    if out == [] then []
    else
      var o := out[|out| - 1];
      TimerOut(out[..|out| - 1], id) + if o.via == FromTimer(id) then [o.msg] else []
  }

  lemma OneMoreOut(out: seq<Output>, o: Output, id: nat)
    ensures TimerOut(out + [o], id) == TimerOut(out, id) + if o.via == FromTimer(id) then [o.msg] else []
  {
    assert (out + [o])[..|out|] == out;
  }

  lemma {:induction false} QueueIsNoTimer(out: seq<Output>, queue: seq<Msg>, id: nat)
    ensures TimerOut(out + Outputs(queue), id) == TimerOut(out, id)
  {
    if queue == [] {
      assert out + Outputs(queue) == out;
    } else {
      var (init, m) := (queue[..|queue| - 1], queue[|queue| - 1]);
      QueueIsNoTimer(out, init, id);
      DrainedInit(queue, Sent, [], out);
      OneMoreOut(out + Outputs(init), Output(m, FromQueue), id);
    }
  }

  // Timer id has sent its message once if it ended by time or flush, and
  // not otherwise.
  ghost predicate SentOnce(s: State, id: nat) {
    TimerOut(s.out, id) == if id in s.ended && Sends(s.ended[id].why) then [s.ended[id].timer.msg] else []
  }

  lemma SentOnceStep(cfg: Config, s: State, a: Action, id: nat)
    requires SentOnce(s, id) && (id in s.timers ==> id !in s.ended)
    ensures SentOnce(Step(cfg, s, a), id)
  {
    hide TimerOut;
    match a
    case Gate(m, _) => OneMoreOut(s.out, Output(m, Directly), id);
    case After(m, _) => OneMoreOut(s.out, Output(m, Directly), id);
    case Tick => if s.queue != [] { OneMoreOut(s.out, Output(s.queue[0], FromQueue), id); }
    case End(t, _) => if t in s.timers { OneMoreOut(s.out, Output(s.timers[t].msg, FromTimer(t)), id); }
    case Flush => QueueIsNoTimer(s.out, s.queue, id);
    case _ =>
  }

  // A delayed message goes downstream exactly once if its timer ended by
  // time or flush, and never if it was reset or the node stopped.
  lemma {:induction false} DelayedSentOnce(cfg: Config, actions: seq<Action>, id: nat)
    ensures SentOnce(Run(cfg, actions), id)
  {
    if actions != [] {
      var before := actions[..|actions| - 1];
      DelayedSentOnce(cfg, before, id);
      RunKeeps(cfg, before);
      SentOnceStep(cfg, Run(cfg, before), actions[|actions| - 1], id);
    }
  }

  // Flush and reset reach every timer running at that moment, and no timer
  // started afterwards.
  lemma SignalsReachRunningTimers(cfg: Config, actions: seq<Action>, m: Msg, delay: int)
    requires delay > 0
    ensures
      var s := Run(cfg, actions);
      var (f, r) := (Step(cfg, s, Flush), Step(cfg, s, Reset));
      f.queue == [] && f.out == s.out + Outputs(s.queue) && f.timers == s.timers && (forall id :: id in f.timers ==> CanEnd(f, id, Flushed)) &&
      r.queue == [] && r.out == s.out && r.timers == s.timers && (forall id :: id in r.timers ==> CanEnd(r, id, WasReset)) &&
      !CanEnd(Step(cfg, f, After(m, delay)), f.nextTimer, Flushed) && !CanEnd(Step(cfg, r, After(m, delay)), r.nextTimer, WasReset)
  {
    RunKeeps(cfg, actions);
    var s := Run(cfg, actions);
    assert forall id :: id in s.timers ==> s.timers[id].flushes <= s.flushes && s.timers[id].resets <= s.resets;
    hide Inv, Run, Departures, Outputs;
  }

  /******* Drop mode *******/

  ghost predicate Spaced(interval: int, forwards: seq<int>, lastSent: Option<int>) {
    (lastSent == if forwards == [] then None else Some(forwards[|forwards| - 1])) &&
    forall i :: 0 < i < |forwards| ==> forwards[i] - forwards[i - 1] >= interval
  }

  lemma GateKeeps(cfg: Config, s: State, a: Action)
    requires Spaced(cfg.interval, s.forwards, s.lastSent)
    ensures Spaced(cfg.interval, Step(cfg, s, a).forwards, Step(cfg, s, a).lastSent)
  {
    if a.Gate? && GateOpen(cfg, s, a.now) && cfg.interval > 0 {
      var more := s.forwards + [a.now];
      forall i | 0 < i < |more| ensures more[i] - more[i - 1] >= cfg.interval {
        if i < |s.forwards| { assert s.forwards[i] - s.forwards[i - 1] >= cfg.interval; }
      }
    } else {
      assert Step(cfg, s, a).forwards == s.forwards && Step(cfg, s, a).lastSent == s.lastSent;
    }
  }

  lemma {:induction false} RunSpaced(cfg: Config, actions: seq<Action>)
    ensures Spaced(cfg.interval, Run(cfg, actions).forwards, Run(cfg, actions).lastSent)
  {
    if actions != [] {
      RunSpaced(cfg, actions[..|actions| - 1]);
      GateKeeps(cfg, Run(cfg, actions[..|actions| - 1]), actions[|actions| - 1]);
      hide Step;
    }
  }

  lemma {:induction false} TimesApart(interval: int, forwards: seq<int>, lastSent: Option<int>, i: nat, j: nat)
    requires Spaced(interval, forwards, lastSent) && i <= j < |forwards|
    ensures forwards[j] - forwards[i] >= (j - i) * interval
    decreases j
  {
    if i < j {
      TimesApart(interval, forwards, lastSent, i, j - 1);
      assert (j - i) * interval == (j - 1 - i) * interval + interval;
    }
  }

  // Forwards i and j are at least j - i intervals apart, so that n intervals
  // of time see at most n + 1 of them.
  lemma ForwardsApart(cfg: Config, actions: seq<Action>, i: nat, j: nat)
    requires i <= j < |Run(cfg, actions).forwards|
    ensures Run(cfg, actions).forwards[j] - Run(cfg, actions).forwards[i] >= (j - i) * cfg.interval
  {
    RunSpaced(cfg, actions);
    TimesApart(cfg.interval, Run(cfg, actions).forwards, Run(cfg, actions).lastSent, i, j);
  }
}
