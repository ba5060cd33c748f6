/**
 What the delay node does with every message, from the actions alone: which
 ones the rate queue sends, loses and still holds, which ones the gate lets
 through, and what becomes of each delayed message.
 */
module DelayRuns {
  import opened JsonValues
  import opened Delays

  /******* The rate queue *******/

  // A tick of a running worker sends the oldest queued message; otherwise
  // nothing happens.
  lemma TickSends(cfg: Config, actions: seq<Action>)
    ensures
      var (s, t) := (Run(cfg, actions), Run(cfg, actions + [Tick]));
      if cfg.interval > 0 && Stop !in actions && s.queue != [] then
        t.out == s.out + [Output(s.queue[0], FromQueue)] && t.queue == s.queue[1..] && t.pending == s.pending - 1
      else t == s
  {
    OneMoreAction(cfg, actions, Tick);
    StoppedWhen(cfg, actions);
  }

  lemma OneMoreAction(cfg: Config, actions: seq<Action>, a: Action)
    ensures Run(cfg, actions + [a]) == Step(cfg, Run(cfg, actions), a)
  {
    assert (actions + [a])[..|actions|] == actions;
  }

  lemma {:induction false} StoppedWhen(cfg: Config, actions: seq<Action>)
    ensures Run(cfg, actions).stopped <==> Stop in actions
  {
    if actions != [] {
      var (before, a) := (actions[..|actions| - 1], actions[|actions| - 1]);
      StoppedWhen(cfg, before);
      assert actions == before + [a];
      hide Step;
      StoppedStep(cfg, Run(cfg, before), a);
    }
  }

  lemma StoppedStep(cfg: Config, s: State, a: Action)
    ensures Step(cfg, s, a).stopped <==> s.stopped || a.Stop?
  {
  }

  function Ticks(n: nat): seq<Action> {
    seq(n, _ => Tick)
  }

  // As many ticks as there are queued messages empty the queue, and all of it
  // goes downstream in order.
  lemma {:induction false} TicksDrain(cfg: Config, actions: seq<Action>, n: nat)
    requires cfg.interval > 0 && Stop !in actions && n <= |Run(cfg, actions).queue|
    ensures
      var (s, t) := (Run(cfg, actions), Run(cfg, actions + Ticks(n)));
      t.queue == s.queue[n..] && t.out == s.out + Outputs(s.queue[..n])
  {
    var s := Run(cfg, actions);
    if n == 0 {
      assert actions + Ticks(0) == actions && s.out + Outputs(s.queue[..0]) == s.out;
    } else {
      TicksDrain(cfg, actions, n - 1);
      var more := actions + Ticks(n - 1);
      assert actions + Ticks(n) == more + [Tick];
      assert Stop !in more;
      TickSends(cfg, more);
      OneMoreOutput(s.out, s.queue, n);
    }
  }

  lemma OneMoreOutput(out: seq<Output>, queue: seq<Msg>, n: nat)
    requires 0 < n <= |queue|
    ensures out + Outputs(queue[..n - 1]) + [Output(queue[n - 1], FromQueue)] == out + Outputs(queue[..n])
    ensures queue[n - 1..][0] == queue[n - 1] && queue[n - 1..][1..] == queue[n..]
  {
  }

  // A message leaves the queue as sent only by a tick or a flush, as
  // discarded only by a reset, and as evicted only when one is offered to the
  // full queue.
  lemma HowMessagesLeave(cfg: Config, actions: seq<Action>, a: Action, k: nat)
    ensures
      var (s, t) := (Run(cfg, actions), Run(cfg, actions + [a]));
      s.left <= t.left &&
      (|s.left| <= k < |t.left| ==>
        match t.left[k].how
        case Sent => a.Tick? || a.Flush?
        case Discarded => a.Reset?
        case Evicted => a.Queue? && |s.queue| == cfg.cap)
  {
    OneMoreAction(cfg, actions, a);
    RunKeeps(cfg, actions);
  }

  // Departures that did not go downstream.
  function Lost(left: seq<Departure>): nat {
    if left == [] then 0
    else Lost(left[..|left| - 1]) + if left[|left| - 1].how == Sent then 0 else 1
  }

  lemma {:induction false} LostOrSent(left: seq<Departure>)
    ensures |SentOf(left)| + Lost(left) == |left| && (Lost(left) == 0 ==> SentOf(left) == Msgs(left))
  {
    if left != [] {
      var (init, d) := (left[..|left| - 1], left[|left| - 1]);
      LostOrSent(init);
      assert Msgs(left) == Msgs(init) + [d.msg];
    }
  }

  lemma LostOne(left: seq<Departure>, d: Departure)
    ensures Lost(left + [d]) == Lost(left) + if d.how == Sent then 0 else 1
  {
    assert (left + [d])[..|left|] == left;
  }

  lemma {:induction false} LostAll(left: seq<Departure>, queue: seq<Msg>, how: Exit)
    ensures Lost(left + Departures(queue, how)) == Lost(left) + if how == Sent then 0 else |queue|
  {
    if queue == [] {
      assert left + Departures(queue, how) == left;
    } else {
      var (init, m) := (queue[..|queue| - 1], queue[|queue| - 1]);
      LostAll(left, init, how);
      DrainedInit(queue, how, left, []);
      LostOne(left + Departures(init, how), Departure(m, how));
    }
  }

  // No loss so far, and no loss in this action.
  predicate Spares(cfg: Config, s: State, a: Action) {
    (a.Reset? ==> s.queue == []) && (a.Queue? ==> |s.queue| < cfg.cap)
  }

  lemma LostStep(cfg: Config, s: State, a: Action)
    requires |s.queue| <= cfg.cap && cfg.cap > 0
    ensures Lost(Step(cfg, s, a).left) >= Lost(s.left)
    ensures Lost(Step(cfg, s, a).left) == Lost(s.left) <==> Spares(cfg, s, a)
  {
    hide Lost;
    match a
    case Queue(_) => if s.queue != [] { LostOne(s.left, Departure(s.queue[0], Evicted)); }
    case Tick => if s.queue != [] { LostOne(s.left, Departure(s.queue[0], Sent)); }
    case Reset => LostAll(s.left, s.queue, Discarded);
    case Flush => LostAll(s.left, s.queue, Sent);
    case _ =>
  }

  // Every reset found the queue empty and every message offered found room.
  ghost predicate Lossless(cfg: Config, actions: seq<Action>) {
    forall i :: 0 <= i < |actions| ==> Spares(cfg, Run(cfg, actions[..i]), actions[i])
  }

  lemma LosslessSnoc(cfg: Config, before: seq<Action>, a: Action)
    ensures Lossless(cfg, before + [a]) <==> Lossless(cfg, before) && Spares(cfg, Run(cfg, before), a)
  {
    var all := before + [a];
    assert all[..|before|] == before && all[|before|] == a;
    if Lossless(cfg, all) {
      forall i | 0 <= i < |before| ensures Spares(cfg, Run(cfg, before[..i]), before[i]) {
        assert all[..i] == before[..i] && Spares(cfg, Run(cfg, all[..i]), all[i]);
      }
      assert Spares(cfg, Run(cfg, all[..|before|]), all[|before|]);
    }
    if Lossless(cfg, before) && Spares(cfg, Run(cfg, before), a) {
      forall i | 0 <= i < |all| ensures Spares(cfg, Run(cfg, all[..i]), all[i]) {
        if i < |before| { assert all[..i] == before[..i] && Spares(cfg, Run(cfg, before[..i]), before[i]); }
      }
    }
  }

  lemma {:induction false} NoneLostWhen(cfg: Config, actions: seq<Action>)
    requires cfg.cap > 0
    ensures Lost(Run(cfg, actions).left) == 0 <==> Lossless(cfg, actions)
  {
    if actions != [] {
      var (before, a) := (actions[..|actions| - 1], actions[|actions| - 1]);
      assert actions == before + [a];
      NoneLostWhen(cfg, before);
      QueueConservation(cfg, before);
      hide Lossless, Step, Spares, Run;
      OneMoreAction(cfg, before, a);
      LosslessSnoc(cfg, before, a);
      LostStep(cfg, Run(cfg, before), a);
    }
  }

  lemma {:induction false} NoRoomLoses(cfg: Config, actions: seq<Action>)
    requires cfg.cap == 0
    ensures Lossless(cfg, actions) <==> Offered(actions) == []
  {
    if actions != [] {
      var (before, a) := (actions[..|actions| - 1], actions[|actions| - 1]);
      assert actions == before + [a];
      NoRoomLoses(cfg, before);
      QueueConservation(cfg, before);
      hide Lossless, Run;
      LosslessSnoc(cfg, before, a);
    }
  }

  // Everything offered has gone downstream out of the queue or is still in
  // it, in order, if and only if every reset found the queue empty and every
  // message offered found room.
  lemma NothingLostWhen(cfg: Config, actions: seq<Action>)
    ensures
      var s := Run(cfg, actions);
      QueueOut(s.out) + s.queue == Offered(actions) <==> Lossless(cfg, actions)
  {
    var s := Run(cfg, actions);
    SentInArrivalOrder(cfg, actions);
    AllOfferedAccepted(cfg, actions);
    RunKeeps(cfg, actions);
    LostOrSent(s.left);
    assert Msgs(s.left) + s.queue == s.accepted && |s.queue| <= cfg.cap;
    hide Lossless, Run, SentOf, QueueOut, Lost, Msgs, Offered;
    if cfg.cap > 0 { NoneLostWhen(cfg, actions); } else { NoRoomLoses(cfg, actions); }
    assert |Msgs(s.left)| == |s.left| by { MsgsLength(s.left); }
  }

  lemma MsgsLength(left: seq<Departure>)
    ensures |Msgs(left)| == |left|
  {
  }

  /******* The gate and messages sent at once *******/

  predicate Apart(times: seq<int>, now: int, interval: int) {
    forall i :: 0 <= i < |times| ==> now - times[i] >= interval
  }

  // The times at which a gate of this interval lets a message through: those
  // that are an interval away from every earlier one.
  function Passes(interval: int, actions: seq<Action>): seq<int> {
    if actions == [] then []
    else
      var (earlier, a) := (Passes(interval, actions[..|actions| - 1]), actions[|actions| - 1]);
      earlier + if a.Gate? && interval > 0 && Apart(earlier, a.now, interval) then [a.now] else []
  }

  // The messages that go downstream without waiting: those the gate lets
  // through and those with no delay.
  function Immediate(interval: int, actions: seq<Action>): seq<Msg> {
    if actions == [] then []
    else
      var (before, a) := (actions[..|actions| - 1], actions[|actions| - 1]);
      Immediate(interval, before) +
      match a
      case Gate(m, now) => if interval <= 0 || Apart(Passes(interval, before), now, interval) then [m] else []
      case After(m, delay) => if delay <= 0 then [m] else []
      case _ => []
  }

  function DirectOut(out: seq<Output>): seq<Msg> {
    if out == [] then []
    else
      var o := out[|out| - 1];
      DirectOut(out[..|out| - 1]) + if o.via == Directly then [o.msg] else []
  }

  lemma OneMoreDirect(out: seq<Output>, o: Output)
    ensures DirectOut(out + [o]) == DirectOut(out) + if o.via == Directly then [o.msg] else []
  {
    assert (out + [o])[..|out|] == out;
  }

  lemma {:induction false} QueueIsNotDirect(out: seq<Output>, queue: seq<Msg>)
    ensures DirectOut(out + Outputs(queue)) == DirectOut(out)
  {
    if queue == [] {
      assert out + Outputs(queue) == out;
    } else {
      var (init, m) := (queue[..|queue| - 1], queue[|queue| - 1]);
      QueueIsNotDirect(out, init);
      DrainedInit(queue, Sent, [], out);
      OneMoreDirect(out + Outputs(init), Output(m, FromQueue));
    }
  }

  lemma OpenWhenApart(cfg: Config, s: State, now: int)
    requires cfg.interval > 0 && Spaced(cfg.interval, s.forwards, s.lastSent)
    ensures GateOpen(cfg, s, now) <==> Apart(s.forwards, now, cfg.interval)
  {
    if GateOpen(cfg, s, now) && s.forwards != [] {
      var last := |s.forwards| - 1;
      forall i | 0 <= i <= last ensures now - s.forwards[i] >= cfg.interval {
        TimesApart(cfg.interval, s.forwards, s.lastSent, i, last);
        assert (last - i) * cfg.interval >= 0;
      }
    }
  }

  lemma DirectStep(cfg: Config, s: State, a: Action)
    requires Spaced(cfg.interval, s.forwards, s.lastSent)
    ensures
      var t := Step(cfg, s, a);
      t.forwards == s.forwards + (if a.Gate? && cfg.interval > 0 && Apart(s.forwards, a.now, cfg.interval) then [a.now] else []) &&
      DirectOut(t.out) == DirectOut(s.out) +
        match a
        case Gate(m, now) => (if cfg.interval <= 0 || Apart(s.forwards, now, cfg.interval) then [m] else [])
        case After(m, delay) => (if delay <= 0 then [m] else [])
        case _ => []
  {
    hide DirectOut, Apart, Spaced;
    match a
    case Gate(m, now) =>
      OneMoreDirect(s.out, Output(m, Directly));
      if cfg.interval > 0 { OpenWhenApart(cfg, s, now); }
    case After(m, _) => OneMoreDirect(s.out, Output(m, Directly));
    case Tick => if s.queue != [] { OneMoreDirect(s.out, Output(s.queue[0], FromQueue)); }
    case End(id, _) => if id in s.timers { OneMoreDirect(s.out, Output(s.timers[id].msg, FromTimer(id))); }
    case Flush => QueueIsNotDirect(s.out, s.queue);
    case _ =>
  }

  // The gate forwards exactly the messages that come an interval or more after
  // every earlier forward; they and the messages without delay go downstream
  // at once, in order.
  lemma {:induction false} GateForwardsExactly(cfg: Config, actions: seq<Action>)
    ensures Run(cfg, actions).forwards == Passes(cfg.interval, actions)
    ensures DirectOut(Run(cfg, actions).out) == Immediate(cfg.interval, actions)
  {
    if actions != [] {
      var (before, a) := (actions[..|actions| - 1], actions[|actions| - 1]);
      GateForwardsExactly(cfg, before);
      RunSpaced(cfg, before);
      hide Step, Spaced;
      DirectStep(cfg, Run(cfg, before), a);
    }
  }

  /******* Delayed messages *******/

  // Action i started timer id.
  ghost predicate Starts(actions: seq<Action>, i: int, id: nat) {
    0 <= i < |actions| && actions[i].After? && actions[i].delay > 0 && id == Started(actions[..i])
  }

  function Started(actions: seq<Action>): nat {
    if actions == [] then 0
    else
      var a := actions[|actions| - 1];
      Started(actions[..|actions| - 1]) + if a.After? && a.delay > 0 then 1 else 0
  }

  function Count(actions: seq<Action>, a: Action): nat {
    if actions == [] then 0
    else Count(actions[..|actions| - 1], a) + if actions[|actions| - 1] == a then 1 else 0
  }

  // The timer of id is the one action i made.
  ghost predicate TimerOf(actions: seq<Action>, i: int, id: nat, t: Timer) {
    Starts(actions, i, id) && t == Timer(actions[i].m, Count(actions[..i], Flush), Count(actions[..i], Reset))
  }

  ghost predicate Born(actions: seq<Action>, id: nat, t: Timer) {
    exists i :: TimerOf(actions, i, id, t)
  }

  ghost predicate Justified(actions: seq<Action>, t: Timer, why: Wake) {
    match why
    case Expired => true
    case Flushed => t.flushes < Count(actions, Flush)
    case WasReset => t.resets < Count(actions, Reset)
    case Stopped => Stop in actions
  }

  ghost predicate TimersBorn(s: State, actions: seq<Action>) {
    (forall id :: id in s.timers ==> Born(actions, id, s.timers[id])) &&
    (forall id :: id in s.ended ==> Born(actions, id, s.ended[id].timer) && Justified(actions, s.ended[id].timer, s.ended[id].why))
  }

  lemma BornStays(actions: seq<Action>, a: Action, id: nat, t: Timer)
    requires Born(actions, id, t)
    ensures Born(actions + [a], id, t)
  {
    var i :| TimerOf(actions, i, id, t);
    assert (actions + [a])[..i] == actions[..i];
    assert TimerOf(actions + [a], i, id, t);
  }

  lemma BornNow(actions: seq<Action>, a: Action)
    requires a.After? && a.delay > 0
    ensures Born(actions + [a], Started(actions), Timer(a.m, Count(actions, Flush), Count(actions, Reset)))
  {
    assert (actions + [a])[..|actions|] == actions;
    assert TimerOf(actions + [a], |actions|, Started(actions), Timer(a.m, Count(actions, Flush), Count(actions, Reset)));
  }

  lemma JustifiedStays(actions: seq<Action>, a: Action, t: Timer, why: Wake)
    requires Justified(actions, t, why)
    ensures Justified(actions + [a], t, why)
  {
    assert (actions + [a])[..|actions|] == actions;
  }

  lemma Counted(actions: seq<Action>, a: Action)
    ensures Started(actions + [a]) == Started(actions) + if a.After? && a.delay > 0 then 1 else 0
    ensures Count(actions + [a], Flush) == Count(actions, Flush) + if a.Flush? then 1 else 0
    ensures Count(actions + [a], Reset) == Count(actions, Reset) + if a.Reset? then 1 else 0
  {
    assert (actions + [a])[..|actions|] == actions;
  }

  // What a step does to the timers.
  lemma TimersStep(cfg: Config, s: State, a: Action)
    ensures
      var t := Step(cfg, s, a);
      (forall id :: id in t.timers ==>
        (id in s.timers && t.timers[id] == s.timers[id]) ||
        (a.After? && a.delay > 0 && id == s.nextTimer && t.timers[id] == Timer(a.m, s.flushes, s.resets))) &&
      (forall id :: id in t.ended ==>
        (id in s.ended && t.ended[id] == s.ended[id]) ||
        (a == End(id, t.ended[id].why) && CanEnd(s, id, a.why) && t.ended[id].timer == s.timers[id]))
  {
    hide Depart, Drain, Accept, PassGate;
    match a
    case Queue(_) => hide CanEnd; QueueKeepsTimers(cfg, s, a.m);
    case Tick => DrainKeepsTimers(s, Sent);
    case Reset => DrainKeepsTimers(s.(resets := s.resets + 1), Discarded);
    case Flush => DrainKeepsTimers(s.(flushes := s.flushes + 1), Sent);
    case Gate(m, now) => GateKeepsTimers(cfg, s, m, now);
    case _ =>
  }

  lemma QueueKeepsTimers(cfg: Config, s: State, m: Msg)
    ensures Enqueue(cfg, s, m).timers == s.timers && Enqueue(cfg, s, m).ended == s.ended
  {
  }

  lemma DrainKeepsTimers(s: State, how: Exit)
    ensures Drain(s, how).timers == s.timers && Drain(s, how).ended == s.ended
    ensures s.queue != [] ==> Depart(s, how).timers == s.timers && Depart(s, how).ended == s.ended
  {
  }

  lemma GateKeepsTimers(cfg: Config, s: State, m: Msg, now: int)
    ensures PassGate(cfg, s, m, now).timers == s.timers && PassGate(cfg, s, m, now).ended == s.ended
  {
  }

  lemma TimersBornStep(cfg: Config, s: State, before: seq<Action>, a: Action)
    requires TimersBorn(s, before) && s.nextTimer == Started(before) && (s.stopped <==> Stop in before)
    requires s.flushes == Count(before, Flush) && s.resets == Count(before, Reset)
    ensures TimersBorn(Step(cfg, s, a), before + [a])
  {
    var t := Step(cfg, s, a);
    if a.After? && a.delay > 0 { BornNow(before, a); }
    if a.End? && CanEnd(s, a.id, a.why) { JustifiedStays(before, a, s.timers[a.id], a.why); }
    hide Step, Born, Justified, Count, Started;
    TimersStep(cfg, s, a);
    forall id | id in t.timers ensures Born(before + [a], id, t.timers[id]) {
      if id in s.timers && t.timers[id] == s.timers[id] { BornStays(before, a, id, s.timers[id]); }
    }
    forall id | id in t.ended
      ensures Born(before + [a], id, t.ended[id].timer) && Justified(before + [a], t.ended[id].timer, t.ended[id].why)
    {
      if id in s.ended && t.ended[id] == s.ended[id] {
        BornStays(before, a, id, s.ended[id].timer);
        JustifiedStays(before, a, s.ended[id].timer, s.ended[id].why);
      } else {
        BornStays(before, a, id, s.timers[id]);
      }
    }
  }

  lemma CountersStep(cfg: Config, s: State, a: Action)
    ensures
      var t := Step(cfg, s, a);
      t.nextTimer == s.nextTimer + (if a.After? && a.delay > 0 then 1 else 0) &&
      t.flushes == s.flushes + (if a.Flush? then 1 else 0) && t.resets == s.resets + (if a.Reset? then 1 else 0)
  {
  }

  lemma {:induction false} RunTimersBorn(cfg: Config, actions: seq<Action>)
    ensures
      var s := Run(cfg, actions);
      TimersBorn(s, actions) && s.nextTimer == Started(actions) &&
      s.flushes == Count(actions, Flush) && s.resets == Count(actions, Reset)
  {
    if actions != [] {
      var (before, a) := (actions[..|actions| - 1], actions[|actions| - 1]);
      assert actions == before + [a];
      RunTimersBorn(cfg, before);
      StoppedWhen(cfg, before);
      hide *;
      OneMoreAction(cfg, before, a);
      Counted(before, a);
      CountersStep(cfg, Run(cfg, before), a);
      TimersBornStep(cfg, Run(cfg, before), before, a);
    }
  }

  lemma {:induction false} CountedSince(actions: seq<Action>, i: nat, a: Action)
    requires i <= |actions| && Count(actions[..i], a) < Count(actions, a)
    ensures exists j :: i <= j < |actions| && actions[j] == a
  {
    assert actions[..|actions|] == actions;
    if actions[|actions| - 1] != a {
      var before := actions[..|actions| - 1];
      assert before[..i] == actions[..i];
      CountedSince(before, i, a);
      var j :| i <= j < |before| && before[j] == a;
      assert actions[j] == a;
    }
  }

  // Every message with a positive delay has its own timer, which carries that
  // message.  The message goes downstream once, if its timer ended by time or
  // flush, and never otherwise; the timer ended by a flush or reset only if
  // there was one since it started, and by stopping only if the node stopped.
  lemma DelayedMessages(cfg: Config, actions: seq<Action>, i: nat, id: nat)
    requires Starts(actions, i, id)
    ensures
      var s := Run(cfg, actions);
      (id in s.timers || id in s.ended) && !(id in s.timers && id in s.ended) &&
      TimerOut(s.out, id) == (if id in s.ended && Sends(s.ended[id].why) then [actions[i].m] else []) &&
      (id in s.ended ==>
        match s.ended[id].why
        case Expired => true
        case Flushed => exists j :: i < j < |actions| && actions[j] == Flush
        case WasReset => exists j :: i < j < |actions| && actions[j] == Reset
        case Stopped => Stop in actions)
  {
    var s := Run(cfg, actions);
    RunTimersBorn(cfg, actions);
    StartedWithin(actions, i);
    TimersEndOnce(cfg, actions, id);
    DelayedSentOnce(cfg, actions, id);
    if id in s.ended {
      var e := s.ended[id];
      var k :| TimerOf(actions, k, id, e.timer);
      OneStart(actions, i, k);
      hide Run, Count, Started, TimerOut;
      if e.why == Flushed { CountedSince(actions, i, Flush); }
      if e.why == WasReset { CountedSince(actions, i, Reset); }
    }
  }

  lemma {:induction false} StartedWithin(actions: seq<Action>, i: nat)
    requires i < |actions| && actions[i].After? && actions[i].delay > 0
    ensures Started(actions[..i]) < Started(actions)
  {
    var before := actions[..|actions| - 1];
    if i < |before| {
      assert before[..i] == actions[..i];
      StartedWithin(before, i);
    }
  }

  lemma OneStart(actions: seq<Action>, i: nat, k: nat)
    requires i < |actions| && k < |actions| && Started(actions[..i]) == Started(actions[..k])
    requires actions[i].After? && actions[i].delay > 0 && actions[k].After? && actions[k].delay > 0
    ensures i == k
  {
    if i < k {
      assert actions[..k][..i] == actions[..i];
      StartedWithin(actions[..k], i);
    } else if k < i {
      assert actions[..i][..k] == actions[..k];
      StartedWithin(actions[..i], k);
    }
  }
}
