/**
 The response registry: http-response nodes, the timeout sweeper and DrainAll
 race to answer each pending HTTP request.

 A state machine at the grain of the locks: one step is one critical section
 of the registry's mutex, one pass through the entry or the exit of a slot's
 sync.Once, or one statement between the two.  A second caller of a Once that
 is still running waits.  Handle ids are assumed never to repeat; nothing in
 the steps prevents a second write or a second close of `done`.
 */
module Responses {
  import opened JsonValues

  type Handle = nat
  type Caller = nat

  datatype Once = Unused | Running(who: Caller) | Spent(who: Caller)

  datatype Slot = Slot(deadline: Option<int>, once: Once, writes: nat, completed: bool, doneCloses: nat)

  // ResponseRegistry.Complete (with or without a writer), sweepExpired, DrainAll
  datatype Job = Complete(h: Handle, writer: bool) | Sweep(now: int) | Drain

  datatype Result = Answered | AlreadyCompleted | UnknownHandle | AllDone

  // Where a caller is; the middle four are inside a slot's Once.
  datatype Pc = Calling | Writing(h: Handle) | Marking(h: Handle) | Closing(h: Handle) | Leaving(h: Handle) | Deleting | Finished(r: Result)

  // `took`: the slots this call has set out to complete; `todo`: those left.
  datatype Call = Call(job: Job, took: set<Handle>, todo: set<Handle>, pc: Pc)

  datatype State = State(slots: map<Handle, Slot>, live: set<Handle>, calls: map<Caller, Call>, panicked: bool)

  datatype Action =
    | Register(h: Handle, deadline: Option<int>)
    | Begin(c: Caller, job: Job)
    | Enter(c: Caller, h: Handle) | Write(c: Caller) | Mark(c: Caller) | CloseDone(c: Caller) | Leave(c: Caller)
    | Delete(c: Caller) | End(c: Caller)

  predicate Inside(pc: Pc) {
    pc.Writing? || pc.Marking? || pc.Closing? || pc.Leaving?
  }

  // A nil writer writes nothing; the fallbacks always write.
  function Writes(job: Job): nat {
    if job.Complete? && !job.writer then 0 else 1
  }

  predicate Expired(slot: Slot, now: int) {
    slot.deadline.Some? && now > slot.deadline.value
  }

  predicate Enabled(s: State, a: Action) {
    match a
    case Register(h, _) => h !in s.slots
    case Begin(c, _) => c !in s.calls
    case Enter(c, h) =>
      c in s.calls && s.calls[c].pc == Calling && h in s.calls[c].todo && h in s.slots && !s.slots[h].once.Running?
    case Write(c) => c in s.calls && s.calls[c].pc.Writing? && s.calls[c].pc.h in s.slots
    case Mark(c) => c in s.calls && s.calls[c].pc.Marking? && s.calls[c].pc.h in s.slots
    case CloseDone(c) => c in s.calls && s.calls[c].pc.Closing? && s.calls[c].pc.h in s.slots
    case Leave(c) => c in s.calls && s.calls[c].pc.Leaving? && s.calls[c].pc.h in s.slots
    case Delete(c) => c in s.calls && s.calls[c].pc == Deleting && s.calls[c].job.Complete?
    case End(c) => c in s.calls && s.calls[c].pc == Calling && s.calls[c].todo == {} && !s.calls[c].job.Complete?
  }

  function At(s: State, c: Caller, pc: Pc): map<Caller, Call>
    requires c in s.calls
  {
    s.calls[c := s.calls[c].(pc := pc)]
  }

  function ExpiredOf(s: State, now: int): set<Handle>
    requires s.live <= s.slots.Keys
  {
    set h | h in s.live && Expired(s.slots[h], now)
  }

  // The registry's first critical section: what the call sets out to complete.
  function BeginCall(s: State, c: Caller, job: Job): State
    requires s.live <= s.slots.Keys
  {
    match job
    case Complete(h, _) =>
      if h in s.live then s.(calls := s.calls[c := Call(job, {h}, {h}, Calling)])
      else s.(calls := s.calls[c := Call(job, {}, {}, Finished(UnknownHandle))])
    case Sweep(now) =>
      var expired := ExpiredOf(s, now);
      s.(calls := s.calls[c := Call(job, expired, expired, Calling)], live := s.live - expired)
    case Drain =>
      s.(calls := s.calls[c := Call(job, s.live, s.live, Calling)], live := {})
  }

  function EnterOnce(s: State, c: Caller, h: Handle): State
    requires c in s.calls && h in s.slots
  {
    var call := s.calls[c];
    if s.slots[h].once.Unused? then
      s.(slots := s.slots[h := s.slots[h].(once := Running(c))], calls := At(s, c, Writing(h)))
    else if call.job.Complete? then
      s.(calls := s.calls[c := call.(todo := call.todo - {h}, pc := Finished(AlreadyCompleted))])
    else
      s.(calls := s.calls[c := call.(todo := call.todo - {h})])
  }

  function LeaveOnce(s: State, c: Caller, h: Handle): State
    requires c in s.calls && h in s.slots
  {
    var call := s.calls[c];
    s.(slots := s.slots[h := s.slots[h].(once := Spent(c))],
       calls := s.calls[c := call.(todo := call.todo - {h}, pc := if call.job.Complete? then Deleting else Calling)])
  }

  function Apply(s: State, a: Action): State
    requires Enabled(s, a) && s.live <= s.slots.Keys
  {
    match a
    case Register(h, deadline) =>
      s.(slots := s.slots[h := Slot(deadline, Unused, 0, false, 0)], live := s.live + {h})
    case Begin(c, job) => BeginCall(s, c, job)
    case Enter(c, h) => EnterOnce(s, c, h)
    case Write(c) =>
      var h := s.calls[c].pc.h;
      s.(slots := s.slots[h := s.slots[h].(writes := s.slots[h].writes + Writes(s.calls[c].job))], calls := At(s, c, Marking(h)))
    case Mark(c) =>
      var h := s.calls[c].pc.h;
      s.(slots := s.slots[h := s.slots[h].(completed := true)], calls := At(s, c, Closing(h)))
    case CloseDone(c) =>
      var h := s.calls[c].pc.h;
      s.(slots := s.slots[h := s.slots[h].(doneCloses := s.slots[h].doneCloses + 1)], calls := At(s, c, Leaving(h)),
         panicked := s.panicked || s.slots[h].doneCloses > 0)
    case Leave(c) => LeaveOnce(s, c, s.calls[c].pc.h)
    case Delete(c) => s.(live := s.live - {s.calls[c].job.h}, calls := At(s, c, Finished(Answered)))
    case End(c) => s.(calls := At(s, c, Finished(AllDone)))
  }

  const Init := State(map[], {}, map[], false)

  function Run(actions: seq<Action>): (s: State)
    ensures s.live <= s.slots.Keys
  {
    if actions == [] then Init
    else
      var s := Run(actions[..|actions| - 1]);
      var a := actions[|actions| - 1];
      if Enabled(s, a) then Apply(s, a) else s
  }

  /******* The loops under the registry's mutex *******/

  // sweepExpired: collects the expired slots, then deletes them from the map.
  method TakeExpired(s: State, c: Caller, now: int) returns (r: State)
    requires s.live <= s.slots.Keys
    ensures r == BeginCall(s, c, Sweep(now))
  {
    var expired: set<Handle> := {};
    var todo := s.live;
    while todo != {}
      invariant todo <= s.live && expired == set h | h in s.live && h !in todo && Expired(s.slots[h], now)
      decreases todo
    {
      var h :| h in todo;
      if s.slots[h].deadline.Some? && now > s.slots[h].deadline.value {
        expired := expired + {h};
      }
      todo := todo - {h};
    }
    var live := s.live;
    todo := expired;
    while todo != {}
      invariant todo <= expired && live == s.live - (expired - todo)
      decreases todo
    {
      var h :| h in todo;
      live := live - {h};
      todo := todo - {h};
    }
    assert expired == ExpiredOf(s, now);
    assert live == s.live - expired;
    r := s.(calls := s.calls[c := Call(Sweep(now), expired, expired, Calling)], live := live);
  }

  // DrainAll: collects every slot and starts over with an empty map.
  method TakeAll(s: State, c: Caller) returns (r: State)
    requires s.live <= s.slots.Keys
    ensures r == BeginCall(s, c, Drain)
  {
    var victims: set<Handle> := {};
    var todo := s.live;
    while todo != {}
      invariant todo <= s.live && victims == s.live - todo
      decreases todo
    {
      var h :| h in todo;
      victims := victims + {h};
      todo := todo - {h};
    }
    assert victims == s.live;
    r := s.(calls := s.calls[c := Call(Drain, victims, victims, Calling)], live := {});
  }

  /******* The invariant *******/

  // In the map, or on the list of a sweep or drain that has not got to it.
  ghost predicate Pending(s: State, h: Handle) {
    h in s.live || exists c :: c in s.calls && !s.calls[c].job.Complete? && h in s.calls[c].todo
  }

  // What a slot has been through, by its Once.
  ghost predicate SlotOk(s: State, h: Handle)
    requires h in s.slots
  {
    var slot := s.slots[h];
    match slot.once
    case Unused => slot.writes == 0 && !slot.completed && slot.doneCloses == 0
    case Running(c) =>
      c in s.calls && Inside(s.calls[c].pc) && s.calls[c].pc.h == h &&
      slot.writes == (if s.calls[c].pc.Writing? then 0 else Writes(s.calls[c].job)) &&
      (slot.completed <==> s.calls[c].pc.Closing? || s.calls[c].pc.Leaving?) &&
      slot.doneCloses == (if s.calls[c].pc.Leaving? then 1 else 0)
    case Spent(c) =>
      c in s.calls && h in s.calls[c].took && h !in s.calls[c].todo &&
      (s.calls[c].job.Complete? ==> s.calls[c].pc == Deleting || s.calls[c].pc == Finished(Answered)) &&
      slot.writes == Writes(s.calls[c].job) && slot.completed && slot.doneCloses == 1
  }

  ghost predicate CallOk(s: State, c: Caller)
    requires c in s.calls
  {
    var call := s.calls[c];
    call.todo <= call.took <= s.slots.Keys &&
    (forall h :: h in call.took && h !in call.todo ==> s.slots[h].once.Spent?) &&
    (Inside(call.pc) ==> call.pc.h in call.todo && call.pc.h in s.slots && s.slots[call.pc.h].once == Running(c)) &&
    (call.pc == Deleting ==> call.job.Complete? && call.todo == {}) &&
    (call.pc.Finished? ==> call.todo == {}) &&
    match call.job
    case Complete(h, _) =>
      (call.pc != Finished(UnknownHandle) ==> h in call.took) &&
      (forall x :: x in call.took ==> x == h) &&
      (call.pc == Calling ==> h in call.todo) &&
      (call.pc == Deleting || call.pc == Finished(Answered) ==> h in s.slots && s.slots[h].once == Spent(c))
    case Sweep(now) => call.took !! s.live && forall h :: h in call.took ==> Expired(s.slots[h], now)
    case Drain => call.took !! s.live
  }

  // A slot that is being, or has been, answered is in the map only until the
  // Complete call that answers it deletes it.
  ghost predicate LiveOk(s: State, h: Handle)
    requires h in s.slots
  {
    s.slots[h].once.Unused? || var c := s.slots[h].once.who; c in s.calls && h in s.calls[c].took && !s.calls[c].pc.Finished?
  }

  ghost predicate Inv(s: State) {
    s.live <= s.slots.Keys && !s.panicked &&
    (forall h :: h in s.slots ==> SlotOk(s, h)) &&
    (forall h :: h in s.slots && !s.slots[h].completed ==> Pending(s, h)) &&
    (forall c :: c in s.calls ==> CallOk(s, c)) &&
    (forall h :: h in s.live ==> LiveOk(s, h))
  }

  /******* Preservation *******/

  lemma PendingKept(s: State, a: Action, h: Handle)
    requires Inv(s) && Enabled(s, a) && h in Apply(s, a).slots && !Apply(s, a).slots[h].completed
    ensures Pending(Apply(s, a), h)
  {
    var s' := Apply(s, a);
    if a.Register? && a.h == h {
      assert h in s'.live;
    } else if h in s.live {
      if a.Begin? && h !in s'.live { assert h in s'.calls[a.c].todo; }
      if a.Delete? { assert CallOk(s, a.c) && SlotOk(s, h); }
    } else {
      assert Pending(s, h);
      var c :| c in s.calls && !s.calls[c].job.Complete? && h in s.calls[c].todo;
      assert CallOk(s, c) && SlotOk(s, h);
      assert c in s'.calls && h in s'.calls[c].todo;
    }
  }

  // The invariant where step a looks.
  ghost predicate LocalInv(s: State, a: Action) {
    s.live <= s.slots.Keys && Enabled(s, a) &&
    (!a.Register? && !a.Begin? ==> a.c in s.calls && CallOk(s, a.c)) &&
    (a.Enter? ==> SlotOk(s, a.h))
  }

  lemma SlotKept(s: State, a: Action, h: Handle)
    requires LocalInv(s, a) && h in Apply(s, a).slots && (h in s.slots ==> SlotOk(s, h))
    ensures SlotOk(Apply(s, a), h)
  {
  }

  lemma OwnCallKept(s: State, a: Action)
    requires LocalInv(s, a) && !a.Register?
    ensures a.c in Apply(s, a).calls && CallOk(Apply(s, a), a.c)
  {
  }

  lemma OtherCallKept(s: State, a: Action, c: Caller)
    requires LocalInv(s, a) && c in s.calls && (a.Register? || a.c != c) && CallOk(s, c)
    ensures c in Apply(s, a).calls && CallOk(Apply(s, a), c)
  {
  }

  lemma LiveKept(s: State, a: Action, h: Handle)
    requires LocalInv(s, a) && h in Apply(s, a).live && (h in s.live ==> SlotOk(s, h) && LiveOk(s, h))
    ensures LiveOk(Apply(s, a), h)
  {
  }

  lemma OldCalls(s: State, a: Action)
    requires s.live <= s.slots.Keys && Enabled(s, a)
    ensures forall c :: c in Apply(s, a).calls && (a.Register? || a.c != c) ==> c in s.calls
    ensures forall h :: h in Apply(s, a).slots && !a.Register? ==> h in s.slots
  {
  }

  lemma NoSecondClose(s: State, a: Action)
    requires Inv(s) && Enabled(s, a)
    ensures !Apply(s, a).panicked && Apply(s, a).live <= Apply(s, a).slots.Keys
  {
    if a.CloseDone? { assert CallOk(s, a.c) && SlotOk(s, s.calls[a.c].pc.h); }
  }

  lemma StepKeepsInv(s: State, a: Action)
    requires Inv(s) && Enabled(s, a)
    ensures Inv(Apply(s, a))
  {
    var s' := Apply(s, a);
    assert LocalInv(s, a);
    OldCalls(s, a);
    hide SlotOk, CallOk, LiveOk, Pending, Apply;
    NoSecondClose(s, a);
    forall h | h in s'.slots ensures SlotOk(s', h) { SlotKept(s, a, h); }
    forall h | h in s'.slots && !s'.slots[h].completed ensures Pending(s', h) { PendingKept(s, a, h); }
    forall c | c in s'.calls ensures CallOk(s', c) {
      if !a.Register? && a.c == c { OwnCallKept(s, a); } else { OtherCallKept(s, a, c); }
    }
    forall h | h in s'.live ensures LiveOk(s', h) { LiveKept(s, a, h); }
  }

  lemma {:induction false} RunKeepsInv(actions: seq<Action>)
    ensures Inv(Run(actions))
  {
    if actions != [] {
      var s := Run(actions[..|actions| - 1]);
      RunKeepsInv(actions[..|actions| - 1]);
      if Enabled(s, actions[|actions| - 1]) { StepKeepsInv(s, actions[|actions| - 1]); }
    }
  }

  /******* What it guarantees *******/

  ghost predicate ReturnedTrue(s: State, c: Caller, h: Handle) {
    c in s.calls && s.calls[c].job.Complete? && s.calls[c].job.h == h && s.calls[c].pc == Finished(Answered)
  }

  // No request is answered twice: over every interleaving, at most one write,
  // at most one close of `done`, and at most one Complete that returns true.
  // `done` is closed exactly when the slot is completed, up to the caller that
  // stands between the two statements.
  lemma AnsweredAtMostOnce(actions: seq<Action>, h: Handle)
    requires h in Run(actions).slots
    ensures
      var (s, slot) := (Run(actions), Run(actions).slots[h]);
      !s.panicked && slot.writes <= 1 && slot.doneCloses <= 1 &&
      (slot.doneCloses == 1 ==> slot.completed) &&
      (slot.completed && slot.doneCloses == 0 ==> exists c :: c in s.calls && s.calls[c].pc == Closing(h))
    ensures forall c, d :: ReturnedTrue(Run(actions), c, h) && ReturnedTrue(Run(actions), d, h) ==> c == d
    ensures forall c :: ReturnedTrue(Run(actions), c, h) ==>
      Run(actions).slots[h].writes == Writes(Run(actions).calls[c].job) && Run(actions).slots[h].completed
  {
    RunKeepsInv(actions);
    var s := Run(actions);
    assert SlotOk(s, h);
    assert forall c :: c in s.calls ==> CallOk(s, c);
  }

  // No request is stranded: one that is not completed is in the map, where a
  // Complete, a sweep or a drain finds it, or on the list of one under way.
  lemma NoRequestStranded(actions: seq<Action>, h: Handle)
    requires h in Run(actions).slots && !Run(actions).slots[h].completed
    ensures Pending(Run(actions), h)
  {
    RunKeepsInv(actions);
  }

  // A drain or sweep that has ended has completed all it took, with `done`
  // closed; a sweep took only what was past its deadline.  A Complete that
  // reports anything but an unknown handle leaves the slot completed too.
  lemma EndedCallsLeaveNothing(actions: seq<Action>, c: Caller, h: Handle)
    requires c in Run(actions).calls && Run(actions).calls[c].pc.Finished? && h in Run(actions).calls[c].took
    ensures h in Run(actions).slots
    ensures
      var (slot, job) := (Run(actions).slots[h], Run(actions).calls[c].job);
      slot.completed && slot.doneCloses == 1 && (job.Sweep? ==> Expired(slot, job.now))
  {
    RunKeepsInv(actions);
    var s := Run(actions);
    assert CallOk(s, c) && SlotOk(s, h);
  }

  // With no call under way the map holds exactly the unanswered requests.
  lemma QuietMapIsExact(actions: seq<Action>)
    requires forall c :: c in Run(actions).calls ==> Run(actions).calls[c].pc.Finished?
    ensures forall h :: h in Run(actions).slots ==> (h in Run(actions).live <==> !Run(actions).slots[h].completed)
    ensures forall h :: h in Run(actions).slots && Run(actions).slots[h].completed ==> Run(actions).slots[h].doneCloses == 1
  {
    RunKeepsInv(actions);
    var s := Run(actions);
    forall h | h in s.slots
      ensures (h in s.live <==> !s.slots[h].completed) && (s.slots[h].completed ==> s.slots[h].doneCloses == 1)
    {
      assert SlotOk(s, h);
      assert h in s.live ==> LiveOk(s, h);
      assert forall c :: c in s.calls ==> CallOk(s, c);
    }
  }

  // DrainAll takes everything in the map at that moment: whenever it begins,
  // every unanswered request is on some list.
  lemma DrainTakesAll(actions: seq<Action>, c: Caller)
    requires c !in Run(actions).calls
    ensures
      var (s, s') := (Run(actions), Apply(Run(actions), Begin(c, Drain)));
      s'.live == {} && forall h :: h in s.slots && !s.slots[h].completed ==>
        exists d :: d in s'.calls && !s'.calls[d].job.Complete? && h in s'.calls[d].todo
  {
    RunKeepsInv(actions);
    var (s, s') := (Run(actions), Apply(Run(actions), Begin(c, Drain)));
    StepKeepsInv(s, Begin(c, Drain));
    forall h | h in s.slots && !s.slots[h].completed
      ensures exists d :: d in s'.calls && !s'.calls[d].job.Complete? && h in s'.calls[d].todo
    {
      assert Pending(s', h);
    }
  }

  /******* What calls find, and that they end *******/

  lemma OneMoreAction(actions: seq<Action>, a: Action)
    ensures Run(actions + [a]) == if Enabled(Run(actions), a) then Apply(Run(actions), a) else Run(actions)
  {
    assert (actions + [a])[..|actions|] == actions;
  }

  // Complete sets out to answer a request that is in the map, and reports any
  // other as unknown; a sweep takes exactly what is past its deadline out of
  // the map; a drain takes all.
  lemma WhatCallsTake(actions: seq<Action>, c: Caller, job: Job)
    requires c !in Run(actions).calls
    ensures
      var (s, s') := (Run(actions), Run(actions + [Begin(c, job)]));
      c in s'.calls && s'.slots == s.slots &&
      var call := s'.calls[c];
      match job
      case Complete(h, _) =>
        s'.live == s.live && (if h in s.live then call.took == {h} && call.pc == Calling else call.pc == Finished(UnknownHandle))
      case Sweep(now) =>
        (forall h :: h in call.took <==> h in s.live && s.slots[h].deadline.Some? && now > s.slots[h].deadline.value) &&
        s'.live == s.live - call.took && call.pc == Calling
      case Drain => call.took == s.live && s'.live == {} && call.pc == Calling
  {
    OneMoreAction(actions, Begin(c, job));
  }

  // A finished Complete tells the truth: it reports success exactly if it was
  // the one that answered, and "already completed" only if another did.
  lemma ResultsTellTheTruth(actions: seq<Action>, c: Caller)
    requires c in Run(actions).calls && Run(actions).calls[c].job.Complete? && Run(actions).calls[c].pc.Finished?
    requires Run(actions).calls[c].pc.r != UnknownHandle
    ensures
      var (s, call) := (Run(actions), Run(actions).calls[c]);
      call.job.h in s.slots && s.slots[call.job.h].once.Spent? &&
      (call.pc.r == Answered <==> s.slots[call.job.h].once.who == c)
  {
    RunKeepsInv(actions);
    var (s, h) := (Run(actions), Run(actions).calls[c].job.h);
    assert CallOk(s, c);
    assert SlotOk(s, h);
  }

  // c's own next step.
  predicate Proceeds(s: State, a: Action, c: Caller) {
    Enabled(s, a) && !a.Register? && !a.Begin? && a.c == c
  }

  // A call under way can always take its next step, or waits for another
  // caller's Once, and that caller can.
  lemma CallsNeverStuck(actions: seq<Action>, c: Caller)
    requires c in Run(actions).calls && !Run(actions).calls[c].pc.Finished?
    ensures
      var s := Run(actions);
      (exists a :: Proceeds(s, a, c)) ||
      (exists h, a :: h in s.calls[c].todo && h in s.slots && s.slots[h].once.Running? && Proceeds(s, a, s.slots[h].once.who))
  {
    RunKeepsInv(actions);
    var s := Run(actions);
    assert CallOk(s, c);
    if s.calls[c].pc == Deleting {
      assert Proceeds(s, Delete(c), c);
    } else if s.calls[c].pc != Calling {
      InsideProceeds(s, c);
    } else if s.calls[c].todo == {} {
      assert Proceeds(s, End(c), c);
    } else {
      var h :| h in s.calls[c].todo;
      if !s.slots[h].once.Running? {
        assert Proceeds(s, Enter(c, h), c);
      } else {
        assert SlotOk(s, h);
        var d := s.slots[h].once.who;
        assert CallOk(s, d);
        InsideProceeds(s, d);
        var a :| Proceeds(s, a, d);
        assert h in s.calls[c].todo && Proceeds(s, a, s.slots[h].once.who);
      }
    }
  }

  lemma InsideProceeds(s: State, c: Caller)
    requires c in s.calls && CallOk(s, c) && Inside(s.calls[c].pc)
    ensures exists a :: Proceeds(s, a, c)
  {
    match s.calls[c].pc
    case Writing(_) => assert Proceeds(s, Write(c), c);
    case Marking(_) => assert Proceeds(s, Mark(c), c);
    case Closing(_) => assert Proceeds(s, CloseDone(c), c);
    case Leaving(_) => assert Proceeds(s, Leave(c), c);
  }
}
