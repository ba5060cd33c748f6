/**
 The TCP session registry: an id index and an owner index kept in step by
 every method, and slots torn down outside the lock.

 The first half is the registry under its mutex; the second interleaves the
 three close operations with each other and with registrations, at the grain
 of the mutex and of the atomic Closed flag.  Handle ids are assumed never to
 repeat.
 */
module Sessions {
  import opened JsonValues

  type Id = string

  // A registered session; `hasConn` is false for a nil net.Conn.
  datatype Slot = Slot(id: Id, owner: string, hasConn: bool)

  type Index = map<Id, Slot>
  type OwnerIndex = map<string, map<Id, Slot>>

  function OwnedBy(slots: Index, owner: string): Index {
    map id | id in slots && slots[id].owner == owner :: slots[id]
  }

  function Owners(slots: Index): set<string> {
    set id | id in slots :: slots[id].owner
  }

  // What byOwner has to be: slots grouped by owner, no group empty.
  function Grouped(slots: Index): OwnerIndex {
    map owner | owner in Owners(slots) :: OwnedBy(slots, owner)
  }

  predicate Keyed(slots: Index) {
    forall id :: id in slots ==> slots[id].id == id
  }

  datatype Registry = Registry(slots: Index, byOwner: OwnerIndex)
  {
    ghost predicate Ok() {
      Keyed(slots) && byOwner == Grouped(slots)
    }
  }

  /******* The critical sections, on both maps *******/

  function Insert(g: Registry, slot: Slot): Registry {
    var group := if slot.owner in g.byOwner then g.byOwner[slot.owner] else map[];
    Registry(g.slots[slot.id := slot], g.byOwner[slot.owner := group[slot.id := slot]])
  }

  function RemoveOne(g: Registry, id: Id): Registry {
    if id !in g.slots then g
    else
      var owner := g.slots[id].owner;
      if owner !in g.byOwner then Registry(g.slots - {id}, g.byOwner)
      else
        var group := g.byOwner[owner] - {id};
        Registry(g.slots - {id}, if group == map[] then g.byOwner - {owner} else g.byOwner[owner := group])
  }

  function RemoveOwner(g: Registry, owner: string): Registry {
    if owner !in g.byOwner then g else Registry(g.slots - g.byOwner[owner].Keys, g.byOwner - {owner})
  }

  lemma InsertOk(g: Registry, slot: Slot)
    requires g.Ok() && slot.id !in g.slots
    ensures Insert(g, slot).Ok()
  {
    var g' := Insert(g, slot);
    assert Owners(g'.slots) == Owners(g.slots) + {slot.owner} by {
      assert g'.slots[slot.id] == slot;
      forall id | id in g.slots ensures g.slots[id].owner in Owners(g'.slots) { assert g'.slots[id] == g.slots[id]; }
    }
    forall owner | owner in Owners(g'.slots) ensures OwnedBy(g'.slots, owner) == g'.byOwner[owner] {
      if owner == slot.owner {
        if owner !in Owners(g.slots) { assert OwnedBy(g.slots, owner) == map[]; }
        assert OwnedBy(g'.slots, owner) == OwnedBy(g.slots, owner)[slot.id := slot];
      } else {
        assert OwnedBy(g'.slots, owner) == OwnedBy(g.slots, owner);
      }
    }
    assert g'.byOwner == Grouped(g'.slots);
  }

  lemma RemoveOneOk(g: Registry, id: Id)
    requires g.Ok()
    ensures RemoveOne(g, id).Ok() && RemoveOne(g, id).slots == g.slots - {id}
  {
    if id in g.slots {
      var g' := RemoveOne(g, id);
      var owner := g.slots[id].owner;
      assert owner in Owners(g.slots);
      assert OwnedBy(g'.slots, owner) == g.byOwner[owner] - {id};
      forall o | o != owner ensures OwnedBy(g'.slots, o) == OwnedBy(g.slots, o) && (o in Owners(g'.slots) <==> o in Owners(g.slots)) {
        OwnersSurvive(g.slots, g'.slots, o);
      }
      GroupsNotEmpty(g'.slots, owner);
      assert g'.byOwner == Grouped(g'.slots);
    } else {
      assert g.slots - {id} == g.slots;
    }
  }

  lemma GroupsNotEmpty(slots: Index, owner: string)
    ensures owner in Owners(slots) <==> OwnedBy(slots, owner) != map[]
  {
    if OwnedBy(slots, owner) != map[] {
      var id :| id in OwnedBy(slots, owner);
    }
    if owner in Owners(slots) {
      var id :| id in slots && slots[id].owner == owner;
      assert id in OwnedBy(slots, owner);
    }
  }

  lemma OwnersSurvive(slots: Index, slots': Index, owner: string)
    requires slots'.Keys <= slots.Keys && forall id :: id in slots' ==> slots'[id] == slots[id]
    requires forall id :: id in slots && slots[id].owner == owner ==> id in slots'
    ensures OwnedBy(slots', owner) == OwnedBy(slots, owner)
    ensures owner in Owners(slots') <==> owner in Owners(slots)
  {
    GroupsNotEmpty(slots, owner);
    GroupsNotEmpty(slots', owner);
  }

  lemma RemoveOwnerOk(g: Registry, owner: string)
    requires g.Ok()
    ensures RemoveOwner(g, owner).Ok()
    ensures RemoveOwner(g, owner).slots == g.slots - OwnedBy(g.slots, owner).Keys
  {
    var g' := RemoveOwner(g, owner);
    GroupsNotEmpty(g.slots, owner);
    if owner in g.byOwner {
      forall o | o != owner ensures OwnedBy(g'.slots, o) == OwnedBy(g.slots, o) && (o in Owners(g'.slots) <==> o in Owners(g.slots)) {
        OwnersSurvive(g.slots, g'.slots, o);
      }
      assert OwnedBy(g'.slots, owner) == map[];
      GroupsNotEmpty(g'.slots, owner);
      assert g'.byOwner == Grouped(g'.slots);
    } else {
      assert g.slots - OwnedBy(g.slots, owner).Keys == g.slots;
    }
  }

  lemma EmptyOk()
    ensures Registry(map[], map[]).Ok()
  {
    assert Grouped(map[]) == map[];
  }

  /******* The registry object *******/

  datatype Resolution = Live(slot: Slot) | UnknownSession | SessionClosed

  // The slots `found` lists, each once.
  ghost predicate Lists(found: seq<Slot>, group: Index) {
    (forall i :: 0 <= i < |found| ==> found[i].id in group && found[i] == group[found[i].id]) &&
    (forall i, j :: 0 <= i < j < |found| ==> found[i].id != found[j].id) &&
    (forall id :: id in group ==> exists i :: 0 <= i < |found| && found[i].id == id)
  }

  lemma ListsNone()
    ensures Lists([], map[])
  {
  }

  lemma ListsOneMore(found: seq<Slot>, group: Index, id: Id, slot: Slot)
    requires Lists(found, group) && id !in group && slot.id == id
    ensures Lists(found + [slot], group[id := slot])
  {
    var (more, all) := (found + [slot], group[id := slot]);
    forall k | k in all ensures exists i :: 0 <= i < |more| && more[i].id == k {
      if k == id { assert more[|found|].id == k; } else {
        var i :| 0 <= i < |found| && found[i].id == k;
        assert more[i].id == k;
      }
    }
  }

  lemma TakeNext(all: Index, group: Index, todo: set<Id>, id: Id)
    requires todo <= group.Keys && id in todo
    ensures group - (todo - {id}) == (group - todo)[id := group[id]]
    ensures all - (group - (todo - {id})).Keys == (all - (group - todo).Keys) - {id}
  {
  }

  // `closed`: the sessions whose Closed flag is set; `torn`: the slots whose
  // `done` channel and connection were closed, in that order.
  class SessionRegistry {
    var slots: Index
    var byOwner: OwnerIndex
    var closed: set<Id>
    var torn: seq<Slot>

    ghost function State(): Registry
      reads this
    {
      Registry(slots, byOwner)
    }

    ghost predicate Valid()
      reads this
    {
      State().Ok() && slots.Keys !! closed
    }

    constructor ()
      ensures Valid() && slots == map[] && closed == {} && torn == []
    {
      slots, byOwner, closed, torn := map[], map[], {}, [];
      new;
      EmptyOk();
    }

    method Register(id: Id, owner: string, hasConn: bool) returns (slot: Slot)
      requires Valid() && id !in slots && id !in closed
      modifies this`slots, this`byOwner
      ensures Valid() && slot == Slot(id, owner, hasConn) && slots == old(slots)[id := slot]
      ensures State() == Insert(old(State()), slot)
    {
      slot := Slot(id, owner, hasConn);
      InsertOk(State(), slot);
      slots := slots[id := slot];
      var owners := map[];
      if owner in byOwner {
        owners := byOwner[owner];
      }
      owners := owners[id := slot];
      byOwner := byOwner[owner := owners];
    }

    // A registered session is never flagged, so between the other methods the
    // answer ErrSessionClosed does not occur.
    method Resolve(id: Id) returns (r: Resolution)
      ensures r.Live? <==> id in slots && id !in closed
      ensures r.Live? ==> r.slot == slots[id]
      ensures r.UnknownSession? <==> id !in slots
      ensures Valid() ==> !r.SessionClosed?
    {
      if id !in slots {
        return UnknownSession;
      }
      if id in closed {
        return SessionClosed;
      }
      return Live(slots[id]);
    }

    // The snapshot that goes through byOwner equals a filter of all slots.
    method SessionsByOwner(owner: string) returns (out: seq<Slot>)
      requires Valid()
      ensures Lists(out, OwnedBy(slots, owner))
    {
      GroupsNotEmpty(slots, owner);
      if owner !in byOwner {
        return [];
      }
      out := Collect(byOwner[owner]);
    }

    static method Collect(group: Index) returns (out: seq<Slot>)
      requires Keyed(group)
      ensures Lists(out, group)
    {
      out := [];
      var todo := group.Keys;
      ghost var seen: Index := map[];
      while todo != {}
        invariant todo <= group.Keys && seen == group - todo && Lists(out, seen)
        decreases todo
      {
        var id :| id in todo;
        ListsOneMore(out, seen, id, group[id]);
        TakeNext(group, group, todo, id);
        out := out + [group[id]];
        seen, todo := seen[id := group[id]], todo - {id};
      }
      assert seen == group;
    }

    // The part of Close under the lock: the slot to tear down, if any.
    method Take(id: Id) returns (victim: Option<Slot>)
      requires Valid()
      modifies this`slots, this`byOwner
      ensures Valid() && slots == old(slots) - {id} && State() == RemoveOne(old(State()), id)
      ensures victim == if id in old(slots) then Some(old(slots)[id]) else None
    {
      RemoveOneOk(State(), id);
      if id !in slots {
        return None;
      }
      var slot := slots[id];
      slots := slots - {id};
      if slot.owner in byOwner {
        var owners := byOwner[slot.owner] - {id};
        if owners == map[] {
          byOwner := byOwner - {slot.owner};
        } else {
          byOwner := byOwner[slot.owner := owners];
        }
      }
      victim := Some(slot);
    }

    // The part of CloseByOwner under the lock.
    method TakeOwner(owner: string) returns (victims: seq<Slot>)
      requires Valid()
      modifies this`slots, this`byOwner
      ensures Valid() && slots == old(slots) - OwnedBy(old(slots), owner).Keys
      ensures State() == RemoveOwner(old(State()), owner) && Lists(victims, OwnedBy(old(slots), owner))
    {
      RemoveOwnerOk(State(), owner);
      GroupsNotEmpty(slots, owner);
      if owner !in byOwner {
        return [];
      }
      ghost var before := slots;
      var group := byOwner[owner];
      assert Keyed(group) && RemoveOwner(State(), owner) == Registry(before - group.Keys, byOwner - {owner});
      hide Lists, Grouped, OwnedBy, Owners, RemoveOwner;
      victims := [];
      ListsNone();
      var todo := group.Keys;
      ghost var seen: Index := map[];
      while todo != {}
        invariant todo <= group.Keys && seen == group - todo && Lists(victims, seen)
        invariant slots == before - seen.Keys && byOwner == old(byOwner)
        decreases todo
      {
        var id :| id in todo;
        ListsOneMore(victims, seen, id, group[id]);
        victims := victims + [group[id]];
        TakeNext(before, group, todo, id);
        slots := slots - {id};
        seen, todo := seen[id := group[id]], todo - {id};
      }
      assert seen == group;
      byOwner := byOwner - {owner};
    }

    // The part of CloseAll under the lock.
    method TakeAll() returns (victims: seq<Slot>)
      requires Valid()
      modifies this`slots, this`byOwner
      ensures Valid() && slots == map[] && byOwner == map[] && Lists(victims, old(slots))
    {
      victims := Collect(slots);
      slots, byOwner := map[], map[];
      EmptyOk();
    }

    method Teardown(slot: Slot)
      modifies this`closed, this`torn
      ensures closed == old(closed) + {slot.id}
      ensures torn == if slot.id in old(closed) then old(torn) else old(torn) + [slot]
    {
      if slot.id in closed {
        return;
      }
      closed := closed + {slot.id};
      torn := torn + [slot];
    }

    // Every victim whose flag is clear is torn down, in the order of the list.
    method TeardownAll(victims: seq<Slot>, ghost group: Index)
      requires Lists(victims, group) && group.Keys !! closed
      modifies this`closed, this`torn
      ensures closed == old(closed) + group.Keys && torn == old(torn) + victims
    {
      for i := 0 to |victims|
        invariant torn == old(torn) + victims[..i]
        invariant forall id :: id in closed <==> id in old(closed) || exists j :: 0 <= j < i && victims[j].id == id
      {
        assert victims[i].id in group && victims[..i + 1] == victims[..i] + [victims[i]];
        Teardown(victims[i]);
      }
      assert victims[..|victims|] == victims;
    }

    method Close(id: Id)
      requires Valid()
      modifies this
      ensures Valid() && slots == old(slots) - {id} && State() == RemoveOne(old(State()), id)
      ensures id in old(slots) ==> closed == old(closed) + {id} && torn == old(torn) + [old(slots)[id]]
      ensures id !in old(slots) ==> closed == old(closed) && torn == old(torn)
    {
      hide Grouped, OwnedBy, Owners, RemoveOne;
      var victim := Take(id);
      if victim.Some? {
        Teardown(victim.value);
      }
    }

    method CloseByOwner(owner: string)
      requires Valid()
      modifies this
      ensures Valid() && slots == old(slots) - OwnedBy(old(slots), owner).Keys && State() == RemoveOwner(old(State()), owner)
      ensures closed == old(closed) + OwnedBy(old(slots), owner).Keys
      ensures old(torn) <= torn && Lists(torn[|old(torn)|..], OwnedBy(old(slots), owner))
    {
      ghost var group := OwnedBy(slots, owner);
      hide Lists, Grouped, Owners, RemoveOwner;
      var victims := TakeOwner(owner);
      TeardownAll(victims, group);
    }

    method CloseAll()
      requires Valid()
      modifies this
      ensures Valid() && slots == map[] && byOwner == map[] && closed == old(closed) + old(slots).Keys
      ensures old(torn) <= torn && Lists(torn[|old(torn)|..], old(slots))
    {
      hide Lists, Grouped, Owners;
      ghost var group := slots;
      var victims := TakeAll();
      TeardownAll(victims, group);
    }
  }

  /******* Interleaved closes *******/

  type Caller = nat

  // Between two statements of `teardown`, or at a victim's start.
  datatype Pc = NextVictim | Flagged(id: Id) | Signalled(id: Id)

  // A Close, CloseByOwner or CloseAll past its critical section.
  datatype Closing = Closing(todo: set<Id>, pc: Pc)

  // Everything about a slot but its place in the indexes; `taker` is the call
  // that removed it from them.
  datatype Fate = Fate(slot: Slot, taker: Option<Caller>, closed: bool, doneCloses: nat, connCloses: nat)

  datatype State = State(reg: Registry, fates: map<Id, Fate>, calls: map<Caller, Closing>, panicked: bool)

  datatype Request = CloseOne(id: Id) | CloseOwner(owner: string) | CloseAll

  datatype Action =
    | Open(slot: Slot)
    | Begin(c: Caller, request: Request)
    | Flag(c: Caller, id: Id) | Signal(c: Caller) | HangUp(c: Caller)

  predicate Enabled(s: State, a: Action) {
    match a
    case Open(slot) => slot.id !in s.fates
    case Begin(c, _) => c !in s.calls
    case Flag(c, id) => c in s.calls && s.calls[c].pc == NextVictim && id in s.calls[c].todo && id in s.fates
    case Signal(c) => c in s.calls && s.calls[c].pc.Flagged? && s.calls[c].pc.id in s.fates
    case HangUp(c) => c in s.calls && s.calls[c].pc.Signalled? && s.calls[c].pc.id in s.fates
  }

  function Remaining(g: Registry, request: Request): Registry {
    match request
    case CloseOne(id) => RemoveOne(g, id)
    case CloseOwner(owner) => RemoveOwner(g, owner)
    case CloseAll => Registry(map[], map[])
  }

  // What the request takes out of the id index.
  function Taken(g: Registry, request: Request): set<Id> {
    match request
    case CloseOne(id) => if id in g.slots then {id} else {}
    case CloseOwner(owner) => if owner in g.byOwner then g.byOwner[owner].Keys else {}
    case CloseAll => g.slots.Keys
  }

  function Apply(s: State, a: Action): State
    requires Enabled(s, a)
  {
    match a
    case Open(slot) => s.(reg := Insert(s.reg, slot), fates := s.fates[slot.id := Fate(slot, None, false, 0, 0)])
    case Begin(c, request) =>
      var victims := Taken(s.reg, request);
      s.(reg := Remaining(s.reg, request), calls := s.calls[c := Closing(victims, NextVictim)],
         fates := map id | id in s.fates :: if id in victims then s.fates[id].(taker := Some(c)) else s.fates[id])
    case Flag(c, id) =>
      // a failed compare-and-swap skips the slot
      if s.fates[id].closed then s.(calls := s.calls[c := Closing(s.calls[c].todo - {id}, NextVictim)])
      else s.(fates := s.fates[id := s.fates[id].(closed := true)], calls := s.calls[c := s.calls[c].(pc := Flagged(id))])
    case Signal(c) =>
      var id := s.calls[c].pc.id;
      s.(fates := s.fates[id := s.fates[id].(doneCloses := s.fates[id].doneCloses + 1)],
         calls := s.calls[c := s.calls[c].(pc := Signalled(id))],
         panicked := s.panicked || s.fates[id].doneCloses > 0)
    case HangUp(c) =>
      var id := s.calls[c].pc.id;
      var n := if s.fates[id].slot.hasConn then 1 else 0;
      s.(fates := s.fates[id := s.fates[id].(connCloses := s.fates[id].connCloses + n)],
         calls := s.calls[c := Closing(s.calls[c].todo - {id}, NextVictim)])
  }

  const Init := State(Registry(map[], map[]), map[], map[], false)

  function Run(actions: seq<Action>): State {
    if actions == [] then Init
    else
      var s := Run(actions[..|actions| - 1]);
      var a := actions[|actions| - 1];
      if Enabled(s, a) then Apply(s, a) else s
  }

  predicate Untouched(f: Fate) {
    !f.closed && f.doneCloses == 0 && f.connCloses == 0
  }

  predicate TornDown(f: Fate) {
    f.closed && f.doneCloses == 1 && f.connCloses == if f.slot.hasConn then 1 else 0
  }

  ghost predicate FateOk(s: State, id: Id)
    requires id in s.fates
  {
    var f := s.fates[id];
    f.slot.id == id &&
    match f.taker
    case None => id in s.reg.slots && s.reg.slots[id] == f.slot && Untouched(f)
    case Some(c) =>
      id !in s.reg.slots && c in s.calls &&
      var call := s.calls[c];
      if id !in call.todo then TornDown(f)
      else if call.pc == Flagged(id) then f.closed && f.doneCloses == 0 && f.connCloses == 0
      else if call.pc == Signalled(id) then f.closed && f.doneCloses == 1 && f.connCloses == 0
      else Untouched(f)
  }

  ghost predicate CallOk(s: State, c: Caller)
    requires c in s.calls
  {
    (forall id :: id in s.calls[c].todo ==> id in s.fates && s.fates[id].taker == Some(c)) &&
    (s.calls[c].pc.NextVictim? || s.calls[c].pc.id in s.calls[c].todo)
  }

  ghost predicate Inv(s: State) {
    s.reg.Ok() && s.reg.slots.Keys <= s.fates.Keys && !s.panicked &&
    (forall id :: id in s.fates ==> FateOk(s, id)) &&
    (forall c :: c in s.calls ==> CallOk(s, c))
  }

  // What a step does to the id index.
  ghost predicate IndexStep(s: State, a: Action)
    requires Enabled(s, a)
  {
    var slots' := Apply(s, a).reg.slots;
    match a
    case Open(slot) => slots' == s.reg.slots[slot.id := slot]
    case Begin(_, request) =>
      Taken(s.reg, request) <= s.reg.slots.Keys && slots' == s.reg.slots - Taken(s.reg, request)
    case _ => slots' == s.reg.slots
  }

  lemma IndexesKept(s: State, a: Action)
    requires s.reg.Ok() && s.reg.slots.Keys <= s.fates.Keys && Enabled(s, a)
    ensures IndexStep(s, a) && Apply(s, a).reg.Ok() && Apply(s, a).reg.slots.Keys <= Apply(s, a).fates.Keys
  {
    match a
    case Open(slot) => InsertOk(s.reg, slot);
    case Begin(_, CloseOne(id)) => RemoveOneOk(s.reg, id);
    case Begin(_, CloseOwner(owner)) =>
      RemoveOwnerOk(s.reg, owner);
      GroupsNotEmpty(s.reg.slots, owner);
      assert Taken(s.reg, a.request) == OwnedBy(s.reg.slots, owner).Keys;
    case Begin(_, CloseAll) => EmptyOk();
    case _ =>
  }

  lemma FateKept(s: State, a: Action, id: Id)
    requires Enabled(s, a) && IndexStep(s, a) && id in Apply(s, a).fates && (id in s.fates ==> FateOk(s, id))
    requires !a.Open? && !a.Begin? ==> CallOk(s, a.c)
    ensures FateOk(Apply(s, a), id)
  {
    hide Insert, Remaining, Taken;
  }

  lemma CallKept(s: State, a: Action, c: Caller)
    requires Enabled(s, a) && IndexStep(s, a) && c in Apply(s, a).calls && (c in s.calls ==> CallOk(s, c))
    requires s.reg.slots.Keys <= s.fates.Keys
    requires forall id :: id in s.fates && id in s.reg.slots ==> s.fates[id].taker == None
    requires !a.Open? && !a.Begin? ==> CallOk(s, a.c)
    ensures CallOk(Apply(s, a), c)
  {
    hide Insert, Remaining, Taken;
  }

  lemma StepKeepsInv(s: State, a: Action)
    requires Inv(s) && Enabled(s, a)
    ensures Inv(Apply(s, a))
  {
    var s' := Apply(s, a);
    IndexesKept(s, a);
    if !a.Open? && !a.Begin? { assert CallOk(s, a.c); }
    if a.Signal? { assert FateOk(s, s.calls[a.c].pc.id); }
    assert !s'.panicked;
    assert forall id :: id in s.fates && id in s.reg.slots ==> s.fates[id].taker == None by {
      assert forall id :: id in s.fates ==> FateOk(s, id);
    }
    hide *;
    forall id | id in s'.fates ensures FateOk(s', id) { FateKept(s, a, id) by { assert id in s.fates ==> FateOk(s, id); } }
    forall c | c in s'.calls ensures CallOk(s', c) { CallKept(s, a, c); }
  }

  lemma {:induction false} RunKeepsInv(actions: seq<Action>)
    ensures Inv(Run(actions))
  {
    if actions != [] {
      var s := Run(actions[..|actions| - 1]);
      RunKeepsInv(actions[..|actions| - 1]);
      if Enabled(s, actions[|actions| - 1]) { StepKeepsInv(s, actions[|actions| - 1]); }
    } else {
      EmptyOk();
    }
  }

  // In every reachable state the owner index is the id index grouped by owner.
  lemma IndexesAgree(actions: seq<Action>)
    ensures var g := Run(actions).reg; g.byOwner == Grouped(g.slots) && forall o :: o in g.byOwner ==> g.byOwner[o] != map[]
  {
    RunKeepsInv(actions);
    var g := Run(actions).reg;
    forall o | o in g.byOwner ensures g.byOwner[o] != map[] { GroupsNotEmpty(g.slots, o); }
  }

  ghost predicate OnListOf(s: State, c: Caller, id: Id) {
    c in s.calls && id in s.calls[c].todo
  }

  // Over every interleaving: a session that left the registry has had `done`
  // and its connection closed exactly once, or is on the list of one close
  // that is still under way; a session in the registry has had neither.
  lemma ClosedExactlyOnce(actions: seq<Action>, id: Id)
    requires id in Run(actions).fates
    ensures !Run(actions).panicked && Run(actions).fates[id].doneCloses <= 1 && Run(actions).fates[id].connCloses <= 1
    ensures id in Run(actions).reg.slots ==> Untouched(Run(actions).fates[id])
    ensures id !in Run(actions).reg.slots ==>
      TornDown(Run(actions).fates[id]) || exists c :: OnListOf(Run(actions), c, id)
    ensures forall c, d :: OnListOf(Run(actions), c, id) && OnListOf(Run(actions), d, id) ==> c == d
  {
    RunKeepsInv(actions);
    var s := Run(actions);
    assert FateOk(s, id);
    assert forall c :: c in s.calls ==> CallOk(s, c);
    if s.fates[id].taker.Some? && !TornDown(s.fates[id]) { assert OnListOf(s, s.fates[id].taker.value, id); }
  }

  // Removal happens once per session, so the compare-and-swap in teardown
  // never fails: the flag of a victim is always still clear.
  lemma SwapNeverFails(actions: seq<Action>, c: Caller, id: Id)
    requires Enabled(Run(actions), Flag(c, id))
    ensures !Run(actions).fates[id].closed
  {
    RunKeepsInv(actions);
    var s := Run(actions);
    assert CallOk(s, c) && FateOk(s, id);
  }

  lemma FateLasts(s: State, a: Action, id: Id)
    requires Enabled(s, a) && id in s.fates
    ensures id in Apply(s, a).fates && Apply(s, a).fates[id].slot == s.fates[id].slot
  {
  }

  lemma {:induction false} FatesLast(actions: seq<Action>, i: nat, id: Id)
    requires i <= |actions| && id in Run(actions[..i]).fates
    ensures id in Run(actions).fates && Run(actions).fates[id].slot == Run(actions[..i]).fates[id].slot
  {
    if i == |actions| {
      assert actions[..i] == actions;
    } else {
      var front := actions[..|actions| - 1];
      assert front[..i] == actions[..i];
      FatesLast(front, i, id);
      hide Apply, Enabled;
      if Enabled(Run(front), actions[|actions| - 1]) { FateLasts(Run(front), actions[|actions| - 1], id); }
    }
  }

  // Resolve looks the session up after i steps and reads its flag later, with
  // any steps between: the slot it answers with is the one it found, neither
  // signalled nor hung up; ErrSessionClosed means that the session was taken
  // out of the registry in between.
  lemma ResolvedIsOpen(actions: seq<Action>, i: nat, id: Id)
    requires i <= |actions| && id in Run(actions[..i]).reg.slots
    ensures id in Run(actions).fates && Run(actions).fates[id].slot == Run(actions[..i]).reg.slots[id]
    ensures !Run(actions).fates[id].closed ==> Untouched(Run(actions).fates[id])
    ensures Run(actions).fates[id].closed ==> id !in Run(actions).reg.slots
  {
    RunKeepsInv(actions[..i]);
    RunKeepsInv(actions);
    assert FateOk(Run(actions[..i]), id);
    FatesLast(actions, i, id);
    assert FateOk(Run(actions), id);
  }

  // A close under way is never stuck: it can go on with its victim or start
  // on the next.
  lemma CloseNeverStuck(actions: seq<Action>, c: Caller)
    requires c in Run(actions).calls && Run(actions).calls[c].todo != {}
    ensures
      var s := Run(actions);
      Enabled(s, Signal(c)) || Enabled(s, HangUp(c)) || exists id :: Enabled(s, Flag(c, id))
  {
    RunKeepsInv(actions);
    var s := Run(actions);
    assert CallOk(s, c);
    if s.calls[c].pc.NextVictim? {
      var id :| id in s.calls[c].todo;
      assert Enabled(s, Flag(c, id));
    }
  }
}
