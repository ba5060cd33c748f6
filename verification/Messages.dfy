/**
 Messages over a heap of Go maps, with copy-on-write clones.

 A `map[string]any` is a cell of the heap, known by its reference; a message
 points to its root cell and carries the `shared` flag.  Slices are never
 written in place by a message, so they are values (which may hold maps).

 `trees` is what each message means if every clone were an eager deep copy.
 `StoreOk` ties the two together: each message's cells form a tree that spells
 its meaning, and an unshared message's cells belong to no other message.
 */
module Messages {
  import opened JsonValues

  type Ref = nat

  datatype Val = Atom(j: Json) | MapRef(r: Ref) | Slice(items: seq<Val>)

  type Cell = map<string, Val>

  type Heap = map<Ref, Cell>

  datatype Msg = Msg(id: string, data: Ref, shared: bool)

  /******* Cells that spell a JSON value *******/

  // v spells t: same keys, same elements, same atoms.
  ghost predicate Spells(h: Heap, v: Val, t: Json)
    decreases t
  {
    match t
    case Obj(f) =>
      v.MapRef? && v.r in h && h[v.r].Keys == f.Keys && forall k :: k in f ==> Spells(h, h[v.r][k], f[k])
    case Arr(items) =>
      v.Slice? && |v.items| == |items| && forall i :: 0 <= i < |items| ==> Spells(h, v.items[i], items[i])
    case _ => v == Atom(t)
  }

  // The cells v is made of.
  ghost function Cells(h: Heap, v: Val, t: Json): set<Ref>
    decreases t
  {
    match t
    case Obj(f) =>
      if v.MapRef? && v.r in h then {v.r} + set k, x | k in f && k in h[v.r] && x in Cells(h, h[v.r][k], f[k]) :: x
      else {}
    case Arr(items) =>
      if v.Slice? then set i: nat, x | i < |items| && i < |v.items| && x in Cells(h, v.items[i], items[i]) :: x
      else {}
    case _ => {}
  }

  // v spells t and no cell is reached twice: a write at one path shows at
  // that path only.
  ghost predicate Tree(h: Heap, v: Val, t: Json)
    decreases t
  {
    Spells(h, v, t) &&
    match t
    case Obj(f) =>
      (forall k :: k in f ==> v.r !in Cells(h, h[v.r][k], f[k]) && Tree(h, h[v.r][k], f[k])) &&
      (forall k, l :: k in f && l in f && k != l ==> Cells(h, h[v.r][k], f[k]) !! Cells(h, h[v.r][l], f[l]))
    case _ => true
  }

  // h' still has the cells `kept` of h.
  ghost predicate Agree(h: Heap, h': Heap, kept: set<Ref>) {
    forall r :: r in kept ==> r in h && r in h' && h'[r] == h[r]
  }

  lemma {:induction false} CellsAllocated(h: Heap, v: Val, t: Json)
    requires Spells(h, v, t)
    ensures Cells(h, v, t) <= h.Keys
    decreases t
  {
    match t
    case Obj(f) => forall k | k in f { CellsAllocated(h, h[v.r][k], f[k]); }
    case Arr(items) => forall i | 0 <= i < |items| { CellsAllocated(h, v.items[i], items[i]); }
    case _ =>
  }

  // A value only depends on its own cells.
  lemma {:induction false} Frame(h: Heap, h': Heap, v: Val, t: Json)
    requires Spells(h, v, t) && Agree(h, h', Cells(h, v, t))
    ensures Spells(h', v, t) && Cells(h', v, t) == Cells(h, v, t)
    ensures Tree(h, v, t) ==> Tree(h', v, t)
    decreases t
  {
    match t
    case Obj(f) =>
      forall k | k in f
        ensures Spells(h', h[v.r][k], f[k]) && Cells(h', h[v.r][k], f[k]) == Cells(h, h[v.r][k], f[k])
        ensures Tree(h, h[v.r][k], f[k]) ==> Tree(h', h[v.r][k], f[k])
      {
        assert forall x :: x in Cells(h, h[v.r][k], f[k]) ==> x in Cells(h, v, t);
        Frame(h, h', h[v.r][k], f[k]);
      }
    case Arr(items) =>
      forall i: nat | i < |items|
        ensures Spells(h', v.items[i], items[i]) && Cells(h', v.items[i], items[i]) == Cells(h, v.items[i], items[i])
      {
        assert forall x :: x in Cells(h, v.items[i], items[i]) ==> x in Cells(h, v, t);
        Frame(h, h', v.items[i], items[i]);
      }
    case _ =>
  }

  // One level of Tree: the entry k of root r is itself a tree, off r.
  ghost predicate Entry(h: Heap, r: Ref, v: Val, t: Json) {
    Tree(h, v, t) && r !in Cells(h, v, t)
  }

  ghost predicate Apart(h: Heap, v: Val, t: Json, h': Heap, w: Val, u: Json) {
    Cells(h, v, t) !! Cells(h', w, u)
  }

  ghost predicate Entries(h: Heap, r: Ref, c: Cell, f: Fields) {
    c.Keys == f.Keys && (forall k :: k in f ==> Entry(h, r, c[k], f[k])) &&
    (forall k, l :: k in f && l in f && k != l ==> Apart(h, c[k], f[k], h, c[l], f[l]))
  }

  lemma TreeIsEntries(h: Heap, r: Ref, f: Fields)
    ensures Tree(h, MapRef(r), Obj(f)) <==> r in h && Entries(h, r, h[r], f)
  {
    if r in h && Entries(h, r, h[r], f) {
      assert forall k :: k in f ==> Entry(h, r, h[r][k], f[k]);
      assert Spells(h, MapRef(r), Obj(f));
      forall k, l | k in f && l in f && k != l ensures Cells(h, h[r][k], f[k]) !! Cells(h, h[r][l], f[l]) {
        assert Apart(h, h[r][k], f[k], h, h[r][l], f[l]);
      }
    }
  }

  // r's cells are r and those of its entries.
  lemma RootCells(h: Heap, r: Ref, f: Fields, bound: set<Ref>)
    requires Spells(h, MapRef(r), Obj(f)) && r in bound
    requires forall k :: k in f ==> Spells(h, h[r][k], f[k]) && Cells(h, h[r][k], f[k]) <= bound
    ensures Cells(h, MapRef(r), Obj(f)) <= bound
  {
  }

  lemma EntryCells(h: Heap, r: Ref, f: Fields, k: string)
    requires Spells(h, MapRef(r), Obj(f)) && k in f
    ensures Spells(h, h[r][k], f[k]) && Cells(h, h[r][k], f[k]) <= Cells(h, MapRef(r), Obj(f))
    ensures r in Cells(h, MapRef(r), Obj(f))
  {
  }

  // Writing key k of the root cell, in a heap that kept the other entries.
  lemma WriteKey(h: Heap, r: Ref, f: Fields, h': Heap, k: string, v: Val, t: Json)
    requires Tree(h, MapRef(r), Obj(f)) && r in h' && h'[r] == h[r][k := v]
    requires Entry(h', r, v, t)
    requires forall l :: l in f && l != k ==> Agree(h, h', Cells(h, h[r][l], f[l])) && Apart(h', v, t, h, h[r][l], f[l])
    ensures Tree(h', MapRef(r), Obj(f[k := t]))
    ensures Cells(h', MapRef(r), Obj(f[k := t])) <= Cells(h, MapRef(r), Obj(f)) + Cells(h', v, t)
  {
    TreeIsEntries(h, r, f);
    TreeIsEntries(h', r, f[k := t]);
    hide Spells, Cells, Tree;
    var g := f[k := t];
    forall l | l in f && l != k
      ensures Entry(h', r, h[r][l], f[l]) && Cells(h', h[r][l], f[l]) == Cells(h, h[r][l], f[l])
    {
      assert Entry(h, r, h[r][l], f[l]);
      TreeSpells(h, h[r][l], f[l]);
      Frame(h, h', h[r][l], f[l]);
      TreeSpells(h', h[r][l], f[l]);
    }
    forall l, m | l in g && m in g && l != m ensures Apart(h', h'[r][l], g[l], h', h'[r][m], g[m]) {
      if l in f && m in f { assert Apart(h, h[r][l], f[l], h, h[r][m], f[m]); }
      if l == k { assert Apart(h', v, t, h, h[r][m], f[m]); }
      if m == k { assert Apart(h', v, t, h, h[r][l], f[l]); }
    }
    assert Entries(h', r, h'[r], g);
    TreeSpells(h', MapRef(r), Obj(g));
    TreeSpells(h, MapRef(r), Obj(f));
    var bound := Cells(h, MapRef(r), Obj(f)) + Cells(h', v, t);
    forall l | l in g ensures Spells(h', h'[r][l], g[l]) && Cells(h', h'[r][l], g[l]) <= bound {
      if l != k { EntryCells(h, r, f, l); }
      TreeSpells(h', h'[r][l], g[l]);
    }
    RootIn(h, r, f);
    RootCells(h', r, g, bound);
  }

  lemma TreeSpells(h: Heap, v: Val, t: Json)
    requires Tree(h, v, t)
    ensures Spells(h, v, t)
  {
  }

  lemma RootIn(h: Heap, r: Ref, f: Fields)
    requires Spells(h, MapRef(r), Obj(f))
    ensures r in Cells(h, MapRef(r), Obj(f))
  {
  }

  lemma RemoveKey(h: Heap, r: Ref, f: Fields, h': Heap, k: string)
    requires Tree(h, MapRef(r), Obj(f)) && h' == h[r := h[r] - {k}]
    ensures Tree(h', MapRef(r), Obj(f - {k}))
    ensures Cells(h', MapRef(r), Obj(f - {k})) <= Cells(h, MapRef(r), Obj(f))
  {
    TreeIsEntries(h, r, f);
    TreeIsEntries(h', r, f - {k});
    hide Spells, Cells, Tree;
    var g := f - {k};
    forall l | l in g
      ensures Entry(h', r, h[r][l], f[l]) && Cells(h', h[r][l], f[l]) == Cells(h, h[r][l], f[l])
    {
      assert Entry(h, r, h[r][l], f[l]);
      TreeSpells(h, h[r][l], f[l]);
      CellsAllocated(h, h[r][l], f[l]);
      Frame(h, h', h[r][l], f[l]);
      TreeSpells(h', h[r][l], f[l]);
    }
    forall l, m | l in g && m in g && l != m ensures Apart(h', h'[r][l], g[l], h', h'[r][m], g[m]) {
      assert Apart(h, h[r][l], f[l], h, h[r][m], f[m]);
    }
    assert Entries(h', r, h'[r], g);
    TreeSpells(h', MapRef(r), Obj(g));
    TreeSpells(h, MapRef(r), Obj(f));
    var bound := Cells(h, MapRef(r), Obj(f));
    forall l | l in g ensures Spells(h', h'[r][l], g[l]) && Cells(h', h'[r][l], g[l]) <= bound {
      EntryCells(h, r, f, l);
      TreeSpells(h', h'[r][l], g[l]);
    }
    RootIn(h, r, f);
    RootCells(h', r, g, bound);
  }

  /******* Set and Delete on cells *******/

  ghost predicate Bounded(h: Heap, next: Ref) {
    forall r :: r in h ==> r < next
  }

  // Everything but the cells `own` is as before.
  ghost predicate OnlyTouches(h: Heap, h': Heap, own: set<Ref>) {
    Agree(h, h', h.Keys - own)
  }

  // `now` consists of old cells and of cells allocated since `next`.
  ghost predicate GrownFrom(now: set<Ref>, was: set<Ref>, next: Ref) {
    forall x :: x in now ==> x in was || next <= x
  }

  // Message.Set below the first key: walk, creating or replacing what is not a map.
  function SetCells(h: Heap, next: Ref, r: Ref, parts: seq<string>, v: Val): (Heap, Ref)
    requires parts != [] && r in h
    decreases parts
  {
    var k := parts[0];
    if |parts| == 1 then (h[r := h[r][k := v]], next)
    else if k in h[r] && h[r][k].MapRef? && h[r][k].r in h then SetCells(h, next, h[r][k].r, parts[1..], v)
    else SetCells(h[next := map[]][r := h[r][k := MapRef(next)]], next + 1, next, parts[1..], v)
  }

  function DeleteCells(h: Heap, r: Ref, parts: seq<string>): Heap
    requires parts != [] && r in h
    decreases parts
  {
    var k := parts[0];
    if |parts| == 1 then h[r := h[r] - {k}]
    else if k in h[r] && h[r][k].MapRef? && h[r][k].r in h then DeleteCells(h, h[r][k].r, parts[1..])
    else h
  }

  ghost predicate SetOk(h: Heap, next: Ref, r: Ref, f: Fields, v: Val, t: Json) {
    Bounded(h, next) && Tree(h, MapRef(r), Obj(f)) && Tree(h, v, t) &&
    Cells(h, v, t) !! Cells(h, MapRef(r), Obj(f)) && Cells(h, v, t) <= h.Keys && r in h
  }

  ghost predicate SetDone(h: Heap, next: Ref, r: Ref, f: Fields, v: Val, t: Json, h': Heap, next': Ref, f': Fields) {
    Bounded(h', next') && next <= next' && Tree(h', MapRef(r), Obj(f')) &&
    OnlyTouches(h, h', Cells(h, MapRef(r), Obj(f))) &&
    GrownFrom(Cells(h', MapRef(r), Obj(f')), Cells(h, MapRef(r), Obj(f)) + Cells(h, v, t), next)
  }

  lemma EntryFacts(h: Heap, r: Ref, f: Fields, l: string)
    requires Tree(h, MapRef(r), Obj(f)) && l in f
    ensures r in h && l in h[r] && Tree(h, h[r][l], f[l]) && r !in Cells(h, h[r][l], f[l])
    ensures Cells(h, h[r][l], f[l]) <= Cells(h, MapRef(r), Obj(f)) <= h.Keys
  {
    TreeIsEntries(h, r, f);
    assert Entry(h, r, h[r][l], f[l]);
    EntryCells(h, r, f, l);
    CellsAllocated(h, MapRef(r), Obj(f));
  }

  lemma EntriesApart(h: Heap, r: Ref, f: Fields, k: string, l: string)
    requires Tree(h, MapRef(r), Obj(f)) && k in f && l in f && k != l
    ensures r in h && k in h[r] && l in h[r] && Cells(h, h[r][k], f[k]) !! Cells(h, h[r][l], f[l])
  {
    TreeIsEntries(h, r, f);
    assert Apart(h, h[r][k], f[k], h, h[r][l], f[l]);
  }

  // Changing the entry k, itself a map, changes r's tree in the same way.
  lemma EntryChanged(h: Heap, next: Ref, r: Ref, f: Fields, k: string, h': Heap, sub': Fields, extra: set<Ref>)
    requires Bounded(h, next) && Tree(h, MapRef(r), Obj(f)) && k in f && f[k].Obj? && r in h && k in h[r] && h[r][k].MapRef?
    requires Tree(h', h[r][k], Obj(sub'))
    requires OnlyTouches(h, h', Cells(h, h[r][k], f[k]))
    requires GrownFrom(Cells(h', h[r][k], Obj(sub')), Cells(h, h[r][k], f[k]) + extra, next)
    requires extra !! Cells(h, MapRef(r), Obj(f))
    ensures Tree(h', MapRef(r), Obj(f[k := Obj(sub')]))
    ensures OnlyTouches(h, h', Cells(h, MapRef(r), Obj(f)))
    ensures GrownFrom(Cells(h', MapRef(r), Obj(f[k := Obj(sub')])), Cells(h, MapRef(r), Obj(f)) + extra, next)
  {
    EntryFacts(h, r, f, k);
    RootIn(h, r, f) by { TreeSpells(h, MapRef(r), Obj(f)); }
    hide Spells, Cells, Tree;
    assert h'[r] == h[r] == h[r][k := h[r][k]];
    assert Entry(h', r, h[r][k], Obj(sub'));
    hide Apart, Entry, Agree;
    forall l | l in f && l != k
      ensures l in h[r] && Agree(h, h', Cells(h, h[r][l], f[l])) && Apart(h', h[r][k], Obj(sub'), h, h[r][l], f[l])
    {
      SiblingKept(h, next, r, f, k, l, h', sub', extra);
    }
    WriteKey(h, r, f, h', k, h[r][k], Obj(sub'));
    GrowsWithin(Cells(h', MapRef(r), Obj(f[k := Obj(sub')])), Cells(h, MapRef(r), Obj(f)),
                Cells(h', h[r][k], Obj(sub')), Cells(h, h[r][k], f[k]), extra, next);
    TouchesMore(h, h', Cells(h, h[r][k], f[k]), Cells(h, MapRef(r), Obj(f)));
  }

  lemma GrowsWithin(now: set<Ref>, was: set<Ref>, part': set<Ref>, part: set<Ref>, extra: set<Ref>, next: Ref)
    requires now <= was + part' && part <= was && GrownFrom(part', part + extra, next)
    ensures GrownFrom(now, was + extra, next)
  {
  }

  lemma TouchesMore(h: Heap, h': Heap, own: set<Ref>, more: set<Ref>)
    requires OnlyTouches(h, h', own) && own <= more
    ensures OnlyTouches(h, h', more)
  {
  }

  lemma SiblingKept(h: Heap, next: Ref, r: Ref, f: Fields, k: string, l: string, h': Heap, sub': Fields, extra: set<Ref>)
    requires Bounded(h, next) && Tree(h, MapRef(r), Obj(f)) && k in f && l in f && l != k && r in h && k in h[r]
    requires OnlyTouches(h, h', Cells(h, h[r][k], f[k]))
    requires GrownFrom(Cells(h', h[r][k], Obj(sub')), Cells(h, h[r][k], f[k]) + extra, next)
    requires extra !! Cells(h, MapRef(r), Obj(f))
    ensures l in h[r] && Agree(h, h', Cells(h, h[r][l], f[l])) && Apart(h', h[r][k], Obj(sub'), h, h[r][l], f[l])
  {
    EntryFacts(h, r, f, k);
    EntryFacts(h, r, f, l);
    hide Spells, Cells, Tree;
    EntriesApart(h, r, f, k, l);
  }

  // Writing a key with a value whose cells are the message's own from now on.
  lemma KeySet(h: Heap, next: Ref, r: Ref, f: Fields, k: string, v: Val, t: Json, h': Heap)
    requires SetOk(h, next, r, f, v, t) && h' == h[r := h[r][k := v]]
    ensures SetDone(h, next, r, f, v, t, h', next, f[k := t])
  {
    TreeSpells(h, MapRef(r), Obj(f));
    TreeSpells(h, v, t);
    hide Spells, Cells, Tree;
    RootIn(h, r, f);
    Frame(h, h', v, t);
    forall l | l in f && l != k
      ensures Agree(h, h', Cells(h, h[r][l], f[l])) && Apart(h', v, t, h, h[r][l], f[l])
    {
      EntryFacts(h, r, f, l);
    }
    WriteKey(h, r, f, h', k, v, t);
  }

  lemma {:induction false} SetCellsRefines(h: Heap, next: Ref, r: Ref, f: Fields, parts: seq<string>, v: Val, t: Json)
    requires parts != [] && SetOk(h, next, r, f, v, t)
    ensures
      var (h', next') := SetCells(h, next, r, parts, v);
      SetDone(h, next, r, f, v, t, h', next', Set(f, parts, t))
    decreases |parts|, 1
  {
    SetCellsCases(h, next, r, parts, v);
    hide *;
    var k := parts[0];
    if |parts| == 1 {
      SetOneKey(f, parts, t);
      KeySet(h, next, r, f, k, v, t, h[r := h[r][k := v]]);
    } else if k in h[r] && h[r][k].MapRef? && h[r][k].r in h {
      SetBelow(h, next, r, f, parts, v, t);
    } else {
      SetThrough(h, next, r, f, parts, v, t, h[next := map[]][r := h[r][k := MapRef(next)]]);
    }
  }

  lemma {:induction false} SetThrough(h: Heap, next: Ref, r: Ref, f: Fields, parts: seq<string>, v: Val, t: Json, h1: Heap)
    requires |parts| > 1 && SetOk(h, next, r, f, v, t) && r in h
    requires !(parts[0] in h[r] && h[r][parts[0]].MapRef? && h[r][parts[0]].r in h)
    requires h1 == h[next := map[]][r := h[r][parts[0] := MapRef(next)]] && next in h1
    ensures
      var (h', next') := SetCells(h1, next + 1, next, parts[1..], v);
      SetDone(h, next, r, f, v, t, h', next', Set(f, parts, t))
    decreases |parts|, 0, 1
  {
    hide *;
    var k := parts[0];
    var f1 := f[k := Obj(map[])];
    MakeIntermediate(h, next, r, f, k, v, t, h1, f1);
    SetBelow(h1, next + 1, r, f1, parts, v, t);
    SetThroughNew(h, next, r, f, parts, v, t);
    var (h', next') := SetCells(h1, next + 1, next, parts[1..], v);
    Widen(h, next, r, f, v, t, h1, f1, h', next', Set(f, parts, t));
  }

  lemma SetCellsCases(h: Heap, next: Ref, r: Ref, parts: seq<string>, v: Val)
    requires parts != [] && r in h
    ensures
      var k := parts[0];
      SetCells(h, next, r, parts, v) ==
        if |parts| == 1 then (h[r := h[r][k := v]], next)
        else if k in h[r] && h[r][k].MapRef? && h[r][k].r in h then SetCells(h, next, h[r][k].r, parts[1..], v)
        else SetCells(h[next := map[]][r := h[r][k := MapRef(next)]], next + 1, next, parts[1..], v)
  {
  }

  lemma SetOneKey(f: Fields, parts: seq<string>, t: Json)
    requires |parts| == 1
    ensures Set(f, parts, t) == f[parts[0] := t]
  {
  }

  lemma SetThroughNew(h: Heap, next: Ref, r: Ref, f: Fields, parts: seq<string>, v: Val, t: Json)
    requires |parts| > 1 && SetOk(h, next, r, f, v, t)
    requires !(parts[0] in h[r] && h[r][parts[0]].MapRef? && h[r][parts[0]].r in h)
    ensures Set(f[parts[0] := Obj(map[])], parts, t) == Set(f, parts, t)
  {
    TreeSpells(h, MapRef(r), Obj(f));
    EntryIsMap(h, r, f, parts[0]);
  }

  // An empty map is put in the way, on a cell of its own.
  lemma MakeIntermediate(h: Heap, next: Ref, r: Ref, f: Fields, k: string, v: Val, t: Json, h1: Heap, f1: Fields)
    requires SetOk(h, next, r, f, v, t)
    requires h1 == h[next := map[]][r := h[r][k := MapRef(next)]] && f1 == f[k := Obj(map[])]
    ensures r in h1 && k in h1[r] && h1[r][k] == MapRef(next) && next in h1
    ensures SetOk(h1, next + 1, r, f1, v, t) && Cells(h1, v, t) == Cells(h, v, t)
    ensures Cells(h1, MapRef(r), Obj(f1)) <= Cells(h, MapRef(r), Obj(f)) + {next}
  {
    var h0 := h[next := map[]];
    ReserveCell(h, next, r, f, v, t);
    hide *;
    assert h1 == h0[r := h0[r][k := MapRef(next)]];
    KeySet(h0, next + 1, r, f, k, MapRef(next), Obj(map[]), h1);
    LinkIntermediate(h0, next, r, f, v, t, h1, f1);
  }

  lemma LinkIntermediate(h0: Heap, next: Ref, r: Ref, f: Fields, v: Val, t: Json, h1: Heap, f1: Fields)
    requires SetOk(h0, next + 1, r, f, v, t) && next in h0 && Cells(h0, MapRef(next), Obj(map[])) == {next}
    requires SetDone(h0, next + 1, r, f, MapRef(next), Obj(map[]), h1, next + 1, f1)
    requires h1.Keys == h0.Keys && next !in Cells(h0, v, t)
    ensures SetOk(h1, next + 1, r, f1, v, t) && Cells(h1, v, t) == Cells(h0, v, t)
    ensures Cells(h1, MapRef(r), Obj(f1)) <= Cells(h0, MapRef(r), Obj(f)) + {next}
  {
    TreeSpells(h0, v, t);
    TreeSpells(h1, MapRef(r), Obj(f1));
    CellsAllocated(h1, MapRef(r), Obj(f1));
    hide Spells, Cells, Tree;
    Frame(h0, h1, v, t);
  }

  lemma ReserveCell(h: Heap, next: Ref, r: Ref, f: Fields, v: Val, t: Json)
    requires SetOk(h, next, r, f, v, t)
    ensures
      var h0 := h[next := map[]];
      r in h0 && h0[r] == h[r] &&
      SetOk(h0, next + 1, r, f, v, t) && SetOk(h0, next + 1, r, f, MapRef(next), Obj(map[])) &&
      Cells(h0, MapRef(r), Obj(f)) == Cells(h, MapRef(r), Obj(f)) && Cells(h0, v, t) == Cells(h, v, t) &&
      Cells(h0, MapRef(next), Obj(map[])) == {next} && next !in Cells(h, v, t)
  {
    TreeSpells(h, MapRef(r), Obj(f));
    TreeSpells(h, v, t);
    CellsAllocated(h, MapRef(r), Obj(f));
    EmptyMap(h[next := map[]], next);
    hide Spells, Cells, Tree;
    Frame(h, h[next := map[]], MapRef(r), Obj(f));
    Frame(h, h[next := map[]], v, t);
  }

  lemma EmptyMap(h: Heap, r: Ref)
    requires r in h && h[r] == map[]
    ensures Tree(h, MapRef(r), Obj(map[])) && Cells(h, MapRef(r), Obj(map[])) == {r}
  {
  }

  lemma StampedMap(h: Heap, r: Ref, stamp: string)
    requires r in h && h[r] == map["_timestamp" := Atom(Str(stamp))]
    ensures
      var t := Obj(map["_timestamp" := Str(stamp)]);
      Tree(h, MapRef(r), t) && Cells(h, MapRef(r), t) == {r}
  {
    var f := map["_timestamp" := Str(stamp)];
    forall k | k in f ensures Tree(h, h[r][k], f[k]) && Cells(h, h[r][k], f[k]) == {} {}
  }

  lemma Widen(h: Heap, next: Ref, r: Ref, f: Fields, v: Val, t: Json, h1: Heap, f1: Fields, h': Heap, next': Ref, f': Fields)
    requires SetOk(h, next, r, f, v, t) && h1.Keys == h.Keys + {next}
    requires forall x :: x in h && x != r && x != next ==> h1[x] == h[x]
    requires Cells(h1, v, t) == Cells(h, v, t)
    requires Cells(h1, MapRef(r), Obj(f1)) <= Cells(h, MapRef(r), Obj(f)) + {next}
    requires SetDone(h1, next + 1, r, f1, v, t, h', next', f')
    ensures SetDone(h, next, r, f, v, t, h', next', f')
  {
    TreeSpells(h, MapRef(r), Obj(f));
    RootIn(h, r, f);
    hide Cells, Tree, Spells;
    var own := Cells(h, MapRef(r), Obj(f));
    forall x | x in h.Keys - own ensures x in h' && h'[x] == h[x] {
      assert x != next && x in h1.Keys - Cells(h1, MapRef(r), Obj(f1));
    }
  }

  // A map entry is spelled by a map cell, and only by one.
  lemma EntryIsMap(h: Heap, r: Ref, f: Fields, k: string)
    requires Spells(h, MapRef(r), Obj(f))
    ensures k in f && f[k].Obj? <==> k in h[r] && h[r][k].MapRef? && h[r][k].r in h
  {
    if k in f { assert Spells(h, h[r][k], f[k]); }
  }

  lemma {:induction false} SetBelow(h: Heap, next: Ref, r: Ref, f: Fields, parts: seq<string>, v: Val, t: Json)
    requires |parts| > 1 && SetOk(h, next, r, f, v, t)
    requires parts[0] in h[r] && h[r][parts[0]].MapRef? && h[r][parts[0]].r in h
    ensures
      var (h', next') := SetCells(h, next, h[r][parts[0]].r, parts[1..], v);
      SetDone(h, next, r, f, v, t, h', next', Set(f, parts, t))
    decreases |parts|, 0, 0
  {
    var k := parts[0];
    TreeIsEntries(h, r, f);
    TreeSpells(h, MapRef(r), Obj(f));
    EntryIsMap(h, r, f, k);
    EntryCells(h, r, f, k);
    assert Entry(h, r, h[r][k], f[k]);
    var sub := f[k].fields;
    assert SetOk(h, next, h[r][k].r, sub, v, t);
    SetCellsRefines(h, next, h[r][k].r, sub, parts[1..], v, t);
    var (h', next') := SetCells(h, next, h[r][k].r, parts[1..], v);
    EntryChanged(h, next, r, f, k, h', Set(sub, parts[1..], t), Cells(h, v, t));
  }

  lemma {:induction false} DeleteCellsRefines(h: Heap, next: Ref, r: Ref, f: Fields, parts: seq<string>)
    requires parts != [] && Bounded(h, next) && Tree(h, MapRef(r), Obj(f)) && r in h
    ensures
      var h' := DeleteCells(h, r, parts);
      Bounded(h', next) && Tree(h', MapRef(r), Obj(Delete(f, parts))) &&
      OnlyTouches(h, h', Cells(h, MapRef(r), Obj(f))) &&
      GrownFrom(Cells(h', MapRef(r), Obj(Delete(f, parts))), Cells(h, MapRef(r), Obj(f)), next)
    decreases |parts|
  {
    var k := parts[0];
    TreeSpells(h, MapRef(r), Obj(f));
    EntryIsMap(h, r, f, k);
    RootIn(h, r, f);
    if |parts| == 1 {
      RemoveKey(h, r, f, h[r := h[r] - {k}], k);
    } else if k in h[r] && h[r][k].MapRef? && h[r][k].r in h {
      TreeIsEntries(h, r, f);
      EntryCells(h, r, f, k);
      assert Entry(h, r, h[r][k], f[k]);
      DeleteCellsRefines(h, next, h[r][k].r, f[k].fields, parts[1..]);
      var h' := DeleteCells(h, h[r][k].r, parts[1..]);
      EntryChanged(h, next, r, f, k, h', Delete(f[k].fields, parts[1..]), {});
    }
  }

  /******* Deep copies *******/

  // v' is a tree that spells t, on cells allocated since `next`; nothing else changed.
  ghost predicate Copied(h: Heap, next: Ref, h': Heap, next': Ref, v': Val, t: Json) {
    Agree(h, h', h.Keys) && Bounded(h', next') && next <= next' &&
    Tree(h', v', t) && forall x :: x in Cells(h', v', t) ==> next <= x
  }

  // The copy so far, at `dst`, takes the copied entry k.
  lemma CopyEntry(h: Heap, next: Ref, mid: Heap, midNext: Ref, dst: Ref, done: Fields,
                  h1: Heap, next1: Ref, k: string, v: Val, t: Json)
    requires Bounded(h, next) && Copied(h, next, mid, midNext, MapRef(dst), Obj(done))
    requires Copied(mid, midNext, h1, next1, v, t)
    ensures dst in h1 && Copied(h, next, h1[dst := h1[dst][k := v]], next1, MapRef(dst), Obj(done[k := t]))
  {
    TreeSpells(mid, MapRef(dst), Obj(done));
    TreeSpells(h1, v, t);
    CellsAllocated(mid, MapRef(dst), Obj(done));
    CellsAllocated(h1, v, t);
    RootIn(mid, dst, done);
    hide Spells, Cells, Tree;
    Frame(mid, h1, MapRef(dst), Obj(done));
    assert SetOk(h1, next1, dst, done, v, t);
    KeySet(h1, next1, dst, done, k, v, t, h1[dst := h1[dst][k := v]]);
  }

  lemma CopyItem(h: Heap, next: Ref, mid: Heap, midNext: Ref, out: seq<Val>, done: seq<Json>,
                 h1: Heap, next1: Ref, v: Val, t: Json)
    requires Copied(h, next, mid, midNext, Slice(out), Arr(done))
    requires Copied(mid, midNext, h1, next1, v, t)
    ensures Copied(h, next, h1, next1, Slice(out + [v]), Arr(done + [t]))
  {
    CellsAllocated(mid, Slice(out), Arr(done));
    Frame(mid, h1, Slice(out), Arr(done));
    SliceCells(h1, out, done, v, t);
  }

  lemma SliceCells(h: Heap, out: seq<Val>, done: seq<Json>, v: Val, t: Json)
    requires Spells(h, Slice(out), Arr(done)) && Spells(h, v, t)
    ensures Spells(h, Slice(out + [v]), Arr(done + [t]))
    ensures Cells(h, Slice(out + [v]), Arr(done + [t])) <= Cells(h, Slice(out), Arr(done)) + Cells(h, v, t)
  {
    var (vs, ts) := (out + [v], done + [t]);
    forall i: nat, x | i < |ts| && x in Cells(h, vs[i], ts[i])
      ensures x in Cells(h, Slice(out), Arr(done)) + Cells(h, v, t)
    {
      if i < |done| { assert vs[i] == out[i] && ts[i] == done[i]; }
    }
  }

  /******* The store, one step at a time *******/

  datatype Store = Store(h: Heap, next: Ref, msgs: map<nat, Msg>)

  type Meaning = map<nat, Fields>

  datatype Op =
    | New(m: nat, id: string, stamp: string)
    | CowClone(m: nat, into: nat, id: string)
    | Clone(m: nat, into: nat, id: string)
    | SetAt(m: nat, parts: seq<string>, v: Val, t: Json)
    | DeleteAt(m: nat, parts: seq<string>)

  ghost predicate MeansAt(s: Store, ts: Meaning, m: nat)
    requires m in s.msgs && m in ts
  {
    Tree(s.h, MapRef(s.msgs[m].data), Obj(ts[m]))
  }

  ghost function MsgCells(s: Store, ts: Meaning, m: nat): set<Ref>
    requires m in s.msgs && m in ts
  {
    Cells(s.h, MapRef(s.msgs[m].data), Obj(ts[m]))
  }

  // An unshared message's cells are its own.
  ghost predicate StoreOk(s: Store, ts: Meaning) {
    Bounded(s.h, s.next) && s.msgs.Keys == ts.Keys &&
    (forall m :: m in ts ==> MeansAt(s, ts, m)) &&
    (forall a, b :: a in ts && b in ts && a != b && !s.msgs[a].shared ==> MsgCells(s, ts, a) !! MsgCells(s, ts, b))
  }

  // A value handed to Set is new: no message holds any of its cells.
  ghost predicate NewValue(s: Store, ts: Meaning, v: Val, t: Json) {
    Tree(s.h, v, t) && Cells(s.h, v, t) <= s.h.Keys &&
    forall m :: m in ts && m in s.msgs ==> Cells(s.h, v, t) !! MsgCells(s, ts, m)
  }

  // ensureUnique: a shared message gets a private deep copy.
  ghost predicate Detached(s: Store, f: Fields, m: nat, s': Store)
    requires m in s.msgs
  {
    if !s.msgs[m].shared then s' == s
    else
      m in s'.msgs && s'.msgs == s.msgs[m := Msg(s.msgs[m].id, s'.msgs[m].data, false)] &&
      Copied(s.h, s.next, s'.h, s'.next, MapRef(s'.msgs[m].data), Obj(f))
  }

  ghost predicate Legal(s: Store, ts: Meaning, op: Op) {
    match op
    case New(m, _, _) => m !in s.msgs
    case CowClone(m, into, _) => m in ts && m in s.msgs && into !in s.msgs
    case Clone(m, into, _) => m in ts && m in s.msgs && into !in s.msgs
    case SetAt(m, parts, v, t) => m in ts && m in s.msgs && parts != [] && NewValue(s, ts, v, t)
    case DeleteAt(m, parts) => m in ts && m in s.msgs && parts != []
  }

  ghost predicate Step(s: Store, ts: Meaning, op: Op, s': Store)
    requires Legal(s, ts, op)
  {
    match op
    case New(m, id, stamp) =>
      s' == Store(s.h[s.next := map["_timestamp" := Atom(Str(stamp))]], s.next + 1, s.msgs[m := Msg(id, s.next, false)])
    case CowClone(m, into, id) =>
      s' == s.(msgs := s.msgs[m := s.msgs[m].(shared := true)][into := Msg(id, s.msgs[m].data, true)])
    case Clone(m, into, id) =>
      into in s'.msgs && s'.msgs == s.msgs[into := Msg(id, s'.msgs[into].data, false)] &&
      Copied(s.h, s.next, s'.h, s'.next, MapRef(s'.msgs[into].data), Obj(ts[m]))
    case SetAt(m, parts, v, t) =>
      if parts[0] == "_id" then s' == s
      else exists mid :: SetStep(s, ts[m], m, parts, v, mid, s')
    case DeleteAt(m, parts) =>
      if parts[0] == "_id" then s' == s
      else exists mid :: DeleteStep(s, ts[m], m, parts, mid, s')
  }

  ghost predicate SetStep(s: Store, f: Fields, m: nat, parts: seq<string>, v: Val, mid: Store, s': Store)
    requires m in s.msgs && parts != []
  {
    Detached(s, f, m, mid) && m in mid.msgs && mid.msgs[m].data in mid.h &&
    var (h', next') := SetCells(mid.h, mid.next, mid.msgs[m].data, parts, v);
    s' == Store(h', next', mid.msgs)
  }

  ghost predicate DeleteStep(s: Store, f: Fields, m: nat, parts: seq<string>, mid: Store, s': Store)
    requires m in s.msgs && parts != []
  {
    Detached(s, f, m, mid) && m in mid.msgs && mid.msgs[m].data in mid.h &&
    s' == mid.(h := DeleteCells(mid.h, mid.msgs[m].data, parts))
  }

  // The same operation if every clone were an eager deep copy.
  function Eager(ts: Meaning, op: Op): Meaning
    requires op.New? || op.m in ts
    requires (op.SetAt? || op.DeleteAt?) ==> op.parts != []
  {
    match op
    case New(m, _, stamp) => ts[m := map["_timestamp" := Str(stamp)]]
    case CowClone(m, into, _) => ts[into := ts[m]]
    case Clone(m, into, _) => ts[into := ts[m]]
    case SetAt(m, parts, _, t) => if parts[0] == "_id" then ts else ts[m := Set(ts[m], parts, t)]
    case DeleteAt(m, parts) => if parts[0] == "_id" then ts else ts[m := Delete(ts[m], parts)]
  }

  // Others keep their tree when m's cells, or only new ones, change.
  lemma OthersKeep(s: Store, ts: Meaning, m: nat, s': Store, o: nat)
    requires StoreOk(s, ts) && o in ts && o in s'.msgs && s'.msgs[o].data == s.msgs[o].data
    requires OnlyTouches(s.h, s'.h, if m in ts then MsgCells(s, ts, m) else {})
    requires m in ts ==> o != m && !s.msgs[m].shared
    ensures Tree(s'.h, MapRef(s.msgs[o].data), Obj(ts[o]))
    ensures Cells(s'.h, MapRef(s.msgs[o].data), Obj(ts[o])) == MsgCells(s, ts, o) <= s.h.Keys
  {
    assert MeansAt(s, ts, o);
    TreeSpells(s.h, MapRef(s.msgs[o].data), Obj(ts[o]));
    CellsAllocated(s.h, MapRef(s.msgs[o].data), Obj(ts[o]));
    hide Spells, Cells, Tree;
    if m in ts { assert MsgCells(s, ts, m) !! MsgCells(s, ts, o); }
    Frame(s.h, s'.h, MapRef(s.msgs[o].data), Obj(ts[o]));
  }

  // An unshared message changes within its own, extra and new cells.
  lemma Mutated(s: Store, ts: Meaning, m: nat, h': Heap, next': Ref, f': Fields, extra: set<Ref>)
    requires StoreOk(s, ts) && m in ts && !s.msgs[m].shared
    requires OnlyTouches(s.h, h', MsgCells(s, ts, m)) && Bounded(h', next')
    requires Tree(h', MapRef(s.msgs[m].data), Obj(f'))
    requires GrownFrom(Cells(h', MapRef(s.msgs[m].data), Obj(f')), MsgCells(s, ts, m) + extra, s.next)
    requires forall o :: o in ts ==> extra !! MsgCells(s, ts, o)
    ensures StoreOk(Store(h', next', s.msgs), ts[m := f'])
  {
    hide Spells, Cells, Tree;
    var s', ts' := Store(h', next', s.msgs), ts[m := f'];
    forall o | o in ts && o != m
      ensures MeansAt(s', ts', o) && MsgCells(s', ts', o) == MsgCells(s, ts, o) && MsgCells(s, ts, o) !! MsgCells(s', ts', m)
    {
      OthersKeep(s, ts, m, s', o);
    }
    forall a, b | a in ts' && b in ts' && a != b && !s'.msgs[a].shared ensures MsgCells(s', ts', a) !! MsgCells(s', ts', b) {
      if a != m && b != m { assert MsgCells(s, ts, a) !! MsgCells(s, ts, b); }
    }
  }

  // A message, new or old, gets a private copy that spells f.
  lemma PrivateCopy(s: Store, ts: Meaning, m: nat, id: string, d: Ref, f: Fields, h': Heap, next': Ref)
    requires StoreOk(s, ts) && Copied(s.h, s.next, h', next', MapRef(d), Obj(f))
    ensures StoreOk(Store(h', next', s.msgs[m := Msg(id, d, false)]), ts[m := f])
  {
    hide Spells, Cells, Tree;
    var s', ts' := Store(h', next', s.msgs[m := Msg(id, d, false)]), ts[m := f];
    forall o | o in ts && o != m
      ensures MeansAt(s', ts', o) && MsgCells(s', ts', o) == MsgCells(s, ts, o) && MsgCells(s, ts, o) !! MsgCells(s', ts', m)
    {
      ForeignKeeps(s, ts, o, h', next', d, f);
    }
    forall a, b | a in ts' && b in ts' && a != b && !s'.msgs[a].shared ensures MsgCells(s', ts', a) !! MsgCells(s', ts', b) {
      if a != m && b != m { assert MsgCells(s, ts, a) !! MsgCells(s, ts, b); }
    }
  }

  lemma ForeignKeeps(s: Store, ts: Meaning, o: nat, h': Heap, next': Ref, d: Ref, f: Fields)
    requires StoreOk(s, ts) && o in ts && Copied(s.h, s.next, h', next', MapRef(d), Obj(f))
    ensures Tree(h', MapRef(s.msgs[o].data), Obj(ts[o]))
    ensures Cells(h', MapRef(s.msgs[o].data), Obj(ts[o])) == MsgCells(s, ts, o)
    ensures MsgCells(s, ts, o) !! Cells(h', MapRef(d), Obj(f))
  {
    assert MeansAt(s, ts, o);
    TreeSpells(s.h, MapRef(s.msgs[o].data), Obj(ts[o]));
    CellsAllocated(s.h, MapRef(s.msgs[o].data), Obj(ts[o]));
    hide Spells, Cells, Tree;
    Frame(s.h, h', MapRef(s.msgs[o].data), Obj(ts[o]));
  }

  lemma DetachedOk(s: Store, ts: Meaning, m: nat, mid: Store)
    requires StoreOk(s, ts) && m in ts && Detached(s, ts[m], m, mid)
    ensures StoreOk(mid, ts) && m in mid.msgs && !mid.msgs[m].shared && mid.msgs[m].id == s.msgs[m].id
    ensures mid.msgs[m].data in mid.h && mid.msgs.Keys == s.msgs.Keys
    ensures forall o :: o in s.msgs && o != m ==> mid.msgs[o] == s.msgs[o]
    ensures forall v, t :: NewValue(s, ts, v, t) ==> NewValue(mid, ts, v, t)
  {
    if s.msgs[m].shared {
      PrivateCopy(s, ts, m, s.msgs[m].id, mid.msgs[m].data, ts[m], mid.h, mid.next);
      assert ts[m := ts[m]] == ts;
      forall v, t | NewValue(s, ts, v, t) ensures NewValue(mid, ts, v, t) {
        NewValueKept(s, ts, m, mid, v, t);
      }
    }
    assert MeansAt(mid, ts, m);
  }

  lemma NewValueKept(s: Store, ts: Meaning, m: nat, mid: Store, v: Val, t: Json)
    requires StoreOk(s, ts) && m in ts && s.msgs[m].shared && Detached(s, ts[m], m, mid) && NewValue(s, ts, v, t)
    ensures NewValue(mid, ts, v, t)
  {
    TreeSpells(s.h, v, t);
    hide Spells, Cells, Tree;
    Frame(s.h, mid.h, v, t);
    forall o | o in ts && o in mid.msgs ensures Cells(mid.h, v, t) !! MsgCells(mid, ts, o) {
      if o != m { ForeignKeeps(s, ts, o, mid.h, mid.next, mid.msgs[m].data, ts[m]); }
    }
  }

  lemma SetRefines(s: Store, ts: Meaning, op: Op, mid: Store, s': Store)
    requires StoreOk(s, ts) && op.SetAt? && Legal(s, ts, op)
    requires SetStep(s, ts[op.m], op.m, op.parts, op.v, mid, s')
    ensures StoreOk(s', ts[op.m := Set(ts[op.m], op.parts, op.t)])
    ensures s'.msgs == mid.msgs && KeepsIds(s, mid)
  {
    DetachedOk(s, ts, op.m, mid);
    assert MeansAt(mid, ts, op.m) && NewValue(mid, ts, op.v, op.t);
    hide Spells, Cells, Tree;
    SetCellsRefines(mid.h, mid.next, mid.msgs[op.m].data, ts[op.m], op.parts, op.v, op.t);
    Mutated(mid, ts, op.m, s'.h, s'.next, Set(ts[op.m], op.parts, op.t), Cells(mid.h, op.v, op.t));
  }

  lemma DeleteRefines(s: Store, ts: Meaning, op: Op, mid: Store, s': Store)
    requires StoreOk(s, ts) && op.DeleteAt? && Legal(s, ts, op)
    requires DeleteStep(s, ts[op.m], op.m, op.parts, mid, s')
    ensures StoreOk(s', ts[op.m := Delete(ts[op.m], op.parts)])
    ensures s'.msgs == mid.msgs && KeepsIds(s, mid)
  {
    DetachedOk(s, ts, op.m, mid);
    assert MeansAt(mid, ts, op.m);
    hide Spells, Cells, Tree;
    DeleteCellsRefines(mid.h, mid.next, mid.msgs[op.m].data, ts[op.m], op.parts);
    Mutated(mid, ts, op.m, s'.h, s'.next, Delete(ts[op.m], op.parts), {});
  }

  lemma SharingRefines(s: Store, ts: Meaning, m: nat, into: nat, id: string)
    requires StoreOk(s, ts) && m in ts && into !in s.msgs
    ensures StoreOk(s.(msgs := s.msgs[m := s.msgs[m].(shared := true)][into := Msg(id, s.msgs[m].data, true)]), ts[into := ts[m]])
  {
    var s' := s.(msgs := s.msgs[m := s.msgs[m].(shared := true)][into := Msg(id, s.msgs[m].data, true)]);
    var ts' := ts[into := ts[m]];
    hide Spells, Cells, Tree;
    forall o | o in ts'
      ensures MeansAt(s', ts', o) && MsgCells(s', ts', o) == MsgCells(s, ts, if o == into then m else o)
    {
      assert MeansAt(s, ts, if o == into then m else o);
    }
    forall a, b | a in ts' && b in ts' && a != b && !s'.msgs[a].shared ensures MsgCells(s', ts', a) !! MsgCells(s', ts', b) {
      assert a != m && a != into && !s.msgs[a].shared;
      assert MsgCells(s, ts, a) !! MsgCells(s, ts, if b == into then m else b);
    }
  }

  ghost predicate KeepsIds(s: Store, s': Store) {
    forall o :: o in s.msgs ==> o in s'.msgs && s'.msgs[o].id == s.msgs[o].id
  }

  // One copy-on-write step does to the meaning what the eager step does.
  lemma StepRefinesEager(s: Store, ts: Meaning, op: Op, s': Store)
    requires StoreOk(s, ts) && Legal(s, ts, op) && Step(s, ts, op, s')
    ensures StoreOk(s', Eager(ts, op))
    ensures KeepsIds(s, s')
  {
    match op
    case New(m, id, stamp) =>
      StampedMap(s'.h, s.next, stamp);
      PrivateCopy(s, ts, m, id, s.next, map["_timestamp" := Str(stamp)], s'.h, s'.next);
    case CowClone(m, into, id) => SharingRefines(s, ts, m, into, id);
    case Clone(m, into, id) => PrivateCopy(s, ts, into, id, s'.msgs[into].data, ts[m], s'.h, s'.next);
    case SetAt(m, parts, v, t) =>
      if parts[0] != "_id" {
        var mid :| SetStep(s, ts[m], m, parts, v, mid, s');
        SetRefines(s, ts, op, mid, s');
      }
    case DeleteAt(m, parts) =>
      if parts[0] != "_id" {
        var mid :| DeleteStep(s, ts[m], m, parts, mid, s');
        DeleteRefines(s, ts, op, mid, s');
      }
  }

  // A run: the stores it goes through and what is done in between.
  ghost predicate IsRun(stores: seq<Store>, ops: seq<Op>, meanings: seq<Meaning>) {
    |stores| == |ops| + 1 == |meanings| &&
    stores[0].msgs == map[] && Bounded(stores[0].h, stores[0].next) && meanings[0] == map[] &&
    forall i :: 0 <= i < |ops| ==>
      Legal(stores[i], meanings[i], ops[i]) && Step(stores[i], meanings[i], ops[i], stores[i + 1]) &&
      LegalEager(meanings[i], ops[i]) && meanings[i + 1] == Eager(meanings[i], ops[i])
  }

  ghost predicate LegalEager(ts: Meaning, op: Op) {
    (op.New? || op.m in ts) && ((op.SetAt? || op.DeleteAt?) ==> op.parts != [])
  }

  // Copy-on-write refines value semantics: after every run, each message
  // spells exactly what eager copying would have given it.
  lemma {:induction false} EveryRunRefinesEager(stores: seq<Store>, ops: seq<Op>, meanings: seq<Meaning>, i: nat)
    requires IsRun(stores, ops, meanings) && i <= |ops|
    ensures StoreOk(stores[i], meanings[i])
  {
    if i > 0 {
      EveryRunRefinesEager(stores, ops, meanings, i - 1);
      StepRefinesEager(stores[i - 1], meanings[i - 1], ops[i - 1], stores[i]);
    }
  }
}
