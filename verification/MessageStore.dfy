/**
 The Message methods, as they run: the walks of Get, Set and Delete, the
 recursive deep copies, and the copy-on-write bookkeeping.  Each is a `Step`
 of Messages, so by StepRefinesEager it keeps `Valid` and does to the meaning
 what eager copying does.
 */
module MessageStores {
  import opened JsonValues
  import opened Messages

  // Get below a value that need not be a map.
  function Below(t: Json, parts: seq<string>): Json {
    if parts == [] then t else if t.Obj? then Get(t.fields, parts) else Null
  }

  class MessageStore {
    var heap: Heap
    var next: Ref
    var msgs: map<nat, Msg>
    ghost var trees: Meaning

    ghost function State(): Store
      reads this
    {
      Store(heap, next, msgs)
    }

    ghost predicate Valid()
      reads this
    {
      StoreOk(State(), trees)
    }

    constructor ()
      ensures Valid() && msgs == map[] && trees == map[]
    {
      heap, next, msgs, trees := map[], 0, map[], map[];
    }

    /******* deepCopyValue, deepCopyMap, deepCopySlice *******/

    method DeepCopyValue(v: Val, ghost t: Json) returns (c: Val)
      requires Bounded(heap, next) && Spells(heap, v, t)
      modifies this`heap, this`next
      ensures Copied(old(heap), old(next), heap, next, c, t)
      decreases t, 2
    {
      match v
      case MapRef(r) => var dst := DeepCopyMap(r, t.fields, t); c := MapRef(dst);
      case Slice(items) => var out := DeepCopySlice(items, t.items, t); c := Slice(out);
      case Atom(_) => c := v;
    }

    method DeepCopyMap(src: Ref, ghost f: Fields, ghost t: Json) returns (dst: Ref)
      requires Bounded(heap, next) && Spells(heap, MapRef(src), Obj(f)) && t == Obj(f)
      modifies this`heap, this`next
      ensures Copied(old(heap), old(next), heap, next, MapRef(dst), Obj(f))
      decreases t, 1
    {
      hide Copied, Spells, Cells, Tree, Bounded;
      ghost var h0 := heap;
      CopyStarts(heap, next, src, f);
      dst := next;
      heap := heap[dst := map[]];
      next := next + 1;
      ghost var done: Fields := map[];
      var todo := heap[src].Keys;
      while todo != {}
        invariant todo <= f.Keys && done == f - todo
        invariant Copied(h0, old(next), heap, next, MapRef(dst), Obj(done))
        decreases todo
      {
        var k :| k in todo;
        ghost var (mid, midNext) := (heap, next);
        SourceEntry(h0, old(next), heap, next, MapRef(dst), Obj(done), src, f, k);
        var v := DeepCopyValue(heap[src][k], f[k]);
        CopyEntry(h0, old(next), mid, midNext, dst, done, heap, next, k, v, f[k]);
        heap := heap[dst := heap[dst][k := v]];
        assert f - (todo - {k}) == done[k := f[k]];
        done, todo := done[k := f[k]], todo - {k};
      }
      assert f - todo == f;
    }

    method DeepCopySlice(src: seq<Val>, ghost items: seq<Json>, ghost t: Json) returns (out: seq<Val>)
      requires Bounded(heap, next) && Spells(heap, Slice(src), Arr(items)) && t == Arr(items)
      modifies this`heap, this`next
      ensures Copied(old(heap), old(next), heap, next, Slice(out), Arr(items))
      decreases t, 1
    {
      ghost var h0 := heap;
      out := [];
      hide Copied, Cells, Tree, Bounded;
      NothingCopied(h0, next);
      for i := 0 to |src|
        invariant Copied(h0, old(next), heap, next, Slice(out), Arr(items[..i]))
      {
        ghost var (mid, midNext) := (heap, next);
        assert Spells(h0, src[i], items[i]);
        SourceKept(h0, old(next), heap, next, Slice(out), Arr(items[..i]), src[i], items[i]);
        var v := DeepCopyValue(src[i], items[i]);
        CopyItem(h0, old(next), mid, midNext, out, items[..i], heap, next, v, items[i]);
        out := out + [v];
        assert items[..i] + [items[i]] == items[..i + 1];
      }
      assert items[..|src|] == items;
    }

    /******* Copy on write *******/

    method EnsureUnique(m: nat)
      requires Valid() && m in msgs
      modifies this`heap, this`next, this`msgs
      ensures m in trees && Detached(old(State()), trees[m], m, State())
    {
      assert MeansAt(State(), trees, m);
      if msgs[m].shared {
        TreeSpells(heap, MapRef(msgs[m].data), Obj(trees[m]));
        var d := DeepCopyMap(msgs[m].data, trees[m], Obj(trees[m]));
        msgs := msgs[m := Msg(msgs[m].id, d, false)];
      }
    }

    method NewMessage(m: nat, id: string, stamp: string)
      requires Valid() && m !in msgs
      modifies this
      ensures Valid() && trees == Eager(old(trees), New(m, id, stamp)) && KeepsIds(old(State()), State())
      ensures m in msgs && msgs[m].id == id
    {
      ghost var (s, op) := (State(), New(m, id, stamp));
      heap := heap[next := map["_timestamp" := Atom(Str(stamp))]];
      msgs := msgs[m := Msg(id, next, false)];
      next := next + 1;
      assert Legal(s, trees, op) && Step(s, trees, op, State());
      StepRefinesEager(s, trees, op, State());
      trees := Eager(trees, op);
    }

    method COWClone(m: nat, into: nat, id: string)
      requires Valid() && m in msgs && into !in msgs
      modifies this
      ensures Valid() && trees == Eager(old(trees), CowClone(m, into, id)) && KeepsIds(old(State()), State())
      ensures heap == old(heap) && into in msgs && msgs[into].id == id
    {
      ghost var (s, op) := (State(), Op.CowClone(m, into, id));
      assert m in trees;
      msgs := msgs[m := msgs[m].(shared := true)];
      msgs := msgs[into := Msg(id, msgs[m].data, true)];
      assert Legal(s, trees, op) && Step(s, trees, op, State());
      StepRefinesEager(s, trees, op, State());
      trees := Eager(trees, op);
    }

    method Clone(m: nat, into: nat, id: string)
      requires Valid() && m in msgs && into !in msgs
      modifies this
      ensures Valid() && trees == Eager(old(trees), Op.Clone(m, into, id)) && KeepsIds(old(State()), State())
      ensures into in msgs && msgs[into].id == id
    {
      ghost var (s, op) := (State(), Op.Clone(m, into, id));
      assert MeansAt(s, trees, m);
      TreeSpells(heap, MapRef(msgs[m].data), Obj(trees[m]));
      var d := DeepCopyMap(msgs[m].data, trees[m], Obj(trees[m]));
      msgs := msgs[into := Msg(id, d, false)];
      assert Legal(s, trees, op) && Step(s, trees, op, State());
      StepRefinesEager(s, trees, op, State());
      trees := Eager(trees, op);
    }

    /******* Get, Set, Delete *******/

    // nil is Atom(Null).
    method GetPath(m: nat, path: string) returns (v: Val)
      requires Valid() && m in msgs
      ensures path == "_id" ==> v == Atom(Str(msgs[m].id))
      ensures path != "_id" ==> m in trees && Spells(heap, v, ReadPath(trees[m], path))
    {
      if path == "_id" { return Atom(Str(msgs[m].id)); }
      assert MeansAt(State(), trees, m);
      TreeSpells(heap, MapRef(msgs[m].data), Obj(trees[m]));
      var parts := Split(path);
      v := MapRef(msgs[m].data);
      ghost var t := Obj(trees[m]);
      for i := 0 to |parts|
        invariant Spells(heap, v, t) && Below(t, parts[i..]) == Get(trees[m], parts)
      {
        assert parts[i..][0] == parts[i] && parts[i..][1..] == parts[i + 1..];
        if !v.MapRef? { return Atom(Null); }
        var key := parts[i];
        if key !in heap[v.r] { return Atom(Null); }
        t := t.fields[key];
        v := heap[v.r][key];
      }
    }

    method SetPath(m: nat, path: string, val: Val, ghost t: Json)
      requires Valid() && m in msgs && NewValue(State(), trees, val, t)
      modifies this
      ensures Valid() && KeepsIds(old(State()), State())
      ensures trees == Eager(old(trees), SetAt(m, Split(path), val, t))
      ensures m in old(trees) && trees == old(trees)[m := WritePath(old(trees)[m], path, t)]
    {
      ghost var (s, op) := (State(), SetAt(m, Split(path), val, t));
      ProtectedIsFirstKey(path);
      if path == "_id" || "_id." <= path { return; }
      EnsureUnique(m);
      DetachedOk(s, trees, m, State());
      ghost var mid := State();
      WriteAt(msgs[m].data, Split(path), val);
      assert SetStep(s, trees[m], m, op.parts, val, mid, State());
      StepRefinesEager(s, trees, op, State());
      trees := Eager(trees, op);
    }

    method WriteAt(root: Ref, parts: seq<string>, val: Val)
      requires parts != [] && root in heap
      modifies this`heap, this`next
      ensures (heap, next) == SetCells(old(heap), old(next), root, parts, val)
    {
      if |parts| == 1 {
        heap := heap[root := heap[root][parts[0] := val]];
        return;
      }
      var current := root;
      var i := 0;
      assert parts[0..] == parts;
      while i < |parts| - 1
        invariant 0 <= i < |parts| && current in heap
        invariant SetCells(heap, next, current, parts[i..], val) == SetCells(old(heap), old(next), root, parts, val)
      {
        var key := parts[i];
        assert parts[i..][0] == key && parts[i..][1..] == parts[i + 1..];
        if key in heap[current] && heap[current][key].MapRef? && heap[current][key].r in heap {
          current := heap[current][key].r;
        } else {
          heap := heap[next := map[]][current := heap[current][key := MapRef(next)]];
          current, next := next, next + 1;
        }
        i := i + 1;
      }
      heap := heap[current := heap[current][parts[i] := val]];
    }

    method DeletePath(m: nat, path: string)
      requires Valid() && m in msgs
      modifies this
      ensures Valid() && KeepsIds(old(State()), State())
      ensures trees == Eager(old(trees), DeleteAt(m, Split(path)))
      ensures m in old(trees) && trees == old(trees)[m := RemovePath(old(trees)[m], path)]
    {
      ghost var (s, op) := (State(), DeleteAt(m, Split(path)));
      ProtectedIsFirstKey(path);
      assert m in trees;
      if path == "_id" || "_id." <= path { return; }
      EnsureUnique(m);
      DetachedOk(s, trees, m, State());
      ghost var mid := State();
      RemoveAt(msgs[m].data, Split(path));
      assert DeleteStep(s, trees[m], m, op.parts, mid, State());
      StepRefinesEager(s, trees, op, State());
      trees := Eager(trees, op);
    }

    method RemoveAt(root: Ref, parts: seq<string>)
      requires parts != [] && root in heap
      modifies this`heap
      ensures heap == DeleteCells(old(heap), root, parts)
    {
      var current := root;
      var i := 0;
      assert parts[0..] == parts;
      while i < |parts| - 1
        invariant 0 <= i < |parts| && current in heap && heap == old(heap)
        invariant DeleteCells(heap, current, parts[i..]) == DeleteCells(heap, root, parts)
      {
        var key := parts[i];
        assert parts[i..][0] == key && parts[i..][1..] == parts[i + 1..];
        if !(key in heap[current] && heap[current][key].MapRef? && heap[current][key].r in heap) { return; }
        current := heap[current][key].r;
        i := i + 1;
      }
      heap := heap[current := heap[current] - {parts[i]}];
    }
  }

  // The copy of a map starts as an empty cell; the source is not it.
  lemma CopyStarts(h: Heap, next: Ref, src: Ref, f: Fields)
    requires Bounded(h, next) && Spells(h, MapRef(src), Obj(f))
    ensures Copied(h, next, h[next := map[]], next + 1, MapRef(next), Obj(map[]))
    ensures src in h && src != next && h[src].Keys == f.Keys
  {
    EmptyMap(h[next := map[]], next);
  }

  lemma NothingCopied(h: Heap, next: Ref)
    requires Bounded(h, next)
    ensures Copied(h, next, h, next, Slice([]), Arr([]))
  {
    assert Spells(h, Slice([]), Arr([]));
    assert Cells(h, Slice([]), Arr([])) == {};
  }

  // Copying leaves what it copies from as it was.
  lemma SourceKept(h0: Heap, next0: Ref, h: Heap, next: Ref, c: Val, t: Json, v: Val, u: Json)
    requires Copied(h0, next0, h, next, c, t) && Spells(h0, v, u)
    ensures Bounded(h, next) && Spells(h, v, u)
  {
    CellsAllocated(h0, v, u);
    Frame(h0, h, v, u);
  }

  lemma SourceEntry(h0: Heap, next0: Ref, h: Heap, next: Ref, c: Val, t: Json, src: Ref, f: Fields, k: string)
    requires Copied(h0, next0, h, next, c, t) && Spells(h0, MapRef(src), Obj(f)) && k in f
    ensures src in h && k in h[src] && h[src] == h0[src] && Bounded(h, next) && Spells(h, h[src][k], f[k])
  {
    SourceKept(h0, next0, h, next, c, t, h0[src][k], f[k]);
  }
}
