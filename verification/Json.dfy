/**
 JSON values, and reading and writing them by dotted path as messages do.
 */
module JsonValues {

  datatype Option<+T> = None | Some(value: T)

  datatype Json =
    | Null
    | Bool(b: bool)
    | Num(n: real)
    | Str(s: string)
    | Arr(items: seq<Json>)
    | Obj(fields: map<string, Json>)

  type Fields = map<string, Json>

  /******* Dotted paths *******/

  // strings.Split(path, ".")
  function Split(path: string): (parts: seq<string>)
    ensures parts != []
  {
    if path == "" then [""]
    else
      var rest := Split(path[1..]);
      if path[0] == '.' then [""] + rest else [[path[0]] + rest[0]] + rest[1..]
  }

  // strings.Join(parts, ".")
  function Joined(parts: seq<string>): string
    requires parts != []
  {
    if |parts| == 1 then parts[0] else parts[0] + "." + Joined(parts[1..])
  }

  predicate DotFree(parts: seq<string>) {
    forall i :: 0 <= i < |parts| ==> '.' !in parts[i]
  }

  predicate Protected(path: string) {
    path == "_id" || "_id." <= path
  }

  lemma {:induction false} SplitDropsDots(path: string)
    ensures DotFree(Split(path))
  {
    if path != "" { SplitDropsDots(path[1..]); }
  }

  lemma Regroup(a: string, b: string, c: string)
    ensures a + b + c == a + (b + c)
  {
  }

  lemma JoinedHead(c: string, parts: seq<string>)
    requires parts != []
    ensures Joined([c + parts[0]] + parts[1..]) == c + Joined(parts)
  {
    var more := [c + parts[0]] + parts[1..];
    assert more[1..] == parts[1..] && |more| == |parts| && more[0] == c + parts[0];
    if |parts| > 1 {
      Regroup(c + parts[0], ".", Joined(parts[1..]));
      Regroup(c, parts[0], "." + Joined(parts[1..]));
      Regroup(parts[0], ".", Joined(parts[1..]));
    }
  }

  // No key is lost, made up or moved: the keys, joined, are the path.
  lemma {:induction false} SplitJoined(path: string)
    ensures Joined(Split(path)) == path
  {
    if path != "" {
      var rest := Split(path[1..]);
      SplitJoined(path[1..]);
      assert path == [path[0]] + path[1..];
      if path[0] == '.' {
        assert ([""] + rest)[1..] == rest && "" + "." + Joined(rest) == "." + Joined(rest);
      } else {
        JoinedHead([path[0]], rest);
      }
    }
  }

  lemma {:induction false} SplitKeys(head: string, rest: string)
    requires '.' !in head
    ensures Split(head) == [head] && Split(head + "." + rest) == [head] + Split(rest)
  {
    if head == "" {
      assert (head + "." + rest)[1..] == rest;
    } else {
      SplitKeys(head[1..], rest);
      assert head == [head[0]] + head[1..];
      assert (head + "." + rest)[1..] == head[1..] + "." + rest;
      assert ([head[1..]] + Split(rest))[1..] == Split(rest);
    }
  }

  // Splitting joined keys gives the keys, so every list of keys without dots
  // is the one meaning of one path.
  lemma {:induction false} JoinedSplit(parts: seq<string>)
    requires parts != [] && DotFree(parts)
    ensures Split(Joined(parts)) == parts
  {
    if |parts| == 1 {
      SplitKeys(parts[0], "");
    } else {
      JoinedSplit(parts[1..]);
      SplitKeys(parts[0], Joined(parts[1..]));
      assert parts == [parts[0]] + parts[1..];
    }
  }

  // other is path, or lies below it.
  predicate Under(other: string, path: string) {
    other == path || path + "." <= other
  }

  lemma {:induction false} JoinedMore(parts: seq<string>, more: seq<string>)
    requires parts != [] && more != []
    ensures Joined(parts + more) == Joined(parts) + "." + Joined(more)
  {
    if |parts| == 1 {
      assert (parts + more)[1..] == more;
    } else {
      assert (parts + more)[1..] == parts[1..] + more;
      JoinedMore(parts[1..], more);
    }
  }

  // Below, as strings, is a longer list of keys.
  lemma UnderIsPrefix(other: string, path: string)
    ensures Under(other, path) <==> Split(path) <= Split(other)
  {
    hide Split, Joined;
    if Split(path) <= Split(other) { PrefixIsUnder(other, path); }
    if path + "." <= other {
      BelowPath(other, path);
      SplitBelow(path, other[|path| + 1..]);
    }
  }

  lemma BelowPath(other: string, path: string)
    requires path + "." <= other
    ensures other == path + "." + other[|path| + 1..]
  {
  }

  lemma PrefixIsUnder(other: string, path: string)
    requires Split(path) <= Split(other)
    ensures Under(other, path)
  {
    SplitJoined(path);
    SplitJoined(other);
    var more := Split(other)[|Split(path)|..];
    assert Split(other) == Split(path) + more;
    hide Split, Joined;
    if more == [] {
      assert Split(other) == Split(path);
    } else {
      JoinedMore(Split(path), more);
      assert other == path + "." + Joined(more);
    }
  }

  lemma SplitBelow(path: string, rest: string)
    ensures Split(path + "." + rest) == Split(path) + Split(rest)
  {
    SplitJoined(path);
    SplitJoined(rest);
    SplitDropsDots(path);
    SplitDropsDots(rest);
    JoinedMore(Split(path), Split(rest));
    JoinedSplit(Split(path) + Split(rest));
  }

  lemma {:induction false} SplitFirst(head: string, path: string)
    requires '.' !in head
    ensures Split(path)[0] == head <==> path == head || head + "." <= path
  {
    if path == "" {
    } else if path[0] == '.' {
      assert head != "" ==> path[0] != head[0];
    } else if head != "" && path[0] == head[0] {
      SplitFirst(head[1..], path[1..]);
      assert head == [head[0]] + head[1..] && path == [path[0]] + path[1..];
      assert head + "." == [head[0]] + (head[1..] + ".");
      if head[1..] + "." <= path[1..] {
        assert path == head + "." + path[|head| + 1..];
      }
    }
  }

  // The guard of Set and Delete protects exactly the paths whose first key is "_id".
  lemma ProtectedIsFirstKey(path: string)
    ensures Protected(path) <==> Split(path)[0] == "_id"
  {
    SplitFirst("_id", path);
  }

  /******* Reading and writing by path *******/

  function Get(f: Fields, parts: seq<string>): Json
    requires parts != []
    decreases parts
  {
    if parts[0] !in f then Null
    else if |parts| == 1 then f[parts[0]]
    else
      match f[parts[0]]
      case Obj(g) => Get(g, parts[1..])
      case _ => Null
  }

  function Sub(f: Fields, k: string): Fields {
    if k in f && f[k].Obj? then f[k].fields else map[]
  }

  function Set(f: Fields, parts: seq<string>, v: Json): Fields
    requires parts != []
    decreases parts
  {
    if |parts| == 1 then f[parts[0] := v]
    else f[parts[0] := Obj(Set(Sub(f, parts[0]), parts[1..], v))]
  }

  function Delete(f: Fields, parts: seq<string>): Fields
    requires parts != []
    decreases parts
  {
    if |parts| == 1 then f - {parts[0]}
    else if parts[0] in f && f[parts[0]].Obj? then f[parts[0] := Obj(Delete(f[parts[0]].fields, parts[1..]))]
    else f
  }

  /******* Lens laws *******/

  // What was set is read back, also below the path, whatever intermediates
  // had to be created or replaced.
  lemma {:induction false} GetSet(f: Fields, parts: seq<string>, v: Json, below: seq<string>)
    requires parts != []
    ensures Get(Set(f, parts, v), parts + below) ==
            if below == [] then v else if v.Obj? then Get(v.fields, below) else Null
    decreases parts
  {
    var g := Set(f, parts, v);
    if |parts| == 1 {
      assert (parts + below)[1..] == below;
    } else {
      GetSet(Sub(f, parts[0]), parts[1..], v, below);
      assert (parts + below)[1..] == parts[1..] + below;
    }
  }

  lemma {:induction false} GetDelete(f: Fields, parts: seq<string>)
    requires parts != []
    ensures Get(Delete(f, parts), parts) == Null
    decreases parts
  {
    if |parts| > 1 && parts[0] in f && f[parts[0]].Obj? {
      GetDelete(f[parts[0]].fields, parts[1..]);
    }
  }

  // Paths that are neither above nor below keep their value.
  lemma {:induction false} SetElsewhere(f: Fields, parts: seq<string>, v: Json, other: seq<string>)
    requires parts != [] && other != [] && !(parts <= other) && !(other <= parts)
    ensures Get(Set(f, parts, v), other) == Get(f, other)
    decreases parts
  {
    if parts[0] == other[0] {
      Diverge(parts, other);
      SetElsewhere(Sub(f, parts[0]), parts[1..], v, other[1..]);
      GetOfEmpty(other[1..]);
    }
  }

  lemma {:induction false} DeleteElsewhere(f: Fields, parts: seq<string>, other: seq<string>)
    requires parts != [] && other != [] && !(parts <= other) && !(other <= parts)
    ensures Get(Delete(f, parts), other) == Get(f, other)
    decreases parts
  {
    if parts[0] == other[0] {
      Diverge(parts, other);
      if parts[0] in f && f[parts[0]].Obj? {
        DeleteElsewhere(f[parts[0]].fields, parts[1..], other[1..]);
      }
    }
  }

  lemma Diverge(a: seq<string>, b: seq<string>)
    requires a != [] && b != [] && a[0] == b[0] && !(a <= b) && !(b <= a)
    ensures |a| > 1 && |b| > 1 && !(a[1..] <= b[1..]) && !(b[1..] <= a[1..])
  {
    assert a == [a[0]] + a[1..] && b == [b[0]] + b[1..];
  }

  lemma GetOfEmpty(parts: seq<string>)
    requires parts != []
    ensures Get(map[], parts) == Null
  {
  }

  // The last write wins, and a deleted leaf can be put back.
  lemma {:induction false} SetSet(f: Fields, parts: seq<string>, v: Json, w: Json)
    requires parts != []
    ensures Set(Set(f, parts, v), parts, w) == Set(f, parts, w)
    decreases parts
  {
    if |parts| > 1 {
      SetSet(Sub(f, parts[0]), parts[1..], v, w);
      assert Sub(Set(f, parts, v), parts[0]) == Set(Sub(f, parts[0]), parts[1..], v);
    }
  }

  lemma {:induction false} SetAfterDelete(f: Fields, parts: seq<string>, v: Json)
    requires parts != []
    ensures Set(Delete(f, parts), parts, v) == Set(f, parts, v)
    decreases parts
  {
    if |parts| > 1 && parts[0] in f && f[parts[0]].Obj? {
      SetAfterDelete(f[parts[0]].fields, parts[1..], v);
      assert Sub(Delete(f, parts), parts[0]) == Delete(f[parts[0]].fields, parts[1..]);
    }
  }

  // A deleted key is no longer there, rather than there with no value.
  lemma {:induction false} DeletedIsGone(f: Fields, front: seq<string>, k: string)
    ensures front == [] ==> k !in Delete(f, front + [k])
    ensures front != [] ==> var at := Get(Delete(f, front + [k]), front); at.Obj? ==> k !in at.fields
    decreases front
  {
    var parts := front + [k];
    if front != [] {
      assert parts[0] == front[0] && parts[1..] == front[1..] + [k];
      if front[0] in f && f[front[0]].Obj? {
        DeletedIsGone(f[front[0]].fields, front[1..], k);
      }
    }
  }

  /******* The same over path strings *******/

  function ReadPath(f: Fields, path: string): Json {
    Get(f, Split(path))
  }

  function WritePath(f: Fields, path: string, v: Json): Fields {
    if Protected(path) then f else Set(f, Split(path), v)
  }

  function RemovePath(f: Fields, path: string): Fields {
    if Protected(path) then f else Delete(f, Split(path))
  }

  // Reading a path of keys is looking the keys up one inside the other.
  lemma ReadWalks(f: Fields, key: string, rest: string)
    requires '.' !in key
    ensures ReadPath(f, key) == if key in f then f[key] else Null
    ensures ReadPath(f, key + "." + rest) == if key in f && f[key].Obj? then ReadPath(f[key].fields, rest) else Null
  {
    SplitKeys(key, rest);
    assert ([key] + Split(rest))[1..] == Split(rest);
  }

  // What was set at a path is read back there, and below it as part of the
  // value; all other paths but those above keep what they held; the protected
  // id does not change.
  lemma WriteLaws(f: Fields, path: string, v: Json, other: string, below: string)
    ensures !Protected(path) ==>
      ReadPath(WritePath(f, path, v), path) == v &&
      ReadPath(WritePath(f, path, v), path + "." + below) == (if v.Obj? then ReadPath(v.fields, below) else Null)
    ensures !Under(other, path) && !Under(path, other) ==> ReadPath(WritePath(f, path, v), other) == ReadPath(f, other)
    ensures Under(other, "_id") ==> ReadPath(WritePath(f, path, v), other) == ReadPath(f, other)
  {
    SplitBelow(path, below);
    GetSet(f, Split(path), v, Split(below));
    GetSet(f, Split(path), v, []);
    assert Split(path) + [] == Split(path);
    UnderIsPrefix(other, path);
    UnderIsPrefix(path, other);
    if !Under(other, path) && !Under(path, other) { SetElsewhere(f, Split(path), v, Split(other)); }
    if Under(other, "_id") && !Protected(path) {
      IdApart(path, other);
      SetElsewhere(f, Split(path), v, Split(other));
    }
  }

  lemma RemoveLaws(f: Fields, path: string, other: string)
    ensures !Protected(path) ==> ReadPath(RemovePath(f, path), path) == Null
    ensures !Under(other, path) && !Under(path, other) ==> ReadPath(RemovePath(f, path), other) == ReadPath(f, other)
    ensures Under(other, "_id") ==> ReadPath(RemovePath(f, path), other) == ReadPath(f, other)
  {
    GetDelete(f, Split(path));
    UnderIsPrefix(other, path);
    UnderIsPrefix(path, other);
    if !Under(other, path) && !Under(path, other) { DeleteElsewhere(f, Split(path), Split(other)); }
    if Under(other, "_id") && !Protected(path) {
      IdApart(path, other);
      DeleteElsewhere(f, Split(path), Split(other));
    }
  }

  // A path that is not protected does not meet the id.
  lemma IdApart(path: string, other: string)
    requires Under(other, "_id") && !Protected(path)
    ensures !(Split(path) <= Split(other)) && !(Split(other) <= Split(path))
  {
    ProtectedIsFirstKey(path);
    ProtectedIsFirstKey(other);
    assert Split(other)[0] == "_id" && Split(path)[0] != "_id";
  }

  // The later of two writes wins, and a write after a removal is a write.
  lemma WritesAtOnePath(f: Fields, path: string, v: Json, w: Json)
    ensures WritePath(WritePath(f, path, v), path, w) == WritePath(f, path, w)
    ensures WritePath(RemovePath(f, path), path, w) == WritePath(f, path, w)
  {
    SetSet(f, Split(path), v, w);
    SetAfterDelete(f, Split(path), w);
  }
}
