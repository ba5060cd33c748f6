/**
 The user store: all users in memory under two keys, the whole set rewritten
 to storage before memory changes, and the rule that the last active admin
 stays one.  Saving may fail, which leaves the stored file as it was.
 */
module FileStores {
  import opened JsonValues

  type Id = string

  datatype User = User(id: Id, provider: string, username: string, role: string, disabled: bool)

  datatype Key = Key(provider: string, username: string)

  type Users = map<Id, User>
  type Index = map<Key, Id>

  function KeyOf(u: User): Key {
    Key(u.provider, u.username)
  }

  predicate ActiveAdmin(u: User) {
    u.role == "admin" && !u.disabled
  }

  predicate HasAdmin(users: Users) {
    exists id :: id in users && ActiveAdmin(users[id])
  }

  predicate OwnIds(users: Users) {
    forall id :: id in users ==> users[id].id == id
  }

  // Every user is found under its own id and under its own name, and nothing
  // else is in the index.
  predicate IndexOk(users: Users, index: Index) {
    (forall id :: id in users ==> users[id].id == id && KeyOf(users[id]) in index && index[KeyOf(users[id])] == id) &&
    (forall k :: k in index ==> index[k] in users && KeyOf(users[index[k]]) == k)
  }

  // The list holds exactly these users, each once.
  ghost predicate Lists(list: seq<User>, users: Users) {
    (forall i :: 0 <= i < |list| ==> list[i].id in users && users[list[i].id] == list[i]) &&
    (forall i, j :: 0 <= i < j < |list| ==> list[i].id != list[j].id) &&
    (forall id :: id in users ==> exists i :: 0 <= i < |list| && list[i].id == id)
  }

  lemma ListsOneMore(list: seq<User>, users: Users, u: User)
    requires Lists(list, users) && u.id !in users
    ensures Lists(list + [u], users[u.id := u])
  {
    var (more, all) := (list + [u], users[u.id := u]);
    forall id | id in all ensures exists i :: 0 <= i < |more| && more[i].id == id {
      if id == u.id {
        assert more[|list|].id == id;
      } else {
        var i :| 0 <= i < |list| && list[i].id == id;
        assert more[i].id == id;
      }
    }
  }

  datatype Result = Saved | UsernameTaken | IdTaken | NotFound | CannotRename | LastAdmin | SaveFailed

  /******* Create and Update on the whole state *******/

  // `disk`: the list last written to storage.
  datatype State = State(users: Users, index: Index, disk: seq<User>)

  // `written`: the list handed to storage, in whatever order the map yields.
  datatype Op =
    | Create(u: User, saves: bool, written: seq<User>)
    | Update(u: User, saves: bool, written: seq<User>)

  predicate OtherAdmin(users: Users, but: Id) {
    exists id :: id in users && id != but && ActiveAdmin(users[id])
  }

  function Outcome(s: State, op: Op): Result {
    match op
    case Create(u, saves, _) =>
      if KeyOf(u) in s.index then UsernameTaken
      else if u.id in s.users then IdTaken
      else if !saves then SaveFailed
      else Saved
    case Update(u, saves, _) =>
      if u.id !in s.users then NotFound
      else if KeyOf(s.users[u.id]) != KeyOf(u) then CannotRename
      else if ActiveAdmin(s.users[u.id]) && !ActiveAdmin(u) && !OtherAdmin(s.users, u.id) then LastAdmin
      else if !saves then SaveFailed
      else Saved
  }

  function Next(s: State, op: Op): Users {
    s.users[op.u.id := op.u]
  }

  function Step(s: State, op: Op): State {
    if Outcome(s, op) != Saved then s
    else State(Next(s, op), if op.Create? then s.index[KeyOf(op.u) := op.u.id] else s.index, op.written)
  }

  // What is handed to storage is the whole next user set.
  ghost predicate Legal(s: State, op: Op) {
    Outcome(s, op) == Saved ==> Lists(op.written, Next(s, op))
  }

  class FileStore {
    const normalise: string -> string
    var byId: Users
    var index: Index
    var disk: seq<User>

    ghost predicate Valid()
      reads this
    {
      IndexOk(byId, index) && Lists(disk, byId)
    }

    ghost function Current(): State
      reads this
    {
      State(byId, index, disk)
    }

    // NewFileStore: the users found in storage.
    constructor (normalise: string -> string, found: seq<User>)
      ensures this.normalise == normalise && disk == found
      ensures byId == UsersOf(found) && index == IndexOf(found)
      ensures Distinct(found) ==> Valid()
    {
      this.normalise := normalise;
      disk := found;
      byId, index := map[], map[];
      new;
      for i := 0 to |found|
        invariant this.normalise == normalise && disk == found
        invariant byId == UsersOf(found[..i]) && index == IndexOf(found[..i])
      {
        assert found[..i + 1][..i] == found[..i];
        byId := byId[found[i].id := found[i]];
        index := index[KeyOf(found[i]) := found[i].id];
      }
      assert found[..|found|] == found;
      if Distinct(found) { DistinctLoads(found); }
    }

    // All users of a map, in no particular order.
    static method Snapshot(users: Users) returns (out: seq<User>)
      requires OwnIds(users)
      ensures Lists(out, users)
    {
      out := [];
      var todo := users.Keys;
      ghost var seen: Users := map[];
      while todo != {}
        invariant todo <= users.Keys && seen == users - todo && Lists(out, seen)
        decreases todo
      {
        var id :| id in todo;
        ListsOneMore(out, seen, users[id]);
        out := out + [users[id]];
        assert users - (todo - {id}) == seen[id := users[id]];
        seen, todo := seen[id := users[id]], todo - {id};
      }
      assert users - todo == users;
    }

    method CreateUser(u: User, saves: bool) returns (r: Result)
      requires Valid()
      modifies this
      ensures
        var op := Create(u, saves, disk);
        Valid() && r == Outcome(old(Current()), op) && Legal(old(Current()), op) && Current() == Step(old(Current()), op)
    {
      if KeyOf(u) in index {
        return UsernameTaken;
      }
      if u.id in byId {
        return IdTaken;
      }
      var next := Snapshot(byId);
      ListsOneMore(next, byId, u);
      next := next + [u];
      if !saves {
        return SaveFailed;
      }
      disk := next;
      byId := byId[u.id := u];
      index := index[KeyOf(u) := u.id];
      return Saved;
    }

    method CountOtherAdmins(but: Id) returns (n: nat)
      ensures n > 0 <==> OtherAdmin(byId, but)
    {
      n := 0;
      var todo := byId.Keys;
      while todo != {}
        invariant todo <= byId.Keys
        invariant n > 0 <==> exists id :: id in byId && id !in todo && id != but && ActiveAdmin(byId[id])
        decreases todo
      {
        var id :| id in todo;
        if id != but && ActiveAdmin(byId[id]) {
          n := n + 1;
        }
        todo := todo - {id};
      }
    }

    method UpdateUser(u: User, saves: bool) returns (r: Result)
      requires Valid()
      modifies this
      ensures
        var op := Update(u, saves, disk);
        Valid() && r == Outcome(old(Current()), op) && Legal(old(Current()), op) && Current() == Step(old(Current()), op)
    {
      hide Lists, IndexOk, OtherAdmin;
      if u.id !in byId {
        return NotFound;
      }
      var was := byId[u.id];
      if was.provider != u.provider || was.username != u.username {
        return CannotRename;
      }
      if ActiveAdmin(was) && !ActiveAdmin(u) {
        var others := CountOtherAdmins(u.id);
        if others == 0 {
          return LastAdmin;
        }
      }
      IndexReplaced(byId, index, u);
      var next := Snapshot(byId[u.id := u]);
      if !saves {
        return SaveFailed;
      }
      disk := next;
      byId := byId[u.id := u];
      return Saved;
    }

    // The index answers as a scan of all users would.
    method GetByUsername(provider: string, username: string) returns (r: Option<User>)
      requires Valid()
      ensures r.Some? ==> r.value.id in byId && byId[r.value.id] == r.value && KeyOf(r.value) == Key(provider, normalise(username))
      ensures r.None? <==> forall id :: id in byId ==> KeyOf(byId[id]) != Key(provider, normalise(username))
    {
      var k := Key(provider, normalise(username));
      if k !in index {
        return None;
      }
      return Some(byId[index[k]]);
    }

    method CountActiveAdmins() returns (n: nat)
      ensures n == |set id | id in byId && ActiveAdmin(byId[id])|
    {
      n := 0;
      var todo := byId.Keys;
      ghost var counted: set<Id> := {};
      while todo != {}
        invariant todo <= byId.Keys && n == |counted|
        invariant counted == set id | id in byId && id !in todo && ActiveAdmin(byId[id])
        decreases todo
      {
        var id :| id in todo;
        if ActiveAdmin(byId[id]) {
          n := n + 1;
          counted := counted + {id};
        }
        todo := todo - {id};
      }
      assert counted == set id | id in byId && ActiveAdmin(byId[id]);
    }
  }

  /******* Loading *******/

  function UsersOf(list: seq<User>): Users {
    if list == [] then map[] else UsersOf(list[..|list| - 1])[list[|list| - 1].id := list[|list| - 1]]
  }

  function IndexOf(list: seq<User>): Index {
    if list == [] then map[] else IndexOf(list[..|list| - 1])[KeyOf(list[|list| - 1]) := list[|list| - 1].id]
  }

  predicate Distinct(list: seq<User>) {
    forall i, j :: 0 <= i < j < |list| ==> list[i].id != list[j].id && KeyOf(list[i]) != KeyOf(list[j])
  }

  lemma {:induction false} NotLoaded(list: seq<User>, u: User)
    requires forall i :: 0 <= i < |list| ==> list[i].id != u.id && KeyOf(list[i]) != KeyOf(u)
    ensures u.id !in UsersOf(list) && KeyOf(u) !in IndexOf(list)
  {
    if list != [] {
      var init := list[..|list| - 1];
      assert forall i :: 0 <= i < |init| ==> init[i] == list[i];
      NotLoaded(init, u);
    }
  }

  lemma IndexOneMore(users: Users, index: Index, u: User)
    requires IndexOk(users, index) && u.id !in users && KeyOf(u) !in index
    ensures IndexOk(users[u.id := u], index[KeyOf(u) := u.id])
  {
  }

  lemma IndexReplaced(users: Users, index: Index, u: User)
    requires IndexOk(users, index) && u.id in users && KeyOf(u) == KeyOf(users[u.id])
    ensures IndexOk(users[u.id := u], index) && OwnIds(users[u.id := u])
  {
  }

  lemma {:induction false} DistinctLoads(list: seq<User>)
    requires Distinct(list)
    ensures IndexOk(UsersOf(list), IndexOf(list)) && Lists(list, UsersOf(list))
  {
    if list != [] {
      var (init, u) := (list[..|list| - 1], list[|list| - 1]);
      assert forall i :: 0 <= i < |init| ==> init[i] == list[i];
      DistinctLoads(init);
      NotLoaded(init, u);
      assert list == init + [u];
      hide IndexOk, Lists;
      IndexOneMore(UsersOf(init), IndexOf(init), u);
      ListsOneMore(init, UsersOf(init), u);
    }
  }

  lemma ListsDetermine(list: seq<User>, a: Users, b: Users)
    requires Lists(list, a) && Lists(list, b)
    ensures a == b
  {
    forall id | id in a ensures id in b && b[id] == a[id] {
      var i :| 0 <= i < |list| && list[i].id == id;
    }
    forall id | id in b ensures id in a {
      var i :| 0 <= i < |list| && list[i].id == id;
    }
  }

  lemma IndexDetermined(users: Users, a: Index, b: Index)
    requires IndexOk(users, a) && IndexOk(users, b)
    ensures a == b
  {
    forall k | k in a ensures k in b && b[k] == a[k] { assert KeyOf(users[a[k]]) == k; }
    forall k | k in b ensures k in a { assert KeyOf(users[b[k]]) == k; }
  }

  lemma ListedOnce(list: seq<User>, users: Users, index: Index)
    requires Lists(list, users) && IndexOk(users, index)
    ensures Distinct(list)
  {
    forall i, j | 0 <= i < j < |list| ensures list[i].id != list[j].id && KeyOf(list[i]) != KeyOf(list[j]) {
      assert index[KeyOf(list[i])] == list[i].id && index[KeyOf(list[j])] == list[j].id;
    }
  }

  // What a valid store has written, loaded again, is the same store.
  lemma ReloadIsSame(list: seq<User>, users: Users, index: Index)
    requires Lists(list, users) && IndexOk(users, index)
    ensures UsersOf(list) == users && IndexOf(list) == index
  {
    ListedOnce(list, users, index);
    DistinctLoads(list);
    ListsDetermine(list, users, UsersOf(list));
    IndexDetermined(users, index, IndexOf(list));
  }

  /******* Runs *******/

  function Run(s: State, ops: seq<Op>): State {
    if ops == [] then s else Step(Run(s, ops[..|ops| - 1]), ops[|ops| - 1])
  }

  // The index agrees with the users, and storage holds exactly them.
  ghost predicate Inv(s: State) {
    IndexOk(s.users, s.index) && Lists(s.disk, s.users)
  }

  ghost predicate IsRun(s: State, ops: seq<Op>) {
    forall i :: 0 <= i < |ops| ==> Legal(Run(s, ops[..i]), ops[i])
  }

  lemma StepKeeps(s: State, op: Op)
    requires Inv(s) && Legal(s, op)
    ensures Inv(Step(s, op))
    ensures HasAdmin(s.users) ==> HasAdmin(Step(s, op).users)
  {
    if Outcome(s, op) == Saved {
      hide Lists;
      if op.Create? { IndexOneMore(s.users, s.index, op.u); }
      if HasAdmin(s.users) { AdminKept(s, op); }
    }
  }

  lemma AdminKept(s: State, op: Op)
    requires Outcome(s, op) == Saved && HasAdmin(s.users)
    requires op.Create? ==> op.u.id !in s.users
    ensures HasAdmin(Next(s, op))
  {
    var (u, users) := (op.u, Next(s, op));
    var a :| a in s.users && ActiveAdmin(s.users[a]);
    if a != u.id {
      assert users[a] == s.users[a];
    } else if ActiveAdmin(u) {
      assert users[a] == u;
    } else {
      var b :| b in s.users && b != u.id && ActiveAdmin(s.users[b]);
      assert users[b] == s.users[b];
    }
  }

  lemma {:induction false} RunInv(s: State, ops: seq<Op>)
    requires Inv(s) && IsRun(s, ops)
    ensures Inv(Run(s, ops)) && (HasAdmin(s.users) ==> HasAdmin(Run(s, ops).users))
  {
    if ops != [] {
      var (before, op) := (ops[..|ops| - 1], ops[|ops| - 1]);
      forall i | 0 <= i < |before| ensures Legal(Run(s, before[..i]), before[i]) {
        assert before[..i] == ops[..i] && Legal(Run(s, ops[..i]), ops[i]);
      }
      RunInv(s, before);
      assert Legal(Run(s, ops[..|ops| - 1]), op);
      hide Inv, Legal, Step, HasAdmin;
      StepKeeps(Run(s, before), op);
    }
  }

  // Over every run of creates and updates, with saves failing at will and
  // lists written in any order: the index agrees with the users, loading what
  // storage holds gives exactly the users and the index in memory, and once
  // there is an active admin there always is one.
  lemma RunKeeps(s: State, ops: seq<Op>)
    requires Inv(s) && IsRun(s, ops)
    ensures
      var t := Run(s, ops);
      IndexOk(t.users, t.index) && UsersOf(t.disk) == t.users && IndexOf(t.disk) == t.index &&
      (HasAdmin(s.users) ==> HasAdmin(t.users))
  {
    RunInv(s, ops);
    var t := Run(s, ops);
    ReloadIsSame(t.disk, t.users, t.index);
  }

  // The last-admin error is returned exactly for an otherwise acceptable
  // update that would take away the only active admin.
  lemma LastAdminRefusedWhen(s: State, u: User, saves: bool, written: seq<User>)
    requires IndexOk(s.users, s.index) && u.id in s.users && KeyOf(s.users[u.id]) == KeyOf(u)
    ensures Outcome(s, Update(u, saves, written)) == LastAdmin <==> HasAdmin(s.users) && !HasAdmin(s.users[u.id := u])
  {
    var users := s.users[u.id := u];
    if OtherAdmin(s.users, u.id) {
      var b :| b in s.users && b != u.id && ActiveAdmin(s.users[b]);
      assert users[b] == s.users[b];
    }
    if ActiveAdmin(u) { assert users[u.id] == u; }
  }

  // What Create answers, from the users alone: a name counts as taken exactly
  // if some user has it.  Only a save that worked changes anything, and then
  // it adds this user and no other.
  lemma CreateExactly(s: State, u: User, saves: bool, written: seq<User>)
    requires IndexOk(s.users, s.index)
    ensures
      var (r, t) := (Outcome(s, Create(u, saves, written)), Step(s, Create(u, saves, written)));
      (r == UsernameTaken <==> exists id :: id in s.users && s.users[id].provider == u.provider && s.users[id].username == u.username) &&
      (r == IdTaken <==> r != UsernameTaken && u.id in s.users) &&
      (r == SaveFailed <==> r != UsernameTaken && r != IdTaken && !saves) &&
      (if r == Saved then u.id !in s.users && t.users == s.users[u.id := u] && t.disk == written else t == s)
  {
    if KeyOf(u) in s.index {
      var id := s.index[KeyOf(u)];
      assert id in s.users && KeyOf(s.users[id]) == KeyOf(u);
    }
  }

  // What Update answers: it wants a known id and the same name, refuses to
  // take away the last active admin, and replaces this user and no other.
  lemma UpdateExactly(s: State, u: User, saves: bool, written: seq<User>)
    requires IndexOk(s.users, s.index)
    ensures
      var (r, t) := (Outcome(s, Update(u, saves, written)), Step(s, Update(u, saves, written)));
      (r == NotFound <==> u.id !in s.users) &&
      (r == CannotRename <==> u.id in s.users && (s.users[u.id].provider != u.provider || s.users[u.id].username != u.username)) &&
      (r == LastAdmin <==> r != NotFound && r != CannotRename && HasAdmin(s.users) && !HasAdmin(s.users[u.id := u])) &&
      (r == SaveFailed <==> r != NotFound && r != CannotRename && r != LastAdmin && !saves) &&
      (if r == Saved then t == State(s.users[u.id := u], s.index, written) else t == s)
  {
    if u.id in s.users && KeyOf(s.users[u.id]) == KeyOf(u) { LastAdminRefusedWhen(s, u, saves, written); }
  }
}
