/**
 The WebSocket hub: one event loop that registers, unregisters and broadcasts,
 and DisconnectUser calls from other goroutines.

 A broadcast holds the read lock while it walks the client map and gives it up
 in the middle of the walk to drop a slow client; DisconnectUser may run in
 that gap.  One step is what happens while a lock is held, or the visit of one
 client during the walk.  A send on a closed channel and a second close panic;
 the steps do not prevent either.
 */
module Hubs {

  type Client = nat
  type Message = nat

  const BUFFER := 256

  // `got`: everything ever accepted into the client's send channel, of which
  // the last `queued` are still there; `joined`: how many broadcasts had begun
  // when it registered.
  datatype Conn = Conn(user: string, joined: nat, got: seq<Message>, queued: nat, sendCloses: nat)

  // Where the event loop is.  Only Walking holds the (read) lock.
  datatype Loop =
    | Selecting
    | Walking(visited: set<Client>)
    | Dropping(slow: Client, visited: set<Client>)
    | Retaking(visited: set<Client>)
    | Stopped

  datatype State = State(conns: map<Client, Conn>, clients: set<Client>, sent: seq<Message>, loop: Loop, panicked: bool)

  datatype Action =
    | Register(c: Client, user: string) | Unregister(c: Client)
    | BeginBroadcast(m: Message) | Visit(c: Client) | Drop | Resume | EndBroadcast
    | Stop | DisconnectUser(user: string) | WriterTakes(c: Client)

  predicate Enabled(s: State, a: Action) {
    match a
    case Register(c, _) => s.loop == Selecting && c !in s.conns
    case Unregister(c) => s.loop == Selecting && c in s.conns
    case BeginBroadcast(_) => s.loop == Selecting
    case Visit(c) => s.loop.Walking? && c in s.clients && c !in s.loop.visited && c in s.conns
    case Drop => s.loop.Dropping?
    case Resume => s.loop.Retaking?
    // the range over the map ends when every client left in it was visited
    case EndBroadcast => s.loop.Walking? && s.clients <= s.loop.visited
    case Stop => s.loop == Selecting
    case DisconnectUser(_) => !s.loop.Walking?
    case WriterTakes(c) => c in s.conns && s.conns[c].queued > 0
  }

  // delete(clients, c); close(c.send)
  function DropOne(s: State, c: Client): State {
    if c !in s.conns then s
    else
      s.(clients := s.clients - {c},
         conns := s.conns[c := s.conns[c].(sendCloses := s.conns[c].sendCloses + 1)],
         panicked := s.panicked || s.conns[c].sendCloses > 0)
  }

  // The clients in `out`, all at once.
  function DropAll(s: State, out: set<Client>): State {
    s.(clients := s.clients - out,
       conns := map c | c in s.conns ::
         if c in out then s.conns[c].(sendCloses := s.conns[c].sendCloses + 1) else s.conns[c],
       panicked := s.panicked || exists c :: c in out && c in s.conns && s.conns[c].sendCloses > 0)
  }

  function ClientsOf(s: State, user: string): set<Client> {
    set c | c in s.clients && c in s.conns && s.conns[c].user == user
  }

  function Offer(s: State, c: Client): State
    requires s.loop.Walking? && c in s.conns && s.sent != []
  {
    var (conn, visited) := (s.conns[c], s.loop.visited + {c});
    if conn.sendCloses > 0 then s.(panicked := true)
    else if conn.queued < BUFFER then
      s.(conns := s.conns[c := conn.(got := conn.got + [s.sent[|s.sent| - 1]], queued := conn.queued + 1)], loop := Walking(visited))
    else s.(loop := Dropping(c, visited))
  }

  function Apply(s: State, a: Action): State
    requires Enabled(s, a) && (s.loop.Walking? ==> s.sent != [])
  {
    match a
    case Register(c, user) => s.(conns := s.conns[c := Conn(user, |s.sent|, [], 0, 0)], clients := s.clients + {c})
    case Unregister(c) => if c in s.clients then DropOne(s, c) else s
    case BeginBroadcast(m) => s.(sent := s.sent + [m], loop := Walking({}))
    case Visit(c) => Offer(s, c)
    case Drop =>
      var s' := s.(loop := Retaking(s.loop.visited));
      if s.loop.slow in s.clients then DropOne(s', s.loop.slow) else s'
    case Resume => s.(loop := Walking(s.loop.visited))
    case EndBroadcast => s.(loop := Selecting)
    case Stop => DropAll(s, s.clients).(loop := Stopped)
    case DisconnectUser(user) => if user == "" then s else DropAll(s, ClientsOf(s, user))
    case WriterTakes(c) => s.(conns := s.conns[c := s.conns[c].(queued := s.conns[c].queued - 1)])
  }

  const Init := State(map[], {}, [], Selecting, false)

  function Run(actions: seq<Action>): (s: State)
    ensures !s.loop.Selecting? && !s.loop.Stopped? ==> s.sent != []
  {
    if actions == [] then Init
    else
      var s := Run(actions[..|actions| - 1]);
      var a := actions[|actions| - 1];
      if Enabled(s, a) then Apply(s, a) else s
  }

  /******* The loops of DisconnectUser and Stop *******/

  // One client at a time, in any order, comes to the same as all at once.
  method DropEach(s: State, out: set<Client>) returns (r: State)
    requires out <= s.conns.Keys
    ensures r == DropAll(s, out)
  {
    r := s;
    var todo := out;
    DropNone(s);
    while todo != {}
      invariant todo <= out && r == DropAll(s, out - todo)
      decreases todo
    {
      var c :| c in todo;
      DropOneMore(s, out - todo, c);
      assert out - (todo - {c}) == out - todo + {c};
      r := DropOne(r, c);
      todo := todo - {c};
    }
    assert out - todo == out;
  }

  lemma DropNone(s: State)
    ensures DropAll(s, {}) == s
  {
    assert DropAll(s, {}).conns == s.conns;
  }

  lemma DropOneMore(s: State, out: set<Client>, c: Client)
    requires c in s.conns && c !in out
    ensures DropOne(DropAll(s, out), c) == DropAll(s, out + {c})
  {
    var (one, all) := (DropOne(DropAll(s, out), c), DropAll(s, out + {c}));
    assert one.clients == all.clients;
    assert one.conns == all.conns;
    assert one.panicked == all.panicked by {
      if all.panicked && !s.panicked {
        var d :| d in out + {c} && d in s.conns && s.conns[d].sendCloses > 0;
        assert d == c || d in out;
      }
      if exists d :: d in out && d in s.conns && s.conns[d].sendCloses > 0 {
        var d :| d in out && d in s.conns && s.conns[d].sendCloses > 0;
        assert d in out + {c};
      }
      assert c in out + {c};
    }
  }

  /******* The invariant *******/

  // How many broadcasts a client still in the map has seen.
  function Seen(s: State, c: Client): int {
    match s.loop
    case Walking(visited) => if c in visited then |s.sent| else |s.sent| - 1
    case Dropping(slow, visited) => if c in visited && c != slow then |s.sent| else |s.sent| - 1
    case Retaking(visited) => if c in visited then |s.sent| else |s.sent| - 1
    case _ => |s.sent|
  }

  predicate ConnOk(s: State, c: Client)
    requires c in s.conns
  {
    var conn := s.conns[c];
    conn.queued <= BUFFER && conn.queued <= |conn.got| &&
    conn.sendCloses == (if c in s.clients then 0 else 1) &&
    (c in s.clients ==> conn.joined <= Seen(s, c) <= |s.sent| && conn.got == s.sent[conn.joined..Seen(s, c)])
  }

  predicate LoopOk(s: State) {
    (!s.loop.Selecting? && !s.loop.Stopped? ==> s.sent != []) &&
    (s.loop.Dropping? ==> s.loop.slow in s.loop.visited) &&
    (s.loop.Stopped? ==> s.clients == {})
  }

  predicate Inv(s: State) {
    s.clients <= s.conns.Keys && !s.panicked && LoopOk(s) && forall c :: c in s.conns ==> ConnOk(s, c)
  }

  lemma VisitKeeps(s: State, v: Client, c: Client)
    requires Enabled(s, Visit(v)) && LoopOk(s) && c in s.conns && ConnOk(s, c) && ConnOk(s, v)
    ensures c in Offer(s, v).conns && ConnOk(Offer(s, v), c)
  {
    if v == c {
      var (from, n) := (s.conns[c].joined, |s.sent|);
      assert s.sent[from..n - 1] + [s.sent[n - 1]] == s.sent[from..n];
    }
  }

  lemma ConnKept(s: State, a: Action, c: Client)
    requires Enabled(s, a) && LoopOk(s) && c in Apply(s, a).conns && (c in s.conns ==> ConnOk(s, c))
    requires s.clients <= s.conns.Keys && (a.Visit? ==> ConnOk(s, a.c))
    ensures ConnOk(Apply(s, a), c)
  {
    if a.Visit? {
      VisitKeeps(s, a.c, c);
    } else if a.BeginBroadcast? && c in s.clients {
      assert (s.sent + [a.m])[s.conns[c].joined..|s.sent|] == s.sent[s.conns[c].joined..|s.sent|];
    }
  }

  lemma NoPanic(s: State, a: Action)
    requires Inv(s) && Enabled(s, a)
    ensures !Apply(s, a).panicked && LoopOk(Apply(s, a)) && Apply(s, a).clients <= Apply(s, a).conns.Keys
  {
    assert forall c :: c in s.conns ==> ConnOk(s, c);
  }

  lemma StepKeepsInv(s: State, a: Action)
    requires Inv(s) && Enabled(s, a)
    ensures Inv(Apply(s, a))
  {
    var s' := Apply(s, a);
    NoPanic(s, a);
    hide ConnOk, Apply, LoopOk;
    forall c | c in s'.conns ensures ConnOk(s', c) { ConnKept(s, a, c); }
  }

  lemma {:induction false} RunKeepsInv(actions: seq<Action>)
    ensures Inv(Run(actions))
  {
    if actions != [] {
      var s := Run(actions[..|actions| - 1]);
      RunKeepsInv(actions[..|actions| - 1]);
      if Enabled(s, actions[|actions| - 1]) { StepKeepsInv(s, actions[|actions| - 1]); }
    }
  }

  // Over every interleaving, nothing panics, and a registered client's send
  // channel is open exactly while the client is in the map: it is closed at
  // most once, and never sent to afterwards.
  lemma SendOpenWhileRegistered(actions: seq<Action>, c: Client)
    requires c in Run(actions).conns
    ensures !Run(actions).panicked
    ensures Run(actions).conns[c].sendCloses == if c in Run(actions).clients then 0 else 1
  {
    RunKeepsInv(actions);
    assert ConnOk(Run(actions), c);
  }

  // Between events, a client still in the map has been sent every broadcast
  // since it registered, in order: a client that cannot take one is dropped.
  lemma NoGaps(actions: seq<Action>, c: Client)
    requires Run(actions).loop == Selecting && c in Run(actions).clients
    ensures c in Run(actions).conns && Run(actions).conns[c].joined <= |Run(actions).sent|
    ensures Run(actions).conns[c].got == Run(actions).sent[Run(actions).conns[c].joined..]
  {
    RunKeepsInv(actions);
    assert ConnOk(Run(actions), c);
  }

  // DisconnectUser leaves the user no open channel, at whatever point of a
  // broadcast it runs, and every other client as it was; an empty user id
  // disconnects nobody.
  lemma UserDisconnected(actions: seq<Action>, user: string, c: Client)
    requires Enabled(Run(actions), DisconnectUser(user)) && c in Run(actions).conns
    ensures
      var (s, s') := (Run(actions), Apply(Run(actions), DisconnectUser(user)));
      c in s'.conns &&
      if user != "" && s.conns[c].user == user then c !in s'.clients && s'.conns[c].sendCloses == 1
      else s'.conns[c] == s.conns[c] && (c in s'.clients <==> c in s.clients)
  {
    RunKeepsInv(actions);
    assert ConnOk(Run(actions), c);
  }

  lemma OneMoreAction(actions: seq<Action>, a: Action)
    ensures Run(actions + [a]) == if Enabled(Run(actions), a) then Apply(Run(actions), a) else Run(actions)
  {
    assert (actions + [a])[..|actions|] == actions;
  }

  // A client joins by registering, and leaves only when it is unregistered,
  // its user is disconnected, the hub stops, or a broadcast finds its buffer
  // full.
  lemma ClientsLeaveOnlyWhen(actions: seq<Action>, a: Action, c: Client)
    ensures
      var (s, s') := (Run(actions), Run(actions + [a]));
      (c in s'.clients && c !in s.clients ==> a.Register? && a.c == c) &&
      (c in s.clients && c !in s'.clients ==>
        a == Unregister(c) || a == Stop || (a == Drop && s.loop.Dropping? && s.loop.slow == c) ||
        (a.DisconnectUser? && a.user != "" && c in s.conns && s.conns[c].user == a.user))
    ensures Enabled(Run(actions), Register(c, "")) && a.Register? && a.c == c ==> c in Run(actions + [a]).clients
  {
    OneMoreAction(actions, a);
    RunKeepsInv(actions);
  }

  // Only a client with a full buffer is dropped as slow; with room it gets the
  // message.
  lemma SlowMeansFull(actions: seq<Action>, c: Client)
    requires Enabled(Run(actions), Visit(c))
    ensures
      var (s, s') := (Run(actions), Run(actions + [Visit(c)]));
      if s.conns[c].queued < 256 then
        c in s'.conns && s'.conns[c].got == s.conns[c].got + [s.sent[|s.sent| - 1]] && s'.loop.Walking?
      else s'.loop.Dropping? && s'.loop.slow == c
  {
    OneMoreAction(actions, Visit(c));
    RunKeepsInv(actions);
    assert ConnOk(Run(actions), c);
  }

  // The event loop is never stuck: it waits for events, or can go on with its
  // broadcast.
  lemma HubNeverStuck(actions: seq<Action>)
    requires !Run(actions).loop.Selecting? && !Run(actions).loop.Stopped?
    ensures
      var s := Run(actions);
      Enabled(s, Drop) || Enabled(s, Resume) || Enabled(s, EndBroadcast) || exists c :: Enabled(s, Visit(c))
  {
    RunKeepsInv(actions);
    var s := Run(actions);
    if s.loop.Walking? && !(s.clients <= s.loop.visited) {
      var c :| c in s.clients && c !in s.loop.visited;
      assert Enabled(s, Visit(c));
    }
  }
}
