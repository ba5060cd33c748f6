/**
 The login throttle: five failures in a window lock a username for fifteen
 minutes.  Time is in nanoseconds; an attempt (Allow, then the record of its
 outcome) is one step at one time.
 */
module Throttles {
  import opened JsonValues

  const MAX_FAILURES: nat := 5
  const WINDOW: int := 15 * 60 * 1_000_000_000

  datatype Entry = Entry(first: int, failures: nat, lockedUntil: Option<int>)

  type Table = map<string, Entry>

  predicate Locked(fail: Table, user: string, now: int) {
    user in fail && fail[user].lockedUntil.Some? && now < fail[user].lockedUntil.value
  }

  // Allow deletes an entry whose lock has expired.
  function Unlocked(fail: Table, user: string, now: int): Table {
    if user in fail && fail[user].lockedUntil.Some? && now >= fail[user].lockedUntil.value then fail - {user} else fail
  }

  function Failed(fail: Table, user: string, now: int): Entry {
    var e := if user !in fail || now - fail[user].first > WINDOW then Entry(now, 0, None) else fail[user];
    var e' := e.(failures := e.failures + 1);
    if e'.failures >= MAX_FAILURES then e'.(lockedUntil := Some(now + WINDOW)) else e'
  }

  class LoginThrottle {
    var fail: Table

    constructor ()
      ensures fail == map[]
    {
      fail := map[];
    }

    method Allow(user: string, now: int) returns (ok: bool)
      modifies this
      ensures ok <==> !Locked(old(fail), user, now)
      ensures fail == if ok then Unlocked(old(fail), user, now) else old(fail)
    {
      if user !in fail {
        return true;
      }
      var e := fail[user];
      if e.lockedUntil.Some? && now < e.lockedUntil.value {
        return false;
      }
      if e.lockedUntil.Some? && now >= e.lockedUntil.value {
        fail := fail - {user};
      }
      return true;
    }

    method RecordFailure(user: string, now: int)
      modifies this
      ensures fail == old(fail)[user := Failed(old(fail), user, now)]
    {
      var e := Entry(now, 0, None);
      if user in fail && now - fail[user].first <= WINDOW {
        e := fail[user];
      }
      e := e.(failures := e.failures + 1);
      if e.failures >= MAX_FAILURES {
        e := e.(lockedUntil := Some(now + WINDOW));
      }
      fail := fail[user := e];
    }

    method RecordSuccess(user: string)
      modifies this
      ensures fail == old(fail) - {user}
    {
      fail := fail - {user};
    }

    // handleLogin: Allow, check, record.  `allowed` is false for a 429.
    method Login(a: Attempt) returns (allowed: bool)
      modifies this
      ensures fail == Attempted(old(fail), a) && (allowed <==> !Locked(old(fail), a.user, a.at))
    {
      allowed := Allow(a.user, a.at);
      if !allowed {
        return;
      }
      match a.outcome {
        case Failure => RecordFailure(a.user, a.at);
        case Success => RecordSuccess(a.user);
        case LookupError =>
      }
    }
  }

  /******* Runs *******/

  datatype Verdict = Failure | Success | LookupError

  datatype Attempt = Attempt(user: string, at: int, outcome: Verdict)

  function Attempted(fail: Table, a: Attempt): Table {
    if Locked(fail, a.user, a.at) then fail
    else
      var open := Unlocked(fail, a.user, a.at);
      match a.outcome
      case Failure => open[a.user := Failed(open, a.user, a.at)]
      case Success => open - {a.user}
      case LookupError => open
  }

  // A recorded failure: its time, its number in its window, the window's start.
  datatype Record = Record(at: int, number: nat, first: int)

  // The table, and the failures recorded for one username.
  datatype Trace = Trace(fail: Table, recs: seq<Record>)

  function Run(user: string, attempts: seq<Attempt>): Trace {
    if attempts == [] then Trace(map[], [])
    else
      var (before, a) := (Run(user, attempts[..|attempts| - 1]), attempts[|attempts| - 1]);
      var fail := Attempted(before.fail, a);
      if a.user == user && a.outcome == Failure && !Locked(before.fail, user, a.at) && user in fail
      then Trace(fail, before.recs + [Record(a.at, fail[user].failures, fail[user].first)])
      else Trace(fail, before.recs)
  }

  // The clock does not go back, and the user never logs in.
  predicate Admissible(user: string, attempts: seq<Attempt>) {
    (forall i :: 0 < i < |attempts| ==> attempts[i - 1].at <= attempts[i].at) &&
    (forall i :: 0 <= i < |attempts| && attempts[i].user == user ==> attempts[i].outcome != Success)
  }

  predicate WellFormed(r: Record) {
    1 <= r.number <= MAX_FAILURES && r.first <= r.at <= r.first + WINDOW && (r.number == 1 ==> r.first == r.at)
  }

  // How the next recorded failure relates to one: it is the next of the same
  // window, or opens a new one after the lock or the window has run out.
  predicate Follows(r: Record, next: Record) {
    r.at <= next.at &&
    if next.number == 1 then
      if r.number == MAX_FAILURES then next.at >= r.at + WINDOW else next.at > r.first + WINDOW
    else r.number < MAX_FAILURES && next.number == r.number + 1 && next.first == r.first
  }

  predicate Linked(recs: seq<Record>) {
    (recs != [] ==> recs[0].number == 1) &&
    (forall i :: 0 <= i < |recs| ==> WellFormed(recs[i])) &&
    (forall i :: 0 < i < |recs| ==> Follows(recs[i - 1], recs[i]))
  }

  // What the table knows about the user, and since when.
  predicate Inv(user: string, t: Trace, clock: int) {
    Linked(t.recs) &&
    if user in t.fail then
      t.recs != [] &&
      var last := t.recs[|t.recs| - 1];
      last.at <= clock &&
      t.fail[user] == Entry(last.first, last.number, if last.number == MAX_FAILURES then Some(last.at + WINDOW) else None)
    else
      t.recs == [] ||
      (t.recs[|t.recs| - 1].number == MAX_FAILURES && t.recs[|t.recs| - 1].at + WINDOW <= clock)
  }

  lemma LinkedMore(recs: seq<Record>, r: Record)
    requires Linked(recs) && WellFormed(r) && (if recs == [] then r.number == 1 else Follows(recs[|recs| - 1], r))
    ensures Linked(recs + [r])
  {
    var more := recs + [r];
    forall i | 0 < i < |more| ensures Follows(more[i - 1], more[i]) {
      if i < |recs| { assert Follows(recs[i - 1], recs[i]); }
    }
  }

  lemma AttemptKeeps(user: string, t: Trace, clock: int, a: Attempt)
    requires Inv(user, t, clock) && clock <= a.at && (a.user == user ==> a.outcome != Success)
    ensures
      var fail := Attempted(t.fail, a);
      if a.user == user && a.outcome == Failure && !Locked(t.fail, user, a.at) then
        user in fail && Inv(user, Trace(fail, t.recs + [Record(a.at, fail[user].failures, fail[user].first)]), a.at)
      else Inv(user, Trace(fail, t.recs), a.at)
  {
    var fail := Attempted(t.fail, a);
    if a.user == user && a.outcome == Failure && !Locked(t.fail, user, a.at) {
      if t.recs != [] { assert WellFormed(t.recs[|t.recs| - 1]); }
      LinkedMore(t.recs, Record(a.at, fail[user].failures, fail[user].first));
    }
  }

  function Clock(attempts: seq<Attempt>): int {
    if attempts == [] then 0 else attempts[|attempts| - 1].at
  }

  lemma {:induction false} RunKeeps(user: string, attempts: seq<Attempt>)
    requires Admissible(user, attempts)
    ensures Inv(user, Run(user, attempts), Clock(attempts))
  {
    if attempts != [] {
      var before := attempts[..|attempts| - 1];
      var a := attempts[|attempts| - 1];
      RunKeeps(user, before);
      if before == [] {
        assert Run(user, before) == Trace(map[], []);
        AttemptKeeps(user, Run(user, before), a.at, a);
      } else {
        assert attempts[|attempts| - 2].at <= a.at && before[|before| - 1] == attempts[|attempts| - 2];
        AttemptKeeps(user, Run(user, before), Clock(before), a);
      }
    }
  }

  /******* The failure-rate bound *******/

  // Nine failures in a row span at least a whole window: within less, a fifth
  // failure cannot be followed, and a window can be left only once, after at
  // most three failures that are not its first.
  lemma NineSpanAWindow(recs: seq<Record>, i: nat)
    requires Linked(recs) && i + 8 < |recs|
    ensures recs[i + 8].at - recs[i].at >= WINDOW
  {
    assert Follows(recs[i + 0], recs[i + 1]);
    assert Follows(recs[i + 1], recs[i + 2]);
    assert Follows(recs[i + 2], recs[i + 3]);
    assert Follows(recs[i + 3], recs[i + 4]);
    assert Follows(recs[i + 4], recs[i + 5]);
    assert Follows(recs[i + 5], recs[i + 6]);
    assert Follows(recs[i + 6], recs[i + 7]);
    assert Follows(recs[i + 7], recs[i + 8]);
  }

  // Failures recorded in the half-open interval of one window from `from`.
  function Within(recs: seq<Record>, from: int): nat {
    if recs == [] then 0
    else Within(recs[..|recs| - 1], from) + if from <= recs[|recs| - 1].at < from + WINDOW then 1 else 0
  }

  lemma LinkedPrefix(recs: seq<Record>)
    requires Linked(recs) && recs != []
    ensures Linked(recs[..|recs| - 1])
  {
    var init := recs[..|recs| - 1];
    forall i | 0 < i < |init| ensures Follows(init[i - 1], init[i]) { assert Follows(recs[i - 1], recs[i]); }
  }

  // Times do not decrease, so the failures inside the interval, counted when
  // the last one is inside, are the last ones.
  lemma {:induction false} LastOnesInside(recs: seq<Record>, from: int)
    requires Linked(recs)
    ensures Within(recs, from) <= |recs|
    ensures recs != [] && recs[|recs| - 1].at < from ==> Within(recs, from) == 0
    ensures recs != [] && from <= recs[|recs| - 1].at < from + WINDOW ==>
      forall j :: |recs| - Within(recs, from) <= j < |recs| ==> from <= recs[j].at
  {
    if recs != [] {
      LinkedPrefix(recs);
      LastOnesInside(recs[..|recs| - 1], from);
      if |recs| > 1 { assert Follows(recs[|recs| - 2], recs[|recs| - 1]); }
    }
  }

  lemma {:induction false} AtMostEight(recs: seq<Record>, from: int)
    requires Linked(recs)
    ensures Within(recs, from) <= 8
  {
    if recs != [] {
      LinkedPrefix(recs);
      AtMostEight(recs[..|recs| - 1], from);
      LastOnesInside(recs, from);
      if |recs| >= 9 { NineSpanAWindow(recs, |recs| - 9); }
    }
  }

  // Every half-open interval of fifteen minutes holds at most eight failures
  // recorded for a username that does not log in.
  lemma FailureRateBound(user: string, attempts: seq<Attempt>, from: int)
    requires Admissible(user, attempts)
    ensures Within(Run(user, attempts).recs, from) <= 8
  {
    RunKeeps(user, attempts);
    AtMostEight(Run(user, attempts).recs, from);
  }

  lemma FifthOfFive(recs: seq<Record>, i: nat)
    requires Linked(recs) && i < |recs| && recs[i].number == MAX_FAILURES
    ensures i >= 4 && recs[i].at - recs[i - 4].at <= WINDOW
  {
    assert i > 0 ==> Follows(recs[i - 1], recs[i]);
    assert i > 1 ==> Follows(recs[i - 2], recs[i - 1]);
    assert i > 2 ==> Follows(recs[i - 3], recs[i - 2]);
    assert i > 3 ==> Follows(recs[i - 4], recs[i - 3]);
    NumbersFromOne(recs, i);
  }

  // A recorded fifth failure comes within one window of the first of five.
  lemma FifthInOneWindow(user: string, attempts: seq<Attempt>, i: nat)
    requires Admissible(user, attempts) && i < |Run(user, attempts).recs| && Run(user, attempts).recs[i].number == MAX_FAILURES
    ensures i >= 4 && Run(user, attempts).recs[i].at - Run(user, attempts).recs[i - 4].at <= WINDOW
  {
    RunKeeps(user, attempts);
    FifthOfFive(Run(user, attempts).recs, i);
  }

  // The number of a failure never exceeds its place in the log.
  lemma {:induction false} NumbersFromOne(recs: seq<Record>, i: nat)
    requires Linked(recs) && i < |recs|
    ensures recs[i].number <= i + 1
  {
    if i > 0 {
      assert Follows(recs[i - 1], recs[i]);
      NumbersFromOne(recs, i - 1);
    }
  }

  // An attempt is refused exactly when the last recorded failure was the
  // fifth of its window and less than a window ago.
  lemma RefusedWhen(user: string, attempts: seq<Attempt>, now: int)
    requires Admissible(user, attempts) && (attempts == [] || now >= Clock(attempts))
    ensures
      var t := Run(user, attempts);
      Locked(t.fail, user, now) <==>
      t.recs != [] && t.recs[|t.recs| - 1].number == MAX_FAILURES && now < t.recs[|t.recs| - 1].at + WINDOW
  {
    RunKeeps(user, attempts);
  }

  lemma {:induction false} GapAfterFifth(recs: seq<Record>, i: nat, j: nat)
    requires Linked(recs) && i < j < |recs| && recs[i].number == MAX_FAILURES
    ensures recs[j].at >= recs[i].at + WINDOW
  {
    assert Follows(recs[j - 1], recs[j]);
    if i < j - 1 { GapAfterFifth(recs, i, j - 1); }
  }

  // After a fifth failure none is recorded for a whole window.
  lemma NoneWhileLocked(user: string, attempts: seq<Attempt>, i: nat, j: nat)
    requires Admissible(user, attempts) && i < j < |Run(user, attempts).recs| && Run(user, attempts).recs[i].number == MAX_FAILURES
    ensures Run(user, attempts).recs[j].at >= Run(user, attempts).recs[i].at + WINDOW
  {
    RunKeeps(user, attempts);
    GapAfterFifth(Run(user, attempts).recs, i, j);
  }

  /******* The bound is attained *******/

  lemma NextFailure(user: string, attempts: seq<Attempt>, at: int, first: int, number: nat)
    requires Run(user, attempts).fail == map[user := Entry(first, number, None)] && number < MAX_FAILURES
    ensures
      var recs := Run(user, attempts).recs;
      Run(user, attempts + [Attempt(user, at, Failure)]) ==
        if at - first > WINDOW then Trace(map[user := Entry(at, 1, None)], recs + [Record(at, 1, at)])
        else
          Trace(map[user := Entry(first, number + 1, if number + 1 == MAX_FAILURES then Some(at + WINDOW) else None)],
                recs + [Record(at, number + 1, first)])
    ensures
      Within(Run(user, attempts + [Attempt(user, at, Failure)]).recs, WINDOW) ==
      Within(Run(user, attempts).recs, WINDOW) + if WINDOW <= at < 2 * WINDOW then 1 else 0
  {
    var a := Attempt(user, at, Failure);
    assert (attempts + [a])[..|attempts|] == attempts;
    OneFailure(user, at, first, number);
    hide Attempted, Failed;
    var (before, after) := (Run(user, attempts), Run(user, attempts + [a]));
    var r := Record(at, after.fail[user].failures, after.fail[user].first);
    assert after.recs == before.recs + [r];
    WithinMore(before.recs, r);
  }

  lemma WithinMore(recs: seq<Record>, r: Record)
    ensures Within(recs + [r], WINDOW) == Within(recs, WINDOW) + if WINDOW <= r.at < 2 * WINDOW then 1 else 0
  {
    assert (recs + [r])[..|recs|] == recs;
  }

  lemma OneFailure(user: string, at: int, first: int, number: nat)
    requires number < MAX_FAILURES
    ensures
      var fail := map[user := Entry(first, number, None)];
      !Locked(fail, user, at) && Attempted(fail, Attempt(user, at, Failure)) ==
        map[user := if at - first > WINDOW then Entry(at, 1, None)
                    else Entry(first, number + 1, if number + 1 == MAX_FAILURES then Some(at + WINDOW) else None)]
  {
    var fail := map[user := Entry(first, number, None)];
    assert Unlocked(fail, user, at) == fail;
    assert fail[user := Failed(fail, user, at)] == map[user := Failed(fail, user, at)];
  }

  lemma FirstFailure(user: string, a: Attempt)
    requires a == Attempt(user, 0, Failure)
    ensures Run(user, [a]) == Trace(map[user := Entry(0, 1, None)], [Record(0, 1, 0)])
    ensures Within(Run(user, [a]).recs, WINDOW) == 0
  {
    assert [a][..0] == [];
    var recs := [Record(0, 1, 0)];
    assert Run(user, [a]).recs == recs;
    assert recs[..0] == [];
  }

  // One failure at 0, three when its window is just not over, and then, one
  // instant later, five more.
  function Burst(user: string, n: nat): seq<Attempt>
    requires n <= 9
  {
    if n == 0 then []
    else Burst(user, n - 1) + [Attempt(user, if n == 1 then 0 else if n <= 4 then WINDOW else WINDOW + 1, Failure)]
  }

  lemma {:induction false} BurstRecorded(user: string, n: nat)
    requires 1 <= n <= 9
    ensures |Burst(user, n)| == n
    ensures Run(user, Burst(user, n)).fail ==
      map[user := if n <= 4 then Entry(0, n, None) else Entry(WINDOW + 1, n - 4, if n == 9 then Some(2 * WINDOW + 1) else None)]
    ensures Within(Run(user, Burst(user, n)).recs, WINDOW) == n - 1
  {
    hide Run, Within;
    if n == 1 {
      var a := Attempt(user, 0, Failure);
      assert Burst(user, 1) == [a];
      FirstFailure(user, a);
    } else {
      BurstRecorded(user, n - 1);
      var (first, number) := if n <= 5 then (0, n - 1) else (WINDOW + 1, n - 5);
      NextFailure(user, Burst(user, n - 1), if n <= 4 then WINDOW else WINDOW + 1, first, number);
    }
  }

  lemma {:induction false} BurstAdmissible(user: string, n: nat)
    requires n <= 9
    ensures Admissible(user, Burst(user, n)) && |Burst(user, n)| == n
    ensures n > 0 ==> Clock(Burst(user, n)) == if n == 1 then 0 else if n <= 4 then WINDOW else WINDOW + 1
  {
    if n > 0 { BurstAdmissible(user, n - 1); }
  }

  lemma EightIsAttained(user: string)
    ensures Admissible(user, Burst(user, 9)) && Within(Run(user, Burst(user, 9)).recs, WINDOW) == 8
  {
    BurstAdmissible(user, 9);
    BurstRecorded(user, 9);
  }

  /******* Other users, and logging in *******/

  function EntryOf(fail: Table, user: string): Option<Entry> {
    if user in fail then Some(fail[user]) else None
  }

  function TableAfter(attempts: seq<Attempt>): Table {
    if attempts == [] then map[] else Attempted(TableAfter(attempts[..|attempts| - 1]), attempts[|attempts| - 1])
  }

  function OnlyOf(attempts: seq<Attempt>, user: string): seq<Attempt> {
    if attempts == [] then []
    else
      var a := attempts[|attempts| - 1];
      OnlyOf(attempts[..|attempts| - 1], user) + if a.user == user then [a] else []
  }

  // An attempt depends on, and changes, its own user's entry only.
  lemma AttemptIsLocal(fail: Table, other: Table, a: Attempt, user: string)
    requires EntryOf(fail, user) == EntryOf(other, user)
    ensures a.user != user ==> EntryOf(Attempted(fail, a), user) == EntryOf(fail, user)
    ensures a.user == user ==> EntryOf(Attempted(fail, a), user) == EntryOf(Attempted(other, a), user)
  {
  }

  lemma OneMoreAttempt(attempts: seq<Attempt>, a: Attempt)
    ensures TableAfter(attempts + [a]) == Attempted(TableAfter(attempts), a)
  {
    assert (attempts + [a])[..|attempts|] == attempts;
  }

  // What is known about a user depends on that user's attempts alone.
  lemma {:induction false} OthersDoNotMatter(attempts: seq<Attempt>, user: string)
    ensures EntryOf(TableAfter(attempts), user) == EntryOf(TableAfter(OnlyOf(attempts, user)), user)
  {
    if attempts != [] {
      var (before, a) := (attempts[..|attempts| - 1], attempts[|attempts| - 1]);
      OthersDoNotMatter(before, user);
      var own := OnlyOf(before, user);
      hide Attempted;
      AttemptIsLocal(TableAfter(before), TableAfter(own), a, user);
      OneMoreAttempt(own, a);
      assert own + [] == own;
    }
  }

  // A login that is let through and succeeds starts the user afresh: what came
  // before it no longer matters.
  lemma {:induction false} SuccessStartsAfresh(before: seq<Attempt>, a: Attempt, after: seq<Attempt>)
    requires a.outcome == Success && !Locked(TableAfter(before), a.user, a.at)
    ensures EntryOf(TableAfter(before + [a] + after), a.user) == EntryOf(TableAfter(after), a.user)
  {
    if after == [] {
      assert before + [a] + after == before + [a];
      OneMoreAttempt(before, a);
    } else {
      var (front, last) := (after[..|after| - 1], after[|after| - 1]);
      assert before + [a] + after == (before + [a] + front) + [last] && after == front + [last];
      SuccessStartsAfresh(before, a, front);
      OneMoreAttempt(before + [a] + front, last);
      OneMoreAttempt(front, last);
      hide Attempted;
      AttemptIsLocal(TableAfter(before + [a] + front), TableAfter(front), last, a.user);
    }
  }

  // The traces run on the same table.
  lemma {:induction false} TraceTable(user: string, attempts: seq<Attempt>)
    ensures Run(user, attempts).fail == TableAfter(attempts)
  {
    if attempts != [] { TraceTable(user, attempts[..|attempts| - 1]); }
  }
}
