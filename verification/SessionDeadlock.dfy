/**
  Who waits for whom among the session transactions. They lock families in
  ascending order, but what Postgres locks is the hash of a family id, so
  colliding hashes matter: transactions can block each other for ever exactly
  when two pairs of families cross, one ascending into a lock key the other
  ascends out of. With distinct keys for distinct families that never happens.
*/
module SessionDeadlock {
  import opened Common
  import opened Sessions
  import Cycles
  import opened SessionTransactions

  /** `t` cannot go on before `u` ends: `u` has the advisory lock, or a row, that `t` is about to take. */
  predicate WaitsFor(key: FamilyId -> LockKey, s: State, t: TxId, u: TxId) {
    && t in s.txs && u in s.txs && t != u
    && (LockWait(key, s, t, u) || exists id :: id in s.txs[t].Todo() && id in s.txs[u].writes)
  }

  predicate LockWait(key: FamilyId -> LockKey, s: State, t: TxId, u: TxId)
    requires t in s.txs
  {
    s.txs[t].Queue() != [] && Holds(key, s, u, s.txs[t].Queue()[0])
  }

  /** A closed chain of transactions, each waiting for the next. */
  ghost predicate Deadlock(key: FamilyId -> LockKey, s: State, p: seq<TxId>) {
    && |p| >= 2 && p[0] == p[|p| - 1]
    && forall i :: 0 <= i < |p| - 1 ==> WaitsFor(key, s, p[i], p[i + 1])
  }

  /** Two ascending pairs of families that need the same two lock keys in opposite orders. */
  predicate Crosses(key: FamilyId -> LockKey, a: FamilyId, b: FamilyId, c: FamilyId, d: FamilyId) {
    a < b && c < d && a != d && b != c && key(a) == key(d) && key(b) == key(c) && key(a) != key(b)
  }

  ghost predicate HasCrossing(key: FamilyId -> LockKey) {
    exists a, b, c, d :: Crosses(key, a, b, c, d)
  }

  ghost predicate Reachable(key: FamilyId -> LockKey, s: State) {
    exists states, steps :: Run(key, states, steps) && states[|steps|] == s
  }

  lemma ReachableInv(key: FamilyId -> LockKey, s: State)
    requires Reachable(key, s)
    ensures Inv(key, s)
  {
    var states, steps :| Run(key, states, steps) && states[|steps|] == s;
    RunKeepsInv(key, states, steps, |steps|);
  }

  lemma ReachableStart(key: FamilyId -> LockKey)
    ensures Reachable(key, Start)
  {
    var states, steps: seq<Step> := [Start], [];
    assert Run(key, states, steps) && states[|steps|] == Start;
  }

  lemma ReachableStep(key: FamilyId -> LockKey, s: State, step: Step)
    requires Reachable(key, s) && Enabled(key, s, step)
    ensures Reachable(key, Apply(key, s, step))
  {
    var states, steps :| Run(key, states, steps) && states[|steps|] == s;
    var states', steps' := states + [Apply(key, s, step)], steps + [step];
    assert Run(key, states', steps') && states'[|steps'|] == Apply(key, s, step);
  }

  // ---- row waits never close a cycle -------------------------------------

  /** A transaction that is visiting rows waits only for others that are past their locks. */
  lemma RowWait(key: FamilyId -> LockKey, s: State, t: TxId, u: TxId)
    requires Inv(key, s) && WaitsFor(key, s, t, u) && !s.txs[t].phase.Locking?
    ensures !s.txs[u].phase.Locking? && s.txs[u].writes != map[]
    ensures exists id :: id in s.txs[t].Todo() && id in s.txs[u].writes
  {
    assert TxOk(key, s, u);
  }

  /** One that others wait for, and waits itself for a row, revokes a whole user. */
  lemma MiddleOfRowWaits(key: FamilyId -> LockKey, s: State, t: TxId, u: TxId, v: TxId)
    requires Inv(key, s) && WaitsFor(key, s, t, u) && WaitsFor(key, s, u, v)
    requires !s.txs[t].phase.Locking?
    ensures s.txs[u].job.RevokingUser?
  {
    RowWait(key, s, t, u);
    RowWait(key, s, u, v);
    assert TxOk(key, s, u) && TxOk(key, s, t);
    var a :| a in s.txs[t].Todo() && a in s.txs[u].writes;
    var b :| b in s.txs[u].Todo() && b in s.txs[v].writes;
    WrittenAndWaited(s, t, u, a, b);
  }

  /** A job on one family has one row to write, so it cannot have written one and wait for another. */
  lemma WrittenAndWaited(s: State, t: TxId, u: TxId, a: SessionId, b: SessionId)
    requires t in s.txs && u in s.txs && UpdateOk(s, t) && UpdateOk(s, u)
    requires a in s.txs[t].Todo() && a in s.txs[u].writes && b in s.txs[u].Todo()
    ensures s.txs[u].job.RevokingUser?
  {
    assert a in s.db && b in s.db;
  }

  lemma NoRowWaitBetweenUsers(key: FamilyId -> LockKey, s: State, t: TxId, u: TxId)
    requires Inv(key, s) && WaitsFor(key, s, t, u) && !s.txs[t].phase.Locking?
    ensures !(s.txs[t].job.RevokingUser? && s.txs[u].job.RevokingUser?)
  {
    RowWait(key, s, t, u);
    assert TxOk(key, s, t) && TxOk(key, s, u) && Apart(s, t, u);
    var id :| id in s.txs[t].Todo() && id in s.txs[u].writes;
    assert id in s.db;
  }

  lemma {:induction false} LockingPropagatesBack(key: FamilyId -> LockKey, s: State, p: seq<TxId>, i: nat, j: nat)
    requires Inv(key, s) && Deadlock(key, s, p) && i <= j < |p|
    requires p[i] in s.txs && !s.txs[p[i]].phase.Locking?
    ensures p[j] in s.txs && !s.txs[p[j]].phase.Locking?
    decreases j - i
  {
    if i < j {
      LockingPropagatesBack(key, s, p, i, j - 1);
      assert WaitsFor(key, s, p[j - 1], p[j]);
      RowWait(key, s, p[j - 1], p[j]);
    }
  }

  lemma AllInDeadlockAreLocking(key: FamilyId -> LockKey, s: State, p: seq<TxId>, i: nat)
    requires Inv(key, s) && Deadlock(key, s, p) && i < |p|
    ensures p[i] in s.txs && s.txs[p[i]].phase.Locking?
  {
    assert WaitsFor(key, s, p[0], p[1]);
    assert i < |p| - 1 ==> WaitsFor(key, s, p[i], p[i + 1]);
    if !s.txs[p[i]].phase.Locking? {
      var n := |p|;
      LockingPropagatesBack(key, s, p, i, n - 1);
      LockingPropagatesBack(key, s, p, 0, 1);
      LockingPropagatesBack(key, s, p, 0, n - 2);
      assert WaitsFor(key, s, p[n - 2], p[n - 1]);
      assert n >= 3;
      assert WaitsFor(key, s, p[1], p[2]);
      MiddleOfRowWaits(key, s, p[n - 2], p[0], p[1]);
      MiddleOfRowWaits(key, s, p[0], p[1], p[2]);
      NoRowWaitBetweenUsers(key, s, p[0], p[1]);
    }
  }

  // ---- lock waits close one only on a crossing ---------------------------

  /** The family `t` is about to lock. */
  function Front(s: State, t: TxId): (r: FamilyId)
    requires t in s.txs && s.txs[t].Queue() != []
  {
    s.txs[t].Queue()[0]
  }

  /** A family for which the holder of `k` took it. */
  ghost function Owner(key: FamilyId -> LockKey, s: State, k: LockKey): (f: FamilyId)
    requires k in s.locks && LockOwned(key, s, k)
    ensures f in s.txs[s.locks[k]].families && f !in s.txs[s.locks[k]].Queue() && key(f) == k
  {
    var f :| f in s.txs[s.locks[k]].families && f !in s.txs[s.locks[k]].Queue() && key(f) == k;
    f
  }

  /** `t` holds the lock of some families and is queueing for another one that somebody else holds. */
  ghost predicate Middle(key: FamilyId -> LockKey, s: State, t: TxId) {
    && t in s.txs && s.txs[t].job.RevokingUser? && s.txs[t].Queue() != []
    && key(Front(s, t)) in s.locks && s.locks[key(Front(s, t))] != t
  }

  ghost function Lo(key: FamilyId -> LockKey, s: State, t: TxId): (r: FamilyId)
    requires Middle(key, s, t) && AllOwned(key, s)
  {
    assert LockOwned(key, s, key(Front(s, t)));
    var b, a := Front(s, t), Owner(key, s, key(Front(s, t)));
    if a < b then a else b
  }

  ghost function Hi(key: FamilyId -> LockKey, s: State, t: TxId): (r: FamilyId)
    requires Middle(key, s, t) && AllOwned(key, s)
    ensures Lo(key, s, t) <= Hi(key, s, t)
  {
    assert LockOwned(key, s, key(Front(s, t)));
    var b, a := Front(s, t), Owner(key, s, key(Front(s, t)));
    if a < b then b else a
  }

  lemma Separated(key: FamilyId -> LockKey, x1: FamilyId, x2: FamilyId, y1: FamilyId, y2: FamilyId)
    requires !HasCrossing(key) && key(x1) == key(x2) && key(y1) == key(y2) && key(x1) != key(y1)
    requires x1 != x2 && y1 != y2 && x1 < y1
    ensures x1 < y2 && x2 < y1 && x2 < y2
  {
    assert !Crosses(key, x1, y1, y2, x2) && !Crosses(key, x1, y2, y1, x2);
    assert !Crosses(key, x2, y1, y2, x1) && !Crosses(key, x2, y2, y1, x1);
  }

  lemma SharedFamilySharedUser(s: State, t: TxId, u: TxId, f: FamilyId)
    requires OneUserPerFamily(s.db) && t in s.txs && u in s.txs && JobOk(s, t) && JobOk(s, u)
    requires s.txs[t].job.RevokingUser? && s.txs[u].job.RevokingUser?
    requires f in s.txs[t].families && f in s.txs[u].families
    ensures s.txs[t].job == s.txs[u].job
  {
    var x :| x in s.db && s.db[x].user == s.txs[t].job.user && s.db[x].family == f;
    var y :| y in s.db && s.db[y].user == s.txs[u].job.user && s.db[y].family == f;
  }

  lemma DistinctUsersApart(key: FamilyId -> LockKey, s: State, t: TxId, u: TxId)
    requires Inv(key, s) && t in s.txs && u in s.txs && t != u
    requires s.txs[t].job.RevokingUser? && s.txs[u].job.RevokingUser?
    ensures s.txs[t].families !! s.txs[u].families
  {
    assert TxOk(key, s, t) && TxOk(key, s, u) && Apart(s, t, u);
    forall f | f in s.txs[t].families ensures f !in s.txs[u].families {
      if f in s.txs[u].families { SharedFamilySharedUser(s, t, u, f); }
    }
  }

  lemma WaitsClimb(key: FamilyId -> LockKey, s: State, t: TxId, u: TxId, v: TxId)
    requires Inv(key, s) && !HasCrossing(key)
    requires Middle(key, s, t) && Middle(key, s, u) && v in s.txs && s.txs[v].job.RevokingUser?
    requires LockWait(key, s, t, u) && LockWait(key, s, u, v) && t != u && u != v
    ensures Hi(key, s, t) < Lo(key, s, u)
  {
    var b, b' := Front(s, t), Front(s, u);
    assert LockOwned(key, s, key(b)) && LockOwned(key, s, key(b'));
    var a, a' := Owner(key, s, key(b)), Owner(key, s, key(b'));
    assert TxOk(key, s, t) && TxOk(key, s, u);
    assert b in s.txs[t].Queue() && b' in s.txs[u].Queue();
    DistinctUsersApart(key, s, t, u);
    DistinctUsersApart(key, s, u, v);
    assert a < b' && b != a && b' != a';
    Separated(key, a, b, b', a');
  }

  /** In a deadlock every member queues for a family and holds the one its predecessor queues for. */
  lemma DeadlockMember(key: FamilyId -> LockKey, s: State, p: seq<TxId>, i: nat)
    requires Inv(key, s) && Deadlock(key, s, p) && i < |p| - 1
    ensures Middle(key, s, p[i]) && p[i] != p[i + 1] && LockWait(key, s, p[i], p[i + 1])
  {
    var t, before := p[i], if i == 0 then |p| - 2 else i - 1;
    AllInDeadlockAreLocking(key, s, p, i);
    AllInDeadlockAreLocking(key, s, p, before);
    assert WaitsFor(key, s, t, p[i + 1]) && WaitsFor(key, s, p[before], p[before + 1]);
    AllInDeadlockAreLocking(key, s, p, before + 1);
    AllInDeadlockAreLocking(key, s, p, i + 1);
    assert TxOk(key, s, t) && TxOk(key, s, p[i + 1]);
    assert p[before + 1] == t && LockWait(key, s, p[before], t);
    var k := key(Front(s, p[before]));
    assert LockOwned(key, s, k);
    assert Owner(key, s, k) != Front(s, t) && Front(s, t) in s.txs[t].Queue();
  }

  lemma {:induction false} DeadlockClimbs(key: FamilyId -> LockKey, s: State, p: seq<TxId>, i: nat, j: nat)
    requires Inv(key, s) && Deadlock(key, s, p) && !HasCrossing(key) && i <= j < |p| - 1
    ensures Middle(key, s, p[i]) && Middle(key, s, p[j]) && Lo(key, s, p[i]) <= Lo(key, s, p[j])
    decreases j - i
  {
    DeadlockMember(key, s, p, i);
    DeadlockMember(key, s, p, j);
    if i < j {
      DeadlockClimbs(key, s, p, i, j - 1);
      StepClimbs(key, s, p, j - 1);
    }
  }

  /** The step after position `i`, going round: its families all lie above. */
  lemma StepClimbs(key: FamilyId -> LockKey, s: State, p: seq<TxId>, i: nat)
    requires Inv(key, s) && Deadlock(key, s, p) && !HasCrossing(key) && i < |p| - 1
    ensures Middle(key, s, p[i]) && Middle(key, s, p[i + 1]) && Hi(key, s, p[i]) < Lo(key, s, p[i + 1])
  {
    var next := if i + 1 == |p| - 1 then 0 else i + 1;
    var last := if next + 1 == |p| - 1 then 0 else next + 1;
    DeadlockMember(key, s, p, i);
    DeadlockMember(key, s, p, next);
    DeadlockMember(key, s, p, last);
    assert p[next] == p[i + 1] && p[last] == p[next + 1];
    WaitsClimb(key, s, p[i], p[next], p[last]);
  }

  lemma NoDeadlock(key: FamilyId -> LockKey, s: State, p: seq<TxId>)
    requires Inv(key, s) && !HasCrossing(key)
    ensures !Deadlock(key, s, p)
  {
    if Deadlock(key, s, p) {
      DeadlockClimbs(key, s, p, 0, |p| - 2);
      StepClimbs(key, s, p, |p| - 2);
    }
  }

  // ---- a crossing does block --------------------------------------------

  /** User 1 opens families `a` and `b`, user 2 opens `c` and `d`. */
  lemma LoggedIn(key: FamilyId -> LockKey, a: FamilyId, b: FamilyId, c: FamilyId, d: FamilyId) returns (s: State)
    requires Crosses(key, a, b, c, d)
    ensures Reachable(key, s) && s.txs == map[] && s.locks == map[]
    ensures s.db == map[0 := Session(1, a, 0, 0, None), 1 := Session(1, b, 1, 0, None),
                        2 := Session(2, c, 2, 0, None), 3 := Session(2, d, 3, 0, None)]
  {
    ReachableStart(key);
    var l0, l1 := Login(0, Session(1, a, 0, 0, None)), Login(1, Session(1, b, 1, 0, None));
    var l2, l3 := Login(2, Session(2, c, 2, 0, None)), Login(3, Session(2, d, 3, 0, None));
    ReachableStep(key, Start, l0);
    s := Apply(key, Start, l0);
    ReachableStep(key, s, l1);
    s := Apply(key, s, l1);
    ReachableStep(key, s, l2);
    s := Apply(key, s, l2);
    ReachableStep(key, s, l3);
    s := Apply(key, s, l3);
  }

  /** Both revocations have begun, then each has taken its first lock. */
  lemma {:induction false} CrossingDeadlocks(key: FamilyId -> LockKey, a: FamilyId, b: FamilyId, c: FamilyId,
                                             d: FamilyId)
    requires Crosses(key, a, b, c, d)
    ensures exists s, p :: Reachable(key, s) && Deadlock(key, s, p)
  {
    var s := BothBegun(key, a, b, c, d);
    ReachableStep(key, s, Lock(0));
    var s' := Apply(key, s, Lock(0));
    ReachableStep(key, s', Lock(1));
    var end := Apply(key, s', Lock(1));
    assert end.txs[0].Queue() == [b] && end.txs[1].Queue() == [d];
    assert LockWait(key, end, 0, 1) && LockWait(key, end, 1, 0);
    var p := [0, 1, 0];
    assert WaitsFor(key, end, p[0], p[1]) && WaitsFor(key, end, p[1], p[2]);
    assert Deadlock(key, end, p);
  }

  lemma BothBegun(key: FamilyId -> LockKey, a: FamilyId, b: FamilyId, c: FamilyId, d: FamilyId) returns (s: State)
    requires Crosses(key, a, b, c, d)
    ensures Reachable(key, s) && s.locks == map[]
    ensures s.txs == map[0 := Tx(RevokingUser(1), {a, b}, {a, b}, Locking([a, b]), map[]),
                         1 := Tx(RevokingUser(2), {c, d}, {c, d}, Locking([c, d]), map[])]
  {
    var s0 := LoggedIn(key, a, b, c, d);
    UsersFamilies(s0, a, b, c, d);
    var first, second := BeginUserRevocation(0, 1, [a, b]), BeginUserRevocation(1, 2, [c, d]);
    ReachableStep(key, s0, first);
    var s1 := Apply(key, s0, first);
    assert s1.txs == map[0 := Tx(RevokingUser(1), {a, b}, {a, b}, Locking([a, b]), map[])];
    ReachableStep(key, s1, second);
    s := Apply(key, s1, second);
    assert (set f | f in [c, d]) == {c, d};
  }

  lemma UsersFamilies(s: State, a: FamilyId, b: FamilyId, c: FamilyId, d: FamilyId)
    requires s.db == map[0 := Session(1, a, 0, 0, None), 1 := Session(1, b, 1, 0, None),
                         2 := Session(2, c, 2, 0, None), 3 := Session(2, d, 3, 0, None)]
    ensures LiveFamiliesOf(s.db, 1) == FamiliesOf(s.db, 1) == {a, b}
    ensures LiveFamiliesOf(s.db, 2) == FamiliesOf(s.db, 2) == {c, d}
  {
    assert s.db[0].family == a && s.db[1].family == b && s.db[2].family == c && s.db[3].family == d;
  }

  /** The lock keys decide: some run ends in a deadlock if and only if two pairs of families cross. */
  lemma DeadlockExactlyOnCrossing(key: FamilyId -> LockKey)
    ensures (exists s, p :: Reachable(key, s) && Deadlock(key, s, p)) <==> HasCrossing(key)
  {
    if HasCrossing(key) {
      var a, b, c, d :| Crosses(key, a, b, c, d);
      CrossingDeadlocks(key, a, b, c, d);
    }
    forall s, p | Reachable(key, s) && Deadlock(key, s, p) ensures HasCrossing(key) {
      ReachableInv(key, s);
      if !HasCrossing(key) { NoDeadlock(key, s, p); }
    }
  }

  lemma DistinctKeysNeverDeadlock(key: FamilyId -> LockKey, s: State, p: seq<TxId>)
    requires forall f, g :: f != g ==> key(f) != key(g)
    requires Reachable(key, s)
    ensures !Deadlock(key, s, p)
  {
    ReachableInv(key, s);
    assert !HasCrossing(key);
    NoDeadlock(key, s, p);
  }

  // ---- progress -----------------------------------------------------------

  /** The next step of the transaction's own code can be taken now. */
  ghost predicate CanMove(key: FamilyId -> LockKey, s: State, t: TxId) {
    || Enabled(key, s, Lock(t)) || Enabled(key, s, Snapshot(t, 0)) || (exists id :: Enabled(key, s, Visit(t, id)))
    || Enabled(key, s, Finish(t)) || Enabled(key, s, Commit(t))
  }

  lemma MovesOrWaits(key: FamilyId -> LockKey, s: State, t: TxId)
    requires Inv(key, s) && t in s.txs
    ensures CanMove(key, s, t) || exists u :: u in s.txs && WaitsFor(key, s, t, u)
  {
    assert TxOk(key, s, t);
    match s.txs[t].phase
    case Locking(q) =>
      if q == [] {
        assert Enabled(key, s, Snapshot(t, 0));
      } else if key(q[0]) in s.locks && s.locks[key(q[0])] != t {
        var u := s.locks[key(q[0])];
        assert LockOwned(key, s, key(q[0]));
        assert WaitsFor(key, s, t, u);
      } else {
        assert Enabled(key, s, Lock(t));
      }
    case Updating(todo, _) =>
      if id :| id in todo {
        if u :| u in s.txs && u != t && id in s.txs[u].writes {
          assert WaitsFor(key, s, t, u);
        } else {
          assert Enabled(key, s, Visit(t, id));
        }
      } else {
        assert Enabled(key, s, Finish(t));
      }
    case Written(_) =>
      assert Enabled(key, s, Commit(t));
  }

  /** Without a crossing, as long as transactions are open at least one of them can go on. */
  lemma SomebodyCanMove(key: FamilyId -> LockKey, s: State)
    requires Reachable(key, s) && !HasCrossing(key) && s.txs != map[]
    ensures exists t :: t in s.txs && CanMove(key, s, t)
  {
    ReachableInv(key, s);
    var edge := (t: TxId, u: TxId) => WaitsFor(key, s, t, u);
    var nodes := s.txs.Keys;
    assert exists t :: t in nodes && !Cycles.HasSuccessor(edge, nodes, t) by {
      if forall t :: t in nodes ==> Cycles.HasSuccessor(edge, nodes, t) {
        var p := EndlessWaiting(key, s, edge);
        NoDeadlock(key, s, p);
      }
    }
    var t :| t in nodes && !Cycles.HasSuccessor(edge, nodes, t);
    forall u | u in s.txs ensures !WaitsFor(key, s, t, u) {
      assert edge(t, u) == WaitsFor(key, s, t, u);
    }
    MovesOrWaits(key, s, t);
  }

  lemma EndlessWaiting(key: FamilyId -> LockKey, s: State, edge: (TxId, TxId) -> bool)
    returns (p: seq<TxId>)
    requires s.txs != map[]
    requires forall t, u {:trigger edge(t, u)} :: edge(t, u) == WaitsFor(key, s, t, u)
    requires forall t {:trigger Cycles.HasSuccessor(edge, s.txs.Keys, t)} :: t in s.txs.Keys ==>
        Cycles.HasSuccessor(edge, s.txs.Keys, t)
    ensures Deadlock(key, s, p)
  {
    var start :| start in s.txs.Keys;
    p := Cycles.EndlessWalkReturns(edge, s.txs.Keys, start);
    forall i | 0 <= i < |p| - 1 ensures WaitsFor(key, s, p[i], p[i + 1]) {
      assert edge(p[i], p[i + 1]);
    }
  }
}
