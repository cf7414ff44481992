/**
  The session repository over Postgres, as interleaved small steps. Rotations,
  family revocations and user-wide revocations are transactions at READ
  COMMITTED: they take transaction-scoped advisory locks (one per family, the
  lock key being a hash of the family id), then run one UPDATE whose snapshot
  holds the rows that matched when the statement began, visiting them one by one
  (a row written by another open transaction has to be waited for, and its WHERE
  is evaluated again on the committed version), and publish their writes at
  COMMIT. Nothing a transaction writes is visible before that.
*/
module SessionTransactions {
  import opened Common
  import opened Sessions

  type TxId = nat
  type LockKey = int

  datatype Job =
    | Rotating(parent: SessionId, childId: SessionId, child: Session)
    | RevokingFamily(family: FamilyId)
    | RevokingUser(user: UserId)

  datatype Phase =
    | Locking(queue: seq<FamilyId>)                // families still to be locked, in this order
    | Updating(todo: set<SessionId>, at: Time)     // rows of the UPDATE's snapshot still to visit
    | Written(at: Time)                            // every statement ran; COMMIT is next

  /**
    `families` are the ones locked; `covered` are the ones that existed when the
    transaction read its targets, whose live sessions a revocation must end.
  */
  datatype Tx = Tx(job: Job, families: set<FamilyId>, covered: set<FamilyId>, phase: Phase, writes: Table)
  {
    predicate Won() { job.Rotating? && job.parent in writes }

    function Todo(): (r: set<SessionId>) { if phase.Updating? then phase.todo else {} }

    function Queue(): (r: seq<FamilyId>) { if phase.Locking? then phase.queue else [] }
  }

  datatype Rotated = Rotated(parent: SessionId, child: SessionId, family: FamilyId)

  /** `rotations` is history: the committed rotations, oldest first. */
  datatype State = State(
    db: Table, txs: map<TxId, Tx>, locks: map<LockKey, TxId>, rotations: seq<Rotated>)

  const Start := State(map[], map[], map[], [])

  datatype Step =
    | Login(id: SessionId, session: Session)
    | BeginRotation(t: TxId, parent: SessionId, childId: SessionId, child: Session)
    | BeginFamilyRevocation(t: TxId, family: FamilyId)
    | BeginUserRevocation(t: TxId, user: UserId, order: seq<FamilyId>)
    | Lock(t: TxId)
    | Snapshot(t: TxId, at: Time)
    | Visit(t: TxId, id: SessionId)
    | Finish(t: TxId)
    | Commit(t: TxId)
    | Abort(t: TxId)

  /** The UPDATE's WHERE clause, apart from `revokedAt IS NULL`. */
  predicate Matches(job: Job, t: Table, id: SessionId)
    requires id in t
  {
    match job
    case Rotating(parent, _, _) => id == parent
    case RevokingFamily(family) => t[id].family == family
    case RevokingUser(user) => t[id].user == user
  }

  function Targets(job: Job, t: Table): (r: set<SessionId>) {
    set id | id in t && t[id].Live() && Matches(job, t, id)
  }

  function FamiliesOf(t: Table, user: UserId): (r: set<FamilyId>) {
    set id | id in t && t[id].user == user :: t[id].family
  }

  function LiveFamiliesOf(t: Table, user: UserId): (r: set<FamilyId>) {
    set id | id in t && t[id].user == user && t[id].Live() :: t[id].family
  }

  predicate Ascending(q: seq<FamilyId>) {
    forall i, j :: 0 <= i < j < |q| ==> q[i] < q[j]
  }

  /** Ids are fresh random values: no row has them and no open transaction will insert them. */
  predicate FreshId(s: State, id: SessionId) {
    id !in s.db && forall t :: t in s.txs && s.txs[t].job.Rotating? ==> s.txs[t].job.childId != id
  }

  predicate RowLockedByOther(s: State, t: TxId, id: SessionId) {
    exists u :: u in s.txs && u != t && id in s.txs[u].writes
  }

  predicate Enabled(key: FamilyId -> LockKey, s: State, step: Step) {
    match step
    case Login(id, session) =>
      FreshId(s, id) && IsLogin(s.db, id, session)
    case BeginRotation(t, parent, childId, child) =>
      t !in s.txs && FreshId(s, childId) && IsChildOf(s.db, parent, childId, child)
    case BeginFamilyRevocation(t, family) =>
      t !in s.txs && Exists(s.db, family)
    case BeginUserRevocation(t, user, order) =>
      // the reset that runs it has updated the user's row, so it is alone for that user
      && t !in s.txs
      && (forall u :: u in s.txs ==> s.txs[u].job != RevokingUser(user))
      && Ascending(order) && (set f | f in order) == LiveFamiliesOf(s.db, user)
    case Lock(t) =>
      && t in s.txs && s.txs[t].Queue() != []
      && (var k := key(s.txs[t].Queue()[0]); k !in s.locks || s.locks[k] == t)
    case Snapshot(t, _) =>
      t in s.txs && s.txs[t].phase == Locking([])
    case Visit(t, id) =>
      t in s.txs && id in s.txs[t].Todo() && id in s.db && !RowLockedByOther(s, t, id)
    case Finish(t) =>
      t in s.txs && s.txs[t].phase.Updating? && s.txs[t].phase.todo == {}
    case Commit(t) =>
      t in s.txs && s.txs[t].phase.Written?
    case Abort(t) =>
      t in s.txs
  }

  /** The transaction ends: its advisory locks and row locks are released. */
  function Closed(s: State, t: TxId): (r: State) {
    s.(txs := s.txs - {t}, locks := map k | k in s.locks && s.locks[k] != t :: s.locks[k])
  }

  function Apply(key: FamilyId -> LockKey, s: State, step: Step): (r: State)
    requires Enabled(key, s, step)
  {
    match step
    case Login(id, session) =>
      s.(db := s.db[id := session])
    case BeginRotation(t, parent, childId, child) =>
      var f := s.db[parent].family;
      s.(txs := s.txs[t := Tx(Rotating(parent, childId, child), {f}, {f}, Locking([f]), map[])])
    case BeginFamilyRevocation(t, family) =>
      s.(txs := s.txs[t := Tx(RevokingFamily(family), {family}, {family}, Locking([family]), map[])])
    case BeginUserRevocation(t, user, order) =>
      s.(txs := s.txs[t := Tx(RevokingUser(user), (set f | f in order), FamiliesOf(s.db, user), Locking(order), map[])])
    case Lock(t) =>
      var q := s.txs[t].Queue();
      s.(txs := s.txs[t := s.txs[t].(phase := Locking(q[1..]))], locks := s.locks[key(q[0]) := t])
    case Snapshot(t, at) =>
      s.(txs := s.txs[t := s.txs[t].(phase := Updating(Targets(s.txs[t].job, s.db), at))])
    case Visit(t, id) =>
      var tx := s.txs[t];
      var rest := tx.(phase := Updating(tx.phase.todo - {id}, tx.phase.at));
      if s.db[id].Live()
      then s.(txs := s.txs[t := rest.(writes := tx.writes[id := s.db[id].RevokedAt(tx.phase.at)])])
      else s.(txs := s.txs[t := rest])
    case Finish(t) =>
      var tx := s.txs[t];
      var writes := if tx.Won() then tx.writes[tx.job.childId := tx.job.child] else tx.writes;
      s.(txs := s.txs[t := tx.(phase := Written(tx.phase.at), writes := writes)])
    case Commit(t) =>
      var tx := s.txs[t];
      var log := if tx.Won() then [Rotated(tx.job.parent, tx.job.childId, tx.job.child.family)] else [];
      Closed(s, t).(db := s.db + tx.writes, rotations := s.rotations + log)
    case Abort(t) =>
      Closed(s, t)
  }

  // ---- the invariant -----------------------------------------------------

  predicate Holds(key: FamilyId -> LockKey, s: State, t: TxId, family: FamilyId) {
    key(family) in s.locks && s.locks[key(family)] == t
  }

  ghost predicate JobOk(s: State, t: TxId)
    requires t in s.txs
  {
    var tx := s.txs[t];
    match tx.job
    case Rotating(parent, childId, child) =>
      IsChildOf(s.db, parent, childId, child) && tx.families == tx.covered == {child.family}
    case RevokingFamily(family) =>
      Exists(s.db, family) && tx.families == tx.covered == {family}
    case RevokingUser(user) =>
      && tx.families <= tx.covered
      && (forall f :: f in tx.covered ==> f in FamiliesOf(s.db, user))
      && (forall f :: f in tx.covered - tx.families ==> Dead(s.db, f))
  }

  /** Locked families hold their lock, and come before the ones still queued. */
  ghost predicate LocksOk(key: FamilyId -> LockKey, s: State, t: TxId)
    requires t in s.txs
  {
    var tx := s.txs[t];
    && Ascending(tx.Queue())
    && (forall f :: f in tx.Queue() ==> f in tx.families)
    && (forall f :: f in tx.families && f !in tx.Queue() ==>
                      Holds(key, s, t, f) && forall g :: g in tx.Queue() ==> f < g)
  }

  /** A written row is the revocation of a row that is still live to everybody else, or a won rotation's child. */
  ghost predicate WritesOk(s: State, t: TxId)
    requires t in s.txs
  {
    var tx := s.txs[t];
    && (tx.phase.Locking? ==> tx.writes == map[])
    && forall id :: id in tx.writes ==>
        if id in s.db then
          s.db[id].Live() && Matches(tx.job, s.db, id) && tx.writes[id] == s.db[id].RevokedAt(tx.phase.at)
        else
          tx.job.Rotating? && tx.phase.Written? && tx.Won() && id == tx.job.childId && tx.writes[id] == tx.job.child
  }

  /** No live row of a covered family escapes the UPDATE, and jobs on one family touch one row. */
  ghost predicate UpdateOk(s: State, t: TxId)
    requires t in s.txs
  {
    var tx := s.txs[t];
    && (forall id :: id in tx.Todo() ==> id in s.db && Matches(tx.job, s.db, id))
    && (!tx.phase.Locking? ==>
          forall id :: id in s.db && s.db[id].Live() && Matches(tx.job, s.db, id) && s.db[id].family in tx.covered
                       ==> id in tx.Todo() || id in tx.writes)
    && (!tx.job.RevokingUser? ==>
          var touched := tx.Todo() + tx.writes.Keys;
          forall a, b :: a in s.db && b in s.db && a in touched && b in touched ==> a == b)
    && tx.Todo() !! tx.writes.Keys
    && (tx.phase.Written? && tx.Won() ==> tx.job.childId in tx.writes)
  }

  ghost predicate TxOk(key: FamilyId -> LockKey, s: State, t: TxId)
    requires t in s.txs
  {
    JobOk(s, t) && LocksOk(key, s, t) && WritesOk(s, t) && UpdateOk(s, t)
  }

  ghost predicate Apart(s: State, t: TxId, u: TxId)
    requires t in s.txs && u in s.txs
  {
    && s.txs[t].writes.Keys !! s.txs[u].writes.Keys
    && (s.txs[t].job.Rotating? && s.txs[u].job.Rotating? ==> s.txs[t].job.childId != s.txs[u].job.childId)
    && (s.txs[t].job.RevokingUser? ==> s.txs[t].job != s.txs[u].job)
  }

  function Rows(t: Table, family: FamilyId): (r: set<SessionId>) {
    set id | id in t && t[id].family == family
  }

  function CountRotations(log: seq<Rotated>, family: FamilyId): (r: nat) {
    if log == [] then 0
    else CountRotations(log[..|log| - 1], family) + (if log[|log| - 1].family == family then 1 else 0)
  }

  /** The committed table against the history of committed rotations. */
  ghost predicate TableOk(t: Table, log: seq<Rotated>) {
    && OneLivePerFamily(t) && OneUserPerFamily(t)
    && (forall i :: 0 <= i < |log| ==> log[i].parent in t && !t[log[i].parent].Live())
    && (forall i, j :: 0 <= i < j < |log| ==> log[i].parent != log[j].parent)
    && (forall f :: if Exists(t, f) then |Rows(t, f)| == 1 + CountRotations(log, f) else CountRotations(log, f) == 0)
  }

  ghost predicate AllTxOk(key: FamilyId -> LockKey, s: State) {
    forall t {:trigger TxOk(key, s, t)} :: t in s.txs ==> TxOk(key, s, t)
  }

  ghost predicate AllApart(s: State) {
    forall t, u {:trigger Apart(s, t, u)} :: t in s.txs && u in s.txs && t != u ==> Apart(s, t, u)
  }

  /** Every advisory lock is there for some family its holder has already reached. */
  ghost predicate LockOwned(key: FamilyId -> LockKey, s: State, k: LockKey)
    requires k in s.locks
  {
    var t := s.locks[k];
    t in s.txs && exists f :: f in s.txs[t].families && f !in s.txs[t].Queue() && key(f) == k
  }

  ghost predicate AllOwned(key: FamilyId -> LockKey, s: State) {
    forall k {:trigger LockOwned(key, s, k)} :: k in s.locks ==> LockOwned(key, s, k)
  }

  ghost predicate Inv(key: FamilyId -> LockKey, s: State) {
    TableOk(s.db, s.rotations) && AllTxOk(key, s) && AllApart(s) && AllOwned(key, s)
  }

  // ---- every step keeps it -----------------------------------------------

  /**
    What a step of somebody else may do to the table and the locks while the
    transaction stays open.
  */
  ghost predicate Undisturbed(key: FamilyId -> LockKey, s: State, s': State, t: TxId)
    requires t in s.txs
  {
    var tx := s.txs[t];
    && t in s'.txs && s'.txs[t] == tx
    && Later(s.db, s'.db)
    && (forall f :: f in tx.families && Holds(key, s, t, f) ==> Holds(key, s', t, f))
    && (forall id :: id in tx.writes ==> (id in s.db <==> id in s'.db) && (id in s.db ==> s'.db[id] == s.db[id]))
    && (tx.job.Rotating? ==> tx.job.childId !in s'.db)
    && (forall id :: id in s'.db && id !in s.db && s'.db[id].family in tx.covered ==> tx.phase.Locking?)
  }

  lemma OtherJobKept(key: FamilyId -> LockKey, s: State, s': State, t: TxId)
    requires t in s.txs && JobOk(s, t) && Undisturbed(key, s, s', t)
    ensures JobOk(s', t)
  {
    match s.txs[t].job
    case Rotating(parent, childId, child) =>
    case RevokingFamily(family) =>
      var id :| id in s.db && s.db[id].family == family;
      assert id in s'.db && s'.db[id].family == family;
    case RevokingUser(user) =>
      forall f | f in s.txs[t].covered ensures f in FamiliesOf(s'.db, user) {
        var id :| id in s.db && s.db[id].user == user && s.db[id].family == f;
        assert id in s'.db && s'.db[id].user == user && s'.db[id].family == f;
      }
  }

  lemma OtherUpdateKept(key: FamilyId -> LockKey, s: State, s': State, t: TxId)
    requires t in s.txs && UpdateOk(s, t) && Undisturbed(key, s, s', t)
    ensures UpdateOk(s', t)
  {
    var tx := s.txs[t];
    forall id | id in tx.Todo() ensures id in s'.db && Matches(tx.job, s'.db, id) {
      assert id in s.db && Matches(tx.job, s.db, id);
    }
    if !tx.phase.Locking? {
      forall id | id in s'.db && s'.db[id].Live() && Matches(tx.job, s'.db, id) && s'.db[id].family in tx.covered
        ensures id in tx.Todo() || id in tx.writes
      {
        assert id in s.db && s'.db[id] == s.db[id] && Matches(tx.job, s.db, id);
      }
    }
  }

  lemma OtherTxKept(key: FamilyId -> LockKey, s: State, s': State, t: TxId)
    requires t in s.txs && TxOk(key, s, t) && Undisturbed(key, s, s', t)
    ensures TxOk(key, s', t)
  {
    OtherJobKept(key, s, s', t);
    OtherUpdateKept(key, s, s', t);
    assert WritesOk(s', t) by {
      var tx := s.txs[t];
      forall id | id in tx.writes && id in s'.db
        ensures s'.db[id].Live() && Matches(tx.job, s'.db, id) && tx.writes[id] == s'.db[id].RevokedAt(tx.phase.at)
      {
        assert id in s.db && s'.db[id] == s.db[id];
      }
    }
  }

  lemma LoginKeepsTable(t: Table, log: seq<Rotated>, id: SessionId, session: Session)
    requires TableOk(t, log) && IsLogin(t, id, session)
    ensures TableOk(t[id := session], log)
  {
    var t' := t[id := session];
    forall f ensures if Exists(t', f) then |Rows(t', f)| == 1 + CountRotations(log, f)
                     else CountRotations(log, f) == 0
    {
      if f == session.family {
        assert Rows(t', f) == {id};
        assert t'[id].family == f;
      } else {
        assert Rows(t', f) == Rows(t, f);
        if Exists(t, f) {
          var x :| x in t && t[x].family == f;
          assert x in t' && t'[x].family == f;
        }
      }
    }
  }

  lemma LoginKeepsInv(key: FamilyId -> LockKey, s: State, id: SessionId, session: Session)
    requires Inv(key, s) && FreshId(s, id) && IsLogin(s.db, id, session)
    ensures Inv(key, s.(db := s.db[id := session]))
  {
    var s' := s.(db := s.db[id := session]);
    LoginIsLater(s.db, id, session);
    LoginKeepsTable(s.db, s.rotations, id, session);
    forall t | t in s'.txs ensures TxOk(key, s', t) {
      assert TxOk(key, s, t);
      assert session.family !in s.txs[t].covered by { CoveredExist(s, t); }
      OtherTxKept(key, s, s', t);
    }
    assert AllApart(s') by {
      forall t, u | t in s'.txs && u in s'.txs && t != u ensures Apart(s', t, u) {
        assert Apart(s, t, u);
      }
    }
    assert AllOwned(key, s') by {
      forall k | k in s'.locks ensures LockOwned(key, s', k) {
        assert LockOwned(key, s, k);
      }
    }
  }

  lemma CoveredExist(s: State, t: TxId)
    requires t in s.txs && JobOk(s, t)
    ensures forall f :: f in s.txs[t].covered ==> Exists(s.db, f)
  {
    forall f | f in s.txs[t].covered ensures Exists(s.db, f) {
      if s.txs[t].job.RevokingUser? {
        assert f in FamiliesOf(s.db, s.txs[t].job.user);
      }
    }
  }

  /** A step that only changes one transaction, and perhaps gives it a free lock. */
  ghost predicate OnlyChanges(s: State, s': State, t: TxId) {
    && s'.db == s.db && s'.rotations == s.rotations
    && t in s'.txs && s'.txs.Keys == s.txs.Keys + {t}
    && (forall u :: u in s.txs && u != t ==> s'.txs[u] == s.txs[u])
    && (forall k :: k in s.locks ==> k in s'.locks && s'.locks[k] == s.locks[k])
    && (forall k :: k in s'.locks && k !in s.locks ==> s'.locks[k] == t)
  }

  lemma OwnStepTxs(key: FamilyId -> LockKey, s: State, s': State, t: TxId)
    requires AllTxOk(key, s) && OnlyChanges(s, s', t) && TxOk(key, s', t)
    ensures AllTxOk(key, s')
  {
    forall u | u in s'.txs ensures TxOk(key, s', u) {
      if u != t {
        assert TxOk(key, s, u);
        OtherStill(key, s, s', t, u);
        OtherTxKept(key, s, s', u);
      }
    }
  }

  lemma OtherStill(key: FamilyId -> LockKey, s: State, s': State, t: TxId, u: TxId)
    requires OnlyChanges(s, s', t) && u in s.txs && u != t && JobOk(s, u)
    ensures Undisturbed(key, s, s', u)
  {
    forall f | f in s.txs[u].families && Holds(key, s, u, f) ensures Holds(key, s', u, f) {
      var k := key(f);
      assert k in s.locks;
    }
  }

  lemma OwnStepApart(s: State, s': State, t: TxId)
    requires AllApart(s) && OnlyChanges(s, s', t)
    requires forall u :: u in s.txs && u != t ==> Apart(s', t, u) && Apart(s', u, t)
    ensures AllApart(s')
  {
    forall u, v | u in s'.txs && v in s'.txs && u != v ensures Apart(s', u, v) {
      if u != t && v != t {
        assert Apart(s, u, v);
      }
    }
  }

  /** Its families off the queue only grow, and a lock it gains is for one of them. */
  lemma OwnStepLocks(key: FamilyId -> LockKey, s: State, s': State, t: TxId)
    requires AllOwned(key, s) && OnlyChanges(s, s', t)
    requires t in s.txs ==> s'.txs[t].families == s.txs[t].families
    requires t in s.txs ==> forall f :: f in s'.txs[t].Queue() ==> f in s.txs[t].Queue()
    requires forall k :: k in s'.locks && k !in s.locks ==> LockOwned(key, s', k)
    ensures AllOwned(key, s')
  {
    forall k | k in s'.locks ensures LockOwned(key, s', k) {
      if k in s.locks {
        assert LockOwned(key, s, k);
        var f :| f in s.txs[s.locks[k]].families && f !in s.txs[s.locks[k]].Queue() && key(f) == k;
        assert f in s'.txs[s'.locks[k]].families && f !in s'.txs[s'.locks[k]].Queue();
      }
    }
  }

  lemma BeginKeepsInv(key: FamilyId -> LockKey, s: State, step: Step)
    requires Inv(key, s) && Enabled(key, s, step)
    requires step.BeginRotation? || step.BeginFamilyRevocation? || step.BeginUserRevocation?
    ensures Inv(key, Apply(key, s, step))
  {
    var s' := Apply(key, s, step);
    BegunTxOk(key, s, step);
    OwnStepTxs(key, s, s', step.t);
    OwnStepApart(s, s', step.t);
    OwnStepLocks(key, s, s', step.t);
  }

  lemma BegunTxOk(key: FamilyId -> LockKey, s: State, step: Step)
    requires OneUserPerFamily(s.db) && Enabled(key, s, step)
    requires step.BeginRotation? || step.BeginFamilyRevocation? || step.BeginUserRevocation?
    ensures TxOk(key, Apply(key, s, step), step.t)
  {
    if step.BeginUserRevocation? { UnlistedFamiliesAreDead(s.db, step.user); }
  }

  lemma UnlistedFamiliesAreDead(t: Table, user: UserId)
    requires OneUserPerFamily(t)
    ensures LiveFamiliesOf(t, user) <= FamiliesOf(t, user)
    ensures forall f :: f in FamiliesOf(t, user) - LiveFamiliesOf(t, user) ==> Dead(t, f)
  {
    forall f | f in LiveFamiliesOf(t, user) ensures f in FamiliesOf(t, user) {
      var id :| id in t && t[id].user == user && t[id].Live() && t[id].family == f;
    }
    forall f | f in FamiliesOf(t, user) - LiveFamiliesOf(t, user) ensures Dead(t, f) {
      var id :| id in t && t[id].user == user && t[id].family == f;
    }
  }

  lemma LockKeepsInv(key: FamilyId -> LockKey, s: State, t: TxId)
    requires Inv(key, s) && Enabled(key, s, Lock(t))
    ensures Inv(key, Apply(key, s, Lock(t)))
  {
    var s' := Apply(key, s, Lock(t));
    assert TxOk(key, s, t);
    LockedTxOk(key, s, t);
    OwnStepTxs(key, s, s', t);
    assert forall u :: u in s.txs && u != t ==> Apart(s, t, u) && Apart(s, u, t);
    OwnStepApart(s, s', t);
    OwnStepLocks(key, s, s', t);
  }

  lemma LockedTxOk(key: FamilyId -> LockKey, s: State, t: TxId)
    requires Enabled(key, s, Lock(t)) && TxOk(key, s, t)
    ensures TxOk(key, Apply(key, s, Lock(t)), t)
    ensures LockOwned(key, Apply(key, s, Lock(t)), key(s.txs[t].Queue()[0]))
    ensures forall f :: f in Apply(key, s, Lock(t)).txs[t].Queue() ==> f in s.txs[t].Queue()
  {
    var s' := Apply(key, s, Lock(t));
    var q := s.txs[t].Queue();
    assert q == [q[0]] + q[1..];
    assert q[0] in q;
    assert s'.txs[t].Queue() == q[1..];
    assert q[0] in s'.txs[t].families && q[0] !in s'.txs[t].Queue();
  }

  lemma SnapshotKeepsInv(key: FamilyId -> LockKey, s: State, t: TxId, at: Time)
    requires Inv(key, s) && Enabled(key, s, Snapshot(t, at))
    ensures Inv(key, Apply(key, s, Snapshot(t, at)))
  {
    var s' := Apply(key, s, Snapshot(t, at));
    assert TxOk(key, s, t);
    OwnStepTxs(key, s, s', t);
    assert forall u :: u in s.txs && u != t ==> Apart(s, t, u) && Apart(s, u, t);
    OwnStepApart(s, s', t);
    OwnStepLocks(key, s, s', t);
  }

  lemma VisitKeepsTx(key: FamilyId -> LockKey, s: State, t: TxId, id: SessionId)
    requires Enabled(key, s, Visit(t, id)) && TxOk(key, s, t)
    ensures TxOk(key, Apply(key, s, Visit(t, id)), t)
  {
    VisitKeepsUpdate(key, s, t, id);
  }

  lemma VisitKeepsUpdate(key: FamilyId -> LockKey, s: State, t: TxId, id: SessionId)
    requires Enabled(key, s, Visit(t, id)) && UpdateOk(s, t)
    ensures UpdateOk(Apply(key, s, Visit(t, id)), t)
  {
    var tx, tx' := s.txs[t], Apply(key, s, Visit(t, id)).txs[t];
    assert tx'.Todo() == tx.Todo() - {id};
    assert tx'.Todo() + tx'.writes.Keys <= tx.Todo() + tx.writes.Keys;
  }

  lemma VisitKeepsInv(key: FamilyId -> LockKey, s: State, t: TxId, id: SessionId)
    requires Inv(key, s) && Enabled(key, s, Visit(t, id))
    ensures Inv(key, Apply(key, s, Visit(t, id)))
  {
    var s' := Apply(key, s, Visit(t, id));
    VisitKeepsTx(key, s, t, id);
    OwnStepTxs(key, s, s', t);
    forall u | u in s.txs && u != t ensures Apart(s', t, u) && Apart(s', u, t) {
      assert Apart(s, t, u) && Apart(s, u, t);
      assert id !in s.txs[u].writes;
    }
    OwnStepApart(s, s', t);
    OwnStepLocks(key, s, s', t);
  }

  lemma FinishKeepsTx(key: FamilyId -> LockKey, s: State, t: TxId)
    requires Enabled(key, s, Finish(t)) && TxOk(key, s, t)
    ensures TxOk(key, Apply(key, s, Finish(t)), t)
  {
    var s' := Apply(key, s, Finish(t));
    assert JobOk(s', t) && LocksOk(key, s', t);
    assert WritesOk(s', t);
  }

  lemma FinishKeepsInv(key: FamilyId -> LockKey, s: State, t: TxId)
    requires Inv(key, s) && Enabled(key, s, Finish(t))
    ensures Inv(key, Apply(key, s, Finish(t)))
  {
    var s' := Apply(key, s, Finish(t));
    FinishKeepsTx(key, s, t);
    OwnStepTxs(key, s, s', t);
    forall u | u in s.txs && u != t ensures Apart(s', t, u) && Apart(s', u, t) {
      assert Apart(s, t, u) && Apart(s, u, t);
      assert TxOk(key, s, t) && TxOk(key, s, u);
      if s.txs[t].job.Rotating? { ChildIsNew(s, t, u); }
    }
    OwnStepApart(s, s', t);
    OwnStepLocks(key, s, s', t);
  }

  lemma ChildIsNew(s: State, t: TxId, u: TxId)
    requires t in s.txs && u in s.txs && t != u && s.txs[t].job.Rotating?
    requires JobOk(s, t) && WritesOk(s, u) && Apart(s, t, u)
    ensures s.txs[t].job.childId !in s.txs[u].writes
  {
  }

  // ---- the end of a transaction ------------------------------------------

  lemma ClosedKeepsRest(key: FamilyId -> LockKey, s: State, t: TxId)
    requires AllApart(s) && AllOwned(key, s) && t in s.txs
    ensures AllApart(Closed(s, t)) && AllOwned(key, Closed(s, t))
  {
    var s' := Closed(s, t);
    forall u, v | u in s'.txs && v in s'.txs && u != v ensures Apart(s', u, v) {
      assert Apart(s, u, v);
    }
    forall k | k in s'.locks ensures LockOwned(key, s', k) {
      assert LockOwned(key, s, k);
    }
  }

  lemma AbortKeepsInv(key: FamilyId -> LockKey, s: State, t: TxId)
    requires Inv(key, s) && t in s.txs
    ensures Inv(key, Closed(s, t))
  {
    var s' := Closed(s, t);
    ClosedKeepsRest(key, s, t);
    forall u | u in s'.txs ensures TxOk(key, s', u) {
      assert TxOk(key, s, u);
      OtherTxKept(key, s, s', u);
    }
  }

  lemma CommitIsLater(key: FamilyId -> LockKey, s: State, t: TxId)
    requires t in s.txs && JobOk(s, t) && WritesOk(s, t)
    ensures Later(s.db, s.db + s.txs[t].writes)
  {
    var db' := s.db + s.txs[t].writes;
    forall f | Dead(s.db, f) ensures Dead(db', f) {
      var x :| x in s.db && s.db[x].family == f;
      assert x in db' && db'[x].family == f;
    }
  }

  /** Two transactions cannot both have passed the lock of one family. */
  lemma OneInside(key: FamilyId -> LockKey, s: State, t: TxId, u: TxId, f: FamilyId)
    requires t in s.txs && u in s.txs && LocksOk(key, s, t) && LocksOk(key, s, u)
    requires f in s.txs[t].families && f in s.txs[u].families
    requires !s.txs[t].phase.Locking? && !s.txs[u].phase.Locking?
    ensures t == u
  {
    assert Holds(key, s, t, f) && Holds(key, s, u, f);
  }

  lemma ParentStillLive(s: State, t: TxId)
    requires t in s.txs && JobOk(s, t) && WritesOk(s, t) && s.txs[t].Won()
    ensures !Dead(s.db, s.txs[t].job.child.family)
  {
    assert s.db[s.txs[t].job.parent].Live();
  }

  lemma CommitUndisturbed(key: FamilyId -> LockKey, s: State, t: TxId, u: TxId)
    requires t in s.txs && u in s.txs && t != u && s.txs[t].phase.Written?
    requires TxOk(key, s, t) && TxOk(key, s, u) && Apart(s, t, u) && Apart(s, u, t)
    ensures Undisturbed(key, s, Apply(key, s, Commit(t)), u)
  {
    var s' := Apply(key, s, Commit(t));
    var tx := s.txs[u];
    CommitIsLater(key, s, t);
    forall id | id in s'.db && id !in s.db && s'.db[id].family in tx.covered ensures tx.phase.Locking? {
      var f := s'.db[id].family;
      assert s.txs[t].job.Rotating? && f in s.txs[t].families;
      if !tx.phase.Locking? {
        ParentStillLive(s, t);
        OneInside(key, s, t, u, f);
      }
    }
  }

  /** At COMMIT the written rows are exactly the live targets, and a won rotation's child. */
  lemma WritesAtCommit(key: FamilyId -> LockKey, s: State, t: TxId)
    requires t in s.txs && TxOk(key, s, t) && s.txs[t].phase.Written?
    ensures forall id :: id in s.txs[t].writes && id in s.db ==> id in Targets(s.txs[t].job, s.db)
    ensures forall id :: id in Targets(s.txs[t].job, s.db) && s.db[id].family in s.txs[t].covered ==>
        id in s.txs[t].writes
  {
  }

  lemma RotationKeepsTable(t: Table, log: seq<Rotated>, parent: SessionId, childId: SessionId, child: Session, at: Time)
    requires TableOk(t, log) && IsChildOf(t, parent, childId, child) && t[parent].Live()
    ensures TableOk(Rotate(t, parent, childId, child, at).1, log + [Rotated(parent, childId, child.family)])
  {
    var t' := Rotate(t, parent, childId, child, at).1;
    var log' := log + [Rotated(parent, childId, child.family)];
    RotateIsLater(t, parent, childId, child, at);
    assert log'[..|log'| - 1] == log;
    forall f
      ensures if Exists(t', f) then |Rows(t', f)| == 1 + CountRotations(log', f) else CountRotations(log', f) == 0
    {
      RotationAddsOneRow(t, parent, childId, child, at, f);
    }
  }

  lemma RotationAddsOneRow(t: Table, parent: SessionId, childId: SessionId, child: Session, at: Time, f: FamilyId)
    requires IsChildOf(t, parent, childId, child) && t[parent].Live()
    ensures var t' := Rotate(t, parent, childId, child, at).1;
            && (Exists(t', f) <==> Exists(t, f))
            && |Rows(t', f)| == |Rows(t, f)| + if f == child.family then 1 else 0
    ensures Exists(t, child.family)
  {
    var t' := Rotate(t, parent, childId, child, at).1;
    assert t[parent].family == child.family;
    assert Rows(t', f) == Rows(t, f) + if f == child.family then {childId} else {};
    if Exists(t, f) {
      var x :| x in t && t[x].family == f;
      assert x in t' && t'[x].family == f;
    }
  }

  lemma RevocationKeepsTable(t: Table, log: seq<Rotated>, t': Table)
    requires TableOk(t, log) && Later(t, t') && t'.Keys == t.Keys
    ensures TableOk(t', log)
  {
    forall f ensures if Exists(t', f) then |Rows(t', f)| == 1 + CountRotations(log, f) else CountRotations(log, f) == 0
    {
      assert Rows(t', f) == Rows(t, f);
      if Exists(t, f) {
        var x :| x in t && t[x].family == f;
        assert x in t' && t'[x].family == f;
      }
    }
  }

  /**
    Refinement: what a rotation publishes at COMMIT, and what it answers, is the
    atomic compare-and-swap of the in-memory repository at that moment.
  */
  lemma RotationIsAtomic(key: FamilyId -> LockKey, s: State, t: TxId)
    requires Inv(key, s) && Enabled(key, s, Commit(t)) && s.txs[t].job.Rotating?
    ensures var job := s.txs[t].job;
            (s.txs[t].Won(), Apply(key, s, Commit(t)).db)
            == Rotate(s.db, job.parent, job.childId, job.child, s.txs[t].phase.at)
  {
    assert TxOk(key, s, t);
    WritesAtCommit(key, s, t);
    var job := s.txs[t].job;
    var parent := job.parent;
    assert s.txs[t].Won() <==> s.db[parent].Live() by {
      if s.db[parent].Live() {
        assert parent in Targets(job, s.db);
      }
    }
    forall id | id in s.txs[t].writes ensures s.txs[t].Won() && (id == parent || id == job.childId) {
      if id in s.db {
        assert id in Targets(job, s.db);
      }
    }
    assert Apply(key, s, Commit(t)).db == Rotate(s.db, parent, job.childId, job.child, s.txs[t].phase.at).1;
  }

  /** Refinement: a family revocation publishes the atomic family revocation. */
  lemma FamilyRevocationIsAtomic(key: FamilyId -> LockKey, s: State, t: TxId)
    requires Inv(key, s) && Enabled(key, s, Commit(t)) && s.txs[t].job.RevokingFamily?
    ensures Apply(key, s, Commit(t)).db == RevokeFamily(s.db, s.txs[t].job.family, s.txs[t].phase.at)
  {
    assert TxOk(key, s, t);
    WritesAtCommit(key, s, t);
    forall id | id in s.txs[t].writes ensures id in Targets(s.txs[t].job, s.db) {
    }
    forall id | id in s.db && s.db[id].family == s.txs[t].job.family && s.db[id].Live() ensures id in s.txs[t].writes {
      assert id in Targets(s.txs[t].job, s.db);
    }
  }

  /**
    Refinement: a user-wide revocation publishes the atomic one, except that it
    may miss sessions of families opened after it listed its targets. It is the
    atomic one exactly when its UPDATE has written every session that is live at COMMIT;
    `UserRevocationIsCompleteExactlyWhen` says when that is so.
  */
  lemma UserRevocationIsAtomic(key: FamilyId -> LockKey, s: State, t: TxId)
    requires Inv(key, s) && Enabled(key, s, Commit(t)) && s.txs[t].job.RevokingUser?
    ensures var tx := s.txs[t];
            var db' := Apply(key, s, Commit(t)).db;
            var atomic := RevokeUser(s.db, tx.job.user, tx.phase.at);
            && db'.Keys == atomic.Keys
            && (forall id :: id in s.db && (s.db[id].family in tx.covered || id in tx.writes) ==> db'[id] == atomic[id])
            && (forall id :: id in s.db && !(s.db[id].family in tx.covered || id in tx.writes) ==> db'[id] == s.db[id])
            && (db' == atomic <==> Targets(tx.job, s.db) <= tx.writes.Keys)
            && (LiveFamiliesOf(s.db, tx.job.user) <= tx.covered ==> db' == atomic)
  {
    assert TxOk(key, s, t);
    WritesAtCommit(key, s, t);
    var tx := s.txs[t];
    var db' := Apply(key, s, Commit(t)).db;
    var atomic := RevokeUser(s.db, tx.job.user, tx.phase.at);
    forall id | id in tx.writes ensures id in Targets(tx.job, s.db) {
    }
    forall id | id in s.db && (s.db[id].family in tx.covered || id in tx.writes) ensures db'[id] == atomic[id] {
      if s.db[id].user == tx.job.user && s.db[id].Live() {
        assert id in Targets(tx.job, s.db);
      }
    }
    forall id | id in Targets(tx.job, s.db) && id !in tx.writes ensures db'[id] != atomic[id] {
    }
    forall id | id in s.db && Targets(tx.job, s.db) <= tx.writes.Keys ensures db'[id] == atomic[id] {
    }
    forall id | id in s.db && LiveFamiliesOf(s.db, tx.job.user) <= tx.covered ensures db'[id] == atomic[id] {
      if s.db[id].user == tx.job.user && s.db[id].Live() {
        assert s.db[id].family in LiveFamiliesOf(s.db, tx.job.user);
      }
    }
  }

  lemma CommitKeepsInv(key: FamilyId -> LockKey, s: State, t: TxId)
    requires Inv(key, s) && Enabled(key, s, Commit(t))
    ensures Inv(key, Apply(key, s, Commit(t)))
  {
    var s' := Apply(key, s, Commit(t));
    assert TxOk(key, s, t);
    CommitKeepsTable(key, s, t);
    ClosedKeepsRest(key, s, t);
    forall u | u in s'.txs ensures TxOk(key, s', u) {
      assert TxOk(key, s, u) && Apart(s, t, u) && Apart(s, u, t);
      CommitUndisturbed(key, s, t, u);
      OtherTxKept(key, s, s', u);
    }
    assert AllApart(s') && AllOwned(key, s') by {
      CommitRest(key, s, t);
    }
  }

  lemma CommitRest(key: FamilyId -> LockKey, s: State, t: TxId)
    requires Enabled(key, s, Commit(t)) && AllApart(Closed(s, t)) && AllOwned(key, Closed(s, t))
    ensures AllApart(Apply(key, s, Commit(t))) && AllOwned(key, Apply(key, s, Commit(t)))
  {
    var c := Closed(s, t);
    var s' := Apply(key, s, Commit(t));
    forall u, v | u in s'.txs && v in s'.txs && u != v ensures Apart(s', u, v) {
      assert Apart(c, u, v);
    }
    forall k | k in s'.locks ensures LockOwned(key, s', k) {
      assert LockOwned(key, c, k);
    }
  }

  lemma CommitKeepsTable(key: FamilyId -> LockKey, s: State, t: TxId)
    requires Inv(key, s) && Enabled(key, s, Commit(t))
    ensures TableOk(Apply(key, s, Commit(t)).db, Apply(key, s, Commit(t)).rotations)
  {
    assert TxOk(key, s, t);
    var tx := s.txs[t];
    var s' := Apply(key, s, Commit(t));
    if tx.job.Rotating? {
      RotationIsAtomic(key, s, t);
      if tx.Won() {
        RotationKeepsTable(s.db, s.rotations, tx.job.parent, tx.job.childId, tx.job.child, tx.phase.at);
      } else {
        assert s'.rotations == s.rotations;
      }
    } else {
      CommitIsLater(key, s, t);
      RevocationKeepsTable(s.db, s.rotations, s'.db);
      assert s'.rotations == s.rotations;
    }
  }

  lemma StepKeepsInv(key: FamilyId -> LockKey, s: State, step: Step)
    requires Inv(key, s) && Enabled(key, s, step)
    ensures Inv(key, Apply(key, s, step))
  {
    match step
    case Login(id, session) => LoginKeepsInv(key, s, id, session);
    case BeginRotation(_, _, _, _) => BeginKeepsInv(key, s, step);
    case BeginFamilyRevocation(_, _) => BeginKeepsInv(key, s, step);
    case BeginUserRevocation(_, _, _) => BeginKeepsInv(key, s, step);
    case Lock(t) => LockKeepsInv(key, s, t);
    case Snapshot(t, at) => SnapshotKeepsInv(key, s, t, at);
    case Visit(t, id) => VisitKeepsInv(key, s, t, id);
    case Finish(t) => FinishKeepsInv(key, s, t);
    case Commit(t) => CommitKeepsInv(key, s, t);
    case Abort(t) => AbortKeepsInv(key, s, t);
  }

  // ---- whole runs ----------------------------------------------------------

  /** A run: `states[0]` is the empty database and step `i` leads from `states[i]` to `states[i + 1]`. */
  ghost predicate Run(key: FamilyId -> LockKey, states: seq<State>, steps: seq<Step>) {
    && |states| == |steps| + 1 && states[0] == Start
    && forall i :: 0 <= i < |steps| ==>
        Enabled(key, states[i], steps[i]) && states[i + 1] == Apply(key, states[i], steps[i])
  }

  lemma {:induction false} RunKeepsInv(key: FamilyId -> LockKey, states: seq<State>, steps: seq<Step>, i: nat)
    requires Run(key, states, steps) && i < |states|
    ensures Inv(key, states[i])
  {
    if i > 0 {
      RunKeepsInv(key, states, steps, i - 1);
      StepKeepsInv(key, states[i - 1], steps[i - 1]);
    }
  }

  lemma StepIsLater(key: FamilyId -> LockKey, s: State, step: Step)
    requires Inv(key, s) && Enabled(key, s, step)
    ensures Later(s.db, Apply(key, s, step).db)
  {
    match step
    case Login(id, session) => LoginIsLater(s.db, id, session);
    case Commit(t) =>
      assert TxOk(key, s, t);
      CommitIsLater(key, s, t);
    case _ =>
  }

  lemma {:induction false} RunIsLater(key: FamilyId -> LockKey, states: seq<State>, steps: seq<Step>, i: nat, j: nat)
    requires Run(key, states, steps) && i <= j < |states|
    ensures Later(states[i].db, states[j].db)
    decreases j - i
  {
    if i < j {
      RunIsLater(key, states, steps, i, j - 1);
      RunKeepsInv(key, states, steps, j - 1);
      StepIsLater(key, states[j - 1], steps[j - 1]);
      LaterTransitive(states[i].db, states[j - 1].db, states[j].db);
    }
  }

  /**
    In every interleaving: when a revocation commits, each family that existed
    when it read its targets has no live session, and none is live ever after.
  */
  lemma RevocationIsFinal(key: FamilyId -> LockKey, states: seq<State>, steps: seq<Step>, i: nat, j: nat, f: FamilyId)
    requires Run(key, states, steps) && i < j < |states|
    requires steps[i].Commit? && !states[i].txs[steps[i].t].job.Rotating?
    requires f in states[i].txs[steps[i].t].covered
    ensures Dead(states[j].db, f)
  {
    var s, t := states[i], steps[i].t;
    RunKeepsInv(key, states, steps, i);
    assert TxOk(key, s, t);
    CoveredExist(s, t);
    CommitIsLater(key, s, t);
    var x :| x in s.db && s.db[x].family == f;
    var db' := states[i + 1].db;
    assert x in db' && db'[x].family == f;
    forall id | id in db' && db'[id].family == f ensures !db'[id].Live() {
      CoveredRowsMatch(s, t, id);
      if s.db[id].Live() {
        assert id in Targets(s.txs[t].job, s.db);
        WritesAtCommit(key, s, t);
      }
    }
    RunIsLater(key, states, steps, i + 1, j);
  }

  lemma CoveredRowsMatch(s: State, t: TxId, id: SessionId)
    requires t in s.txs && !s.txs[t].job.Rotating? && JobOk(s, t) && OneUserPerFamily(s.db)
    requires id in s.db && s.db[id].family in s.txs[t].covered
    ensures Matches(s.txs[t].job, s.db, id)
  {
    if s.txs[t].job.RevokingUser? {
      var user := s.txs[t].job.user;
      assert s.db[id].family in FamiliesOf(s.db, user);
      var x :| x in s.db && s.db[x].user == user && s.db[x].family == s.db[id].family;
    }
  }

  // ---- when a user-wide revocation misses something ---------------------------

  /** The transaction is past the snapshot of its UPDATE, taken of `snapshot` at instant `at`. */
  ghost predicate UpdatesSince(s: State, t: TxId, job: Job, snapshot: Table, at: Time) {
    && t in s.txs && s.txs[t].job == job
    && (match s.txs[t].phase
        case Locking(_) => false
        case Updating(_, instant) => instant == at
        case Written(instant) => instant == at)
    && s.txs[t].Todo() + s.txs[t].writes.Keys <= Targets(job, snapshot)
    && forall id :: id in Targets(job, snapshot) && id in s.db && s.db[id].Live() ==>
                      id in s.txs[t].Todo() || id in s.txs[t].writes
  }

  lemma StepKeepsUpdatesSince(key: FamilyId -> LockKey, s: State, step: Step, t: TxId, job: Job, snapshot: Table,
                              at: Time)
    requires Enabled(key, s, step) && job.RevokingUser?
    requires UpdatesSince(s, t, job, snapshot, at) && t in Apply(key, s, step).txs
    requires Later(snapshot, s.db) && Later(s.db, Apply(key, s, step).db)
    ensures UpdatesSince(Apply(key, s, step), t, job, snapshot, at)
  {
    var s' := Apply(key, s, step);
    if s'.txs[t] == s.txs[t] {
      OthersKeepUpdatesSince(s, s', t, job, snapshot, at);
    } else {
      assert s'.db == s.db && (step == Finish(t) || (step.Visit? && step.t == t));
    }
  }

  lemma OthersKeepUpdatesSince(s: State, s': State, t: TxId, job: Job, snapshot: Table, at: Time)
    requires UpdatesSince(s, t, job, snapshot, at) && Later(snapshot, s.db) && Later(s.db, s'.db)
    requires t in s'.txs && s'.txs[t] == s.txs[t]
    ensures UpdatesSince(s', t, job, snapshot, at)
  {
  }

  lemma SnapshotBeginsUpdate(key: FamilyId -> LockKey, s: State, t: TxId, at: Time)
    requires Inv(key, s) && Enabled(key, s, Snapshot(t, at))
    ensures UpdatesSince(Apply(key, s, Snapshot(t, at)), t, s.txs[t].job, s.db, at)
  {
    assert TxOk(key, s, t);
  }

  lemma NextOpenSinceSnapshot(key: FamilyId -> LockKey, states: seq<State>, steps: seq<Step>,
                              k: nat, j: nat, t: TxId, job: Job, at: Time)
    requires Run(key, states, steps) && k < j < |steps| && job.RevokingUser?
    requires UpdatesSince(states[j], t, job, states[k].db, at) && t in states[j + 1].txs
    ensures UpdatesSince(states[j + 1], t, job, states[k].db, at)
  {
    RunIsLater(key, states, steps, k, j);
    RunIsLater(key, states, steps, j, j + 1);
    StepKeepsUpdatesSince(key, states[j], steps[j], t, job, states[k].db, at);
  }

  lemma {:induction false} OpenSinceSnapshot(key: FamilyId -> LockKey, states: seq<State>, steps: seq<Step>,
                                             k: nat, j: nat, t: TxId, at: Time)
    requires Run(key, states, steps) && k < j < |states| && steps[k] == Snapshot(t, at)
    requires states[k].txs[t].job.RevokingUser? && forall m :: k < m <= j ==> t in states[m].txs
    ensures UpdatesSince(states[j], t, states[k].txs[t].job, states[k].db, at)
  {
    if j == k + 1 {
      RunKeepsInv(key, states, steps, k);
      SnapshotBeginsUpdate(key, states[k], t, at);
    } else {
      OpenSinceSnapshot(key, states, steps, k, j - 1, t, at);
      NextOpenSinceSnapshot(key, states, steps, k, j - 1, t, states[k].txs[t].job, at);
    }
  }

  /** The user's sessions that are live. */
  function LiveOf(t: Table, user: UserId): (r: set<SessionId>) {
    set id | id in t && t[id].user == user && t[id].Live()
  }

  /**
    When it is the atomic revocation of everything the user has: if and only if no
    live session of the user was published between the snapshot of its UPDATE and
    its COMMIT.
  */
  lemma UserRevocationIsCompleteExactlyWhen(key: FamilyId -> LockKey, states: seq<State>, steps: seq<Step>,
                                            k: nat, i: nat, t: TxId, at: Time, user: UserId)
    requires Run(key, states, steps) && k < i < |steps|
    requires steps[k] == Snapshot(t, at) && steps[i] == Commit(t) && forall m :: k < m <= i ==> t in states[m].txs
    requires states[k].txs[t].job == RevokingUser(user)
    ensures states[i + 1].db == RevokeUser(states[i].db, user, at) <==>
            LiveOf(states[i].db, user) <= states[k].db.Keys
  {
    var s := states[i];
    OpenSinceSnapshot(key, states, steps, k, i, t, at);
    RunKeepsInv(key, states, steps, i);
    RunIsLater(key, states, steps, k, i);
    UserRevocationIsAtomic(key, s, t);
    var job, writes := s.txs[t].job, s.txs[t].writes;
    assert s.txs[t].Todo() == {};
    assert LiveOf(s.db, user) == Targets(job, s.db);
    forall id | id in LiveOf(s.db, user) && id in states[k].db ensures id in writes {
      assert id in Targets(job, states[k].db);
    }
    forall id | id in writes ensures id in states[k].db {
      assert id in Targets(job, states[k].db);
    }
  }

  /** What `covered` is: read once, when the revocation begins, and never changed. */
  lemma CoveredAtBegin(key: FamilyId -> LockKey, s: State, step: Step)
    requires Enabled(key, s, step)
    ensures step.BeginFamilyRevocation? ==> Apply(key, s, step).txs[step.t].covered == {step.family}
    ensures step.BeginUserRevocation? ==>
      forall f :: f in Apply(key, s, step).txs[step.t].covered <==>
        exists id :: id in s.db && s.db[id].user == step.user && s.db[id].family == f
    ensures forall t :: t in s.txs && t in Apply(key, s, step).txs ==>
        Apply(key, s, step).txs[t].covered == s.txs[t].covered
  {
  }

  /**
    In every committed state: at most one live session per family, no session
    rotated twice, and a family has one session plus one for each of its rotations.
  */
  lemma FamiliesAreChains(key: FamilyId -> LockKey, states: seq<State>, steps: seq<Step>, i: nat)
    requires Run(key, states, steps) && i < |states|
    ensures OneLivePerFamily(states[i].db)
    ensures forall a, b :: 0 <= a < b < |states[i].rotations| ==>
        states[i].rotations[a].parent != states[i].rotations[b].parent
    ensures forall f :: Exists(states[i].db, f) ==>
        |Rows(states[i].db, f)| == 1 + CountRotations(states[i].rotations, f)
  {
    RunKeepsInv(key, states, steps, i);
  }

  ghost predicate Leads(key: FamilyId -> LockKey, s: State, step: Step, s': State) {
    Enabled(key, s, step) && Apply(key, s, step) == s'
  }

  /** User 7's sessions are being revoked; a family opened meanwhile rotates its session 0 into session 1. */
  ghost function EscapeSteps(): (steps: seq<Step>)
    ensures |steps| == 12
  {
    var child := Session(7, 5, 1, 100, None);
    [ BeginUserRevocation(1, 7, []), Login(0, Session(7, 5, 0, 100, None)),
      BeginRotation(2, 0, 1, child), Lock(2), Snapshot(2, 10), Visit(2, 0), Finish(2),
      Snapshot(1, 11), Commit(2),
      Visit(1, 0), Finish(1), Commit(1) ]
  }

  ghost function EscapeStates(key: FamilyId -> LockKey): (states: seq<State>)
    ensures |states| == 13
  {
    var parent, child := Session(7, 5, 0, 100, None), Session(7, 5, 1, 100, None);
    var gone := parent.RevokedAt(10);
    var revoking := Tx(RevokingUser(7), {}, {}, Locking([]), map[]);
    var rotating := Tx(Rotating(0, 1, child), {5}, {5}, Locking([5]), map[]);
    var late := revoking.(phase := Updating({0}, 11));
    var written := rotating.(phase := Written(10), writes := map[0 := gone, 1 := child]);
    var before, rotated, held := map[0 := parent], map[0 := gone, 1 := child], map[key(5) := 2];
    var log := [Rotated(0, 1, 5)];
    [ Start,
      State(map[], map[1 := revoking], map[], []),
      State(before, map[1 := revoking], map[], []),
      State(before, map[1 := revoking, 2 := rotating], map[], []),
      State(before, map[1 := revoking, 2 := rotating.(phase := Locking([]))], held, []),
      State(before, map[1 := revoking, 2 := rotating.(phase := Updating({0}, 10))], held, []),
      State(before, map[1 := revoking, 2 := rotating.(phase := Updating({}, 10), writes := map[0 := gone])], held, []),
      State(before, map[1 := revoking, 2 := written], held, []),
      State(before, map[1 := late, 2 := written], held, []),
      State(rotated, map[1 := late], map[], log),
      State(rotated, map[1 := late.(phase := Updating({}, 11))], map[], log),
      State(rotated, map[1 := late.(phase := Written(11))], map[], log),
      State(rotated, map[], map[], log) ]
  }

  lemma EscapeBegins(key: FamilyId -> LockKey)
    ensures forall i :: 0 <= i < 2 ==> Leads(key, EscapeStates(key)[i], EscapeSteps()[i], EscapeStates(key)[i + 1])
  {
    var states, steps := EscapeStates(key), EscapeSteps();
    assert FamiliesOf(map[], 7) == {} && LiveFamiliesOf(map[], 7) == {};
    assert (set f: FamilyId | f in []) == {};
    assert Leads(key, states[0], steps[0], states[1]);
    assert Leads(key, states[1], steps[1], states[2]);
  }

  lemma EscapeLocks(key: FamilyId -> LockKey)
    ensures forall i :: 2 <= i < 4 ==> Leads(key, EscapeStates(key)[i], EscapeSteps()[i], EscapeStates(key)[i + 1])
  {
    var states, steps := EscapeStates(key), EscapeSteps();
    assert Leads(key, states[2], steps[2], states[3]);
    assert [5][1..] == [];
    assert Leads(key, states[3], steps[3], states[4]);
  }

  lemma EscapeRotates(key: FamilyId -> LockKey)
    ensures forall i :: 4 <= i < 6 ==> Leads(key, EscapeStates(key)[i], EscapeSteps()[i], EscapeStates(key)[i + 1])
  {
    var states, steps := EscapeStates(key), EscapeSteps();
    assert Targets(states[4].txs[2].job, states[4].db) == {0};
    assert Leads(key, states[4], steps[4], states[5]);
    assert {0} - {0} == {};
    assert Leads(key, states[5], steps[5], states[6]);
  }

  lemma EscapeWrites(key: FamilyId -> LockKey)
    ensures forall i :: 6 <= i < 8 ==> Leads(key, EscapeStates(key)[i], EscapeSteps()[i], EscapeStates(key)[i + 1])
  {
    var states, steps := EscapeStates(key), EscapeSteps();
    assert Leads(key, states[6], steps[6], states[7]);
    assert Targets(RevokingUser(7), states[7].db) == {0};
    assert Leads(key, states[7], steps[7], states[8]);
  }

  lemma EscapePublishes(key: FamilyId -> LockKey)
    ensures forall i :: 8 <= i < 10 ==> Leads(key, EscapeStates(key)[i], EscapeSteps()[i], EscapeStates(key)[i + 1])
  {
    var states, steps := EscapeStates(key), EscapeSteps();
    assert Leads(key, states[8], steps[8], states[9]);
    assert {0} - {0} == {};
    assert Leads(key, states[9], steps[9], states[10]);
  }

  lemma EscapeEnds(key: FamilyId -> LockKey)
    ensures forall i :: 10 <= i < 12 ==> Leads(key, EscapeStates(key)[i], EscapeSteps()[i], EscapeStates(key)[i + 1])
  {
    var states, steps := EscapeStates(key), EscapeSteps();
    assert Leads(key, states[10], steps[10], states[11]);
    assert Leads(key, states[11], steps[11], states[12]);
  }

  /**
    What is not promised: a family opened after a user-wide revocation listed its
    targets can outlive it, if one of its sessions is being rotated meanwhile. The
    UPDATE finds the parent, waits for the rotation, and never sees the child.
  */
  lemma LaterFamilyCanEscape(key: FamilyId -> LockKey)
    ensures var states, steps := EscapeStates(key), EscapeSteps();
            && Run(key, states, steps)
            && steps[11] == Commit(1) && states[11].txs.Keys == {1} && states[11].txs[1].job == RevokingUser(7)
            && 1 in states[12].db && states[12].db[1].user == 7 && states[12].db[1].Live()
  {
    EscapeBegins(key);
    EscapeLocks(key);
    EscapeRotates(key);
    EscapeWrites(key);
    EscapePublishes(key);
    EscapeEnds(key);
    var states, steps := EscapeStates(key), EscapeSteps();
    forall i | 0 <= i < 12
      ensures Enabled(key, states[i], steps[i]) && states[i + 1] == Apply(key, states[i], steps[i])
    {
      assert Leads(key, states[i], steps[i], states[i + 1]);
    }
  }
}
