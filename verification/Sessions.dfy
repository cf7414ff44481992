/**
  The `sessions` table and its atomic operations. A session is live while it
  has no `revokedAt`; the sessions opened by one login and its refreshes form a
  family. The functions on tables are the specification that the in-memory
  `SessionStore` implements and that the locked transactions of
  `SessionTransactions` refine.
*/
module Sessions {
  import opened Common

  type SessionId = nat
  type UserId = nat
  type FamilyId = int
  type TokenHash = nat
  type Time = int

  datatype Session = Session(
    user: UserId, family: FamilyId, hash: TokenHash, expiresAt: Time, revokedAt: Option<Time>)
  {
    predicate Live() { revokedAt.None? }

    function RevokedAt(at: Time): (r: Session) { this.(revokedAt := Some(at)) }
  }

  type Table = map<SessionId, Session>

  predicate Exists(t: Table, family: FamilyId) {
    exists id :: id in t && t[id].family == family
  }

  /** The family was opened and none of its sessions can be refreshed any more. */
  predicate Dead(t: Table, family: FamilyId) {
    && Exists(t, family)
    && forall id :: id in t && t[id].family == family ==> !t[id].Live()
  }

  predicate OneLivePerFamily(t: Table) {
    forall a, b :: a in t && b in t && t[a].family == t[b].family && t[a].Live() && t[b].Live()
                   ==> a == b
  }

  predicate OneUserPerFamily(t: Table) {
    forall a, b :: a in t && b in t && t[a].family == t[b].family ==> t[a].user == t[b].user
  }

  // ---- atomic operations -------------------------------------------------

  function RevokeFamily(t: Table, family: FamilyId, at: Time): (r: Table) {
    map id | id in t :: if t[id].family == family && t[id].Live() then t[id].RevokedAt(at) else t[id]
  }

  function RevokeUser(t: Table, user: UserId, at: Time): (r: Table) {
    map id | id in t :: if t[id].user == user && t[id].Live() then t[id].RevokedAt(at) else t[id]
  }

  /** Compare-and-swap: revoke `parent` if it is live and insert its child, or do nothing. */
  function Rotate(t: Table, parent: SessionId, childId: SessionId, child: Session, at: Time): (bool, Table) {
    if parent in t && t[parent].Live()
    then (true, t[parent := t[parent].RevokedAt(at)][childId := child])
    else (false, t)
  }

  /** What every caller of `Rotate` passes: a new live row of the parent's own user and family. */
  predicate IsChildOf(t: Table, parent: SessionId, childId: SessionId, child: Session) {
    && parent in t && childId !in t && child.Live()
    && child.family == t[parent].family && child.user == t[parent].user
  }

  /** What login inserts: a new live row in a family of its own. */
  predicate IsLogin(t: Table, id: SessionId, session: Session) {
    id !in t && session.Live() && !Exists(t, session.family)
  }

  /** The live session of the family, if there is one. */
  ghost function LiveIn(t: Table, family: FamilyId): (id: Option<SessionId>)
    ensures id.Some? ==> id.value in t && t[id.value].family == family && t[id.value].Live()
  {
    if id :| id in t && t[id].family == family && t[id].Live() then Some(id) else None
  }

  // ---- how a table may evolve --------------------------------------------

  /**
    `u` is `t` some committed operations later: rows are never removed, the only
    column that changes is `revokedAt`, once, and a dead family stays dead.
  */
  ghost predicate Later(t: Table, u: Table) {
    && (forall id :: id in t ==> id in u && (u[id] == t[id] || (t[id].Live() && u[id].revokedAt.Some? &&
                                                                u[id] == t[id].RevokedAt(u[id].revokedAt.value))))
    && (forall f :: Dead(t, f) ==> Dead(u, f))
  }

  lemma LaterTransitive(t: Table, u: Table, v: Table)
    requires Later(t, u) && Later(u, v)
    ensures Later(t, v)
  {
  }

  lemma RotateIsLater(t: Table, parent: SessionId, childId: SessionId, child: Session, at: Time)
    requires IsChildOf(t, parent, childId, child)
    ensures Later(t, Rotate(t, parent, childId, child, at).1)
    ensures OneLivePerFamily(t) ==> OneLivePerFamily(Rotate(t, parent, childId, child, at).1)
    ensures OneUserPerFamily(t) ==> OneUserPerFamily(Rotate(t, parent, childId, child, at).1)
    ensures var (won, u) := Rotate(t, parent, childId, child, at);
            && (won <==> t[parent].revokedAt.None?) && (!won ==> u == t)
            && (won ==> u.Keys == t.Keys + {childId} && u[childId] == child
                        && (forall id :: id in t && id != parent ==> u[id] == t[id])
                        && u[parent] == t[parent].(revokedAt := Some(at)))
  {
    var u := Rotate(t, parent, childId, child, at).1;
    forall f | Dead(t, f) ensures Dead(u, f) {
      var id :| id in t && t[id].family == f;
      assert id in u && u[id].family == f;
    }
  }

  lemma RevokeFamilyIsLater(t: Table, family: FamilyId, at: Time)
    ensures Later(t, RevokeFamily(t, family, at))
    ensures Exists(t, family) ==> Dead(RevokeFamily(t, family, at), family)
    ensures var u := RevokeFamily(t, family, at);
            && u.Keys == t.Keys
            && forall id :: id in t ==> if t[id].family == family && t[id].revokedAt.None?
                                        then u[id] == t[id].(revokedAt := Some(at)) else u[id] == t[id]
  {
    var u := RevokeFamily(t, family, at);
    forall f | Exists(t, f) ensures Exists(u, f) {
      var id :| id in t && t[id].family == f;
      assert id in u && u[id].family == f;
    }
  }

  lemma RevokeUserIsLater(t: Table, user: UserId, at: Time)
    ensures Later(t, RevokeUser(t, user, at))
    ensures var u := RevokeUser(t, user, at);
            && u.Keys == t.Keys
            && forall id :: id in t ==> if t[id].user == user && t[id].revokedAt.None?
                                        then u[id] == t[id].(revokedAt := Some(at)) else u[id] == t[id]
  {
    var u := RevokeUser(t, user, at);
    forall f | Dead(t, f) ensures Dead(u, f) {
      var id :| id in t && t[id].family == f;
      assert id in u && u[id].family == f;
    }
  }

  lemma RowKillIsLater(t: Table, id: SessionId, at: Time)
    requires id in t && t[id].Live()
    ensures Later(t, t[id := t[id].RevokedAt(at)])
  {
    var u := t[id := t[id].RevokedAt(at)];
    forall f | Dead(t, f) ensures Dead(u, f) {
      var x :| x in t && t[x].family == f;
      assert x in u && u[x].family == f;
    }
  }

  lemma LoginIsLater(t: Table, id: SessionId, session: Session)
    requires IsLogin(t, id, session)
    ensures Later(t, t[id := session])
  {
    var u := t[id := session];
    forall f | Dead(t, f) ensures Dead(u, f) {
      var x :| x in t && t[x].family == f;
      assert x in u && u[x].family == f;
    }
  }
}
