/** The in-memory session repository: the atomic operations of `Sessions`, performed in place. */
module SessionStore {
  import opened Common
  import opened Sessions

  /**
    What was done to the store, oldest first; `own` marks the doings of the call
    under study as opposed to those of everybody else.
  */
  datatype Event =
    | Rotation(own: bool, before: Session, child: Session, at: Time)   // a swap that won, and the row it found
    | FamilyKill(own: bool, family: FamilyId, at: Time)
    | Elsewhere                                              // a login, or a user-wide revocation

  /** What other requests may do between two steps of a call. */
  datatype Other =
    | OtherLogin(session: Session)
    | OtherRotation(parent: SessionId, child: Session, at: Time)
    | OtherFamilyKill(family: FamilyId, at: Time)
    | OtherUserKill(user: UserId, at: Time)
    | OtherRowKill(id: SessionId, at: Time)   // one row of a user-wide revocation that misses others

  class Store {
    var sessions: Table
    var nextId: nat
    ghost var log: seq<Event>

    ghost predicate Valid() reads this {
      (forall id :: id in sessions ==> id < nextId) && OneLivePerFamily(sessions) && OneUserPerFamily(sessions)
    }

    function Content(): (m: Memory)
      reads this
    {
      Memory(sessions, nextId)
    }

    constructor ()
      ensures Valid() && sessions == map[] && nextId == 0 && log == []
    {
      sessions, nextId, log := map[], 0, [];
    }

    method Create(session: Session)
      requires Valid() && IsLogin(sessions, nextId, session)
      modifies this
      ensures Valid() && sessions == old(sessions)[old(nextId) := session] && nextId == old(nextId) + 1
      ensures log == old(log) + [Elsewhere]
    {
      sessions, nextId := sessions[nextId := session], nextId + 1;
      log := log + [Elsewhere];
    }

    method FindByHash(hash: TokenHash) returns (found: Option<SessionId>)
      ensures found.Some? ==> found.value in sessions && sessions[found.value].hash == hash
      ensures found.None? ==> forall id :: id in sessions ==> sessions[id].hash != hash
    {
      if id :| id in sessions && sessions[id].hash == hash {
        found := Some(id);
      } else {
        found := None;
      }
    }

    method FindLive(family: FamilyId) returns (found: Option<SessionId>)
      ensures found.Some? ==>
        found.value in sessions && sessions[found.value].family == family && sessions[found.value].Live()
      ensures found.None? ==> forall id :: id in sessions && sessions[id].family == family ==> !sessions[id].Live()
      ensures OneLivePerFamily(sessions) ==> found == LiveIn(sessions, family)
    {
      if id :| id in sessions && sessions[id].family == family && sessions[id].Live() {
        found := Some(id);
      } else {
        found := None;
      }
    }

    method Rotate(parent: SessionId, child: Session, at: Time, ghost own: bool) returns (won: bool)
      requires Valid() && (parent in sessions ==> IsChildOf(sessions, parent, nextId, child))
      modifies this
      ensures Valid() && Later(old(sessions), sessions)
      ensures (won, sessions) == Sessions.Rotate(old(sessions), parent, old(nextId), child, at)
      ensures nextId == old(nextId) + if won then 1 else 0
      ensures log == old(log) + if won then [Rotation(own, old(sessions)[parent], child, at)] else []
    {
      if parent !in sessions || !sessions[parent].Live() {
        return false;
      }
      RotateIsLater(sessions, parent, nextId, child, at);
      log := log + [Rotation(own, sessions[parent], child, at)];
      sessions := sessions[parent := sessions[parent].RevokedAt(at)];
      sessions := sessions[nextId := child];
      nextId := nextId + 1;
      won := true;
    }

    method RevokeFamily(family: FamilyId, at: Time, ghost own: bool)
      requires Valid()
      modifies this
      ensures Valid() && Later(old(sessions), sessions)
      ensures sessions == Sessions.RevokeFamily(old(sessions), family, at) && nextId == old(nextId)
      ensures log == old(log) + [FamilyKill(own, family, at)]
    {
      RevokeFamilyIsLater(sessions, family, at);
      var todo := sessions.Keys;
      while todo != {}
        invariant todo <= sessions.Keys == old(sessions).Keys && nextId == old(nextId) && log == old(log)
        invariant forall id :: id in sessions ==>
          sessions[id] == if id in todo then old(sessions)[id] else Sessions.RevokeFamily(old(sessions), family, at)[id]
      {
        var id :| id in todo;
        if sessions[id].family == family && sessions[id].Live() {
          sessions := sessions[id := sessions[id].RevokedAt(at)];
        }
        todo := todo - {id};
      }
      log := log + [FamilyKill(own, family, at)];
    }

    method RevokeUser(user: UserId, at: Time)
      requires Valid()
      modifies this
      ensures Valid() && Later(old(sessions), sessions)
      ensures sessions == Sessions.RevokeUser(old(sessions), user, at) && nextId == old(nextId)
      ensures log == old(log) + [Elsewhere]
    {
      RevokeUserIsLater(sessions, user, at);
      var todo := sessions.Keys;
      while todo != {}
        invariant todo <= sessions.Keys == old(sessions).Keys && nextId == old(nextId) && log == old(log)
        invariant forall id :: id in sessions ==>
          sessions[id] == if id in todo then old(sessions)[id] else Sessions.RevokeUser(old(sessions), user, at)[id]
      {
        var id :| id in todo;
        if sessions[id].user == user && sessions[id].Live() {
          sessions := sessions[id := sessions[id].RevokedAt(at)];
        }
        todo := todo - {id};
      }
      log := log + [Elsewhere];
    }

    /** Other requests run here. Operations no caller could perform in this state are skipped. */
    method Interfere(others: seq<Other>)
      requires Valid()
      modifies this
      ensures Valid() && Later(old(sessions), sessions)
      ensures Content() == Meddled(old(Content()), others)
      ensures |log| >= |old(log)| && log[..|old(log)|] == old(log)
      ensures forall i :: |old(log)| <= i < |log| ==> NotOwn(log[i])
    {
      for i := 0 to |others|
        invariant Valid() && Later(old(sessions), sessions)
        invariant Content() == Meddled(old(Content()), others[..i])
        invariant |log| >= |old(log)| && log[..|old(log)|] == old(log)
        invariant forall k :: |old(log)| <= k < |log| ==> NotOwn(log[k])
      {
        ghost var before := sessions;
        assert others[..i + 1][..i] == others[..i];
        InterfereOnce(others[i]);
        LaterTransitive(old(sessions), before, sessions);
      }
      assert others[..|others|] == others;
    }

    method InterfereOnce(other: Other)
      requires Valid()
      modifies this
      ensures Valid() && Later(old(sessions), sessions) && Content() == Meddle(old(Content()), other)
      ensures |log| >= |old(log)| && log[..|old(log)|] == old(log)
      ensures forall i :: |old(log)| <= i < |log| ==> NotOwn(log[i])
    {
      match other
      case OtherLogin(session) =>
        if IsLogin(sessions, nextId, session) {
          LoginIsLater(sessions, nextId, session);
          Create(session);
        }
      case OtherRotation(parent, child, at) =>
        if IsChildOf(sessions, parent, nextId, child) {
          var _ := Rotate(parent, child, at, false);
        }
      case OtherFamilyKill(family, at) => RevokeFamily(family, at, false);
      case OtherUserKill(user, at) => RevokeUser(user, at);
      case OtherRowKill(id, at) =>
        if id in sessions && sessions[id].Live() {
          RowKillIsLater(sessions, id, at);
          sessions := sessions[id := sessions[id].RevokedAt(at)];
          log := log + [Elsewhere];
        }
    }
  }

  predicate NotOwn(e: Event) {
    e.Elsewhere? || !e.own
  }

  // ---- what the store holds -----------------------------------------------

  /** All that the store holds: its rows, and the id that the next one gets. */
  datatype Memory = Memory(sessions: Table, nextId: nat)
  {
    function Swapped(parent: SessionId, child: Session, at: Time): (m: Memory) {
      var (won, sessions) := Sessions.Rotate(sessions, parent, nextId, child, at);
      Memory(sessions, nextId + if won then 1 else 0)
    }

    function Killed(family: FamilyId, at: Time): (m: Memory) {
      Memory(Sessions.RevokeFamily(sessions, family, at), nextId)
    }
  }

  /** What one request of somebody else makes of it. */
  function Meddle(m: Memory, other: Other): (after: Memory) {
    match other
    case OtherLogin(session) =>
      if IsLogin(m.sessions, m.nextId, session) then Memory(m.sessions[m.nextId := session], m.nextId + 1) else m
    case OtherRotation(parent, child, at) =>
      if IsChildOf(m.sessions, parent, m.nextId, child) then m.Swapped(parent, child, at) else m
    case OtherFamilyKill(family, at) => m.Killed(family, at)
    case OtherUserKill(user, at) => m.(sessions := Sessions.RevokeUser(m.sessions, user, at))
    case OtherRowKill(id, at) =>
      if id in m.sessions
          && m.sessions[id].Live() then m.(sessions := m.sessions[id := m.sessions[id].RevokedAt(at)]) else m
  }

  function Meddled(m: Memory, others: seq<Other>): (after: Memory) {
    if others == [] then m else Meddle(Meddled(m, others[..|others| - 1]), others[|others| - 1])
  }
}
