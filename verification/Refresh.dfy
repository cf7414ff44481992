/**
  The refresh and logout use cases. Each repository call is atomic; between any
  two of them other requests may do anything to the store, as often as they like.
*/
module Refresh {
  import opened Common
  import opened Sessions
  import opened SessionStore

  /** How long a token that was just rotated may still be presented, in milliseconds. */
  const GRACE_MS: Time := 10_000

  datatype Outcome =
    | Tokens(user: UserId, refresh: TokenHash)
    | InvalidToken      // unknown or expired: nothing is revoked
    | ReusedToken       // a reuse: the family is revoked

  /** What the others do before each repository call, and when the call reads the clock. */
  datatype Schedule = Schedule(
    beforeFind: seq<Other>, decidedAt: Time,
    beforeRotation: seq<Other>, rotatedAt: Time,
    graceAt: Time, beforeFindLive: seq<Other>, pickedAt: Time,
    beforeSecondRotation: seq<Other>, secondAt: Time,
    beforeKill: seq<Other>, killedAt: Time)
  {
    predicate Quiet() {
      beforeFind == beforeRotation == beforeFindLive == beforeSecondRotation == beforeKill == []
    }

    predicate Monotone() {
      decidedAt <= rotatedAt && decidedAt <= graceAt <= pickedAt
    }
  }

  // ---- what a refresh comes to ------------------------------------------------

  /** What is answered, if anything is yet, and what the store holds then. */
  datatype Answer = Answer(outcome: Option<Outcome>, memory: Memory)

  function Child(row: Session, refresh: TokenHash, expiry: Time): (child: Session) {
    Session(row.user, row.family, refresh, expiry, None)
  }

  function Signed(users: set<UserId>, user: UserId, refresh: TokenHash): (r: Outcome) {
    if user in users then Tokens(user, refresh) else InvalidToken
  }

  predicate BeyondWindow(seen: Session, at: Time) {
    seen.revokedAt.Some? && at - seen.revokedAt.value > GRACE_MS
  }

  predicate StillLive(t: Table, id: SessionId) {
    id in t && t[id].Live()
  }

  /** The grace window: no outcome means that the token has to be treated as reused. */
  ghost function Continuation(users: set<UserId>, m: Memory, seen: Session, second: TokenHash, expiry: Time,
                              sch: Schedule): (a: Answer) {
    if BeyondWindow(seen, sch.graceAt) then Answer(None, m)
    else if seen.expiresAt <= sch.graceAt then Answer(Some(InvalidToken), m)
    else
      var found := Meddled(m, sch.beforeFindLive);
      var live := LiveIn(found.sessions, seen.family);
      if live.None? || found.sessions[live.value].expiresAt <= sch.pickedAt then Answer(None, found)
      else
        var row := found.sessions[live.value];
        var tried := Meddled(found, sch.beforeSecondRotation);
        Answer(if StillLive(tried.sessions, live.value) then Some(Signed(users, row.user, second)) else None,
               tried.Swapped(live.value, Child(row, second, expiry), sch.secondAt))
  }

  /** A token found revoked, or whose swap was lost. */
  ghost function Fallen(users: set<UserId>, m: Memory, seen: Session, second: TokenHash, expiry: Time,
                        sch: Schedule): (a: Answer) {
    var c := Continuation(users, m, seen, second, expiry, sch);
    if c.outcome.Some? then c
    else Answer(Some(ReusedToken), Meddled(c.memory, sch.beforeKill).Killed(seen.family, sch.killedAt))
  }

  /** A session that was found. */
  ghost function Exchanged(users: set<UserId>, m: Memory, id: SessionId, first: TokenHash, second: TokenHash,
                           expiry: Time, sch: Schedule): (a: Answer)
    requires id in m.sessions
  {
    var row := m.sessions[id];
    if !row.Live() then Fallen(users, m, row, second, expiry, sch)
    else if row.expiresAt <= sch.decidedAt then Answer(Some(InvalidToken), m)
    else
      var tried := Meddled(m, sch.beforeRotation);
      var after := tried.Swapped(id, Child(row, first, expiry), sch.rotatedAt);
      if StillLive(tried.sessions, id) then Answer(Some(Signed(users, row.user, first)), after)
      else Fallen(users, after, row, second, expiry, sch)
  }

  // ---- the use case -------------------------------------------------------------

  ghost predicate NoOwnEvents(log: seq<Event>, from: nat) {
    forall k :: from <= k < |log| ==> NotOwn(log[k])
  }

  ghost predicate HappenedAt(log: seq<Event>, from: nat, k: nat, e: Event) {
    from <= k < |log| && log[k] == e
  }

  /** All that the call itself did since `from` is this. */
  ghost predicate OnlyOwn(log: seq<Event>, from: nat, e: Event) {
    exists k: nat :: HappenedAt(log, from, k, e) && forall j :: from <= j < |log| && j != k ==> NotOwn(log[j])
  }

  /** All it did: revoke this family, at that instant. */
  ghost predicate KilledOnce(log: seq<Event>, from: nat, family: FamilyId, at: Time) {
    OnlyOwn(log, from, FamilyKill(true, family, at))
  }

  /** All it did: win the swap of this session for the new one, at that instant. */
  ghost predicate WonOnce(log: seq<Event>, from: nat, swapped: Session, issued: Session, at: Time) {
    OnlyOwn(log, from, Rotation(true, swapped, issued, at))
  }

  /** All it did: win the swap of the family's live session, unexpired when it was picked. */
  ghost predicate SuccessorWonOnce(log: seq<Event>, from: nat, issued: Session, sch: Schedule) {
    exists swapped :: WonOnce(log, from, swapped, issued, sch.secondAt)
      && swapped.Live() && swapped.family == issued.family && sch.pickedAt < swapped.expiresAt
  }

  ghost predicate IsStored(t: Table, session: Session) {
    exists id :: id in t && t[id] == session
  }

  /** Doings of others before the ones counted do not change the count. */
  lemma StillOnlyOwn(before: seq<Event>, log: seq<Event>, from: nat)
    requires from <= |before| <= |log| && log[..|before|] == before && NoOwnEvents(before, from)
    ensures NoOwnEvents(log, |before|) ==> NoOwnEvents(log, from)
    ensures forall e :: OnlyOwn(log, |before|, e) ==> OnlyOwn(log, from, e)
  {
    forall k | from <= k < |before| ensures NotOwn(log[k]) {
      assert log[k] == before[k];
    }
    forall e | OnlyOwn(log, |before|, e) ensures OnlyOwn(log, from, e) {
      var k: nat :| HappenedAt(log, |before|, k, e) && forall j :: |before| <= j < |log| && j != k ==> NotOwn(log[j]);
      assert HappenedAt(log, from, k, e);
    }
  }

  /** The table has a session of the same family and user. */
  ghost predicate Belongs(t: Table, seen: Session) {
    exists id :: id in t && t[id].family == seen.family && t[id].user == seen.user
  }

  lemma BelongsLater(t: Table, u: Table, seen: Session)
    requires Belongs(t, seen) && Later(t, u)
    ensures Belongs(u, seen) && Exists(u, seen.family)
  {
    var id :| id in t && t[id].family == seen.family && t[id].user == seen.user;
    assert id in u && u[id].family == seen.family && u[id].user == seen.user;
  }

  lemma SuccessorsUser(t: Table, u: Table, seen: Session, id: SessionId)
    requires Belongs(t, seen) && Later(t, u) && OneUserPerFamily(u) && id in u && u[id].family == seen.family
    ensures u[id].user == seen.user
  {
    BelongsLater(t, u, seen);
  }

  /** Revokes a family, after whatever the others do first. */
  method EndFamily(store: Store, family: FamilyId, others: seq<Other>, at: Time)
    requires store.Valid() && Exists(store.sessions, family)
    modifies store
    ensures store.Valid() && Later(old(store.sessions), store.sessions) && Dead(store.sessions, family)
    ensures store.Content() == Meddled(old(store.Content()), others).Killed(family, at)
    ensures |store.log| >= |old(store.log)| && store.log[..|old(store.log)|] == old(store.log)
    ensures KilledOnce(store.log, |old(store.log)|, family, at)
  {
    store.Interfere(others);
    ghost var t := store.sessions;
    ghost var id :| id in old(store.sessions) && old(store.sessions)[id].family == family;
    assert id in t && t[id].family == family;
    RevokeFamilyIsLater(t, family, at);
    store.RevokeFamily(family, at, true);
    LaterTransitive(old(store.sessions), t, store.sessions);
    assert HappenedAt(store.log, |old(store.log)|, |store.log| - 1, FamilyKill(true, family, at));
  }

  class RefreshUseCase {
    const store: Store
    const users: set<UserId>   // who still has an account when the answer is signed

    constructor (store: Store, users: set<UserId>)
      ensures this.store == store && this.users == users
    {
      this.store := store;
      this.users := users;
    }

    /** Signs for a user that still exists. */
    method Sign(user: UserId, refresh: TokenHash) returns (r: Outcome)
      ensures r == if user in users then Tokens(user, refresh) else InvalidToken
    {
      if user !in users {
        return InvalidToken;
      }
      r := Tokens(user, refresh);
    }

    /** Asks for one compare-and-swap: the session that was read, for its child. */
    method TryRotation(id: SessionId, row: Session, refresh: TokenHash, expiry: Time, others: seq<Other>, at: Time)
      returns (won: bool)
      requires store.Valid() && id in store.sessions && store.sessions[id] == row
      modifies store
      ensures store.Valid() && Later(old(store.sessions), store.sessions)
      ensures |store.log| >= |old(store.log)| && store.log[..|old(store.log)|] == old(store.log)
      ensures var issued := Session(row.user, row.family, refresh, expiry, None);
              if won then row.Live() && WonOnce(store.log, |old(store.log)|, row, issued, at)
                  && IsStored(store.sessions, issued)
              else NoOwnEvents(store.log, |old(store.log)|)
      ensures var tried := Meddled(old(store.Content()), others);
              && won == StillLive(tried.sessions, id)
              && store.Content() == tried.Swapped(id, Child(row, refresh, expiry), at)
      ensures others == [] && row.Live() ==> won
    {
      store.Interfere(others);
      ghost var t := store.sessions;
      won := store.Rotate(id, Child(row, refresh, expiry), at, true);
      LaterTransitive(old(store.sessions), t, store.sessions);
      ghost var e := Rotation(true, row, Child(row, refresh, expiry), at);
      assert won ==> HappenedAt(store.log, |old(store.log)|, |store.log| - 1, e);
      assert won ==> store.nextId - 1 in store.sessions && store.sessions[store.nextId - 1] == e.child;
    }

    /** Rotates the live session of the family once more; answers whose it is, if the swap was won. */
    method RotateSuccessor(seen: Session, second: TokenHash, expiry: Time, sch: Schedule)
      returns (winner: Option<UserId>)
      requires store.Valid() && Belongs(store.sessions, seen)
      modifies store
      ensures store.Valid() && Later(old(store.sessions), store.sessions)
      ensures |store.log| >= |old(store.log)| && store.log[..|old(store.log)|] == old(store.log)
      ensures winner.None? ==> NoOwnEvents(store.log, |old(store.log)|)
      ensures winner.Some? ==>
        var issued := Session(seen.user, seen.family, second, expiry, None);
        && winner.value == seen.user && IsStored(store.sessions, issued)
        && SuccessorWonOnce(store.log, |old(store.log)|, issued, sch)
      ensures !BeyondWindow(seen, sch.graceAt) && sch.graceAt < seen.expiresAt ==>
        Answer(if winner.Some? then Some(Signed(users, winner.value, second)) else None, store.Content()) ==
        Continuation(users, old(store.Content()), seen, second, expiry, sch)
      ensures sch.Quiet() ==> (winner.Some? <==> HasSuccessor(old(store.sessions), seen.family, sch.pickedAt))
      ensures sch.Quiet() && winner.Some? ==>
          exists id :: id in old(store.sessions) && old(store.sessions)[id].user == winner.value
    {
      store.Interfere(sch.beforeFindLive);
      var live := store.FindLive(seen.family);
      if live.None? || store.sessions[live.value].expiresAt <= sch.pickedAt {
        return None;
      }
      var row := store.sessions[live.value];
      ghost var t, l := store.sessions, store.log;
      SuccessorsUser(old(store.sessions), t, seen, live.value);
      var won := TryRotation(live.value, row, second, expiry, sch.beforeSecondRotation, sch.secondAt);
      LaterTransitive(old(store.sessions), t, store.sessions);
      StillOnlyOwn(l, store.log, |old(store.log)|);
      winner := if won then Some(row.user) else None;
    }

    /**
      The grace window: within it, and while the presented token itself has not
      expired, the live session of the family is rotated once more. `None` means
      the window does not apply and the caller must treat the token as reused.
    */
    method ContinueAsConcurrent(seen: Session, second: TokenHash, expiry: Time, sch: Schedule)
      returns (r: Option<Outcome>)
      requires store.Valid() && Belongs(store.sessions, seen)
      modifies store
      ensures store.Valid() && Later(old(store.sessions), store.sessions)
      ensures Answer(r, store.Content()) == Continuation(users, old(store.Content()), seen, second, expiry, sch)
      ensures |store.log| >= |old(store.log)| && store.log[..|old(store.log)|] == old(store.log)
      ensures r.None? ==> NoOwnEvents(store.log, |old(store.log)|)
      ensures r.Some? ==>
        !r.value.ReusedToken?
        && Settled(store.sessions, store.log, |old(store.log)|, users, seen, second, expiry, sch, r.value)
      ensures seen.revokedAt.Some? && sch.graceAt - seen.revokedAt.value > 10_000 ==> r.None?
      ensures sch.Quiet() && AllUsersExist(old(store.sessions)) ==>
        ((r.Some? && r.value.Tokens?) <==> Continues(old(store.sessions), seen, sch))
    {
      if seen.revokedAt.Some? && sch.graceAt - seen.revokedAt.value > GRACE_MS {
        return None;
      }
      if seen.expiresAt <= sch.graceAt {
        return Some(InvalidToken);
      }
      var winner := RotateSuccessor(seen, second, expiry, sch);
      if winner.None? {
        return None;
      }
      var answer := Sign(winner.value, second);
      r := Some(answer);
    }

    /** Treats the presented token as stolen: the family ends here. */
    method KillFamily(family: FamilyId, sch: Schedule)
      requires store.Valid() && Exists(store.sessions, family)
      modifies store
      ensures store.Valid() && Later(old(store.sessions), store.sessions) && Dead(store.sessions, family)
      ensures store.Content() == Meddled(old(store.Content()), sch.beforeKill).Killed(family, sch.killedAt)
      ensures |store.log| >= |old(store.log)| && store.log[..|old(store.log)|] == old(store.log)
      ensures KilledOnce(store.log, |old(store.log)|, family, sch.killedAt)
    {
      EndFamily(store, family, sch.beforeKill, sch.killedAt);
    }

    /**
      Exchanges a refresh token. `seen` is the row that the presented hash found,
      and `read` the table it was found in.
      Whatever the others do: tokens are given only to the winner of exactly one
      compare-and-swap on a live session of the presented family, for a token not
      expired; a reuse leaves its family dead; and a token read as revoked, longer
      ago than the grace window, is never honoured.
    */
    method Execute(hash: TokenHash, first: TokenHash, second: TokenHash, expiry: Time, sch: Schedule)
      returns (r: Outcome, seen: Option<Session>, ghost id: SessionId, ghost read: Table)
      requires store.Valid() && sch.Monotone()
      modifies store
      ensures store.Valid() && Later(old(store.sessions), store.sessions)
      ensures |store.log| >= |old(store.log)| && store.log[..|old(store.log)|] == old(store.log)
      ensures seen.None? ==> r.InvalidToken? && NoOwnEvents(store.log, |old(store.log)|)
      ensures seen.None? ==> forall id :: id in old(store.sessions) ==> old(store.sessions)[id].hash != hash
      // what is answered and what is stored, as functions of what was stored and of the others' doings
      ensures var m := Meddled(old(store.Content()), sch.beforeFind);
              && read == m.sessions
              && (seen.None? ==> store.Content() == m && forall x :: x in read ==> read[x].hash != hash)
              && (seen.Some? ==> id in read && read[id] == seen.value && read[id].hash == hash
                                 && Answer(Some(r), store.Content()) ==
                                     Exchanged(users, m, id, first, second, expiry, sch))
      ensures Later(old(store.sessions), read) && Later(read, store.sessions)
      ensures seen.Some? ==> WasRead(read, hash, seen.value) && IsRowOf(store.sessions, hash, seen.value)
      ensures seen.Some? ==>
        Decided(store.sessions, store.log, |old(store.log)|, users, seen.value, first, second, expiry, sch, r)
      ensures seen.Some? && seen.value.revokedAt.Some? && sch.graceAt - seen.value.revokedAt.value > 10_000 ==>
          r.ReusedToken?
      // what was already revoked for longer than the window when the call began
      ensures var t := old(store.sessions);
              forall id :: RevokedBeyondWindow(t, id, hash, sch.graceAt) && OnlyOne(store.sessions, id, hash) ==>
                             r.ReusedToken? && Dead(store.sessions, t[id].family)
      ensures sch.Quiet() && AllUsersExist(old(store.sessions)) ==>
        (r.Tokens? <==> seen.Some? && if seen.value.Live() then sch.decidedAt < seen.value.expiresAt
                                      else Continues(old(store.sessions), seen.value, sch))
    {
      store.Interfere(sch.beforeFind);
      ghost var l := store.log;
      read := store.sessions;
      var found := store.FindByHash(hash);
      if found.None? {
        return InvalidToken, None, 0, read;
      }
      id := found.value;
      seen := Some(store.sessions[found.value]);
      r := Exchange(found.value, seen.value, first, second, expiry, sch);
      LaterTransitive(old(store.sessions), read, store.sessions);
      DecidedFrom(l, store.sessions, store.log, |old(store.log)|, users, seen.value, first, second, expiry, sch, r);
    }

    /** The decision on a session that was found. */
    method Exchange(id: SessionId, row: Session, first: TokenHash, second: TokenHash, expiry: Time, sch: Schedule)
      returns (r: Outcome)
      requires store.Valid() && id in store.sessions && store.sessions[id] == row && sch.Monotone()
      modifies store
      ensures store.Valid() && Later(old(store.sessions), store.sessions)
      ensures |store.log| >= |old(store.log)| && store.log[..|old(store.log)|] == old(store.log)
      ensures Answer(Some(r), store.Content()) == Exchanged(users, old(store.Content()), id, first, second, expiry, sch)
      ensures Decided(store.sessions, store.log, |old(store.log)|, users, row, first, second, expiry, sch, r)
      ensures row.revokedAt.Some? && sch.graceAt - row.revokedAt.value > 10_000 ==> r.ReusedToken?
      ensures sch.Quiet() && AllUsersExist(old(store.sessions)) ==>
        (r.Tokens? <==> if row.Live() then sch.decidedAt < row.expiresAt else Continues(old(store.sessions), row, sch))
    {
      if !row.Live() {
        r := Fallback(row, second, expiry, sch);
        return;
      }
      if row.expiresAt <= sch.decidedAt {
        return InvalidToken;
      }
      var won := TryRotation(id, row, first, expiry, sch.beforeRotation, sch.rotatedAt);
      if won {
        r := Sign(row.user, first);
        return;
      }
      ghost var t, l := store.sessions, store.log;
      BelongsLater(old(store.sessions), t, row);
      r := Fallback(row, second, expiry, sch);
      LaterTransitive(old(store.sessions), t, store.sessions);
      SettledFrom(l, store.sessions, store.log, |old(store.log)|, users, row, second, expiry, sch, r);
    }

    /** A token found revoked, or whose swap was lost: a concurrent twin, or a reuse. */
    method Fallback(row: Session, second: TokenHash, expiry: Time, sch: Schedule) returns (r: Outcome)
      requires store.Valid() && Belongs(store.sessions, row) && sch.Monotone()
      modifies store
      ensures store.Valid() && Later(old(store.sessions), store.sessions)
      ensures Answer(Some(r), store.Content()) == Fallen(users, old(store.Content()), row, second, expiry, sch)
      ensures |store.log| >= |old(store.log)| && store.log[..|old(store.log)|] == old(store.log)
      ensures Settled(store.sessions, store.log, |old(store.log)|, users, row, second, expiry, sch, r)
      ensures row.revokedAt.Some? && sch.graceAt - row.revokedAt.value > 10_000 ==> r.ReusedToken?
      ensures sch.Quiet() && AllUsersExist(old(store.sessions)) ==>
          (r.Tokens? <==> Continues(old(store.sessions), row, sch))
    {
      var continued := ContinueAsConcurrent(row, second, expiry, sch);
      if continued.Some? {
        return continued.value;
      }
      ghost var t, l := store.sessions, store.log;
      BelongsLater(old(store.sessions), t, row);
      KillFamily(row.family, sch);
      LaterTransitive(old(store.sessions), t, store.sessions);
      StillOnlyOwn(l, store.log, |old(store.log)|);
      r := ReusedToken;
    }

    ghost predicate AllUsersExist(t: Table) {
      forall id :: id in t ==> t[id].user in users
    }
  }

  /**
    The verdict on a presented session. Tokens are its own user's, who still exists; all
    that the call did is one swap, of that session while it was live and unexpired or of
    the family's live one, for a session stored live until `expiry` under the hash that is
    answered. A reuse leaves the family dead. An invalid token was expired and changed
    nothing, or else its account vanished after such a swap.
  */
  ghost predicate Decided(t: Table, log: seq<Event>, from: nat, users: set<UserId>, seen: Session, first: TokenHash,
                          second: TokenHash, expiry: Time, sch: Schedule, r: Outcome)
  {
    || (seen.Live() && sch.decidedAt < seen.expiresAt
        && WonOnce(log, from, seen, Session(seen.user, seen.family, first, expiry, None), sch.rotatedAt)
        && IsStored(t, Session(seen.user, seen.family, first, expiry, None))
        && r == if seen.user in users then Tokens(seen.user, first) else InvalidToken)
    || ((r.Tokens? ==> sch.decidedAt < seen.expiresAt) && Settled(t, log, from, users, seen, second, expiry, sch, r))
  }

  lemma DecidedFrom(before: seq<Event>, t: Table, log: seq<Event>, from: nat, users: set<UserId>, seen: Session,
                    first: TokenHash, second: TokenHash, expiry: Time, sch: Schedule, r: Outcome)
    requires from <= |before| <= |log| && log[..|before|] == before && NoOwnEvents(before, from)
    requires Decided(t, log, |before|, users, seen, first, second, expiry, sch, r)
    ensures Decided(t, log, from, users, seen, first, second, expiry, sch, r)
  {
    StillOnlyOwn(before, log, from);
  }

  /** Some row has this hash, the columns of `seen` that never change, and its revocation if `seen` had one. */
  ghost predicate IsRowOf(t: Table, hash: TokenHash, seen: Session) {
    exists id :: id in t && t[id].hash == hash && seen.hash == hash
      && t[id].user == seen.user && t[id].family == seen.family && t[id].expiresAt == seen.expiresAt
      && (seen.revokedAt.Some? ==> t[id].revokedAt == seen.revokedAt)
  }

  /** `seen` is a row of this table, as it stood, with this hash. */
  ghost predicate WasRead(t: Table, hash: TokenHash, seen: Session) {
    seen.hash == hash && exists id :: id in t && t[id] == seen
  }

  /** The session of this hash was revoked more than the grace window before `at`. */
  ghost predicate RevokedBeyondWindow(t: Table, id: SessionId, hash: TokenHash, at: Time) {
    id in t && t[id].hash == hash && t[id].revokedAt.Some? && at - t[id].revokedAt.value > 10_000
  }

  /** Hashes of random tokens: no other session has this one. */
  ghost predicate OnlyOne(t: Table, id: SessionId, hash: TokenHash) {
    forall x :: x in t && t[x].hash == hash ==> x == id
  }

  /** Closes the device of the presented token: its whole family. An unknown token is not an error. */
  method Logout(store: Store, hash: TokenHash, beforeFind: seq<Other>, beforeKill: seq<Other>, at: Time)
    returns (seen: Option<Session>)
    requires store.Valid()
    modifies store
    ensures var found := Meddled(old(store.Content()), beforeFind);
            store.Content() == if seen.None? then found else Meddled(found, beforeKill).Killed(seen.value.family, at)
    ensures seen.Some? ==> KilledOnce(store.log, |old(store.log)|, seen.value.family, at)
    ensures store.Valid() && Later(old(store.sessions), store.sessions)
    ensures seen.Some? ==> IsRowOf(store.sessions, hash, seen.value) && Dead(store.sessions, seen.value.family)
    ensures seen.None? ==> forall id :: id in old(store.sessions) ==> old(store.sessions)[id].hash != hash
    ensures seen.None? ==> NoOwnEvents(store.log, |old(store.log)|)
  {
    store.Interfere(beforeFind);
    var id := store.FindByHash(hash);
    if id.None? {
      return None;
    }
    seen := Some(store.sessions[id.value]);
    ghost var t, l := store.sessions, store.log;
    EndFamily(store, seen.value.family, beforeKill, at);
    LaterTransitive(old(store.sessions), t, store.sessions);
    StillOnlyOwn(l, store.log, |old(store.log)|);
  }

  /** The family has a live session that has not expired. */
  ghost predicate HasSuccessor(t: Table, family: FamilyId, at: Time) {
    exists id :: id in t && t[id].family == family && t[id].Live() && at < t[id].expiresAt
  }

  /** The grace window applies to `seen` in a store nobody else touches. */
  ghost predicate Continues(t: Table, seen: Session, sch: Schedule) {
    && (seen.revokedAt.Some? ==> sch.graceAt - seen.revokedAt.value <= 10_000)
    && sch.graceAt < seen.expiresAt && HasSuccessor(t, seen.family, sch.pickedAt)
  }

  /**
    The answer to a token found revoked, or whose swap was lost: tokens for the user who won the swap
    of the family's live session, with a token unexpired when it was looked at; an invalid
    token changed nothing, unless the account vanished after the swap; after a reuse the
    family is dead.
  */
  ghost predicate Settled(t: Table, log: seq<Event>, from: nat, users: set<UserId>, seen: Session, second: TokenHash,
                          expiry: Time, sch: Schedule, r: Outcome)
  {
    var issued := Session(seen.user, seen.family, second, expiry, None);
    var won := sch.graceAt < seen.expiresAt && SuccessorWonOnce(log, from, issued, sch) && IsStored(t, issued);
    match r
    case Tokens(user, given) => won && user == seen.user && user in users && given == second
    case InvalidToken => (seen.expiresAt <= sch.graceAt && NoOwnEvents(log, from)) || (won && seen.user !in users)
    case ReusedToken => Dead(t, seen.family) && KilledOnce(log, from, seen.family, sch.killedAt)
  }

  lemma SettledFrom(before: seq<Event>, t: Table, log: seq<Event>, from: nat, users: set<UserId>, seen: Session,
                    second: TokenHash, expiry: Time, sch: Schedule, r: Outcome)
    requires from <= |before| <= |log| && log[..|before|] == before && NoOwnEvents(before, from)
    requires Settled(t, log, |before|, users, seen, second, expiry, sch, r)
    ensures Settled(t, log, from, users, seen, second, expiry, sch, r)
  {
    StillOnlyOwn(before, log, from);
  }

  /** The grace path wins its swap: it finds a live, unexpired session of the family, still live when it rotates it. */
  ghost predicate SuccessorWins(m: Memory, family: FamilyId, sch: Schedule) {
    var found := Meddled(m, sch.beforeFindLive);
    var live := LiveIn(found.sessions, family);
    && live.Some? && sch.pickedAt < found.sessions[live.value].expiresAt
    && StillLive(Meddled(found, sch.beforeSecondRotation).sessions, live.value)
  }

  /**
    The limit of the window: the test looks at the row as it was read. Whatever the
    others do, a session revoked longer ago than the window escapes being treated as
    reused exactly if it was read while still live, and it has expired or its
    family's successor is won.
  */
  lemma BeyondTheWindowOnlyAStaleRead(users: set<UserId>, m: Memory, stored: Session, read: Session,
                                      second: TokenHash, expiry: Time, sch: Schedule)
    requires BeyondWindow(stored, sch.graceAt)
    requires read == stored || read == stored.(revokedAt := None)
    ensures Fallen(users, m, read, second, expiry, sch).outcome != Some(ReusedToken) <==>
            read.Live() && (stored.expiresAt <= sch.graceAt || SuccessorWins(m, stored.family, sch))
  {
  }

  /**
    Such a run: the session is read live; another request rotates it at instant 0
    before this one's swap, which looks at the clock at 20001. It gets tokens.
  */
  method StaleReadIsHonoured() returns (store: Store, ghost read: Session, r: Outcome)
    ensures store.Valid() && RevokedBeyondWindow(store.sessions, 0, 0, 20001)
    ensures read.Live() && store.sessions[0] == read.RevokedAt(0)
    // the other request's session 1 was rotated in its turn, into the one answered
    ensures 1 in store.sessions && store.sessions[1] == Session(7, 1, 1, 100_000, Some(20001))
    ensures r == Tokens(7, 3) && IsStored(store.sessions, Session(7, 1, 3, 200_000, None))
    ensures exists swapped :: WonOnce(store.log, 1, swapped, Session(7, 1, 3, 200_000, None), 20001)
  {
    store := new Store();
    var useCase := new RefreshUseCase(store, {7});
    store.Create(Session(7, 1, 0, 100_000, None));
    read := store.sessions[0];
    ghost var start := store.Content();
    var twin := Session(7, 1, 1, 100_000, None);
    var sch := Schedule([], -1, [OtherRotation(0, twin, 0)], 1, 20001, [], 20001, [], 20001, [], 20001);
    StaleReadRun(start, read, twin, sch);
    var seen;
    ghost var id, table;
    r, seen, id, table := useCase.Execute(0, 2, 3, 200_000, sch);
  }

  lemma StaleReadRun(m: Memory, row: Session, twin: Session, sch: Schedule)
    requires m == Memory(map[0 := row], 1) && row == Session(7, 1, 0, 100_000, None)
        && twin == Session(7, 1, 1, 100_000, None)
    requires sch == Schedule([], -1, [OtherRotation(0, twin, 0)], 1, 20001, [], 20001, [], 20001, [], 20001)
    ensures var a := Exchanged({7}, m, 0, 2, 3, 200_000, sch);
            && a.outcome == Some(Tokens(7, 3))
            && 0 in a.memory.sessions && a.memory.sessions[0] == row.RevokedAt(0)
            && 1 in a.memory.sessions && a.memory.sessions[1] == twin.RevokedAt(20001)
  {
    var lost := Memory(map[0 := row.RevokedAt(0), 1 := twin], 2);
    var others := sch.beforeRotation;
    assert others[..0] == [];
    assert IsChildOf(m.sessions, 0, 1, twin);
    assert m.sessions[0 := row.RevokedAt(0)][1 := twin] == lost.sessions;
    assert m.Swapped(0, twin, 0) == lost;
    assert Meddled(m, others) == Meddle(m, OtherRotation(0, twin, 0)) == lost;
    assert lost.sessions[1].family == 1 && lost.sessions[1].Live() && !lost.sessions[0].Live();
    assert LiveIn(lost.sessions, 1) == Some(1);
  }
}
