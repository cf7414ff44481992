/** The in-memory invitation store and the use cases that write to it. */
module InvitationStore {
  import opened Common
  import opened Invitation
  import opened InvitationLifecycle

  class InvitationRepository {
    var rows: seq<Invitation>
    var knownGuests: set<Id>    // the guests a new invitation may refer to

    ghost predicate Valid() reads this {
      forall i :: 0 <= i < |rows| ==> rows[i].id == i
    }

    constructor (knownGuests: set<Id>)
      ensures Valid() && rows == [] && this.knownGuests == knownGuests
    {
      rows := [];
      this.knownGuests := knownGuests;
    }

    /** `None`: the guest no longer exists. */
    method Create(guest: Id, expiresAt: Time) returns (id: Option<Id>)
      requires Valid()
      modifies this`rows
      ensures Valid()
      ensures id == if guest in knownGuests then Some(|old(rows)|) else None
      ensures rows == if id.None? then old(rows)
                      else old(rows) + [Invitation(id.value, guest, Queued, expiresAt, None, None)]
    {
      if guest !in knownGuests {
        return None;
      }
      id := Some(|rows|);
      rows := rows + [Invitation(|rows|, guest, Queued, expiresAt, None, None)];
    }

    method FindById(id: Id) returns (found: Option<Invitation>)
      requires Valid()
      ensures found == if id < |rows| then Some(rows[id]) else None
    {
      found := if id < |rows| then Some(rows[id]) else None;
    }

    method MarkSent(id: Id, message: Option<MessageId>)
      requires Valid()
      modifies this`rows
      ensures Valid() && rows == ApplyToRows(RowOp.MarkSent(id, message), old(rows))
    {
      if id < |rows| {
        var can := CanAdvance(rows[id].status, Sent);
        if can { rows := rows[id := rows[id].(status := Sent, messageId := message)]; }
      }
    }

    method MarkResponded(id: Id, at: Time) returns (written: bool)
      requires Valid()
      modifies this`rows
      ensures Valid() && rows == ApplyToRows(RowOp.MarkResponded(id, at), old(rows))
      ensures written == (id < |rows| && old(rows)[id].LiveAt(at))
    {
      if id >= |rows| || !rows[id].LiveAt(at) {
        return false;
      }
      rows := rows[id := rows[id].(status := Responded, respondedAt := Some(at))];
      written := true;
    }

    method Expire(id: Id, at: Time)
      requires Valid()
      modifies this`rows
      ensures Valid() && rows == ApplyToRows(RowOp.Expire(id, at), old(rows))
    {
      if id < |rows| {
        rows := rows[id := rows[id].(expiresAt := at)];
      }
    }

    method ExpireLiveOf(guest: Id, at: Time)
      requires Valid()
      modifies this`rows
      ensures Valid() && rows == ApplyToRows(RowOp.ExpireLiveOf(guest, at), old(rows))
    {
      ghost var all := ApplyToRows(RowOp.ExpireLiveOf(guest, at), rows);
      for i := 0 to |rows|
        invariant |rows| == |old(rows)|
        invariant forall k :: 0 <= k < |rows| ==> rows[k] == if k < i then all[k] else old(rows)[k]
      {
        if rows[i].guest == guest && rows[i].expiresAt > at {
          rows := rows[i := rows[i].(expiresAt := at)];
        }
      }
    }

    /** Writes a delivery status where it advances; answers which rows it advanced. */
    method Report(message: MessageId, status: Status) returns (advanced: seq<Id>)
      requires Valid()
      modifies this`rows
      ensures Valid() && rows == ApplyToRows(RowOp.Report(message, status), old(rows))
      ensures advanced == HitList(RowOp.Report(message, status), old(rows), |old(rows)|)
    {
      ghost var op, was := RowOp.Report(message, status), rows;
      advanced := [];
      for i := 0 to |rows|
        invariant AppliedUpTo(op, was, rows, i) && advanced == HitList(op, was, i)
      {
        NextApplied(message, status, was, rows, i);
        var can := CanAdvance(rows[i].status, status);
        if rows[i].messageId == Some(message) && can {
          rows := rows[i := rows[i].(status := status)];
          advanced := advanced + [i];
        }
      }
      AppliedAll(op, was, rows);
    }
  }

  ghost predicate AppliedUpTo(op: RowOp, was: seq<Invitation>, rows: seq<Invitation>, n: nat) {
    |rows| == |was| && forall k :: 0 <= k < |rows| ==> rows[k] == if k < n then Apply(op, was[k]) else was[k]
  }

  lemma AppliedAll(op: RowOp, was: seq<Invitation>, rows: seq<Invitation>)
    requires AppliedUpTo(op, was, rows, |was|) && forall i :: 0 <= i < |was| ==> was[i].id == i
    ensures rows == ApplyToRows(op, was) && forall i :: 0 <= i < |rows| ==> rows[i].id == i
  {
  }

  lemma NextApplied(message: MessageId, status: Status, was: seq<Invitation>, rows: seq<Invitation>, n: nat)
    requires AppliedUpTo(RowOp.Report(message, status), was, rows, n) && n < |was|
    ensures var op := RowOp.Report(message, status);
            var hit := rows[n].messageId == Some(message) && Rank(rows[n].status) < Rank(status);
            && (hit <==> Hits(op, was[n]))
            && AppliedUpTo(op, was, if hit then rows[n := rows[n].(status := status)] else rows, n + 1)
  {
  }

  /** The first `n` rows that the operation hits, in order. */
  function HitList(op: RowOp, was: seq<Invitation>, n: nat): (r: seq<Id>)
    requires n <= |was|
  {
    if n == 0 then [] else HitList(op, was, n - 1) + if Hits(op, was[n - 1]) then [n - 1] else []
  }

  lemma {:induction false} HitListMeaning(op: RowOp, was: seq<Invitation>, n: nat)
    requires n <= |was|
    ensures var hits := HitList(op, was, n);
            && (forall id: Id :: id in hits <==> id < n && Hits(op, was[id]))
            && (forall i :: 0 <= i < |hits| ==> hits[i] < n)
            && (forall i, j :: 0 <= i < j < |hits| ==> hits[i] < hits[j])
  {
    if n > 0 { HitListMeaning(op, was, n - 1); }
  }

  // ---- provider events --------------------------------------------------------

  datatype Notice = Notice(invitation: Id, guest: Id, status: Status)

  /** The notices for the invitations that advanced, in order, except those that could not be queued. */
  function Announced(advanced: seq<Id>, rows: seq<Invitation>, status: Status, queueDown: set<Id>): (r: seq<Notice>)
    requires forall i :: 0 <= i < |advanced| ==> advanced[i] < |rows|
  {
    if advanced == [] then []
    else
      var last := advanced[|advanced| - 1];
      Announced(advanced[..|advanced| - 1], rows, status, queueDown)
      + if last in queueDown then [] else [Notice(last, rows[last].guest, status)]
  }

  lemma {:induction false} AnnouncedExactly(advanced: seq<Id>, rows: seq<Invitation>, status: Status,
                                            queueDown: set<Id>, n: Notice)
    requires forall i :: 0 <= i < |advanced| ==> advanced[i] < |rows|
    ensures n in Announced(advanced, rows, status, queueDown) <==>
            n.invitation in advanced && n.invitation < |rows| && n.invitation !in queueDown
                && n.status == status && n.guest == rows[n.invitation].guest
  {
    if advanced != [] {
      var k := |advanced| - 1;
      assert advanced == advanced[..k] + [advanced[k]];
      AnnouncedExactly(advanced[..k], rows, status, queueDown, n);
    }
  }

  lemma {:induction false} OneNoticeEach(advanced: seq<Id>, rows: seq<Invitation>, status: Status, queueDown: set<Id>)
    requires forall i :: 0 <= i < |advanced| ==> advanced[i] < |rows|
    requires forall i, j :: 0 <= i < j < |advanced| ==> advanced[i] < advanced[j]
    ensures var ns := Announced(advanced, rows, status, queueDown);
            forall i, j :: 0 <= i < j < |ns| ==> ns[i].invitation != ns[j].invitation
  {
    if advanced != [] {
      var k := |advanced| - 1;
      var before := Announced(advanced[..k], rows, status, queueDown);
      OneNoticeEach(advanced[..k], rows, status, queueDown);
      forall i | 0 <= i < |before| ensures before[i].invitation != advanced[k] {
        AnnouncedExactly(advanced[..k], rows, status, queueDown, before[i]);
        assert before[i] in before;
      }
    }
  }

  /** The rows of that message in one of these statuses get the new one; no other row and no other column changes. */
  ghost predicate Moves(message: MessageId, from: set<Status>, to: Status, was: seq<Invitation>,
                        rows: seq<Invitation>, advanced: seq<Id>)
  {
    && |rows| == |was|
    && forall id: nat :: id < |was| ==>
      && (id in advanced <==> was[id].messageId == Some(message) && was[id].status in from)
      && rows[id] == if id in advanced then was[id].(status := to) else was[id]
  }

  /** One notice for each row in the list that can be queued, with the guest and the status that are stored. */
  ghost predicate TellWhatIsStored(notices: seq<Notice>, advanced: seq<Id>, rows: seq<Invitation>, queueDown: set<Id>) {
    forall n :: n in notices <==>
      && n.invitation in advanced && n.invitation !in queueDown && n.invitation < |rows|
      && n.guest == rows[n.invitation].guest && n.status == rows[n.invitation].status
  }

  lemma ReportMoves(message: MessageId, status: Status, was: seq<Invitation>, rows: seq<Invitation>, advanced: seq<Id>)
    requires rows == ApplyToRows(RowOp.Report(message, status), was)
    requires advanced == HitList(RowOp.Report(message, status), was, |was|)
    ensures status == Delivered ==> Moves(message, {Sent, Queued}, Delivered, was, rows, advanced)
    ensures status == Bounced ==> Moves(message, {Delivered, Sent, Queued}, Bounced, was, rows, advanced)
    ensures status == Complained ==> Moves(message, {Delivered, Sent, Queued}, Complained, was, rows, advanced)
    ensures forall i :: 0 <= i < |advanced| ==> advanced[i] < |rows| && rows[advanced[i]].status == status
  {
    var op := RowOp.Report(message, status);
    HitListMeaning(op, was, |was|);
    forall id: nat | id < |was|
      ensures id in advanced <==> was[id].messageId == Some(message) && CanStillGet(was[id].status, status)
      ensures rows[id] == if id in advanced then was[id].(status := status) else was[id]
    {
      WhatEachWriteLeaves(op, was[id]);
    }
    forall i | 0 <= i < |advanced| ensures advanced[i] < |rows| && rows[advanced[i]].status == status {
      assert advanced[i] in advanced;
    }
  }

  lemma AnnouncedTell(advanced: seq<Id>, rows: seq<Invitation>, status: Status, queueDown: set<Id>)
    requires forall i :: 0 <= i < |advanced| ==> advanced[i] < |rows| && rows[advanced[i]].status == status
    ensures TellWhatIsStored(Announced(advanced, rows, status, queueDown), advanced, rows, queueDown)
  {
    forall n: Notice
      ensures n in Announced(advanced, rows, status, queueDown) <==>
              && n.invitation in advanced && n.invitation !in queueDown && n.invitation < |rows|
              && n.guest == rows[n.invitation].guest && n.status == rows[n.invitation].status
    {
      AnnouncedExactly(advanced, rows, status, queueDown, n);
    }
  }

  /**
    Handles one event of the mail provider: one notice for each invitation that
    really advanced. A notice that cannot be queued is dropped; the status stays.
  */
  method HandleDeliveryEvent(repo: InvitationRepository, event: EventType, message: MessageId, queueDown: set<Id>)
    returns (notices: seq<Notice>, ghost advanced: seq<Id>)
    requires repo.Valid()
    modifies repo`rows
    ensures repo.Valid()
    ensures StatusOfEvent(event).None? ==> repo.rows == old(repo.rows) && notices == []
    ensures StatusOfEvent(event).Some? ==>
      var op := RowOp.Report(message, StatusOfEvent(event).value);
      && repo.rows == ApplyToRows(op, old(repo.rows))
      && (forall id: Id :: id in advanced <==> id < |repo.rows| && Hits(op, old(repo.rows)[id]))
      && (forall i, j :: 0 <= i < j < |advanced| ==> advanced[i] < advanced[j])
      && (forall i :: 0 <= i < |advanced| ==> advanced[i] < |repo.rows|)
      && notices == Announced(advanced, repo.rows, op.status, queueDown)
    // kind by kind: which rows move, and where to
    ensures event == OtherEvent ==> advanced == []
    ensures event == EmailDelivered ==> Moves(message, {Sent, Queued}, Delivered, old(repo.rows), repo.rows, advanced)
    ensures event == EmailBounced ==>
      Moves(message, {Delivered, Sent, Queued}, Bounced, old(repo.rows), repo.rows, advanced)
    ensures event == EmailComplained ==>
      Moves(message, {Delivered, Sent, Queued}, Complained, old(repo.rows), repo.rows, advanced)
    // each notice tells the guest and the status that are stored
    ensures TellWhatIsStored(notices, advanced, repo.rows, queueDown)
  {
    var status := StatusOfEvent(event);
    notices, advanced := [], [];
    if status.None? {
      return;
    }
    HitListMeaning(RowOp.Report(message, status.value), repo.rows, |repo.rows|);
    ghost var was := repo.rows;
    var moved := repo.Report(message, status.value);
    advanced := moved;
    ReportMoves(message, status.value, was, repo.rows, moved);
    AnnouncedTell(moved, repo.rows, status.value, queueDown);
    for i := 0 to |moved|
      invariant notices == Announced(moved[..i], repo.rows, status.value, queueDown)
    {
      assert moved[..i + 1][..i] == moved[..i];
      if moved[i] !in queueDown {
        notices := notices + [Notice(moved[i], repo.rows[moved[i]].guest, status.value)];
      }
    }
    assert moved[..|moved|] == moved;
  }
}
