/**
  A guest's invitation: a status that only advances along its rank, and an
  expiry. Everything the repository writes to existing rows is one of five row
  operations; what any run of them can do to one invitation is proved here.
*/
module Invitation {
  import opened Common

  type Id = nat
  type MessageId = nat
  type Time = int

  const VALIDITY_MS: Time := 90 * 86_400_000

  datatype Status = Queued | Sent | Delivered | Bounced | Complained | Responded

  function Rank(s: Status): (r: nat) {
    match s
    case Queued => 0
    case Sent => 1
    case Delivered => 2
    case Bounced => 3
    case Complained => 3
    case Responded => 4
  }

  const ALL_STATUSES: seq<Status> := [Queued, Sent, Delivered, Bounced, Complained, Responded]

  /** The list that goes into the UPDATE's WHERE clause. */
  function StatusesBelow(all: seq<Status>, limit: nat): (r: seq<Status>) {
    if all == [] then []
    else (if Rank(all[0]) < limit then [all[0]] else []) + StatusesBelow(all[1..], limit)
  }

  function StatusesThatCanAdvanceTo(s: Status): (r: seq<Status>) {
    StatusesBelow(ALL_STATUSES, Rank(s))
  }

  lemma {:induction false} StatusesBelowExactly(all: seq<Status>, limit: nat, from: Status)
    ensures from in StatusesBelow(all, limit) <==> from in all && Rank(from) < limit
  {
    if all != [] {
      StatusesBelowExactly(all[1..], limit, from);
    }
  }

  lemma AdvancesExactlyUpwards(from: Status, to: Status)
    ensures from in StatusesThatCanAdvanceTo(to) <==> Rank(from) < Rank(to)
  {
    StatusesBelowExactly(ALL_STATUSES, Rank(to), from);
    assert ALL_STATUSES[0] == Queued && ALL_STATUSES[1] == Sent && ALL_STATUSES[2] == Delivered;
    assert ALL_STATUSES[3] == Bounced && ALL_STATUSES[4] == Complained && ALL_STATUSES[5] == Responded;
  }

  /** The status part of the WHERE clause. */
  method CanAdvance(from: Status, to: Status) returns (can: bool)
    ensures can <==> Rank(from) < Rank(to)
  {
    AdvancesExactlyUpwards(from, to);
    can := from in StatusesThatCanAdvanceTo(to);
  }

  datatype Invitation = Invitation(
    id: Id, guest: Id, status: Status, expiresAt: Time, respondedAt: Option<Time>, messageId: Option<MessageId>)
  {
    /** The token opens the invitation. */
    predicate LiveAt(now: Time) { expiresAt > now }
  }

  // ---- row operations -----------------------------------------------------

  datatype RowOp =
    | MarkSent(id: Id, sentAs: Option<MessageId>)
    | MarkResponded(id: Id, at: Time)
    | Expire(id: Id, at: Time)
    | ExpireLiveOf(guest: Id, at: Time)
    | Report(message: MessageId, status: Status)   // a delivery event of the mail provider

  /** The row meets the WHERE clause of the write. */
  predicate Hits(op: RowOp, r: Invitation) {
    match op
    case MarkSent(id, _) => r.id == id && Rank(r.status) < Rank(Sent)
    case MarkResponded(id, at) => r.id == id && r.LiveAt(at)
    case Expire(id, _) => r.id == id
    case ExpireLiveOf(guest, at) => r.guest == guest && r.LiveAt(at)
    case Report(message, status) => r.messageId == Some(message) && Rank(r.status) < Rank(status)
  }

  function Apply(op: RowOp, r: Invitation): (result: Invitation) {
    if !Hits(op, r) then r
    else match op
      case MarkSent(_, message) => r.(status := Sent, messageId := message)
      case MarkResponded(_, at) => r.(status := Responded, respondedAt := Some(at))
      case Expire(_, at) => r.(expiresAt := at)
      case ExpireLiveOf(_, at) => r.(expiresAt := at)
      case Report(_, status) => r.(status := status)
  }

  /** The row is one that a report of this status moves: not there yet, and no answer or ending in the way. */
  predicate CanStillGet(from: Status, status: Status) {
    match status
    case Queued => false
    case Sent => from == Queued
    case Delivered => from == Queued || from == Sent
    case Bounced => from == Queued || from == Sent || from == Delivered
    case Complained => from == Queued || from == Sent || from == Delivered
    case Responded => from != Responded
  }

  /** What each write leaves, status by status and column by column. */
  lemma WhatEachWriteLeaves(op: RowOp, r: Invitation)
    ensures var s := Apply(op, r);
            && s.id == r.id && s.guest == r.guest
            && match op
               case MarkSent(id, message) =>
                 if r.id == id && r.status == Queued then
                   s.status == Sent && s.messageId == message && s.(status := r.status, messageId := r.messageId) == r
                 else s == r
               case MarkResponded(id, at) =>
                 if r.id == id && at < r.expiresAt then
                   && s.status == Responded && s.respondedAt == Some(at)
                   && s.(status := r.status, respondedAt := r.respondedAt) == r
                 else s == r
               case Expire(id, at) =>
                 if r.id == id then s.expiresAt == at && s.(expiresAt := r.expiresAt) == r else s == r
               case ExpireLiveOf(guest, at) =>
                 if r.guest == guest && at < r.expiresAt then s.expiresAt == at && s.(expiresAt := r.expiresAt) == r
                 else s == r
               case Report(message, status) =>
                 if r.messageId == Some(message) && CanStillGet(r.status, status) then
                   s.status == status && s.(status := r.status) == r
                 else s == r
  {
  }

  function ApplyAll(ops: seq<RowOp>, r: Invitation): (result: Invitation) {
    if ops == [] then r else ApplyAll(ops[1..], Apply(ops[0], r))
  }

  /** The status never goes back, and the message id, once a mail went out, never changes. */
  lemma ApplyAdvances(op: RowOp, r: Invitation)
    ensures Rank(r.status) <= Rank(Apply(op, r).status)
    ensures Rank(r.status) > 0 ==> Apply(op, r).messageId == r.messageId
    ensures Apply(op, r).id == r.id && Apply(op, r).guest == r.guest
  {
  }

  lemma {:induction false} RankNeverDecreases(ops: seq<RowOp>, r: Invitation)
    ensures Rank(r.status) <= Rank(ApplyAll(ops, r).status)
    ensures r.status == Responded ==> ApplyAll(ops, r).status == Responded
    ensures Rank(r.status) > 0 ==> ApplyAll(ops, r).messageId == r.messageId
  {
    if ops != [] {
      ApplyAdvances(ops[0], r);
      RankNeverDecreases(ops[1..], Apply(ops[0], r));
    }
  }

  /** Writes made at instants up to `now` never bring a dead token back. */
  lemma {:induction false} DeadStaysDead(ops: seq<RowOp>, r: Invitation, now: Time)
    requires !r.LiveAt(now)
    requires forall op :: op in ops ==> ((op.Expire? || op.ExpireLiveOf?) ==> op.at <= now)
    ensures !ApplyAll(ops, r).LiveAt(now)
  {
    if ops != [] {
      DeadStaysDead(ops[1..], Apply(ops[0], r), now);
    }
  }

  // ---- delivery events ------------------------------------------------------

  datatype EventType = EmailDelivered | EmailBounced | EmailComplained | OtherEvent

  /** What a provider event does to us; every other kind is ignored. */
  function StatusOfEvent(e: EventType): (r: Option<Status>) {
    match e
    case EmailDelivered => Some(Delivered)
    case EmailBounced => Some(Bounced)
    case EmailComplained => Some(Complained)
    case OtherEvent => None
  }

  /** The writes caused by events about one message. */
  function Reports(message: MessageId, events: seq<EventType>): (r: seq<RowOp>) {
    if events == [] then []
    else match StatusOfEvent(events[0])
      case None => Reports(message, events[1..])
      case Some(s) => [Report(message, s)] + Reports(message, events[1..])
  }

  /** How far an event can take an invitation: a delivery to 2, an ending to 3. */
  function EventRank(e: EventType): (r: nat) {
    match e
    case EmailDelivered => 2
    case EmailBounced => 3
    case EmailComplained => 3
    case OtherEvent => 0
  }

  /**
    Whatever events arrive about a sent invitation, in whatever order and
    however often, its rank ends as the maximum of its own and theirs.
  */
  lemma {:induction false} FinalRankIsTheMaximum(message: MessageId, events: seq<EventType>, r: Invitation)
    requires r.messageId == Some(message)
    ensures var final := Rank(ApplyAll(Reports(message, events), r).status);
            && final >= Rank(r.status) && (forall e :: e in events ==> final >= EventRank(e))
            && (final == Rank(r.status) || exists e :: e in events && final == EventRank(e))
  {
    if events != [] {
      var rest := events[1..];
      match StatusOfEvent(events[0])
      case None =>
        FinalRankIsTheMaximum(message, rest, r);
      case Some(s) =>
        var op := Report(message, s);
        assert Reports(message, events)[1..] == Reports(message, rest);
        FinalRankIsTheMaximum(message, rest, Apply(op, r));
        assert Rank(Apply(op, r).status) == Rank(r.status) || Rank(Apply(op, r).status) == EventRank(events[0]);
      assert forall e :: e in events <==> e == events[0] || e in rest;
    }
  }

  /** Reordering and repeating the events changes nothing about the rank reached. */
  lemma OrderAndRepetitionDoNotMatter(message: MessageId, events: seq<EventType>, others: seq<EventType>, r: Invitation)
    requires r.messageId == Some(message)
    requires forall e :: e in events <==> e in others
    ensures Rank(ApplyAll(Reports(message, events), r).status) == Rank(ApplyAll(Reports(message, others), r).status)
  {
    FinalRankIsTheMaximum(message, events, r);
    FinalRankIsTheMaximum(message, others, r);
  }

  /** An event of this kind comes, before any of the other kind. */
  ghost predicate ComesFirst(events: seq<EventType>, one: EventType, other: EventType) {
    exists i :: 0 <= i < |events| && events[i] == one && forall j :: 0 <= j < i ==> events[j] != other
  }

  lemma ComesFirstInRest(events: seq<EventType>, one: EventType, other: EventType)
    requires events != [] && one != other
    ensures ComesFirst(events, one, other) <==>
            events[0] == one || (events[0] != other && ComesFirst(events[1..], one, other))
  {
    if ComesFirst(events, one, other) && events[0] != one {
      var i :| 0 <= i < |events| && events[i] == one && forall j :: 0 <= j < i ==> events[j] != other;
      assert events[1..][i - 1] == one && forall j :: 0 <= j < i - 1 ==> events[1..][j] == events[j + 1];
    }
    if events[0] != one && events[0] != other && ComesFirst(events[1..], one, other) {
      var i :| 0 <= i < |events[1..]| && events[1..][i] == one && forall j :: 0 <= j < i ==> events[1..][j] != other;
      assert events[i + 1] == one && forall j :: 0 < j < i + 1 ==> events[j] == events[1..][j - 1];
    }
  }

  /** A bounce or a complaint is the end of it, and so is an answer. */
  lemma {:induction false} EndedStaysEnded(message: MessageId, events: seq<EventType>, r: Invitation)
    requires r.status == Bounced || r.status == Complained || r.status == Responded
    ensures ApplyAll(Reports(message, events), r) == r
  {
    if events != [] {
      EndedStaysEnded(message, events[1..], r);
      match StatusOfEvent(events[0])
      case None =>
      case Some(s) => assert Reports(message, events)[1..] == Reports(message, events[1..]);
    }
  }

  /**
    Where the events about a mail that left take its invitation, in whatever order they
    arrive: it ends bounced if and only if a bounce came before any complaint, complained
    if and only if a complaint came before any bounce, else delivered if it was or a
    delivery came, and otherwise where it was. No other column changes.
  */
  lemma {:induction false} FinalStatus(message: MessageId, events: seq<EventType>, r: Invitation)
    requires r.messageId == Some(message) && (r.status == Sent || r.status == Delivered)
    ensures var final := ApplyAll(Reports(message, events), r);
            && final.(status := r.status) == r
            && (final.status == Bounced <==> ComesFirst(events, EmailBounced, EmailComplained))
            && (final.status == Complained <==> ComesFirst(events, EmailComplained, EmailBounced))
            && (final.status == Delivered <==>
                  && (r.status == Delivered || EmailDelivered in events)
                  && EmailBounced !in events && EmailComplained !in events)
            && (final.status == Sent <==>
                  && r.status == Sent && EmailDelivered !in events
                  && EmailBounced !in events && EmailComplained !in events)
  {
    if events != [] {
      var first, rest := events[0], events[1..];
      assert forall e :: e in events <==> e == first || e in rest;
      ComesFirstInRest(events, EmailBounced, EmailComplained);
      ComesFirstInRest(events, EmailComplained, EmailBounced);
      if first == OtherEvent {
        FinalStatus(message, rest, r);
      } else {
        var next := Apply(Report(message, StatusOfEvent(first).value), r);
        assert Reports(message, events)[1..] == Reports(message, rest);
        if first == EmailDelivered { FinalStatus(message, rest, next); } else { EndedStaysEnded(message, rest, next); }
      }
    }
  }

  // ---- notices ----------------------------------------------------------------

  /** The delivery notices sent to the planners while `ops` run: one for each report that advances the row. */
  function Notices(ops: seq<RowOp>, r: Invitation): (result: seq<Status>) {
    if ops == [] then []
    else (if ops[0].Report? && Hits(ops[0], r) then [ops[0].status] else []) + Notices(ops[1..], Apply(ops[0], r))
  }

  predicate IsDeliveryStatus(s: Status) {
    s.Delivered? || s.Bounced? || s.Complained?
  }

  lemma FirstNotice(ops: seq<RowOp>, r: Invitation)
    requires ops != []
    ensures var rest, next := Notices(ops[1..], Apply(ops[0], r)), Apply(ops[0], r).status;
            || Notices(ops, r) == rest
            || (Notices(ops, r) == [next] + rest && Rank(next) > Rank(r.status) && ops[0].Report?
                && ops[0].status == next)
  {
  }

  lemma {:induction false} NoticesClimb(ops: seq<RowOp>, r: Invitation)
    ensures forall i :: 0 <= i < |Notices(ops, r)| ==> Rank(Notices(ops, r)[i]) > Rank(r.status)
    ensures forall i, j :: 0 <= i < j < |Notices(ops, r)| ==> Rank(Notices(ops, r)[i]) < Rank(Notices(ops, r)[j])
  {
    if ops != [] {
      FirstNotice(ops, r);
      ApplyAdvances(ops[0], r);
      NoticesClimb(ops[1..], Apply(ops[0], r));
    }
  }

  lemma {:induction false} NoticesAreOfDelivery(ops: seq<RowOp>, r: Invitation)
    requires forall op :: op in ops && op.Report? ==> IsDeliveryStatus(op.status)
    ensures forall s :: s in Notices(ops, r) ==> IsDeliveryStatus(s)
  {
    if ops != [] {
      FirstNotice(ops, r);
      NoticesAreOfDelivery(ops[1..], Apply(ops[0], r));
    }
  }

  lemma {:induction false} ClimbsByOne(n: seq<Status>, i: nat)
    requires i < |n| && forall i, j :: 0 <= i < j < |n| ==> Rank(n[i]) < Rank(n[j])
    ensures Rank(n[i]) >= Rank(n[0]) + i
  {
    if i > 0 {
      ClimbsByOne(n, i - 1);
      assert Rank(n[i - 1]) < Rank(n[i]);
    }
  }

  /**
    However reports, sends, replies and expiries interleave, an invitation gives
    rise to at most two notices: perhaps a delivery, then perhaps a bounce or a
    complaint, never both of these.
  */
  lemma AtMostTwoNotices(ops: seq<RowOp>, r: Invitation)
    requires forall op :: op in ops && op.Report? ==> IsDeliveryStatus(op.status)
    ensures |Notices(ops, r)| <= 2
    ensures |Notices(ops, r)| == 2 ==> Notices(ops, r)[0] == Delivered
    ensures !(Bounced in Notices(ops, r) && Complained in Notices(ops, r))
  {
    NoticesClimb(ops, r);
    NoticesAreOfDelivery(ops, r);
    var n := Notices(ops, r);
    if n != [] {
      assert IsDeliveryStatus(n[0]) && IsDeliveryStatus(n[|n| - 1]);
      ClimbsByOne(n, |n| - 1);
    }
  }
}
