/** Sending invitations, one guest or a whole event, and changing a guest. */
module InvitationSending {
  import opened Common
  import opened Invitation
  import opened InvitationLifecycle
  import opened InvitationStore

  datatype Reason = NoEmail | AlreadyResponded | EnqueueFailed

  datatype Recipient = Recipient(id: Id, hasEmail: bool, answered: bool)

  /** What one send meets: the instants it reads the clock at, and whether the queue takes the job. */
  datatype Turn = Turn(endsAt: Time, createsAt: Time, queueDown: bool)

  datatype Enqueued = Enqueued(guest: Id, invitation: Id)
  datatype Skipped = Skipped(guest: Id, reason: Reason)

  /** The guest's earlier tokens die before the new one is born; with no such guest it is not born at all. */
  function RowsAfterSend(rows: seq<Invitation>, known: set<Id>, guest: Id, turn: Turn): (r: seq<Invitation>) {
    var created := Invitation(|rows|, guest, Status.Queued, turn.createsAt + VALIDITY_MS, None, None);
    ApplyToRows(RowOp.ExpireLiveOf(guest, turn.endsAt), rows) + if guest in known then [created] else []
  }

  method EnqueueInvitation(repo: InvitationRepository, guest: Id, turn: Turn) returns (id: Option<Id>)
    requires repo.Valid()
    modifies repo`rows
    ensures repo.Valid() && repo.rows == RowsAfterSend(old(repo.rows), repo.knownGuests, guest, turn)
    ensures id == if guest in repo.knownGuests && !turn.queueDown then Some(|old(repo.rows)|) else None
  {
    repo.ExpireLiveOf(guest, turn.endsAt);
    var created := repo.Create(guest, turn.createsAt + VALIDITY_MS);
    id := if turn.queueDown then None else created;
  }

  /** A send with nobody in between is the two steps that a send is over time, one after the other. */
  lemma SendIsItsTwoSteps(s: State, guest: Id, turn: Turn)
    requires Enabled(s, SendExpires(guest, turn.endsAt)) && turn.createsAt <= s.now && guest in s.addresses
    ensures var s' := Next(s, SendExpires(guest, turn.endsAt));
            && Enabled(s', SendCreates(guest, turn.createsAt))
            && Next(s', SendCreates(guest, turn.createsAt)).rows ==
               RowsAfterSend(s.rows, s.addresses.Keys, guest, turn)
            && Next(s', SendCreates(guest, turn.createsAt)).sending == s.sending
  {
  }

  /** Why a guest is left out of the batch; `None` if they get an invitation. */
  function LeftOut(g: Recipient, known: set<Id>, turn: Turn): (r: Option<Reason>) {
    if !g.hasEmail then Some(NoEmail)
    else if g.answered then Some(AlreadyResponded)
    else if g.id !in known || turn.queueDown then Some(EnqueueFailed)
    else None
  }

  predicate Eligible(g: Recipient) { g.hasEmail && !g.answered }

  /** Only the newly created token, if any, opens the guest's invitation from then on. */
  ghost predicate OnlyTheNewToken(rows: seq<Invitation>, guest: Id, turn: Turn, created: bool) {
    && (forall j, k :: 0 <= j < k < |rows| && rows[j].guest == guest && rows[k].guest == guest ==>
        !rows[j].LiveAt(turn.endsAt))
    && (!created ==> forall j :: 0 <= j < |rows| && rows[j].guest == guest ==> !rows[j].LiveAt(turn.endsAt))
    && (created ==>
        exists j :: 0 <= j < |rows|
            && rows[j] == Invitation(j, guest, Status.Queued, turn.createsAt + 90 * 24 * 60 * 60 * 1000, None, None))
  }

  lemma SendLeavesOneToken(rows: seq<Invitation>, known: set<Id>, guest: Id, turn: Turn)
    ensures OnlyTheNewToken(RowsAfterSend(rows, known, guest, turn), guest, turn, guest in known)
  {
    var after := RowsAfterSend(rows, known, guest, turn);
    if guest in known {
      assert after[|rows|] == Invitation(|rows|, guest, Status.Queued, turn.createsAt + VALIDITY_MS, None, None);
    }
  }

  /** A send to somebody else touches none of the guest's rows. */
  lemma OthersKeepTheirToken(rows: seq<Invitation>, known: set<Id>, other: Id, turn: Turn, guest: Id, mine: Turn,
                             created: bool)
    requires OnlyTheNewToken(rows, guest, mine, created) && guest != other
    ensures OnlyTheNewToken(RowsAfterSend(rows, known, other, turn), guest, mine, created)
  {
    var after := RowsAfterSend(rows, known, other, turn);
    assert forall j :: 0 <= j < |rows| && rows[j].guest == guest ==> after[j] == rows[j];
    assert forall j :: 0 <= j < |after| && after[j].guest == guest ==> j < |rows| && rows[j].guest == guest;
    if created {
      var j :| 0 <= j < |rows|
          && rows[j] == Invitation(j, guest, Status.Queued, mine.createsAt + VALIDITY_MS, None, None);
      assert after[j] == rows[j];
    }
  }

  /** The first `n` guests have been dealt with. */
  ghost predicate TokensSoFar(rows: seq<Invitation>, known: set<Id>, guests: seq<Recipient>, turns: seq<Turn>, n: nat)
    requires |turns| == |guests|
  {
    forall k :: 0 <= k < n <= |guests| && Eligible(guests[k]) ==>
        OnlyTheNewToken(rows, guests[k].id, turns[k], guests[k].id in known)
  }

  lemma TokensAfterSend(rows: seq<Invitation>, known: set<Id>, guests: seq<Recipient>, turns: seq<Turn>, n: nat)
    requires |turns| == |guests| && n < |guests| && TokensSoFar(rows, known, guests, turns, n)
    requires forall i, j :: 0 <= i < j < |guests| ==> guests[i].id != guests[j].id
    ensures TokensSoFar(RowsAfterSend(rows, known, guests[n].id, turns[n]), known, guests, turns, n + 1)
  {
    SendLeavesOneToken(rows, known, guests[n].id, turns[n]);
    forall k | 0 <= k < n && Eligible(guests[k])
      ensures var after := RowsAfterSend(rows, known, guests[n].id, turns[n]);
              OnlyTheNewToken(after, guests[k].id, turns[k], guests[k].id in known)
    {
      OthersKeepTheirToken(rows, known, guests[n].id, turns[n], guests[k].id, turns[k], guests[k].id in known);
    }
  }

  function SkippedIn(guests: seq<Recipient>, known: set<Id>, turns: seq<Turn>): (r: seq<Skipped>)
    requires |turns| == |guests|
  {
    if guests == [] then []
    else
      var n := |guests| - 1;
      SkippedIn(guests[..n], known, turns[..n])
      + match LeftOut(guests[n], known, turns[n]) case Some(reason) => [Skipped(guests[n].id, reason)] case None => []
  }

  function QueuedGuests(guests: seq<Recipient>, known: set<Id>, turns: seq<Turn>): (r: seq<Id>)
    requires |turns| == |guests|
  {
    if guests == [] then []
    else
      var n := |guests| - 1;
      QueuedGuests(guests[..n], known, turns[..n])
      + if LeftOut(guests[n], known, turns[n]).None? then [guests[n].id] else []
  }

  /** This is why the guest gets no invitation from the batch. */
  predicate LeftOutFor(g: Recipient, known: set<Id>, turn: Turn, reason: Reason) {
    match reason
    case NoEmail => !g.hasEmail
    case AlreadyResponded => g.hasEmail && g.answered
    case EnqueueFailed => g.hasEmail && !g.answered && (g.id !in known || turn.queueDown)
  }

  /** A guest is in the list of the skipped, with a reason, if and only if the reason is theirs. */
  ghost predicate SkippedRightly(skipped: seq<Skipped>, guests: seq<Recipient>, known: set<Id>, turns: seq<Turn>)
    requires |turns| == |guests|
  {
    forall s :: s in skipped <==>
      exists i :: 0 <= i < |guests| && guests[i].id == s.guest && LeftOutFor(guests[i], known, turns[i], s.reason)
  }

  /** A guest is queued exactly if they have an address, did not answer, still exist, and the queue takes the job. */
  ghost predicate QueuedRightly(queued: seq<Id>, guests: seq<Recipient>, known: set<Id>, turns: seq<Turn>)
    requires |turns| == |guests|
  {
    forall id :: id in queued <==>
      exists i :: 0 <= i < |guests| && guests[i].id == id && guests[i].hasEmail && !guests[i].answered
                  && id in known && !turns[i].queueDown
  }

  lemma {:induction false} EveryReasonIsTheirs(guests: seq<Recipient>, known: set<Id>, turns: seq<Turn>)
    requires |turns| == |guests|
    ensures SkippedRightly(SkippedIn(guests, known, turns), guests, known, turns)
  {
    if guests != [] {
      var n := |guests| - 1;
      EveryReasonIsTheirs(guests[..n], known, turns[..n]);
      assert forall i :: 0 <= i < n ==> guests[..n][i] == guests[i] && turns[..n][i] == turns[i];
    }
  }

  lemma {:induction false} QueuedIsEverybodyElse(guests: seq<Recipient>, known: set<Id>, turns: seq<Turn>)
    requires |turns| == |guests|
    ensures QueuedRightly(QueuedGuests(guests, known, turns), guests, known, turns)
  {
    if guests != [] {
      var n := |guests| - 1;
      QueuedIsEverybodyElse(guests[..n], known, turns[..n]);
      assert forall i :: 0 <= i < n ==> guests[..n][i] == guests[i] && turns[..n][i] == turns[i];
    }
  }

  function Ids(guests: seq<Recipient>): (r: seq<Id>) {
    seq(|guests|, i requires 0 <= i < |guests| => guests[i].id)
  }

  function SkippedIds(skipped: seq<Skipped>): (r: seq<Id>) {
    seq(|skipped|, i requires 0 <= i < |skipped| => skipped[i].guest)
  }

  /** Nobody is lost and nobody is counted twice: the two lists together are the guests. */
  lemma {:induction false} EveryGuestIsAccountedFor(guests: seq<Recipient>, known: set<Id>, turns: seq<Turn>)
    requires |turns| == |guests|
    ensures multiset(QueuedGuests(guests, known, turns)) + multiset(SkippedIds(SkippedIn(guests, known, turns))) ==
        multiset(Ids(guests))
  {
    if guests != [] {
      var n := |guests| - 1;
      EveryGuestIsAccountedFor(guests[..n], known, turns[..n]);
      assert Ids(guests) == Ids(guests[..n]) + [guests[n].id];
      var before, all := SkippedIn(guests[..n], known, turns[..n]), SkippedIn(guests, known, turns);
      match LeftOut(guests[n], known, turns[n])
      case Some(reason) =>
        assert SkippedIds(all) == SkippedIds(before) + [guests[n].id];
      case None =>
        assert all == before;
    }
  }

  /** The queued list names exactly these guests, in order, each with an invitation of theirs. */
  predicate QueuedFor(queued: seq<Enqueued>, wanted: seq<Id>, rows: seq<Invitation>) {
    |queued| == |wanted| && forall q :: 0 <= q < |queued| ==>
      (queued[q].guest == wanted[q] && queued[q].invitation < |rows| && rows[queued[q].invitation].guest == wanted[q])
  }

  /** The rows after the whole batch. */
  function RowsAfterBatch(rows: seq<Invitation>, known: set<Id>, guests: seq<Recipient>,
                          turns: seq<Turn>): (after: seq<Invitation>)
    requires |turns| == |guests|
    ensures |after| >= |rows|
  {
    if guests == [] then rows
    else
      var n := |guests| - 1;
      var before := RowsAfterBatch(rows, known, guests[..n], turns[..n]);
      if Eligible(guests[n]) then RowsAfterSend(before, known, guests[n].id, turns[n]) else before
  }

  /** Who is queued, each with the row that their send appends. */
  function QueuedIn(rows: seq<Invitation>, known: set<Id>, guests: seq<Recipient>,
                    turns: seq<Turn>): (queued: seq<Enqueued>)
    requires |turns| == |guests|
  {
    if guests == [] then []
    else
      var n := |guests| - 1;
      QueuedIn(rows, known, guests[..n], turns[..n])
      + if LeftOut(guests[n], known, turns[n]).None?
        then [Enqueued(guests[n].id, |RowsAfterBatch(rows, known, guests[..n], turns[..n])|)] else []
  }

  /** A row that this batch created for the guest, still as it was created. */
  ghost predicate CreatedFor(start: nat, rows: seq<Invitation>, e: Enqueued, g: Recipient, turn: Turn) {
    && start <= e.invitation < |rows| && g.id == e.guest
    && rows[e.invitation] == Invitation(e.invitation, e.guest, Status.Queued, turn.createsAt + VALIDITY_MS, None, None)
  }

  ghost predicate CreatedInBatch(start: nat, rows: seq<Invitation>, e: Enqueued, guests: seq<Recipient>,
                                 turns: seq<Turn>)
    requires |turns| == |guests|
  {
    exists k :: 0 <= k < |guests| && CreatedFor(start, rows, e, guests[k], turns[k])
  }

  /** What is queued for a guest is the invitation that this very send created for them. */
  lemma {:induction false} QueuedIsTheNewRow(rows: seq<Invitation>, known: set<Id>, guests: seq<Recipient>,
                                             turns: seq<Turn>, e: Enqueued)
    requires |turns| == |guests| && e in QueuedIn(rows, known, guests, turns)
    requires forall i, j :: 0 <= i < j < |guests| ==> guests[i].id != guests[j].id
    ensures CreatedInBatch(|rows|, RowsAfterBatch(rows, known, guests, turns), e, guests, turns)
  {
    var n := |guests| - 1;
    var before := RowsAfterBatch(rows, known, guests[..n], turns[..n]);
    var after := RowsAfterBatch(rows, known, guests, turns);
    if e in QueuedIn(rows, known, guests[..n], turns[..n]) {
      QueuedIsTheNewRow(rows, known, guests[..n], turns[..n], e);
      var k :| 0 <= k < n && CreatedFor(|rows|, before, e, guests[..n][k], turns[..n][k]);
      assert guests[k].id != guests[n].id;
      assert CreatedFor(|rows|, after, e, guests[k], turns[k]);
    } else {
      assert CreatedFor(|rows|, after, e, guests[n], turns[n]);
    }
  }

  predicate Bystander(guests: seq<Recipient>, guest: Id) {
    forall i :: 0 <= i < |guests| && Eligible(guests[i]) ==> guests[i].id != guest
  }

  lemma {:induction false} BatchLeavesOneToken(rows: seq<Invitation>, known: set<Id>, guests: seq<Recipient>,
                                               turns: seq<Turn>)
    requires |turns| == |guests|
    requires forall i, j :: 0 <= i < j < |guests| ==> guests[i].id != guests[j].id
    ensures TokensSoFar(RowsAfterBatch(rows, known, guests, turns), known, guests, turns, |guests|)
  {
    if guests != [] {
      var n := |guests| - 1;
      var before := RowsAfterBatch(rows, known, guests[..n], turns[..n]);
      BatchLeavesOneToken(rows, known, guests[..n], turns[..n]);
      forall k | 0 <= k < n && Eligible(guests[k])
        ensures OnlyTheNewToken(before, guests[k].id, turns[k], guests[k].id in known)
      {
        assert guests[..n][k] == guests[k] && turns[..n][k] == turns[k];
      }
      if Eligible(guests[n]) { TokensAfterSend(before, known, guests, turns, n); }
    }
  }

  lemma {:induction false} BatchSparesBystanders(rows: seq<Invitation>, known: set<Id>, guests: seq<Recipient>,
                                                 turns: seq<Turn>)
    requires |turns| == |guests|
    ensures var after := RowsAfterBatch(rows, known, guests, turns);
            forall j :: 0 <= j < |rows| && Bystander(guests, rows[j].guest) ==> after[j] == rows[j]
  {
    if guests != [] {
      var n := |guests| - 1;
      BatchSparesBystanders(rows, known, guests[..n], turns[..n]);
      forall j | 0 <= j < |rows| && Bystander(guests, rows[j].guest) ensures Bystander(guests[..n], rows[j].guest) {
      }
    }
  }

  lemma {:induction false} QueuedAreTheWanted(rows: seq<Invitation>, known: set<Id>, guests: seq<Recipient>,
                                              turns: seq<Turn>)
    requires |turns| == |guests|
    ensures QueuedFor(QueuedIn(rows, known, guests, turns), QueuedGuests(guests, known, turns),
                      RowsAfterBatch(rows, known, guests, turns))
  {
    if guests != [] {
      var n := |guests| - 1;
      QueuedAreTheWanted(rows, known, guests[..n], turns[..n]);
    }
  }

  /**
    The batch: every guest of the event, in order. One failure does not stop it.
    Whoever was eligible ends with only the token of this send, whoever was not
    keeps theirs untouched.
  */
  method SendInvitations(repo: InvitationRepository, guests: seq<Recipient>, turns: seq<Turn>)
    returns (queued: seq<Enqueued>, skipped: seq<Skipped>)
    requires repo.Valid() && |turns| == |guests|
    requires forall i, j :: 0 <= i < j < |guests| ==> guests[i].id != guests[j].id
    modifies repo`rows
    ensures repo.Valid() && |repo.rows| >= |old(repo.rows)|
    ensures skipped == SkippedIn(guests, repo.knownGuests, turns)
    ensures SkippedRightly(skipped, guests, repo.knownGuests, turns)
    ensures QueuedRightly(QueuedGuests(guests, repo.knownGuests, turns), guests, repo.knownGuests, turns)
    ensures QueuedFor(queued, QueuedGuests(guests, repo.knownGuests, turns), repo.rows)
    ensures repo.rows == RowsAfterBatch(old(repo.rows), repo.knownGuests, guests, turns)
    ensures queued == QueuedIn(old(repo.rows), repo.knownGuests, guests, turns)
    ensures forall e :: e in queued ==> CreatedInBatch(|old(repo.rows)|, repo.rows, e, guests, turns)
    ensures forall i :: 0 <= i < |guests| && Eligible(guests[i]) ==>
      OnlyTheNewToken(repo.rows, guests[i].id, turns[i], guests[i].id in repo.knownGuests)
    ensures forall j :: 0 <= j < |old(repo.rows)| && Bystander(guests, old(repo.rows)[j].guest) ==>
        repo.rows[j] == old(repo.rows)[j]
  {
    queued, skipped := [], [];
    for i := 0 to |guests|
      invariant repo.Valid()
      invariant skipped == SkippedIn(guests[..i], repo.knownGuests, turns[..i])
      invariant repo.rows == RowsAfterBatch(old(repo.rows), repo.knownGuests, guests[..i], turns[..i])
      invariant queued == QueuedIn(old(repo.rows), repo.knownGuests, guests[..i], turns[..i])
    {
      assert guests[..i + 1][..i] == guests[..i] && turns[..i + 1][..i] == turns[..i];
      var g := guests[i];
      if !g.hasEmail {
        skipped := skipped + [Skipped(g.id, NoEmail)];
      } else if g.answered {
        skipped := skipped + [Skipped(g.id, AlreadyResponded)];
      } else {
        var id := EnqueueInvitation(repo, g.id, turns[i]);
        if id.Some? {
          queued := queued + [Enqueued(g.id, id.value)];
        } else {
          skipped := skipped + [Skipped(g.id, EnqueueFailed)];
        }
      }
    }
    assert guests[..|guests|] == guests && turns[..|guests|] == turns;
    EveryReasonIsTheirs(guests, repo.knownGuests, turns);
    QueuedIsEverybodyElse(guests, repo.knownGuests, turns);
    BatchLeavesOneToken(old(repo.rows), repo.knownGuests, guests, turns);
    BatchSparesBystanders(old(repo.rows), repo.knownGuests, guests, turns);
    QueuedAreTheWanted(old(repo.rows), repo.knownGuests, guests, turns);
    forall e | e in queued ensures CreatedInBatch(|old(repo.rows)|, repo.rows, e, guests, turns) {
      QueuedIsTheNewRow(old(repo.rows), repo.knownGuests, guests, turns, e);
    }
  }

  // ---- changing a guest ------------------------------------------------------

  type Email = string

  datatype GuestRecord = GuestRecord(event: Id, email: Option<Email>, companionsAllowed: nat,
                                     companionsConfirmed: Option<nat>)

  /** `email` present and `None` erases the address. */
  datatype GuestChanges = GuestChanges(email: Option<Option<Email>>, companionsAllowed: Option<nat>)

  datatype GuestError = GuestNotFound | CompanionsExceeded | DuplicateEmail | QuotaConstraint

  function Updated(g: GuestRecord, c: GuestChanges): (r: GuestRecord) {
    g.(email := if c.email.Some? then c.email.value else g.email,
       companionsAllowed := if c.companionsAllowed.Some? then c.companionsAllowed.value else g.companionsAllowed)
  }

  /** The address and the quota as asked for; nothing else of the guest changes. */
  predicate TookChanges(g: GuestRecord, later: GuestRecord, c: GuestChanges) {
    && Took(c.email, g.email, later.email) && Took(c.companionsAllowed, g.companionsAllowed, later.companionsAllowed)
    && later.event == g.event && later.companionsConfirmed == g.companionsConfirmed
  }

  predicate QuotaCovers(allowed: nat, confirmed: Option<nat>) {
    confirmed.None? || confirmed.value <= allowed
  }

  /** Another guest of the event has that address, letter for letter. */
  predicate TakenByOther(guests: map<Id, GuestRecord>, event: Id, id: Id, email: Email) {
    exists g :: g in guests && g != id && guests[g].event == event && guests[g].email == Some(email)
  }

  predicate EmailsUnique(guests: map<Id, GuestRecord>) {
    forall g, h :: g in guests && h in guests && g != h ==>
      !(guests[g].event == guests[h].event && guests[g].email.Some? && guests[g].email == guests[h].email)
  }

  /** The quota asked for is below the companions confirmed. */
  ghost predicate AsksTooFew(guests: map<Id, GuestRecord>, id: Id, c: GuestChanges) {
    && id in guests && c.companionsAllowed.Some? && guests[id].companionsConfirmed.Some?
    && c.companionsAllowed.value < guests[id].companionsConfirmed.value
  }

  /** The address asked for is that of another guest of the event. */
  ghost predicate AsksForTaken(guests: map<Id, GuestRecord>, event: Id, id: Id, c: GuestChanges) {
    exists g :: g in guests && g != id && guests[g].event == event
                && guests[g].email.Some? && c.email == Some(guests[g].email)
  }

  /** Why a change is refused, if it is. */
  function RefusedChange(guests: map<Id, GuestRecord>, event: Id, id: Id, c: GuestChanges): (why: Option<GuestError>) {
    if id !in guests || guests[id].event != event then Some(GuestNotFound)
    else if c.companionsAllowed.Some? && !QuotaCovers(c.companionsAllowed.value, guests[id].companionsConfirmed)
    then Some(CompanionsExceeded)
    else if c.email.Some? && c.email.value.Some? && TakenByOther(guests, event, id, c.email.value.value)
    then Some(DuplicateEmail)
    else None
  }

  /** Why the write itself is refused: the row is gone, or a constraint of the table is violated. */
  function RefusedWrite(guests: map<Id, GuestRecord>, event: Id, id: Id, c: GuestChanges): (why: Option<GuestError>) {
    if id !in guests || guests[id].event != event then Some(GuestNotFound)
    else if c.companionsAllowed.Some? && !QuotaCovers(c.companionsAllowed.value, guests[id].companionsConfirmed)
    then Some(QuotaConstraint)
    else if c.email.Some? && c.email.value.Some? && TakenByOther(guests, event, id, c.email.value.value)
    then Some(DuplicateEmail)
    else None
  }

  /** Whether the request takes its change for a change of address, going by what it read. */
  predicate SeesNewAddress(read: GuestRecord, c: GuestChanges) {
    c.email.Some? && c.email.value != read.email
  }

  ghost predicate NoneLive(rows: seq<Invitation>, guest: Id, at: Time) {
    forall j :: 0 <= j < |rows| && rows[j].guest == guest ==> !rows[j].LiveAt(at)
  }

  /** Ending a guest's live tokens leaves none; whoever takes no change leaves them as they were. */
  lemma WriteEndsTokensExactly(rows: seq<Invitation>, guest: Id, at: Time, ends: bool)
    ensures NoneLive(if ends then ApplyToRows(RowOp.ExpireLiveOf(guest, at), rows) else rows, guest, at) <==>
            ends || NoneLive(rows, guest, at)
  {
  }

  class GuestBook {
    var guests: map<Id, GuestRecord>

    /**
      The write half of a change, in one unit of work. `read` is what the request read
      before; others may have changed the guest since. The tokens are ended if what it
      read had another address, so after a change of the stored address none is live
      if and only if the request saw it as a change, or none was live.
    */
    method Write(repo: InvitationRepository, event: Id, id: Id, read: GuestRecord, changes: GuestChanges, at: Time)
      returns (r: Result<GuestRecord, GuestError>)
      requires repo.Valid()
      modifies this, repo`rows
      ensures repo.Valid()
      ensures match RefusedWrite(old(guests), event, id, changes)
              case Some(e) => r == Err(e)
              case None => r.Ok? && r.value == Updated(old(guests)[id], changes)
      ensures r == Err(QuotaConstraint) ==> AsksTooFew(old(guests), id, changes)
      ensures r == Err(DuplicateEmail) ==> AsksForTaken(old(guests), event, id, changes)
      ensures EmailsUnique(old(guests)) ==> EmailsUnique(guests)
      ensures r.Err? ==> guests == old(guests) && repo.rows == old(repo.rows)
      ensures r.Ok? ==> guests == old(guests)[id := r.value] && TookChanges(old(guests)[id], r.value, changes)
      ensures r.Ok? ==> repo.rows == if SeesNewAddress(read, changes)
                                     then ApplyToRows(RowOp.ExpireLiveOf(id, at), old(repo.rows)) else old(repo.rows)
      ensures r.Ok? && r.value.email != old(guests)[id].email ==>
        (NoneLive(repo.rows, id, at) <==> r.value.email != read.email || NoneLive(old(repo.rows), id, at))
    {
      if id !in guests || guests[id].event != event {
        return Err(GuestNotFound);
      }
      var stored := guests[id];
      if changes.companionsAllowed.Some? && !QuotaCovers(changes.companionsAllowed.value, stored.companionsConfirmed) {
        return Err(QuotaConstraint);
      }
      if changes.email.Some? && changes.email.value.Some?
          && TakenByOther(guests, event, id, changes.email.value.value) {
        return Err(DuplicateEmail);
      }
      WriteEndsTokensExactly(repo.rows, id, at, SeesNewAddress(read, changes));
      guests := guests[id := Updated(stored, changes)];
      if SeesNewAddress(read, changes) {
        repo.ExpireLiveOf(id, at);
      }
      r := Ok(guests[id]);
    }

    /**
      Changes a guest of the event, with nobody in between: a new address, or none,
      kills every link that went to the old one; any other change leaves them alone.
    */
    method UpdateGuest(repo: InvitationRepository, event: Id, id: Id, changes: GuestChanges, at: Time)
      returns (r: Result<GuestRecord, GuestError>)
      requires repo.Valid()
      modifies this, repo`rows
      ensures repo.Valid()
      ensures match RefusedChange(old(guests), event, id, changes) case Some(e) => r == Err(e) case None => r.Ok?
      ensures r == Err(GuestNotFound) <==> id !in old(guests) || old(guests)[id].event != event
      ensures r == Err(CompanionsExceeded) ==> AsksTooFew(old(guests), id, changes)
      ensures r == Err(DuplicateEmail) ==> AsksForTaken(old(guests), event, id, changes)
      ensures EmailsUnique(old(guests)) ==> EmailsUnique(guests)
      ensures r.Err? ==> guests == old(guests) && repo.rows == old(repo.rows)
      ensures r.Ok? ==> guests == old(guests)[id := r.value] && TookChanges(old(guests)[id], r.value, changes)
      ensures r.Ok? ==> repo.rows == if r.value.email == old(guests)[id].email then old(repo.rows)
                                     else ApplyToRows(RowOp.ExpireLiveOf(id, at), old(repo.rows))
      ensures r.Ok? && r.value.email != old(guests)[id].email ==> NoneLive(repo.rows, id, at)
      ensures r.Ok? && QuotaCovers(old(guests)[id].companionsAllowed, old(guests)[id].companionsConfirmed) ==>
        QuotaCovers(r.value.companionsAllowed, r.value.companionsConfirmed)
    {
      if id !in guests || guests[id].event != event {
        return Err(GuestNotFound);
      }
      var read := guests[id];
      if changes.companionsAllowed.Some? && !QuotaCovers(changes.companionsAllowed.value, read.companionsConfirmed) {
        return Err(CompanionsExceeded);
      }
      r := Write(repo, event, id, read, changes, at);
    }
  }
}
