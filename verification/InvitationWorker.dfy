/**
  The worker that mails invitations. The queue delivers each job at least once,
  retries it up to `attempts` times, and emits a `failed` event after every
  attempt that fails. When a job is given up its invitation must not stay open,
  for the token stays in the queue's storage; unless the mail did leave.
*/
module InvitationWorker {
  import opened Common
  import opened Invitation
  import opened InvitationLifecycle
  import opened InvitationStore

  /** `Unrecoverable` stops the retries whatever attempts are left. */
  datatype Error = Ordinary | Unrecoverable

  datatype Delivery = Accepted(message: Option<MessageId>) | Refused(error: Error)

  /**
    Everything that may happen around one attempt: what fails, and what others write
    before it, between finding the invitation and marking or expiring it, and between
    the end of `Process` and the `failed` event.
  */
  datatype Attempt = Attempt(
    before: seq<RowOp>,
    lost: Option<Error>,          // the job is taken from the worker before `Process` can react
    findError: Option<Error>, midway: seq<RowOp>, startedAt: Time, hasEmail: bool, renderError: Option<Error>,
    delivery: Delivery, markError: Option<Error>,
    expiryFails: bool, expiredAt: Time,
    beforeEvent: seq<RowOp>, backupFails: bool, backupAt: Time)
  {
    /** The mail left in this attempt, if the attempt got as far as trying. */
    predicate MailLeft() {
      lost.None? && findError.None? && renderError.None? && delivery.Accepted?
    }

    /** No error of this attempt, if it has any, stops the retries. */
    predicate OnlyOrdinary() {
      && lost != Some(Unrecoverable) && findError != Some(Unrecoverable) && renderError != Some(Unrecoverable)
      && delivery != Refused(Unrecoverable) && markError != Some(Unrecoverable)
    }

    /** The clock goes forward up to the backup's write. */
    predicate OnTheClock() {
      && expiredAt <= backupAt
      && forall op :: op in beforeEvent && (op.Expire? || op.ExpireLiveOf?) ==> op.at <= backupAt
    }

    /** One of the attempt's writes of the expiry goes through. */
    predicate SomeExpiryWorks() {
      (lost.None? && !expiryFails) || !backupFails
    }
  }

  /** The job's data may be anything until it has been read. */
  datatype Payload = Readable(invitation: Id) | Unreadable

  datatype Job = Job(payload: Payload, attempts: nat)
  {
    /** What the job would expire. */
    function Target(): (r: seq<Id>) { if payload.Readable? then [payload.invitation] else [] }
  }

  /** `Failed(k)`: given up after attempt `k`; `Waiting`: the script ended with attempts left. */
  datatype Ending = Completed | Failed(last: nat) | Waiting

  /** The job has nothing to send: gone, already sent, expired, or without an address. */
  predicate Discarded(row: Option<Invitation>, a: Attempt) {
    row.None? || row.value.status != Queued || row.value.expiresAt <= a.startedAt || !a.hasEmail
  }

  function RowOf(rows: seq<Invitation>, id: Id): (r: Option<Invitation>) {
    if id < |rows| then Some(rows[id]) else None
  }

  function SendError(row: Option<Invitation>, a: Attempt): (r: Option<Error>) {
    if a.findError.Some? then a.findError
    else if Discarded(row, a) then None
    else if a.renderError.Some? then a.renderError
    else if a.delivery.Refused? then Some(a.delivery.error)
    else a.markError
  }

  /**
    The mail leaves in an attempt that finds this: an invitation still queued, whose token
    opens it, of a guest with an address; and rendering and the provider work.
  */
  predicate Departs(row: Option<Invitation>, a: Attempt) {
    && a.lost.None? && a.findError.None?
    && row.Some? && row.value.status == Queued && a.startedAt < row.value.expiresAt && a.hasEmail
    && a.renderError.None? && a.delivery.Accepted?
  }

  /** The mail that leaves in one attempt, if one does: whether its invitation was then marked as sent. */
  function MailOf(job: Job, a: Attempt, rows: seq<Invitation>): (mails: seq<bool>) {
    if job.payload.Readable? && Departs(RowOf(rows, job.payload.invitation), a) then [a.markError.None?] else []
  }

  predicate IsLast(job: Job, attemptsMade: nat, error: Error) {
    error.Unrecoverable? || attemptsMade >= job.attempts
  }

  // ---- what a job comes to --------------------------------------------------------

  function ApplyOps(ops: seq<RowOp>, rows: seq<Invitation>): (after: seq<Invitation>)
    ensures |after| == |rows|
  {
    if ops == [] then rows else ApplyToRows(ops[|ops| - 1], ApplyOps(ops[..|ops| - 1], rows))
  }

  function ExpiredIf(really: bool, id: Id, at: Time, rows: seq<Invitation>): (after: seq<Invitation>)
    ensures |after| == |rows|
  {
    if really then ApplyToRows(RowOp.Expire(id, at), rows) else rows
  }

  /** The rows once the attempt has looked for its invitation and others have written. */
  function Midway(a: Attempt, rows: seq<Invitation>): (after: seq<Invitation>)
    ensures |after| == |rows|
  {
    if a.lost.Some? || a.findError.Some? then rows else ApplyOps(a.midway, rows)
  }

  /** The error of an attempt that finds these rows, and the rows it leaves when it and its event are over. */
  function Attempted(job: Job, made: nat, a: Attempt, rows: seq<Invitation>): (Option<Error>, seq<Invitation>) {
    if job.payload.Unreadable? then
      (Some(if a.lost.Some? then a.lost.value else Unrecoverable), ApplyOps(a.beforeEvent, rows))
    else
      var id := job.payload.invitation;
      var row := RowOf(rows, id);
      var error := if a.lost.Some? then a.lost else SendError(row, a);
      var met := Midway(a, rows);
      if error.None? then
        (None, if Discarded(row, a) then met else ApplyToRows(RowOp.MarkSent(id, a.delivery.message), met))
      else if a.MailLeft() || !IsLast(job, made, error.value) then (error, ApplyOps(a.beforeEvent, met))
      else
        var byProcess := ExpiredIf(a.lost.None? && !a.expiryFails, id, a.expiredAt, met);
        (error, ExpiredIf(!a.backupFails, id, a.backupAt, ApplyOps(a.beforeEvent, byProcess)))
  }

  /** The job from its attempt number `made` on: it ends at the first success or at the first error that is the last. */
  function Played(job: Job, script: seq<Attempt>, made: nat, rows: seq<Invitation>): (Ending, seq<Invitation>)
    requires made <= |script|
    decreases |script| - made
  {
    if made == |script| then (Waiting, rows)
    else
      var (error, after) := Attempted(job, made + 1, script[made], ApplyOps(script[made].before, rows));
      if error.None? then (Completed, after)
      else if IsLast(job, made + 1, error.value) then (Failed(made), after)
      else Played(job, script, made + 1, after)
  }

  /** The mails that leave while the job is played, in order. */
  function MailsOf(job: Job, script: seq<Attempt>, made: nat, rows: seq<Invitation>): (mails: seq<bool>)
    requires made <= |script|
    decreases |script| - made
  {
    if made == |script| then []
    else
      var found := ApplyOps(script[made].before, rows);
      var (error, after) := Attempted(job, made + 1, script[made], found);
      MailOf(job, script[made], found)
      + if error.None? || IsLast(job, made + 1, error.value) then [] else MailsOf(job, script, made + 1, after)
  }

  /** The queue delivers a job at least once: the mails of one delivery after another. */
  function MailsOfAll(job: Job, scripts: seq<seq<Attempt>>, rows: seq<Invitation>): (mails: seq<bool>)
    decreases |scripts|
  {
    if scripts == [] then []
    else MailsOf(job, scripts[0], 0, rows) + MailsOfAll(job, scripts[1..], Played(job, scripts[0], 0, rows).1)
  }

  class InvitationProcessor {
    const repo: InvitationRepository
    var sentUnmarked: set<Id>     // mailed in the attempt under way, which then failed
    ghost var expired: seq<Id>    // the invitations this worker has expired
    ghost var mails: seq<bool>    // the mails it has sent: for each, whether its invitation was then marked

    constructor (repo: InvitationRepository)
      ensures this.repo == repo && sentUnmarked == {} && expired == [] && mails == []
    {
      this.repo := repo;
      sentUnmarked, expired, mails := {}, [], [];
    }

    /** The writes of the others. */
    method Interfere(ops: seq<RowOp>)
      requires repo.Valid()
      modifies repo`rows
      ensures repo.Valid() && repo.rows == ApplyOps(ops, old(repo.rows))
    {
      for i := 0 to |ops|
        invariant repo.Valid() && repo.rows == ApplyOps(ops[..i], old(repo.rows))
      {
        forall k | 0 <= k < |repo.rows| ensures Apply(ops[i], repo.rows[k]).id == repo.rows[k].id {
          ApplyAdvances(ops[i], repo.rows[k]);
        }
        repo.rows := ApplyToRows(ops[i], repo.rows);
        assert ops[..i + 1][..i] == ops[..i];
      }
      assert ops[..|ops|] == ops;
    }

    method Send(id: Id, a: Attempt) returns (error: Option<Error>, left: bool)
      requires repo.Valid() && a.lost.None?
      modifies repo`rows, this`mails
      ensures repo.Valid() && |repo.rows| == |old(repo.rows)|
      ensures var row := RowOf(old(repo.rows), id);
              && error == SendError(row, a)
              && left == Departs(row, a) && mails == old(mails) + (if left then [a.markError.None?] else [])
              && var met := if a.findError.Some? then old(repo.rows) else ApplyOps(a.midway, old(repo.rows));
                 repo.rows == if left
                     && error.None? then ApplyToRows(RowOp.MarkSent(id, a.delivery.message), met) else met
    {
      left := false;
      if a.findError.Some? {
        return a.findError, left;
      }
      var row := repo.FindById(id);
      Interfere(a.midway);
      if row.None? {
        return None, left;
      }
      if row.value.status != Queued {
        return None, left;
      }
      if row.value.expiresAt <= a.startedAt {
        return None, left;
      }
      if !a.hasEmail {
        return None, left;
      }
      if a.renderError.Some? {
        return a.renderError, left;
      }
      if a.delivery.Refused? {
        return Some(a.delivery.error), left;
      }
      left := true;
      mails := mails + [a.markError.None?];
      if a.markError.Some? {
        return a.markError, left;
      }
      repo.MarkSent(id, a.delivery.message);
      error := None;
    }

    /** A failed write of the expiry is only logged. */
    method ExpireQuietly(id: Id, at: Time, fails: bool)
      requires repo.Valid()
      modifies repo`rows, `expired
      ensures repo.Valid()
      ensures repo.rows == if fails then old(repo.rows) else ApplyToRows(RowOp.Expire(id, at), old(repo.rows))
      ensures expired == if fails then old(expired) else old(expired) + [id]
    {
      if !fails {
        repo.Expire(id, at);
        expired := expired + [id];
      }
    }

    /** One attempt. On the last one that fails without the mail having left, expires the invitation. */
    method Process(job: Job, attemptsMade: nat, a: Attempt) returns (error: Option<Error>)
      requires repo.Valid() && a.lost.None?
      modifies this`sentUnmarked, this`expired, this`mails, repo`rows
      ensures repo.Valid() && |repo.rows| == |old(repo.rows)|
      ensures mails == old(mails) + MailOf(job, a, old(repo.rows))
      ensures job.payload.Unreadable? ==>
        error == Some(Unrecoverable) && sentUnmarked == old(sentUnmarked) && expired == old(expired)
            && repo.rows == old(repo.rows)
      ensures job.payload.Readable? ==> error == SendError(RowOf(old(repo.rows), job.payload.invitation), a)
      ensures job.payload.Readable? && error.None? ==>
        && sentUnmarked == old(sentUnmarked) && expired == old(expired)
        && var met := Midway(a, old(repo.rows));
           repo.rows == if Discarded(RowOf(old(repo.rows), job.payload.invitation), a) then met
                        else ApplyToRows(RowOp.MarkSent(job.payload.invitation, a.delivery.message), met)
      ensures job.payload.Readable? && error.Some? && a.MailLeft() ==>
        && sentUnmarked == old(sentUnmarked) + {job.payload.invitation}
        && expired == old(expired) && repo.rows == Midway(a, old(repo.rows))
      ensures job.payload.Readable? && error.Some? && !a.MailLeft() ==>
        var expires := IsLast(job, attemptsMade + 1, error.value) && !a.expiryFails;
        && sentUnmarked == old(sentUnmarked)
        && expired == old(expired) + (if expires then job.Target() else [])
        && repo.rows == ExpiredIf(expires, job.payload.invitation, a.expiredAt, Midway(a, old(repo.rows)))
    {
      if job.payload.Unreadable? {
        return Some(Unrecoverable);
      }
      var left;
      error, left := Send(job.payload.invitation, a);
      if error.Some? {
        if left {
          sentUnmarked := sentUnmarked + {job.payload.invitation};
        } else if IsLast(job, attemptsMade + 1, error.value) {
          ExpireQuietly(job.payload.invitation, a.expiredAt, a.expiryFails);
        }
      }
    }

    /** The `failed` event: the backup for failures that `Process` never saw. It may come without its job. */
    method OnFailed(job: Option<Job>, attemptsMade: nat, error: Error, a: Attempt)
      requires repo.Valid()
      modifies this`sentUnmarked, this`expired, repo`rows
      ensures repo.Valid() && |repo.rows| == |old(repo.rows)|
      ensures job.None? || job.value.payload.Unreadable? ==>
        sentUnmarked == old(sentUnmarked) && expired == old(expired) && repo.rows == old(repo.rows)
      ensures job.Some? && job.value.payload.Readable? ==>
        var id := job.value.payload.invitation;
        var expires := id !in old(sentUnmarked) && IsLast(job.value, attemptsMade, error) && !a.backupFails;
        && sentUnmarked == old(sentUnmarked) - {id}
        && expired == old(expired) + (if expires then [id] else [])
        && repo.rows == ExpiredIf(expires, id, a.backupAt, old(repo.rows))
    {
      if job.None? || job.value.payload.Unreadable? {
        return;
      }
      var id := job.value.payload.invitation;
      if id in sentUnmarked {
        sentUnmarked := sentUnmarked - {id};
        return;
      }
      if job.value.attempts > attemptsMade && error.Ordinary? {
        return;
      }
      ExpireQuietly(id, a.backupAt, a.backupFails);
    }

    /** One attempt and, if it fails, its `failed` event. */
    method RunAttempt(job: Job, made: nat, a: Attempt) returns (error: Option<Error>)
      requires repo.Valid() && forall id :: id in job.Target() ==> id !in sentUnmarked
      modifies this`sentUnmarked, this`expired, this`mails, repo`rows
      ensures repo.Valid() && sentUnmarked == old(sentUnmarked)
      ensures mails == old(mails) + MailOf(job, a, old(repo.rows))
      ensures (error, repo.rows) == Attempted(job, made + 1, a, old(repo.rows))
      ensures error.None? || a.MailLeft() || !IsLast(job, made + 1, error.value) || job.payload.Unreadable? ==>
          expired == old(expired)
      ensures error.Some? && !a.MailLeft() && IsLast(job, made + 1, error.value) && job.payload.Readable? ==>
        (expired == old(expired) <==> !a.SomeExpiryWorks())
    {
      error := a.lost;
      if a.lost.None? {
        error := Process(job, made, a);
        if error.None? {
          return;
        }
      }
      Interfere(a.beforeEvent);
      OnFailed(Some(job), made + 1, error.value, a);
    }

    /**
      A job through all its attempts, whatever fails and whatever others write in
      between: how it ends and what it leaves are those of `Played`. The invitation
      is expired by the worker only when the job is given up and the mail of the
      last attempt did not leave; then it is, unless every write of the expiry
      failed. Each `failed` event clears its mark.
    */
    method RunJob(job: Job, script: seq<Attempt>) returns (end: Ending)
      requires repo.Valid() && forall id :: id in job.Target() ==> id !in sentUnmarked
      modifies this`sentUnmarked, this`expired, this`mails, repo`rows
      ensures repo.Valid() && sentUnmarked == old(sentUnmarked)
      ensures mails == old(mails) + MailsOf(job, script, 0, old(repo.rows))
      ensures (end, repo.rows) == Played(job, script, 0, old(repo.rows))
      ensures !end.Failed? || job.payload.Unreadable? ==> expired == old(expired)
      ensures end.Failed? ==> end.last < |script| && (end.last + 1 <= job.attempts || end.last == 0)
      ensures end.Failed? && job.payload.Readable? && (forall a :: a in script ==> a.OnlyOrdinary()) ==>
          end.last + 1 >= job.attempts
      ensures end.Waiting? ==> script == [] || |script| < job.attempts
      ensures end.Failed? && script[end.last].MailLeft() ==> expired == old(expired)
      ensures end.Failed? && !script[end.last].MailLeft() && job.payload.Readable? ==>
        (expired == old(expired) <==> !script[end.last].SomeExpiryWorks())
      ensures end.Failed? && !script[end.last].MailLeft() && script[end.last].SomeExpiryWorks()
              && script[end.last].OnTheClock()
              && job.payload.Readable? && job.payload.invitation < |repo.rows| ==>
        !repo.rows[job.payload.invitation].LiveAt(script[end.last].backupAt)
    {
      EndsWhereItMust(job, script, 0, repo.rows);
      if job.payload.Readable? && job.payload.invitation < |repo.rows| { GivenUpIsClosed(job, script, 0, repo.rows); }
      PlayedKeepsSize(job, script, 0, repo.rows);
      end := PlayOut(job, script);
    }

    /** Attempt after attempt, until one succeeds or fails for good. */
    method PlayOut(job: Job, script: seq<Attempt>) returns (end: Ending)
      requires repo.Valid() && forall id :: id in job.Target() ==> id !in sentUnmarked
      modifies this`sentUnmarked, this`expired, this`mails, repo`rows
      ensures repo.Valid() && sentUnmarked == old(sentUnmarked)
      ensures (end, repo.rows) == Played(job, script, 0, old(repo.rows))
      ensures mails == old(mails) + MailsOf(job, script, 0, old(repo.rows))
      ensures !end.Failed? || job.payload.Unreadable? ==> expired == old(expired)
      ensures end.Failed? ==> end.last < |script|
      ensures end.Failed? && script[end.last].MailLeft() ==> expired == old(expired)
      ensures end.Failed? && !script[end.last].MailLeft() && job.payload.Readable? ==>
        (expired == old(expired) <==> !script[end.last].SomeExpiryWorks())
    {
      for i := 0 to |script|
        invariant repo.Valid() && sentUnmarked == old(sentUnmarked) && expired == old(expired)
        invariant Played(job, script, 0, old(repo.rows)) == Played(job, script, i, repo.rows)
        invariant mails + MailsOf(job, script, i, repo.rows) == old(mails) + MailsOf(job, script, 0, old(repo.rows))
      {
        ghost var rows, sent := repo.rows, mails;
        var error := TakeAttempt(job, i, script[i]);
        PlayedOn(job, script, i, rows, error, repo.rows, sent);
        if error.None? {
          return Completed;
        }
        if IsLast(job, i + 1, error.value) {
          return Failed(i);
        }
      }
      end := Waiting;
    }

    /** One attempt, after whatever the others wrote before it. */
    method TakeAttempt(job: Job, made: nat, a: Attempt) returns (error: Option<Error>)
      requires repo.Valid() && forall id :: id in job.Target() ==> id !in sentUnmarked
      modifies this`sentUnmarked, this`expired, this`mails, repo`rows
      ensures repo.Valid() && sentUnmarked == old(sentUnmarked)
      ensures mails == old(mails) + MailOf(job, a, ApplyOps(a.before, old(repo.rows)))
      ensures (error, repo.rows) == Attempted(job, made + 1, a, ApplyOps(a.before, old(repo.rows)))
      ensures error.None? || a.MailLeft() || !IsLast(job, made + 1, error.value) || job.payload.Unreadable? ==>
          expired == old(expired)
      ensures error.Some? && !a.MailLeft() && IsLast(job, made + 1, error.value) && job.payload.Readable? ==>
        (expired == old(expired) <==> !a.SomeExpiryWorks())
    {
      Interfere(a.before);
      error := RunAttempt(job, made, a);
    }
  }

  lemma PlayedOn(job: Job, script: seq<Attempt>, made: nat, rows: seq<Invitation>, error: Option<Error>,
                 after: seq<Invitation>, before: seq<bool>)
    requires made < |script|
    requires (error, after) == Attempted(job, made + 1, script[made], ApplyOps(script[made].before, rows))
    ensures Played(job, script, made, rows) ==
            if error.None? then (Completed, after)
            else if IsLast(job, made + 1, error.value) then (Failed(made), after)
            else Played(job, script, made + 1, after)
    ensures before + MailsOf(job, script, made, rows) ==
            before + MailOf(job, script[made], ApplyOps(script[made].before, rows)) +
            if error.None? || IsLast(job, made + 1, error.value) then [] else MailsOf(job, script, made + 1, after)
  {
  }

  // ---- no second mail ---------------------------------------------------------------

  /** What an attempt that reaches `Send` comes to, going by what it found. */
  lemma OutcomeOfSending(row: Option<Invitation>, a: Attempt)
    requires a.lost.None?
    ensures a.findError.Some? ==> SendError(row, a) == a.findError
    ensures Departs(row, a) ==> SendError(row, a) == a.markError
    ensures a.findError.None?
            && (row.None? || row.value.status != Queued || row.value.expiresAt <= a.startedAt || !a.hasEmail) ==>
              SendError(row, a) == None
    ensures a.findError.None? && row.Some? && row.value.status == Queued && a.startedAt < row.value.expiresAt
            && a.hasEmail && !Departs(row, a) ==>
              SendError(row, a) == if a.renderError.Some? then a.renderError else Some(a.delivery.error)
  {
  }

  lemma {:induction false} OpsKeepNotQueued(ops: seq<RowOp>, rows: seq<Invitation>, i: nat)
    requires i < |rows| && rows[i].status != Queued
    ensures ApplyOps(ops, rows)[i].status != Queued
  {
    if ops != [] {
      OpsKeepNotQueued(ops[..|ops| - 1], rows, i);
      ApplyAdvances(ops[|ops| - 1], ApplyOps(ops[..|ops| - 1], rows)[i]);
    }
  }

  /** An attempt on an invitation that is no longer queued sends nothing; if it looks at it, it does nothing at all. */
  lemma AttemptOnSent(job: Job, made: nat, a: Attempt, rows: seq<Invitation>)
    requires job.payload.Readable? && job.payload.invitation < |rows| && rows[job.payload.invitation].status != Queued
    ensures MailOf(job, a, rows) == []
    ensures var (error, after) := Attempted(job, made, a, rows);
            && (error.None? <==> a.lost.None? && a.findError.None?)
            && (error.None? ==> after == ApplyOps(a.midway, rows))
  {
  }

  /** Nor does an attempt that fails make it queued. */
  lemma AttemptKeepsNotQueued(job: Job, made: nat, a: Attempt, rows: seq<Invitation>)
    requires job.payload.Readable? && job.payload.invitation < |rows| && rows[job.payload.invitation].status != Queued
    ensures var after := Attempted(job, made, a, rows).1;
            |after| == |rows| && after[job.payload.invitation].status != Queued
  {
    var id := job.payload.invitation;
    if a.lost.None? && a.findError.None? {
      AttemptOnSent(job, made, a, rows);
      OpsKeepNotQueued(a.midway, rows, id);
    } else {
      var works := a.lost.None? && !a.expiryFails;
      var byProcess := ExpiredIf(works, id, a.expiredAt, rows);
      ExpiryKeepsNotQueued(works, id, a.expiredAt, rows, id);
      OpsKeepNotQueued(a.beforeEvent, rows, id);
      OpsKeepNotQueued(a.beforeEvent, byProcess, id);
      ExpiryKeepsNotQueued(!a.backupFails, id, a.backupAt, ApplyOps(a.beforeEvent, byProcess), id);
    }
  }

  lemma ExpiryKeepsNotQueued(really: bool, target: Id, at: Time, rows: seq<Invitation>, i: nat)
    requires i < |rows| && rows[i].status != Queued
    ensures ExpiredIf(really, target, at, rows)[i].status != Queued
  {
  }

  /**
    A job delivered again when its invitation is no longer queued sends nothing, however
    it goes. The first attempt that gets to look at the invitation completes it, and only
    the others have written then: nothing is marked and nothing expired. It is given up
    only if no attempt gets to look.
  */
  lemma {:induction false} RedeliveredJobSendsNothing(job: Job, script: seq<Attempt>, made: nat, rows: seq<Invitation>)
    requires made <= |script| && job.payload.Readable? && job.payload.invitation < |rows|
    requires rows[job.payload.invitation].status != Queued
    ensures MailsOf(job, script, made, rows) == []
    ensures var (end, after) := Played(job, script, made, rows);
            && |after| == |rows| && after[job.payload.invitation].status != Queued
            && (end.Failed? ==> made <= end.last < |script| && forall k :: made <= k <= end.last ==>
                  script[k].lost.Some? || script[k].findError.Some?)
            && (made < |script| && script[made].lost.None? && script[made].findError.None? ==>
                  end == Completed && after == ApplyOps(script[made].midway, ApplyOps(script[made].before, rows)))
    decreases |script| - made
  {
    if made < |script| {
      var a := script[made];
      OpsKeepNotQueued(a.before, rows, job.payload.invitation);
      var found := ApplyOps(a.before, rows);
      AttemptOnSent(job, made + 1, a, found);
      AttemptKeepsNotQueued(job, made + 1, a, found);
      var (error, after) := Attempted(job, made + 1, a, found);
      if error.Some? && !IsLast(job, made + 1, error.value) {
        RedeliveredJobSendsNothing(job, script, made + 1, after);
      }
    }
  }

  /** The attempt does not get to look at the invitation: the job is lost first, or the search fails. */
  predicate Unseen(a: Attempt) { a.lost.Some? || a.findError.Some? }

  function Trouble(a: Attempt): (r: Error)
    requires Unseen(a)
  {
    if a.lost.Some? then a.lost.value else a.findError.value
  }

  /** No attempt up to `k` looks, none before it is the last one, and `k` is. */
  ghost predicate GivenUpUnseen(job: Job, script: seq<Attempt>, made: nat, k: nat) {
    && made <= k < |script| && (forall j :: made <= j <= k ==> Unseen(script[j]))
    && (forall j :: made <= j < k ==> Trouble(script[j]) == Ordinary && j + 1 < job.attempts)
    && (Trouble(script[k]) == Unrecoverable || k + 1 >= job.attempts)
  }

  /**
    Exactly when such a job is given up, which expires the link of a mail that left long
    ago: the attempts run out, or the retries are stopped, before any of them looks.
  */
  lemma {:induction false} RedeliveredIsGivenUpExactlyWhen(job: Job, script: seq<Attempt>, made: nat,
                                                           rows: seq<Invitation>, k: nat)
    requires made <= |script| && job.payload.Readable? && job.payload.invitation < |rows|
    requires rows[job.payload.invitation].status != Queued
    ensures Played(job, script, made, rows).0 == Failed(k) <==> GivenUpUnseen(job, script, made, k)
    decreases |script| - made
  {
    if made < |script| {
      var a := script[made];
      OpsKeepNotQueued(a.before, rows, job.payload.invitation);
      var found := ApplyOps(a.before, rows);
      AttemptOnSent(job, made + 1, a, found);
      AttemptKeepsNotQueued(job, made + 1, a, found);
      var (error, after) := Attempted(job, made + 1, a, found);
      assert Unseen(a) ==> error == Some(Trouble(a));
      if error.Some? && !IsLast(job, made + 1, error.value) {
        RedeliveredIsGivenUpExactlyWhen(job, script, made + 1, after, k);
      }
    }
  }

  /** Such a run: the mail was delivered, the job comes again, its only attempt is lost, and the link is dead. */
  method DeliveredLinkCanBeExpired(repo: InvitationRepository) returns (end: Ending)
    requires repo.Valid() && |repo.rows| > 0 && repo.rows[0].status == Delivered && repo.rows[0].expiresAt > 0
    modifies repo`rows
    ensures end == Failed(0) && |repo.rows| == |old(repo.rows)|
    ensures repo.rows[0].status == Delivered && !repo.rows[0].LiveAt(0)
  {
    var worker := new InvitationProcessor(repo);
    var lost := Attempt([], Some(Ordinary), None, [], 0, true, None, Accepted(Some(7)), None, false, 0, [], false, 0);
    var job := Job(Readable(0), 1);
    var script := [lost];
    RedeliveredIsGivenUpExactlyWhen(job, script, 0, repo.rows, 0);
    PlayedOn(job, script, 0, repo.rows, Some(Ordinary), Attempted(job, 1, lost, repo.rows).1, []);
    end := worker.RunJob(job, script);
  }

  /** After an attempt whose mail left and was marked, the job is done and its invitation no longer queued. */
  lemma MarkedIsDone(job: Job, made: nat, a: Attempt, rows: seq<Invitation>)
    requires job.payload.Readable? && job.payload.invitation < |rows|
    requires forall i :: 0 <= i < |rows| ==> rows[i].id == i
    requires MailOf(job, a, rows) == [true]
    ensures var (error, after) := Attempted(job, made, a, rows);
            error.None? && |after| == |rows| && after[job.payload.invitation].status != Queued
  {
    var id := job.payload.invitation;
    OutcomeOfSending(RowOf(rows, id), a);
    OpsKeepIds(a.midway, rows);
    var met := Midway(a, rows);
    assert met[id].id == id;
    WhatEachWriteLeaves(RowOp.MarkSent(id, a.delivery.message), met[id]);
  }

  /** No mail leaves after one whose invitation was marked. */
  predicate NoneAfterMarked(mails: seq<bool>) {
    forall i :: 0 <= i < |mails| - 1 ==> !mails[i]
  }

  lemma MailsJoin(first: seq<bool>, rest: seq<bool>)
    requires NoneAfterMarked(first) && NoneAfterMarked(rest) && (true in first ==> rest == [])
    ensures NoneAfterMarked(first + rest)
    ensures true in first + rest ==> true in first || true in rest
  {
    var mails := first + rest;
    forall i | 0 <= i < |mails| - 1 ensures !mails[i] {
      if i < |first| { assert mails[i] == first[i] && (first[i] ==> true in first); }
    }
  }

  /** Within one delivery only the last mail can have been marked, and then the invitation is no longer queued. */
  lemma {:induction false} MarkedMailIsTheLast(job: Job, script: seq<Attempt>, made: nat, rows: seq<Invitation>)
    requires made <= |script| && job.payload.Readable? && job.payload.invitation < |rows|
    requires forall i :: 0 <= i < |rows| ==> rows[i].id == i
    ensures var mails, after := MailsOf(job, script, made, rows), Played(job, script, made, rows).1;
            && |after| == |rows| && (forall i :: 0 <= i < |after| ==> after[i].id == i)
            && NoneAfterMarked(mails)
            && (true in mails ==> after[job.payload.invitation].status != Queued)
    decreases |script| - made
  {
    if made < |script| {
      var a := script[made];
      var found := ApplyOps(a.before, rows);
      OpsKeepIds(a.before, rows);
      AttemptKeepsIds(job, made + 1, a, found);
      var (error, after) := Attempted(job, made + 1, a, found);
      var mail := MailOf(job, a, found);
      if mail == [true] { MarkedIsDone(job, made + 1, a, found); }
      if error.None? || IsLast(job, made + 1, error.value) {
        MailsJoin(mail, []);
      } else {
        MarkedMailIsTheLast(job, script, made + 1, after);
        MailsJoin(mail, MailsOf(job, script, made + 1, after));
      }
    }
  }

  /**
    However often a job is delivered, one delivery after another, and whatever fails: once
    an attempt has marked the invitation as sent, no mail leaves any more.
  */
  lemma {:induction false} NoMailAfterAMarkedOne(job: Job, scripts: seq<seq<Attempt>>, rows: seq<Invitation>)
    requires job.payload.Readable? && job.payload.invitation < |rows|
    requires forall i :: 0 <= i < |rows| ==> rows[i].id == i
    ensures NoneAfterMarked(MailsOfAll(job, scripts, rows))
    ensures rows[job.payload.invitation].status != Queued ==> MailsOfAll(job, scripts, rows) == []
    decreases |scripts|
  {
    if scripts != [] {
      var after := Played(job, scripts[0], 0, rows).1;
      MarkedMailIsTheLast(job, scripts[0], 0, rows);
      NoMailAfterAMarkedOne(job, scripts[1..], after);
      MailsJoin(MailsOf(job, scripts[0], 0, rows), MailsOfAll(job, scripts[1..], after));
      if rows[job.payload.invitation].status != Queued { RedeliveredJobSendsNothing(job, scripts[0], 0, rows); }
    }
  }

  // ---- how a job ends ---------------------------------------------------------------

  /**
    A job that is given up leaves its invitation closed, unless its last mail left or
    no write of the expiry worked.
  */
  lemma {:induction false} GivenUpIsClosed(job: Job, script: seq<Attempt>, made: nat, rows: seq<Invitation>)
    requires made <= |script| && job.payload.Readable? && job.payload.invitation < |rows|
    requires forall i :: 0 <= i < |rows| ==> rows[i].id == i
    ensures var (end, after) := Played(job, script, made, rows);
            && |after| == |rows|
            && (end.Failed? ==>
                  && made <= end.last < |script|
                  && (!script[end.last].MailLeft() && script[end.last].SomeExpiryWorks()
                      && script[end.last].OnTheClock() ==>
                        !after[job.payload.invitation].LiveAt(script[end.last].backupAt)))
    decreases |script| - made
  {
    if made < |script| {
      var a := script[made];
      assert a in script;
      var found := ApplyOps(a.before, rows);
      OpsKeepIds(a.before, rows);
      AttemptKeepsIds(job, made + 1, a, found);
      var (error, after) := Attempted(job, made + 1, a, found);
      if error.Some? {
        if IsLast(job, made + 1, error.value) {
          ExpiryCloses(job, made + 1, a, found);
        } else {
          GivenUpIsClosed(job, script, made + 1, after);
        }
      }
    }
  }

  lemma {:induction false} PlayedKeepsSize(job: Job, script: seq<Attempt>, made: nat, rows: seq<Invitation>)
    requires made <= |script|
    ensures |Played(job, script, made, rows).1| == |rows|
    decreases |script| - made
  {
    if made < |script| {
      var (error, after) := Attempted(job, made + 1, script[made], ApplyOps(script[made].before, rows));
      if error.Some? && !IsLast(job, made + 1, error.value) { PlayedKeepsSize(job, script, made + 1, after); }
    }
  }

  lemma {:induction false} OpsKeepIds(ops: seq<RowOp>, rows: seq<Invitation>)
    requires forall i :: 0 <= i < |rows| ==> rows[i].id == i
    ensures forall i :: 0 <= i < |rows| ==> ApplyOps(ops, rows)[i].id == i
  {
    if ops != [] { OpsKeepIds(ops[..|ops| - 1], rows); }
  }

  lemma AttemptKeepsIds(job: Job, made: nat, a: Attempt, rows: seq<Invitation>)
    requires forall i :: 0 <= i < |rows| ==> rows[i].id == i
    ensures var after := Attempted(job, made, a, rows).1;
            |after| == |rows| && forall i :: 0 <= i < |rows| ==> after[i].id == i
  {
    OpsKeepIds(a.beforeEvent, rows);
    OpsKeepIds(a.midway, rows);
    var met := Midway(a, rows);
    OpsKeepIds(a.beforeEvent, met);
    if job.payload.Readable? {
      var byProcess := ExpiredIf(a.lost.None? && !a.expiryFails, job.payload.invitation, a.expiredAt, met);
      OpsKeepIds(a.beforeEvent, byProcess);
    }
  }

  lemma {:induction false} OpsKeepDead(ops: seq<RowOp>, rows: seq<Invitation>, i: nat, at: Time)
    requires i < |rows| && !rows[i].LiveAt(at)
    requires forall op :: op in ops && (op.Expire? || op.ExpireLiveOf?) ==> op.at <= at
    ensures !ApplyOps(ops, rows)[i].LiveAt(at)
  {
    if ops != [] { OpsKeepDead(ops[..|ops| - 1], rows, i, at); }
  }

  lemma ExpiryCloses(job: Job, made: nat, a: Attempt, rows: seq<Invitation>)
    requires job.payload.Readable? && job.payload.invitation < |rows|
    requires forall i :: 0 <= i < |rows| ==> rows[i].id == i
    ensures var (error, after) := Attempted(job, made, a, rows);
            && |after| == |rows|
            && (error.Some? && IsLast(job, made, error.value) && !a.MailLeft() && a.SomeExpiryWorks()
                && a.OnTheClock() ==>
                  !after[job.payload.invitation].LiveAt(a.backupAt))
  {
    var id, met := job.payload.invitation, Midway(a, rows);
    OpsKeepIds(a.midway, rows);
    var works := a.lost.None? && !a.expiryFails;
    var byProcess := ExpiredIf(works, id, a.expiredAt, met);
    OpsKeepIds(a.beforeEvent, byProcess);
    if works && a.OnTheClock() { OpsKeepDead(a.beforeEvent, byProcess, id, a.backupAt); }
  }

  /**
    When a job is given up: at the first attempt whose error is the last one, none
    before it having succeeded. `errors` are the outcomes of the attempts so far.
  */
  lemma {:induction false} EndsWhereItMust(job: Job, script: seq<Attempt>, made: nat, rows: seq<Invitation>)
    requires made <= |script| && (made == 0 || made < job.attempts || |script| == made)
    ensures var end := Played(job, script, made, rows).0;
            && (end.Failed? ==> made <= end.last < |script| && (end.last == made || end.last < job.attempts))
            && (end.Failed? && job.payload.Readable? && (forall a :: a in script ==> a.OnlyOrdinary()) ==>
                end.last + 1 >= job.attempts)
            && (end.Waiting? ==> made == |script| || |script| < job.attempts)
            && (forall k :: made <= k < |script| && script[k].lost == Some(Unrecoverable) ==>
                  !end.Waiting? && (end.Failed? ==> end.last <= k))
            && (job.payload.Unreadable? && made < |script| && script[made].lost.None? ==> end == Failed(made))
            && (end.Completed? ==> job.payload.Readable?)
    decreases |script| - made
  {
    if made < |script| {
      var a := script[made];
      assert a in script;
      var (error, after) := Attempted(job, made + 1, a, ApplyOps(a.before, rows));
      if error.Some? && !IsLast(job, made + 1, error.value) {
        EndsWhereItMust(job, script, made + 1, after);
      }
    }
  }

  /**
    The protection is for the attempt under way only: a mail that left in an
    earlier attempt does not keep the invitation open when the last one cannot
    send. Two attempts, the first mailed and failed to mark, the second refused.
  */
  method EarlierMailDoesNotProtect(repo: InvitationRepository)
    returns (firstError: Option<Error>, lastError: Option<Error>)
    requires repo.Valid() && |repo.rows| > 0 && repo.rows[0].status == Queued && repo.rows[0].expiresAt > 0
    modifies repo`rows
    ensures firstError.Some? && lastError.Some?
    ensures |repo.rows| == |old(repo.rows)| && repo.rows[0].status == Queued && !repo.rows[0].LiveAt(0)
  {
    var worker := new InvitationProcessor(repo);
    var mailed := Attempt([], None, None, [], 0, true, None, Accepted(Some(7)), Some(Ordinary), false, 0, [], false, 0);
    assert mailed.MailLeft();
    var refused := mailed.(delivery := Refused(Ordinary));
    var job := Job(Readable(0), 2);
    firstError := worker.Process(job, 0, mailed);
    worker.OnFailed(Some(job), 1, Ordinary, mailed);
    lastError := worker.Process(job, 1, refused);
    worker.OnFailed(Some(job), 2, Ordinary, refused);
  }
}
