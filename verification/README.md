# A verified model of the wedding-planner backend

A Dafny model of the parts of the backend that carry real invariants, with proofs over
every run. Where requests can overlap, their steps are taken apart and the proofs range
over every interleaving of those steps; "Left out" says what is still taken as one step.
`dafny verify dfyconfig.toml` checks it all.

| files | what they model |
|---|---|
| `Sessions`, `SessionTransactions`, `SessionDeadlock`, `SessionStore`, `Refresh` | refresh sessions: the locked transactions over READ COMMITTED as small steps, the atomic store they refine, deadlock freedom, and the refresh and logout use cases under any interference |
| `Seating`, `SeatingPlan` | the seating plan: swaps as an effect on a partial injection, the derived view, and the store edited by every use case |
| `Invitation`, `InvitationLifecycle`, `InvitationStore`, `InvitationSending`, `InvitationWorker` | invitations: the ranked status, token expiry over time, webhooks, batch sending, the retrying worker |
| `Pagination` | keyset listing against "filter and sort everything", while rows come and go |
| `TokenBucket` | the rate limit of `join` |
| `Money`, `Budget` | amounts as text and as cents; the budget summary |
| `Portfolio` | the position column against plain lists |
| `GuestImport` | the all-or-nothing import with its complete report |
| `Common`, `Lists`, `Cycles` | small shared definitions |

How it is set up:

- Session transactions are steps: read the targets, take each lock, take the UPDATE's
  snapshot, visit its rows one by one (waiting for rows written by others, with the WHERE
  re-evaluated), insert, COMMIT or abort. Lock keys are an arbitrary function of the family.
  A login opens a family of its own. At most one user-wide revocation per user is open at a
  time, because its only caller updates the user's row first
  (`src/modules/auth/application/reset-password.use-case.ts:60-61`).
- Use cases that are not one transaction (`Refresh`, `InvitationWorker`, `Portfolio`,
  `GuestImport`) take as parameters what everybody else does between their steps.
- Changes of a guest and of an expense read the row first and write later; the write gets
  what was read, which may be stale (`InvitationSending.GuestBook.Write`,
  `Budget.ExpenseRepository.Write`, and the steps of `InvitationLifecycle`).
- Clocks, fresh ids, failures of the queue, the mail provider and the database, and
  JavaScript's `toLowerCase` are parameters.

Seven places where the code promises less than one might read into it, each with a concrete
run and the exact condition:

- The comment at `src/modules/auth/infrastructure/prisma-session.repository.ts:121-122` says
  a collision of lock keys only serialises more than needed. Two collisions that cross can
  also make two user-wide revocations deadlock (`SessionDeadlock.DeadlockExactlyOnCrossing`).
- A user-wide revocation covers the families of its list; a later one can outlive it
  (`SessionTransactions.LaterFamilyCanEscape`), exactly when a live session of the user was
  published after the snapshot of its UPDATE
  (`SessionTransactions.UserRevocationIsCompleteExactlyWhen`).
- The 10-second window is tested on the row as it was read: a session read live whose swap
  is lost is honoured however long ago the winner revoked it
  (`Refresh.StaleReadIsHonoured`; when exactly: `Refresh.RefreshUseCase.Fallback` with
  `Refresh.BeyondTheWindowOnlyAStaleRead`).
- Ending the old tokens and creating the new one are two writes, so overlapping sends leave
  two live tokens (`InvitationLifecycle.OverlappingSendsLeaveTwo`,
  `InvitationLifecycle.OneLiveThroughoutExactlyWhen`).
- Whether an address changes is decided on a row read before the transaction. When two
  updates of a guest overlap, one can put the old address back without ending the token
  mailed to the other one (`InvitationLifecycle.OverlappingUpdatesKeepALink`,
  `InvitationLifecycle.LinksFollowThroughoutExactlyWhen`).
- The date of payment is computed from such a read too, so overlapping requests can leave
  a paid expense with the wrong one (`Budget.PaidTwiceIsMisdated`, `Budget.PaidSince`).
- The `failed` event expires an invitation without looking at its status. A job that is
  delivered again after its mail was delivered, and is lost until its attempts run out,
  kills the link in the guest's inbox (`InvitationWorker.DeliveredLinkCanBeExpired`,
  `InvitationWorker.RedeliveredIsGivenUpExactlyWhen`).

## Model

| member | source | states |
|---|---|---|
| Sessions.RotateIsLater | src/modules/auth/infrastructure/prisma-session.repository.ts:34-55 | a rotation, won exactly if its parent is live, only sets `revokedAt` of that row and adds the child; dead families stay dead, and one live session per family stays so |
| Sessions.RevokeFamilyIsLater | src/modules/auth/infrastructure/session.repository.fake.ts:49-55 | revoking a family sets `revokedAt` of exactly its live sessions, leaves none live in it and revives none anywhere |
| Sessions.RevokeUserIsLater | src/modules/auth/infrastructure/session.repository.fake.ts:64-70 | revoking a user's sessions sets `revokedAt` of exactly the live ones, revives none and removes no row |
| SessionTransactions.StepKeepsInv | src/modules/auth/infrastructure/prisma-session.repository.ts:34-126 | every step of every transaction (lock, snapshot, row visit, insert, COMMIT, abort) and every login keeps the protocol invariant |
| SessionTransactions.RotationIsAtomic | src/modules/auth/infrastructure/prisma-session.repository.ts:34-55 | what a rotation publishes at COMMIT, and whether it says it won, is the atomic compare-and-swap at that moment |
| SessionTransactions.FamilyRevocationIsAtomic | src/modules/auth/infrastructure/prisma-session.repository.ts:57-65 | what a family revocation publishes is the atomic one on the table at COMMIT: no child inserted meanwhile escapes |
| SessionTransactions.UserRevocationIsAtomic | src/modules/auth/infrastructure/prisma-session.repository.ts:80-106 | a user-wide revocation publishes the atomic one on every family that existed when it listed its targets, and on the whole table if and only if its UPDATE wrote every session of the user live at COMMIT |
| SessionTransactions.UserRevocationIsCompleteExactlyWhen | src/modules/auth/infrastructure/prisma-session.repository.ts:80-106 | over any run: a user-wide revocation is the atomic one on the whole table if and only if every session of the user live at its COMMIT was already in the table that its UPDATE took its snapshot of |
| SessionTransactions.RunKeepsInv | src/modules/auth/infrastructure/prisma-session.repository.ts:34-126 | the invariant holds in every state of every interleaving |
| SessionTransactions.RevocationIsFinal | src/modules/auth/infrastructure/prisma-session.repository.ts:57-106 | in every interleaving, from the COMMIT of a revocation on, each family that existed when it read its targets has no live session, for ever |
| SessionTransactions.CoveredAtBegin | src/modules/auth/infrastructure/prisma-session.repository.ts:82-92 | which families those are: the one named, or all that the user had when the list was read; the set never changes |
| SessionTransactions.LaterFamilyCanEscape | src/modules/auth/infrastructure/prisma-session.repository.ts:80-106 | the limit of that promise: a concrete run in which a family opened after the list was read outlives the revocation, because one of its sessions is being rotated |
| SessionTransactions.FamiliesAreChains | src/modules/auth/infrastructure/prisma-session.repository.ts:34-55 | in every committed state a family has at most one live session and one session plus one per committed rotation, and no session was rotated twice |
| SessionDeadlock.NoDeadlock | src/modules/auth/infrastructure/prisma-session.repository.ts:80-105 | no cycle of transactions waiting for each other, by advisory locks or rows, unless the keys of two pairs of families cross |
| SessionDeadlock.CrossingDeadlocks | src/modules/auth/infrastructure/prisma-session.repository.ts:80-126 | if they cross, two user-wide revocations can deadlock in spite of taking their locks in ascending order |
| SessionDeadlock.DeadlockExactlyOnCrossing | src/modules/auth/infrastructure/prisma-session.repository.ts:80-126 | a deadlock is reachable if and only if f1 < f2 and f3 < f4 exist with key(f1) = key(f4) different from key(f2) = key(f3) |
| SessionDeadlock.DistinctKeysNeverDeadlock | src/modules/auth/infrastructure/prisma-session.repository.ts:80-105 | with distinct keys for distinct families the wait-for relation is never cyclic |
| SessionDeadlock.SomebodyCanMove | src/modules/auth/infrastructure/prisma-session.repository.ts:34-126 | while transactions are open, at least one of them can take its next step |
| SessionStore.Store.Rotate | src/modules/auth/infrastructure/session.repository.fake.ts:41-47 | the in-memory rotation is the specified compare-and-swap; an unknown session is simply not rotated |
| SessionStore.Store.RevokeFamily | src/modules/auth/infrastructure/session.repository.fake.ts:49-55 | the loop over the rows performs the specified family revocation |
| SessionStore.Store.RevokeUser | src/modules/auth/infrastructure/session.repository.fake.ts:64-70 | the loop over the rows performs the specified user-wide revocation |
| SessionStore.Store.FindByHash | src/modules/auth/infrastructure/session.repository.fake.ts:34-39 | answers a row with that hash, or there is none |
| SessionStore.Store.FindLive | src/modules/auth/infrastructure/session.repository.fake.ts:57-62 | answers a live session of the family, or there is none |
| Refresh.RefreshUseCase.Execute | src/modules/auth/application/refresh.use-case.ts:43-96 | under any interference the answer and the store are determined; tokens only to the presented session's own user, who still exists, for an unexpired session; all that the call did then is one swap, of that session or of its family's live one, for a session that is stored live, under the hash answered, until the expiry the call was given; a reuse leaves the family dead and does nothing else of its own; a session read as revoked for more than 10000 ms, in particular one revoked that long when the call began, is never honoured and its family is dead; alone, tokens are given exactly when the rules say so |
| Refresh.RefreshUseCase.Fallback | src/modules/auth/application/refresh.use-case.ts:88-92 | a token found revoked, or whose swap was lost: answer and store are determined under any interference; it is treated as reused exactly when the grace path does not settle it, and then its family is revoked and nothing else; tokens mean one swap of the family's live session for one that lives until the given expiry |
| Refresh.BeyondTheWindowOnlyAStaleRead | src/modules/auth/application/refresh.use-case.ts:116-158 | the limit of the window, for what Fallback does under any interference: a session revoked longer ago escapes being treated as reused exactly if it was read while still live, and has expired or its family's successor is won |
| Refresh.StaleReadIsHonoured | src/modules/auth/application/refresh.use-case.ts:87-89 | a call that does so: read live, swap lost to another request, clock read 20001 ms after the revocation, tokens given |
| Refresh.RefreshUseCase.ContinueAsConcurrent | src/modules/auth/application/refresh.use-case.ts:113-161 | the grace window: closed after 10000 ms and for expired tokens; otherwise the live successor is rotated once more, into a session that lives until the given expiry |
| Refresh.RefreshUseCase.RotateSuccessor | src/modules/auth/application/refresh.use-case.ts:142-158 | answers the user, the presented session's own, exactly when this call won one swap, and then the new session is stored live until the given expiry; alone, exactly when the family has an unexpired live session |
| Refresh.RefreshUseCase.KillFamily | src/modules/auth/application/refresh.use-case.ts:61-62 | the family is dead when the call returns, whatever the others did, and revoking it is all the call did |
| Refresh.Logout | src/modules/auth/application/logout.use-case.ts:16-19 | the whole family of a known token is dead afterwards, and revoking it is all the call did; an unknown token changes nothing |
| Seating.ViewIsTheAssignments | src/modules/seating/domain/seating.ts:101-120 | flattening the view gives back exactly the assignments |
| Seating.ViewShowsEachSeatOnce | src/modules/seating/domain/seating.ts:108-119 | every table shows the seats 0 to seatCount - 1, once each, in order |
| Seating.SurplusMeansNoPlace | src/modules/seating/domain/seating.ts:57-73 | an occupant is marked surplus exactly when the guest declined, or the index exceeds the companions confirmed, or the quota while none are confirmed |
| Seating.StrangersAreSurplus | src/modules/seating/domain/seating.ts:71-73 | somebody whose guest is unknown is surplus |
| Seating.DeclinedIsAllSurplus | src/modules/seating/domain/seating.ts:57-73 | after a refusal every seat of that guest is shown as surplus |
| Seating.ConfirmedHaveTheirPlaces | src/modules/seating/domain/seating.ts:57-73 | of a guest confirmed with n companions, the people not shown as surplus are exactly the seated ones among the first n + 1, so n + 1 when all sit |
| Seating.GridFills | src/modules/seating/domain/seating.ts:89-98 | the grid: from (40, 40), each table 220 to the right of the one before, five in a row, rows 220 apart |
| Seating.GridPlacesDiffer | src/modules/seating/domain/seating.ts:89-98 | no two tables are first drawn at the same place |
| Seating.SeatedShape | src/modules/seating/application/assign-seat.use-case.ts:39-61 | the four ways an assignment can go: place, move, displace, swap |
| Seating.SeatedKeepsInjective | src/modules/seating/application/assign-seat.use-case.ts:39-61 | after it no seat has two people and no person two seats |
| Seating.SeatedMeaning | src/modules/seating/application/assign-seat.use-case.ts:39-61 | the person is in the seat, its old occupant in the person's old seat or unseated, everybody else where they were |
| Seating.SeatedBackRestores | src/modules/seating/application/assign-seat.use-case.ts:39-61 | assigning a seated person back to the old seat restores the original assignments |
| SeatingPlan.SeatingRepository.Assign | src/modules/seating/infrastructure/seating.repository.fake.ts:93-102 | inserts exactly when neither the seat nor the person is taken, in any event |
| SeatingPlan.SeatingRepository.ListTables | src/modules/seating/infrastructure/seating.repository.fake.ts:33-40 | the tables of the event, in creation order |
| SeatingPlan.Check | src/modules/seating/application/assign-seat.use-case.ts:33-37 | which error an assignment gets, in the order of the checks, or none: unknown table, seat beyond its count, guest unknown or declined or companion beyond the number confirmed, else the quota |
| SeatingPlan.AssignSeat | src/modules/seating/application/assign-seat.use-case.ts:30-64 | refused for exactly those reasons, on the stored fields, with the stored plan unchanged, or performed as specified and answered with the new view; the uniqueness error never occurs |
| SeatingPlan.AnswerIsShown | src/modules/seating/domain/seating.ts:57-73 | in every sound plan: a declined guest's seats are all shown as surplus, a guest confirmed with n companions has at most n + 1 people rightly seated, and all n + 1 if all sit |
| SeatingPlan.ChangeGuest | src/modules/seating/domain/seating.ts:66-73 | a guest who answers keeps the seats; the view shows at once which of them are surplus |
| SeatingPlan.MovingBackIsAccepted | src/modules/seating/application/assign-seat.use-case.ts:33-37 | asking for the old seat again is not refused |
| SeatingPlan.ClearSeat | src/modules/seating/application/clear-seat.use-case.ts:19-27 | empties exactly that seat; idempotent; errors for an unknown table or seat |
| SeatingPlan.CreateTables | src/modules/seating/infrastructure/seating.repository.fake.ts:51-65 | whatever batch it is given is appended with fresh ids and later creation instants; one within the limits keeps the plan sound |
| SeatingPlan.GenerateTables | src/modules/seating/application/generate-tables.use-case.ts:36-57 | all the tables or none, refused exactly for an invalid range or beyond 100; the k-th new one bears the k-th number after those there were, has its minimum of seats and the k-th place of the grid after theirs |
| SeatingPlan.CreateTable | src/modules/seating/application/create-table.use-case.ts:32-56 | one table with the given name or the next number, the given range, its minimum of seats, all empty, at the next place of the grid, shown as the event's view shows it; or the same two errors |
| SeatingPlan.UpdateTable | src/modules/seating/application/update-table.use-case.ts:28-51 | refused exactly when the range would be invalid or an occupied seat would vanish; otherwise only that table changes, field by field as asked |
| SeatingPlan.DeleteTable | src/modules/seating/application/delete-table.use-case.ts:11-13 | removes the table and exactly the assignments at it |
| SeatingPlan.Run | src/modules/seating/infrastructure/seating.repository.fake.ts:51-118 | any sequence of accepted and refused edits over any events keeps the plan sound |
| SeatingPlan.SoundPlan | src/modules/seating/infrastructure/seating.repository.fake.ts:51-118 | what sound means: injective, every assignment below its table's seat count and in the event of its table and guest, 1 <= min <= seats <= max <= 20, at most 100 tables per event, and the view is the assignments |
| Invitation.AdvancesExactlyUpwards | src/modules/guests/domain/invitation.ts:65-69 | the list in the WHERE clause holds exactly the statuses of lower rank |
| Invitation.CanAdvance | src/modules/guests/domain/invitation.ts:65-69 | the membership test decides whether the rank is lower |
| Invitation.WhatEachWriteLeaves | src/modules/guests/infrastructure/invitation.repository.fake.ts:191-261 | each write, status by status and column by column: which rows it changes and what it leaves in them, the message id included |
| Invitation.RankNeverDecreases | src/modules/guests/domain/invitation.ts:42-69 | no run of writes lowers the rank, undoes an answer or changes a message id once sent |
| Invitation.DeadStaysDead | src/modules/guests/domain/invitation.ts:90-92 | no run of writes made at instants up to now revives a dead token |
| Invitation.FinalRankIsTheMaximum | src/modules/guests/application/handle-delivery-event.use-case.ts:44-55 | for any events about a sent invitation the final rank is the maximum of the initial one and theirs (2 for a delivery, 3 for a bounce or a complaint) |
| Invitation.FinalStatus | src/modules/guests/application/handle-delivery-event.use-case.ts:44-55 | the final status for any events about a mail that left: bounced if and only if a bounce came before any complaint, complained if and only if the reverse, delivered if and only if delivered with neither, else unchanged; no other column changes |
| Invitation.EndedStaysEnded | src/modules/guests/domain/invitation.ts:42-69 | no event moves a bounced, complained or answered invitation |
| Invitation.OrderAndRepetitionDoNotMatter | src/modules/guests/application/handle-delivery-event.use-case.ts:44-55 | order and duplicates of webhooks do not matter to the final rank |
| Invitation.AtMostTwoNotices | src/modules/guests/application/handle-delivery-event.use-case.ts:87-120 | at most two delivery notices, delivered first, never both a bounce and a complaint, however replies and sends interleave |
| InvitationLifecycle.StepKeepsInv | src/modules/guests/application/send-invitations.use-case.ts:162-192 | every step keeps "at most one live token, none while a send is half done" |
| InvitationLifecycle.AtMostOneLiveToken | src/modules/guests/application/send-invitations.use-case.ts:162-192 | in every run whose sends for one guest do not overlap, a guest has at most one live token |
| InvitationLifecycle.EmailChangeKillsTokens | src/modules/guests/application/update-guest.use-case.ts:25-46 | right after a write that changes the stored address no token of the guest is live, if and only if the address written differs from the one the request had read, or none was live |
| InvitationLifecycle.LinksFollowThroughoutExactlyWhen | src/modules/guests/application/update-guest.use-case.ts:25-46 | over whole runs, overlapping or not: every live token was mailed to the guest's present address, if and only if each write that changed an address was seen as a change by its request or found no token live |
| InvitationLifecycle.SeparateUpdatesAreSafe | src/modules/guests/application/update-guest.use-case.ts:25-46 | if updates of one guest do not overlap, live tokens follow the address and every change of address leaves none |
| InvitationLifecycle.OverlappingUpdatesKeepALink | src/modules/guests/application/update-guest.use-case.ts:39-40 | a run of two overlapping updates that leaves a live token mailed to an address the guest no longer has |
| InvitationLifecycle.RowsAge | src/modules/guests/infrastructure/invitation.repository.fake.ts:191-261 | along any run no token revives and no status goes back, even though an expiry already past can be moved forward |
| InvitationLifecycle.CreationIsSafeExactlyWhenNoneIsLive | src/modules/guests/application/send-invitations.use-case.ts:176-182 | creating a token keeps "at most one" if and only if none of the guest is live at that moment |
| InvitationLifecycle.OneLiveThroughoutExactlyWhen | src/modules/guests/application/send-invitations.use-case.ts:162-192 | over whole runs, overlapping or not: nobody ever has two live tokens if and only if each token was created when none of its guest's was live, or was born dead |
| InvitationLifecycle.OverlappingSendsLeaveTwo | src/modules/guests/application/send-invitations.use-case.ts:176-182 | two overlapping sends leave two live tokens: ending and creating are two writes |
| InvitationStore.InvitationRepository.MarkSent | src/modules/guests/infrastructure/invitation.repository.fake.ts:191-204 | advances a queued invitation only, keeping the provider's message id |
| InvitationStore.InvitationRepository.MarkResponded | src/modules/guests/infrastructure/invitation.repository.fake.ts:215-221 | writes exactly if the token is live at the instant given |
| InvitationStore.InvitationRepository.Expire | src/modules/guests/infrastructure/invitation.repository.fake.ts:223-227 | sets the expiry of one row, whatever it was |
| InvitationStore.InvitationRepository.ExpireLiveOf | src/modules/guests/infrastructure/invitation.repository.fake.ts:230-237 | the loop ends exactly the guest's tokens live at that instant |
| InvitationStore.InvitationRepository.Report | src/modules/guests/infrastructure/invitation.repository.fake.ts:244-261 | the loop advances exactly the rows of that message with lower rank, and answers those, in order |
| InvitationStore.HitListMeaning | src/modules/guests/infrastructure/invitation.repository.fake.ts:244-261 | the answered rows are all those hit, each once |
| InvitationStore.AnnouncedExactly | src/modules/guests/application/handle-delivery-event.use-case.ts:104-120 | a notice exists for exactly the advanced invitations that could be queued |
| InvitationStore.OneNoticeEach | src/modules/guests/application/handle-delivery-event.use-case.ts:104-120 | no invitation is announced twice for one event |
| InvitationStore.HandleDeliveryEvent | src/modules/guests/application/handle-delivery-event.use-case.ts:87-121 | kind by kind: a delivery moves exactly the rows of the message that are queued or sent to delivered, a bounce and a complaint those and the delivered ones to theirs, other kinds nothing; the notices tell, of exactly the rows that advanced and could be announced, the guest and the status stored |
| InvitationSending.EnqueueInvitation | src/modules/guests/application/send-invitations.use-case.ts:162-192 | ends the guest's live tokens, then creates one; a full queue leaves the row but reports failure |
| InvitationSending.SendLeavesOneToken | src/modules/guests/application/send-invitations.use-case.ts:176-182 | after a send only the new token opens the invitation |
| InvitationSending.SendIsItsTwoSteps | src/modules/guests/application/send-invitations.use-case.ts:176-182 | a send with nobody in between is the two steps of the lifecycle one after the other |
| InvitationSending.SendInvitations | src/modules/guests/application/send-invitations.use-case.ts:89-140 | every guest is queued or skipped for the first reason that applies, and one failure stops nobody; whoever was eligible has only the new token, valid for 90 days, the others' rows are untouched; the rows and the queued list are determined |
| InvitationSending.EveryReasonIsTheirs | src/modules/guests/application/send-invitations.use-case.ts:96-139 | skipped for want of an address, for having answered, or because the send failed, exactly when that is so |
| InvitationSending.QueuedIsEverybodyElse | src/modules/guests/application/send-invitations.use-case.ts:89-140 | queued exactly are those with an address who did not answer, still exist and whose job the queue took |
| InvitationSending.QueuedIsTheNewRow | src/modules/guests/application/send-invitations.use-case.ts:117-123 | the invitation reported as queued is the row this send created for that guest |
| InvitationSending.EveryGuestIsAccountedFor | src/modules/guests/application/send-invitations.use-case.ts:89-140 | queued and skipped together are the guests, each once |
| InvitationSending.GuestBook.Write | src/modules/guests/application/update-guest.use-case.ts:39-46 | the write, given what the request read: row, constraints and tokens are determined; after a change of the stored address no token is live exactly if the request saw a change or none was live |
| InvitationSending.GuestBook.UpdateGuest | src/modules/guests/application/update-guest.use-case.ts:21-47 | the three refusals (unknown guest, quota below what is confirmed, address of another guest), the new record field by field, with nobody in between the live tokens are ended exactly when the address changed and nothing else of the rows changes; addresses stay unique in an event |
| InvitationWorker.InvitationProcessor.Send | src/modules/guests/interfaces/invitation.processor.ts:182-251 | the outcome of one attempt; the mail leaves if and only if the invitation found is queued, its token live at that instant, the guest has an address, rendering works and the provider accepts |
| InvitationWorker.OutcomeOfSending | src/modules/guests/interfaces/invitation.processor.ts:182-251 | which error an attempt has, going by what it found: none if there was nothing to send, else the first that failed |
| InvitationWorker.RedeliveredJobSendsNothing | src/modules/guests/interfaces/invitation.processor.ts:194-199 | a job delivered again when its invitation is no longer queued sends nothing, whatever fails; the first attempt that looks completes it, and then nothing is marked or expired |
| InvitationWorker.RedeliveredIsGivenUpExactlyWhen | src/modules/guests/interfaces/invitation.processor.ts:144-159 | such a job is given up, which expires a link already mailed, if and only if its attempts run out, or the retries are stopped, before any attempt looks at the invitation |
| InvitationWorker.DeliveredLinkCanBeExpired | src/modules/guests/interfaces/invitation.processor.ts:144-171 | a run in which that happens: mail delivered, job delivered again, its only attempt lost |
| InvitationWorker.NoMailAfterAMarkedOne | src/modules/guests/interfaces/invitation.processor.ts:182-251 | over any number of deliveries of a job, one after another: once an attempt has marked the invitation, no mail leaves any more |
| InvitationWorker.InvitationProcessor.Process | src/modules/guests/interfaces/invitation.processor.ts:84-123 | expires on the last failing attempt unless the mail left in it; then it leaves a mark instead; an unreadable payload fails for good and touches nothing |
| InvitationWorker.InvitationProcessor.OnFailed | src/modules/guests/interfaces/invitation.processor.ts:144-159 | clears the mark; without one, expires when no attempt is left; nothing without a job or with an unreadable payload |
| InvitationWorker.GivenUpIsClosed | src/modules/guests/interfaces/invitation.processor.ts:82-159 | a job given up leaves its token dead at the last attempt's expiry, unless its last mail left or no expiry write worked |
| InvitationWorker.EndsWhereItMust | src/modules/guests/interfaces/invitation.processor.ts:255-259 | a job fails at the first attempt whose error is the last one, never later than an unrecoverable loss, and with ordinary errors only when its attempts are used up; it waits only with attempts left; an unreadable payload fails at once |
| InvitationWorker.InvitationProcessor.RunJob | src/modules/guests/interfaces/invitation.processor.ts:82-159 | for any attempts and failures, and any writes of others before, within and after each attempt, how the job ends, the mails that left and the rows it leaves are determined; a job given up leaves its invitation expired unless its last mail left or every expiry write failed; if it left, the worker never expires it; marks are cleared |
| InvitationWorker.EarlierMailDoesNotProtect | src/modules/guests/interfaces/invitation.processor.ts:94-121 | the mark is per attempt: a mail sent in an earlier attempt does not keep the invitation open |
| Pagination.ListPage | src/modules/guests/infrastructure/prisma-guest.repository.ts:27-82 | a page is the first rows after the cursor, in order, with a next cursor exactly if more follow |
| Pagination.Candidates | src/modules/expenses/infrastructure/expense.repository.fake.ts:62-77 | filtering, cursor and order, for either direction |
| Pagination.PagesAdvance | src/modules/guests/infrastructure/prisma-guest.repository.ts:45-72 | everything returned so far lies at or before the cursor, strictly increasing |
| Pagination.NothingIsSkipped | src/modules/guests/infrastructure/prisma-guest.repository.ts:45-72 | a row present throughout was returned or lies beyond the cursor |
| Pagination.EveryLastingRowOnce | src/modules/guests/infrastructure/prisma-guest.repository.ts:27-82 | with inserts and deletes between pages, no row comes twice and every row present throughout comes exactly once |
| Pagination.PagedEqualsSimple | src/modules/guests/infrastructure/guest.repository.fake.ts:35-61 | on a fixed store the pages together are the filtered rows in order |
| Pagination.ListingIsUnique | src/modules/guests/infrastructure/guest.repository.fake.ts:173-183 | there is only one such list |
| Pagination.ListedByCreation | src/modules/guests/infrastructure/guest.repository.fake.ts:173-183 | the listing goes by creation instant and then by id, forwards or backwards |
| Pagination.ReadAll | src/modules/guests/infrastructure/prisma-guest.repository.ts:27-82 | following the cursor to its end terminates and gives the whole listing |
| TokenBucket.CreditIsConserved | src/modules/notifications/interfaces/notifications.gateway.ts:207-217 | what was spent and what is left never exceeds the start plus the time passed |
| TokenBucket.RateBound | src/modules/notifications/interfaces/notifications.gateway.ts:207-217 | in any window of T ms of any run, at most 20 + T/3000 joins are accepted |
| TokenBucket.RateBoundOnAnyClock | src/modules/notifications/interfaces/notifications.gateway.ts:207-217 | the bound up to an accepted join also when the clock jumps |
| TokenBucket.RefusedAttemptsAreFree | src/modules/notifications/interfaces/notifications.gateway.ts:207-217 | leaving a refused attempt out changes no later answer |
| TokenBucket.SpacedJoinsAreAccepted | src/modules/notifications/interfaces/notifications.gateway.ts:207-217 | joins 3000 ms apart are never refused |
| TokenBucket.RefusedExactlyOverTheRate | src/modules/notifications/interfaces/notifications.gateway.ts:207-217 | on a forward clock a join is accepted if and only if accepting it breaks the rate in no window of the connection |
| TokenBucket.ClockBackRefuses | src/modules/notifications/interfaces/notifications.gateway.ts:207-213 | a clock that jumps back costs credit: a first join is refused exactly beyond 57000 ms |
| TokenBucket.Socket.Authenticate | src/modules/notifications/interfaces/notifications.gateway.ts:185-186 | a connection starts with a full bucket |
| TokenBucket.Socket.TakeToken | src/modules/notifications/interfaces/notifications.gateway.ts:207-217 | the update in place is the specified one, and refuses exactly over the rate |
| Money.PrintThenRead | src/shared/domain/monto.ts:43-47 | the digits of a number read back as that number, without a leading zero |
| Money.ReadThenPrint | src/shared/domain/monto.ts:31-32 | a run of digits without leading zeros is what its value prints as |
| Money.CentsRoundTrip | src/shared/domain/monto.ts:36-48 | cents to text to cents is the identity on all integers, and the text is canonical |
| Money.TextRoundTripsExactlyWhenCanonical | src/shared/domain/monto.ts:36-48 | text to cents to text is the identity if and only if the text is canonical |
| Money.MatchesIsThePattern | src/shared/domain/monto.ts:11 | the test accepts exactly one to ten digits with optionally a dot and one or two more |
| Money.TrimMeaning | src/shared/domain/monto.ts:28 | trimming removes all white space at both ends and nothing else |
| Money.NormaliseKeepsTheValue | src/shared/domain/monto.ts:28-32 | accepted exactly when the trimmed text matches; the value is kept, in [0, 10^12) cents, and written canonically |
| Money.NormaliseIsIdempotent | src/shared/domain/monto.ts:28-32 | normalising twice is normalising once |
| Money.SameTextExactlyForSameValue | src/shared/domain/monto.ts:28-32 | two texts normalise to the same amount if and only if they mean the same cents |
| Money.NormalisedAmountsArePrintedCents | src/shared/domain/monto.ts:28-48 | the normalised amounts are the printed cents below 10^12, all of them |
| Budget.PaidAndPendingAreEverything | src/modules/expenses/infrastructure/expense.repository.fake.ts:107-121 | paid and pending add up to all the event's expenses |
| Budget.PayingMovesTheAmount | src/modules/expenses/infrastructure/expense.repository.fake.ts:107-121 | paying a pending expense takes its amount from pending to paid, unpaying takes it back, and nothing else moves |
| Budget.OneMoreExpense | src/modules/expenses/infrastructure/expense.repository.fake.ts:107-121 | an expense that comes or goes moves the sum of its status, in its own event, by its amount, and no other sum |
| Budget.OneMoreVendor | src/modules/expenses/infrastructure/expense.repository.fake.ts:110-117 | a vendor adds its budget to what its own event has allotted, unless cancelled or without one |
| Budget.CancellingFreesTheBudget | src/modules/expenses/infrastructure/expense.repository.fake.ts:110-117 | cancelling a vendor takes its budget out of what is allotted, and taking it back puts it in again |
| Budget.OtherEventsVendorCountsNot | src/modules/expenses/infrastructure/expense.repository.fake.ts:110-117 | whatever happens to another event's vendor, the sums stay |
| Budget.EmptySums | src/modules/expenses/infrastructure/expense.repository.fake.ts:107-121 | nothing paid, nothing pending, nothing allotted: the sum is 0 |
| Budget.SummaryAddsUp | src/modules/expenses/domain/expense.ts:36-54 | remaining + paid + pending and unassigned + allotted both equal the total budget |
| Budget.StatusChangesKeepRemaining | src/modules/expenses/domain/expense.ts:36-54 | any sequence of status changes leaves what remains as it was |
| Budget.BeganAt | src/modules/expenses/domain/expense.ts:56-69 | the moment meant: that of the change that began the present stretch of being paid |
| Budget.PaidSince | src/modules/expenses/application/update-expense.use-case.ts:20-37 | however requests overlap, a paid expense bears that moment throughout if and only if each change to paid had read the stored date (or shows it by a coincidence of instants) |
| Budget.FreshReadsDateRight | src/modules/expenses/domain/expense.ts:61-69 | requests that read what is stored when they write date it right |
| Budget.PaidTwiceIsMisdated | src/modules/expenses/application/update-expense.use-case.ts:20-37 | two requests that pay the same pending expense, the second from a stale read, leave it misdated |
| Budget.ExpenseRepository.CreateExpense | src/modules/expenses/application/create-expense.use-case.ts:22-37 | refused exactly for an unknown vendor; dated exactly when created as paid; only the sum of its status in its event grows, by its amount |
| Budget.ExpenseRepository.UpdateExpense | src/modules/expenses/application/update-expense.use-case.ts:15-38 | the three outcomes; the row field by field; a date of payment exactly on paid expenses; the sums of every event move by what the row was and is |
| Budget.ExpenseRepository.Write | src/modules/expenses/infrastructure/expense.repository.fake.ts:89-98 | the row field by field, and the date invariant even when the date was computed from a stale read; without a change of status the date stays |
| Budget.ExpenseRepository.DeleteExpense | src/modules/expenses/infrastructure/expense.repository.fake.ts:100-105 | removes exactly that expense, and its amount from the sum of its status, or says there is none |
| Portfolio.OneOrder | src/modules/vendors/infrastructure/prisma-vendor-profile.repository.ts:22 | the order by position and id is total: a set of photos has one listing |
| Portfolio.ListedByPosition | src/modules/vendors/infrastructure/prisma-vendor-profile.repository.ts:22 | a portfolio is shown by position, then by id |
| Portfolio.AcceptsExactlyPermutations | src/modules/vendors/application/portfolio.use-cases.ts:126-133 | the three comparisons accept exactly the permutations of the current ids |
| Portfolio.WhatIsLeftKeepsItsOrder | src/modules/vendors/infrastructure/prisma-vendor-profile.repository.ts:184-193 | photos that go away leave the others in order |
| Portfolio.VendorProfileRepository.AddPhoto | src/modules/vendors/application/portfolio.use-cases.ts:61-77 | refused exactly at 20 photos, else listed last, whatever is removed between the statements; alone, no other row changes |
| Portfolio.VendorProfileRepository.NextPosition | src/modules/vendors/infrastructure/prisma-vendor-profile.repository.ts:166-172 | one past the greatest position, 0 in an empty portfolio |
| Portfolio.VendorProfileRepository.RemovePhoto | src/modules/vendors/infrastructure/prisma-vendor-profile.repository.ts:184-193 | removes exactly that photo of that profile from the listing and answers its key |
| Portfolio.VendorProfileRepository.ChangeCaption | src/modules/vendors/infrastructure/prisma-vendor-profile.repository.ts:176-182 | rewrites one caption, nothing else |
| Portfolio.VendorProfileRepository.Reorder | src/modules/vendors/application/portfolio.use-cases.ts:120-137 | accepted exactly for permutations; the listing becomes the order asked for, less what was removed between the writes of the loop; alone, only positions change |
| Portfolio.ReorderedIsTidy | src/modules/vendors/infrastructure/prisma-vendor-profile.repository.ts:195-203 | after the loop positions are distinct and the listing is the order asked for |
| Portfolio.VendorProfileRepository.Run | src/modules/vendors/infrastructure/vendor-profile.repository.fake.ts:86-121 | over any run the position column lists what the plain lists hold; at most 20 photos, distinct positions |
| GuestImport.NothingToReportExactlyWhenClean | src/modules/guests/application/import-guests.use-case.ts:33-77 | nothing is reported if and only if no row is faulty and the mailboxes are distinct ignoring case, in the file and from the event's |
| GuestImport.ReportHoldsExactly | src/modules/guests/application/import-guests.use-case.ts:37-73 | an error is reported if and only if its row has that fault, is already invited, or shares its mailbox with the least row, named, above it |
| GuestImport.WhatOneRowGets | src/modules/guests/application/import-guests.use-case.ts:37-77 | of one row the report has all its faults in their order, or a repetition followed by an invitation already there |
| GuestImport.FirstIsTheLeast | src/modules/guests/application/import-guests.use-case.ts:46-52 | the row kept for a mailbox is the first one with it |
| GuestImport.SortIsStable | src/modules/guests/application/import-guests.use-case.ts:76 | the sort puts rows in order and keeps the order within a row |
| GuestImport.SortedPassesAreTheReport | src/modules/guests/application/import-guests.use-case.ts:34-77 | the three passes, sorted by row, are the row-by-row report |
| GuestImport.CleanNeverClashes | src/modules/guests/application/import-guests.use-case.ts:79-81 | a validated batch never violates the case-sensitive unique index |
| GuestImport.ClashesExactlyWhenNotUnique | src/modules/guests/infrastructure/guest.repository.fake.ts:86-100 | a batch clashes if and only if inserting it would break the unique index |
| GuestImport.WellFormedRowsInOrder | src/modules/guests/application/import-guests.use-case.ts:37-44 | what goes into the store is exactly the well-formed rows, in the order of the file |
| GuestImport.SortOut | src/modules/guests/application/import-guests.use-case.ts:37-44 | the first pass |
| GuestImport.FindDuplicates | src/modules/guests/application/import-guests.use-case.ts:46-61 | the second pass, with the first row of each mailbox |
| GuestImport.FindInvited | src/modules/guests/application/import-guests.use-case.ts:64-73 | the third pass |
| GuestImport.ImportGuests.Execute | src/modules/guests/application/import-guests.use-case.ts:33-83 | all or nothing: the full report and an unchanged store, or every well-formed row inserted with its name, email and companions; refused for a clash exactly when the batch clashes with what was written concurrently |
| GuestImport.GuestRepository.ExistingEmails | src/modules/guests/infrastructure/guest.repository.fake.ts:102-112 | the mailboxes of the event among those asked for |
| GuestImport.GuestRepository.CreateMany | src/modules/guests/infrastructure/guest.repository.fake.ts:86-100 | inserts the whole batch, in order, or nothing if an email of it clashes |

## Left out

- HTTP, validation schemas, guards, modules, configuration, logging, templates: plumbing; their numeric ranges are taken as given.
- Hashing, signing and random tokens: hashes and ids are distinct opaque values.
- The text of cursors: a cursor is the pair (createdAt, id).
- The filters of a listing (status, group, search text): a row either matches or not; the order, the cursor and the page limit are modelled.
- The branch of `normalizarMonto` for JavaScript numbers, and floating-point rounding in the token bucket: the bucket counts exact units of 1/3000 token.
- Amounts of stored rows are their cents; `Money` proves texts and cents interchangeable.
- The seating use cases run one at a time, as the event lock makes them; table deletion, which takes no lock, is modelled as one more such step.
- The lock on the user's row that a password reset holds: it only keeps two resets of one user apart, and inserting a session does not conflict with it.
- The reply use case itself: only its conditional write is modelled; an expiry set after the instant it captured does not block it.
- A worker process that dies between sending and marking: the source declares it uncovered.
- Refresh.RefreshUseCase.Execute: the answer's access token is not modelled, and whether the user still exists is a fixed set for the duration of one call.
- SessionTransactions.RevocationIsFinal: speaks of families that existed when the revocation read its targets; LaterFamilyCanEscape shows why not of later ones.
- InvitationLifecycle.LinksFollowThroughoutExactlyWhen: a token counts as mailed to the address the guest had when it was created; deleting a guest, which deletes the invitations too, is not a step.
- InvitationSending.GuestBook.UpdateGuest: one request from its read to its write; Write and the steps of InvitationLifecycle take the two apart. The batch of sends is one request too; its overlaps are steps of InvitationLifecycle.
- InvitationWorker.NoMailAfterAMarkedOne: deliveries of one job follow one another; a second worker on the same job at the same time is one of the others, and its mails are not counted.
- InvitationWorker.InvitationProcessor.RunJob: every `failed` event of the run carries its job; OnFailed itself also handles one that does not.
- Portfolio.VendorProfileRepository.AddPhoto: the upload to object storage and its clean-up are not part of this model.
- GuestImport.NothingToReportExactlyWhenClean: a row marked malformed that lists no fault, which the schema never hands over, is dropped silently, as the code does.
- Package lists, profiles, similar vendors, event access, schedules, publishing, email verification: they would only add easier members.
