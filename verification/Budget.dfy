/**
  Expenses of an event, what they add up to, and the budget summary. The amounts of
  stored rows are kept as cents, which `Money` shows to be the same as their texts;
  sums and summaries are the texts that the API answers with.
*/
module Budget {
  import opened Common
  import opened Lists
  import opened Money

  type Id = nat

  type Cents = int

  datatype Status = Pending | Paid

  datatype Origin = FromVendor(eventVendorId: Id) | External(payee: string)

  datatype Expense = Expense(id: Id, eventId: Id, origin: Origin, amount: Cents, status: Status, paidAt: Option<int>)

  datatype VendorStatus = Shortlisted | Booked | Cancelled

  datatype Vendor = Vendor(id: Id, eventId: Id, assignedBudget: Option<Cents>, status: VendorStatus)

  datatype BudgetError = ExpenseNotFound | VendorNotFound

  /** What a change request carries; absent fields stay as they are. */
  datatype Changes = Changes(origin: Option<Origin>, amount: Option<Cents>, status: Option<Status>)

  // ---- sums ------------------------------------------------------------------------

  /** The cents of a list of things added up, and written as an amount. */
  function SumOf<T>(cents: T -> int, s: seq<T>): (sum: string)
    ensures IsAmount(sum) && ToCents(sum) == Sum(cents, s)
  {
    Printed(Sum(cents, s));
    FromCents(Sum(cents, s))
  }

  function SpentOn(e: Expense): (r: int) { e.amount }

  function Allotted(v: Vendor): (r: int) {
    if v.assignedBudget.Some? then v.assignedBudget.value else 0
  }

  datatype Sums = Sums(allotted: string, paid: string, pending: string)
  {
    ghost predicate Readable() { IsAmount(allotted) && IsAmount(paid) && IsAmount(pending) }
  }

  function SumsOf(eventId: Id, vendors: seq<Vendor>, expenses: seq<Expense>): (sums: Sums)
    ensures sums.Readable()
  {
    var ofEvent := Filter((e: Expense) => e.eventId == eventId, expenses);
    var counted := (v: Vendor) => v.eventId == eventId && !v.status.Cancelled? && v.assignedBudget.Some?;
    Sums(
      SumOf(Allotted, Filter(counted, vendors)),
      SumOf(SpentOn, Filter((e: Expense) => e.status.Paid?, ofEvent)),
      SumOf(SpentOn, Filter((e: Expense) => e.status.Pending?, ofEvent)))
  }

  datatype Summary = Summary(totalBudget: Option<string>, allotted: string, unassigned: Option<string>,
                             paid: string, pending: string, remaining: Option<string>)

  function Summarise(totalBudget: Option<string>, sums: Sums): (r: Summary)
    requires sums.Readable() && (totalBudget.Some? ==> IsAmount(totalBudget.value))
  {
    if totalBudget.None? then Summary(None, sums.allotted, None, sums.paid, sums.pending, None)
    else
      var total := ToCents(totalBudget.value);
      Summary(totalBudget, sums.allotted, Some(FromCents(total - ToCents(sums.allotted))), sums.paid, sums.pending,
              Some(FromCents(total - ToCents(sums.paid) - ToCents(sums.pending))))
  }

  // ---- the identities -----------------------------------------------------------------

  /** What is spent of an event, paid or not. */
  function SpentCents(eventId: Id, expenses: seq<Expense>): (r: int) {
    Sum(SpentOn, Filter((e: Expense) => e.eventId == eventId, expenses))
  }

  /** Paid and pending together are all that the event's expenses come to. */
  lemma PaidAndPendingAreEverything(eventId: Id, vendors: seq<Vendor>, expenses: seq<Expense>)
    ensures var s := SumsOf(eventId, vendors, expenses);
            ToCents(s.paid) + ToCents(s.pending) == SpentCents(eventId, expenses)
  {
    var ofEvent := (e: Expense) => e.eventId == eventId;
    var paid := (e: Expense) => e.status.Paid?;
    var pending := (e: Expense) => e.status.Pending?;
    SumOverParts(SpentOn, paid, pending, Filter(ofEvent, expenses));
  }

  /** In the summary, paid, pending and remaining make the total, and so do allotted and unassigned. */
  lemma SummaryAddsUp(totalBudget: Option<string>, sums: Sums)
    requires sums.Readable() && (totalBudget.Some? ==> IsAmount(totalBudget.value))
    ensures var s := Summarise(totalBudget, sums);
            && s.totalBudget == totalBudget
            && s.paid == sums.paid && s.pending == sums.pending && s.allotted == sums.allotted
            && (s.remaining.Some? <==> totalBudget.Some?) && (s.unassigned.Some? <==> totalBudget.Some?)
            && (totalBudget.Some? ==>
                  && IsAmount(s.remaining.value) && IsAmount(s.unassigned.value)
                  && ToCents(s.remaining.value) + ToCents(s.paid) + ToCents(s.pending) == ToCents(totalBudget.value)
                  && ToCents(s.unassigned.value) + ToCents(s.allotted) == ToCents(totalBudget.value))
  {
    if totalBudget.Some? {
      Printed(ToCents(totalBudget.value) - ToCents(sums.allotted));
      Printed(ToCents(totalBudget.value) - ToCents(sums.paid) - ToCents(sums.pending));
    }
  }

  // ---- the sums as effects ----------------------------------------------------------------

  /** Nothing is spent, nothing was paid, nothing is pending; and nothing is allotted without vendors. */
  lemma EmptySums(eventId: Id, vendors: seq<Vendor>, expenses: seq<Expense>)
    ensures (forall e :: e in expenses && e.eventId == eventId ==> e.status == Pending) ==>
              ToCents(SumsOf(eventId, vendors, expenses).paid) == 0
    ensures (forall e :: e in expenses && e.eventId == eventId ==> e.status == Paid) ==>
              ToCents(SumsOf(eventId, vendors, expenses).pending) == 0
    ensures (forall v :: v in vendors && v.eventId == eventId ==> v.status == Cancelled || v.assignedBudget == None) ==>
              ToCents(SumsOf(eventId, vendors, expenses).allotted) == 0
  {
    var ofEvent := Filter((e: Expense) => e.eventId == eventId, expenses);
    if forall e :: e in expenses && e.eventId == eventId ==> e.status == Pending {
      FilterNone((e: Expense) => e.status.Paid?, ofEvent);
    }
    if forall e :: e in expenses && e.eventId == eventId ==> e.status == Paid {
      FilterNone((e: Expense) => e.status.Pending?, ofEvent);
    }
    if forall v :: v in vendors && v.eventId == eventId ==> v.status == Cancelled || v.assignedBudget == None {
      FilterNone((v: Vendor) => v.eventId == eventId && !v.status.Cancelled? && v.assignedBudget.Some?, vendors);
    }
  }

  /** The sums moved by these cents, and not otherwise. */
  ghost predicate Moved(before: Sums, after: Sums, allotted: int, paid: int, pending: int) {
    && before.Readable() && after.Readable()
    && ToCents(after.allotted) == ToCents(before.allotted) + allotted
    && ToCents(after.paid) == ToCents(before.paid) + paid
    && ToCents(after.pending) == ToCents(before.pending) + pending
  }

  lemma MovedBack(before: Sums, after: Sums, allotted: int, paid: int, pending: int)
    requires Moved(before, after, allotted, paid, pending)
    ensures Moved(after, before, -allotted, -paid, -pending)
  {
  }

  /** What an event has spent with that status. */
  function SpentAs(status: Status, eventId: Id, expenses: seq<Expense>): (r: int) {
    Sum(SpentOn, Filter((e: Expense) => e.eventId == eventId && e.status == status, expenses))
  }

  lemma SumsAreSpent(eventId: Id, vendors: seq<Vendor>, expenses: seq<Expense>)
    ensures ToCents(SumsOf(eventId, vendors, expenses).paid) == SpentAs(Paid, eventId, expenses)
    ensures ToCents(SumsOf(eventId, vendors, expenses).pending) == SpentAs(Pending, eventId, expenses)
  {
    var ofEvent := (e: Expense) => e.eventId == eventId;
    SumTwice(SpentOn, (e: Expense) => e.status.Paid?, ofEvent,
             (e: Expense) => e.eventId == eventId && e.status == Paid, expenses);
    SumTwice(SpentOn, (e: Expense) => e.status.Pending?, ofEvent,
             (e: Expense) => e.eventId == eventId && e.status == Pending, expenses);
  }

  lemma OneMoreSpent(status: Status, eventId: Id, s: seq<Expense>, e: Expense, t: seq<Expense>)
    ensures SpentAs(status, eventId, s + [e] + t) ==
            SpentAs(status, eventId, s + t) + if e.eventId == eventId && e.status == status then e.amount else 0
  {
    SumAround(SpentOn, (x: Expense) => x.eventId == eventId && x.status == status, s, e, t);
  }

  /** One more expense moves the sum of its status, in its own event, by its amount; nothing else. */
  lemma OneMoreExpense(eventId: Id, vendors: seq<Vendor>, s: seq<Expense>, e: Expense, t: seq<Expense>)
    ensures var before, after := SumsOf(eventId, vendors, s + t), SumsOf(eventId, vendors, s + [e] + t);
            && (e.eventId != eventId ==> Moved(before, after, 0, 0, 0))
            && (e.eventId == eventId && e.status == Paid ==> Moved(before, after, 0, e.amount, 0))
            && (e.eventId == eventId && e.status == Pending ==> Moved(before, after, 0, 0, e.amount))
  {
    SumsAreSpent(eventId, vendors, s + t);
    SumsAreSpent(eventId, vendors, s + [e] + t);
    OneMoreSpent(Paid, eventId, s, e, t);
    OneMoreSpent(Pending, eventId, s, e, t);
  }

  /** One more vendor adds its budget to what its own event has allotted, if it has one and is not cancelled. */
  lemma OneMoreVendor(eventId: Id, s: seq<Vendor>, v: Vendor, t: seq<Vendor>, expenses: seq<Expense>)
    ensures var before, after := SumsOf(eventId, s + t, expenses), SumsOf(eventId, s + [v] + t, expenses);
            && (v.eventId != eventId || v.status == Cancelled || v.assignedBudget == None ==>
                  Moved(before, after, 0, 0, 0))
            && (v.eventId == eventId && v.status != Cancelled && v.assignedBudget.Some? ==>
                  Moved(before, after, v.assignedBudget.value, 0, 0))
  {
    var counted := (x: Vendor) => x.eventId == eventId && !x.status.Cancelled? && x.assignedBudget.Some?;
    SumAround(Allotted, counted, s, v, t);
  }

  lemma Around<T>(s: seq<T>, i: nat, x: T)
    requires i < |s|
    ensures s == s[..i] + [s[i]] + s[i + 1..] && s[i := x] == s[..i] + [x] + s[i + 1..]
  {
  }

  /** Paying a pending expense takes its amount from pending to paid, and unpaying it takes it back. */
  lemma PayingMovesTheAmount(eventId: Id, vendors: seq<Vendor>, expenses: seq<Expense>, i: nat, paidAt: Option<int>)
    requires i < |expenses| && expenses[i].eventId == eventId
    ensures var e := expenses[i];
            var paid, pending := e.(status := Paid, paidAt := paidAt), e.(status := Pending, paidAt := paidAt);
            && (e.status == Pending ==>
                  Moved(SumsOf(eventId, vendors, expenses), SumsOf(eventId, vendors, expenses[i := paid]),
                        0, e.amount, -e.amount))
            && (e.status == Paid ==>
                  Moved(SumsOf(eventId, vendors, expenses), SumsOf(eventId, vendors, expenses[i := pending]),
                        0, -e.amount, e.amount))
  {
    var e, s, t := expenses[i], expenses[..i], expenses[i + 1..];
    var changed := e.(status := if e.status == Pending then Paid else Pending, paidAt := paidAt);
    Around(expenses, i, changed);
    OneMoreExpense(eventId, vendors, s, e, t);
    OneMoreExpense(eventId, vendors, s, changed, t);
  }

  /** Cancelling a vendor takes its budget out of what is allotted, and taking it back puts it in again. */
  lemma CancellingFreesTheBudget(eventId: Id, vendors: seq<Vendor>, expenses: seq<Expense>, i: nat, back: VendorStatus)
    requires i < |vendors| && vendors[i].eventId == eventId && back != Cancelled
    ensures var v := vendors[i];
            var budget := if v.assignedBudget.Some? then v.assignedBudget.value else 0;
            var without := SumsOf(eventId, vendors[i := v.(status := Cancelled)], expenses);
            && Moved(SumsOf(eventId, vendors, expenses), without, if v.status == Cancelled then 0 else -budget, 0, 0)
            && Moved(without, SumsOf(eventId, vendors[i := v.(status := back)], expenses), budget, 0, 0)
  {
    var v, s, t := vendors[i], vendors[..i], vendors[i + 1..];
    Around(vendors, i, v.(status := Cancelled));
    Around(vendors, i, v.(status := back));
    OneMoreVendor(eventId, s, v, t, expenses);
    OneMoreVendor(eventId, s, v.(status := Cancelled), t, expenses);
    OneMoreVendor(eventId, s, v.(status := back), t, expenses);
  }

  /** Whatever happens to a vendor of another event, these sums stay as they are. */
  lemma OtherEventsVendorCountsNot(eventId: Id, vendors: seq<Vendor>, expenses: seq<Expense>, i: nat, v: Vendor)
    requires i < |vendors| && vendors[i].eventId != eventId && v.eventId != eventId
    ensures Moved(SumsOf(eventId, vendors, expenses), SumsOf(eventId, vendors[i := v], expenses), 0, 0, 0)
  {
    var s, t := vendors[..i], vendors[i + 1..];
    Around(vendors, i, v);
    OneMoreVendor(eventId, s, vendors[i], t, expenses);
    OneMoreVendor(eventId, s, v, t, expenses);
  }

  /** What an expense, if there is one, adds to the sum of that status in that event. */
  function Share(e: Option<Expense>, eventId: Id, status: Status): (r: int) {
    if e.Some? && e.value.eventId == eventId && e.value.status == status then e.value.amount else 0
  }

  ghost predicate MovedIn(eventId: Id, vendors: seq<Vendor>, before: seq<Expense>, after: seq<Expense>,
                          gone: Option<Expense>, come: Option<Expense>)
  {
    Moved(SumsOf(eventId, vendors, before), SumsOf(eventId, vendors, after), 0,
          Share(come, eventId, Paid) - Share(gone, eventId, Paid),
          Share(come, eventId, Pending) - Share(gone, eventId, Pending))
  }

  /** The sums of every event move by what went and what came. */
  ghost predicate SumsMoved(vendors: seq<Vendor>, before: seq<Expense>, after: seq<Expense>, gone: Option<Expense>,
                            come: Option<Expense>)
  {
    forall eventId :: MovedIn(eventId, vendors, before, after, gone, come)
  }

  lemma ExpenseComesIn(eventId: Id, vendors: seq<Vendor>, s: seq<Expense>, e: Expense, t: seq<Expense>)
    ensures MovedIn(eventId, vendors, s + t, s + [e] + t, None, Some(e))
    ensures MovedIn(eventId, vendors, s + [e] + t, s + t, Some(e), None)
  {
    OneMoreExpense(eventId, vendors, s, e, t);
    MovedBack(SumsOf(eventId, vendors, s + t), SumsOf(eventId, vendors, s + [e] + t), 0,
              Share(Some(e), eventId, Paid), Share(Some(e), eventId, Pending));
  }

  lemma ExpenseComes(vendors: seq<Vendor>, s: seq<Expense>, e: Expense, t: seq<Expense>)
    ensures SumsMoved(vendors, s + t, s + [e] + t, None, Some(e))
    ensures SumsMoved(vendors, s + [e] + t, s + t, Some(e), None)
  {
    forall eventId: Id { ExpenseComesIn(eventId, vendors, s, e, t); }
  }

  lemma ExpenseChanges(vendors: seq<Vendor>, expenses: seq<Expense>, i: nat, e: Expense)
    requires i < |expenses|
    ensures SumsMoved(vendors, expenses, expenses[i := e], Some(expenses[i]), Some(e))
  {
    var s, t := expenses[..i], expenses[i + 1..];
    Around(expenses, i, e);
    ExpenseComes(vendors, s, expenses[i], t);
    ExpenseComes(vendors, s, e, t);
    SumsMoveOn(vendors, expenses, s + t, expenses[i := e], expenses[i], e);
  }

  lemma SumsMoveOn(vendors: seq<Vendor>, a: seq<Expense>, b: seq<Expense>, c: seq<Expense>,
                   gone: Expense, come: Expense)
    requires SumsMoved(vendors, a, b, Some(gone), None) && SumsMoved(vendors, b, c, None, Some(come))
    ensures SumsMoved(vendors, a, c, Some(gone), Some(come))
  {
    forall eventId ensures MovedIn(eventId, vendors, a, c, Some(gone), Some(come)) {
      assert MovedIn(eventId, vendors, a, b, Some(gone), None);
      assert MovedIn(eventId, vendors, b, c, None, Some(come));
    }
  }

  lemma ExpenseGoes(vendors: seq<Vendor>, expenses: seq<Expense>, i: nat)
    requires i < |expenses|
    ensures SumsMoved(vendors, expenses, expenses[..i] + expenses[i + 1..], Some(expenses[i]), None)
  {
    Around(expenses, i, expenses[i]);
    ExpenseComes(vendors, expenses[..i], expenses[i], expenses[i + 1..]);
  }

  // ---- when something was paid ------------------------------------------------------------

  /** Set on becoming paid, kept while paid, cleared on going back to pending. */
  function PaidAtAfter(status: Status, paidAt: Option<int>, newStatus: Option<Status>, now: int): (r: Option<int>) {
    var next := if newStatus.None? then status else newStatus.value;
    if next.Pending? then None
    else if status.Paid? && paidAt.Some? then paidAt
    else Some(now)
  }

  /** The expense after a change computed from `read`, what was read of it some time before. */
  function Changed(e: Expense, read: Expense, c: Changes, now: int): (r: Expense) {
    Expense(
      e.id, e.eventId,
      if c.origin.Some? then c.origin.value else e.origin,
      if c.amount.Some? then c.amount.value else e.amount,
      if c.status.Some? then c.status.value else e.status,
      if c.status.Some? then PaidAtAfter(read.status, read.paidAt, c.status, now) else e.paidAt)
  }

  /** Field by field; without a change of status the date stays, whatever was read. */
  predicate TookChanges(e: Expense, later: Expense, c: Changes) {
    && later.id == e.id && later.eventId == e.eventId
    && Took(c.origin, e.origin, later.origin) && Took(c.amount, e.amount, later.amount)
    && Took(c.status, e.status, later.status) && (c.status.None? ==> later.paidAt == e.paidAt)
  }

  predicate DatedWhenPaid(e: Expense) { e.paidAt.Some? <==> e.status.Paid? }

  /** A request that changes a status: what it read of the expense before, and when it asks the clock. */
  datatype StatusChange = StatusChange(id: Id, eventId: Id, read: Expense, status: Status, at: int)

  function AfterChange(e: Expense, c: StatusChange): (r: Expense) {
    Changed(e, c.read, Changes(None, None, Some(c.status)), c.at)
  }

  /** The expense after requests that may have read it long before they wrote. */
  function AfterChanges(e: Expense, changes: seq<StatusChange>): (r: Expense) {
    if changes == [] then e else AfterChange(AfterChanges(e, changes[..|changes| - 1]), changes[|changes| - 1])
  }

  function StatusAfter(e: Expense, changes: seq<StatusChange>): (status: Status) {
    if changes == [] then e.status else changes[|changes| - 1].status
  }

  /** When its present time of being paid began, going by the statuses alone. */
  function BeganToBePaid(e: Expense, changes: seq<StatusChange>): (when: Option<int>) {
    if changes == [] then e.paidAt
    else
      var front, last := changes[..|changes| - 1], changes[|changes| - 1];
      if last.status.Pending? then None
      else if StatusAfter(e, front).Paid? then BeganToBePaid(e, front)
      else Some(last.at)
  }

  lemma {:induction false} BeganAt(e: Expense, changes: seq<StatusChange>, i: nat)
    requires i < |changes| && StatusAfter(e, changes[..i]).Pending?
    requires forall k :: i <= k < |changes| ==> changes[k].status.Paid?
    ensures BeganToBePaid(e, changes) == Some(changes[i].at)
    decreases |changes|
  {
    var n := |changes| - 1;
    if i < n {
      assert changes[..n][..i] == changes[..i];
      BeganAt(e, changes[..n], i);
    }
  }

  lemma {:induction false} StatusIsTheLastAsked(e: Expense, changes: seq<StatusChange>)
    requires DatedWhenPaid(e)
    ensures AfterChanges(e, changes).status == StatusAfter(e, changes) && DatedWhenPaid(AfterChanges(e, changes))
    ensures BeganToBePaid(e, changes).Some? <==> StatusAfter(e, changes).Paid?
    decreases |changes|
  {
    if changes != [] { StatusIsTheLastAsked(e, changes[..|changes| - 1]); }
  }

  /** The date of payment that a row shows; none while it is pending. */
  function DateIn(e: Expense): (date: Option<int>) {
    if e.status.Paid? then e.paidAt else None
  }

  /**
    A change to paid dates the expense right: its request had read the date that is
    stored, or none where none is stored. The other two cases are coincidences of the
    clock: the instant of the change is itself the date that one of the two shows.
  */
  predicate ReadTheDate(stored: Expense, c: StatusChange) {
    c.status.Paid? ==>
      || DateIn(c.read) == DateIn(stored)
      || (DateIn(c.read) == None && DateIn(stored) == Some(c.at))
      || (DateIn(stored) == None && DateIn(c.read) == Some(c.at))
  }

  ghost predicate WellDated(e: Expense, changes: seq<StatusChange>) {
    AfterChanges(e, changes).paidAt == BeganToBePaid(e, changes)
  }

  lemma ChangeKeepsDateExactly(e: Expense, front: seq<StatusChange>, c: StatusChange)
    requires DatedWhenPaid(e) && WellDated(e, front)
    ensures WellDated(e, front + [c]) <==> ReadTheDate(AfterChanges(e, front), c)
  {
    var changes := front + [c];
    assert changes[..|changes| - 1] == front;
    StatusIsTheLastAsked(e, front);
  }

  /** The date was right after every one of the changes. */
  ghost predicate WellDatedThroughout(e: Expense, changes: seq<StatusChange>) {
    WellDated(e, changes) && (changes == [] || WellDatedThroughout(e, changes[..|changes| - 1]))
  }

  /** Every change to paid had read the date that was stored when it wrote. */
  ghost predicate AllReadTheDate(e: Expense, changes: seq<StatusChange>) {
    changes == [] ||
    (AllReadTheDate(e, changes[..|changes| - 1])
     && ReadTheDate(AfterChanges(e, changes[..|changes| - 1]), changes[|changes| - 1]))
  }

  lemma {:induction false} ThroughoutIsAlways(e: Expense, changes: seq<StatusChange>, n: nat)
    requires n <= |changes| && WellDatedThroughout(e, changes)
    ensures WellDated(e, changes[..n])
  {
    if n == |changes| {
      assert changes[..n] == changes;
    } else {
      assert changes[..|changes| - 1][..n] == changes[..n];
      ThroughoutIsAlways(e, changes[..|changes| - 1], n);
    }
  }

  /**
    However requests overlap, a paid expense bears throughout the moment its present
    time of being paid began, if and only if every change to paid had read the date
    that was stored when it wrote.
  */
  lemma {:induction false} PaidSince(e: Expense, changes: seq<StatusChange>)
    requires DatedWhenPaid(e)
    ensures WellDatedThroughout(e, changes) <==> AllReadTheDate(e, changes)
    decreases |changes|
  {
    if changes != [] {
      var front, last := changes[..|changes| - 1], changes[|changes| - 1];
      PaidSince(e, front);
      assert changes == front + [last];
      if WellDatedThroughout(e, front) { ChangeKeepsDateExactly(e, front, last); }
    }
  }

  /** Requests that read what is stored when they write: the date is that of the first change of the paid stretch. */
  lemma {:induction false} FreshReadsDateRight(e: Expense, changes: seq<StatusChange>)
    requires DatedWhenPaid(e)
    requires forall n :: 0 <= n < |changes| ==> changes[n].read == AfterChanges(e, changes[..n])
    ensures AfterChanges(e, changes).paidAt == BeganToBePaid(e, changes)
    decreases |changes|
  {
    if changes != [] {
      var front, last := changes[..|changes| - 1], changes[|changes| - 1];
      assert forall n :: 0 <= n < |front| ==> front[n] == changes[n] && front[..n] == changes[..n];
      FreshReadsDateRight(e, front);
      assert changes == front + [last] && last.read == AfterChanges(e, front);
      ChangeKeepsDateExactly(e, front, last);
    }
  }

  /** Two requests read a pending expense and both pay it, at 1 and at 2: it has been paid since 1 and is dated 2. */
  lemma PaidTwiceIsMisdated(e: Expense)
    requires e.status.Pending? && e.paidAt == None
    ensures var changes := [StatusChange(e.id, e.eventId, e, Paid, 1), StatusChange(e.id, e.eventId, e, Paid, 2)];
            AfterChanges(e, changes).paidAt == Some(2) && BeganToBePaid(e, changes) == Some(1)
  {
    var first, second := StatusChange(e.id, e.eventId, e, Paid, 1), StatusChange(e.id, e.eventId, e, Paid, 2);
    assert [first, second][..1] == [first] && [first][..0] == [];
    BeganAt(e, [first, second], 0) by { assert [first, second][..0] == []; }
  }

  // ---- changes of status keep what remains ---------------------------------------------------

  /** The position of the expense with that id in that event, if any. */
  function Find(expenses: seq<Expense>, eventId: Id, id: Id): (at: Option<nat>)
    ensures at.Some? ==> at.value < |expenses| && expenses[at.value].id == id && expenses[at.value].eventId == eventId
    ensures at.None? ==> forall e :: e in expenses ==> e.id != id || e.eventId != eventId
  {
    if expenses == [] then None
    else if expenses[0].id == id && expenses[0].eventId == eventId then Some(0)
    else
      var at := Find(expenses[1..], eventId, id);
      if at.None? then None else Some(at.value + 1)
  }

  function WithStatus(expenses: seq<Expense>, c: StatusChange): (r: seq<Expense>) {
    var at := Find(expenses, c.eventId, c.id);
    if at.None? then expenses
    else
      var e := expenses[at.value];
      expenses[at.value := AfterChange(e, c)]
  }

  function WithStatuses(expenses: seq<Expense>, changes: seq<StatusChange>): (r: seq<Expense>)
    decreases |changes|
  {
    if changes == [] then expenses else WithStatuses(WithStatus(expenses, changes[0]), changes[1..])
  }

  lemma StatusChangeKeepsSpent(eventId: Id, expenses: seq<Expense>, c: StatusChange)
    ensures SpentCents(eventId, WithStatus(expenses, c)) == SpentCents(eventId, expenses)
  {
    SameSum(SpentOn, (e: Expense) => e.eventId == eventId, expenses, WithStatus(expenses, c));
  }

  lemma {:induction false} StatusChangesKeepSpent(eventId: Id, expenses: seq<Expense>, changes: seq<StatusChange>)
    ensures SpentCents(eventId, WithStatuses(expenses, changes)) == SpentCents(eventId, expenses)
    decreases |changes|
  {
    if changes != [] {
      StatusChangeKeepsSpent(eventId, expenses, changes[0]);
      StatusChangesKeepSpent(eventId, WithStatus(expenses, changes[0]), changes[1..]);
    }
  }

  function RemainingOf(eventId: Id, totalBudget: Option<string>, vendors: seq<Vendor>,
                       expenses: seq<Expense>): (r: Option<string>)
    requires totalBudget.Some? ==> IsAmount(totalBudget.value)
  {
    Summarise(totalBudget, SumsOf(eventId, vendors, expenses)).remaining
  }

  /** What remains depends on the expenses only through what was spent. */
  lemma RemainingComesFromSpent(eventId: Id, totalBudget: Option<string>, vendors: seq<Vendor>, a: seq<Expense>,
                                b: seq<Expense>)
    requires totalBudget.Some? ==> IsAmount(totalBudget.value)
    requires SpentCents(eventId, a) == SpentCents(eventId, b)
    ensures RemainingOf(eventId, totalBudget, vendors, a) == RemainingOf(eventId, totalBudget, vendors, b)
  {
    PaidAndPendingAreEverything(eventId, vendors, a);
    PaidAndPendingAreEverything(eventId, vendors, b);
    SameRemaining(totalBudget, SumsOf(eventId, vendors, a), SumsOf(eventId, vendors, b));
  }

  lemma SameRemaining(totalBudget: Option<string>, a: Sums, b: Sums)
    requires a.Readable() && b.Readable() && (totalBudget.Some? ==> IsAmount(totalBudget.value))
    requires ToCents(a.paid) + ToCents(a.pending) == ToCents(b.paid) + ToCents(b.pending)
    ensures Summarise(totalBudget, a).remaining == Summarise(totalBudget, b).remaining
  {
    if totalBudget.Some? {
      var total := ToCents(totalBudget.value);
      var left := total - ToCents(a.paid) - ToCents(a.pending);
      assert left == total - ToCents(b.paid) - ToCents(b.pending);
    }
  }

  /** Paying and unpaying, in any order and of any events, leaves what remains of every budget as it was. */
  lemma StatusChangesKeepRemaining(eventId: Id, totalBudget: Option<string>, vendors: seq<Vendor>,
                                   expenses: seq<Expense>, changes: seq<StatusChange>)
    requires totalBudget.Some? ==> IsAmount(totalBudget.value)
    ensures RemainingOf(eventId, totalBudget, vendors, WithStatuses(expenses, changes)) ==
            RemainingOf(eventId, totalBudget, vendors, expenses)
  {
    StatusChangesKeepSpent(eventId, expenses, changes);
    RemainingComesFromSpent(eventId, totalBudget, vendors, WithStatuses(expenses, changes), expenses);
  }

  // ---- the store ------------------------------------------------------------------------------

  class ExpenseRepository {
    var vendors: seq<Vendor>
    var expenses: seq<Expense>

    /** Ids are distinct, an expense has a date of payment exactly when it is paid, and its vendor is of its event. */
    ghost predicate Valid()
      reads this
    {
      && (forall i, j :: 0 <= i < j < |expenses| ==> expenses[i].id != expenses[j].id)
      && (forall e :: e in expenses ==> DatedWhenPaid(e) && OriginExists(e.eventId, e.origin))
    }

    predicate VendorExists(eventId: Id, eventVendorId: Id)
      reads this`vendors
    {
      exists v :: v in vendors && v.id == eventVendorId && v.eventId == eventId
    }

    predicate OriginExists(eventId: Id, origin: Origin)
      reads this`vendors
    {
      origin.FromVendor? ==> VendorExists(eventId, origin.eventVendorId)
    }

    constructor (vendors: seq<Vendor>)
      ensures Valid() && this.vendors == vendors && expenses == []
    {
      this.vendors, expenses := vendors, [];
    }

    method CreateExpense(eventId: Id, freshId: Id, origin: Origin, amount: Cents, status: Option<Status>, now: int)
      returns (r: Result<Expense, BudgetError>)
      requires Valid() && forall e :: e in expenses ==> e.id != freshId
      modifies this`expenses
      ensures Valid()
      ensures r == Err(VendorNotFound) <==>
        origin.FromVendor? && !exists v :: v in vendors && v.id == origin.eventVendorId && v.eventId == eventId
      ensures r.Err? ==> r.error == VendorNotFound
      ensures r.Err? ==> expenses == old(expenses)
      ensures r.Ok? ==> expenses == old(expenses) + [r.value]
      ensures r.Ok? ==>
          r.value.id == freshId && r.value.eventId == eventId && r.value.origin == origin && r.value.amount == amount
      ensures r.Ok? ==> (r.value.status.Paid? <==> status == Some(Paid))
      ensures r.Ok? && r.value.status.Paid? ==> r.value.paidAt == Some(now)
      ensures r.Ok? ==> SumsMoved(vendors, old(expenses), expenses, None, Some(r.value))
    {
      if origin.FromVendor? && !VendorExists(eventId, origin.eventVendorId) {
        return Err(VendorNotFound);
      }
      var chosen := if status.Some? then status.value else Pending;
      var e := Expense(freshId, eventId, origin, amount, chosen, if chosen.Paid? then Some(now) else None);
      ExpenseComes(vendors, expenses, e, []);
      assert expenses + [e] + [] == expenses + [e] && expenses + [] == expenses;
      expenses := expenses + [e];
      return Ok(e);
    }

    /** `read` is what the request read before; other requests may have changed the expense since. */
    method Write(eventId: Id, id: Id, read: Expense, c: Changes, now: int) returns (r: Result<Expense, BudgetError>)
      requires Valid() && (c.origin.Some? ==> OriginExists(eventId, c.origin.value))
      modifies this`expenses
      ensures Valid()
      ensures var at := Find(old(expenses), eventId, id);
              if at.None? then r == Err(ExpenseNotFound) && expenses == old(expenses)
              else && r == Ok(Changed(old(expenses)[at.value], read, c, now))
                   && expenses == old(expenses)[at.value := r.value]
                   && TookChanges(old(expenses)[at.value], r.value, c)
                   && SumsMoved(vendors, old(expenses), expenses, Some(old(expenses)[at.value]), Some(r.value))
    {
      var at := Find(expenses, eventId, id);
      if at.None? { return Err(ExpenseNotFound); }
      var e := expenses[at.value];
      assert e in expenses;
      ExpenseChanges(vendors, expenses, at.value, Changed(e, read, c, now));
      expenses := expenses[at.value := Changed(e, read, c, now)];
      return Ok(Changed(e, read, c, now));
    }

    method UpdateExpense(eventId: Id, id: Id, c: Changes, now: int) returns (r: Result<Expense, BudgetError>)
      requires Valid()
      modifies this`expenses
      ensures Valid()
      ensures var at := Find(old(expenses), eventId, id);
              if at.None? then r == Err(ExpenseNotFound) && expenses == old(expenses)
              else if c.origin.Some? && c.origin.value.FromVendor?
                      && !exists v :: v in vendors && v.id == c.origin.value.eventVendorId && v.eventId == eventId
              then r == Err(VendorNotFound) && expenses == old(expenses)
              else var e := old(expenses)[at.value];
                   && r == Ok(Changed(e, e, c, now)) && expenses == old(expenses)[at.value := r.value]
                   && TookChanges(e, r.value, c)
                   && SumsMoved(vendors, old(expenses), expenses, Some(e), Some(r.value))
    {
      var at := Find(expenses, eventId, id);
      if at.None? { return Err(ExpenseNotFound); }
      if c.origin.Some? && c.origin.value.FromVendor? && !VendorExists(eventId, c.origin.value.eventVendorId) {
        return Err(VendorNotFound);
      }
      r := Write(eventId, id, expenses[at.value], c, now);
    }

    method DeleteExpense(eventId: Id, id: Id) returns (found: bool)
      requires Valid()
      modifies this`expenses
      ensures Valid()
      ensures var at := Find(old(expenses), eventId, id);
              && found == at.Some?
              && (at.None? ==> expenses == old(expenses))
              && (at.Some? ==>
                    && expenses == old(expenses)[..at.value] + old(expenses)[at.value + 1..]
                    && SumsMoved(vendors, old(expenses), expenses, Some(old(expenses)[at.value]), None))
    {
      var at := Find(expenses, eventId, id);
      if at.None? { return false; }
      var i := at.value;
      ExpenseGoes(vendors, expenses, i);
      expenses := expenses[..i] + expenses[i + 1..];
      return true;
    }
  }
}
