/** Importing a file of guests into an event: everything or nothing, with every error reported. */
module GuestImport {
  import opened Common
  import opened Lists

  type Id = nat

  datatype GuestData = GuestData(name: string, email: Option<string>, companionsAllowed: nat)

  datatype Guest = Guest(id: Id, eventId: Id, data: GuestData)

  datatype Fault = Fault(field: string, message: string)

  /** A row as the border hands it over: well formed, or with what the schema found wrong in it. */
  datatype ImportRow = WellFormed(data: GuestData) | Malformed(faults: seq<Fault>)

  datatype Problem = Invalid(fault: Fault) | DuplicatedInFile(firstRow: nat) | AlreadyInvited

  datatype RowError = RowError(row: nat, problem: Problem)

  datatype Numbered = Numbered(row: nat, data: GuestData)

  datatype ImportResult = Created(count: nat) | Rejected(errors: seq<RowError>) | EmailTaken

  // ---- what must be reported ------------------------------------------------------------

  /** The well-formed rows, with their numbers, counted from 1. */
  function WellFormedRows(rows: seq<ImportRow>): (valid: seq<Numbered>)
    ensures forall v :: v in valid ==> 1 <= v.row <= |rows| && rows[v.row - 1] == WellFormed(v.data)
  {
    if rows == [] then []
    else
      var front, last := rows[..|rows| - 1], rows[|rows| - 1];
      WellFormedRows(front) + if last.WellFormed? then [Numbered(|rows|, last.data)] else []
  }

  predicate HasKey(lower: string -> string, data: GuestData, key: string) {
    data.email.Some? && lower(data.email.value) == key
  }

  /** The first row with that mailbox, if any. */
  function FirstWith(lower: string -> string, valid: seq<Numbered>, key: string): (r: Option<nat>) {
    if valid == [] then None
    else
      var front, last := valid[..|valid| - 1], valid[|valid| - 1];
      var first := FirstWith(lower, front, key);
      if first.Some? then first else if HasKey(lower, last.data, key) then Some(last.row) else None
  }

  function FaultErrors(row: nat, faults: seq<Fault>): (r: seq<RowError>) {
    seq(|faults|, i requires 0 <= i < |faults| => RowError(row, Invalid(faults[i])))
  }

  function DuplicateErrors(lower: string -> string, before: seq<Numbered>, v: Numbered): (r: seq<RowError>) {
    if v.data.email.None? then []
    else
      var first := FirstWith(lower, before, lower(v.data.email.value));
      if first.Some? then [RowError(v.row, DuplicatedInFile(first.value))] else []
  }

  function InvitedErrors(lower: string -> string, taken: set<string>, v: Numbered): (r: seq<RowError>) {
    if v.data.email.Some? && lower(v.data.email.value) in taken then [RowError(v.row, AlreadyInvited)] else []
  }

  /** Row by row: what the schema found, a mailbox seen above, a mailbox of the event. */
  function Report(lower: string -> string, taken: set<string>, rows: seq<ImportRow>): (r: seq<RowError>) {
    if rows == [] then []
    else
      var front, last := rows[..|rows| - 1], rows[|rows| - 1];
      Report(lower, taken, front) + RowReport(lower, taken, WellFormedRows(front), |rows|, last)
  }

  /** What is wrong with one row, given the well-formed ones above it. */
  function RowReport(lower: string -> string, taken: set<string>, above: seq<Numbered>, row: nat,
                     r: ImportRow): (result: seq<RowError>) {
    FaultsIn(row, r) + DuplicatesIn(lower, above, row, r) + InvitedIn(lower, taken, row, r)
  }

  function FaultsIn(row: nat, r: ImportRow): (errors: seq<RowError>)
    ensures forall e :: e in errors ==> e.row == row
  {
    if r.Malformed? then FaultErrors(row, r.faults) else []
  }

  function DuplicatesIn(lower: string -> string, above: seq<Numbered>, row: nat, r: ImportRow): (errors: seq<RowError>)
    ensures forall e :: e in errors ==> e.row == row
  {
    if r.WellFormed? then DuplicateErrors(lower, above, Numbered(row, r.data)) else []
  }

  function InvitedIn(lower: string -> string, taken: set<string>, row: nat, r: ImportRow): (errors: seq<RowError>)
    ensures forall e :: e in errors ==> e.row == row
  {
    if r.WellFormed? then InvitedErrors(lower, taken, Numbered(row, r.data)) else []
  }

  /** The mailboxes already invited to the event. */
  function Taken(lower: string -> string, guests: seq<Guest>, eventId: Id): (r: set<string>) {
    set g | g in guests && g.eventId == eventId && g.data.email.Some? :: lower(g.data.email.value)
  }

  // ---- when there is nothing to report -------------------------------------------------------

  lemma {:induction false} FirstWithFinds(lower: string -> string, valid: seq<Numbered>, key: string)
    ensures FirstWith(lower, valid, key).None? <==> forall v :: v in valid ==> !HasKey(lower, v.data, key)
  {
    if valid != [] {
      FirstWithFinds(lower, valid[..|valid| - 1], key);
    }
  }

  lemma {:induction false} EveryWellFormedRowIsThere(rows: seq<ImportRow>)
    ensures forall i :: 0 <= i < |rows| && rows[i].WellFormed? ==> Numbered(i + 1, rows[i].data) in WellFormedRows(rows)
  {
    if rows != [] {
      EveryWellFormedRowIsThere(rows[..|rows| - 1]);
    }
  }

  predicate Mailbox(lower: string -> string, row: ImportRow, key: string) {
    row.WellFormed? && HasKey(lower, row.data, key)
  }

  ghost predicate Clean(lower: string -> string, taken: set<string>, rows: seq<ImportRow>) {
    && (forall row :: row in rows && row.Malformed? ==> row.faults == [])
    && (forall i, j :: 0 <= i < j < |rows| && rows[j].WellFormed? && rows[j].data.email.Some? ==>
          !Mailbox(lower, rows[i], lower(rows[j].data.email.value)))
    && (forall row :: row in rows && row.WellFormed? && row.data.email.Some? ==> lower(row.data.email.value) !in taken)
  }

  lemma RowIsFine(lower: string -> string, taken: set<string>, above: seq<ImportRow>, r: ImportRow, row: nat)
    ensures RowReport(lower, taken, WellFormedRows(above), row, r) == [] <==> Fine(lower, taken, above, r)
  {
    if r.WellFormed? && r.data.email.Some? {
      FirstWithFinds(lower, WellFormedRows(above), lower(r.data.email.value));
      EveryWellFormedRowIsThere(above);
    }
  }

  ghost predicate Fine(lower: string -> string, taken: set<string>, above: seq<ImportRow>, r: ImportRow) {
    && (r.Malformed? ==> r.faults == [])
    && (r.WellFormed? && r.data.email.Some? ==>
          && lower(r.data.email.value) !in taken
          && forall i :: 0 <= i < |above| ==> !Mailbox(lower, above[i], lower(r.data.email.value)))
  }

  /** Every row is fine, given those above it. */
  ghost predicate AllFine(lower: string -> string, taken: set<string>, rows: seq<ImportRow>) {
    rows == [] || (AllFine(lower, taken, rows[..|rows| - 1])
        && Fine(lower, taken, rows[..|rows| - 1], rows[|rows| - 1]))
  }

  lemma {:induction false} NothingToReportWhenAllFine(lower: string -> string, taken: set<string>, rows: seq<ImportRow>)
    ensures Report(lower, taken, rows) == [] <==> AllFine(lower, taken, rows)
  {
    if rows != [] {
      var front := rows[..|rows| - 1];
      NothingToReportWhenAllFine(lower, taken, front);
      RowIsFine(lower, taken, front, rows[|rows| - 1], |rows|);
    }
  }

  lemma {:induction false} AllFineIsClean(lower: string -> string, taken: set<string>, rows: seq<ImportRow>)
    ensures AllFine(lower, taken, rows) <==> Clean(lower, taken, rows)
  {
    if rows != [] {
      var front, last := rows[..|rows| - 1], rows[|rows| - 1];
      AllFineIsClean(lower, taken, front);
      CleanGrows(lower, taken, front, last);
      assert rows == front + [last];
    }
  }

  lemma CleanGrows(lower: string -> string, taken: set<string>, front: seq<ImportRow>, last: ImportRow)
    ensures Clean(lower, taken, front + [last]) <==> Clean(lower, taken, front) && Fine(lower, taken, front, last)
  {
    var rows := front + [last];
    assert rows[|front|] == last;
    assert forall i :: 0 <= i < |front| ==> rows[i] == front[i];
  }

  /**
    Nothing is reported exactly when no row is faulty and the mailboxes are distinct,
    in the file and from the event's.
  */
  lemma NothingToReportExactlyWhenClean(lower: string -> string, taken: set<string>, rows: seq<ImportRow>)
    ensures Report(lower, taken, rows) == [] <==> Clean(lower, taken, rows)
  {
    NothingToReportWhenAllFine(lower, taken, rows);
    AllFineIsClean(lower, taken, rows);
  }

  // ---- what the report holds -----------------------------------------------------------------

  /** The well-formed rows name the least row with that mailbox. */
  lemma {:induction false} FirstIsTheLeast(lower: string -> string, rows: seq<ImportRow>, key: string)
    ensures match FirstWith(lower, WellFormedRows(rows), key)
            case Some(r) => IsFirst(lower, rows, key, r)
            case None => forall i :: 0 <= i < |rows| ==> !Mailbox(lower, rows[i], key)
  {
    if rows != [] {
      var front, last := rows[..|rows| - 1], rows[|rows| - 1];
      FirstIsTheLeast(lower, front, key);
      var above, valid := WellFormedRows(front), WellFormedRows(rows);
      if last.WellFormed? {
        assert valid[..|valid| - 1] == above;
      } else {
        assert valid == above;
      }
      assert forall i :: 0 <= i < |front| ==> rows[i] == front[i];
    }
  }

  ghost predicate IsFirst(lower: string -> string, rows: seq<ImportRow>, key: string, row: nat) {
    && 1 <= row <= |rows| && Mailbox(lower, rows[row - 1], key)
    && forall i :: 0 <= i < row - 1 ==> !Mailbox(lower, rows[i], key)
  }

  /** The row has that fault, or its mailbox is the event's already, or first appears in the row named above it. */
  ghost predicate Deserved(lower: string -> string, taken: set<string>, rows: seq<ImportRow>, e: RowError) {
    && 1 <= e.row <= |rows|
    && var r := rows[e.row - 1];
       match e.problem
       case Invalid(fault) => r.Malformed? && fault in r.faults
       case AlreadyInvited => r.WellFormed? && r.data.email.Some? && lower(r.data.email.value) in taken
       case DuplicatedInFile(first) =>
         r.WellFormed? && r.data.email.Some? && first < e.row && IsFirst(lower, rows, lower(r.data.email.value), first)
  }

  /** The same of one row, given the rows above it. */
  ghost predicate Fits(lower: string -> string, taken: set<string>, above: seq<ImportRow>, r: ImportRow, p: Problem) {
    match p
    case Invalid(fault) => r.Malformed? && fault in r.faults
    case AlreadyInvited => r.WellFormed? && r.data.email.Some? && lower(r.data.email.value) in taken
    case DuplicatedInFile(first) =>
      r.WellFormed? && r.data.email.Some? && IsFirst(lower, above, lower(r.data.email.value), first)
  }

  lemma FaultsHold(row: nat, faults: seq<Fault>, e: RowError)
    ensures e in FaultErrors(row, faults) <==> e.row == row && e.problem.Invalid? && e.problem.fault in faults
  {
    if e.row == row && e.problem.Invalid? && e.problem.fault in faults {
      var i :| 0 <= i < |faults| && faults[i] == e.problem.fault;
      assert FaultErrors(row, faults)[i] == e;
    }
  }

  lemma DuplicatesHold(lower: string -> string, above: seq<ImportRow>, v: Numbered, e: RowError)
    ensures e in DuplicateErrors(lower, WellFormedRows(above), v) <==>
            && e.row == v.row && e.problem.DuplicatedInFile? && v.data.email.Some?
            && IsFirst(lower, above, lower(v.data.email.value), e.problem.firstRow)
  {
    if v.data.email.Some? {
      FirstIsTheLeast(lower, above, lower(v.data.email.value));
    }
  }

  lemma RowReportHolds(lower: string -> string, taken: set<string>, above: seq<ImportRow>, r: ImportRow, row: nat,
                       e: RowError)
    ensures e in RowReport(lower, taken, WellFormedRows(above), row, r) <==>
            e.row == row && Fits(lower, taken, above, r, e.problem)
  {
    match r
    case Malformed(faults) => FaultsHold(row, faults, e);
    case WellFormed(data) => DuplicatesHold(lower, above, Numbered(row, data), e);
  }

  lemma FitsIsDeserved(lower: string -> string, taken: set<string>, above: seq<ImportRow>, r: ImportRow, e: RowError)
    requires e.row == |above| + 1
    ensures Fits(lower, taken, above, r, e.problem) <==> Deserved(lower, taken, above + [r], e)
  {
    if r.WellFormed? && r.data.email.Some? {
      FirstInLonger(lower, above, r, lower(r.data.email.value));
    }
  }

  lemma FirstInLonger(lower: string -> string, above: seq<ImportRow>, r: ImportRow, key: string)
    ensures forall first: nat :: first <= |above| ==>
              (IsFirst(lower, above + [r], key, first) <==> IsFirst(lower, above, key, first))
  {
    assert forall i :: 0 <= i < |above| ==> (above + [r])[i] == above[i];
  }

  /** An error is reported if and only if its row deserves it. */
  lemma {:induction false} ReportHoldsExactly(lower: string -> string, taken: set<string>, rows: seq<ImportRow>,
                                              e: RowError)
    ensures e in Report(lower, taken, rows) <==> Deserved(lower, taken, rows, e)
  {
    if rows != [] {
      var front, last := rows[..|rows| - 1], rows[|rows| - 1];
      assert rows == front + [last];
      ReportHoldsExactly(lower, taken, front, e);
      RowReportHolds(lower, taken, front, last, |rows|, e);
      if e.row < |rows| {
        DeservedInLonger(lower, taken, front, last, e);
      } else if e.row == |rows| {
        FitsIsDeserved(lower, taken, front, last, e);
      }
    }
  }

  lemma DeservedInLonger(lower: string -> string, taken: set<string>, front: seq<ImportRow>, last: ImportRow,
                         e: RowError)
    requires e.row <= |front|
    ensures Deserved(lower, taken, front + [last], e) <==> Deserved(lower, taken, front, e)
  {
    if 1 <= e.row && front[e.row - 1].WellFormed? && front[e.row - 1].data.email.Some? {
      FirstInLonger(lower, front, last, lower(front[e.row - 1].data.email.value));
    }
  }

  // ---- the order of the report -----------------------------------------------------------------

  /** Adds an error after those of its row and of the rows above. */
  function InsertByRow(errors: seq<RowError>, e: RowError): (r: seq<RowError>) {
    if errors == [] || errors[|errors| - 1].row <= e.row then errors + [e]
    else InsertByRow(errors[..|errors| - 1], e) + [errors[|errors| - 1]]
  }

  /** The stable sort by row number. */
  function SortByRow(errors: seq<RowError>): (r: seq<RowError>) {
    if errors == [] then [] else InsertByRow(SortByRow(errors[..|errors| - 1]), errors[|errors| - 1])
  }

  ghost predicate InRowOrder(errors: seq<RowError>) { Pairwise((a: RowError, b: RowError) => a.row <= b.row, errors) }

  ghost function OfRow(errors: seq<RowError>, row: nat): (r: seq<RowError>) {
    Filter((e: RowError) => e.row == row, errors)
  }

  lemma OfRowAppend(a: seq<RowError>, b: seq<RowError>, row: nat)
    ensures OfRow(a + b, row) == OfRow(a, row) + OfRow(b, row)
  {
    FilterAppend((e: RowError) => e.row == row, a, b);
  }

  lemma OfOneRow(errors: seq<RowError>, at: nat, row: nat)
    requires forall e :: e in errors ==> e.row == at
    ensures OfRow(errors, row) == if row == at then errors else []
  {
    if row == at { FilterAll((e: RowError) => e.row == row, errors); }
    else { FilterNone((e: RowError) => e.row == row, errors); }
  }

  lemma {:induction false} InsertKeepsOrder(errors: seq<RowError>, e: RowError)
    requires InRowOrder(errors)
    ensures InRowOrder(InsertByRow(errors, e))
    ensures forall x :: x in InsertByRow(errors, e) <==> x in errors || x == e
  {
    if errors != [] && errors[|errors| - 1].row > e.row {
      var front, last := errors[..|errors| - 1], errors[|errors| - 1];
      InsertKeepsOrder(front, e);
      var inserted := InsertByRow(front, e);
      forall i | 0 <= i < |inserted| ensures inserted[i].row <= last.row {
        assert inserted[i] in inserted;
      }
    }
  }

  lemma {:induction false} InsertKeepsRows(errors: seq<RowError>, e: RowError, row: nat)
    ensures OfRow(InsertByRow(errors, e), row) == OfRow(errors, row) + OfRow([e], row)
  {
    if errors == [] || errors[|errors| - 1].row <= e.row {
      OfRowAppend(errors, [e], row);
    } else {
      var front, last := errors[..|errors| - 1], errors[|errors| - 1];
      InsertKeepsRows(front, e, row);
      OfRowAppend(InsertByRow(front, e), [last], row);
      OfRowAppend(front, [last], row);
      assert errors == front + [last];
      OfOneRow([e], e.row, row);
      OfOneRow([last], last.row, row);
    }
  }

  /** Sorting puts the rows in order and keeps the order within every row. */
  lemma {:induction false} SortIsStable(errors: seq<RowError>, row: nat)
    ensures InRowOrder(SortByRow(errors)) && OfRow(SortByRow(errors), row) == OfRow(errors, row)
  {
    if errors != [] {
      var front, last := errors[..|errors| - 1], errors[|errors| - 1];
      SortIsStable(front, row);
      InsertKeepsOrder(SortByRow(front), last);
      InsertKeepsRows(SortByRow(front), last, row);
      OfRowAppend(front, [last], row);
      assert errors == front + [last];
    }
  }

  /** A list in row order is known by its rows. */
  lemma {:induction false} KnownByRows(a: seq<RowError>, b: seq<RowError>)
    requires InRowOrder(a) && InRowOrder(b) && forall row :: OfRow(a, row) == OfRow(b, row)
    ensures a == b
  {
    assert a == [] || a[0] in b by { assert a == [] || a[0] in OfRow(a, a[0].row); }
    assert b == [] || b[0] in a by { assert b == [] || b[0] in OfRow(b, b[0].row); }
    if a != [] && b != [] {
      var i :| 0 <= i < |b| && b[i] == a[0];
      var j :| 0 <= j < |a| && a[j] == b[0];
      assert a[0].row == b[0].row;
      var row := a[0].row;
      assert OfRow(a, row)[0] == a[0] && OfRow(b, row)[0] == b[0];
      assert a == [a[0]] + a[1..] && b == [b[0]] + b[1..];
      forall r ensures OfRow(a[1..], r) == OfRow(b[1..], r) {
        OfRowAppend([a[0]], a[1..], r);
        OfRowAppend([b[0]], b[1..], r);
        assert OfRow(a, r)[|OfRow([a[0]], r)|..] == OfRow(a[1..], r);
        assert OfRow(b, r)[|OfRow([b[0]], r)|..] == OfRow(b[1..], r);
      }
      KnownByRows(a[1..], b[1..]);
    }
  }

  // ---- the three passes ----------------------------------------------------------------------------

  function FaultPass(rows: seq<ImportRow>): (r: seq<RowError>) {
    if rows == [] then []
    else
      var front, last := rows[..|rows| - 1], rows[|rows| - 1];
      FaultPass(front) + FaultsIn(|rows|, last)
  }

  function DuplicatePass(lower: string -> string, valid: seq<Numbered>): (r: seq<RowError>) {
    if valid == [] then []
    else
      var front, last := valid[..|valid| - 1], valid[|valid| - 1];
      DuplicatePass(lower, front) + DuplicateErrors(lower, front, last)
  }

  function InvitedPass(lower: string -> string, taken: set<string>, valid: seq<Numbered>): (r: seq<RowError>) {
    if valid == [] then []
    else
      var front, last := valid[..|valid| - 1], valid[|valid| - 1];
      InvitedPass(lower, taken, front) + InvitedErrors(lower, taken, last)
  }

  /** What is found in one more row goes behind what was found above, in each pass and in the report. */
  lemma GoesBehind(report: seq<RowError>, p1: seq<RowError>, p2: seq<RowError>, p3: seq<RowError>,
                   e1: seq<RowError>, e2: seq<RowError>, e3: seq<RowError>, n: nat, row: nat)
    requires OfRow(report, row) == OfRow(p1, row) + OfRow(p2, row) + OfRow(p3, row)
    requires forall e :: e in report ==> e.row < n
    requires forall e :: e in e1 || e in e2 || e in e3 ==> e.row == n
    ensures OfRow(report + (e1 + e2 + e3), row) == OfRow(p1 + e1, row) + OfRow(p2 + e2, row) + OfRow(p3 + e3, row)
  {
    if row == n {
      FilterNone((e: RowError) => e.row == row, report);
      OnlyThisRow(p1, e1, n);
      OnlyThisRow(p2, e2, n);
      OnlyThisRow(p3, e3, n);
      OnlyThisRow(report, e1 + e2 + e3, n);
    } else {
      AnotherRow(report, e1 + e2 + e3, n, row);
      AnotherRow(p1, e1, n, row);
      AnotherRow(p2, e2, n, row);
      AnotherRow(p3, e3, n, row);
    }
  }

  lemma OnlyThisRow(above: seq<RowError>, found: seq<RowError>, n: nat)
    requires OfRow(above, n) == [] && forall e :: e in found ==> e.row == n
    ensures OfRow(above + found, n) == found
  {
    OfRowAppend(above, found, n);
    OfOneRow(found, n, n);
  }

  lemma AnotherRow(above: seq<RowError>, found: seq<RowError>, n: nat, row: nat)
    requires row != n && forall e :: e in found ==> e.row == n
    ensures OfRow(above + found, row) == OfRow(above, row)
  {
    OfRowAppend(above, found, row);
    OfOneRow(found, n, row);
  }

  /** The passes of a file with one more row. */
  lemma OneMoreRow(lower: string -> string, taken: set<string>, rows: seq<ImportRow>)
    requires rows != []
    ensures var n := |rows|;
            var front, last := rows[..n - 1], rows[n - 1];
            var above, valid := WellFormedRows(front), WellFormedRows(rows);
            && Report(lower, taken, rows) ==
               Report(lower, taken, front)
               + (FaultsIn(n, last) + DuplicatesIn(lower, above, n, last) + InvitedIn(lower, taken, n, last))
            && FaultPass(rows) == FaultPass(front) + FaultsIn(n, last)
            && DuplicatePass(lower, valid) == DuplicatePass(lower, above) + DuplicatesIn(lower, above, n, last)
            && InvitedPass(lower, taken, valid) == InvitedPass(lower, taken, above) + InvitedIn(lower, taken, n, last)
  {
    var above, valid := WellFormedRows(rows[..|rows| - 1]), WellFormedRows(rows);
    if rows[|rows| - 1].WellFormed? {
      assert valid[..|valid| - 1] == above;
    } else {
      assert valid == above && DuplicatePass(lower, above) + [] == DuplicatePass(lower, above);
      assert InvitedPass(lower, taken, above) + [] == InvitedPass(lower, taken, above);
    }
  }

  /** Of each row, the three passes find what the report says, in that order. */
  lemma {:induction false} PassesFindTheReport(lower: string -> string, taken: set<string>, rows: seq<ImportRow>,
                                               row: nat)
    ensures var valid := WellFormedRows(rows);
            OfRow(Report(lower, taken, rows), row) ==
            OfRow(FaultPass(rows), row) + OfRow(DuplicatePass(lower, valid), row)
            + OfRow(InvitedPass(lower, taken, valid), row)
  {
    if rows != [] {
      var n := |rows|;
      var front, last := rows[..n - 1], rows[n - 1];
      var above, valid := WellFormedRows(front), WellFormedRows(rows);
      var e1, e2, e3 := FaultsIn(n, last), DuplicatesIn(lower, above, n, last), InvitedIn(lower, taken, n, last);
      var report, p1 := Report(lower, taken, front), FaultPass(front);
      var p2, p3 := DuplicatePass(lower, above), InvitedPass(lower, taken, above);
      PassesFindTheReport(lower, taken, front, row);
      ReportIsInOrder(lower, taken, front);
      OneMoreRow(lower, taken, rows);
      GoesBehind(report, p1, p2, p3, e1, e2, e3, n, row);
      assert Report(lower, taken, rows) == report + (e1 + e2 + e3) && FaultPass(rows) == p1 + e1;
      assert DuplicatePass(lower, valid) == p2 + e2 && InvitedPass(lower, taken, valid) == p3 + e3;
    }
  }

  lemma {:induction false} ReportIsInOrder(lower: string -> string, taken: set<string>, rows: seq<ImportRow>)
    ensures forall e :: e in Report(lower, taken, rows) ==> 1 <= e.row <= |rows|
    ensures InRowOrder(Report(lower, taken, rows))
  {
    if rows != [] {
      var front := rows[..|rows| - 1];
      ReportIsInOrder(lower, taken, front);
      var above, report := Report(lower, taken, front), Report(lower, taken, rows);
      forall i, j | 0 <= i < j < |report| ensures report[i].row <= report[j].row {
        if i < |above| { assert report[i] in above; }
      }
    }
  }

  lemma RowsBefore(above: seq<RowError>, found: seq<RowError>, n: nat, row: nat)
    requires row <= n && (forall e :: e in above ==> e.row < n) && forall e :: e in found ==> e.row == n
    ensures OfRow(above + found, row) == if row == n then found else OfRow(above, row)
  {
    if row == n {
      FilterNone((e: RowError) => e.row == n, above);
      OnlyThisRow(above, found, n);
    } else {
      AnotherRow(above, found, n, row);
    }
  }

  lemma ReportGrows(lower: string -> string, taken: set<string>, rows: seq<ImportRow>)
    requires rows != []
    ensures var n := |rows|;
            var above := Report(lower, taken, rows[..n - 1]);
            var found := RowReport(lower, taken, WellFormedRows(rows[..n - 1]), n, rows[n - 1]);
            && Report(lower, taken, rows) == above + found
            && (forall e :: e in above ==> e.row < n) && forall e :: e in found ==> e.row == n
  {
    ReportIsInOrder(lower, taken, rows[..|rows| - 1]);
  }

  lemma OneRowMoreOrLess(lower: string -> string, taken: set<string>, rows: seq<ImportRow>, row: nat)
    requires rows != [] && row <= |rows|
    ensures var n, front := |rows|, rows[..|rows| - 1];
            OfRow(Report(lower, taken, rows), row) ==
            if row == n then RowReport(lower, taken, WellFormedRows(front), n, rows[n - 1])
            else OfRow(Report(lower, taken, front), row)
  {
    var n, front := |rows|, rows[..|rows| - 1];
    ReportGrows(lower, taken, rows);
    RowsBefore(Report(lower, taken, front), RowReport(lower, taken, WellFormedRows(front), n, rows[n - 1]), n, row);
  }

  lemma {:induction false} OneRowsReport(lower: string -> string, taken: set<string>, rows: seq<ImportRow>, i: nat)
    requires i < |rows|
    ensures OfRow(Report(lower, taken, rows), i + 1) ==
            RowReport(lower, taken, WellFormedRows(rows[..i]), i + 1, rows[i])
  {
    var n := |rows|;
    var front := rows[..n - 1];
    OneRowMoreOrLess(lower, taken, rows, i + 1);
    if i < n - 1 {
      OneRowsReport(lower, taken, front, i);
      assert front[..i] == rows[..i];
    }
  }

  /** A malformed row gets its faults, in their order; a well-formed one a repetition, then a guest already there. */
  lemma WhatOneRowGets(lower: string -> string, taken: set<string>, rows: seq<ImportRow>, i: nat)
    requires i < |rows|
    ensures var found := OfRow(Report(lower, taken, rows), i + 1);
            match rows[i]
            case Malformed(faults) =>
              |found| == |faults| && forall k :: 0 <= k < |faults| ==> found[k] == RowError(i + 1, Invalid(faults[k]))
            case WellFormed(_) =>
              |found| <= 2 && (|found| == 2 ==> found[0].problem.DuplicatedInFile? && found[1].problem.AlreadyInvited?)
  {
    OneRowsReport(lower, taken, rows, i);
  }

  /** Sorting by row what the three passes found, one after the other, gives the report. */
  lemma SortedPassesAreTheReport(lower: string -> string, taken: set<string>, rows: seq<ImportRow>)
    ensures var valid := WellFormedRows(rows);
            SortByRow(FaultPass(rows) + DuplicatePass(lower, valid) + InvitedPass(lower, taken, valid)) ==
            Report(lower, taken, rows)
  {
    var valid := WellFormedRows(rows);
    var p1, p2, p3 := FaultPass(rows), DuplicatePass(lower, valid), InvitedPass(lower, taken, valid);
    forall row: nat ensures OfRow(SortByRow(p1 + p2 + p3), row) == OfRow(Report(lower, taken, rows), row) {
      SortIsStable(p1 + p2 + p3, row);
      OfRowAppend(p1 + p2, p3, row);
      OfRowAppend(p1, p2, row);
      PassesFindTheReport(lower, taken, rows, row);
    }
    SortIsStable(p1 + p2 + p3, 0);
    ReportIsInOrder(lower, taken, rows);
    KnownByRows(SortByRow(p1 + p2 + p3), Report(lower, taken, rows));
  }

  // ---- the store ---------------------------------------------------------------------------------

  function NewGuests(eventId: Id, firstId: Id, batch: seq<GuestData>): (guests: seq<Guest>)
    ensures |guests| == |batch|
  {
    seq(|batch|, i requires 0 <= i < |batch| => Guest(firstId + i, eventId, batch[i]))
  }

  /** The data of the well-formed rows, as they go into the store. */
  function DataOf(valid: seq<Numbered>): (batch: seq<GuestData>)
    ensures |batch| == |valid| && forall i :: 0 <= i < |valid| ==> batch[i] == valid[i].data
  {
    seq(|valid|, i requires 0 <= i < |valid| => valid[i].data)
  }

  /** The partial unique index: in an event no two guests have the same email, letter for letter. */
  ghost predicate EmailsUnique(guests: seq<Guest>) {
    forall i, j :: 0 <= i < j < |guests| ==> !SameEmail(guests[i], guests[j])
  }

  predicate SameEmail(a: Guest, b: Guest) {
    a.eventId == b.eventId && a.data.email.Some? && a.data.email == b.data.email
  }

  predicate Occupied(guests: seq<Guest>, eventId: Id, email: string) {
    exists g :: g in guests && g.eventId == eventId && g.data.email == Some(email)
  }

  /** Some email of the batch is in it twice, or in the event already. */
  ghost predicate Clashes(guests: seq<Guest>, eventId: Id, batch: seq<GuestData>) {
    || (exists i, j :: 0 <= i < j < |batch| && batch[i].email.Some? && batch[i].email == batch[j].email)
    || (exists i :: 0 <= i < |batch| && batch[i].email.Some? && Occupied(guests, eventId, batch[i].email.value))
  }

  /** The store after a batch that is inserted unless it clashes. */
  ghost function WithBatch(guests: seq<Guest>, eventId: Id, firstId: Id, batch: seq<GuestData>): (after: seq<Guest>)
    ensures Clashes(guests, eventId, batch) ==> after == guests
  {
    if Clashes(guests, eventId, batch) then guests else guests + NewGuests(eventId, firstId, batch)
  }

  class GuestRepository {
    var guests: seq<Guest>
    var nextId: Id
    /** What `toLowerCase` does to a text. */
    const lower: string -> string

    ghost predicate Valid()
      reads this
    {
      && EmailsUnique(guests)
      && (forall g :: g in guests ==> g.id < nextId)
      && (forall i, j :: 0 <= i < j < |guests| ==> guests[i].id != guests[j].id)
      && (forall s :: lower(lower(s)) == lower(s))
    }

    constructor (lower: string -> string)
      requires forall s :: lower(lower(s)) == lower(s)
      ensures Valid() && guests == [] && this.lower == lower
    {
      guests, nextId, this.lower := [], 0, lower;
    }

    method ExistingEmails(eventId: Id, emails: set<string>) returns (found: set<string>)
      ensures found == Taken(lower, guests, eventId) * set e | e in emails :: lower(e)
    {
      var wanted := set e | e in emails :: lower(e);
      found := {};
      for i := 0 to |guests|
        invariant found == Taken(lower, guests[..i], eventId) * wanted
      {
        var g := guests[i];
        assert guests[..i + 1] == guests[..i] + [g];
        TakenGrows(lower, guests[..i], g, eventId);
        if g.eventId == eventId && g.data.email.Some? && lower(g.data.email.value) in wanted {
          found := found + {lower(g.data.email.value)};
        }
      }
      assert guests[..|guests|] == guests;
    }

    /** All of the batch, or nothing if an email of it clashes. */
    method CreateMany(eventId: Id, batch: seq<GuestData>) returns (r: Option<nat>)
      requires Valid()
      modifies this
      ensures Valid() && nextId >= old(nextId)
      ensures r == if Clashes(old(guests), eventId, batch) then None else Some(|batch|)
      ensures guests == if r.None? then old(guests) else old(guests) + NewGuests(eventId, old(nextId), batch)
      ensures r.Some? ==> Inserted(guests, old(guests), eventId, batch)
    {
      var seen: set<string> := {};
      for i := 0 to |batch|
        invariant !Clashes(guests, eventId, batch[..i])
        invariant forall e :: e in seen <==> exists k :: 0 <= k < i && batch[k].email == Some(e)
      {
        var email := batch[i].email;
        if email.Some? {
          if email.value in seen || Occupied(guests, eventId, email.value) {
            return None;
          }
          seen := seen + {email.value};
        }
      }
      assert batch[..|batch|] == batch;
      BatchKeepsUnique(guests, eventId, nextId, batch);
      for i := 0 to |batch|
        invariant guests == old(guests) + NewGuests(eventId, old(nextId), batch[..i]) && nextId == old(nextId) + i
      {
        guests := guests + [Guest(nextId, eventId, batch[i])];
        nextId := nextId + 1;
        assert NewGuests(eventId, old(nextId), batch[..i + 1]) ==
               NewGuests(eventId, old(nextId), batch[..i]) + [Guest(old(nextId) + i, eventId, batch[i])];
      }
      return Some(|batch|);
    }
  }

  lemma TakenGrows(lower: string -> string, guests: seq<Guest>, g: Guest, eventId: Id)
    ensures Taken(lower, guests + [g], eventId) == Taken(lower, guests, eventId) +
            if g.eventId == eventId && g.data.email.Some? then {lower(g.data.email.value)} else {}
  {
    assert forall x :: x in guests + [g] <==> x in guests || x == g;
  }

  /** Guests of that event with these data, in order, after the others. */
  ghost predicate Inserted(guests: seq<Guest>, before: seq<Guest>, eventId: Id, batch: seq<GuestData>) {
    && |guests| == |before| + |batch| && guests[..|before|] == before
    && forall k :: 0 <= k < |batch| ==>
         var g := guests[|before| + k];
         && g.eventId == eventId && g.data.name == batch[k].name && g.data.email == batch[k].email
         && g.data.companionsAllowed == batch[k].companionsAllowed
  }

  /** A batch clashes exactly when inserting it would break the unique index. */
  lemma ClashesExactlyWhenNotUnique(guests: seq<Guest>, eventId: Id, firstId: Id, batch: seq<GuestData>)
    requires EmailsUnique(guests)
    ensures Clashes(guests, eventId, batch) <==> !EmailsUnique(guests + NewGuests(eventId, firstId, batch))
  {
    var added := NewGuests(eventId, firstId, batch);
    var all := guests + added;
    if !Clashes(guests, eventId, batch) { BatchKeepsUnique(guests, eventId, firstId, batch); }
    if i, j :| 0 <= i < j < |batch| && batch[i].email.Some? && batch[i].email == batch[j].email {
      assert SameEmail(all[|guests| + i], all[|guests| + j]);
    }
    if i :| 0 <= i < |batch| && batch[i].email.Some? && Occupied(guests, eventId, batch[i].email.value) {
      var g :| g in guests && g.eventId == eventId && g.data.email == batch[i].email;
      var k :| 0 <= k < |guests| && guests[k] == g;
      assert SameEmail(all[k], all[|guests| + i]);
    }
  }

  lemma BatchKeepsUnique(guests: seq<Guest>, eventId: Id, firstId: Id, batch: seq<GuestData>)
    requires EmailsUnique(guests) && !Clashes(guests, eventId, batch)
    ensures EmailsUnique(guests + NewGuests(eventId, firstId, batch))
  {
    var all := guests + NewGuests(eventId, firstId, batch);
    forall i, j | 0 <= i < j < |all| ensures !SameEmail(all[i], all[j]) {
      if i < |guests| <= j && batch[j - |guests|].email.Some? {
        assert guests[i] in guests && !Occupied(guests, eventId, batch[j - |guests|].email.value);
      }
    }
  }

  // ---- the use case ----------------------------------------------------------------------------

  /** A validated batch never clashes: mailboxes that differ ignoring case differ letter for letter. */
  lemma CleanNeverClashes(lower: string -> string, guests: seq<Guest>, eventId: Id, rows: seq<ImportRow>)
    requires Clean(lower, Taken(lower, guests, eventId), rows)
    ensures !Clashes(guests, eventId, DataOf(WellFormedRows(rows)))
  {
    var valid := WellFormedRows(rows);
    var batch := DataOf(valid);
    RowsAscend(rows);
    forall i, j | 0 <= i < j < |batch| && batch[i].email.Some? ensures batch[i].email != batch[j].email {
      assert valid[i] in valid && valid[j] in valid;
      assert rows[valid[i].row - 1] == WellFormed(batch[i]) && rows[valid[j].row - 1] == WellFormed(batch[j]);
      if batch[j].email.Some? {
        assert !Mailbox(lower, rows[valid[i].row - 1], lower(batch[j].email.value));
      }
    }
    forall i | 0 <= i < |batch| && batch[i].email.Some? ensures !Occupied(guests, eventId, batch[i].email.value) {
      assert valid[i] in valid;
      assert rows[valid[i].row - 1] == WellFormed(batch[i]);
    }
  }

  lemma {:induction false} RowsAscend(rows: seq<ImportRow>)
    ensures var valid := WellFormedRows(rows); forall i, j :: 0 <= i < j < |valid| ==> valid[i].row < valid[j].row
  {
    if rows != [] {
      var front := rows[..|rows| - 1];
      RowsAscend(front);
      forall i | 0 <= i < |WellFormedRows(front)| ensures WellFormedRows(front)[i].row < |rows| {
        assert WellFormedRows(front)[i] in WellFormedRows(front);
      }
    }
  }

  /** What goes into the store: exactly the well-formed rows, in the order of the file. */
  lemma WellFormedRowsInOrder(rows: seq<ImportRow>)
    ensures var valid := WellFormedRows(rows);
            && (forall v: Numbered :: v in valid <==> 1 <= v.row <= |rows| && rows[v.row - 1] == WellFormed(v.data))
            && (forall i, j :: 0 <= i < j < |valid| ==> valid[i].row < valid[j].row)
  {
    EveryWellFormedRowIsThere(rows);
    RowsAscend(rows);
    forall v: Numbered | 1 <= v.row <= |rows| && rows[v.row - 1] == WellFormed(v.data)
      ensures v in WellFormedRows(rows)
    {
      assert v == Numbered(v.row - 1 + 1, rows[v.row - 1].data);
    }
  }

  /** The first pass: well-formed rows are kept, faults reported. */
  method SortOut(rows: seq<ImportRow>) returns (errors: seq<RowError>, valid: seq<Numbered>)
    ensures errors == FaultPass(rows) && valid == WellFormedRows(rows)
  {
    errors, valid := [], [];
    for i := 0 to |rows|
      invariant errors == FaultPass(rows[..i]) && valid == WellFormedRows(rows[..i])
    {
      assert rows[..i + 1][..i] == rows[..i];
      match rows[i]
      case WellFormed(data) => valid := valid + [Numbered(i + 1, data)];
      case Malformed(faults) =>
        ghost var before := errors;
        for k := 0 to |faults|
          invariant errors == before + FaultErrors(i + 1, faults[..k])
        {
          errors := errors + [RowError(i + 1, Invalid(faults[k]))];
          assert FaultErrors(i + 1, faults[..k + 1]) ==
              FaultErrors(i + 1, faults[..k]) + [RowError(i + 1, Invalid(faults[k]))];
        }
        assert faults[..|faults|] == faults;
    }
    assert rows[..|rows|] == rows;
  }

  /** The second pass: the first row of each mailbox, and an error for each later one. */
  method FindDuplicates(lower: string -> string, valid: seq<Numbered>)
    returns (errors: seq<RowError>, firstRowOf: map<string, nat>)
    ensures errors == DuplicatePass(lower, valid)
    ensures forall key :: key in firstRowOf <==> exists v :: v in valid && HasKey(lower, v.data, key)
  {
    errors, firstRowOf := [], map[];
    for i := 0 to |valid|
      invariant errors == DuplicatePass(lower, valid[..i])
      invariant forall key :: key in firstRowOf <==> FirstWith(lower, valid[..i], key).Some?
      invariant forall key :: key in firstRowOf ==> FirstWith(lower, valid[..i], key) == Some(firstRowOf[key])
    {
      var v := valid[i];
      assert valid[..i + 1][..i] == valid[..i] && valid[..i + 1][i] == v;
      if v.data.email.Some? {
        var key := lower(v.data.email.value);
        if key in firstRowOf {
          errors := errors + [RowError(v.row, DuplicatedInFile(firstRowOf[key]))];
        } else {
          firstRowOf := firstRowOf[key := v.row];
        }
      }
    }
    assert valid[..|valid|] == valid;
    forall key ensures key in firstRowOf <==> exists v :: v in valid && HasKey(lower, v.data, key) {
      FirstWithFinds(lower, valid, key);
    }
  }

  /** The third pass: rows whose mailbox is among those found in the event. */
  method FindInvited(lower: string -> string, found: set<string>, valid: seq<Numbered>) returns (errors: seq<RowError>)
    ensures errors == InvitedPass(lower, found, valid)
  {
    errors := [];
    for i := 0 to |valid|
      invariant errors == InvitedPass(lower, found, valid[..i])
    {
      assert valid[..i + 1][..i] == valid[..i];
      var v := valid[i];
      if v.data.email.Some? && lower(v.data.email.value) in found {
        errors := errors + [RowError(v.row, AlreadyInvited)];
      }
    }
    assert valid[..|valid|] == valid;
  }

  /** Looking only for the mailboxes of the file finds the same rows. */
  lemma {:induction false} EnoughToLookForTheFiles(lower: string -> string, taken: set<string>, found: set<string>,
                                                   valid: seq<Numbered>)
    requires forall v, key :: v in valid && HasKey(lower, v.data, key) ==> (key in taken <==> key in found)
    ensures InvitedPass(lower, found, valid) == InvitedPass(lower, taken, valid)
  {
    if valid != [] {
      var last := valid[|valid| - 1];
      if last.data.email.Some? { assert HasKey(lower, last.data, lower(last.data.email.value)); }
      EnoughToLookForTheFiles(lower, taken, found, valid[..|valid| - 1]);
    }
  }

  lemma FoundIsEnough(lower: string -> string, taken: set<string>, found: set<string>, keys: set<string>,
                      valid: seq<Numbered>)
    requires forall s :: lower(lower(s)) == lower(s)
    requires forall key :: key in keys <==> exists v :: v in valid && HasKey(lower, v.data, key)
    requires found == taken * set e | e in keys :: lower(e)
    ensures InvitedPass(lower, found, valid) == InvitedPass(lower, taken, valid)
  {
    forall v, key | v in valid && HasKey(lower, v.data, key) ensures key in taken <==> key in found {
      assert key in keys && lower(key) == key;
    }
    EnoughToLookForTheFiles(lower, taken, found, valid);
  }

  lemma {:induction false} SortKeepsSize(errors: seq<RowError>)
    ensures |SortByRow(errors)| == |errors|
  {
    if errors != [] {
      SortKeepsSize(errors[..|errors| - 1]);
      InsertAddsOne(SortByRow(errors[..|errors| - 1]), errors[|errors| - 1]);
    }
  }

  lemma {:induction false} InsertAddsOne(errors: seq<RowError>, e: RowError)
    ensures |InsertByRow(errors, e)| == |errors| + 1
  {
    if errors != [] && errors[|errors| - 1].row > e.row { InsertAddsOne(errors[..|errors| - 1], e); }
  }

  class ImportGuests {
    const store: GuestRepository

    constructor (store: GuestRepository)
      ensures this.store == store
    {
      this.store := store;
    }

    /** The three passes, before anything is written. */
    method Validate(eventId: Id, rows: seq<ImportRow>) returns (errors: seq<RowError>, valid: seq<Numbered>)
      requires store.Valid()
      ensures valid == WellFormedRows(rows)
      ensures SortByRow(errors) == Report(store.lower, Taken(store.lower, store.guests, eventId), rows)
      ensures errors == [] <==> Report(store.lower, Taken(store.lower, store.guests, eventId), rows) == []
    {
      var lower := store.lower;
      ghost var taken := Taken(lower, store.guests, eventId);
      var faults, firstRowOf;
      faults, valid := SortOut(rows);
      var duplicates;
      duplicates, firstRowOf := FindDuplicates(lower, valid);
      var found := store.ExistingEmails(eventId, firstRowOf.Keys);
      assert found == taken * set e | e in firstRowOf.Keys :: lower(e);
      FoundIsEnough(lower, taken, found, firstRowOf.Keys, valid);
      var invited := FindInvited(lower, found, valid);
      errors := faults + duplicates + invited;
      SortedPassesAreTheReport(lower, taken, rows);
      SortKeepsSize(errors);
    }

    /**
      `meanwhile` are the guests that somebody else creates in that event between
      the validation and the write.
    */
    method Execute(eventId: Id, rows: seq<ImportRow>, meanwhile: seq<GuestData>) returns (r: ImportResult)
      requires store.Valid()
      modifies store
      ensures store.Valid()
      // every error is reported, row by row, and then nothing is written
      ensures var report := Report(store.lower, Taken(store.lower, old(store.guests), eventId), rows);
              if report != [] then r == Rejected(report) && store.guests == old(store.guests)
              else r == Created(|WellFormedRows(rows)|) || r == EmailTaken
      // a validated batch is refused exactly when it clashes with what was written meanwhile
      ensures var stored := WithBatch(old(store.guests), eventId, old(store.nextId), meanwhile);
              r == EmailTaken <==>
                && Report(store.lower, Taken(store.lower, old(store.guests), eventId), rows) == []
                && Clashes(stored, eventId, DataOf(WellFormedRows(rows)))
      ensures meanwhile == [] ==> r != EmailTaken
      ensures r == EmailTaken ==> store.guests == old(store.guests) + NewGuests(eventId, old(store.nextId), meanwhile)
      ensures r.Created? ==> exists firstId ::
                store.guests == WithBatch(old(store.guests), eventId, old(store.nextId), meanwhile)
                                + NewGuests(eventId, firstId, DataOf(WellFormedRows(rows)))
      ensures r.Created? ==>
        Inserted(store.guests, WithBatch(old(store.guests), eventId, old(store.nextId), meanwhile), eventId,
                 DataOf(WellFormedRows(rows)))
    {
      var errors, valid := Validate(eventId, rows);
      if errors != [] {
        return Rejected(SortByRow(errors));
      }
      NothingToReportExactlyWhenClean(store.lower, Taken(store.lower, store.guests, eventId), rows);
      CleanNeverClashes(store.lower, store.guests, eventId, rows);
      var _ := store.CreateMany(eventId, meanwhile);
      var created := store.CreateMany(eventId, DataOf(valid));
      return if created.None? then EmailTaken else Created(created.value);
    }
  }
}
