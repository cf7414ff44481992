/**
  The in-memory seating store and the use cases that edit it. Every use case
  keeps the plan sound, and so does any sequence of them over any events.
*/
module SeatingPlan {
  import opened Common
  import opened Lists
  import opened Seating

  datatype Error =
    | TableNotFound
    | SeatOutOfRange
    | OccupantInvalid
    | SeatNotEmpty
    | TableLimitExceeded
    | SeatRangeInvalid
    | UniquenessViolated    // the database's unique constraints on (table, seat) and on (guest, companion)

  datatype NewTable = NewTable(name: TableName, minSeats: int, maxSeats: int, seatCount: int, x: int, y: int)

  datatype Changes = Changes(
    name: Option<TableName>, minSeats: Option<int>, maxSeats: Option<int>, seatCount: Option<int>,
    x: Option<int>, y: Option<int>)

  function Or<T>(change: Option<T>, current: T): (r: T) {
    match change case Some(v) => v case None => current
  }

  predicate TookAll(t: Table, u: Table, c: Changes) {
    && u.id == t.id && u.event == t.event && u.createdAt == t.createdAt
    && Took(c.name, t.name, u.name) && Took(c.minSeats, t.minSeats, u.minSeats)
    && Took(c.maxSeats, t.maxSeats, u.maxSeats) && Took(c.seatCount, t.seatCount, u.seatCount)
    && Took(c.x, t.x, u.x) && Took(c.y, t.y, u.y)
  }

  function Changed(t: Table, c: Changes): (r: Table) {
    t.(name := Or(c.name, t.name), minSeats := Or(c.minSeats, t.minSeats), maxSeats := Or(c.maxSeats, t.maxSeats),
       seatCount := Or(c.seatCount, t.seatCount), x := Or(c.x, t.x), y := Or(c.y, t.y))
  }

  // ---- what holds of a stored plan ----------------------------------------

  function TablesOf(tables: seq<Table>, event: Id): (r: seq<Table>) {
    Filter((t: Table) => t.event == event, tables)
  }

  function AssignmentsOf(assignments: seq<Assignment>, event: Id): (r: seq<Assignment>) {
    Filter((a: Assignment) => a.event == event, assignments)
  }

  function GuestsOf(guests: seq<Guest>, event: Id): (r: seq<Guest>) {
    Filter((g: Guest) => g.event == event, guests)
  }

  predicate RangeValid(t: Table) {
    SeatRangeValid(t.minSeats, t.seatCount, t.maxSeats)
  }

  /** Within an event, tables are stored in strictly increasing order of creation. */
  predicate InOrder(t: Table, u: Table) {
    t.id != u.id && (t.event == u.event ==> t.createdAt < u.createdAt)
  }

  ghost predicate TablesSound(tables: seq<Table>, nextId: Id) {
    && Pairwise(InOrder, tables)
    && (forall t :: t in tables ==> t.id < nextId && RangeValid(t))
    && (forall event :: |TablesOf(tables, event)| <= MAX_TABLES_PER_EVENT)
  }

  predicate Apart(a: Assignment, b: Assignment) {
    !a.SameSeat(b) && !a.SamePerson(b)
  }

  predicate Placed(a: Assignment, tables: seq<Table>, guests: seq<Guest>) {
    && (exists t :: t in tables && t.id == a.table && t.event == a.event && a.seat < t.seatCount)
    && (exists g :: g in guests && g.id == a.guest && g.event == a.event)
  }

  ghost predicate AssignmentsSound(assignments: seq<Assignment>, tables: seq<Table>, guests: seq<Guest>) {
    Pairwise(Apart, assignments) && forall a :: a in assignments ==> Placed(a, tables, guests)
  }

  function ToSet(assignments: seq<Assignment>): (r: set<Assignment>) {
    set a | a in assignments
  }

  lemma ApartIsInjective(assignments: seq<Assignment>)
    requires Pairwise(Apart, assignments)
    ensures Injective(ToSet(assignments)) && SeatsOnce(assignments)
  {
    forall a, b | a in assignments && b in assignments && (a.SamePerson(b) || a.SameSeat(b)) ensures a == b {
      var i :| 0 <= i < |assignments| && assignments[i] == a;
      var j :| 0 <= j < |assignments| && assignments[j] == b;
      assert i < j ==> Apart(a, b);
      assert j < i ==> Apart(b, a);
    }
  }

  /** Tables and guests belong to one event each, so what shares a seat or a person shares the event. */
  lemma SameEvent(assignments: seq<Assignment>, tables: seq<Table>, nextId: Id, guests: seq<Guest>, a: Assignment,
                  b: Assignment)
    requires TablesSound(tables, nextId) && GuestsOnce(guests)
    requires Placed(a, tables, guests) && Placed(b, tables, guests)
    requires a.table == b.table || a.guest == b.guest
    ensures a.event == b.event
  {
    if a.table == b.table {
      var t :| t in tables && t.id == a.table && t.event == a.event;
      var u :| u in tables && u.id == b.table && u.event == b.event;
      var i :| 0 <= i < |tables| && tables[i] == t;
      var j :| 0 <= j < |tables| && tables[j] == u;
      assert i < j ==> InOrder(tables[i], tables[j]);
      assert j < i ==> InOrder(tables[j], tables[i]);
    } else {
      var g :| g in guests && g.id == a.guest && g.event == a.event;
      var h :| h in guests && h.id == b.guest && h.event == b.event;
    }
  }

  class SeatingRepository {
    var tables: seq<Table>
    var assignments: seq<Assignment>
    var guests: seq<Guest>
    var nextId: Id

    ghost predicate Sound() reads this {
      && TablesSound(tables, nextId) && GuestsOnce(guests) && (forall g :: g in guests ==> g.id < nextId)
      && AssignmentsSound(assignments, tables, guests)
    }

    /** The event's plan as every use case answers it. */
    ghost function View(event: Id): (r: seq<TableView>)
      reads this
      requires Sound()
    {
      Arrange(TablesOf(tables, event), AssignmentsOf(assignments, event), GuestsOf(guests, event))
    }

    constructor ()
      ensures Sound() && tables == [] && assignments == [] && guests == []
    {
      tables, assignments, guests, nextId := [], [], [], 0;
    }

    method FindTable(event: Id, id: Id) returns (index: Option<nat>)
      ensures index.Some? ==>
          index.value < |tables| && tables[index.value].id == id && tables[index.value].event == event
      ensures index.None? ==> forall t :: t in tables ==> !(t.id == id && t.event == event)
    {
      for i := 0 to |tables|
        invariant forall k :: 0 <= k < i ==> !(tables[k].id == id && tables[k].event == event)
      {
        if tables[i].id == id && tables[i].event == event {
          return Some(i);
        }
      }
      index := None;
    }

    method FindGuest(event: Id, id: Id) returns (guest: Option<Guest>)
      ensures guest.Some? ==> guest.value in guests && guest.value.id == id && guest.value.event == event
      ensures guest.None? ==> forall g :: g in guests ==> !(g.id == id && g.event == event)
    {
      for i := 0 to |guests|
        invariant forall k :: 0 <= k < i ==> !(guests[k].id == id && guests[k].event == event)
      {
        if guests[i].id == id && guests[i].event == event {
          return Some(guests[i]);
        }
      }
      guest := None;
    }

    /** Creation order; the stored order already is. */
    method ListTables(event: Id) returns (r: seq<Table>)
      requires Sound()
      ensures r == TablesOf(tables, event)
      ensures forall i, j :: 0 <= i < j < |r| ==> r[i].createdAt < r[j].createdAt
    {
      r := TablesOf(tables, event);
      FilterPairwise(InOrder, (t: Table) => t.event == event, tables);
      forall i, j | 0 <= i < j < |r| ensures r[i].createdAt < r[j].createdAt {
        assert r[i] in r && r[j] in r && InOrder(r[i], r[j]);
      }
    }

    /** Inserts unless a unique constraint, over all events, is violated. */
    method Assign(a: Assignment) returns (ok: bool)
      modifies this`assignments
      ensures ok == forall x :: x in old(assignments) ==> Apart(x, a)
      ensures assignments == if ok then old(assignments) + [a] else old(assignments)
    {
      for i := 0 to |assignments|
        invariant forall k :: 0 <= k < i ==> Apart(assignments[k], a)
      {
        if !Apart(assignments[i], a) {
          assert assignments[i] in assignments;
          return false;
        }
      }
      assignments := assignments + [a];
      ok := true;
    }

    method RemoveWhere(gone: Assignment -> bool)
      modifies this`assignments
      ensures assignments == Filter((a: Assignment) => !gone(a), old(assignments))
    {
      assignments := Filter((a: Assignment) => !gone(a), assignments);
    }

    /** The whole plan of the event. */
    method ReadView(event: Id) returns (view: seq<TableView>)
      requires Sound()
      ensures view == View(event)
    {
      var listed := ListTables(event);
      view := Arrange(listed, AssignmentsOf(assignments, event), GuestsOf(guests, event));
    }
  }

  // ---- the assignment use case -------------------------------------------

  method FindAssignment(listed: seq<Assignment>, wanted: Assignment -> bool) returns (found: Option<Assignment>)
    ensures found.Some? ==> found.value in listed && wanted(found.value)
    ensures found.None? ==> forall a :: a in listed ==> !wanted(a)
  {
    for i := 0 to |listed|
      invariant forall k :: 0 <= k < i ==> !wanted(listed[k])
    {
      if wanted(listed[i]) {
        return Some(listed[i]);
      }
    }
    found := None;
  }

  /** This person comes, going by the guest's answer: no refusal, and within the number confirmed, or else the quota. */
  predicate Expected(g: Guest, companion: nat) {
    && g.rsvp != Declined
    && match g.companionsConfirmed
       case Some(n) => companion <= n
       case None => companion <= g.companionsAllowed
  }

  /** Why an assignment is refused, if it is. */
  ghost function Refusal(tables: seq<Table>, guests: seq<Guest>, d: Assignment): (r: Option<Error>) {
    if !(exists t :: t in tables && t.id == d.table && t.event == d.event) then Some(TableNotFound)
    else if !(exists t :: t in tables && t.id == d.table && t.event == d.event && d.seat < t.seatCount)
    then Some(SeatOutOfRange)
    else if !(exists g :: g in guests && g.id == d.guest && g.event == d.event && Expected(g, d.companion))
    then Some(OccupantInvalid)
    else None
  }

  method Check(repo: SeatingRepository, d: Assignment) returns (refused: Option<Error>)
    requires repo.Sound()
    ensures refused == Refusal(repo.tables, repo.guests, d)
  {
    var found := repo.FindTable(d.event, d.table);
    if found.None? {
      return Some(TableNotFound);
    }
    var table := repo.tables[found.value];
    assert table in repo.tables;
    OneTable(repo.tables, repo.nextId, table);
    if d.seat >= table.seatCount {
      return Some(SeatOutOfRange);
    }
    var guest := repo.FindGuest(d.event, d.guest);
    if !OccupantValid(d.companion, guest) {
      return Some(OccupantInvalid);
    }
    refused := None;
  }

  /**
    Sits a person: moves them, or swaps them with whoever was there. The unique
    constraints never reject the writes, and only this event's plan changes.
  */
  method AssignSeat(repo: SeatingRepository, d: Assignment) returns (r: Result<seq<TableView>, Error>)
    requires repo.Sound()
    modifies repo`assignments
    ensures repo.Sound()
    ensures match Refusal(repo.tables, repo.guests, d)
            case Some(e) => r == Err(e) && repo.assignments == old(repo.assignments)
            case None =>
              r == Ok(repo.View(d.event)) && ToSet(repo.assignments) == Seated(ToSet(old(repo.assignments)), d)
  {
    var refused := Check(repo, d);
    if refused.Some? {
      return Err(refused.value);
    }
    var ok := Reseat(repo, d);
    if !ok {
      return Err(UniquenessViolated);
    }
    var view := repo.ReadView(d.event);
    r := Ok(view);
  }

  /** The accepted part: finds where the person and the seat's occupant are, and moves them unless they are the same. */
  method Reseat(repo: SeatingRepository, d: Assignment) returns (ok: bool)
    requires repo.Sound() && Placed(d, repo.tables, repo.guests)
    modifies repo`assignments
    ensures ok && repo.Sound() && ToSet(repo.assignments) == Seated(ToSet(old(repo.assignments)), d)
  {
    var listed := AssignmentsOf(repo.assignments, d.event);
    var origin := FindAssignment(listed, (a: Assignment) => a.SamePerson(d));
    var previous := FindAssignment(listed, (a: Assignment) => a.SameSeat(d));
    Located(repo, d, origin, previous);
    if origin.Some? && previous == origin {
      return true;
    }
    ok := Place(repo, d, origin, previous);
  }

  /** Takes the two occupants out and puts them in their new seats; `ok` is whether no unique constraint refused. */
  method Place(repo: SeatingRepository, d: Assignment, origin: Option<Assignment>, previous: Option<Assignment>)
    returns (ok: bool)
    requires AssignmentsSound(repo.assignments, repo.tables, repo.guests) && Placed(d, repo.tables, repo.guests)
    requires Injective(ToSet(repo.assignments))
    requires origin == PersonIn(ToSet(repo.assignments), d) && previous == SeatIn(ToSet(repo.assignments), d)
    requires (origin.Some? ==> origin.value.event == d.event) && (previous.Some? ==> previous.value.event == d.event)
    requires !(origin.Some? && previous == origin)
    modifies repo`assignments
    ensures ok && AssignmentsSound(repo.assignments, repo.tables, repo.guests)
    ensures ToSet(repo.assignments) == Seated(ToSet(old(repo.assignments)), d)
  {
    ghost var before := repo.assignments;
    SeatedInSteps(ToSet(before), d, origin, previous);
    var gone := (a: Assignment) => a.event == d.event && IsOneOf(a, origin, previous);
    repo.RemoveWhere(gone);
    AfterRemoval(repo, before, d, origin, previous, gone);
    ok := AddTo(repo, d);
    if ok && origin.Some? && previous.Some? {
      SwapFits(repo.assignments, before, d, origin.value, previous.value, repo.tables, repo.guests);
      ok := AddTo(repo, previous.value.MovedTo(origin.value));
    }
  }

  lemma SeatedInSteps(all: set<Assignment>, d: Assignment, origin: Option<Assignment>, previous: Option<Assignment>)
    requires Injective(all) && origin == PersonIn(all, d) && previous == SeatIn(all, d)
    requires !(origin.Some? && previous == origin)
    ensures Seated(all, d) ==
            all - (if origin.Some? then {origin.value} else {}) - (if previous.Some? then {previous.value} else {})
            + {d} + (if origin.Some? && previous.Some? then {previous.value.MovedTo(origin.value)} else {})
  {
    SeatedShape(all, d, origin, previous);
  }

  /** `Assign`, where the seat and the person are free. */
  method AddTo(repo: SeatingRepository, a: Assignment) returns (ok: bool)
    requires AssignmentsSound(repo.assignments, repo.tables, repo.guests) && Placed(a, repo.tables, repo.guests)
    requires forall x :: x in ToSet(repo.assignments) ==> Apart(x, a)
    modifies repo`assignments
    ensures ok && AssignmentsSound(repo.assignments, repo.tables, repo.guests)
    ensures ToSet(repo.assignments) == ToSet(old(repo.assignments)) + {a}
  {
    assert forall x :: x in repo.assignments ==> x in ToSet(repo.assignments);
    ok := repo.Assign(a);
  }

  /** The displaced person fits in the seat that was left. */
  lemma SwapFits(now: seq<Assignment>, before: seq<Assignment>, d: Assignment, o: Assignment, p: Assignment,
                 tables: seq<Table>, guests: seq<Guest>)
    requires Injective(ToSet(before)) && o in before && p in before && o != p && o.SamePerson(d) && p.SameSeat(d)
    requires Placed(o, tables, guests) && Placed(p, tables, guests) && o.event == p.event
    requires ToSet(now) == ToSet(before) - {o} - {p} + {d}
    ensures forall x :: x in ToSet(now) ==> Apart(x, p.MovedTo(o))
    ensures Placed(p.MovedTo(o), tables, guests)
  {
    forall x | x in ToSet(now) ensures Apart(x, p.MovedTo(o)) {
      if x != d {
        assert x in ToSet(before) && x != o && x != p;
        assert !x.SameSeat(o) && !x.SamePerson(p);
      } else {
        assert d.SameSeat(o) ==> p.SameSeat(o);
        assert d.SamePerson(p) ==> o.SamePerson(p);
      }
    }
    var t :| t in tables && t.id == o.table && t.event == o.event && o.seat < t.seatCount;
    var g :| g in guests && g.id == p.guest && g.event == p.event;
  }

  /** After a move, asking for the old seat again is never refused. */
  lemma MovingBackIsAccepted(tables: seq<Table>, guests: seq<Guest>, o: Assignment, d: Assignment)
    requires Refusal(tables, guests, d) == None && Placed(o, tables, guests) && o.SamePerson(d) && o.event == d.event
    ensures Refusal(tables, guests, o) == None
  {
  }

  predicate IsOneOf(a: Assignment, origin: Option<Assignment>, previous: Option<Assignment>) {
    (origin.Some? && a.SamePerson(origin.value)) || (previous.Some? && a.SamePerson(previous.value))
  }

  lemma OneTable(tables: seq<Table>, nextId: Id, t: Table)
    requires TablesSound(tables, nextId) && t in tables
    ensures forall u :: u in tables && u.id == t.id ==> u == t
  {
    var i :| 0 <= i < |tables| && tables[i] == t;
    forall u | u in tables && u.id == t.id ensures u == t {
      var j :| 0 <= j < |tables| && tables[j] == u;
      assert i < j ==> InOrder(tables[i], tables[j]);
      assert j < i ==> InOrder(tables[j], tables[i]);
    }
  }

  /** What was found within the event is all there is in the whole store. */
  lemma Located(repo: SeatingRepository, d: Assignment, origin: Option<Assignment>, previous: Option<Assignment>)
    requires repo.Sound() && Placed(d, repo.tables, repo.guests)
    requires var listed := AssignmentsOf(repo.assignments, d.event);
             && (match origin
                 case Some(a) => a in listed && a.SamePerson(d)
                 case None => forall a :: a in listed ==> !a.SamePerson(d))
             && (match previous
                 case Some(a) => a in listed && a.SameSeat(d)
                 case None => forall a :: a in listed ==> !a.SameSeat(d))
    ensures origin == PersonIn(ToSet(repo.assignments), d) && previous == SeatIn(ToSet(repo.assignments), d)
    ensures Injective(ToSet(repo.assignments))
    ensures Seated(ToSet(repo.assignments), d) ==
      match (origin, previous)
      case (None, None) => ToSet(repo.assignments) + {d}
      case (Some(a), None) => ToSet(repo.assignments) - {a} + {d}
      case (None, Some(b)) => ToSet(repo.assignments) - {b} + {d}
      case (Some(a), Some(b)) => if a == b then ToSet(repo.assignments)
                                 else ToSet(repo.assignments) - {a, b} + {d, b.MovedTo(a)}
  {
    ApartIsInjective(repo.assignments);
    forall a | a in repo.assignments && (a.SamePerson(d) || a.SameSeat(d))
      ensures a in AssignmentsOf(repo.assignments, d.event)
    {
      SameEvent(repo.assignments, repo.tables, repo.nextId, repo.guests, a, d);
    }
    FoundAre(ToSet(repo.assignments), d, origin, previous);
    SeatedShape(ToSet(repo.assignments), d, origin, previous);
  }

  lemma FoundAre(all: set<Assignment>, d: Assignment, origin: Option<Assignment>, previous: Option<Assignment>)
    requires Injective(all)
    requires match origin
             case Some(a) => a in all && a.SamePerson(d)
             case None => forall a :: a in all ==> !a.SamePerson(d)
    requires match previous
             case Some(a) => a in all && a.SameSeat(d)
             case None => forall a :: a in all ==> !a.SameSeat(d)
    ensures origin == PersonIn(all, d) && previous == SeatIn(all, d)
  {
  }

  /** Once the two are out, neither the person nor the seat is taken, and the store is sound. */
  lemma AfterRemoval(repo: SeatingRepository, before: seq<Assignment>, d: Assignment,
                     origin: Option<Assignment>, previous: Option<Assignment>, gone: Assignment -> bool)
    requires AssignmentsSound(before, repo.tables, repo.guests)
    requires repo.assignments == Filter((a: Assignment) => !gone(a), before)
    requires forall a :: gone(a) <==> a.event == d.event && IsOneOf(a, origin, previous)
    requires origin == PersonIn(ToSet(before), d) && previous == SeatIn(ToSet(before), d)
    requires (origin.Some? ==> origin.value.event == d.event) && (previous.Some? ==> previous.value.event == d.event)
    requires Injective(ToSet(before))
    ensures AssignmentsSound(repo.assignments, repo.tables, repo.guests)
    ensures ToSet(repo.assignments) == ToSet(before) - (if origin.Some? then {origin.value} else {})
                                                     - (if previous.Some? then {previous.value} else {})
    ensures forall x :: x in ToSet(repo.assignments) ==> Apart(x, d)
  {
    FilterPairwise(Apart, (a: Assignment) => !gone(a), before);
    FreeForNewcomer(ToSet(before), d, origin, previous);
  }

  lemma FreeForNewcomer(all: set<Assignment>, d: Assignment, origin: Option<Assignment>, previous: Option<Assignment>)
    requires Injective(all) && origin == PersonIn(all, d) && previous == SeatIn(all, d)
    ensures forall x :: x in all && Some(x) != origin && Some(x) != previous ==> Apart(x, d)
  {
  }

  // ---- clearing -----------------------------------------------------------

  /** Empties a seat; one that is already empty is not an error. */
  method ClearSeat(repo: SeatingRepository, event: Id, table: Id, seat: nat) returns (r: Result<(), Error>)
    requires repo.Sound()
    modifies repo`assignments
    ensures repo.Sound()
    ensures r == Err(TableNotFound) <==> !(exists t :: t in repo.tables && t.id == table && t.event == event)
    ensures r.Ok? <==> exists t :: t in repo.tables && t.id == table && t.event == event && seat < t.seatCount
    ensures r.Err? ==> r.error in {TableNotFound, SeatOutOfRange} && repo.assignments == old(repo.assignments)
    ensures r.Ok? ==>
        ToSet(repo.assignments) == set a | a in old(repo.assignments) && !(a.table == table && a.seat == seat)
  {
    var found := repo.FindTable(event, table);
    if found.None? {
      return Err(TableNotFound);
    }
    var t := repo.tables[found.value];
    assert t in repo.tables;
    OneTable(repo.tables, repo.nextId, t);
    if seat >= t.seatCount {
      return Err(SeatOutOfRange);
    }
    ghost var before := repo.assignments;
    var gone := (a: Assignment) => a.event == event && a.table == table && a.seat == seat;
    forall a | a in before && a.table == table ensures a.event == event {
      assert Placed(a, repo.tables, repo.guests);
    }
    FilterPairwise(Apart, (a: Assignment) => !gone(a), before);
    repo.RemoveWhere(gone);
    r := Ok(());
  }

  // ---- tables ---------------------------------------------------------------

  /** The latest creation instant among the event's tables, or 0. */
  function LastCreated(tables: seq<Table>, event: Id): (last: int)
    ensures 0 <= last && forall t :: t in tables && t.event == event ==> t.createdAt <= last
    ensures last == 0 || exists t :: t in tables && t.event == event && t.createdAt == last
  {
    if tables == [] then 0
    else
      var rest := LastCreated(tables[1..], event);
      if tables[0].event == event && tables[0].createdAt > rest then tables[0].createdAt else rest
  }

  /** New rows take the instants after the last one of the event, in the order given. */
  function Created(tables: seq<Table>, nextId: Id, event: Id, data: seq<NewTable>, now: int): (r: seq<Table>)
    ensures |r| == |data|
    ensures forall i :: 0 <= i < |r| ==> r[i].createdAt > LastCreated(tables, event)
    ensures now > LastCreated(tables, event) ==> forall i :: 0 <= i < |r| ==> r[i].createdAt == now + i
    ensures forall i :: 0 <= i < |r| ==> var d := data[i];
      r[i] == Table(nextId + i, event, d.name, d.minSeats, d.maxSeats, d.seatCount, d.x, d.y, r[i].createdAt)
    ensures forall i, j :: 0 <= i < j < |r| ==> r[i].createdAt < r[j].createdAt
  {
    var last := LastCreated(tables, event);
    var base := if now > last + 1 then now else last + 1;
    seq(|data|, i requires 0 <= i < |data| =>
      var d := data[i];
      Table(nextId + i, event, d.name, d.minSeats, d.maxSeats, d.seatCount, d.x, d.y, base + i))
  }

  lemma CreatedInOrder(tables: seq<Table>, nextId: Id, event: Id, data: seq<NewTable>, now: int)
    requires Pairwise(InOrder, tables) && forall t :: t in tables ==> t.id < nextId
    ensures Pairwise(InOrder, tables + Created(tables, nextId, event, data, now))
  {
    var created := Created(tables, nextId, event, data, now);
    var all := tables + created;
    forall i, j | 0 <= i < j < |all| ensures InOrder(all[i], all[j]) {
      if j < |tables| {
        assert InOrder(tables[i], tables[j]);
      } else if i < |tables| {
        assert all[i] == tables[i] && tables[i] in tables && all[j] == created[j - |tables|];
      } else {
        assert all[i] == created[i - |tables|] && all[j] == created[j - |tables|];
      }
    }
  }

  lemma CreatedCount(tables: seq<Table>, nextId: Id, event: Id, data: seq<NewTable>, now: int, e: Id)
    ensures |TablesOf(tables + Created(tables, nextId, event, data, now), e)|
            == |TablesOf(tables, e)| + if e == event then |data| else 0
  {
    var created := Created(tables, nextId, event, data, now);
    FilterAppend((t: Table) => t.event == e, tables, created);
    if e == event {
      FilterAll((t: Table) => t.event == e, created);
    } else {
      FilterNone((t: Table) => t.event == e, created);
    }
  }

  lemma CreatedSound(tables: seq<Table>, nextId: Id, event: Id, data: seq<NewTable>, now: int)
    requires TablesSound(tables, nextId) && |TablesOf(tables, event)| + |data| <= MAX_TABLES_PER_EVENT
    requires forall d :: d in data ==> SeatRangeValid(d.minSeats, d.seatCount, d.maxSeats)
    ensures TablesSound(tables + Created(tables, nextId, event, data, now), nextId + |data|)
  {
    var created := Created(tables, nextId, event, data, now);
    CreatedInOrder(tables, nextId, event, data, now);
    forall t | t in created ensures t.id < nextId + |data| && RangeValid(t) {
      var k :| 0 <= k < |created| && created[k] == t;
      assert data[k] in data;
    }
    forall e: Id ensures |TablesOf(tables + created, e)| <= MAX_TABLES_PER_EVENT {
      CreatedCount(tables, nextId, event, data, now, e);
    }
  }

  lemma PlacedAmongMore(assignments: seq<Assignment>, tables: seq<Table>, more: seq<Table>, guests: seq<Guest>)
    requires AssignmentsSound(assignments, tables, guests)
    ensures AssignmentsSound(assignments, tables + more, guests)
  {
    forall a | a in assignments ensures Placed(a, tables + more, guests) {
      assert Placed(a, tables, guests);
      var t :| t in tables && t.id == a.table && t.event == a.event && a.seat < t.seatCount;
      assert t in tables + more;
    }
  }

  /** The batch respects the limit of tables and the range of seats; its callers see to that. */
  predicate Acceptable(tables: seq<Table>, event: Id, data: seq<NewTable>) {
    && |TablesOf(tables, event)| + |data| <= MAX_TABLES_PER_EVENT
    && forall d :: d in data ==> SeatRangeValid(d.minSeats, d.seatCount, d.maxSeats)
  }

  /** Appends whatever it is given. */
  method CreateTables(repo: SeatingRepository, event: Id, data: seq<NewTable>, now: int)
    modifies repo`tables, repo`nextId
    ensures old(repo.Sound() && Acceptable(repo.tables, event, data)) ==> repo.Sound()
    ensures repo.nextId == old(repo.nextId) + |data|
    ensures repo.tables == old(repo.tables) + Created(old(repo.tables), old(repo.nextId), event, data, now)
  {
    if repo.Sound() && Acceptable(repo.tables, event, data) {
      CreatedSound(repo.tables, repo.nextId, event, data, now);
      PlacedAmongMore(repo.assignments, repo.tables, Created(repo.tables, repo.nextId, event, data, now), repo.guests);
    }
    repo.tables := repo.tables + Created(repo.tables, repo.nextId, event, data, now);
    repo.nextId := repo.nextId + |data|;
  }

  function Batch(existing: nat, count: nat, minSeats: int, maxSeats: int): (r: seq<NewTable>) {
    seq(count, i requires 0 <= i < count =>
      NewTable(Numbered(existing + i + 1), minSeats, maxSeats, minSeats, GridX(existing + i), GridY(existing + i)))
  }

  /**
    After the tables there were come `count` of the event: the k-th bears the k-th number
    after those it had, has its minimum of seats and is drawn at the k-th place after theirs.
  */
  ghost predicate NumberedOn(before: seq<Table>, after: seq<Table>, event: Id, count: nat, minSeats: int,
                             maxSeats: int)
  {
    && |after| == |before| + count && after[..|before|] == before
    && forall j :: |before| <= j < |after| ==>
         var number := |TablesOf(before, event)| + j - |before|;
         && after[j].event == event && after[j].name == Numbered(number + 1)
         && after[j].minSeats == after[j].seatCount == minSeats && after[j].maxSeats == maxSeats
         && after[j].x == GridX(number) && after[j].y == GridY(number)
  }

  lemma BatchInOrder(tables: seq<Table>, nextId: Id, event: Id, count: nat, minSeats: int, maxSeats: int, now: int)
    ensures var batch := Batch(|TablesOf(tables, event)|, count, minSeats, maxSeats);
            NumberedOn(tables, tables + Created(tables, nextId, event, batch, now), event, count, minSeats, maxSeats)
  {
  }

  /** Adds `count` tables after the event's last one, all of them or none. */
  method GenerateTables(repo: SeatingRepository, event: Id, count: nat, minSeats: int, maxSeats: int, now: int)
    returns (r: Result<seq<TableView>, Error>)
    requires repo.Sound()
    modifies repo`tables, repo`nextId
    ensures repo.Sound()
    ensures r == Err(SeatRangeInvalid) <==> !(1 <= minSeats <= maxSeats <= 20)
    ensures r.Ok? <==> 1 <= minSeats <= maxSeats <= 20 && |TablesOf(old(repo.tables), event)| + count <= 100
    ensures r.Err? ==> r.error in {SeatRangeInvalid, TableLimitExceeded} && repo.tables == old(repo.tables)
    ensures r.Ok? ==> r.value == repo.View(event)
    ensures r.Ok? ==> var batch := Batch(|TablesOf(old(repo.tables), event)|, count, minSeats, maxSeats);
                      repo.tables == old(repo.tables) + Created(old(repo.tables), old(repo.nextId), event, batch, now)
    ensures r.Ok? ==> NumberedOn(old(repo.tables), repo.tables, event, count, minSeats, maxSeats)
  {
    if !SeatRangeValid(minSeats, minSeats, maxSeats) {
      return Err(SeatRangeInvalid);
    }
    var existing := |TablesOf(repo.tables, event)|;
    if existing + count > MAX_TABLES_PER_EVENT {
      return Err(TableLimitExceeded);
    }
    BatchInOrder(repo.tables, repo.nextId, event, count, minSeats, maxSeats, now);
    CreateTables(repo, event, Batch(existing, count, minSeats, maxSeats), now);
    var view := repo.ReadView(event);
    r := Ok(view);
  }

  /** A new table: its minimum of seats, the next free name unless one is given, the next place of the grid. */
  function FirstSeats(existing: nat, name: Option<TableName>, minSeats: int, maxSeats: int): (data: NewTable) {
    NewTable(Or(name, Numbered(existing + 1)), minSeats, maxSeats, minSeats, GridX(existing), GridY(existing))
  }

  /** Adds one table, empty and with its minimum of seats. */
  method CreateTable(repo: SeatingRepository, event: Id, name: Option<TableName>, minSeats: int, maxSeats: int,
                     now: int)
    returns (r: Result<TableView, Error>)
    requires repo.Sound()
    modifies repo`tables, repo`nextId
    ensures repo.Sound()
    ensures r == Err(SeatRangeInvalid) <==> !(1 <= minSeats <= maxSeats <= 20)
    ensures r.Ok? <==> 1 <= minSeats <= maxSeats <= 20 && |TablesOf(old(repo.tables), event)| < 100
    ensures r.Err? ==> r.error in {SeatRangeInvalid, TableLimitExceeded} && repo.tables == old(repo.tables)
    ensures r.Ok? ==> repo.tables == old(repo.tables) + [r.value.table] && r.value in repo.View(event)
    ensures r.Ok? ==> var data := FirstSeats(|TablesOf(old(repo.tables), event)|, name, minSeats, maxSeats);
                      repo.tables == old(repo.tables) + Created(old(repo.tables), old(repo.nextId), event, [data], now)
    ensures r.Ok? ==>
      var existing, u := |TablesOf(old(repo.tables), event)|, r.value.table;
      && u.event == event && Took(name, Numbered(existing + 1), u.name)
      && u.minSeats == u.seatCount == minSeats && u.maxSeats == maxSeats
      && u.x == GridX(existing) && u.y == GridY(existing)
    ensures r.Ok? ==> |r.value.seats| == minSeats
                      && forall k :: 0 <= k < |r.value.seats| ==> r.value.seats[k] == SeatView(k, None)
  {
    if !SeatRangeValid(minSeats, minSeats, maxSeats) {
      return Err(SeatRangeInvalid);
    }
    var existing := |TablesOf(repo.tables, event)|;
    if existing + 1 > MAX_TABLES_PER_EVENT {
      return Err(TableLimitExceeded);
    }
    ghost var before := repo.tables;
    CreateTables(repo, event, [FirstSeats(existing, name, minSeats, maxSeats)], now);
    var table := repo.tables[|repo.tables| - 1];
    NewTableIsEmpty(repo, before, table);
    r := Ok(TableView(table, seq(table.seatCount, i requires 0 <= i => SeatView(i, None))));
  }

  /** Nobody can be seated at a table whose id was not in use. */
  lemma NewTableIsEmpty(repo: SeatingRepository, before: seq<Table>, table: Table)
    requires repo.Sound() && repo.tables == before + [table]
    requires AssignmentsSound(repo.assignments, before, repo.guests)
    ensures TableView(table, seq(table.seatCount, i requires 0 <= i => SeatView(i, None))) in repo.View(table.event)
  {
    assert table in repo.tables;
    var listed := TablesOf(repo.tables, table.event);
    var i :| 0 <= i < |listed| && listed[i] == table;
    var shown := repo.View(table.event)[i];
    forall a | a in repo.assignments ensures a.table != table.id {
      assert Placed(a, before, repo.guests);
      var t :| t in before && t.id == a.table;
      var k :| 0 <= k < |before| && before[k] == t;
      assert repo.tables[k] == t && repo.tables[|before|] == table && InOrder(repo.tables[k], repo.tables[|before|]);
    }
    forall k | 0 <= k < |shown.seats| ensures shown.seats[k] == SeatView(k, None) {
      SeatedAtIsIn(AssignmentsOf(repo.assignments, table.event), table.id, k);
    }
    assert shown == TableView(table, seq(table.seatCount, i requires 0 <= i => SeatView(i, None)));
  }

  /** What a resize may not do: leave somebody in a seat that no longer exists. */
  ghost predicate SeatsInUse(assignments: seq<Assignment>, table: Id, seatCount: int) {
    exists a :: a in assignments && a.table == table && a.seat >= seatCount
  }

  lemma {:induction false} SameEventsSameCount(s: seq<Table>, t: seq<Table>, event: Id)
    requires |s| == |t| && forall i :: 0 <= i < |s| ==> s[i].event == t[i].event
    ensures |TablesOf(s, event)| == |TablesOf(t, event)|
  {
    if s != [] {
      SameEventsSameCount(s[1..], t[1..], event);
    }
  }

  /** Changes the name, the position or the range of seats of a table; only empty seats can go. */
  method UpdateTable(repo: SeatingRepository, event: Id, table: Id, changes: Changes)
    returns (r: Result<TableView, Error>)
    requires repo.Sound()
    modifies repo`tables
    ensures repo.Sound()
    ensures r == Err(TableNotFound) <==> !(exists t :: t in old(repo.tables) && t.id == table && t.event == event)
    ensures r.Err? ==> r.error in {TableNotFound, SeatRangeInvalid, SeatNotEmpty} && repo.tables == old(repo.tables)
    ensures forall t, u :: t in old(repo.tables) && t.id == table && t.event == event && TookAll(t, u, changes) ==>
      if !(1 <= u.minSeats <= u.seatCount <= u.maxSeats <= 20) then r == Err(SeatRangeInvalid)
      else if exists a :: a in repo.assignments && a.table == table && a.seat >= u.seatCount then r == Err(SeatNotEmpty)
      else r.Ok? && r.value.table == u && r.value in repo.View(event)
    ensures r.Ok? ==> |repo.tables| == |old(repo.tables)| && forall i :: 0 <= i < |repo.tables| ==>
      if old(repo.tables)[i].id == table then TookAll(old(repo.tables)[i], repo.tables[i], changes)
      else repo.tables[i] == old(repo.tables)[i]
  {
    var found := CheckResize(repo, event, table, changes);
    forall t, u | TookAll(t, u, changes) ensures u == Changed(t, changes) {
    }
    if found.Err? {
      return Err(found.error);
    }
    var i := found.value;
    OnlyAt(repo.tables, repo.nextId, i);
    var view := Resize(repo, i, changes);
    r := Ok(view);
  }

  method Resize(repo: SeatingRepository, i: nat, changes: Changes) returns (r: TableView)
    requires repo.Sound() && i < |repo.tables|
    requires RangeValid(Changed(repo.tables[i], changes))
    requires !SeatsInUse(repo.assignments, repo.tables[i].id, Changed(repo.tables[i], changes).seatCount)
    modifies repo`tables
    ensures repo.Sound() && repo.tables == old(repo.tables)[i := Changed(old(repo.tables)[i], changes)]
    ensures r.table == repo.tables[i] && r in repo.View(r.table.event)
  {
    ResizeSound(repo.tables, repo.nextId, i, changes, repo.assignments, repo.guests);
    repo.tables := repo.tables[i := Changed(repo.tables[i], changes)];
    var view := repo.ReadView(repo.tables[i].event);
    ghost var listed := TablesOf(repo.tables, repo.tables[i].event);
    assert repo.tables[i] in listed;
    ghost var k :| 0 <= k < |listed| && listed[k] == repo.tables[i];
    assert view[k].table == repo.tables[i];
    var shown :| shown in view && shown.table == repo.tables[i];
    r := shown;
  }

  /** Finds the table and validates the change against what is stored. */
  method CheckResize(repo: SeatingRepository, event: Id, table: Id, changes: Changes) returns (r: Result<nat, Error>)
    requires repo.Sound()
    ensures r == Err(TableNotFound) <==> !(exists t :: t in repo.tables && t.id == table && t.event == event)
    ensures r.Err? ==> r.error in {TableNotFound, SeatRangeInvalid, SeatNotEmpty}
    ensures forall t :: t in repo.tables && t.id == table && t.event == event ==>
      var u := Changed(t, changes);
      if !RangeValid(u) then r == Err(SeatRangeInvalid)
      else if SeatsInUse(repo.assignments, table, u.seatCount) then r == Err(SeatNotEmpty)
      else r.Ok? && r.value < |repo.tables| && repo.tables[r.value] == t
  {
    var found := repo.FindTable(event, table);
    if found.None? {
      return Err(TableNotFound);
    }
    var current := repo.tables[found.value];
    assert current in repo.tables;
    OneTable(repo.tables, repo.nextId, current);
    var seatCount := Or(changes.seatCount, current.seatCount);
    if !RangeValid(Changed(current, changes)) {
      return Err(SeatRangeInvalid);
    }
    var listed := AssignmentsOf(repo.assignments, event);
    AtThisTable(repo, current, seatCount);
    if seatCount < current.seatCount && exists a :: a in listed && a.table == table && a.seat >= seatCount {
      return Err(SeatNotEmpty);
    }
    r := Ok(found.value);
  }

  lemma OnlyAt(tables: seq<Table>, nextId: Id, i: nat)
    requires TablesSound(tables, nextId) && i < |tables|
    ensures forall k :: 0 <= k < |tables| && tables[k].id == tables[i].id ==> k == i
  {
    forall k | 0 <= k < |tables| && k != i ensures tables[k].id != tables[i].id {
      assert k < i ==> InOrder(tables[k], tables[i]);
      assert i < k ==> InOrder(tables[i], tables[k]);
    }
  }

  /** Looking at the event's assignments, and only when the table shrinks, is enough. */
  lemma AtThisTable(repo: SeatingRepository, t: Table, seatCount: int)
    requires repo.Sound() && t in repo.tables
    ensures SeatsInUse(repo.assignments, t.id, seatCount) <==>
            && seatCount < t.seatCount
            && SeatsInUse(AssignmentsOf(repo.assignments, t.event), t.id, seatCount)
  {
    OneTable(repo.tables, repo.nextId, t);
    forall a | a in repo.assignments && a.table == t.id ensures a.event == t.event && a.seat < t.seatCount {
      assert Placed(a, repo.tables, repo.guests);
    }
  }

  lemma ResizeSound(tables: seq<Table>, nextId: Id, i: nat, changes: Changes, assignments: seq<Assignment>,
                    guests: seq<Guest>)
    requires TablesSound(tables, nextId) && AssignmentsSound(assignments, tables, guests) && i < |tables|
    requires RangeValid(Changed(tables[i], changes))
        && !SeatsInUse(assignments, tables[i].id, Changed(tables[i], changes).seatCount)
    ensures TablesSound(tables[i := Changed(tables[i], changes)], nextId)
    ensures AssignmentsSound(assignments, tables[i := Changed(tables[i], changes)], guests)
  {
    var u := Changed(tables[i], changes);
    var after := tables[i := u];
    assert tables[i] in tables;
    forall j, k | 0 <= j < k < |after| ensures InOrder(after[j], after[k]) {
      assert InOrder(tables[j], tables[k]);
    }
    forall e: Id ensures |TablesOf(after, e)| <= MAX_TABLES_PER_EVENT {
      SameEventsSameCount(tables, after, e);
    }
    forall a | a in assignments ensures Placed(a, after, guests) {
      assert Placed(a, tables, guests);
      var t :| t in tables && t.id == a.table && t.event == a.event && a.seat < t.seatCount;
      var k :| 0 <= k < |tables| && tables[k] == t;
      assert after[k] in after;
    }
  }

  /** Deletes a table; whoever sat there is left without a seat. */
  method DeleteTable(repo: SeatingRepository, event: Id, table: Id) returns (r: Result<(), Error>)
    requires repo.Sound()
    modifies repo`tables, repo`assignments
    ensures repo.Sound()
    ensures r.Ok? <==> exists t :: t in old(repo.tables) && t.id == table && t.event == event
    ensures r.Err? ==>
        r == Err(TableNotFound) && repo.tables == old(repo.tables) && repo.assignments == old(repo.assignments)
    ensures r.Ok? ==> forall t :: t in repo.tables <==> t in old(repo.tables) && t.id != table
    ensures r.Ok? ==> ToSet(repo.assignments) == set a | a in old(repo.assignments) && a.table != table
  {
    var found := repo.FindTable(event, table);
    if found.None? {
      return Err(TableNotFound);
    }
    var i := found.value;
    assert repo.tables[i] in repo.tables;
    DeletionSound(repo.tables, repo.nextId, i);
    var gone := (a: Assignment) => a.table == table;
    WithoutTable(repo.tables, repo.nextId, i, repo.assignments, repo.guests, gone);
    repo.tables := repo.tables[..i] + repo.tables[i + 1..];
    repo.RemoveWhere(gone);
    r := Ok(());
  }

  lemma WithoutTable(tables: seq<Table>, nextId: Id, i: nat, assignments: seq<Assignment>, guests: seq<Guest>,
                     gone: Assignment -> bool)
    requires TablesSound(tables, nextId) && i < |tables| && AssignmentsSound(assignments, tables, guests)
    requires forall a :: gone(a) <==> a.table == tables[i].id
    ensures AssignmentsSound(Filter((a: Assignment) => !gone(a), assignments), tables[..i] + tables[i + 1..], guests)
  {
    DeletionSound(tables, nextId, i);
    FilterPairwise(Apart, (a: Assignment) => !gone(a), assignments);
    forall a | a in assignments && !gone(a) ensures Placed(a, tables[..i] + tables[i + 1..], guests) {
      assert Placed(a, tables, guests);
      var t :| t in tables && t.id == a.table && t.event == a.event && a.seat < t.seatCount;
      assert t in tables[..i] + tables[i + 1..];
    }
  }

  lemma DeletionInOrder(tables: seq<Table>, i: nat)
    requires Pairwise(InOrder, tables) && i < |tables|
    ensures Pairwise(InOrder, tables[..i] + tables[i + 1..])
  {
    var after := tables[..i] + tables[i + 1..];
    forall j, k | 0 <= j < k < |after| ensures InOrder(after[j], after[k]) {
      var j', k' := if j < i then j else j + 1, if k < i then k else k + 1;
      assert after[j] == tables[j'] && after[k] == tables[k'] && InOrder(tables[j'], tables[k']);
    }
  }

  lemma DeletionCount(tables: seq<Table>, i: nat, event: Id)
    requires i < |tables|
    ensures |TablesOf(tables[..i] + tables[i + 1..], event)| <= |TablesOf(tables, event)|
  {
    var p := (t: Table) => t.event == event;
    assert tables == tables[..i] + ([tables[i]] + tables[i + 1..]);
    FilterAppend(p, tables[..i], [tables[i]] + tables[i + 1..]);
    FilterAppend(p, [tables[i]], tables[i + 1..]);
    FilterAppend(p, tables[..i], tables[i + 1..]);
  }

  lemma DeletionSound(tables: seq<Table>, nextId: Id, i: nat)
    requires TablesSound(tables, nextId) && i < |tables|
    ensures TablesSound(tables[..i] + tables[i + 1..], nextId)
    ensures forall t :: t in tables[..i] + tables[i + 1..] <==> t in tables && t.id != tables[i].id
  {
    var after := tables[..i] + tables[i + 1..];
    OnlyAt(tables, nextId, i);
    DeletionInOrder(tables, i);
    forall e: Id ensures |TablesOf(after, e)| <= MAX_TABLES_PER_EVENT {
      DeletionCount(tables, i, e);
    }
    forall t ensures t in after <==> t in tables && t.id != tables[i].id {
      if t in tables {
        var k :| 0 <= k < |tables| && tables[k] == t;
        if k < i { assert after[k] == t; } else if k > i { assert after[k - 1] == t; }
      }
      if t in after {
        var k :| 0 <= k < |after| && after[k] == t;
        assert t == tables[if k < i then k else k + 1];
      }
    }
  }

  // ---- guests, as far as seating depends on them ---------------------------

  method AddGuest(repo: SeatingRepository, event: Id, companionsAllowed: nat)
    requires repo.Sound()
    modifies repo`guests, repo`nextId
    ensures repo.Sound()
    ensures repo.guests == old(repo.guests) + [Guest(old(repo.nextId), event, Pending, companionsAllowed, None)]
  {
    ghost var before := repo.guests;
    repo.guests := repo.guests + [Guest(repo.nextId, event, Pending, companionsAllowed, None)];
    repo.nextId := repo.nextId + 1;
    forall a | a in repo.assignments ensures Placed(a, repo.tables, repo.guests) {
      assert Placed(a, repo.tables, before);
      var g :| g in before && g.id == a.guest && g.event == a.event;
      assert g in repo.guests;
    }
    assert forall i :: 0 <= i < |before| ==> before[i] in before;
  }

  /** A guest answers, or their quota changes: seats they no longer fill stay taken, shown as surplus. */
  method ChangeGuest(repo: SeatingRepository, i: nat, rsvp: Rsvp, companionsAllowed: nat,
                     companionsConfirmed: Option<nat>)
    requires repo.Sound() && i < |repo.guests|
    modifies repo`guests
    ensures repo.Sound()
    ensures repo.guests == old(repo.guests)[i := Guest(old(repo.guests)[i].id, old(repo.guests)[i].event,
                                                       rsvp, companionsAllowed, companionsConfirmed)]
    // once they declined, each of their seats is shown as surplus
    ensures rsvp == Declined ==>
      forall v, s :: v in repo.View(repo.guests[i].event) && s in v.seats ==> !Shows(s, repo.guests[i].id, false)
    // once they said how many come, that many and themselves are rightly seated at most, and all of them if all sit
    ensures rsvp == Confirmed && companionsConfirmed.Some? ==>
      var view, id, places := repo.View(repo.guests[i].event), repo.guests[i].id, companionsConfirmed.value + 1;
      && RightlySeated(view, id) == SeatedOf(view, id) * UpTo(places) && |RightlySeated(view, id)| <= places
  {
    ghost var before := repo.guests;
    assert before[i] in before;
    var g := repo.guests[i];
    repo.guests := repo.guests[i := Guest(g.id, g.event, rsvp, companionsAllowed, companionsConfirmed)];
    forall a | a in repo.assignments ensures Placed(a, repo.tables, repo.guests) {
      assert Placed(a, repo.tables, before);
      var g :| g in before && g.id == a.guest && g.event == a.event;
      var k :| 0 <= k < |before| && before[k] == g;
      assert repo.guests[k] in repo.guests;
    }
    forall g | g in repo.guests ensures g.id < repo.nextId {
      var k :| 0 <= k < |repo.guests| && repo.guests[k] == g;
      assert before[k] in before;
    }
    AnswerIsShown(repo, repo.guests[i]);
  }

  /** What the plan shows of a guest's seats, going by their answer. */
  lemma AnswerIsShown(repo: SeatingRepository, g: Guest)
    requires repo.Sound() && g in repo.guests
    ensures g.rsvp == Declined ==>
      forall v, s :: v in repo.View(g.event) && s in v.seats ==> !Shows(s, g.id, false)
    ensures g.rsvp == Confirmed && g.companionsConfirmed.Some? ==>
      var view, places := repo.View(g.event), g.companionsConfirmed.value + 1;
      && RightlySeated(view, g.id) == SeatedOf(view, g.id) * UpTo(places) && |RightlySeated(view, g.id)| <= places
      && (UpTo(places) <= SeatedOf(view, g.id) ==> |RightlySeated(view, g.id)| == places)
  {
    var tables, guests := TablesOf(repo.tables, g.event), GuestsOf(repo.guests, g.event);
    GuestsOfOnce(repo.guests, g.event);
    if g.rsvp == Declined {
      DeclinedIsAllSurplus(tables, AssignmentsOf(repo.assignments, g.event), guests, g);
    }
    if g.rsvp == Confirmed && g.companionsConfirmed.Some? {
      var n := g.companionsConfirmed.value;
      ConfirmedHaveTheirPlaces(tables, AssignmentsOf(repo.assignments, g.event), guests, g, n);
    }
  }

  lemma GuestsOfOnce(guests: seq<Guest>, event: Id)
    requires GuestsOnce(guests)
    ensures GuestsOnce(GuestsOf(guests, event))
  {
    var apart := (g: Guest, h: Guest) => g.id != h.id;
    FilterPairwise(apart, (g: Guest) => g.event == event, guests);
    var listed := GuestsOf(guests, event);
    forall i, j | 0 <= i < j < |listed| ensures listed[i].id != listed[j].id {
      assert apart(listed[i], listed[j]);
    }
  }

  /** Deleting a guest frees their seats. */
  method DeleteGuest(repo: SeatingRepository, i: nat)
    requires repo.Sound() && i < |repo.guests|
    modifies repo`guests, repo`assignments
    ensures repo.Sound()
    ensures repo.guests == old(repo.guests)[..i] + old(repo.guests)[i + 1..]
    ensures ToSet(repo.assignments) == set a | a in old(repo.assignments) && a.guest != old(repo.guests)[i].id
  {
    var id := repo.guests[i].id;
    var gone := (a: Assignment) => a.guest == id;
    WithoutGuest(repo.tables, repo.guests, i, repo.assignments, gone);
    repo.guests := repo.guests[..i] + repo.guests[i + 1..];
    repo.RemoveWhere(gone);
  }

  lemma WithoutGuest(tables: seq<Table>, guests: seq<Guest>, i: nat, assignments: seq<Assignment>,
                     gone: Assignment -> bool)
    requires GuestsOnce(guests) && i < |guests| && AssignmentsSound(assignments, tables, guests)
    requires forall a :: gone(a) <==> a.guest == guests[i].id
    ensures GuestsOnce(guests[..i] + guests[i + 1..])
    ensures forall g :: g in guests[..i] + guests[i + 1..] ==> g in guests
    ensures AssignmentsSound(Filter((a: Assignment) => !gone(a), assignments), tables, guests[..i] + guests[i + 1..])
  {
    var after := guests[..i] + guests[i + 1..];
    FilterPairwise(Apart, (a: Assignment) => !gone(a), assignments);
    forall a | a in assignments && !gone(a) ensures Placed(a, tables, after) {
      assert Placed(a, tables, guests);
      var g :| g in guests && g.id == a.guest && g.event == a.event;
      var k :| 0 <= k < |guests| && guests[k] == g;
      assert after[if k < i then k else k - 1] == g;
    }
  }

  // ---- runs -------------------------------------------------------------------

  datatype Edit =
    | Generate(event: Id, count: nat, minSeats: int, maxSeats: int, now: int)
    | Create(event: Id, name: Option<TableName>, minSeats: int, maxSeats: int, now: int)
    | Update(event: Id, table: Id, changes: Changes)
    | Delete(event: Id, table: Id)
    | Sit(assignment: Assignment)
    | Clear(event: Id, table: Id, seat: nat)
    | NewGuest(event: Id, companionsAllowed: nat)
    | Answer(index: nat, rsvp: Rsvp, companionsAllowed: nat, companionsConfirmed: Option<nat>)
    | GuestGone(index: nat)

  /**
    Any sequence of edits, over any events, with accepted and refused ones mixed,
    leaves a sound plan, and no insertion ever meets a unique constraint.
  */
  method Run(repo: SeatingRepository, edits: seq<Edit>)
    requires repo.Sound()
    modifies repo
    ensures repo.Sound()
  {
    for i := 0 to |edits|
      invariant repo.Sound()
    {
      match edits[i] {
        case Generate(event, count, minSeats, maxSeats, now) =>
          var _ := GenerateTables(repo, event, count, minSeats, maxSeats, now);
        case Create(event, name, minSeats, maxSeats, now) =>
          var _ := CreateTable(repo, event, name, minSeats, maxSeats, now);
        case Update(event, table, changes) => var _ := UpdateTable(repo, event, table, changes);
        case Delete(event, table) => var _ := DeleteTable(repo, event, table);
        case Sit(assignment) =>
          var r := AssignSeat(repo, assignment);
          assert r != Err(UniquenessViolated);
        case Clear(event, table, seat) => var _ := ClearSeat(repo, event, table, seat);
        case NewGuest(event, companionsAllowed) => AddGuest(repo, event, companionsAllowed);
        case Answer(index, rsvp, allowed, confirmed) =>
          if index < |repo.guests| { ChangeGuest(repo, index, rsvp, allowed, confirmed); }
        case GuestGone(index) =>
          if index < |repo.guests| { DeleteGuest(repo, index); }
      }
    }
  }

  /** What soundness promises, in plain terms. */
  lemma SoundPlan(repo: SeatingRepository, event: Id)
    requires repo.Sound()
    ensures Injective(ToSet(repo.assignments))
    ensures forall a :: a in repo.assignments ==>
        exists t :: t in repo.tables && t.id == a.table && t.event == a.event && a.seat < t.seatCount
    ensures forall a :: a in repo.assignments ==> exists g :: g in repo.guests && g.id == a.guest && g.event == a.event
    ensures forall t :: t in repo.tables ==> 1 <= t.minSeats <= t.seatCount <= t.maxSeats <= 20
    ensures |TablesOf(repo.tables, event)| <= 100
    ensures Flatten(event, repo.View(event)) == set a | a in repo.assignments && a.event == event
  {
    ApartIsInjective(repo.assignments);
    assert forall a :: a in repo.assignments ==> Placed(a, repo.tables, repo.guests);
    EventViewIsTheAssignments(repo, event);
  }

  lemma EventViewIsTheAssignments(repo: SeatingRepository, event: Id)
    requires repo.Sound()
    ensures Flatten(event, repo.View(event)) == set a | a in repo.assignments && a.event == event
  {
    var tables, guests := TablesOf(repo.tables, event), GuestsOf(repo.guests, event);
    var assignments := AssignmentsOf(repo.assignments, event);
    FilterPairwise(Apart, (a: Assignment) => a.event == event, repo.assignments);
    ApartIsInjective(assignments);
    GuestsOfOnce(repo.guests, event);
    forall a | a in assignments ensures exists t :: t in tables && t.id == a.table && a.seat < t.seatCount {
      assert Placed(a, repo.tables, repo.guests);
      var t :| t in repo.tables && t.id == a.table && t.event == a.event && a.seat < t.seatCount;
      assert t in tables;
    }
    ViewIsTheAssignments(event, tables, assignments, guests);
  }
}
