/** The seating plan's entities, its rules for one table and one person, and the derived view. */
module Seating {
  import opened Common
  import opened Lists

  const MAX_SEATS_PER_TABLE: nat := 20
  const MAX_TABLES_PER_EVENT: nat := 100

  type Id = nat

  datatype Rsvp = Confirmed | Pending | Declined

  datatype Guest = Guest(
    id: Id, event: Id, rsvp: Rsvp, companionsAllowed: nat, companionsConfirmed: Option<nat>)

  datatype TableName = Numbered(number: nat) | Custom(text: string)

  datatype Table = Table(
    id: Id, event: Id, name: TableName, minSeats: int, maxSeats: int, seatCount: int,
    x: int, y: int, createdAt: int)

  /** Somebody in a seat: the guest (`companion` 0) or their n-th companion. */
  datatype Assignment = Assignment(event: Id, table: Id, seat: nat, guest: Id, companion: nat)
  {
    predicate SamePerson(b: Assignment) { guest == b.guest && companion == b.companion }

    predicate SameSeat(b: Assignment) { table == b.table && seat == b.seat }

    function MovedTo(b: Assignment): (r: Assignment) { this.(table := b.table, seat := b.seat) }
  }

  /** How many people may sit for a guest: nobody if they declined; the whole quota until they say how many. */
  function PlacesOf(g: Guest): (r: nat) {
    if g.rsvp.Declined? then 0
    else 1 + match g.companionsConfirmed case Some(n) => n case None => g.companionsAllowed
  }

  predicate OccupantValid(companion: nat, guest: Option<Guest>) {
    guest.Some? && companion < PlacesOf(guest.value)
  }

  predicate SeatRangeValid(minSeats: int, seatCount: int, maxSeats: int) {
    1 <= minSeats <= seatCount <= maxSeats <= MAX_SEATS_PER_TABLE
  }

  /** Where the `i`-th table of an event is first drawn: five columns. */
  function GridX(i: nat): (r: int) { 40 + (i % 5) * 220 }

  function GridY(i: nat): (r: int) { 40 + (i / 5) * 220 }

  /** The first at (40, 40); each next one 220 to the right, or after five in a row at the left edge 220 below. */
  lemma GridFills(i: nat)
    ensures GridX(0) == GridY(0) == 40
    ensures (i + 1) % 5 == 0 ==> GridX(i + 1) == 40 && GridY(i + 1) == GridY(i) + 220
    ensures (i + 1) % 5 != 0 ==> GridX(i + 1) == GridX(i) + 220 && GridY(i + 1) == GridY(i)
  {
  }

  /** No two tables of the grid are drawn at the same place. */
  lemma GridPlacesDiffer(i: nat, j: nat)
    ensures GridX(i) == GridX(j) && GridY(i) == GridY(j) ==> i == j
  {
  }

  // ---- the view -----------------------------------------------------------

  datatype OccupantView = OccupantView(guest: Id, companion: nat, surplus: bool)
  datatype SeatView = SeatView(index: nat, occupant: Option<OccupantView>)
  datatype TableView = TableView(table: Table, seats: seq<SeatView>)

  /** A lookup map built from the list: on equal keys the last entry stays. */
  function SeatedAt(assignments: seq<Assignment>, table: Id, seat: nat): (r: Option<Assignment>) {
    if assignments == [] then None
    else
      var last := assignments[|assignments| - 1];
      if last.table == table && last.seat == seat then Some(last)
      else SeatedAt(assignments[..|assignments| - 1], table, seat)
  }

  function GuestById(guests: seq<Guest>, id: Id): (r: Option<Guest>) {
    if guests == [] then None
    else
      var last := guests[|guests| - 1];
      if last.id == id then Some(last) else GuestById(guests[..|guests| - 1], id)
  }

  function SeatViewOf(table: Table, index: nat, assignments: seq<Assignment>, guests: seq<Guest>): (r: SeatView) {
    match SeatedAt(assignments, table.id, index)
    case None => SeatView(index, None)
    case Some(a) =>
      var surplus := !OccupantValid(a.companion, GuestById(guests, a.guest));
      SeatView(index, Some(OccupantView(a.guest, a.companion, surplus)))
  }

  function Arrange(tables: seq<Table>, assignments: seq<Assignment>, guests: seq<Guest>): (r: seq<TableView>)
    requires forall t :: t in tables ==> t.seatCount >= 0
  {
    seq(|tables|, i requires 0 <= i < |tables| =>
      TableView(tables[i], seq(tables[i].seatCount, k requires 0 <= k < tables[i].seatCount =>
        SeatViewOf(tables[i], k, assignments, guests))))
  }

  /** Reading the view back: who sits where. */
  function Flatten(event: Id, view: seq<TableView>): (r: set<Assignment>) {
    set v, s | v in view && s in v.seats && s.occupant.Some?
      :: Assignment(event, v.table.id, s.index, s.occupant.value.guest, s.occupant.value.companion)
  }

  predicate SeatsOnce(assignments: seq<Assignment>) {
    forall i, j :: 0 <= i < j < |assignments| ==> !assignments[i].SameSeat(assignments[j])
  }

  predicate GuestsOnce(guests: seq<Guest>) {
    forall i, j :: 0 <= i < j < |guests| ==> guests[i].id != guests[j].id
  }

  lemma {:induction false} SeatedAtFinds(assignments: seq<Assignment>, a: Assignment)
    requires SeatsOnce(assignments) && a in assignments
    ensures SeatedAt(assignments, a.table, a.seat) == Some(a)
  {
    var n := |assignments| - 1;
    var last, rest := assignments[n], assignments[..n];
    var i :| 0 <= i < |assignments| && assignments[i] == a;
    if last != a {
      assert i < n && rest[i] == a;
      assert !assignments[i].SameSeat(assignments[n]);
      SeatedAtFinds(rest, a);
    }
  }

  lemma {:induction false} SeatedAtIsIn(assignments: seq<Assignment>, table: Id, seat: nat)
    ensures match SeatedAt(assignments, table, seat)
            case Some(a) => a in assignments && a.table == table && a.seat == seat
            case None => forall a :: a in assignments ==> !(a.table == table && a.seat == seat)
  {
    if assignments != [] {
      SeatedAtIsIn(assignments[..|assignments| - 1], table, seat);
    }
  }

  lemma {:induction false} GuestByIdFinds(guests: seq<Guest>, g: Guest)
    requires GuestsOnce(guests) && g in guests
    ensures GuestById(guests, g.id) == Some(g)
  {
    var n := |guests| - 1;
    var i :| 0 <= i < |guests| && guests[i] == g;
    if guests[n] != g {
      assert i < n && guests[..n][i] == g;
      assert guests[i].id != guests[n].id;
      GuestByIdFinds(guests[..n], g);
    }
  }

  /**
    The view loses and invents nothing: flattened, it is the assignments; every
    table shows each of its seats once, in order; and an occupant is marked
    surplus exactly when the guest's places no longer cover it.
  */
  lemma ViewIsTheAssignments(event: Id, tables: seq<Table>, assignments: seq<Assignment>, guests: seq<Guest>)
    requires SeatsOnce(assignments) && GuestsOnce(guests)
    requires forall t :: t in tables ==> t.seatCount >= 0
    requires forall a :: a in assignments ==> a.event == event
    requires forall a :: a in assignments ==> exists t :: t in tables && t.id == a.table && a.seat < t.seatCount
    ensures Flatten(event, Arrange(tables, assignments, guests)) == set a | a in assignments
  {
    var view := Arrange(tables, assignments, guests);
    forall a | a in assignments ensures a in Flatten(event, view) {
      SeatedAtFinds(assignments, a);
      var t :| t in tables && t.id == a.table && a.seat < t.seatCount;
      var i :| 0 <= i < |tables| && tables[i] == t;
      assert view[i].seats[a.seat].index == a.seat;
      assert view[i] in view && view[i].seats[a.seat] in view[i].seats;
    }
    forall b | b in Flatten(event, view) ensures b in assignments {
      var v, s :| v in view && s in v.seats && s.occupant.Some?
        && b == Assignment(event, v.table.id, s.index, s.occupant.value.guest, s.occupant.value.companion);
      SeatedAtIsIn(assignments, v.table.id, s.index);
    }
  }

  lemma ViewShowsEachSeatOnce(tables: seq<Table>, assignments: seq<Assignment>, guests: seq<Guest>, i: nat)
    requires forall t :: t in tables ==> t.seatCount >= 0
    requires i < |tables|
    ensures var v := Arrange(tables, assignments, guests)[i];
            && v.table == tables[i] && |v.seats| == tables[i].seatCount
            && forall k :: 0 <= k < |v.seats| ==> v.seats[k].index == k
  {
  }

  /** A seat shows somebody of this guest as surplus, or as rightly there. */
  predicate Shows(s: SeatView, guest: Id, surplus: bool) {
    s.occupant.Some? && s.occupant.value.guest == guest && s.occupant.value.surplus == surplus
  }

  /**
    Who is marked, going by the guest's answer: everybody once they declined; beyond the
    number they confirmed; and beyond their quota while they have not said a number.
  */
  lemma SurplusMeansNoPlace(table: Table, index: nat, assignments: seq<Assignment>, guests: seq<Guest>, g: Guest)
    requires GuestsOnce(guests) && g in guests
    ensures var s := SeatViewOf(table, index, assignments, guests);
            s.occupant.Some? && s.occupant.value.guest == g.id ==>
              (s.occupant.value.surplus <==>
                || g.rsvp == Declined
                || match g.companionsConfirmed
                   case Some(n) => s.occupant.value.companion > n
                   case None => s.occupant.value.companion > g.companionsAllowed)
  {
    GuestByIdFinds(guests, g);
  }

  /** Somebody whose guest is not among them is surplus. */
  lemma StrangersAreSurplus(table: Table, index: nat, assignments: seq<Assignment>, guests: seq<Guest>)
    ensures var s := SeatViewOf(table, index, assignments, guests);
            s.occupant.Some? && (forall g :: g in guests ==> g.id != s.occupant.value.guest) ==>
              s.occupant.value.surplus
  {
    var s := SeatViewOf(table, index, assignments, guests);
    if s.occupant.Some? && forall g :: g in guests ==> g.id != s.occupant.value.guest {
      NotListed(guests, s.occupant.value.guest);
    }
  }

  lemma {:induction false} NotListed(guests: seq<Guest>, id: Id)
    requires forall g :: g in guests ==> g.id != id
    ensures GuestById(guests, id) == None
  {
    if guests != [] { NotListed(guests[..|guests| - 1], id); }
  }

  /** After a refusal, every seat of that guest is shown as surplus. */
  lemma DeclinedIsAllSurplus(tables: seq<Table>, assignments: seq<Assignment>, guests: seq<Guest>, g: Guest)
    requires GuestsOnce(guests) && g in guests && g.rsvp == Declined
    requires forall t :: t in tables ==> t.seatCount >= 0
    ensures forall v, s :: v in Arrange(tables, assignments, guests) && s in v.seats ==> !Shows(s, g.id, false)
  {
    forall v, s | v in Arrange(tables, assignments, guests) && s in v.seats ensures !Shows(s, g.id, false) {
      SurplusMeansNoPlace(v.table, s.index, assignments, guests, g);
    }
  }

  /** The people of one guest whom the view shows in a seat: any seat, or one that is theirs by right. */
  ghost function SeatedOf(view: seq<TableView>, guest: Id): (people: set<nat>) {
    set v, s | v in view && s in v.seats && s.occupant.Some? && s.occupant.value.guest == guest
      :: s.occupant.value.companion
  }

  ghost function RightlySeated(view: seq<TableView>, guest: Id): (people: set<nat>) {
    set v, s | v in view && s in v.seats && Shows(s, guest, false) :: s.occupant.value.companion
  }

  function UpTo(n: nat): (r: set<nat>)
    ensures |r| == n && forall k: nat :: k in r <==> k < n
  {
    if n == 0 then {} else UpTo(n - 1) + {n - 1}
  }

  /**
    A guest who confirmed with `n` companions has room for themselves and those `n`: the
    people rightly seated are exactly the seated ones among these, so never more than
    `n + 1`, and all `n + 1` when all of them sit.
  */
  lemma ConfirmedHaveTheirPlaces(tables: seq<Table>, assignments: seq<Assignment>, guests: seq<Guest>, g: Guest, n: nat)
    requires GuestsOnce(guests) && g in guests && g.rsvp == Confirmed && g.companionsConfirmed == Some(n)
    requires forall t :: t in tables ==> t.seatCount >= 0
    ensures var view := Arrange(tables, assignments, guests);
            && RightlySeated(view, g.id) == SeatedOf(view, g.id) * UpTo(n + 1)
            && |RightlySeated(view, g.id)| <= n + 1
            && (UpTo(n + 1) <= SeatedOf(view, g.id) ==> |RightlySeated(view, g.id)| == n + 1)
  {
    var view := Arrange(tables, assignments, guests);
    var right := RightlySeated(view, g.id);
    forall v, s | v in view && s in v.seats && s.occupant.Some? && s.occupant.value.guest == g.id
      ensures Shows(s, g.id, false) <==> s.occupant.value.companion in UpTo(n + 1)
    {
      SurplusMeansNoPlace(v.table, s.index, assignments, guests, g);
    }
    RightOnes(view, g.id, UpTo(n + 1));
    SubsetIsNoBigger(right, UpTo(n + 1));
    if UpTo(n + 1) <= SeatedOf(view, g.id) { assert right == UpTo(n + 1); }
  }

  lemma RightOnes(view: seq<TableView>, guest: Id, places: set<nat>)
    requires forall v, s :: v in view && s in v.seats && s.occupant.Some? && s.occupant.value.guest == guest ==>
               (Shows(s, guest, false) <==> s.occupant.value.companion in places)
    ensures RightlySeated(view, guest) == SeatedOf(view, guest) * places
  {
  }

  // ---- assigning, as an effect on the set of assignments ------------------

  /**
    Sitting `d.guest`'s person at `d`'s seat: they leave the seat they had, and
    whoever was there takes it, or loses theirs if there is none to take.
  */
  function Seated(all: set<Assignment>, d: Assignment): (r: set<Assignment>) {
    var origin := set a | a in all && a.SamePerson(d);
    var previous := set a | a in all && a.SameSeat(d);
    if origin == previous != {} then all
    else all - origin - previous + {d} + set o, p | o in origin && p in previous :: p.MovedTo(o)
  }

  /** A partial injection from seats to persons. */
  ghost predicate Injective(all: set<Assignment>) {
    forall a, b :: a in all && b in all && (a.SamePerson(b) || a.SameSeat(b)) ==> a == b
  }

  /** The four ways it can go: `o` is the person's old seat, `p` the seat's old occupant. */
  lemma SeatedShape(all: set<Assignment>, d: Assignment, o: Option<Assignment>, p: Option<Assignment>)
    requires Injective(all)
    requires match o case Some(a) => a in all && a.SamePerson(d) case None => forall a :: a in all ==> !a.SamePerson(d)
    requires match p case Some(a) => a in all && a.SameSeat(d) case None => forall a :: a in all ==> !a.SameSeat(d)
    ensures Seated(all, d) ==
      match (o, p)
      case (None, None) => all + {d}
      case (Some(a), None) => all - {a} + {d}
      case (None, Some(b)) => all - {b} + {d}
      case (Some(a), Some(b)) => if a == b then all else all - {a, b} + {d, b.MovedTo(a)}
  {
    var origin := set a | a in all && a.SamePerson(d);
    var previous := set a | a in all && a.SameSeat(d);
    assert origin == match o case Some(a) => {a} case None => {};
    assert previous == match p case Some(a) => {a} case None => {};
    if o.Some? && p.Some? {
      assert (set a, b | a in origin && b in previous :: b.MovedTo(a)) == {p.value.MovedTo(o.value)};
    } else {
      assert (set a, b | a in origin && b in previous :: b.MovedTo(a)) == {};
    }
  }

  ghost function PersonIn(all: set<Assignment>, d: Assignment): (r: Option<Assignment>) {
    if a :| a in all && a.SamePerson(d) then Some(a) else None
  }

  ghost function SeatIn(all: set<Assignment>, d: Assignment): (r: Option<Assignment>) {
    if a :| a in all && a.SameSeat(d) then Some(a) else None
  }

  lemma SeatedKeepsInjective(all: set<Assignment>, d: Assignment)
    requires Injective(all)
    ensures Injective(Seated(all, d))
  {
    var o, p := PersonIn(all, d), SeatIn(all, d);
    SeatedShape(all, d, o, p);
    if !(o.Some? && o == p) {
      var kept := (if o.Some? then all - {o.value} else all) - (if p.Some? then {p.value} else {});
      KeptAndNewcomer(kept, d);
      if o.Some? && p.Some? {
        var b := p.value.MovedTo(o.value);
        assert Seated(all, d) == (kept + {d}) + {b};
        KeptAndNewcomer(kept + {d}, b);
      } else {
        assert Seated(all, d) == kept + {d};
      }
    }
  }

  lemma KeptAndNewcomer(kept: set<Assignment>, d: Assignment)
    requires Injective(kept) && forall a :: a in kept ==> !a.SamePerson(d) && !a.SameSeat(d)
    ensures Injective(kept + {d})
  {
  }

  /** Who is where afterwards, for everybody who was seated. */
  lemma SeatedMeaning(all: set<Assignment>, d: Assignment, a: Assignment)
    requires Injective(all) && a in all
    requires forall b :: b in all && b.SamePerson(d) && b.SameSeat(d) ==> b == d
    ensures d in Seated(all, d)
    ensures !a.SamePerson(d) && !a.SameSeat(d) ==> a in Seated(all, d)
    ensures a.SameSeat(d) && !a.SamePerson(d) ==>
      match PersonIn(all, d)
      case Some(o) => a.MovedTo(o) in Seated(all, d)
      case None => forall b :: b in Seated(all, d) ==> !b.SamePerson(a)
    ensures a.SamePerson(d) && !a.SameSeat(d) ==> a !in Seated(all, d)
  {
    SeatedShape(all, d, PersonIn(all, d), SeatIn(all, d));
  }

  /** Sitting somebody back where they were undoes the move, whoever had to give way. */
  lemma SeatedBackRestores(all: set<Assignment>, o: Assignment, d: Assignment)
    requires Injective(all) && o in all && o.SamePerson(d)
    requires o.SameSeat(d) ==> o == d
    ensures Seated(Seated(all, d), o) == all
  {
    var p := SeatIn(all, d);
    SeatedShape(all, d, Some(o), p);
    SeatedKeepsInjective(all, d);
    var after := Seated(all, d);
    match p
    case None =>
      SeatedShape(after, o, Some(d), None);
    case Some(b) =>
      if b != o {
        SeatedShape(after, o, Some(d), Some(b.MovedTo(o)));
        assert b.MovedTo(o).MovedTo(d) == b;
      }
  }
}
