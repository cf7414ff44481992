/**
  The photos of vendor profiles. Each row bears a position; a portfolio is read in the
  order of (position, id). Adding and reordering hold the profile's row lock; removing a
  photo and rewriting its caption do not, and can happen in between.
*/
module Portfolio {
  import opened Common
  import opened Lists

  type Id = nat

  datatype Row = Row(profileId: Id, storageKey: string, alt: string, position: int)

  type Table = map<Id, Row>

  datatype PortfolioError = TooManyPhotos | InvalidOrder | PhotoNotFound

  const MAX_PHOTOS := 20

  // ---- reading a portfolio ------------------------------------------------------------

  predicate Before(rows: Table, a: Id, b: Id) {
    && a in rows && b in rows
    && (rows[a].position < rows[b].position || (rows[a].position == rows[b].position && a < b))
  }

  function PhotosOf(rows: Table, profileId: Id): (r: set<Id>) {
    set id | id in rows && rows[id].profileId == profileId
  }

  predicate FirstOf(rows: Table, m: Id, s: set<Id>) {
    m in s && forall x: Id :: x in s && x != m ==> Before(rows, m, x)
  }

  lemma {:induction false} SomeFirst(rows: Table, s: set<Id>)
    requires s != {} && s <= rows.Keys
    ensures exists m :: FirstOf(rows, m, s)
    decreases |s|
  {
    var a: Id :| a in s;
    var rest := s - {a};
    assert forall x: Id :: x in s ==> x == a || x in rest;
    if rest == {} {
      assert FirstOf(rows, a, s);
    } else {
      SomeFirst(rows, rest);
      var m :| FirstOf(rows, m, rest);
      assert FirstOf(rows, if Before(rows, a, m) then a else m, s);
    }
  }

  function Ordered(rows: Table, s: set<Id>): (list: seq<Id>)
    requires s <= rows.Keys
    ensures Pairwise((a, b) => Before(rows, a, b), list) && forall id: Id :: id in list <==> id in s
    decreases |s|
  {
    if s == {} then []
    else
      SomeFirst(rows, s);
      var m: Id :| m in s && FirstOf(rows, m, s);
      [m] + Ordered(rows, s - {m})
  }

  /** The portfolio as it is shown. */
  function Listing(rows: Table, profileId: Id): (list: seq<Id>)
    ensures IsListing(rows, profileId, list)
  {
    Ordered(rows, PhotosOf(rows, profileId))
  }

  ghost predicate IsListing(rows: Table, profileId: Id, list: seq<Id>) {
    && Pairwise((a, b) => Before(rows, a, b), list)
    && forall id: Id :: id in list <==> id in PhotosOf(rows, profileId)
  }

  /** There is only one list of given ids in order. */
  lemma {:induction false} OneOrder(rows: Table, a: seq<Id>, b: seq<Id>)
    requires Pairwise((x, y) => Before(rows, x, y), a) && Pairwise((x, y) => Before(rows, x, y), b)
    requires forall id: Id :: id in a <==> id in b
    ensures a == b
  {
    assert b == [] || b[0] in a by { assert b == [] || b[0] in b; }
    assert a == [] || a[0] in b by { assert a == [] || a[0] in a; }
    if a != [] {
      var i :| 0 <= i < |b| && b[i] == a[0];
      var j :| 0 <= j < |a| && a[j] == b[0];
      assert a[0] == b[0];
      forall id: Id ensures id in a[1..] <==> id in b[1..] {
        if id in a[1..] {
          var k :| 0 <= k < |a| - 1 && a[k + 1] == id;
          assert Before(rows, a[0], a[k + 1]);
          assert id in b && id != b[0];
        }
        if id in b[1..] {
          var k :| 0 <= k < |b| - 1 && b[k + 1] == id;
          assert Before(rows, b[0], b[k + 1]);
          assert id in a && id != a[0];
        }
      }
      OneOrder(rows, a[1..], b[1..]);
    }
  }

  /** A portfolio is shown by position, and photos at one position by their ids. */
  lemma ListedByPosition(rows: Table, profileId: Id, i: nat, j: nat)
    requires i < j < |Listing(rows, profileId)|
    ensures var a, b := Listing(rows, profileId)[i], Listing(rows, profileId)[j];
            && a in rows && b in rows && rows[a].profileId == rows[b].profileId == profileId
            && rows[a].position <= rows[b].position && (rows[a].position == rows[b].position ==> a < b)
  {
    var list := Listing(rows, profileId);
    assert list[i] in list && list[j] in list && Before(rows, list[i], list[j]);
  }

  lemma ListingIs(rows: Table, profileId: Id, list: seq<Id>)
    requires IsListing(rows, profileId, list)
    ensures Listing(rows, profileId) == list
  {
    OneOrder(rows, Listing(rows, profileId), list);
  }

  // ---- the check of a requested order ---------------------------------------------------

  function Elements(s: seq<Id>): (r: set<Id>) { set id | id in s }

  predicate Distinct(s: seq<Id>) { forall i, j :: 0 <= i < j < |s| ==> s[i] != s[j] }

  /** As many different ids as asked for, as many as there are, and every current one among them. */
  predicate AcceptsOrder(ids: seq<Id>, current: seq<Id>) {
    var asked := Elements(ids);
    |asked| == |ids| && |asked| == |current| && forall id :: id in current ==> id in asked
  }

  lemma {:induction false} DistinctBySize(s: seq<Id>)
    ensures |Elements(s)| <= |s| && (|Elements(s)| == |s| <==> Distinct(s))
  {
    if s == [] {
      assert Elements(s) == {};
    } else {
      var rest := s[1..];
      DistinctBySize(rest);
      assert forall k :: 0 < k < |s| ==> s[k] == rest[k - 1];
      assert Elements(s) == {s[0]} + Elements(rest);
      assert s[0] in Elements(rest) <==> exists k :: 0 < k < |s| && s[k] == s[0];
      assert Distinct(s) ==> Distinct(rest) && s[0] !in Elements(rest);
      assert s[0] in Elements(rest) ==> Elements(s) == Elements(rest);
    }
  }

  lemma {:induction false} CountOfDistinct(s: seq<Id>)
    requires Distinct(s)
    ensures forall id :: multiset(s)[id] == if id in s then 1 else 0
  {
    if s != [] {
      CountOfDistinct(s[1..]);
      assert s == [s[0]] + s[1..];
      assert forall k :: 0 <= k < |s| - 1 ==> s[1..][k] == s[k + 1];
    }
  }

  /** The check lets through exactly the permutations of the current portfolio. */
  lemma AcceptsExactlyPermutations(ids: seq<Id>, current: seq<Id>)
    requires Distinct(current)
    ensures AcceptsOrder(ids, current) <==> multiset(ids) == multiset(current)
  {
    DistinctBySize(ids);
    DistinctBySize(current);
    CountOfDistinct(current);
    if AcceptsOrder(ids, current) {
      CountOfDistinct(ids);
      SubsetOfSameSize(Elements(current), Elements(ids));
      assert forall id :: id in ids <==> id in Elements(ids);
      assert forall id :: id in current <==> id in Elements(current);
    }
    if multiset(ids) == multiset(current) {
      forall id ensures id in ids <==> id in current {
        assert id in ids <==> id in multiset(ids);
        assert id in current <==> id in multiset(current);
      }
      assert Elements(ids) == Elements(current);
      assert |ids| == |multiset(ids)| == |multiset(current)| == |current|;
    }
  }

  lemma SubsetOfSameSize(a: set<Id>, b: set<Id>)
    requires a <= b && |a| == |b|
    ensures a == b
  {
    forall x | x in b ensures x in a {
      if x !in a { SubsetIsNoBigger(a, b - {x}); }
    }
  }

  // ---- what each write does to the list ----------------------------------------------------

  /** No two photos of a profile have the same position, and no profile has more than twenty. */
  ghost predicate Tidy(rows: Table) {
    && (forall a, b :: a in rows && b in rows && a != b && rows[a].profileId == rows[b].profileId ==>
          rows[a].position != rows[b].position)
    && (forall p :: |Listing(rows, p)| <= MAX_PHOTOS)
  }

  /** Of this profile, `later` has only photos of `rows`, in the same places. */
  ghost predicate OnlyLeft(rows: Table, later: Table, profileId: Id) {
    forall id :: id in PhotosOf(later, profileId) ==>
                   id in PhotosOf(rows, profileId) && later[id].position == rows[id].position
  }

  /** Of a list, what `rows` still has of a profile. */
  ghost function Surviving(list: seq<Id>, rows: Table, profileId: Id): (r: seq<Id>) {
    Filter((id: Id) => id in PhotosOf(rows, profileId), list)
  }

  /** Photos that went away leave the others in order. */
  lemma WhatIsLeftKeepsItsOrder(rows: Table, later: Table, profileId: Id)
    requires OnlyLeft(rows, later, profileId)
    ensures Listing(later, profileId) == Surviving(Listing(rows, profileId), later, profileId)
  {
    var left := (id: Id) => id in PhotosOf(later, profileId);
    var list := Filter(left, Listing(rows, profileId));
    FilterPairwise((a, b) => Before(rows, a, b), left, Listing(rows, profileId));
    forall i, j | 0 <= i < j < |list| ensures Before(later, list[i], list[j]) {
      assert Before(rows, list[i], list[j]) && list[i] in list && list[j] in list;
    }
    ListingIs(later, profileId, list);
  }

  /** A photo placed after all the others is listed last. */
  lemma AddedComesLast(rows: Table, id: Id, row: Row)
    requires id !in rows && forall x :: x in PhotosOf(rows, row.profileId) ==> rows[x].position < row.position
    ensures Listing(rows[id := row], row.profileId) == Listing(rows, row.profileId) + [id]
  {
    var p, later := row.profileId, rows[id := row];
    var before := Listing(rows, p);
    var list := before + [id];
    forall i, j | 0 <= i < j < |list| ensures Before(later, list[i], list[j]) {
      assert list[i] == before[i] && list[i] in before;
      if j < |before| { assert Before(rows, before[i], before[j]); }
    }
    assert forall x: Id :: x in list <==> x in before || x == id;
    ListingIs(later, p, list);
  }

  /** Rows placed by their index in `ids` are listed in the order of `ids`. */
  lemma PlacedByIndex(rows: Table, profileId: Id, ids: seq<Id>)
    requires forall id :: id in PhotosOf(rows, profileId) ==> id in ids
    requires forall i :: 0 <= i < |ids| && ids[i] in PhotosOf(rows, profileId) ==> rows[ids[i]].position == i
    ensures Listing(rows, profileId) == Surviving(ids, rows, profileId)
  {
    var there := (id: Id) => id in PhotosOf(rows, profileId);
    var list := Filter(there, ids);
    PlacesGrow(rows, ids, there, 0);
    ListingIs(rows, profileId, list);
  }

  lemma {:induction false} PlacesGrow(rows: Table, ids: seq<Id>, there: Id -> bool, from: nat)
    requires forall i :: 0 <= i < |ids| && there(ids[i]) ==> ids[i] in rows && rows[ids[i]].position == from + i
    ensures Pairwise((a, b) => Before(rows, a, b), Filter(there, ids))
    ensures forall id :: id in Filter(there, ids) ==> id in rows && rows[id].position >= from
  {
    if ids != [] {
      PlacesGrow(rows, ids[1..], there, from + 1);
      var rest := Filter(there, ids[1..]);
      if there(ids[0]) {
        forall j | 0 <= j < |rest| ensures Before(rows, ids[0], rest[j]) {
          assert rest[j] in rest;
        }
      }
    }
  }

  // ---- the store -----------------------------------------------------------------------------

  /** A request of somebody else that does not wait for a profile's lock. */
  datatype Other = Removal(profileId: Id, id: Id) | Caption(profileId: Id, id: Id, alt: string)

  /** Photos may have gone and captions changed; nothing else. */
  ghost predicate Thinned(rows: Table, later: Table) {
    forall id :: id in later ==> id in rows && later[id] == rows[id].(alt := later[id].alt)
  }

  lemma ThinnedStaysTidy(rows: Table, later: Table)
    requires Thinned(rows, later) && Tidy(rows)
    ensures Tidy(later)
  {
    forall p ensures |Listing(later, p)| <= MAX_PHOTOS {
      assert OnlyLeft(rows, later, p);
      WhatIsLeftKeepsItsOrder(rows, later, p);
    }
  }

  lemma RemovedFromTheList(rows: Table, id: Id)
    requires id in rows
    ensures var p := rows[id].profileId;
            Listing(rows - {id}, p) == Filter((x: Id) => x != id, Listing(rows, p))
  {
    var p := rows[id].profileId;
    WhatIsLeftKeepsItsOrder(rows, rows - {id}, p);
    FilterAgree((x: Id) => x in PhotosOf(rows - {id}, p), (x: Id) => x != id, Listing(rows, p));
  }

  lemma AddingKeepsTidy(start: Table, rows: Table, id: Id, row: Row)
    requires Tidy(start) && Tidy(rows) && Thinned(start, rows) && id !in start
    requires |Listing(start, row.profileId)| < MAX_PHOTOS
    requires forall x :: x in PhotosOf(rows, row.profileId) ==> rows[x].position < row.position
    ensures var later := rows[id := row];
            && Tidy(later)
            && (forall p :: p != row.profileId ==> Listing(later, p) == Surviving(Listing(start, p), later, p))
            && Listing(later, row.profileId) == Surviving(Listing(start, row.profileId), later, row.profileId) + [id]
  {
    var later, q := rows[id := row], row.profileId;
    forall p ensures Listing(later, p) == Surviving(Listing(start, p), later, p) + if p == q then [id] else [] {
      WhatIsLeftKeepsItsOrder(start, rows, p);
      FilterAgree((x: Id) => x in PhotosOf(rows, p), (x: Id) => x in PhotosOf(later, p), Listing(start, p));
      if p == q {
        AddedComesLast(rows, id, row);
      } else {
        WhatIsLeftKeepsItsOrder(start, later, p);
      }
    }
  }

  lemma ListingIsDistinct(rows: Table, profileId: Id)
    ensures Distinct(Listing(rows, profileId))
  {
    var list := Listing(rows, profileId);
    forall i, j | 0 <= i < j < |list| ensures list[i] != list[j] {
      assert Before(rows, list[i], list[j]);
    }
  }

  /** Positions of this profile may have changed, captions anywhere, and photos may have gone; nothing else. */
  ghost predicate Moved(rows: Table, later: Table, profileId: Id) {
    forall id :: id in later ==>
      && id in rows
      && later[id] == rows[id].(alt := later[id].alt, position := later[id].position)
      && (rows[id].profileId != profileId ==> later[id].position == rows[id].position)
  }

  /** The first `k` of the asked ids that are still there stand at their index. */
  ghost predicate PlacedUpTo(rows: Table, profileId: Id, ids: seq<Id>, k: nat) {
    forall i :: 0 <= i < k <= |ids| && ids[i] in PhotosOf(rows, profileId) ==> rows[ids[i]].position == i
  }

  /** The next write of the loop, after others have run. */
  lemma PlacingNext(start: Table, before: Table, rows: Table, profileId: Id, ids: seq<Id>, k: nat)
    requires Moved(start, before, profileId) && PlacedUpTo(before, profileId, ids, k) && Thinned(before, rows)
    requires k < |ids| && Distinct(ids)
    ensures var id := ids[k];
            var later := if id in PhotosOf(rows, profileId) then rows[id := rows[id].(position := k)] else rows;
            Moved(start, later, profileId) && PlacedUpTo(later, profileId, ids, k + 1)
  {
  }

  /** Nobody else runs in between. */
  predicate Silent(others: seq<seq<Other>>) {
    forall i :: 0 <= i < |others| ==> others[i] == []
  }

  /** The same rows, except for positions in one profile. */
  ghost predicate OnlyPositionsChanged(rows: Table, later: Table, profileId: Id) {
    && later.Keys == rows.Keys
    && forall id :: id in later ==>
      later[id] == rows[id].(position := later[id].position)
      && (rows[id].profileId != profileId ==> later[id] == rows[id])
  }

  lemma ReorderedIsTidy(start: Table, rows: Table, profileId: Id, ids: seq<Id>)
    requires Tidy(start) && Moved(start, rows, profileId)
    requires multiset(ids) == multiset(Listing(start, profileId))
    requires PlacedUpTo(rows, profileId, ids, |ids|)
    ensures Tidy(rows) && Listing(rows, profileId) == Surviving(ids, rows, profileId)
  {
    forall id | id in PhotosOf(rows, profileId) ensures id in ids {
      assert id in Listing(start, profileId) && id in multiset(ids);
    }
    PlacedByIndex(rows, profileId, ids);
    forall a, b | a in rows && b in rows && a != b && rows[a].profileId == rows[b].profileId
      ensures rows[a].position != rows[b].position
    {
      if rows[a].profileId == profileId {
        assert a in PhotosOf(rows, profileId) && b in PhotosOf(rows, profileId);
        var i :| 0 <= i < |ids| && ids[i] == a;
        var j :| 0 <= j < |ids| && ids[j] == b;
      }
    }
    assert |ids| == |multiset(ids)| == |Listing(start, profileId)|;
    forall p ensures |Listing(rows, p)| <= MAX_PHOTOS {
      if p != profileId { WhatIsLeftKeepsItsOrder(start, rows, p); }
    }
  }

  // ---- the plain lists ---------------------------------------------------------------------

  datatype Edit =
    | Add(profileId: Id, id: Id, key: string, alt: string)
    | Remove(profileId: Id, id: Id)
    | Arrange(profileId: Id, ids: seq<Id>)
    | Describe(profileId: Id, id: Id, alt: string)

  /** What an edit does to the plain list of profile `p`. */
  function Plain(list: seq<Id>, p: Id, e: Edit): (r: seq<Id>) {
    if e.profileId != p then list
    else
      match e
      case Add(_, id, _, _) => if |list| >= MAX_PHOTOS then list else list + [id]
      case Remove(_, id) => Filter((x: Id) => x != id, list)
      case Arrange(_, ids) => if multiset(ids) == multiset(list) then ids else list
      case Describe(_, _, _) => list
  }

  function PlainAll(list: seq<Id>, p: Id, edits: seq<Edit>): (r: seq<Id>) {
    if edits == [] then list else Plain(PlainAll(list, p, edits[..|edits| - 1]), p, edits[|edits| - 1])
  }

  lemma EveryoneSurvives(rows: Table, later: Table, p: Id)
    requires forall id :: id in PhotosOf(rows, p) ==> id in PhotosOf(later, p)
    ensures Surviving(Listing(rows, p), later, p) == Listing(rows, p)
  {
    FilterAll((id: Id) => id in PhotosOf(later, p), Listing(rows, p));
  }

  lemma RemovalElsewhere(rows: Table, later: Table, p: Id, id: Id, q: Id)
    requires later == if id in PhotosOf(rows, p) then rows - {id} else rows
    ensures Listing(later, q) == Plain(Listing(rows, q), q, Remove(p, id))
  {
    if p == q {
      if id in PhotosOf(rows, p) { RemovedFromTheList(rows, id); }
      else { FilterAll((x: Id) => x != id, Listing(rows, q)); }
    } else {
      WhatIsLeftKeepsItsOrder(rows, later, q);
      EveryoneSurvives(rows, later, q);
    }
  }

  lemma ArrangedIs(rows: Table, later: Table, p: Id, ids: seq<Id>, q: Id)
    requires later.Keys == rows.Keys
    requires if multiset(ids) == multiset(Listing(rows, p))
             then Moved(rows, later, p) && Listing(later, p) == Surviving(ids, later, p)
             else later == rows
    ensures Listing(later, q) == Plain(Listing(rows, q), q, Arrange(p, ids))
  {
    if multiset(ids) == multiset(Listing(rows, p)) {
      if p == q {
        forall id | id in ids ensures id in PhotosOf(later, p) {
          assert id in multiset(ids);
          assert id in Listing(rows, p);
        }
        FilterAll((id: Id) => id in PhotosOf(later, p), ids);
      } else {
        WhatIsLeftKeepsItsOrder(rows, later, q);
        EveryoneSurvives(rows, later, q);
      }
    }
  }

  class VendorProfileRepository {
    var photos: Table

    ghost predicate Valid()
      reads this
    {
      Tidy(photos)
    }

    constructor ()
      ensures Valid() && photos == map[]
    {
      photos := map[];
      new;
      forall p ensures Listing(photos, p) == [] { ListingIs(photos, p, []); }
    }

    method ChangeCaption(profileId: Id, id: Id, alt: string) returns (found: bool)
      modifies this
      ensures (old(Valid()) ==> Valid()) && Thinned(old(photos), photos)
      ensures found <==> id in PhotosOf(old(photos), profileId)
      ensures photos == if found then old(photos)[id := old(photos)[id].(alt := alt)] else old(photos)
    {
      found := id in photos && photos[id].profileId == profileId;
      ghost var before := photos;
      if found { photos := photos[id := photos[id].(alt := alt)]; }
      if old(Valid()) { ThinnedStaysTidy(before, photos); }
    }

    /** Answers with the storage key of the file to delete. */
    method RemovePhoto(profileId: Id, id: Id) returns (key: Option<string>)
      modifies this
      ensures (old(Valid()) ==> Valid()) && Thinned(old(photos), photos)
      ensures key == if id in PhotosOf(old(photos), profileId) then Some(old(photos)[id].storageKey) else None
      ensures photos == if key.Some? then old(photos) - {id} else old(photos)
      ensures key.Some? ==> Listing(photos, profileId) == Filter((x: Id) => x != id, Listing(old(photos), profileId))
    {
      if id !in photos || photos[id].profileId != profileId { return None; }
      ghost var before := photos;
      key := Some(photos[id].storageKey);
      photos := photos - {id};
      if old(Valid()) { ThinnedStaysTidy(before, photos); }
      RemovedFromTheList(before, id);
    }

    /** Requests that do not wait for the lock run here, between two statements. */
    method LetOthersRun(others: seq<Other>)
      modifies this
      ensures (old(Valid()) ==> Valid()) && Thinned(old(photos), photos)
      ensures others == [] ==> photos == old(photos)
    {
      for i := 0 to |others|
        invariant (old(Valid()) ==> Valid()) && Thinned(old(photos), photos)
        invariant i == 0 ==> photos == old(photos)
      {
        match others[i]
        case Removal(profileId, id) => var _ := RemovePhoto(profileId, id);
        case Caption(profileId, id, alt) => var _ := ChangeCaption(profileId, id, alt);
      }
    }

    /** The next free place; 0 in an empty portfolio. */
    method NextPosition(profileId: Id) returns (next: int)
      ensures forall id :: id in PhotosOf(photos, profileId) ==> photos[id].position < next
      ensures PhotosOf(photos, profileId) == {} ==> next == 0
      ensures PhotosOf(photos, profileId) != {} ==>
          exists id :: id in PhotosOf(photos, profileId) && photos[id].position == next - 1
    {
      var max: Option<int> := None;
      var todo := PhotosOf(photos, profileId);
      ghost var seen: set<Id> := {};
      while todo != {}
        invariant seen + todo == PhotosOf(photos, profileId)
        invariant max.None? <==> seen == {}
        invariant forall id :: id in seen ==> photos[id].position <= max.value
        invariant max.Some? ==> exists id :: id in seen && photos[id].position == max.value
        decreases todo
      {
        var id: Id :| id in todo;
        if max.None? || photos[id].position > max.value { max := Some(photos[id].position); }
        todo, seen := todo - {id}, seen + {id};
      }
      next := (if max.None? then -1 else max.value) + 1;
    }

    /**
      Adds a photo at the end. The limit is checked under the lock; photos may go between
      the three statements, `others` say which.
    */
    method AddPhoto(profileId: Id, freshId: Id, key: string, alt: string, others: seq<seq<Other>>)
      returns (r: Result<Id, PortfolioError>)
      requires Valid() && freshId !in photos && |others| == 2
      modifies this
      ensures Valid()
      ensures r == if |Listing(old(photos), profileId)| >= 20 then Err(TooManyPhotos) else Ok(freshId)
      ensures r.Err? ==> photos == old(photos)
      ensures r.Ok? ==> freshId in photos && Thinned(old(photos), photos - {freshId})
      ensures r.Ok? ==>
          Listing(photos, profileId) == Surviving(Listing(old(photos), profileId), photos, profileId) + [freshId]
      ensures r.Ok? ==>
          photos[freshId].profileId == profileId && photos[freshId].storageKey == key && photos[freshId].alt == alt
      ensures r.Ok? && others == [[], []] ==> photos == old(photos)[freshId := photos[freshId]]
      ensures r.Ok? ==> forall p :: p != profileId ==>
          Listing(photos, p) == Surviving(Listing(old(photos), p), photos, p)
    {
      if |Listing(photos, profileId)| >= MAX_PHOTOS { return Err(TooManyPhotos); }
      LetOthersRun(others[0]);
      var position := NextPosition(profileId);
      LetOthersRun(others[1]);
      var row := Row(profileId, key, alt, position);
      AddingKeepsTidy(old(photos), photos, freshId, row);
      photos := photos[freshId := row];
      return Ok(freshId);
    }

    /** Gives the photos the order asked for; those removed meanwhile are simply missing from it. */
    method Reorder(profileId: Id, ids: seq<Id>, others: seq<seq<Other>>) returns (r: Result<(), PortfolioError>)
      requires Valid() && |others| == |ids|
      modifies this
      ensures Valid()
      ensures r.Ok? <==> multiset(ids) == multiset(Listing(old(photos), profileId))
      ensures r.Err? ==> r.error == InvalidOrder && photos == old(photos)
      ensures r.Ok? ==> Listing(photos, profileId) == Surviving(ids, photos, profileId)
      ensures r.Ok? ==> Moved(old(photos), photos, profileId)
      ensures Silent(others) ==> OnlyPositionsChanged(old(photos), photos, profileId)
    {
      var current := Listing(photos, profileId);
      ListingIsDistinct(photos, profileId);
      AcceptsExactlyPermutations(ids, current);
      DistinctBySize(ids);
      if !AcceptsOrder(ids, current) { return Err(InvalidOrder); }
      for k := 0 to |ids|
        invariant Moved(old(photos), photos, profileId) && PlacedUpTo(photos, profileId, ids, k)
        invariant Silent(others) ==> OnlyPositionsChanged(old(photos), photos, profileId)
      {
        ghost var before := photos;
        LetOthersRun(others[k]);
        PlacingNext(old(photos), before, photos, profileId, ids, k);
        if ids[k] in photos && photos[ids[k]].profileId == profileId {
          photos := photos[ids[k] := photos[ids[k]].(position := k)];
        }
      }
      ReorderedIsTidy(old(photos), photos, profileId, ids);
      return Ok(());
    }

    method Apply(e: Edit)
      requires Valid() && (e.Add? ==> e.id !in photos)
      modifies this
      ensures Valid()
      ensures forall p :: Listing(photos, p) == Plain(Listing(old(photos), p), p, e)
      ensures photos.Keys <= old(photos).Keys + if e.Add? then {e.id} else {}
    {
      ghost var before := photos;
      match e
      case Add(p, id, key, alt) =>
        var r := AddPhoto(p, id, key, alt, [[], []]);
        forall q ensures Listing(photos, q) == Plain(Listing(before, q), q, e) {
          EveryoneSurvives(before, photos, q);
        }
      case Remove(p, id) =>
        var key := RemovePhoto(p, id);
        forall q ensures Listing(photos, q) == Plain(Listing(before, q), q, e) {
          RemovalElsewhere(before, photos, p, id, q);
        }
      case Arrange(p, ids) =>
        var r := Reorder(p, ids, seq(|ids|, _ => []));
        forall q ensures Listing(photos, q) == Plain(Listing(before, q), q, e) {
          ArrangedIs(before, photos, p, ids, q);
        }
      case Describe(p, id, alt) =>
        var found := ChangeCaption(p, id, alt);
        forall q ensures Listing(photos, q) == Listing(before, q) {
          WhatIsLeftKeepsItsOrder(before, photos, q);
          EveryoneSurvives(before, photos, q);
        }
    }

    /** The position column behaves as the plain lists do, over any run of requests on any profiles. */
    method Run(edits: seq<Edit>)
      requires Valid()
      requires forall i :: 0 <= i < |edits| && edits[i].Add? ==> edits[i].id !in photos
      requires forall i, j :: 0 <= i < j < |edits| && edits[i].Add? && edits[j].Add? ==> edits[i].id != edits[j].id
      modifies this
      ensures Valid()
      ensures forall p :: Listing(photos, p) == PlainAll(Listing(old(photos), p), p, edits)
    {
      for i := 0 to |edits|
        invariant Valid()
        invariant forall k :: i <= k < |edits| && edits[k].Add? ==> edits[k].id !in photos
        invariant forall p :: Listing(photos, p) == PlainAll(Listing(old(photos), p), p, edits[..i])
      {
        Apply(edits[i]);
        assert edits[..i + 1][..i] == edits[..i];
      }
      assert edits[..|edits|] == edits;
    }
  }
}
