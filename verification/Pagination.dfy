/**
  Listing by cursor. Rows are ordered by (createdAt, id), oldest first for guests
  and newest first for expenses; a page holds the rows strictly after the cursor,
  and one row more than the limit is asked for, to know whether there is a next page.
*/
module Pagination {
  import opened Common

  datatype Key = Key(createdAt: int, id: nat)

  /** `matches` is whether the row belongs to the event and passes the filters. */
  datatype Row = Row(key: Key, matches: bool)

  type Store = set<Row>

  /** `a` is listed before `b`. */
  predicate Before(newestFirst: bool, a: Key, b: Key) {
    if newestFirst then Less(b, a) else Less(a, b)
  }

  predicate Less(a: Key, b: Key) {
    a.createdAt < b.createdAt || (a.createdAt == b.createdAt && a.id < b.id)
  }

  predicate AtOrBefore(newestFirst: bool, a: Key, b: Key) {
    a == b || Before(newestFirst, a, b)
  }

  /** What a page can hold: matching rows strictly after the cursor, if there is one. */
  predicate Selected(newestFirst: bool, cursor: Option<Key>, r: Row) {
    r.matches && (cursor.None? || Before(newestFirst, cursor.value, r.key))
  }

  /** No two rows share their id, hence none share their key. */
  ghost predicate DistinctIds(s: Store) {
    forall a, b :: a in s && b in s && a.key.id == b.key.id ==> a == b
  }

  ghost predicate Sorted(newestFirst: bool, list: seq<Row>) {
    forall i, j :: 0 <= i < j < |list| ==> Before(newestFirst, list[i].key, list[j].key)
  }

  /** The simple form: all matching rows, in order. */
  ghost predicate IsListing(newestFirst: bool, s: Store, list: seq<Row>) {
    Sorted(newestFirst, list) && forall r :: r in list <==> r in s && r.matches
  }

  /** In a listing the instants of creation only grow, or only shrink, and rows of one instant go by their ids. */
  lemma ListedByCreation(newestFirst: bool, s: Store, list: seq<Row>, i: nat, j: nat)
    requires IsListing(newestFirst, s, list) && i < j < |list|
    ensures var a, b := list[i].key, list[j].key;
            if newestFirst then a.createdAt >= b.createdAt && (a.createdAt == b.createdAt ==> a.id > b.id)
            else a.createdAt <= b.createdAt && (a.createdAt == b.createdAt ==> a.id < b.id)
  {
    assert Before(newestFirst, list[i].key, list[j].key);
  }

  // ---- the sorted candidates ------------------------------------------------

  function Insert(newestFirst: bool, r: Row, list: seq<Row>): (result: seq<Row>) {
    if list == [] || Before(newestFirst, r.key, list[0].key) then [r] + list
    else [list[0]] + Insert(newestFirst, r, list[1..])
  }

  lemma {:induction false} InsertSorted(newestFirst: bool, r: Row, list: seq<Row>)
    requires Sorted(newestFirst, list) && forall i :: 0 <= i < |list| ==> list[i].key.id != r.key.id
    ensures Sorted(newestFirst, Insert(newestFirst, r, list))
    ensures forall x :: x in Insert(newestFirst, r, list) <==> x == r || x in list
    ensures |Insert(newestFirst, r, list)| == |list| + 1
  {
    if list != [] && !Before(newestFirst, r.key, list[0].key) {
      var rest := Insert(newestFirst, r, list[1..]);
      InsertSorted(newestFirst, r, list[1..]);
      forall j | 0 <= j < |rest| ensures Before(newestFirst, list[0].key, rest[j].key) {
        assert rest[j] in rest;
        if rest[j] != r {
          var k :| 0 <= k < |list[1..]| && list[1..][k] == rest[j];
          assert list[k + 1] == rest[j];
        }
      }
    }
  }

  /** Filters, then the cursor, then the order. */
  method Candidates(newestFirst: bool, s: Store, cursor: Option<Key>) returns (list: seq<Row>)
    requires DistinctIds(s)
    ensures Sorted(newestFirst, list)
    ensures forall r :: r in list <==> r in s && Selected(newestFirst, cursor, r)
  {
    list := [];
    var todo := s;
    while todo != {}
      invariant todo <= s && Sorted(newestFirst, list)
      invariant forall r :: r in list <==> r in s - todo && Selected(newestFirst, cursor, r)
    {
      var r :| r in todo;
      todo := todo - {r};
      if Selected(newestFirst, cursor, r) {
        forall i | 0 <= i < |list| ensures list[i].key.id != r.key.id {
          assert list[i] in list;
        }
        InsertSorted(newestFirst, r, list);
        list := Insert(newestFirst, r, list);
      }
    }
  }

  // ---- one page ---------------------------------------------------------------

  datatype Page = Page(items: seq<Row>, next: Option<Key>)

  /** What a page must be for a store, a cursor and a limit: determined up to nothing. */
  ghost predicate IsPage(newestFirst: bool, s: Store, cursor: Option<Key>, limit: nat, page: Page) {
    && Sorted(newestFirst, page.items) && |page.items| <= limit
    && (forall r :: r in page.items ==> r in s && Selected(newestFirst, cursor, r))
    && (page.next.Some? ==> |page.items| == limit && limit > 0 && page.next == Some(page.items[limit - 1].key))
    // what is left out comes after what is in, and there is some exactly if a next page is announced
    && (forall r :: r in s && r !in page.items && Selected(newestFirst, cursor, r) ==>
          page.next.Some? && Before(newestFirst, page.next.value, r.key))
    && (page.next.Some? ==> exists r :: r in s && r.matches && Before(newestFirst, page.next.value, r.key))
  }

  method ListPage(newestFirst: bool, s: Store, cursor: Option<Key>, limit: nat) returns (page: Page)
    requires DistinctIds(s) && limit > 0
    ensures IsPage(newestFirst, s, cursor, limit, page)
  {
    var candidates := Candidates(newestFirst, s, cursor);
    var rows := if |candidates| > limit + 1 then candidates[..limit + 1] else candidates;
    var more := |rows| > limit;
    var items := if more then rows[..limit] else rows;
    page := Page(items, if more then Some(items[limit - 1].key) else None);
    if more {
      assert candidates[limit] in candidates;
      assert forall k :: 0 <= k < limit ==> candidates[k] == items[k] && items[k] in items;
      forall r | r in candidates && r !in items ensures Before(newestFirst, page.next.value, r.key) {
        var k :| 0 <= k < |candidates| && candidates[k] == r;
      }
    }
    assert forall r :: r in items ==> r in candidates;
  }

  // ---- following the cursor while the store changes --------------------------

  /** `pages[i]` was read from `stores[i]` with the cursor of the page before it. */
  ghost predicate Traversal(newestFirst: bool, stores: seq<Store>, limit: nat, pages: seq<Page>) {
    && |pages| == |stores| > 0
    && var n := |pages| - 1;
       && DistinctIds(stores[n])
       && IsPage(newestFirst, stores[n], if n == 0 then None else pages[n - 1].next, limit, pages[n])
       && (n > 0 ==> pages[n - 1].next.Some? && Traversal(newestFirst, stores[..n], limit, pages[..n]))
  }

  function Concat(pages: seq<Page>): (r: seq<Row>) {
    if pages == [] then [] else Concat(pages[..|pages| - 1]) + pages[|pages| - 1].items
  }

  /** Everything returned so far lies at or before the cursor, in strictly increasing order. */
  lemma {:induction false} PagesAdvance(newestFirst: bool, stores: seq<Store>, limit: nat, pages: seq<Page>)
    requires Traversal(newestFirst, stores, limit, pages)
    ensures Sorted(newestFirst, Concat(pages))
    ensures var next := pages[|pages| - 1].next;
            next.Some? ==> forall r :: r in Concat(pages) ==> AtOrBefore(newestFirst, r.key, next.value)
  {
    var n := |pages| - 1;
    var last := pages[n];
    if n > 0 {
      PagesAdvance(newestFirst, stores[..n], limit, pages[..n]);
      var before := Concat(pages[..n]);
      var cursor := pages[n - 1].next.value;
      assert pages[..n][n - 1] == pages[n - 1];
      var all := Concat(pages);
      assert all == before + last.items;
      forall i, j | 0 <= i < j < |all| ensures Before(newestFirst, all[i].key, all[j].key) {
        if i < |before| <= j {
          assert all[i] in before && all[j] == last.items[j - |before|] && all[j] in last.items;
          assert AtOrBefore(newestFirst, all[i].key, cursor) && Before(newestFirst, cursor, all[j].key);
        }
      }
      if last.next.Some? {
        forall r | r in all ensures AtOrBefore(newestFirst, r.key, last.next.value) {
          LastItemIsLast(newestFirst, last, limit);
          assert Before(newestFirst, cursor, last.next.value) by { assert last.items[limit - 1] in last.items; }
        }
      }
    } else {
      assert pages[..0] == [];
      assert Concat(pages) == last.items;
      if last.next.Some? { LastItemIsLast(newestFirst, last, limit); }
    }
  }

  lemma LastItemIsLast(newestFirst: bool, page: Page, limit: nat)
    requires Sorted(newestFirst, page.items) && limit > 0 && |page.items| == limit
        && page.next == Some(page.items[limit - 1].key)
    ensures forall r :: r in page.items ==> AtOrBefore(newestFirst, r.key, page.next.value)
  {
    forall r | r in page.items ensures AtOrBefore(newestFirst, r.key, page.next.value) {
      var k :| 0 <= k < |page.items| && page.items[k] == r;
    }
  }

  /** A row that was there for every page is returned, or still lies beyond the cursor. */
  lemma {:induction false} NothingIsSkipped(newestFirst: bool, stores: seq<Store>, limit: nat, pages: seq<Page>, r: Row)
    requires Traversal(newestFirst, stores, limit, pages)
    requires r.matches && forall i :: 0 <= i < |stores| ==> r in stores[i]
    ensures var next := pages[|pages| - 1].next;
            r in Concat(pages) || (next.Some? && Before(newestFirst, next.value, r.key))
  {
    var n := |pages| - 1;
    assert r in stores[n];
    if n > 0 {
      NothingIsSkipped(newestFirst, stores[..n], limit, pages[..n], r);
      assert pages[..n][n - 1] == pages[n - 1];
    }
  }

  /**
    Rows may come and go between pages: no row is returned twice, and every row
    that matched and was there throughout is returned, exactly once.
  */
  lemma EveryLastingRowOnce(newestFirst: bool, stores: seq<Store>, limit: nat, pages: seq<Page>)
    requires Traversal(newestFirst, stores, limit, pages)
    ensures var all := Concat(pages);
            && (forall i, j :: 0 <= i < j < |all| ==> all[i].key != all[j].key)
            && (pages[|pages| - 1].next.None? ==>
                  forall r: Row :: r.matches && (forall i :: 0 <= i < |stores| ==> r in stores[i]) ==> r in all)
  {
    PagesAdvance(newestFirst, stores, limit, pages);
    if pages[|pages| - 1].next.None? {
      forall r: Row | r.matches && (forall i :: 0 <= i < |stores| ==> r in stores[i]) ensures r in Concat(pages) {
        NothingIsSkipped(newestFirst, stores, limit, pages, r);
      }
    }
  }

  /** On a store that does not change, the pages put together are the whole listing. */
  lemma PagedEqualsSimple(newestFirst: bool, s: Store, stores: seq<Store>, limit: nat, pages: seq<Page>)
    requires Traversal(newestFirst, stores, limit, pages) && pages[|pages| - 1].next.None?
    requires forall i :: 0 <= i < |stores| ==> stores[i] == s
    ensures IsListing(newestFirst, s, Concat(pages))
  {
    PagesAdvance(newestFirst, stores, limit, pages);
    EveryLastingRowOnce(newestFirst, stores, limit, pages);
    ReturnedRowsMatched(newestFirst, stores, limit, pages);
  }

  lemma {:induction false} ReturnedRowsMatched(newestFirst: bool, stores: seq<Store>, limit: nat, pages: seq<Page>)
    requires Traversal(newestFirst, stores, limit, pages)
    ensures forall r :: r in Concat(pages) ==> r.matches && exists i :: 0 <= i < |stores| && r in stores[i]
  {
    var n := |pages| - 1;
    if n > 0 {
      ReturnedRowsMatched(newestFirst, stores[..n], limit, pages[..n]);
    }
    forall r | r in Concat(pages) && r !in pages[n].items
      ensures r.matches && exists i :: 0 <= i < |stores| && r in stores[i]
    {
      assert r in Concat(pages[..n]);
      var i :| 0 <= i < n && r in stores[..n][i];
      assert r in stores[i];
    }
  }

  /** The listing is unique, so "put together" determines it. */
  lemma {:induction false} ListingIsUnique(newestFirst: bool, s: Store, a: seq<Row>, b: seq<Row>)
    requires IsListing(newestFirst, s, a) && IsListing(newestFirst, s, b)
    ensures a == b
  {
    assert b == [] || b[0] in a by { assert b == [] || b[0] in b; }
    assert a == [] || a[0] in b by { assert a == [] || a[0] in a; }
    if a != [] {
      var i :| 0 <= i < |b| && b[i] == a[0];
      var j :| 0 <= j < |a| && a[j] == b[0];
      assert a[0] == b[0];
      var rest := s - {a[0]};
      RestIsListing(newestFirst, s, a);
      RestIsListing(newestFirst, s, b);
      ListingIsUnique(newestFirst, rest, a[1..], b[1..]);
    }
  }

  lemma RestIsListing(newestFirst: bool, s: Store, a: seq<Row>)
    requires IsListing(newestFirst, s, a) && a != []
    ensures IsListing(newestFirst, s - {a[0]}, a[1..])
  {
    forall r ensures r in a[1..] <==> r in s - {a[0]} && r.matches {
      if r in a[1..] {
        var k :| 0 <= k < |a[1..]| && a[1..][k] == r;
        assert a[k + 1] == r;
      }
    }
  }

  /** Reads the whole listing page by page from a store that does not change; it ends. */
  method ReadAll(newestFirst: bool, s: Store, limit: nat) returns (pages: seq<Page>)
    requires DistinctIds(s) && limit > 0
    ensures IsListing(newestFirst, s, Concat(pages))
  {
    var page := ListPage(newestFirst, s, None, limit);
    pages := [page];
    ghost var stores := [s];
    ghost var beyond := Beyond(newestFirst, s, page.next);
    while pages[|pages| - 1].next.Some?
      invariant |pages| > 0 && Traversal(newestFirst, stores, limit, pages)
      invariant forall i :: 0 <= i < |stores| ==> stores[i] == s
      invariant beyond == Beyond(newestFirst, s, pages[|pages| - 1].next)
      decreases beyond
    {
      var cursor := pages[|pages| - 1].next;
      page := ListPage(newestFirst, s, cursor, limit);
      BeyondShrinks(newestFirst, s, cursor.value, limit, page);
      assert (stores + [s])[..|pages|] == stores && (pages + [page])[..|pages|] == pages;
      pages, stores := pages + [page], stores + [s];
      beyond := Beyond(newestFirst, s, page.next);
    }
    PagedEqualsSimple(newestFirst, s, stores, limit, pages);
  }

  ghost function Beyond(newestFirst: bool, s: Store, cursor: Option<Key>): (result: set<Row>) {
    if cursor.None? then {} else set r | r in s && Before(newestFirst, cursor.value, r.key)
  }

  lemma BeyondShrinks(newestFirst: bool, s: Store, cursor: Key, limit: nat, page: Page)
    requires IsPage(newestFirst, s, Some(cursor), limit, page) && limit > 0
    requires exists r :: r in s && r.matches && Before(newestFirst, cursor, r.key)
    ensures Beyond(newestFirst, s, page.next) < Beyond(newestFirst, s, Some(cursor))
  {
    if page.next.Some? {
      var r := page.items[limit - 1];
      assert r in page.items && r in Beyond(newestFirst, s, Some(cursor)) && r !in Beyond(newestFirst, s, page.next);
    } else {
      var r :| r in s && r.matches && Before(newestFirst, cursor, r.key);
      assert r in Beyond(newestFirst, s, Some(cursor));
    }
  }
}
