/** Sorted listings and the pages of an infinite scroll. */
module Paging {
  import opened Basics

  datatype SortField = ByName | ByCreatedAt | ByModifiedAt | ByUploadedBy | ByEditedBy

  /** A row of the joined query. Each sort column is given by its place in that column's own
      order, which is the database's business; equal places are ties. */
  datatype File = File(id: nat, owner: nat, extension: string,
                       name: int, createdAt: int, modifiedAt: int, uploader: int, editor: int)

  datatype Query = Query(owner: nat, extension: string, sort: SortField, descending: bool)

  function Key(f: File, sort: SortField): int {
    match sort
    case ByName => f.name
    case ByCreatedAt => f.createdAt
    case ByModifiedAt => f.modifiedAt
    case ByUploadedBy => f.uploader
    case ByEditedBy => f.editor
  }

  /** ORDER BY the key, ascending or descending, then always by ascending id. */
  predicate Before(a: File, b: File, q: Query) {
    if Key(a, q.sort) == Key(b, q.sort) then a.id < b.id
    else if q.descending then Key(a, q.sort) > Key(b, q.sort)
    else Key(a, q.sort) < Key(b, q.sort)
  }

  /** WHERE: the owner's files, of one extension unless none is named. */
  predicate Matches(f: File, q: Query) {
    f.owner == q.owner && (q.extension != "" ==> f.extension == q.extension)
  }

  function Place(rows: seq<File>, f: File, q: Query): seq<File> {
    if rows == [] || Before(f, rows[0], q) then [f] + rows
    else [rows[0]] + Place(rows[1..], f, q)
  }

  /** What the query selects without LIMIT. */
  function Selected(table: seq<File>, q: Query): seq<File> {
    if table == [] then []
    else if Matches(table[0], q) then Place(Selected(table[1..], q), table[0], q)
    else Selected(table[1..], q)
  }

  function Filtered(table: seq<File>, q: Query): seq<File> {
    if table == [] then []
    else (if Matches(table[0], q) then [table[0]] else []) + Filtered(table[1..], q)
  }

  // ---- The order --------------------------------------------------------------------------

  ghost predicate Sorted(rows: seq<File>, q: Query) {
    forall i, j :: 0 <= i < j < |rows| ==> Before(rows[i], rows[j], q)
  }

  ghost predicate DistinctIds(rows: seq<File>) {
    forall i, j :: 0 <= i < j < |rows| ==> rows[i].id != rows[j].id
  }

  lemma {:induction false} PlaceKeeps(rows: seq<File>, f: File, q: Query)
    ensures multiset(Place(rows, f, q)) == multiset(rows) + multiset{f}
  {
    if rows != [] && !Before(f, rows[0], q) {
      PlaceKeeps(rows[1..], f, q);
      assert rows == [rows[0]] + rows[1..];
    }
  }

  lemma {:induction false} PlaceSorted(rows: seq<File>, f: File, q: Query)
    requires Sorted(rows, q) && forall r :: r in rows ==> r.id != f.id
    ensures Sorted(Place(rows, f, q), q)
  {
    if rows != [] && !Before(f, rows[0], q) {
      PlaceSorted(rows[1..], f, q);
      PlaceKeeps(rows[1..], f, q);
      var rest := Place(rows[1..], f, q);
      forall r | r in rest
        ensures Before(rows[0], r, q)
      {
        assert r in multiset(rest);
        assert r == f || r in rows[1..];
      }
    }
  }

  /** The listing is the filtered table, each row once, in order; equal keys by ascending id,
      descending or not. */
  lemma {:induction false} SelectedExact(table: seq<File>, q: Query)
    requires DistinctIds(table)
    ensures Sorted(Selected(table, q), q)
    ensures multiset(Selected(table, q)) == multiset(Filtered(table, q))
    ensures forall f :: f in Selected(table, q) <==>
              f in table && f.owner == q.owner && (q.extension == "" || f.extension == q.extension)
  {
    if table != [] {
      var f, rest := table[0], Selected(table[1..], q);
      SelectedExact(table[1..], q);
      if Matches(f, q) {
        assert forall r :: r in rest ==> r in table[1..] && r.id != f.id;
        PlaceKeeps(rest, f, q);
        PlaceSorted(rest, f, q);
        PlaceMembers(rest, f, q);
      }
      assert forall r :: r in table <==> r == f || r in table[1..];
    }
  }

  /** A pair of rows in the wanted direction of a column, ties going by ascending id. */
  predicate Ordered(x: int, y: int, a: File, b: File, descending: bool) {
    (x < y && !descending) || (x > y && descending) || (x == y && a.id < b.id)
  }

  /** Each sort field orders by its own column. */
  lemma SelectedByColumn(table: seq<File>, q: Query, i: nat, j: nat)
    requires DistinctIds(table) && i < j < |Selected(table, q)|
    ensures var a, b, down := Selected(table, q)[i], Selected(table, q)[j], q.descending;
            && (q.sort == ByName ==> Ordered(a.name, b.name, a, b, down))
            && (q.sort == ByCreatedAt ==> Ordered(a.createdAt, b.createdAt, a, b, down))
            && (q.sort == ByModifiedAt ==> Ordered(a.modifiedAt, b.modifiedAt, a, b, down))
            && (q.sort == ByUploadedBy ==> Ordered(a.uploader, b.uploader, a, b, down))
            && (q.sort == ByEditedBy ==> Ordered(a.editor, b.editor, a, b, down))
  {
    SelectedExact(table, q);
  }

  lemma PlaceMembers(rows: seq<File>, f: File, q: Query)
    ensures forall r :: r in Place(rows, f, q) <==> r == f || r in rows
  {
    PlaceKeeps(rows, f, q);
    var placed := Place(rows, f, q);
    assert forall r :: r in placed <==> r in multiset(placed);
    assert forall r :: r in rows <==> r in multiset(rows);
  }

  /** The order leaves no choice, so every call sees the same listing: that is what makes
      offsets meaningful. */
  lemma {:induction false} OrderIsUnique(a: seq<File>, b: seq<File>, q: Query)
    requires Sorted(a, q) && Sorted(b, q) && multiset(a) == multiset(b)
    ensures a == b
  {
    assert |multiset(a)| == |a| && |multiset(b)| == |b|;
    if a != [] {
      FirstIsUnique(a, b, q);
      RestOf(a);
      RestOf(b);
      OrderIsUnique(a[1..], b[1..], q);
    }
  }

  lemma FirstIsUnique(a: seq<File>, b: seq<File>, q: Query)
    requires Sorted(a, q) && Sorted(b, q) && multiset(a) == multiset(b) && a != [] && b != []
    ensures a[0] == b[0]
  {
    assert a[0] in multiset(b) && b[0] in multiset(a);
    var i :| 0 <= i < |b| && b[i] == a[0];
    var j :| 0 <= j < |a| && a[j] == b[0];
    assert j > 0 ==> Before(a[0], b[0], q);
    assert i > 0 ==> Before(b[0], a[0], q);
  }

  lemma RestOf(a: seq<File>)
    requires a != []
    ensures multiset(a[1..]) == multiset(a) - multiset{a[0]}
  {
    assert a == [a[0]] + a[1..];
  }

  // ---- One page ---------------------------------------------------------------------------

  const DEFAULT_LIST_LIMIT: nat := 50

  const MAX_LIST_LIMIT: nat := 1000

  /** The limit a request gets: absent, malformed and non-positive ones count as the default. */
  function ListLimit(requested: Option<int>): nat {
    if requested.Some? && requested.value > 0 then
      if requested.value > MAX_LIST_LIMIT then MAX_LIST_LIMIT else requested.value
    else DEFAULT_LIST_LIMIT
  }

  /** So every request gets a limit from 1 to 1000: what it asks for within these bounds, 50 if
      it names none. */
  lemma LimitBounds(requested: Option<int>)
    ensures 1 <= ListLimit(requested) <= 1000
    ensures match requested
            case None => ListLimit(requested) == 50
            case Some(n) =>
              && (1 <= n <= 1000 ==> ListLimit(requested) == n)
              && (n > 1000 ==> ListLimit(requested) == 1000) && (n < 1 ==> ListLimit(requested) == 50)
  {
  }

  function Drop(rows: seq<File>, offset: nat): seq<File> {
    if offset <= |rows| then rows[offset..] else []
  }

  function Take(rows: seq<File>, n: nat): seq<File> {
    if n <= |rows| then rows[..n] else rows
  }

  /** One row more than the page, without it, is the page. */
  lemma FetchedPage(all: seq<File>, limit: nat, offset: nat)
    requires limit > 0
    ensures var rows := Take(Drop(all, offset), limit + 1);
            && (|rows| > limit <==> offset + limit < |all|)
            && (offset + limit < |all| ==> rows[..limit] == all[offset..offset + limit])
            && (offset <= |all| <= offset + limit ==> rows == all[offset..])
            && (|all| < offset ==> rows == [])
  {
  }

  /** List: fetch one row more than the limit, tell by it whether there is more, and drop it.
      A limit of 0 means no limit. */
  method List(table: seq<File>, q: Query, limit: nat, offset: nat) returns (files: seq<File>, hasMore: bool)
    ensures var all := Selected(table, q);
            && (limit > 0 && offset + limit <= |all| ==> files == all[offset..offset + limit])
            && (limit > 0 && offset <= |all| < offset + limit ==> files == all[offset..])
            && (limit > 0 && |all| < offset ==> files == [])
    ensures hasMore <==> limit > 0 && offset + limit < |Selected(table, q)|
    ensures limit == 0 ==> files == Selected(table, q)
  {
    var rows := Selected(table, q);
    if limit > 0 {
      rows := Take(Drop(rows, offset), limit + 1);
    }
    hasMore := limit > 0 && |rows| > limit;
    if hasMore {
      rows := rows[..limit];
    }
    if limit > 0 {
      FetchedPage(Selected(table, q), limit, offset);
    }
    files := [];
    for i := 0 to |rows|
      invariant files == rows[..i]
    {
      files := files + [rows[i]];
    }
  }

  // ---- All pages --------------------------------------------------------------------------

  /** What the scroll shows from `offset` on: the next page is asked for one page size on. */
  function PagesFrom(rows: seq<File>, size: nat, offset: nat): seq<File>
    requires size > 0
    decreases |rows| - offset
  {
    var limit := ListLimit(Some(size));
    Take(Drop(rows, offset), limit) + if offset + limit < |rows| then PagesFrom(rows, size, offset + size) else []
  }

  lemma {:induction false} HonouredPages(rows: seq<File>, size: nat, offset: nat)
    requires 0 < size <= MAX_LIST_LIMIT && offset <= |rows|
    ensures PagesFrom(rows, size, offset) == rows[offset..]
    decreases |rows| - offset
  {
    if offset + size < |rows| {
      HonouredPages(rows, size, offset + size);
      assert rows[offset..][..size] + rows[offset + size..] == rows[offset..];
    }
  }

  lemma {:induction false} PagesAtMostRest(rows: seq<File>, size: nat, offset: nat)
    requires size > 0
    ensures |PagesFrom(rows, size, offset)| <= |Drop(rows, offset)|
    decreases |rows| - offset
  {
    if offset + ListLimit(Some(size)) < |rows| {
      PagesAtMostRest(rows, size, offset + size);
    }
  }

  /** What is shown from an offset on stands in the listing at or after it. */
  lemma {:induction false} ShownIsAhead(rows: seq<File>, size: nat, offset: nat, f: File)
    requires size > 0 && f in PagesFrom(rows, size, offset)
    ensures exists j :: offset <= j < |rows| && rows[j] == f
    decreases |rows| - offset
  {
    var limit := ListLimit(Some(size));
    if f in Take(Drop(rows, offset), limit) {
      var j :| 0 <= j < |Take(Drop(rows, offset), limit)| && Take(Drop(rows, offset), limit)[j] == f;
      assert rows[offset + j] == f;
    } else {
      ShownIsAhead(rows, size, offset + size, f);
    }
  }

  lemma OnFirstPageIff(rows: seq<File>, size: nat, offset: nat, i: nat)
    requires DistinctIds(rows) && offset <= i < |rows|
    ensures rows[i] in Take(Drop(rows, offset), size) <==> i - offset < size
  {
    var page := Take(Drop(rows, offset), size);
    if i - offset < size {
      assert page[i - offset] == rows[i];
    }
  }

  /** Where page number `pages` begins. */
  ghost function PageStart(pages: nat, size: nat): nat {
    if pages == 0 then 0 else PageStart(pages - 1, size) + size
  }

  lemma {:induction false} PageStartIs(pages: nat, size: nat)
    ensures PageStart(pages, size) == pages * size
  {
    if pages > 0 {
      PageStartIs(pages - 1, size);
      assert pages * size == (pages - 1) * size + size;
    }
  }

  /** What is shown is on this page or on a later one. */
  lemma ShownWhere(rows: seq<File>, size: nat, offset: nat, next: nat, f: File)
    requires size > 0 && next == offset + size
    ensures f in PagesFrom(rows, size, offset)
            ==> f in Take(Drop(rows, offset), ListLimit(Some(size))) || f in PagesFrom(rows, size, next)
    ensures f in Take(Drop(rows, offset), ListLimit(Some(size))) ==> f in PagesFrom(rows, size, offset)
  {
  }

  lemma FirstPageIff(rows: seq<File>, size: nat, offset: nat, next: nat, i: nat)
    requires DistinctIds(rows) && size > 0 && next == offset + size && offset <= i < |rows| && i < next
    ensures rows[i] in PagesFrom(rows, size, offset) <==> i - offset < ListLimit(Some(size))
  {
    OnFirstPageIff(rows, ListLimit(Some(size)), offset, i);
    ShownWhere(rows, size, offset, next, rows[i]);
    if rows[i] in PagesFrom(rows, size, next) {
      ShownIsAhead(rows, size, next, rows[i]);
    }
  }

  lemma LaterPageIff(rows: seq<File>, size: nat, offset: nat, next: nat, i: nat)
    requires DistinctIds(rows) && size > 0 && next == offset + size && next <= i < |rows|
    ensures rows[i] in PagesFrom(rows, size, offset) <==> rows[i] in PagesFrom(rows, size, next)
  {
    OnFirstPageIff(rows, ListLimit(Some(size)), offset, i);
    ShownWhere(rows, size, offset, next, rows[i]);
  }

  lemma {:induction false} SkipPages(rows: seq<File>, size: nat, pages: nat, at: nat, i: nat)
    requires DistinctIds(rows) && size > 0 && at == PageStart(pages, size) && at <= i < |rows|
    ensures rows[i] in PagesFrom(rows, size, 0) <==> rows[i] in PagesFrom(rows, size, at)
    decreases pages
  {
    if pages > 0 {
      var before := PageStart(pages - 1, size);
      SkipPages(rows, size, pages - 1, before, i);
      LaterPageIff(rows, size, before, at, i);
    }
  }

  /** A scroll shows exactly the rows whose place on their page is within the server's limit: the
      first thousand of every page, when longer pages are asked for. */
  lemma RowShownIff(rows: seq<File>, size: nat, pages: nat, place: nat, i: nat)
    requires DistinctIds(rows) && place < size && i == pages * size + place && i < |rows|
    ensures rows[i] in PagesFrom(rows, size, 0) <==> place < if size <= 1000 then size else 1000
  {
    var at := PageStart(pages, size);
    PageStartIs(pages, size);
    SkipPages(rows, size, pages, at, i);
    FirstPageIff(rows, size, at, at + size, i);
  }

  /** Following hasMore yields the whole listing, each row once and in order, exactly when the
      server honours the page size or a single page holds everything. */
  lemma PagesCompleteIff(table: seq<File>, q: Query, size: nat)
    requires size > 0
    ensures PagesFrom(Selected(table, q), size, 0) == Selected(table, q)
            <==> size <= 1000 || |Selected(table, q)| <= 1000
  {
    var rows := Selected(table, q);
    if size <= MAX_LIST_LIMIT {
      HonouredPages(rows, size, 0);
    } else if |rows| > MAX_LIST_LIMIT {
      PagesAtMostRest(rows, size, size);
    }
  }

  /** What is still to come after `pages` pages. */
  ghost function ToCome(rows: seq<File>, size: nat, pages: nat, hasMore: bool): seq<File>
    requires size > 0
  {
    if hasMore then PagesFrom(rows, size, PageStart(pages, size)) else []
  }

  lemma ScrollStep(rows: seq<File>, size: nat, pages: nat, shown: seq<File>, page: seq<File>, hasMore: bool)
    requires size > 0 && page == Take(Drop(rows, PageStart(pages, size)), ListLimit(Some(size)))
    requires hasMore <==> PageStart(pages, size) + ListLimit(Some(size)) < |rows|
    ensures shown + ToCome(rows, size, pages, true) == (shown + page) + ToCome(rows, size, pages + 1, hasMore)
  {
    var rest := ToCome(rows, size, pages + 1, hasMore);
    assert ToCome(rows, size, pages, true) == page + rest;
    Regroup(shown, page, rest);
  }

  lemma Regroup(a: seq<File>, b: seq<File>, c: seq<File>)
    ensures a + (b + c) == (a + b) + c
  {
  }

  /** Page number `pages`, counted from 0, in a listing. */
  method PageAt(table: seq<File>, q: Query, pages: nat, size: nat, ghost rows: seq<File>)
      returns (page: seq<File>, hasMore: bool)
    requires size > 0 && rows == Selected(table, q)
    ensures page == Take(Drop(rows, PageStart(pages, size)), ListLimit(Some(size)))
    ensures hasMore <==> PageStart(pages, size) + ListLimit(Some(size)) < |rows|
    ensures hasMore ==> PageStart(pages, size) < PageStart(pages + 1, size) && PageStart(pages, size) < |rows|
  {
    PageStartIs(pages, size);
    page, hasMore := List(table, q, ListLimit(Some(size)), pages * size);
  }

  /** The scroll itself: the next offset is the number of pages so far times the page size. */
  method Scroll(table: seq<File>, q: Query, size: nat) returns (shown: seq<File>)
    requires size > 0
    ensures shown == PagesFrom(Selected(table, q), size, 0)
  {
    var pages: nat, hasMore := 0, true;
    shown := [];
    ghost var rows := Selected(table, q);
    ghost var all := ToCome(rows, size, pages, hasMore);
    while hasMore
      invariant all == shown + ToCome(rows, size, pages, hasMore)
      decreases hasMore, |rows| - PageStart(pages, size)
    {
      var page;
      page, hasMore := PageAt(table, q, pages, size, rows);
      ScrollStep(rows, size, pages, shown, page, hasMore);
      shown, pages := shown + page, pages + 1;
    }
  }
}
