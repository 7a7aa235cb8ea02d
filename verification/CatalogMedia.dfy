/** One page of catalog browsing, internal/store/catalog_media.go.  The database is a pair of ordered listings with
    their library relation; the SQL conditions on title, genre and year are an uninterpreted predicate. */
module CatalogMedia {
  import opened Text
  import opened LibraryScope
  import opened CacheKey
  import opened PageToken

  datatype Column = Title | Year | AddedAt | Rating

  datatype Row = Row(id: string, kind: string, libraries: set<int>)

  /** The genres and years in use, as the two DISTINCT queries return them. */
  datatype Facets = Facets(genres: seq<string>, years: seq<int>)

  /** `listing(episodes, column, descending)` is the result order before filtering; `matches` the search, genre and
      year conditions; `facets(episodes, ids, types)` what the filter dictionary is made of. */
  datatype Database = Database(
    listing: (bool, Column, bool) -> seq<Row>,
    matches: (bool, Row, string, string, int, int) -> bool,
    facets: (bool, set<int>, set<string>) -> Facets)

  datatype Item = Item(id: string, kind: string, library: int)

  datatype Response = Response(items: seq<Item>, next: Cursor, total: nat)

  datatype Reply = Page(response: Response) | QueryError

  function OrderColumn(sort: string): Column {
    if sort == "year" then Year
    else if sort == "added_at" then AddedAt
    else if sort == "rating" then Rating
    else Title
  }

  function ClampPageSize(n: int): (r: int)
    ensures 1 <= r <= 100
  {
    if n < 1 then 48 else if n > 100 then 100 else n
  }

  /** The WHERE clause.  Episode browsing has no type condition. */
  predicate Passes(db: Database, ids: seq<int>, types: seq<string>, q: MediaQuery, row: Row) {
    var episodes := types == ["episode"];
    && LibraryFilter(ids, row.libraries)
    && (episodes || |types| == 0 || row.kind in types)
    && db.matches(episodes, row, TrimSpace(q.query), TrimSpace(q.genre), q.yearMin, q.yearMax)
  }

  function Filter(db: Database, ids: seq<int>, types: seq<string>, q: MediaQuery, rows: seq<Row>): seq<Row> {
    if rows == [] then []
    else
      var last := rows[|rows| - 1];
      Filter(db, ids, types, q, rows[..|rows| - 1]) + if Passes(db, ids, types, q, last) then [last] else []
  }

  function Selected(db: Database, ids: seq<int>, types: seq<string>, q: MediaQuery): seq<Row> {
    Filter(db, ids, types, q, db.listing(types == ["episode"], OrderColumn(q.sort), q.descending))
  }

  /** LIMIT and OFFSET */
  function Slice<T>(rows: seq<T>, offset: nat, limit: nat): seq<T> {
    if offset >= |rows| then []
    else if offset + limit >= |rows| then rows[offset..]
    else rows[offset..offset + limit]
  }

  /** The library shown for an item: the least of its libraries the filter let through. */
  function ShownLibrary(ids: seq<int>, libraries: set<int>): int {
    Least(if |ids| == 0 then libraries else set l | l in libraries && l in ids)
  }

  /** MIN over a set, 0 for the empty one (shown as a blank). */
  function Least(s: set<int>): (m: int)
    ensures s == {} ==> m == 0
    ensures s != {} ==> m in s && forall x :: x in s ==> m <= x
  {
    if s == {} then 0
    else
      assert exists x :: x in s && forall y :: y in s ==> x <= y by { LeastExists(s); }
      var x :| x in s && forall y :: y in s ==> x <= y;
      x
  }

  lemma {:induction false} LeastExists(s: set<int>)
    requires s != {}
    ensures exists x :: x in s && forall y :: y in s ==> x <= y
  {
    assert (forall a :: a !in s) ==> s == {};
    var a :| a in s;
    if s != {a} {
      LeastExists(s - {a});
      var x :| x in s - {a} && forall y :: y in s - {a} ==> x <= y;
      var m := if a <= x then a else x;
      forall y | y in s ensures m <= y {
        assert y == a || y in s - {a};
      }
    }
  }

  function ToItem(ids: seq<int>, row: Row): Item {
    Item(row.id, row.kind, ShownLibrary(ids, row.libraries))
  }

  function ToItems(ids: seq<int>, rows: seq<Row>): (r: seq<Item>)
    ensures |r| == |rows| && forall i :: 0 <= i < |rows| ==> r[i] == ToItem(ids, rows[i])
  {
    seq(|rows|, i requires 0 <= i < |rows| => ToItem(ids, rows[i]))
  }

  /** The whole result list a request pages through. */
  function Results(db: Database, floor: seq<int>, q: MediaQuery): seq<Item> {
    match Allowed(floor, q.libraryIDs)
    case DenyAll => []
    case Only(ids) => ToItems(ids, Selected(db, ids, CleanList(q.mediaTypes), q))
  }

  /** One page: the total comes with the rows, so a page past the end reports none. */
  function PageAt(results: seq<Item>, offset: nat, limit: nat): Response {
    var page := Slice(results, offset, limit);
    var total := if page == [] then 0 else |results|;
    Response(page, if offset + |page| < total then OffsetToken(offset + |page|) else "", total)
  }

  function MediaPage(db: Database, floor: seq<int>, q: MediaQuery): Reply {
    if Allowed(floor, q.libraryIDs).DenyAll? then Page(Response([], "", 0))
    else
      var offset := if q.pageToken == "" then 0 else ScanOffset(q.pageToken);
      if offset < 0 then QueryError
      else Page(PageAt(Results(db, floor, q), offset, ClampPageSize(q.pageSize)))
  }

  // ----- the store method -----

  /** What the database sends back: each row of the page with the window count. */
  datatype Sent = Sent(item: Item, count: nat)

  function Query(db: Database, ids: seq<int>, types: seq<string>, q: MediaQuery, limit: nat,
                 offset: nat): (r: seq<Sent>)
    ensures var all := ToItems(ids, Selected(db, ids, types, q));
            var page := Slice(all, offset, limit);
            |r| == |page| && forall i :: 0 <= i < |r| ==> r[i] == Sent(page[i], |all|)
  {
    var all := ToItems(ids, Selected(db, ids, types, q));
    var page := Slice(all, offset, limit);
    seq(|page|, i requires 0 <= i < |page| => Sent(page[i], |all|))
  }

  method ComputeCatalogMedia(db: Database, floor: PublicFloor, q: MediaQuery) returns (reply: Reply)
    ensures reply == MediaPage(db, floor.publicLibraryIDs, q)
  {
    var ids, denyAll := floor.AllowedLibraryIDs(q.libraryIDs);
    if denyAll {
      return Page(Response([], "", 0));
    }
    var pageSize := q.pageSize;
    if pageSize < 1 {
      pageSize := 48;
    }
    if pageSize > 100 {
      pageSize := 100;
    }
    var offset := 0;
    if q.pageToken != "" {
      offset := ScanOffset(q.pageToken);
    }
    var mediaTypes := ComputeCleanList(q.mediaTypes);
    if offset < 0 {
      return QueryError;
    }
    var response := ReadPage(db, ids, mediaTypes, q, pageSize, offset);
    return Page(response);
  }

  method ReadPage(db: Database, ids: seq<int>, types: seq<string>, q: MediaQuery, limit: nat, offset: nat)
    returns (response: Response)
    ensures response == PageAt(ToItems(ids, Selected(db, ids, types, q)), offset, limit)
  {
    var rows := Query(db, ids, types, q, limit, offset);
    var items, total := ReadRows(rows);
    assert items == Slice(ToItems(ids, Selected(db, ids, types, q)), offset, limit);
    var next: Cursor := "";
    if offset + |items| < total {
      next := OffsetToken(offset + |items|);
    }
    return Response(items, next, total);
  }

  /** The row loop: items in order, and the count as the last row has it. */
  method ReadRows(rows: seq<Sent>) returns (items: seq<Item>, total: nat)
    ensures |items| == |rows| && forall i :: 0 <= i < |rows| ==> items[i] == rows[i].item
    ensures total == if rows == [] then 0 else rows[|rows| - 1].count
  {
    items, total := [], 0;
    for i := 0 to |rows|
      invariant |items| == i && forall j :: 0 <= j < i ==> items[j] == rows[j].item
      invariant total == if i == 0 then 0 else rows[i - 1].count
    {
      items := items + [rows[i].item];
      total := rows[i].count;
    }
  }

  // ----- what a page shows -----

  lemma {:induction false} FilterPasses(db: Database, ids: seq<int>, types: seq<string>, q: MediaQuery, rows: seq<Row>)
    ensures forall r :: r in Filter(db, ids, types, q, rows) <==> r in rows && Passes(db, ids, types, q, r)
  {
    if rows != [] {
      FilterPasses(db, ids, types, q, rows[..|rows| - 1]);
      assert rows == rows[..|rows| - 1] + [rows[|rows| - 1]];
    }
  }

  /** Every item of every page comes from a row of the listing that passed the filter, and the library shown for it is
      one the scope names. */
  lemma ShownInScope(db: Database, floor: seq<int>, q: MediaQuery, item: Item)
    requires MediaPage(db, floor, q).Page? && item in MediaPage(db, floor, q).response.items
    ensures Allowed(floor, q.libraryIDs).Only? && item.library in Allowed(floor, q.libraryIDs).ids
    ensures exists row :: row in db.listing(CleanList(q.mediaTypes) == ["episode"], OrderColumn(q.sort), q.descending)
                          && row.id == item.id && row.kind == item.kind && item.library in row.libraries
  {
    var ids, types := Allowed(floor, q.libraryIDs).ids, CleanList(q.mediaTypes);
    var rows := Selected(db, ids, types, q);
    AllowedMembers(floor, q.libraryIDs);
    var all := ToItems(ids, rows);
    assert item in all;
    var i :| 0 <= i < |all| && all[i] == item;
    FilterPasses(db, ids, types, q, db.listing(types == ["episode"], OrderColumn(q.sort), q.descending));
    assert rows[i] in rows && Passes(db, ids, types, q, rows[i]);
    var l :| l in rows[i].libraries && l in ids;
    assert l in set l | l in rows[i].libraries && l in ids;
  }

  /** Every item of every page lies in an allowlisted library. */
  lemma PagesStayOnTheFloor(db: Database, floor: seq<int>, q: MediaQuery, item: Item)
    requires MediaPage(db, floor, q).Page? && item in MediaPage(db, floor, q).response.items
    ensures item.library in floor
  {
    ShownInScope(db, floor, q, item);
    AllowedMembers(floor, q.libraryIDs);
  }

  // ----- exactly which list a query pages through, and which page it gets -----

  lemma {:induction false} FilterExact(db: Database, ids: seq<int>, types: seq<string>, q: MediaQuery, rows: seq<Row>)
    returns (at: seq<nat>)
    ensures Chosen(rows, row => Passes(db, ids, types, q, row), row => row, at, Filter(db, ids, types, q, rows))
  {
    at := [];
    if rows != [] {
      var init, last := rows[..|rows| - 1], rows[|rows| - 1];
      at := FilterExact(db, ids, types, q, init);
      ChosenSnoc(init, last, row => Passes(db, ids, types, q, row), row => row, at, Filter(db, ids, types, q, init));
      assert rows == init + [last];
      at := at + if Passes(db, ids, types, q, last) then [|init|] else [];
    }
  }

  /** A library the query may show: allowlisted and, if the query names any library, named. */
  predicate Showable(floor: seq<int>, q: MediaQuery, l: int) {
    l in floor && (CleanIDs(q.libraryIDs) == [] || l in CleanIDs(q.libraryIDs))
  }

  /** A row the query lists: in a library it may show, of a type it asks for unless it asks for none or for episodes
      alone, and matching its search, genre and years. */
  predicate Listed(db: Database, floor: seq<int>, q: MediaQuery, row: Row) {
    var types := CleanList(q.mediaTypes);
    && (exists l :: l in row.libraries && Showable(floor, q, l))
    && (types == ["episode"] || types == [] || row.kind in types)
    && db.matches(types == ["episode"], row, TrimSpace(q.query), TrimSpace(q.genre), q.yearMin, q.yearMax)
  }

  /** The row with the least of its libraries that may be shown. */
  predicate ShownAs(floor: seq<int>, q: MediaQuery, row: Row, item: Item) {
    && item.id == row.id && item.kind == row.kind
    && item.library in row.libraries && Showable(floor, q, item.library)
    && forall l :: l in row.libraries && Showable(floor, q, l) ==> item.library <= l
  }

  /** `at` are the positions of the rows the query lists, and the items are these rows, in order. */
  ghost predicate ListedAt(db: Database, floor: seq<int>, q: MediaQuery, rows: seq<Row>, at: seq<nat>,
                           items: seq<Item>) {
    && |items| == |at|
    && (forall i, j :: 0 <= i < j < |at| ==> at[i] < at[j])
    && (forall i :: 0 <= i < |at| ==>
          at[i] < |rows| && Listed(db, floor, q, rows[at[i]]) && ShownAs(floor, q, rows[at[i]], items[i]))
    && (forall k: nat :: k < |rows| && Listed(db, floor, q, rows[k]) ==> k in at)
  }

  lemma ListedPasses(db: Database, floor: seq<int>, q: MediaQuery, row: Row)
    requires Allowed(floor, q.libraryIDs).Only?
    ensures Listed(db, floor, q, row)
            <==> Passes(db, Allowed(floor, q.libraryIDs).ids, CleanList(q.mediaTypes), q, row)
  {
    var ids := Allowed(floor, q.libraryIDs).ids;
    AllowedMembers(floor, q.libraryIDs);
    assert forall l :: l in ids <==> Showable(floor, q, l);
  }

  lemma ListedShown(db: Database, floor: seq<int>, q: MediaQuery, row: Row)
    requires Allowed(floor, q.libraryIDs).Only? && Listed(db, floor, q, row)
    ensures ShownAs(floor, q, row, ToItem(Allowed(floor, q.libraryIDs).ids, row))
  {
    var ids := Allowed(floor, q.libraryIDs).ids;
    AllowedMembers(floor, q.libraryIDs);
    assert forall l :: l in ids <==> Showable(floor, q, l);
    var shown := set l | l in row.libraries && l in ids;
    assert ids != [] && ShownLibrary(ids, row.libraries) == Least(shown);
    assert forall l :: l in shown <==> l in row.libraries && Showable(floor, q, l);
    var l :| l in row.libraries && Showable(floor, q, l);
    assert l in shown;
  }

  /** Main result.  The list a query pages through is made of exactly the rows it lists, each once, in the order of the
      listing by year, time of addition, rating or else title, forwards or backwards as asked. */
  lemma ResultsExactly(db: Database, floor: seq<int>, q: MediaQuery) returns (rows: seq<Row>, at: seq<nat>)
    ensures var episodes := CleanList(q.mediaTypes) == ["episode"];
            && (q.sort == "year" ==> rows == db.listing(episodes, Year, q.descending))
            && (q.sort == "added_at" ==> rows == db.listing(episodes, AddedAt, q.descending))
            && (q.sort == "rating" ==> rows == db.listing(episodes, Rating, q.descending))
            && (q.sort !in ["year", "added_at", "rating"] ==> rows == db.listing(episodes, Title, q.descending))
    ensures ListedAt(db, floor, q, rows, at, Results(db, floor, q))
  {
    rows := ListingOf(db, q);
    at := [];
    AllowedMembers(floor, q.libraryIDs);
    if Allowed(floor, q.libraryIDs).Only? {
      at := ResultsAt(db, floor, q, rows);
    }
  }

  lemma ListingOf(db: Database, q: MediaQuery) returns (rows: seq<Row>)
    ensures var episodes := CleanList(q.mediaTypes) == ["episode"];
            && (q.sort == "year" ==> rows == db.listing(episodes, Year, q.descending))
            && (q.sort == "added_at" ==> rows == db.listing(episodes, AddedAt, q.descending))
            && (q.sort == "rating" ==> rows == db.listing(episodes, Rating, q.descending))
            && (q.sort !in ["year", "added_at", "rating"] ==> rows == db.listing(episodes, Title, q.descending))
            && rows == db.listing(episodes, OrderColumn(q.sort), q.descending)
  {
    rows := db.listing(CleanList(q.mediaTypes) == ["episode"], OrderColumn(q.sort), q.descending);
  }

  lemma ResultsAt(db: Database, floor: seq<int>, q: MediaQuery, rows: seq<Row>) returns (at: seq<nat>)
    requires Allowed(floor, q.libraryIDs).Only?
    requires rows == db.listing(CleanList(q.mediaTypes) == ["episode"], OrderColumn(q.sort), q.descending)
    ensures ListedAt(db, floor, q, rows, at, Results(db, floor, q))
  {
    var ids, types := Allowed(floor, q.libraryIDs).ids, CleanList(q.mediaTypes);
    at := FilterExact(db, ids, types, q, rows);
    forall row ensures Listed(db, floor, q, row) <==> Passes(db, ids, types, q, row) {
      ListedPasses(db, floor, q, row);
    }
    forall row | Listed(db, floor, q, row) ensures ShownAs(floor, q, row, ToItem(ids, row)) {
      ListedShown(db, floor, q, row);
    }
  }

  /** The page at a position: up to `limit` items from there on, the length of the list unless the page is empty, and
      the cursor of the position after it exactly when items remain. */
  lemma PageExactly(results: seq<Item>, offset: nat, limit: nat)
    requires limit >= 1
    ensures var page := PageAt(results, offset, limit);
            && |page.items| == (if offset >= |results| then 0
                                else if |results| - offset < limit then |results| - offset
                                else limit)
            && (forall i :: 0 <= i < |page.items| ==> page.items[i] == results[offset + i])
            && page.total == (if offset < |results| then |results| else 0)
            && page.next == (if offset + limit < |results| then "offset:" + NatText(offset + limit) else "")
  {
  }

  /** Which page: at the offset the cursor reads as, 48 items unless the query asks for more than none, and 100 at most.
      A negative offset fails unless nothing may be shown. */
  lemma MediaPageExactly(db: Database, floor: seq<int>, q: MediaQuery) returns (offset: int, limit: nat)
    ensures offset == (if q.pageToken == "" then 0 else ScanOffset(q.pageToken))
    ensures 1 <= q.pageSize <= 100 ==> limit == q.pageSize
    ensures q.pageSize < 1 ==> limit == 48
    ensures q.pageSize > 100 ==> limit == 100
    ensures MediaPage(db, floor, q).QueryError? <==> offset < 0 && exists l :: Showable(floor, q, l)
    ensures offset >= 0 ==> MediaPage(db, floor, q) == Page(PageAt(Results(db, floor, q), offset, limit))
    ensures (forall l :: !Showable(floor, q, l)) ==> MediaPage(db, floor, q) == Page(Response([], "", 0))
  {
    offset, limit := if q.pageToken == "" then 0 else ScanOffset(q.pageToken), ClampPageSize(q.pageSize);
    AllowedMembers(floor, q.libraryIDs);
    var scope := Allowed(floor, q.libraryIDs);
    if scope.Only? {
      var l := scope.ids[0];
      assert l in scope.ids && Showable(floor, q, l);
    }
  }

  // ----- equivalent requests get the same answer -----

  ghost predicate SameMembers<T(!new)>(a: seq<T>, b: seq<T>) {
    (|a| == 0 <==> |b| == 0) && forall x :: x in a <==> x in b
  }

  lemma {:induction false} FilterSame(db: Database, ids: seq<int>, ids': seq<int>, types: seq<string>,
                                      types': seq<string>,
                                      q: MediaQuery, q': MediaQuery, rows: seq<Row>)
    requires SameMembers(ids, ids') && SameMembers(types, types') && (types == ["episode"] <==> types' == ["episode"])
    requires TrimSpace(q.query) == TrimSpace(q'.query) && TrimSpace(q.genre) == TrimSpace(q'.genre)
    requires q.yearMin == q'.yearMin && q.yearMax == q'.yearMax
    ensures Filter(db, ids, types, q, rows) == Filter(db, ids', types', q', rows)
  {
    if rows != [] {
      var last := rows[|rows| - 1];
      FilterSame(db, ids, ids', types, types', q, q', rows[..|rows| - 1]);
      assert Passes(db, ids, types, q, last) == Passes(db, ids', types', q', last);
    }
  }

  lemma ItemsSame(ids: seq<int>, ids': seq<int>, rows: seq<Row>)
    requires SameMembers(ids, ids')
    ensures ToItems(ids, rows) == ToItems(ids', rows)
  {
    forall i | 0 <= i < |rows| ensures ToItem(ids, rows[i]) == ToItem(ids', rows[i]) {
      var libs := rows[i].libraries;
      assert (set l | l in libs && l in ids) == (set l | l in libs && l in ids');
    }
  }

  /** Two lists of ids that name the same libraries scope alike. */
  lemma ScopeSame(floor: seq<int>, a: seq<string>, b: seq<string>)
    requires SameMembers(CleanIDs(a), CleanIDs(b))
    ensures Allowed(floor, a).DenyAll? <==> Allowed(floor, b).DenyAll?
    ensures Allowed(floor, a).Only? ==> SameMembers(Allowed(floor, a).ids, Allowed(floor, b).ids)
  {
    AllowedMembers(floor, a);
    AllowedMembers(floor, b);
    assert CleanIDs(a) == [] <==> CleanIDs(b) == [];
  }

  lemma SameListMembers(a: seq<string>, b: seq<string>)
    requires multiset(a) == multiset(b)
    ensures |a| == |b| && SameMembers(a, b)
    ensures |a| == 1 ==> a == b
  {
    assert |multiset(a)| == |a| && |multiset(b)| == |b|;
    forall x ensures x in a <==> x in b {
      assert x in multiset(a) <==> x in multiset(b);
    }
    if |a| == 1 {
      assert a[0] in b;
    }
  }

  lemma SameListIds(a: seq<string>, b: seq<string>)
    requires SameList(a, b)
    ensures SameMembers(CleanIDs(a), CleanIDs(b))
  {
    SameListMembers(CleanList(a), CleanList(b));
    CleanListIds(a);
    CleanListIds(b);
    CleanIDsMembers(CleanList(a));
    CleanIDsMembers(CleanList(b));
    EmptyIffNoMember(CleanIDs(a));
    EmptyIffNoMember(CleanIDs(b));
  }

  lemma EmptyIffNoMember(s: seq<int>)
    ensures |s| == 0 <==> forall n :: n !in s
  {
    if |s| > 0 {
      var n := s[0];
      assert n in s;
    }
  }

  /** The store sees of the library ids only which libraries they name. */
  lemma AlikeAnswers(db: Database, floor: seq<int>, a: MediaQuery, b: MediaQuery)
    requires SameMembers(CleanIDs(a.libraryIDs), CleanIDs(b.libraryIDs))
             && Equivalent(a, b.(libraryIDs := a.libraryIDs))
    ensures MediaPage(db, floor, a) == MediaPage(db, floor, b)
  {
    ScopeSame(floor, a.libraryIDs, b.libraryIDs);
    if Allowed(floor, a.libraryIDs).Only? {
      var types, types' := CleanList(a.mediaTypes), CleanList(b.mediaTypes);
      SameListMembers(types, types');
      SelectedSame(db, Allowed(floor, a.libraryIDs).ids, Allowed(floor, b.libraryIDs).ids, types, types', a, b);
    }
  }

  lemma SelectedSame(db: Database, ids: seq<int>, ids': seq<int>, types: seq<string>, types': seq<string>,
                     a: MediaQuery, b: MediaQuery)
    requires Equivalent(a, b.(libraryIDs := a.libraryIDs)) && SameMembers(ids, ids') && SameMembers(types, types')
    requires types == ["episode"] <==> types' == ["episode"]
    ensures ToItems(ids, Selected(db, ids, types, a)) == ToItems(ids', Selected(db, ids', types', b))
  {
    FilterSame(db, ids, ids', types, types', a, b, db.listing(types == ["episode"], OrderColumn(a.sort), a.descending));
    ItemsSame(ids, ids', Selected(db, ids, types, a));
  }

  /** The store cannot tell equivalent queries apart. */
  lemma EquivalentAnswers(db: Database, floor: seq<int>, a: MediaQuery, b: MediaQuery)
    requires Equivalent(a, b)
    ensures MediaPage(db, floor, a) == MediaPage(db, floor, b)
  {
    SameListIds(a.libraryIDs, b.libraryIDs);
    AlikeAnswers(db, floor, a, b);
  }
}
