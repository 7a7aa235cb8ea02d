/** Following signed next-page tokens through a fixed result list, one request after another, with whatever page sizes
    the client sends.  Composes every layer from the raw request to the store's offset and back. */
module Walk {
  import opened Text
  import opened LibraryScope
  import opened MediaTypes
  import opened CacheKey
  import opened PageToken
  import opened CatalogMedia
  import opened CatalogHandler

  /** A walk ends when a page names no next one or a request is refused; `More` when the client stops asking. */
  datatype End = Finished | Stopped | More

  datatype Walked = Walked(items: seq<Item>, end: End)

  /** Sends one request per page-size text, each with the token the last reply named. */
  function Follow(fetch: (string, string) -> Outcome, token: string, sizes: seq<string>): Walked
    decreases |sizes|
  {
    if sizes == [] then Walked([], More)
    else
      match fetch(token, sizes[0])
      case Served(items, next, _) =>
        if next == "" then Walked(items, Finished)
        else
          var rest := Follow(fetch, next, sizes[1..]);
          Walked(items + rest.items, rest.end)
      case _ => Walked([], Stopped)
  }

  // ----- walks through any list served this way -----

  /** A list, the token of each position, and what a request with a token and a page-size text gets. */
  datatype Pager = Pager(all: seq<Item>, tokenAt: nat -> string, sizeOf: string -> int,
                         fetch: (string, string) -> Outcome)

  /** Asking at position n serves the next slice and the token of the position after it. */
  ghost predicate Serves(p: Pager, n: nat, size: string) {
    var k := p.sizeOf(size);
    var o := p.fetch(p.tokenAt(n), size);
    && 1 <= k <= 100 && n <= |p.all| && o.Served?
    && if n + k < |p.all| then o.items == p.all[n..n + k] && o.nextPageToken == p.tokenAt(n + k)
       else o.items == p.all[n..] && o.nextPageToken == ""
  }

  predicate Refuses(p: Pager, n: nat, size: string) {
    p.fetch(p.tokenAt(n), size) == Rejected(InvalidPageToken)
  }

  /** Positions up to the cap are served, positions past it refused. */
  ghost predicate Lawful(p: Pager) {
    && p.tokenAt(0) == "" && (forall n: nat :: n > 0 ==> p.tokenAt(n) != "")
    && (forall n: nat, size: string :: n <= MAX_CATALOG_OFFSET && (n == 0 || n < |p.all|) ==> Serves(p, n, size))
    && (forall n: nat, size: string :: MAX_CATALOG_OFFSET < n <= MAX_CATALOG_OFFSET + 100 ==> Refuses(p, n, size))
  }

  /** What a walk from position n has covered: the items up to m. */
  ghost predicate Covers(p: Pager, n: nat, sizes: seq<string>, m: nat) {
    var walk := Follow(p.fetch, p.tokenAt(n), sizes);
    && n <= m <= |p.all| && walk.items == p.all[n..m]
    && (walk.end.Finished? ==> m == |p.all|)
    && (walk.end.Stopped? ==> MAX_CATALOG_OFFSET < m <= MAX_CATALOG_OFFSET + 100 && m < |p.all|)
    && (walk.end.More? ==> n + |sizes| <= m && (sizes != [] ==> m < |p.all| && n + |sizes| <= MAX_CATALOG_OFFSET + 1))
  }

  lemma {:induction false} WalkFrom(p: Pager, n: nat, sizes: seq<string>) returns (m: nat)
    requires Lawful(p) && (n == 0 || n < |p.all|) && n <= MAX_CATALOG_OFFSET + 100
    ensures Covers(p, n, sizes, m)
    decreases |sizes|
  {
    if sizes == [] {
      return n;
    }
    if n > MAX_CATALOG_OFFSET {
      assert Refuses(p, n, sizes[0]);
      return n;
    }
    assert Serves(p, n, sizes[0]);
    var next := n + p.sizeOf(sizes[0]);
    if next >= |p.all| {
      return |p.all|;
    }
    m := WalkFrom(p, next, sizes[1..]);
    assert p.all[n..next] + p.all[next..m] == p.all[n..m];
  }

  function Repeat(size: string, count: nat): (r: seq<string>)
    ensures |r| == count
  {
    if count == 0 then [] else [size] + Repeat(size, count - 1)
  }

  /** How far a walk with pages of k items gets: one page past the last position it may ask at. */
  function Reach(k: nat): nat
    requires k >= 1
  {
    (MAX_CATALOG_OFFSET / k + 1) * k
  }

  lemma ReachBounds(k: nat)
    requires k >= 1
    ensures MAX_CATALOG_OFFSET < Reach(k) <= MAX_CATALOG_OFFSET + k
  {
    assert MAX_CATALOG_OFFSET == MAX_CATALOG_OFFSET / k * k + MAX_CATALOG_OFFSET % k;
    assert (MAX_CATALOG_OFFSET / k + 1) * k == MAX_CATALOG_OFFSET / k * k + k;
  }

  lemma Multiples(k: nat, j: nat)
    requires k >= 1
    ensures (j + 1) * k == j * k + k && j * k >= j
    ensures j * k <= MAX_CATALOG_OFFSET ==> j * k + k <= Reach(k)
    ensures j * k > MAX_CATALOG_OFFSET ==> j * k >= Reach(k)
  {
    var top := MAX_CATALOG_OFFSET / k;
    assert MAX_CATALOG_OFFSET == top * k + MAX_CATALOG_OFFSET % k;
    assert (top + 1) * k == top * k + k;
    if j <= top {
      assert j * k <= top * k;
    } else {
      assert j * k >= (top + 1) * k;
    }
  }

  lemma FollowServed(p: Pager, n: nat, size: string, count: nat)
    requires Serves(p, n, size) && count > 0 && n + p.sizeOf(size) < |p.all| && p.tokenAt(n + p.sizeOf(size)) != ""
    ensures Follow(p.fetch, p.tokenAt(n), Repeat(size, count)).end
            == Follow(p.fetch, p.tokenAt(n + p.sizeOf(size)), Repeat(size, count - 1)).end
  {
    var sizes := Repeat(size, count);
    assert sizes[0] == size && sizes[1..] == Repeat(size, count - 1);
  }

  lemma FollowEnds(p: Pager, n: nat, size: string, count: nat)
    requires count > 0
    ensures Refuses(p, n, size) ==> Follow(p.fetch, p.tokenAt(n), Repeat(size, count)).end == Stopped
    ensures Serves(p, n, size) && n + p.sizeOf(size) >= |p.all|
            ==> Follow(p.fetch, p.tokenAt(n), Repeat(size, count)).end == Finished
  {
    assert Repeat(size, count)[0] == size;
  }

  /** From position n, a multiple of k, with enough requests to spare. */
  lemma {:induction false} EvenWalk(p: Pager, size: string, k: nat, j: nat, n: nat, count: nat)
    requires Lawful(p) && p.sizeOf(size) == k && 1 <= k <= 100 && n == j * k && (n == 0 || n < |p.all|)
    requires n <= Reach(k) && count > MAX_CATALOG_OFFSET + 1 - j
    ensures Follow(p.fetch, p.tokenAt(n), Repeat(size, count)).end == if |p.all| <= Reach(k) then Finished else Stopped
    decreases count
  {
    Multiples(k, j);
    ReachBounds(k);
    if n > MAX_CATALOG_OFFSET {
      assert Refuses(p, n, size);
      FollowEnds(p, n, size, count);
    } else {
      assert Serves(p, n, size);
      if n + k < |p.all| {
        FollowServed(p, n, size, count);
        EvenWalk(p, size, k, j + 1, n + k, count - 1);
      } else {
        FollowEnds(p, n, size, count);
      }
    }
  }

  // ----- the catalog's pager -----

  /** Everything a walk keeps fixed. */
  datatype Site = Site(mac: Mac, secret: string, claims: Claims, db: Database, floor: seq<int>, request: Request)

  function Fetch(s: Site, token: string, size: string): Outcome {
    Handle(s.mac, s.secret, s.claims, s.db, s.floor, s.request.(pageToken := token, pageSize := size))
  }

  /** The request passes every check but that of its page token, and the store can serve it. */
  predicate Browsable(s: Site) {
    && MergeLibraryIDs(s.claims.libraryIDs, s.request.libraryIDs).Some?
    && MergeMediaTypes(s.claims.mediaTypes, s.request.mediaTypes).Some?
    && Direct(MergeMediaTypes(s.claims.mediaTypes, s.request.mediaTypes).value)
  }

  /** The store query of every step, up to page size and cursor. */
  function StoreQuery(s: Site, pageSize: int, cursor: string): MediaQuery
    requires Browsable(s)
  {
    var types := MergeMediaTypes(s.claims.mediaTypes, s.request.mediaTypes).value;
    MediaQuery(MergeLibraryIDs(s.claims.libraryIDs, s.request.libraryIDs).value, StoreTypes(types),
               TrimSpace(s.request.query), TrimSpace(s.request.genre),
               BoundedInt(s.request.yearMin, 0, 0, 9999), BoundedInt(s.request.yearMax, 0, 0, 9999),
               DefaultString(s.request.sort, "title"), s.request.desc == "true", pageSize, cursor)
  }

  /** The list being walked. */
  function All(s: Site): seq<Item>
    requires Browsable(s)
  {
    Results(s.db, s.floor, StoreQuery(s, 48, ""))
  }

  function PageSize(size: string): (k: int)
    ensures 1 <= k <= 100
  {
    BoundedInt(size, 48, 1, 100)
  }

  /** The token that continues at position n. */
  function TokenAt(s: Site, n: nat): string {
    if n == 0 then "" else SignPageToken(s.mac, s.secret, OffsetToken(n))
  }

  // ----- one step -----

  lemma SameResults(s: Site, pageSize: int, cursor: string)
    requires Browsable(s)
    ensures Results(s.db, s.floor, StoreQuery(s, pageSize, cursor)) == All(s)
  {
    var q, q' := StoreQuery(s, pageSize, cursor), StoreQuery(s, 48, "");
    match Allowed(s.floor, q.libraryIDs)
    case DenyAll =>
    case Only(ids) =>
      var types := CleanList(q.mediaTypes);
      FilterSame(s.db, ids, ids, types, types, q, q',
                 s.db.listing(types == ["episode"], OrderColumn(q.sort), q.descending));
  }

  lemma FetchQuery(s: Site, token: string, size: string)
    requires Browsable(s)
    ensures Fetch(s, token, size)
            == match VerifyPageToken(s.mac, s.secret, token)
               case Inner(cursor) =>
                 Reported(s.mac, s.secret, MediaPage(s.db, s.floor, StoreQuery(s, PageSize(size), cursor)))
               case _ => Rejected(InvalidPageToken)
  {
  }

  lemma PageOf(s: Site, cursor: string, k: int, n: nat)
    requires Browsable(s) && 1 <= k <= 100
             && (if n == 0 then cursor == "" else cursor == OffsetToken(n) && n <= MAX_INT)
    ensures MediaPage(s.db, s.floor, StoreQuery(s, k, cursor)) == Page(PageAt(All(s), n, k))
  {
    SameResults(s, k, cursor);
    if n > 0 {
      OffsetTokenReads(n);
    }
  }

  lemma StepOutcome(s: Site, n: nat, size: string)
    requires Browsable(s) && n <= MAX_CATALOG_OFFSET
    ensures Fetch(s, TokenAt(s, n), size) == Sign(s.mac, s.secret, PageAt(All(s), n, PageSize(size)))
  {
    FetchQuery(s, TokenAt(s, n), size);
    if n > 0 {
      CursorRoundTrip(s.mac, s.secret, n);
      PageOf(s, OffsetToken(n), PageSize(size), n);
    } else {
      PageOf(s, "", PageSize(size), n);
    }
  }

  /** Past the cap the same token is refused. */
  lemma StepRefused(s: Site, n: nat, size: string)
    requires Browsable(s) && MAX_CATALOG_OFFSET < n <= MAX_INT
    ensures Fetch(s, TokenAt(s, n), size) == Rejected(InvalidPageToken)
  {
    FetchQuery(s, TokenAt(s, n), size);
    CursorRoundTrip(s.mac, s.secret, n);
  }

  lemma TokenNonEmpty(s: Site, n: nat)
    requires n > 0
    ensures TokenAt(s, n) != ""
  {
    SealTrimmed(s.mac, s.secret, ToBytes(OffsetToken(n)));
  }

  lemma PageAtSlice(all: seq<Item>, n: nat, k: nat)
    requires k >= 1 && (n == 0 || n < |all|)
    ensures PageAt(all, n, k).items == if n + k < |all| then all[n..n + k] else all[n..]
    ensures PageAt(all, n, k).next == if n + k < |all| then OffsetToken(n + k) else ""
  {
  }

  function SitePager(s: Site): Pager
    requires Browsable(s)
  {
    Pager(All(s), (n: nat) => TokenAt(s, n), PageSize, (token, size) => Fetch(s, token, size))
  }

  lemma SignedPageServes(p: Pager, mac: Mac, secret: string, n: nat, size: string)
    requires 1 <= p.sizeOf(size) <= 100 && (n == 0 || n < |p.all|)
    requires p.fetch(p.tokenAt(n), size) == Sign(mac, secret, PageAt(p.all, n, p.sizeOf(size)))
    requires p.tokenAt(n + p.sizeOf(size)) == SignPageToken(mac, secret, OffsetToken(n + p.sizeOf(size)))
    ensures Serves(p, n, size)
  {
    PageAtSlice(p.all, n, p.sizeOf(size));
  }

  lemma SiteServes(s: Site, n: nat, size: string)
    requires Browsable(s) && n <= MAX_CATALOG_OFFSET && (n == 0 || n < |All(s)|)
    ensures Serves(SitePager(s), n, size)
  {
    StepOutcome(s, n, size);
    SignedPageServes(SitePager(s), s.mac, s.secret, n, size);
  }

  lemma SiteLawful(s: Site)
    requires Browsable(s)
    ensures Lawful(SitePager(s))
  {
    var p := SitePager(s);
    forall n: nat | n > 0 ensures p.tokenAt(n) != "" {
      TokenNonEmpty(s, n);
    }
    forall n: nat, size: string | n <= MAX_CATALOG_OFFSET && (n == 0 || n < |p.all|) ensures Serves(p, n, size) {
      SiteServes(s, n, size);
    }
    forall n: nat, size: string | MAX_CATALOG_OFFSET < n <= MAX_CATALOG_OFFSET + 100 ensures Refuses(p, n, size) {
      StepRefused(s, n, size);
    }
  }

  // ----- whole walks -----

  function WalkSite(s: Site, sizes: seq<string>): Walked
    requires Browsable(s)
  {
    Follow(SitePager(s).fetch, "", sizes)
  }

  /** Main result.  For every list, claim, request and sequence of page-size texts: the pages of a walk in order are a
      prefix of the list; a finished walk has seen all of it; a refused one has seen more than 50000 and at most 50100
      items and not all; and a walk that is still going after k requests has seen at least k items, so it ends within
      min(|list|, 50002) requests. */
  lemma WalkIsAPrefix(s: Site, sizes: seq<string>)
    requires Browsable(s)
    ensures var all, walk := All(s), WalkSite(s, sizes);
            && walk.items <= all
            && (walk.end.Finished? ==> walk.items == all)
            && (walk.end.Stopped?
                ==> 50000 < |walk.items| <= 50100 && |walk.items| < |all|)
            && (walk.end.More? && sizes != []
                ==> |sizes| <= |walk.items| < |all| && |sizes| <= 50001)
  {
    SiteLawful(s);
    var m := WalkFrom(SitePager(s), 0, sizes);
  }

  /** A walk in even pages of k items reaches the end exactly when the list is no longer than Reach(k): 50001 items for
      single-item pages, 50100 for pages of a hundred. */
  lemma EvenWalkFinishes(s: Site, k: nat)
    requires Browsable(s) && 1 <= k <= 100
    ensures WalkSite(s, Repeat(Itoa(k), MAX_CATALOG_OFFSET + 2)).end
            == if |All(s)| <= Reach(k) then Finished else Stopped
  {
    SiteLawful(s);
    SizeOfText(k);
    assert SitePager(s).sizeOf(Itoa(k)) == PageSize(Itoa(k));
    EvenWalk(SitePager(s), Itoa(k), k, 0, 0, MAX_CATALOG_OFFSET + 2);
  }

  lemma SizeOfText(k: nat)
    requires 1 <= k <= 100
    ensures PageSize(Itoa(k)) == k
  {
    AtoiItoa(k);
  }

  /** No page sizes get a walk refused exactly when the list has at most 50001 items. */
  lemma NeverRefusedExactly(s: Site)
    requires Browsable(s)
    ensures (forall sizes :: !WalkSite(s, sizes).end.Stopped?) <==> |All(s)| <= 50001
  {
    if |All(s)| <= MAX_CATALOG_OFFSET + 1 {
      forall sizes ensures !WalkSite(s, sizes).end.Stopped? {
        WalkIsAPrefix(s, sizes);
      }
    } else {
      EvenWalkFinishes(s, 1);
    }
  }
}
