/** hCatalogMedia and hCatalogFilters of internal/server/handlers_catalog.go, as far as the local store serves them:
    merge, verify the cursor, look in the cache, query the store, fill the cache, sign. */
module CatalogHandler {
  import opened Text
  import opened LibraryScope
  import opened MediaTypes
  import opened CacheKey
  import opened CatalogCache
  import opened PageToken
  import opened CatalogMedia
  import opened CatalogFilters

  /** The query parameters as they arrive. */
  datatype Request = Request(
    libraryIDs: seq<string>, mediaTypes: seq<string>, query: string, genre: string, sort: string, desc: string,
    pageSize: string, pageToken: string, yearMin: string, yearMax: string)

  datatype Refusal = InvalidMediaType | InvalidLibrary | InvalidPageToken

  datatype Validated = Refused(why: Refusal) | Accepted(query: MediaQuery)

  /** `Elsewhere` is the host or a federated source, `Failed` the 500 answer. */
  datatype Outcome =
    | Rejected(why: Refusal)
    | Elsewhere
    | Failed
    | Served(items: seq<Item>, nextPageToken: string, totalCount: nat)

  datatype FiltersOutcome = FiltersRejected(why: Refusal) | FiltersServed(filters: Filters)

  function BoundedInt(raw: string, fallback: int, low: int, high: int): int {
    match Atoi(raw)
    case None => fallback
    case Some(n) => if n < low then low else if n > high then high else n
  }

  function DefaultString(v: string, fallback: string): string {
    if TrimSpace(v) == "" then fallback else TrimSpace(v)
  }

  /** The request after all checks, in the order the handler makes them. */
  function Validate(mac: Mac, secret: string, claims: Claims, r: Request): Validated {
    match MergeMediaTypes(claims.mediaTypes, r.mediaTypes)
    case None => Refused(InvalidMediaType)
    case Some(types) =>
      match MergeLibraryIDs(claims.libraryIDs, r.libraryIDs)
      case None => Refused(InvalidLibrary)
      case Some(libraries) =>
        match VerifyPageToken(mac, secret, r.pageToken)
        case Invalid => Refused(InvalidPageToken)
        case TooDeep => Refused(InvalidPageToken)
        case Inner(cursor) =>
          Accepted(MediaQuery(libraries, types, TrimSpace(r.query), TrimSpace(r.genre),
                              BoundedInt(r.yearMin, 0, 0, 9999), BoundedInt(r.yearMax, 0, 0, 9999),
                              DefaultString(r.sort, "title"), r.desc == "true",
                              BoundedInt(r.pageSize, 48, 1, 100), cursor))
  }

  /** What the store says to a validated query: it wants its own word for "tv". */
  function Answer(db: Database, floor: seq<int>, q: MediaQuery): Reply {
    MediaPage(db, floor, q.(mediaTypes := StoreTypes(q.mediaTypes)))
  }

  function FiltersAnswer(db: Database, floor: seq<int>, libraryIDs: seq<string>, mediaTypes: seq<string>): Filters {
    FilterDictionary(db, floor, libraryIDs, StoreTypes(mediaTypes))
  }

  function Sign(mac: Mac, secret: string, response: Response): Outcome {
    Served(response.items, SignPageToken(mac, secret, response.next), response.total)
  }

  /** The handler without a cache. */
  function Handle(mac: Mac, secret: string, claims: Claims, db: Database, floor: seq<int>, r: Request): Outcome {
    match Validate(mac, secret, claims, r)
    case Refused(why) => Rejected(why)
    case Accepted(q) =>
      if !Direct(q.mediaTypes) then Elsewhere
      else Reported(mac, secret, Answer(db, floor, q))
  }

  function Reported(mac: Mac, secret: string, reply: Reply): Outcome {
    match reply
    case QueryError => Failed
    case Page(response) => Sign(mac, secret, response)
  }

  // ----- the store's words for the types -----

  function StoreWord(t: string): string { if t == "tv" then "series" else t }

  lemma StoreTypesSnoc(init: seq<string>, last: string)
    requires last != ""
    ensures StoreTypes(init + [last]) == StoreTypes(init) + [StoreWord(last)]
  {
    assert (init + [last])[..|init|] == init;
  }

  lemma {:induction false} StoreTypesCount(types: seq<string>, t: string)
    requires "" !in types
    ensures multiset(StoreTypes(types))[t] == if t == "tv" then 0
                                              else multiset(types)[t]
                                                   + if t == "series" then multiset(types)["tv"] else 0
  {
    if types != [] {
      var init, last := types[..|types| - 1], types[|types| - 1];
      assert types == init + [last] && last in types && "" !in init;
      StoreTypesCount(init, t);
      StoreTypesSnoc(init, last);
    }
  }

  lemma {:induction false} StoreTypesClean(types: seq<string>)
    requires Clean(types)
    ensures Clean(StoreTypes(types))
  {
    if types != [] {
      assert types[|types| - 1] in types;
      StoreTypesClean(types[..|types| - 1]);
    }
  }

  lemma StoreTypesSame(a: seq<string>, b: seq<string>)
    requires Clean(a) && Clean(b) && SameList(a, b)
    ensures SameList(StoreTypes(a), StoreTypes(b))
  {
    CleanUnchanged(a);
    CleanUnchanged(b);
    StoreTypesClean(a);
    StoreTypesClean(b);
    CleanUnchanged(StoreTypes(a));
    CleanUnchanged(StoreTypes(b));
    forall t ensures multiset(StoreTypes(a))[t] == multiset(StoreTypes(b))[t] {
      StoreTypesCount(a, t);
      StoreTypesCount(b, t);
    }
  }

  /** Equivalent requests get one answer, whichever of them the store was asked. */
  lemma AnswerEquivalent(db: Database, floor: seq<int>, a: MediaQuery, b: MediaQuery)
    requires Equivalent(a, b) && Clean(a.mediaTypes) && Clean(b.mediaTypes)
    ensures Answer(db, floor, a) == Answer(db, floor, b)
  {
    StoreTypesSame(a.mediaTypes, b.mediaTypes);
    EquivalentAnswers(db, floor, a.(mediaTypes := StoreTypes(a.mediaTypes)),
                      b.(mediaTypes := StoreTypes(b.mediaTypes)));
  }

  lemma FiltersAnswerEquivalent(db: Database, floor: seq<int>, libs: seq<string>, types: seq<string>,
                                libs': seq<string>, types': seq<string>)
    requires SameList(libs, libs') && SameList(types, types') && Clean(types) && Clean(types')
    ensures FiltersAnswer(db, floor, libs, types) == FiltersAnswer(db, floor, libs', types')
  {
    StoreTypesSame(types, types');
    EquivalentFilters(db, floor, libs, StoreTypes(types), libs', StoreTypes(types'));
  }

  // ----- what validation leaves -----

  /** The bounds every accepted query keeps, whatever was sent. */
  lemma AcceptedBounds(mac: Mac, secret: string, claims: Claims, r: Request)
    requires Validate(mac, secret, claims, r).Accepted?
    ensures var q := Validate(mac, secret, claims, r).query;
            && Clean(q.libraryIDs) && OnWire(q.mediaTypes) && Clean(q.mediaTypes)
            && 1 <= q.pageSize <= 100 && 0 <= q.yearMin <= 9999 && 0 <= q.yearMax <= 9999
            && (ParseOffsetToken(q.pageToken).Some? ==> 0 <= ParseOffsetToken(q.pageToken).value <= MAX_CATALOG_OFFSET)
  {
    MergeMembers(claims.libraryIDs, r.libraryIDs);
    MergedTypes(claims.mediaTypes, r.mediaTypes);
    OnWireClean(MergeMediaTypes(claims.mediaTypes, r.mediaTypes).value);
  }

  /** What a number in the query string becomes: itself within the bounds, the nearer bound outside them, and the
      fallback when it is no number. */
  ghost predicate Bounded(raw: string, fallback: int, low: int, high: int, n: int) {
    && (Atoi(raw).None? ==> n == fallback)
    && (Atoi(raw).Some? ==>
          var k := Atoi(raw).value;
          && (low <= k <= high ==> n == k) && (k < low ==> n == low) && (k > high ==> n == high))
  }

  /** The checks in order, the first that fails deciding the answer, and what each field of an accepted query
      becomes. */
  lemma ValidateExactly(mac: Mac, secret: string, claims: Claims, r: Request)
    ensures var types, libraries := MergeMediaTypes(claims.mediaTypes, r.mediaTypes),
                MergeLibraryIDs(claims.libraryIDs, r.libraryIDs);
            var token, v := VerifyPageToken(mac, secret, r.pageToken), Validate(mac, secret, claims, r);
            && (v == Refused(InvalidMediaType) <==> types.None?)
            && (v == Refused(InvalidLibrary) <==> types.Some? && libraries.None?)
            && (v == Refused(InvalidPageToken) <==> types.Some? && libraries.Some? && !token.Inner?)
            && (v.Accepted? ==>
                  && Some(v.query.mediaTypes) == types && Some(v.query.libraryIDs) == libraries
                  && token == Inner(v.query.pageToken)
                  && v.query.query == TrimSpace(r.query) && v.query.genre == TrimSpace(r.genre)
                  && Bounded(r.yearMin, 0, 0, 9999, v.query.yearMin) && Bounded(r.yearMax, 0, 0, 9999, v.query.yearMax)
                  && (TrimSpace(r.sort) == "" ==> v.query.sort == "title")
                  && (TrimSpace(r.sort) != "" ==> v.query.sort == TrimSpace(r.sort))
                  && (v.query.descending <==> r.desc == "true")
                  && Bounded(r.pageSize, 48, 1, 100, v.query.pageSize))
  {
  }

  /** The page of a list at a position: `size` items or what is left of them, each in its place, the length of the list
      unless the page is empty, and the signed cursor of the next position exactly when items remain. */
  ghost predicate ServesPage(mac: Mac, secret: string, all: seq<Item>, offset: nat, size: nat, o: Outcome) {
    && o.Served?
    && |o.items| == (if offset >= |all| then 0 else if |all| - offset < size then |all| - offset else size)
    && (forall i :: 0 <= i < |o.items| ==> o.items[i] == all[offset + i])
    && o.totalCount == (if offset < |all| then |all| else 0)
    && o.nextPageToken == (if offset + size < |all| then SignPageToken(mac, secret, OffsetToken(offset + size)) else "")
  }

  lemma SignedPage(mac: Mac, secret: string, all: seq<Item>, offset: nat, size: nat)
    requires size >= 1
    ensures ServesPage(mac, secret, all, offset, size, Sign(mac, secret, PageAt(all, offset, size)))
  {
    PageExactly(all, offset, size);
  }

  lemma DirectAnswer(mac: Mac, secret: string, claims: Claims, db: Database, floor: seq<int>, r: Request)
    requires Validate(mac, secret, claims, r).Accepted?
    ensures var q, o := Validate(mac, secret, claims, r).query, Handle(mac, secret, claims, db, floor, r);
            && (o == Elsewhere <==> "audiobook" in q.mediaTypes || "ebook" in q.mediaTypes)
            && (o != Elsewhere ==>
                  o == Reported(mac, secret, MediaPage(db, floor, q.(mediaTypes := StoreTypes(q.mediaTypes)))))
  {
    AcceptedBounds(mac, secret, claims, r);
    DirectExactly(Validate(mac, secret, claims, r).query.mediaTypes);
  }

  /** Main result.  What an accepted request is served: nothing from the store if it asks for books; otherwise the page
      of its list at the position its cursor reads as, with as many items as it asks for. */
  lemma ServedExactly(mac: Mac, secret: string, claims: Claims, db: Database, floor: seq<int>, r: Request)
    returns (offset: int)
    requires Validate(mac, secret, claims, r).Accepted?
    ensures var q, o := Validate(mac, secret, claims, r).query, Handle(mac, secret, claims, db, floor, r);
            && offset == (if q.pageToken == "" then 0 else ScanOffset(q.pageToken)) && 1 <= q.pageSize <= 100
            && (o == Elsewhere <==> "audiobook" in q.mediaTypes || "ebook" in q.mediaTypes)
            && (offset >= 0 && o != Elsewhere ==>
                  ServesPage(mac, secret, Results(db, floor, q.(mediaTypes := StoreTypes(q.mediaTypes))), offset,
                             q.pageSize, o))
  {
    var q := Validate(mac, secret, claims, r).query;
    var stored := q.(mediaTypes := StoreTypes(q.mediaTypes));
    AcceptedBounds(mac, secret, claims, r);
    DirectAnswer(mac, secret, claims, db, floor, r);
    var limit: nat;
    offset, limit := MediaPageExactly(db, floor, stored);
    if offset >= 0 {
      SignedPage(mac, secret, Results(db, floor, stored), offset, limit);
    }
  }

  /** The same of the filter dictionary: its genres and years are those of the libraries the request may show and of the
      types it names, in the store's words. */
  lemma FiltersAnswerExactly(db: Database, floor: seq<int>, libs: seq<string>, types: seq<string>)
    returns (facets: Facets, at: seq<nat>)
    requires OnWire(types)
    ensures var ids := set l | l in floor && (CleanIDs(libs) == [] || l in CleanIDs(libs));
            var words, r := (set t | t in types :: if t == "tv" then "series" else t),
              FiltersAnswer(db, floor, libs, types);
            if ids == {} then r == Filters([], [], [])
            else
              && facets == (if types == ["episode"] then db.facets(true, ids, {}) else db.facets(false, ids, words))
              && r.genres == facets.genres && Chosen(facets.years, y => y > 0, y => y, at, r.years)
  {
    var tens, starts, at';
    facets, at, tens, starts, at' := DictionaryExactly(db, floor, libs, StoreTypes(types));
    OnWireClean(types);
    StoreWords(types);
    StoreWordSet(types);
    assert (set t | t in types :: StoreWord(t)) == (set t | t in types :: if t == "tv" then "series" else t);
  }

  lemma {:induction false} StoreWordsAt(types: seq<string>)
    requires "" !in types
    ensures |StoreTypes(types)| == |types|
            && forall i :: 0 <= i < |types| ==> StoreTypes(types)[i] == StoreWord(types[i])
  {
    if types != [] {
      assert types[|types| - 1] in types;
      StoreWordsAt(types[..|types| - 1]);
    }
  }

  lemma StoreWordEpisode(t: string)
    ensures StoreWord(t) == "episode" <==> t == "episode"
  {
  }

  lemma StoreWordSet(types: seq<string>)
    requires "" !in types
    ensures (set t | t in StoreTypes(types)) == (set t | t in types :: StoreWord(t))
  {
    StoreWordsAt(types);
    var a, b := (set t | t in StoreTypes(types)), (set t | t in types :: StoreWord(t));
    forall w ensures w in a <==> w in b {
      if w in a {
        var i :| 0 <= i < |types| && StoreTypes(types)[i] == w;
        assert types[i] in types;
      }
      if w in b {
        var t :| t in types && w == StoreWord(t);
        var i :| 0 <= i < |types| && types[i] == t;
        assert StoreTypes(types)[i] == w;
      }
    }
  }

  lemma StoreWords(types: seq<string>)
    requires Clean(types)
    ensures CleanList(StoreTypes(types)) == StoreTypes(types)
    ensures StoreTypes(types) == ["episode"] <==> types == ["episode"]
  {
    StoreTypesClean(types);
    CleanUnchanged(StoreTypes(types));
    StoreWordsAt(types);
    if |types| == 1 {
      StoreWordEpisode(types[0]);
    }
  }

  /** End to end: every item any request is served lies in a library of the allowlist, and, when the claim's entries
      are all library numbers, of the claim. */
  lemma ServedOnTheFloor(mac: Mac, secret: string, claims: Claims, db: Database, floor: seq<int>, r: Request,
                         item: Item)
    ensures var o := Handle(mac, secret, claims, db, floor, r);
            o.Served? && item in o.items ==>
              && item.library in floor
              && (CleanList(claims.libraryIDs) != []
                  && (forall x :: x in CleanList(claims.libraryIDs) ==> PositiveId(x).Some?)
                  ==> item.library in CleanIDs(claims.libraryIDs))
  {
    var o := Handle(mac, secret, claims, db, floor, r);
    if o.Served? && item in o.items {
      var q := Validate(mac, secret, claims, r).query;
      var stored := q.(mediaTypes := StoreTypes(q.mediaTypes));
      PagesStayOnTheFloor(db, floor, stored, item);
      ParsedClaimBoundsItem(claims, db, floor, r.libraryIDs, stored, item);
    }
  }

  lemma ParsedClaimBoundsItem(claims: Claims, db: Database, floor: seq<int>, request: seq<string>, q: MediaQuery,
                              item: Item)
    requires MergeLibraryIDs(claims.libraryIDs, request) == Some(q.libraryIDs)
    requires MediaPage(db, floor, q).Page? && item in MediaPage(db, floor, q).response.items
    ensures CleanList(claims.libraryIDs) != []
            && (forall x :: x in CleanList(claims.libraryIDs) ==> PositiveId(x).Some?)
            ==> item.library in CleanIDs(claims.libraryIDs)
  {
    if CleanList(claims.libraryIDs) != [] && forall x :: x in CleanList(claims.libraryIDs) ==> PositiveId(x).Some? {
      ParsedClaimBounds(claims.libraryIDs, floor, request);
      ShownInScope(db, floor, q, item);
    }
  }

  /** Every token the store path serves is empty or a signed decimal offset within the list, which the depth check reads
      as the store does. */
  lemma ServedTokens(mac: Mac, secret: string, claims: Claims, db: Database, floor: seq<int>, r: Request)
    ensures var o := Handle(mac, secret, claims, db, floor, r);
            o.Served? && o.nextPageToken != "" ==>
              exists n: nat :: n < o.totalCount && o.nextPageToken == SignPageToken(mac, secret, OffsetToken(n))
                               && (n <= MAX_INT ==> !Missed(OffsetToken(n)))
  {
    var o := Handle(mac, secret, claims, db, floor, r);
    if o.Served? && o.nextPageToken != "" {
      var reply := Answer(db, floor, Validate(mac, secret, claims, r).query);
      assert o == Sign(mac, secret, reply.response) && reply.response.next != "";
      var n := MintedOffset(db, floor, Validate(mac, secret, claims, r).query);
      if n <= MAX_INT {
        OffsetTokenReads(n);
      }
    }
  }

  lemma NextIsOffset(results: seq<Item>, offset: nat, limit: nat) returns (n: nat)
    requires PageAt(results, offset, limit).next != ""
    ensures n < PageAt(results, offset, limit).total && PageAt(results, offset, limit).next == OffsetToken(n)
  {
    n := offset + |PageAt(results, offset, limit).items|;
  }

  lemma MintedBy(db: Database, floor: seq<int>, q: MediaQuery) returns (n: nat)
    requires MediaPage(db, floor, q).Page? && MediaPage(db, floor, q).response.next != ""
    ensures n < MediaPage(db, floor, q).response.total && MediaPage(db, floor, q).response.next == OffsetToken(n)
  {
    n := NextIsOffset(Results(db, floor, q), if q.pageToken == "" then 0 else ScanOffset(q.pageToken),
                      ClampPageSize(q.pageSize));
  }

  lemma MintedOffset(db: Database, floor: seq<int>, q: MediaQuery) returns (n: nat)
    requires Answer(db, floor, q).Page? && Answer(db, floor, q).response.next != ""
    ensures n < Answer(db, floor, q).response.total && Answer(db, floor, q).response.next == OffsetToken(n)
  {
    n := MintedBy(db, floor, q.(mediaTypes := StoreTypes(q.mediaTypes)));
  }

  // ----- the handlers with the cache -----

  /** Every cached page is what the store would answer now to every query with its key. */
  ghost predicate Coherent(db: Database, floor: seq<int>, media: map<string, Entry<Response>>) {
    forall q: MediaQuery :: WellKeyed(q) && Clean(q.mediaTypes) && MediaKey(q) in media ==>
      Answer(db, floor, q) == Page(media[MediaKey(q)].resp)
  }

  lemma CoherentAfterSet(db: Database, floor: seq<int>, media: map<string, Entry<Response>>, q: MediaQuery,
                         e: Entry<Response>, pruneAt: int, media': map<string, Entry<Response>>)
    requires Coherent(db, floor, media) && WellKeyed(q) && Clean(q.mediaTypes)
    requires Answer(db, floor, q) == Page(e.resp) && Stored(media, MediaKey(q), e, MEDIA_CAP, pruneAt, media')
    ensures Coherent(db, floor, media')
  {
    forall p: MediaQuery | WellKeyed(p) && Clean(p.mediaTypes) && MediaKey(p) in media'
      ensures Answer(db, floor, p) == Page(media'[MediaKey(p)].resp)
    {
      if MediaKey(p) == MediaKey(q) {
        MediaKeyCanonical(p, q);
        AnswerEquivalent(db, floor, p, q);
      }
    }
  }

  /** What a miss does to the cache, and what it answers. */
  ghost predicate Fills(mac: Mac, secret: string, key: string, reply: Reply, ttl: int, storeAt: int, pruneAt: int,
                        media: map<string, Entry<Response>>, filters: map<string, Entry<Filters>>, out: Outcome,
                        media': map<string, Entry<Response>>, filters': map<string, Entry<Filters>>) {
    match reply
    case QueryError => out == Failed && media' == media && filters' == filters
    case Page(response) =>
      var e := Entry(storeAt + ttl, response);
      && out == Sign(mac, secret, response)
      && Stored(media, key, e, MEDIA_CAP, pruneAt, media')
      && Sibling(|media[key := e]| > MEDIA_CAP, filters, FILTERS_CAP, pruneAt, filters')
  }

  /** What one direct request does to the cache and what it answers; `reply` is what the store says if asked. */
  ghost predicate MediaStep(mac: Mac, secret: string, key: string, reply: Reply, ttl: int,
                            now: int, storeAt: int, pruneAt: int,
                            media: map<string, Entry<Response>>, filters: map<string, Entry<Filters>>, out: Outcome,
                            media': map<string, Entry<Response>>, filters': map<string, Entry<Filters>>) {
    match Lookup(media, key, now)
    case Some(response) => out == Sign(mac, secret, response) && media' == media && filters' == filters
    case None =>
      Fills(mac, secret, key, reply, ttl, storeAt, pruneAt, AfterGet(media, key, now), filters, out, media', filters')
  }

  /** While the store does not change and no key is ambiguous, the cache is invisible: the reply is the uncached one,
      and the cache stays coherent. */
  lemma CacheInvisible(mac: Mac, secret: string, db: Database, floor: seq<int>, ttl: int, q: MediaQuery,
                       now: int, storeAt: int, pruneAt: int,
                       media: map<string, Entry<Response>>, filters: map<string, Entry<Filters>>, out: Outcome,
                       media': map<string, Entry<Response>>, filters': map<string, Entry<Filters>>)
    requires MediaStep(mac, secret, MediaKey(q), Answer(db, floor, q), ttl, now, storeAt, pruneAt, media, filters, out,
                       media', filters')
    requires Coherent(db, floor, media) && WellKeyed(q) && Clean(q.mediaTypes)
    ensures out == Reported(mac, secret, Answer(db, floor, q)) && Coherent(db, floor, media')
  {
    var key := MediaKey(q);
    var between := AfterGet(media, key, now);
    assert Coherent(db, floor, between);
    if Lookup(media, key, now).None? && Answer(db, floor, q).Page? {
      CoherentAfterSet(db, floor, between, q, Entry(storeAt + ttl, Answer(db, floor, q).response), pruneAt, media');
    }
  }

  /** The part after validation: get, query, set, sign. */
  method ServeMedia(mac: Mac, secret: string, db: Database, floor: PublicFloor, cache: CatalogCache<Response, Filters>,
                    q: MediaQuery, now: int, storeAt: int, pruneAt: int) returns (out: Outcome)
    modifies cache
    ensures MediaStep(mac, secret, MediaKey(q), Answer(db, floor.publicLibraryIDs, q), cache.ttl, now, storeAt, pruneAt,
                      old(cache.media), old(cache.filters), out, cache.media, cache.filters)
  {
    var key := MediaKey(q);
    MediaKeyNonEmpty(q);
    var hit := cache.GetMedia(key, now);
    if hit.Some? {
      return Sign(mac, secret, hit.value);
    }
    var storeTypes := ComputeStoreTypes(q.mediaTypes);
    var reply := ComputeCatalogMedia(db, floor, q.(mediaTypes := storeTypes));
    out := FillMedia(mac, secret, cache, key, reply, storeAt, pruneAt);
  }

  /** After a miss: set and sign. */
  method FillMedia(mac: Mac, secret: string, cache: CatalogCache<Response, Filters>, key: string, reply: Reply,
                   storeAt: int, pruneAt: int) returns (out: Outcome)
    modifies cache
    ensures key != "" ==> Fills(mac, secret, key, reply, cache.ttl, storeAt, pruneAt,
                                old(cache.media), old(cache.filters), out, cache.media, cache.filters)
  {
    if reply.QueryError? {
      return Failed;
    }
    cache.SetMedia(key, Some(reply.response), storeAt, pruneAt);
    return Sign(mac, secret, reply.response);
  }

  /** The handler: over a coherent cache its reply is the uncached one. */
  method HCatalogMedia(mac: Mac, secret: string, claims: Claims, db: Database, floor: PublicFloor,
                       cache: CatalogCache<Response, Filters>, r: Request, now: int, storeAt: int, pruneAt: int)
    returns (out: Outcome)
    modifies cache
    ensures var v := Validate(mac, secret, claims, r);
            if v.Refused? || !Direct(v.query.mediaTypes)
            then out == Handle(mac, secret, claims, db, floor.publicLibraryIDs, r)
                 && cache.media == old(cache.media) && cache.filters == old(cache.filters)
            else MediaStep(mac, secret, MediaKey(v.query), Answer(db, floor.publicLibraryIDs, v.query), cache.ttl,
                           now, storeAt, pruneAt,
                           old(cache.media), old(cache.filters), out, cache.media, cache.filters)
    ensures var v := Validate(mac, secret, claims, r);
            Coherent(db, floor.publicLibraryIDs, old(cache.media)) && (v.Accepted? ==> WellKeyed(v.query)) ==>
              && out == Handle(mac, secret, claims, db, floor.publicLibraryIDs, r)
              && Coherent(db, floor.publicLibraryIDs, cache.media)
  {
    var mediaTypes, typesOK := ComputeMergeMediaTypes(claims.mediaTypes, r.mediaTypes);
    if !typesOK {
      return Rejected(InvalidMediaType);
    }
    var libraryIDs, librariesOK := ComputeMergeLibraryIDs(claims.libraryIDs, r.libraryIDs);
    if !librariesOK {
      return Rejected(InvalidLibrary);
    }
    var verified := VerifyPageToken(mac, secret, r.pageToken);
    if !verified.Inner? {
      return Rejected(InvalidPageToken);
    }
    var q := MediaQuery(libraryIDs, mediaTypes, TrimSpace(r.query), TrimSpace(r.genre),
                        BoundedInt(r.yearMin, 0, 0, 9999), BoundedInt(r.yearMax, 0, 0, 9999),
                        DefaultString(r.sort, "title"), r.desc == "true",
                        BoundedInt(r.pageSize, 48, 1, 100), verified.cursor);
    if !Direct(mediaTypes) {
      return Elsewhere;
    }
    AcceptedBounds(mac, secret, claims, r);
    ghost var media, filters := cache.media, cache.filters;
    out := ServeMedia(mac, secret, db, floor, cache, q, now, storeAt, pruneAt);
    if Coherent(db, floor.publicLibraryIDs, media) && WellKeyed(q) {
      CacheInvisible(mac, secret, db, floor.publicLibraryIDs, cache.ttl, q, now, storeAt, pruneAt,
                     media, filters, out, cache.media, cache.filters);
    }
  }

  /** hCatalogFilters: the same shape, without cursor and without a test of the types. */
  method HCatalogFilters(claims: Claims, db: Database, floor: PublicFloor, cache: CatalogCache<Response, Filters>,
                         libraryIDs: seq<string>, mediaTypes: seq<string>, now: int, storeAt: int, pruneAt: int)
    returns (out: FiltersOutcome)
    modifies cache
    ensures match (MergeMediaTypes(claims.mediaTypes, mediaTypes), MergeLibraryIDs(claims.libraryIDs, libraryIDs))
            case (None, _) => out == FiltersRejected(InvalidMediaType)
                              && cache.media == old(cache.media) && cache.filters == old(cache.filters)
            case (_, None) => out == FiltersRejected(InvalidLibrary)
                              && cache.media == old(cache.media) && cache.filters == old(cache.filters)
            case (Some(types), Some(libraries)) =>
              FiltersStep(db, floor.publicLibraryIDs, cache.ttl, libraries, types, now, storeAt, pruneAt,
                          old(cache.media), old(cache.filters), out, cache.media, cache.filters)
  {
    var types, typesOK := ComputeMergeMediaTypes(claims.mediaTypes, mediaTypes);
    if !typesOK {
      return FiltersRejected(InvalidMediaType);
    }
    var libraries, librariesOK := ComputeMergeLibraryIDs(claims.libraryIDs, libraryIDs);
    if !librariesOK {
      return FiltersRejected(InvalidLibrary);
    }
    out := ServeFilters(db, floor, cache, libraries, types, now, storeAt, pruneAt);
  }

  method ServeFilters(db: Database, floor: PublicFloor, cache: CatalogCache<Response, Filters>,
                      libraries: seq<string>, types: seq<string>, now: int, storeAt: int, pruneAt: int)
    returns (out: FiltersOutcome)
    modifies cache
    ensures FiltersStep(db, floor.publicLibraryIDs, cache.ttl, libraries, types, now, storeAt, pruneAt,
                        old(cache.media), old(cache.filters), out, cache.media, cache.filters)
  {
    var key := FiltersKey(libraries, types);
    FiltersKeyNonEmpty(libraries, types);
    var hit := cache.GetFilters(key, now);
    if hit.Some? {
      return FiltersServed(hit.value);
    }
    var storeTypes := ComputeStoreTypes(types);
    var filters := ComputeCatalogFilters(db, floor, libraries, storeTypes);
    cache.SetFilters(key, Some(filters), storeAt, pruneAt);
    return FiltersServed(filters);
  }

  ghost predicate FiltersStep(db: Database, floor: seq<int>, ttl: int, libraries: seq<string>, types: seq<string>,
                              now: int, storeAt: int, pruneAt: int,
                              media: map<string, Entry<Response>>, filters: map<string, Entry<Filters>>,
                              out: FiltersOutcome,
                              media': map<string, Entry<Response>>, filters': map<string, Entry<Filters>>) {
    var key := FiltersKey(libraries, types);
    match Lookup(filters, key, now)
    case Some(found) => out == FiltersServed(found) && media' == media && filters' == filters
    case None =>
      var answer := FiltersAnswer(db, floor, libraries, types);
      var left, e := AfterGet(filters, key, now), Entry(storeAt + ttl, answer);
      && out == FiltersServed(answer)
      && Stored(left, key, e, FILTERS_CAP, pruneAt, filters')
      && Sibling(|left[key := e]| > FILTERS_CAP, media, MEDIA_CAP, pruneAt, media')
  }
}
