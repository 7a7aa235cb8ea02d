/** The shared cache under every interleaving of requests with each other and with changes of the store: when a hit is
    what the store once said to the same query, and how long after a change it can still be. */
module CacheAgreement {
  import opened Text
  import opened LibraryScope
  import opened MediaTypes
  import opened CacheKey
  import opened CatalogCache
  import opened PageToken
  import opened CatalogMedia
  import opened CatalogFilters
  import opened CatalogHandler

  /** What the store says to each query at some moment. */
  datatype World = World(media: MediaQuery -> Reply, filters: (seq<string>, seq<string>) -> Filters)

  /** The store over its tables and the allowlist in memory. */
  function WorldOf(db: Database, floor: seq<int>): World {
    World(q => Answer(db, floor, q), (libs, types) => FiltersAnswer(db, floor, libs, types))
  }

  /** Equivalent queries are answered alike. */
  ghost predicate Fair(w: World) {
    && (forall a, b :: Equivalent(a, b) && Clean(a.mediaTypes) && Clean(b.mediaTypes) ==> w.media(a) == w.media(b))
    && (forall libs, types, libs', types' ::
          SameList(libs, libs') && SameList(types, types') && Clean(types) && Clean(types')
          ==> w.filters(libs, types) == w.filters(libs', types'))
  }

  lemma StoreIsFair(db: Database, floor: seq<int>)
    ensures Fair(WorldOf(db, floor))
  {
    var w := WorldOf(db, floor);
    forall a, b | Equivalent(a, b) && Clean(a.mediaTypes) && Clean(b.mediaTypes) ensures w.media(a) == w.media(b) {
      AnswerEquivalent(db, floor, a, b);
    }
    forall libs, types, libs', types'
      | SameList(libs, libs') && SameList(types, types') && Clean(types) && Clean(types')
      ensures w.filters(libs, types) == w.filters(libs', types')
    {
      FiltersAnswerEquivalent(db, floor, libs, types, libs', types');
    }
  }

  type MediaMap = map<string, Entry<Response>>
  type FiltersMap = map<string, Entry<Filters>>

  /** One step of one handler, or a change of the world, with the clock at that moment.  Handlers get, ask the store
      and set as separate steps, so other steps may come between.  A set names the ask whose answer it stores and
      carries the maps it leaves, since eviction may choose among entries that expire together. */
  datatype Event =
    | Change(db: Database, floor: seq<int>, now: int)
    | GetMedia(query: MediaQuery, now: int)
    | AskMedia(query: MediaQuery, now: int)
    | SetMedia(ask: nat, now: int, pruneAt: int, media: MediaMap, filters: FiltersMap)
    | GetFilters(libraryIDs: seq<string>, mediaTypes: seq<string>, now: int)
    | AskFilters(libraryIDs: seq<string>, mediaTypes: seq<string>, now: int)
    | SetFilters(ask: nat, now: int, pruneAt: int, media: MediaMap, filters: FiltersMap)

  function Init(es: seq<Event>): seq<Event>
    requires es != []
  {
    es[..|es| - 1]
  }

  function Last(es: seq<Event>): Event
    requires es != []
  {
    es[|es| - 1]
  }

  function WorldAfter(w: World, es: seq<Event>): World {
    if es == [] then w else if Last(es).Change? then WorldOf(Last(es).db, Last(es).floor) else WorldAfter(w, Init(es))
  }

  lemma {:induction false} AlwaysFair(w: World, es: seq<Event>)
    requires Fair(w)
    ensures Fair(WorldAfter(w, es))
  {
    if es != [] {
      if Last(es).Change? {
        StoreIsFair(Last(es).db, Last(es).floor);
      } else {
        AlwaysFair(w, Init(es));
      }
    }
  }

  function MediaAfter(es: seq<Event>): MediaMap {
    if es == [] then map[]
    else
      match Last(es)
      case GetMedia(q, now) => AfterGet(MediaAfter(Init(es)), MediaKey(q), now)
      case SetMedia(_, _, _, media, _) => media
      case SetFilters(_, _, _, media, _) => media
      case _ => MediaAfter(Init(es))
  }

  function FiltersAfter(es: seq<Event>): FiltersMap {
    if es == [] then map[]
    else
      match Last(es)
      case GetFilters(libs, types, now) => AfterGet(FiltersAfter(Init(es)), FiltersKey(libs, types), now)
      case SetMedia(_, _, _, _, filters) => filters
      case SetFilters(_, _, _, _, filters) => filters
      case _ => FiltersAfter(Init(es))
  }

  /** What the store answered to the ask at position i. */
  function MediaReply(w: World, es: seq<Event>, i: nat): Reply
    requires i < |es| && es[i].AskMedia?
  {
    WorldAfter(w, es[..i]).media(es[i].query)
  }

  function FiltersReply(w: World, es: seq<Event>, i: nat): Filters
    requires i < |es| && es[i].AskFilters?
  {
    WorldAfter(w, es[..i]).filters(es[i].libraryIDs, es[i].mediaTypes)
  }

  /** The key and entry the set at position k writes. */
  ghost predicate WroteMedia(w: World, ttl: int, es: seq<Event>, k: nat, key: string, e: Entry<Response>) {
    && k < |es| && es[k].SetMedia? && es[k].ask < k && es[es[k].ask].AskMedia?
    && MediaReply(w, es, es[k].ask) == Page(e.resp)
    && key == MediaKey(es[es[k].ask].query) && e.expires == es[k].now + ttl
  }

  ghost predicate WroteFilters(w: World, ttl: int, es: seq<Event>, k: nat, key: string, e: Entry<Filters>) {
    && k < |es| && es[k].SetFilters? && es[k].ask < k && es[es[k].ask].AskFilters?
    && FiltersReply(w, es, es[k].ask) == e.resp
    && key == FiltersKey(es[es[k].ask].libraryIDs, es[es[k].ask].mediaTypes) && e.expires == es[k].now + ttl
  }

  /** The last event does what the cache's methods promise. */
  ghost predicate StepAllowed(w: World, ttl: int, es: seq<Event>)
    requires es != []
  {
    var m, f, k := MediaAfter(Init(es)), FiltersAfter(Init(es)), (|es| - 1) as nat;
    match Last(es)
    case SetMedia(ask, now, pruneAt, m', f') =>
      exists key, e :: WroteMedia(w, ttl, es, k, key, e) && Stored(m, key, e, MEDIA_CAP, pruneAt, m')
                       && Sibling(|m[key := e]| > MEDIA_CAP, f, FILTERS_CAP, pruneAt, f')
    case SetFilters(ask, now, pruneAt, m', f') =>
      exists key, e :: WroteFilters(w, ttl, es, k, key, e) && Stored(f, key, e, FILTERS_CAP, pruneAt, f')
                       && Sibling(|f[key := e]| > FILTERS_CAP, m, MEDIA_CAP, pruneAt, m')
    case _ => true
  }

  ghost predicate IsRun(w: World, ttl: int, es: seq<Event>) {
    es == [] || (IsRun(w, ttl, Init(es)) && StepAllowed(w, ttl, es))
  }

  /** Every query of the run is free of commas and NULs where the keys need it, with types as the callers clean them. */
  ghost predicate PlainRun(es: seq<Event>) {
    forall e :: e in es ==>
      match e
      case GetMedia(q, _) => WellKeyed(q) && Clean(q.mediaTypes)
      case AskMedia(q, _) => WellKeyed(q) && Clean(q.mediaTypes)
      case GetFilters(libs, types, _) => Plain(libs) && Plain(types) && Clean(types)
      case AskFilters(libs, types, _) => Plain(libs) && Plain(types) && Clean(types)
      case _ => true
  }

  // ----- the handlers make such runs -----

  lemma RunSnoc(w: World, ttl: int, es: seq<Event>, e: Event) returns (es': seq<Event>)
    requires IsRun(w, ttl, es) && !e.SetMedia? && !e.SetFilters?
    ensures es' == es + [e] && IsRun(w, ttl, es') && Init(es') == es && Last(es') == e
  {
    es' := es + [e];
    assert Init(es') == es;
  }

  lemma GetExtends(w: World, ttl: int, es: seq<Event>, q: MediaQuery, now: int) returns (es': seq<Event>)
    requires IsRun(w, ttl, es)
    ensures es' == es + [GetMedia(q, now)] && IsRun(w, ttl, es') && WorldAfter(w, es') == WorldAfter(w, es)
    ensures MediaAfter(es') == AfterGet(MediaAfter(es), MediaKey(q), now) && FiltersAfter(es') == FiltersAfter(es)
  {
    es' := RunSnoc(w, ttl, es, GetMedia(q, now));
  }

  lemma AskExtends(w: World, ttl: int, es: seq<Event>, q: MediaQuery, now: int) returns (es': seq<Event>)
    requires IsRun(w, ttl, es)
    ensures es' == es + [AskMedia(q, now)] && IsRun(w, ttl, es')
            && MediaReply(w, es', |es|) == WorldAfter(w, es).media(q)
    ensures MediaAfter(es') == MediaAfter(es) && FiltersAfter(es') == FiltersAfter(es)
  {
    es' := RunSnoc(w, ttl, es, AskMedia(q, now));
    assert es'[..|es|] == es;
  }

  lemma SetExtends(w: World, ttl: int, es: seq<Event>, ask: nat, now: int, pruneAt: int, e: Entry<Response>,
                   m': MediaMap, f': FiltersMap) returns (es': seq<Event>)
    requires IsRun(w, ttl, es) && ask < |es| && es[ask].AskMedia? && MediaReply(w, es, ask) == Page(e.resp)
    requires e.expires == now + ttl && Stored(MediaAfter(es), MediaKey(es[ask].query), e, MEDIA_CAP, pruneAt, m')
    requires Sibling(|MediaAfter(es)[MediaKey(es[ask].query) := e]| > MEDIA_CAP,
                     FiltersAfter(es), FILTERS_CAP, pruneAt, f')
    ensures es <= es' && IsRun(w, ttl, es') && MediaAfter(es') == m' && FiltersAfter(es') == f'
  {
    es' := es + [SetMedia(ask, now, pruneAt, m', f')];
    assert Init(es') == es && es'[..ask] == es[..ask] && es'[ask] == es[ask];
    assert WroteMedia(w, ttl, es', |es|, MediaKey(es[ask].query), e);
    assert StepAllowed(w, ttl, es');
  }

  /** One media request, whatever it finds, extends a run by its get, its ask and its set. */
  lemma MediaStepIsRun(w: World, ttl: int, es: seq<Event>, mac: Mac, secret: string, q: MediaQuery, reply: Reply,
                       now: int, askAt: int, storeAt: int, pruneAt: int, out: Outcome, m': MediaMap, f': FiltersMap)
    returns (es': seq<Event>)
    requires IsRun(w, ttl, es) && reply == WorldAfter(w, es).media(q)
    requires MediaStep(mac, secret, MediaKey(q), reply, ttl, now, storeAt, pruneAt,
                       MediaAfter(es), FiltersAfter(es), out, m', f')
    ensures es <= es' && IsRun(w, ttl, es') && MediaAfter(es') == m' && FiltersAfter(es') == f'
  {
    var got := GetExtends(w, ttl, es, q, now);
    if Lookup(MediaAfter(es), MediaKey(q), now).Some? {
      return got;
    }
    var asked := AskExtends(w, ttl, got, q, askAt);
    if reply.QueryError? {
      return asked;
    }
    es' := SetExtends(w, ttl, asked, |got|, storeAt, pruneAt, Entry(storeAt + ttl, reply.response), m', f');
  }

  // ----- every entry was written -----

  predicate Below<V(==)>(m': map<string, V>, m: map<string, V>) {
    forall k :: k in m' ==> k in m && m'[k] == m[k]
  }

  lemma StoredBelow<V>(m: map<string, Entry<V>>, key: string, e: Entry<V>, cap: nat, pruneAt: int,
                       m': map<string, Entry<V>>)
    requires Stored(m, key, e, cap, pruneAt, m')
    ensures Below(m', m[key := e])
  {
  }

  lemma SiblingBelow<V>(over: bool, m: map<string, Entry<V>>, cap: nat, pruneAt: int, m': map<string, Entry<V>>)
    requires Sibling(over, m, cap, pruneAt, m')
    ensures Below(m', m)
  {
  }

  lemma WroteMediaStays(w: World, ttl: int, es: seq<Event>, k: nat, key: string, e: Entry<Response>)
    requires es != [] && WroteMedia(w, ttl, Init(es), k, key, e)
    ensures WroteMedia(w, ttl, es, k, key, e)
  {
    var ask := es[k].ask;
    assert Init(es)[..ask] == es[..ask] && Init(es)[ask] == es[ask] && Init(es)[k] == es[k];
  }

  lemma WroteFiltersStays(w: World, ttl: int, es: seq<Event>, k: nat, key: string, e: Entry<Filters>)
    requires es != [] && WroteFilters(w, ttl, Init(es), k, key, e)
    ensures WroteFilters(w, ttl, es, k, key, e)
  {
    var ask := es[k].ask;
    assert Init(es)[..ask] == es[..ask] && Init(es)[ask] == es[ask] && Init(es)[k] == es[k];
  }

  lemma {:induction false} MediaWritten(w: World, ttl: int, es: seq<Event>, key: string) returns (k: nat)
    requires IsRun(w, ttl, es) && key in MediaAfter(es)
    ensures WroteMedia(w, ttl, es, k, key, MediaAfter(es)[key])
    decreases |es|
  {
    var last, m := Last(es), MediaAfter(Init(es));
    if last.SetMedia? {
      var key', e :| WroteMedia(w, ttl, es, |es| - 1, key', e)
        && Stored(m, key', e, MEDIA_CAP, last.pruneAt, last.media);
      StoredBelow(m, key', e, MEDIA_CAP, last.pruneAt, last.media);
      if key == key' {
        return |es| - 1;
      }
    } else if last.SetFilters? {
      var f := FiltersAfter(Init(es));
      var key', e :| WroteFilters(w, ttl, es, |es| - 1, key', e)
                     && Sibling(|f[key' := e]| > FILTERS_CAP, m, MEDIA_CAP, last.pruneAt, last.media);
      SiblingBelow(|f[key' := e]| > FILTERS_CAP, m, MEDIA_CAP, last.pruneAt, last.media);
    }
    k := MediaWritten(w, ttl, Init(es), key);
    WroteMediaStays(w, ttl, es, k, key, MediaAfter(es)[key]);
  }

  lemma {:induction false} FiltersWritten(w: World, ttl: int, es: seq<Event>, key: string) returns (k: nat)
    requires IsRun(w, ttl, es) && key in FiltersAfter(es)
    ensures WroteFilters(w, ttl, es, k, key, FiltersAfter(es)[key])
    decreases |es|
  {
    var last, f := Last(es), FiltersAfter(Init(es));
    if last.SetFilters? {
      var key', e :| WroteFilters(w, ttl, es, |es| - 1, key', e)
        && Stored(f, key', e, FILTERS_CAP, last.pruneAt, last.filters);
      StoredBelow(f, key', e, FILTERS_CAP, last.pruneAt, last.filters);
      if key == key' {
        return |es| - 1;
      }
    } else if last.SetMedia? {
      var m := MediaAfter(Init(es));
      var key', e :| WroteMedia(w, ttl, es, |es| - 1, key', e)
                     && Sibling(|m[key' := e]| > MEDIA_CAP, f, FILTERS_CAP, last.pruneAt, last.filters);
      SiblingBelow(|m[key' := e]| > MEDIA_CAP, f, FILTERS_CAP, last.pruneAt, last.filters);
    }
    k := FiltersWritten(w, ttl, Init(es), key);
    WroteFiltersStays(w, ttl, es, k, key, FiltersAfter(es)[key]);
  }

  // ----- agreement -----

  /** A media hit at `now` agrees: it is what the store answered to this query at the moment some handler asked it, and
      that handler stored it at most `ttl` before. */
  ghost predicate MediaAgrees(w: World, ttl: int, es: seq<Event>, q: MediaQuery, now: int, resp: Response) {
    exists stored: nat :: MediaSource(w, ttl, es, q, now, resp, stored)
  }

  ghost predicate MediaSource(w: World, ttl: int, es: seq<Event>, q: MediaQuery, now: int, resp: Response,
                              stored: nat) {
    && stored < |es| && es[stored].SetMedia? && es[stored].ask < stored && es[es[stored].ask].AskMedia?
    && now <= es[stored].now + ttl
    && WorldAfter(w, es[..es[stored].ask]).media(q) == Page(resp)
  }

  ghost predicate FiltersAgree(w: World, ttl: int, es: seq<Event>, libs: seq<string>, types: seq<string>, now: int,
                               resp: Filters) {
    exists stored: nat :: FiltersSource(w, ttl, es, libs, types, now, resp, stored)
  }

  ghost predicate FiltersSource(w: World, ttl: int, es: seq<Event>, libs: seq<string>, types: seq<string>, now: int,
                                resp: Filters, stored: nat) {
    && stored < |es| && es[stored].SetFilters? && es[stored].ask < stored && es[es[stored].ask].AskFilters?
    && now <= es[stored].now + ttl
    && WorldAfter(w, es[..es[stored].ask]).filters(libs, types) == resp
  }

  /** Whatever is in the cache under the key of `q` was asked by a query with that key. */
  lemma MediaHitFrom(w: World, ttl: int, es: seq<Event>, q: MediaQuery, now: int) returns (stored: nat)
    requires Fair(w) && IsRun(w, ttl, es) && Lookup(MediaAfter(es), MediaKey(q), now).Some?
    ensures stored < |es| && es[stored].SetMedia? && es[stored].ask < stored && es[es[stored].ask].AskMedia?
    ensures MediaKey(es[es[stored].ask].query) == MediaKey(q)
    ensures Equivalent(es[es[stored].ask].query, q) && Clean(q.mediaTypes) && Clean(es[es[stored].ask].query.mediaTypes)
            ==> MediaSource(w, ttl, es, q, now, Lookup(MediaAfter(es), MediaKey(q), now).value, stored)
  {
    stored := MediaWritten(w, ttl, es, MediaKey(q));
    AlwaysFair(w, es[..es[stored].ask]);
  }

  lemma FiltersHitFrom(w: World, ttl: int, es: seq<Event>, libs: seq<string>, types: seq<string>, now: int)
    returns (stored: nat)
    requires Fair(w) && IsRun(w, ttl, es) && Lookup(FiltersAfter(es), FiltersKey(libs, types), now).Some?
    ensures stored < |es| && es[stored].SetFilters? && es[stored].ask < stored && es[es[stored].ask].AskFilters?
    ensures var e := es[es[stored].ask];
            && FiltersKey(e.libraryIDs, e.mediaTypes) == FiltersKey(libs, types)
            && (SameList(e.libraryIDs, libs) && SameList(e.mediaTypes, types) && Clean(types) && Clean(e.mediaTypes)
                ==> FiltersSource(w, ttl, es, libs, types, now,
                                  Lookup(FiltersAfter(es), FiltersKey(libs, types), now).value, stored))
  {
    stored := FiltersWritten(w, ttl, es, FiltersKey(libs, types));
    AlwaysFair(w, es[..es[stored].ask]);
  }

  /** For any query: in every run of plain queries over a store that answers fairly, as the real one does, a media hit
      agrees, and the query that was asked is equivalent. */
  lemma MediaHitAgrees(w: World, ttl: int, es: seq<Event>, q: MediaQuery, now: int) returns (stored: nat)
    requires Fair(w) && IsRun(w, ttl, es) && PlainRun(es) && WellKeyed(q) && Clean(q.mediaTypes)
    requires Lookup(MediaAfter(es), MediaKey(q), now).Some?
    ensures MediaSource(w, ttl, es, q, now, Lookup(MediaAfter(es), MediaKey(q), now).value, stored)
    ensures Equivalent(es[es[stored].ask].query, q)
  {
    stored := MediaHitFrom(w, ttl, es, q, now);
    assert es[es[stored].ask] in es;
    MediaKeyCanonical(es[es[stored].ask].query, q);
  }

  lemma FiltersHitAgrees(w: World, ttl: int, es: seq<Event>, libs: seq<string>, types: seq<string>, now: int)
    returns (stored: nat)
    requires Fair(w) && IsRun(w, ttl, es) && PlainRun(es) && Plain(libs) && Plain(types) && Clean(types)
    requires Lookup(FiltersAfter(es), FiltersKey(libs, types), now).Some?
    ensures FiltersSource(w, ttl, es, libs, types, now,
                          Lookup(FiltersAfter(es), FiltersKey(libs, types), now).value, stored)
    ensures SameList(es[es[stored].ask].libraryIDs, libs) && SameList(es[es[stored].ask].mediaTypes, types)
  {
    stored := FiltersHitFrom(w, ttl, es, libs, types, now);
    var e := es[es[stored].ask];
    assert e in es;
    FiltersKeyCanonical(e.libraryIDs, e.mediaTypes, libs, types);
  }

  // ----- exactly which queries agree, whatever the others ask -----

  /** Every ask of the run has trimmed, non-blank types, without commas unless they are allowed; everything else about
      the queries is arbitrary.  Validation leaves types free of commas; the catalog page asks with the types of its
      token, which minting only trims. */
  ghost predicate TypedRun(es: seq<Event>, commas: bool) {
    forall e :: e in es ==>
      && (e.AskMedia? ==> Clean(e.query.mediaTypes) && Typed(e.query.mediaTypes, commas))
      && (e.AskFilters? ==> Clean(e.mediaTypes) && Typed(e.mediaTypes, commas))
  }

  lemma WirePlain(types: seq<string>)
    requires OnWire(types)
    ensures Clean(types) && Plain(types)
  {
    OnWireClean(types);
    assert forall w :: w in WIRE_TYPES ==> COMMA !in w && NUL !in w;
  }

  /** A look-up of `q` after a run over a fair store, whatever else was asked, agrees if it hits. */
  ghost predicate MediaAgreesIn(w: World, ttl: int, es: seq<Event>, q: MediaQuery, now: int, commas: bool) {
    var found := Lookup(MediaAfter(es), MediaKey(q), now);
    Fair(w) && IsRun(w, ttl, es) && TypedRun(es, commas) && found.Some? ==> MediaAgrees(w, ttl, es, q, now, found.value)
  }

  ghost predicate MediaHitsAgree(q: MediaQuery, commas: bool) {
    forall w, ttl, es, now :: MediaAgreesIn(w, ttl, es, q, now, commas)
  }

  ghost predicate FiltersAgreeIn(w: World, ttl: int, es: seq<Event>, libs: seq<string>, types: seq<string>, now: int,
                                 commas: bool) {
    var found := Lookup(FiltersAfter(es), FiltersKey(libs, types), now);
    Fair(w) && IsRun(w, ttl, es) && TypedRun(es, commas) && found.Some?
    ==> FiltersAgree(w, ttl, es, libs, types, now, found.value)
  }

  ghost predicate FiltersHitsAgree(libs: seq<string>, types: seq<string>, commas: bool) {
    forall w, ttl, es, now :: FiltersAgreeIn(w, ttl, es, libs, types, now, commas)
  }

  lemma OwnedAgreesIn(w: World, ttl: int, es: seq<Event>, q: MediaQuery, now: int, commas: bool)
    requires NulFree(q) && Clean(q.mediaTypes) && Typed(q.mediaTypes, commas)
    requires OwnsKey(q.libraryIDs) && (commas ==> OwnsKey(q.mediaTypes))
    ensures MediaAgreesIn(w, ttl, es, q, now, commas)
  {
    if Fair(w) && IsRun(w, ttl, es) && TypedRun(es, commas) && Lookup(MediaAfter(es), MediaKey(q), now).Some? {
      var stored := MediaHitFrom(w, ttl, es, q, now);
      var asked := es[es[stored].ask];
      assert asked in es;
      OwnedKey(q, asked.query, commas);
    }
  }

  lemma OwnedFiltersAgreeIn(w: World, ttl: int, es: seq<Event>, libs: seq<string>, types: seq<string>, now: int,
                            commas: bool)
    requires FreeOf(libs, NUL) && FreeOf(types, NUL) && Clean(types) && Typed(types, commas)
    requires OwnsKey(libs) && (commas ==> OwnsKey(types))
    ensures FiltersAgreeIn(w, ttl, es, libs, types, now, commas)
  {
    if Fair(w) && IsRun(w, ttl, es) && TypedRun(es, commas)
      && Lookup(FiltersAfter(es), FiltersKey(libs, types), now).Some? {
      var stored := FiltersHitFrom(w, ttl, es, libs, types, now);
      var asked := es[es[stored].ask];
      assert asked in es;
      OwnedFiltersKey(libs, types, asked.libraryIDs, asked.mediaTypes, commas);
    }
  }

  /** A fair store that tells the queries equivalent to one from all others. */
  ghost function Telling(q: MediaQuery, libs: seq<string>, types: seq<string>): World {
    World(x => if Equivalent(x, q) then Page(Response([], "", 0)) else Page(Response([], "", 1)),
          (ls, ts) => if SameList(ls, libs) && SameList(ts, types) then Filters([], [], []) else Filters([], [1], []))
  }

  lemma TellingFair(q: MediaQuery, libs: seq<string>, types: seq<string>)
    ensures Fair(Telling(q, libs, types))
  {
    var w := Telling(q, libs, types);
    forall a, b | Equivalent(a, b) ensures w.media(a) == w.media(b) {
      assert Equivalent(a, q) <==> Equivalent(b, q);
    }
    forall ls, ts, ls', ts' | SameList(ls, ls') && SameList(ts, ts') ensures w.filters(ls, ts) == w.filters(ls', ts') {
      assert SameList(ls, libs) && SameList(ts, types) <==> SameList(ls', libs) && SameList(ts', types);
    }
  }

  lemma NoMediaSource(w: World, es: seq<Event>, q: MediaQuery, resp: Response)
    requires |es| == 2 && es[0].AskMedia? && w.media(q) != Page(resp)
    ensures !MediaAgrees(w, 0, es, q, 0, resp)
  {
    assert es[..0] == [] && WorldAfter(w, []) == w;
  }

  lemma NoFiltersSource(w: World, es: seq<Event>, libs: seq<string>, types: seq<string>, resp: Filters)
    requires |es| == 2 && es[0].AskFilters? && w.filters(libs, types) != resp
    ensures !FiltersAgree(w, 0, es, libs, types, 0, resp)
  {
    assert es[..0] == [] && WorldAfter(w, []) == w;
  }

  lemma RivalRun(w: World, q: MediaQuery, rival: MediaQuery, resp: Response, commas: bool) returns (es: seq<Event>)
    requires MediaKey(rival) == MediaKey(q) && Clean(rival.mediaTypes) && Typed(rival.mediaTypes, commas)
    requires w.media(rival) == Page(resp) && w.media(q) != Page(resp)
    ensures IsRun(w, 0, es) && TypedRun(es, commas) && Lookup(MediaAfter(es), MediaKey(q), 0) == Some(resp)
    ensures !MediaAgrees(w, 0, es, q, 0, resp)
  {
    es := StoredRun(w, 0, 0, 0, rival, resp);
    NoMediaSource(w, es, q, resp);
  }

  /** A rival with the key of `q` and another answer makes a disagreeing hit. */
  lemma RivalDisagrees(w: World, q: MediaQuery, rival: MediaQuery, resp: Response, commas: bool)
    returns (es: seq<Event>)
    requires Fair(w) && MediaKey(rival) == MediaKey(q) && Clean(rival.mediaTypes) && Typed(rival.mediaTypes, commas)
    requires w.media(rival) == Page(resp) && w.media(q) != Page(resp)
    ensures !MediaAgreesIn(w, 0, es, q, 0, commas)
  {
    es := RivalRun(w, q, rival, resp, commas);
  }

  lemma FiltersRivalRun(w: World, libs: seq<string>, types: seq<string>, libs': seq<string>, types': seq<string>,
                        resp: Filters, commas: bool) returns (es: seq<Event>)
    requires FiltersKey(libs', types') == FiltersKey(libs, types) && Clean(types') && Typed(types', commas)
    requires w.filters(libs', types') == resp && w.filters(libs, types) != resp
    ensures IsRun(w, 0, es) && TypedRun(es, commas)
            && Lookup(FiltersAfter(es), FiltersKey(libs, types), 0) == Some(resp)
    ensures !FiltersAgree(w, 0, es, libs, types, 0, resp)
  {
    es := StoredFiltersRun(w, libs', types', resp);
    NoFiltersSource(w, es, libs, types, resp);
  }

  lemma FiltersRivalDisagrees(w: World, libs: seq<string>, types: seq<string>, libs': seq<string>, types': seq<string>,
                              resp: Filters, commas: bool) returns (es: seq<Event>)
    requires Fair(w) && FiltersKey(libs', types') == FiltersKey(libs, types) && Clean(types') && Typed(types', commas)
    requires w.filters(libs', types') == resp && w.filters(libs, types) != resp
    ensures !FiltersAgreeIn(w, 0, es, libs, types, 0, commas)
  {
    es := FiltersRivalRun(w, libs, types, libs', types', resp, commas);
  }

  lemma TellingTells(q: MediaQuery, rival: MediaQuery)
    requires !Equivalent(q, rival)
    ensures Telling(q, [], []).media(q) == Page(Response([], "", 0))
    ensures Telling(q, [], []).media(rival) == Page(Response([], "", 1))
  {
    assert Equivalent(q, q) && !Equivalent(rival, q);
    assert Telling(q, [], []).media(q) == Page(Response([], "", 0));
  }

  lemma TellingTellsFilters(q: MediaQuery, libs: seq<string>, types: seq<string>, libs': seq<string>,
                            types': seq<string>)
    requires !(SameList(libs, libs') && SameList(types, types'))
    ensures Telling(q, libs, types).filters(libs, types) == Filters([], [], [])
    ensures Telling(q, libs, types).filters(libs', types') == Filters([], [1], [])
  {
    assert SameList(libs, libs) && SameList(types, types) && !(SameList(libs', libs) && SameList(types', types));
    assert Telling(q, libs, types).filters(libs, types) == Filters([], [], []);
  }

  /** Main result.  Over any store that answers equivalent queries alike, a NUL-free query is served only agreeing hits,
      whatever else is asked, exactly when its libraries own their key: it names none, or one whose text does not also
      read as two.  If types with commas are about, its types must do so, too. */
  lemma MediaHitsAgreeExactly(q: MediaQuery, commas: bool)
    requires NulFree(q) && Clean(q.mediaTypes) && Typed(q.mediaTypes, commas)
    ensures MediaHitsAgree(q, commas) <==> OwnsKey(q.libraryIDs) && (commas ==> OwnsKey(q.mediaTypes))
  {
    if OwnsKey(q.libraryIDs) && (commas ==> OwnsKey(q.mediaTypes)) {
      forall w, ttl, es, now ensures MediaAgreesIn(w, ttl, es, q, now, commas) {
        OwnedAgreesIn(w, ttl, es, q, now, commas);
      }
    } else {
      var rival := RivalQuery(q, commas);
      TellingFair(q, [], []);
      TellingTells(q, rival);
      var es := RivalDisagrees(Telling(q, [], []), q, rival, Response([], "", 1), commas);
    }
  }

  lemma FiltersHitsAgreeExactly(libs: seq<string>, types: seq<string>, commas: bool)
    requires FreeOf(libs, NUL) && FreeOf(types, NUL) && Clean(types) && Typed(types, commas)
    ensures FiltersHitsAgree(libs, types, commas) <==> OwnsKey(libs) && (commas ==> OwnsKey(types))
  {
    if OwnsKey(libs) && (commas ==> OwnsKey(types)) {
      forall w, ttl, es, now ensures FiltersAgreeIn(w, ttl, es, libs, types, now, commas) {
        OwnedFiltersAgreeIn(w, ttl, es, libs, types, now, commas);
      }
    } else {
      var q := DemoQuery([]);
      var libs', types' := libs, types;
      if !OwnsKey(libs) {
        libs' := Rival(libs);
      } else {
        types' := Rival(types);
      }
      TellingFair(q, libs, types);
      TellingTellsFilters(q, libs, types, libs', types');
      assert FiltersParts(libs', types') == FiltersParts(libs, types);
      var w, answer := Telling(q, libs, types), Filters([], [1], []);
      var es := FiltersRivalDisagrees(w, libs, types, libs', types', answer, commas);
    }
  }

  // ----- what a hit shows -----

  /** The tables and the allowlist after a run. */
  function TablesAfter(db: Database, floor: seq<int>, es: seq<Event>): (Database, seq<int>) {
    if es == [] then (db, floor)
    else if Last(es).Change? then (Last(es).db, Last(es).floor)
    else TablesAfter(db, floor, Init(es))
  }

  lemma {:induction false} WorldOfTables(db: Database, floor: seq<int>, es: seq<Event>)
    ensures var t := TablesAfter(db, floor, es); WorldAfter(WorldOf(db, floor), es) == WorldOf(t.0, t.1)
  {
    if es != [] && !Last(es).Change? {
      WorldOfTables(db, floor, Init(es));
    }
  }

  /** Every item of an agreeing hit lies in the allowlist in force when the store was asked and, when the claim's
      entries are all numbers, in the claim. */
  lemma HitOnTheFloor(db: Database, floor: seq<int>, ttl: int, es: seq<Event>, q: MediaQuery, now: int, resp: Response,
                      stored: nat, claim: seq<string>, request: seq<string>, item: Item)
    requires MediaSource(WorldOf(db, floor), ttl, es, q, now, resp, stored)
    requires MergeLibraryIDs(claim, request) == Some(q.libraryIDs) && item in resp.items
    ensures item.library in TablesAfter(db, floor, es[..es[stored].ask]).1
    ensures CleanList(claim) != [] && (forall x :: x in CleanList(claim) ==> PositiveId(x).Some?)
            ==> item.library in CleanIDs(claim)
  {
    var t, types := TablesAfter(db, floor, es[..es[stored].ask]), StoreTypes(q.mediaTypes);
    WorldOfTables(db, floor, es[..es[stored].ask]);
    assert Answer(t.0, t.1, q) == Page(resp);
    PagesStayOnTheFloor(t.0, t.1, q.(mediaTypes := types), item);
    ParsedClaimBoundsItem(Claims("", 0, claim, []), t.0, t.1, request, q.(mediaTypes := types), item);
  }

  // ----- how long a hit can lag behind a change -----

  function TimeOf(e: Event): int { e.now }

  ghost predicate Forward(es: seq<Event>) {
    forall i, j :: 0 <= i < j < |es| ==> TimeOf(es[i]) <= TimeOf(es[j])
  }

  /** No handler takes longer than `d` from asking the store to storing the answer. */
  ghost predicate Prompt(es: seq<Event>, d: int) {
    forall k :: 0 <= k < |es| && es[k].SetMedia? && es[k].ask < k ==> es[k].now - TimeOf(es[es[k].ask]) <= d
  }

  /** No change after position p. */
  ghost predicate LastChange(es: seq<Event>, p: nat) {
    p < |es| && es[p].Change? && forall i :: p < i < |es| ==> !es[i].Change?
  }

  lemma {:induction false} WorldSince(w: World, es: seq<Event>, p: nat, i: nat)
    requires LastChange(es, p) && p < i <= |es|
    ensures WorldAfter(w, es[..i]) == WorldOf(es[p].db, es[p].floor)
    decreases i
  {
    var front := es[..i];
    assert Last(front) == es[i - 1] && Init(front) == es[..i - 1];
    if i - 1 > p {
      WorldSince(w, es, p, i - 1);
    }
  }

  /** Main result.  Once more than `ttl + d` has passed since the last change, where `d` bounds the time from asking to
      storing, an agreeing hit is what the store would answer now. */
  lemma HitIsCurrent(w: World, ttl: int, d: int, es: seq<Event>, p: nat, q: MediaQuery, now: int, resp: Response)
    requires Forward(es) && Prompt(es, d) && LastChange(es, p) && now > es[p].now + ttl + d
    requires MediaAgrees(w, ttl, es, q, now, resp)
    ensures Answer(es[p].db, es[p].floor, q) == Page(resp)
  {
    var stored: nat :| MediaSource(w, ttl, es, q, now, resp, stored);
    var ask := es[stored].ask;
    assert es[stored].now - TimeOf(es[ask]) <= d;
    assert TimeOf(es[ask]) > TimeOf(es[p]);
    assert ask != p && !(ask < p);
    WorldSince(w, es, p, ask);
  }

  /** So an edit of the allowlist binds every hit later than that. */
  lemma AllowlistEditBinds(w: World, ttl: int, d: int, es: seq<Event>, p: nat, q: MediaQuery, now: int, resp: Response,
                           item: Item)
    requires Forward(es) && Prompt(es, d) && LastChange(es, p) && now > es[p].now + ttl + d
    requires MediaAgrees(w, ttl, es, q, now, resp) && item in resp.items
    ensures item.library in es[p].floor
  {
    HitIsCurrent(w, ttl, d, es, p, q, now, resp);
    PagesStayOnTheFloor(es[p].db, es[p].floor, q.(mediaTypes := StoreTypes(q.mediaTypes)), item);
  }

  // ----- bounds and eviction in every run -----

  lemma StoredSize<V>(m: map<string, Entry<V>>, key: string, e: Entry<V>, cap: nat, pruneAt: int,
                      m': map<string, Entry<V>>)
    requires Stored(m, key, e, cap, pruneAt, m') && |m| <= cap
    ensures |m'| <= cap
  {
    SizeUpdate(m, key, e);
  }

  lemma BelowSize<V>(m': map<string, V>, m: map<string, V>)
    requires Below(m', m)
    ensures |m'| <= |m|
  {
    SubmapSize(m', m);
  }

  lemma {:induction false} CapsHold(w: World, ttl: int, es: seq<Event>)
    requires IsRun(w, ttl, es)
    ensures |MediaAfter(es)| <= 256 && |FiltersAfter(es)| <= 128
    decreases |es|
  {
    if es != [] {
      CapsHold(w, ttl, Init(es));
      var last, m, f := Last(es), MediaAfter(Init(es)), FiltersAfter(Init(es));
      match last
      case SetMedia(_, _, pruneAt, m', f') =>
        var key, e :| Stored(m, key, e, MEDIA_CAP, pruneAt, m')
          && Sibling(|m[key := e]| > MEDIA_CAP, f, FILTERS_CAP, pruneAt, f');
        StoredSize(m, key, e, MEDIA_CAP, pruneAt, m');
        BelowSize(f', f);
      case SetFilters(_, _, pruneAt, m', f') =>
        var key, e :| Stored(f, key, e, FILTERS_CAP, pruneAt, f')
          && Sibling(|f[key := e]| > FILTERS_CAP, m, MEDIA_CAP, pruneAt, m');
        StoredSize(f, key, e, FILTERS_CAP, pruneAt, f');
        BelowSize(m', m);
      case _ =>
        BelowSize(MediaAfter(es), m);
        BelowSize(FiltersAfter(es), f);
    }
  }

  /** Sets read the clock under the lock, so their readings never go back. */
  ghost predicate ClockForward(es: seq<Event>) {
    forall i, j :: 0 <= i < j < |es| && es[i].SetMedia? && es[j].SetMedia? ==> es[i].now <= es[j].now
  }

  /** In every run, after the media set that ends it: a live entry is lost only when nothing expired is left, never one
      that outlives a survivor, at most one, and the entry just stored only if all live entries expire together. */
  lemma MediaEvictionOrder(w: World, ttl: int, es: seq<Event>, key: string, e: Entry<Response>)
    requires IsRun(w, ttl, es) && es != [] && Last(es).SetMedia? && ClockForward(es)
    requires WroteMedia(w, ttl, es, |es| - 1, key, e) && Last(es).pruneAt <= Last(es).now + ttl
    ensures var all, m', pruneAt := MediaAfter(Init(es))[key := e], MediaAfter(es), Last(es).pruneAt;
            && Below(m', all)
            && (forall k :: k in all && k !in m' && pruneAt <= all[k].expires ==>
                  && (forall k' :: k' in m' ==> pruneAt <= m'[k'].expires && all[k].expires <= m'[k'].expires)
                  && |LiveOnly(all, pruneAt)| == MEDIA_CAP + 1)
            && (key !in m' ==> forall k :: k in LiveOnly(all, pruneAt) ==> all[k].expires == e.expires)
  {
    var last, m := Last(es), MediaAfter(Init(es));
    var key', e' :| WroteMedia(w, ttl, es, |es| - 1, key', e')
      && Stored(m, key', e', MEDIA_CAP, last.pruneAt, last.media);
    assert key' == key && e' == e;
    forall k | k in m ensures m[k].expires <= e.expires {
      var i := MediaWritten(w, ttl, Init(es), k);
      assert es[i] == Init(es)[i];
    }
    CapsHold(w, ttl, Init(es));
    StoreKeepsBest(m, key, e, MEDIA_CAP, last.pruneAt, last.media);
  }

  ghost predicate FiltersClockForward(es: seq<Event>) {
    forall i, j :: 0 <= i < j < |es| && es[i].SetFilters? && es[j].SetFilters? ==> es[i].now <= es[j].now
  }

  /** The same of filter sets. */
  lemma FiltersEvictionOrder(w: World, ttl: int, es: seq<Event>, key: string, e: Entry<Filters>)
    requires IsRun(w, ttl, es) && es != [] && Last(es).SetFilters? && FiltersClockForward(es)
    requires WroteFilters(w, ttl, es, |es| - 1, key, e) && Last(es).pruneAt <= Last(es).now + ttl
    ensures var all, f', pruneAt := FiltersAfter(Init(es))[key := e], FiltersAfter(es), Last(es).pruneAt;
            && Below(f', all)
            && (forall k :: k in all && k !in f' && pruneAt <= all[k].expires ==>
                  && (forall k' :: k' in f' ==> pruneAt <= f'[k'].expires && all[k].expires <= f'[k'].expires)
                  && |LiveOnly(all, pruneAt)| == FILTERS_CAP + 1)
            && (key !in f' ==> forall k :: k in LiveOnly(all, pruneAt) ==> all[k].expires == e.expires)
  {
    var last, f := Last(es), FiltersAfter(Init(es));
    var key', e' :| WroteFilters(w, ttl, es, |es| - 1, key', e')
                    && Stored(f, key', e', FILTERS_CAP, last.pruneAt, last.filters);
    assert key' == key && e' == e;
    forall k | k in f ensures f[k].expires <= e.expires {
      var i := FiltersWritten(w, ttl, Init(es), k);
      assert es[i] == Init(es)[i];
    }
    CapsHold(w, ttl, Init(es));
    StoreKeepsBest(f, key, e, FILTERS_CAP, last.pruneAt, last.filters);
  }

  lemma SiblingKeepsLive<V>(over: bool, m: map<string, Entry<V>>, cap: nat, pruneAt: int, m': map<string, Entry<V>>)
    requires Sibling(over, m, cap, pruneAt, m') && |m| <= cap
    ensures m' == m || m' == LiveOnly(m, pruneAt)
  {
    if over {
      var live := LiveOnly(m, pruneAt);
      SubmapSize(live, m);
      SameSize(m', live);
    }
  }

  lemma MediaSetSibling(w: World, ttl: int, es: seq<Event>) returns (over: bool)
    requires IsRun(w, ttl, es) && es != [] && Last(es).SetMedia?
    ensures Sibling(over, FiltersAfter(Init(es)), FILTERS_CAP, Last(es).pruneAt, FiltersAfter(es))
  {
    var last, m, f := Last(es), MediaAfter(Init(es)), FiltersAfter(Init(es));
    assert StepAllowed(w, ttl, es);
    var key, e :| WroteMedia(w, ttl, es, |es| - 1, key, e)
                  && Sibling(|m[key := e]| > MEDIA_CAP, f, FILTERS_CAP, last.pruneAt, last.filters);
    over := |m[key := e]| > MEDIA_CAP;
  }

  lemma FiltersSetSibling(w: World, ttl: int, es: seq<Event>) returns (over: bool)
    requires IsRun(w, ttl, es) && es != [] && Last(es).SetFilters?
    ensures Sibling(over, MediaAfter(Init(es)), MEDIA_CAP, Last(es).pruneAt, MediaAfter(es))
  {
    var last, m, f := Last(es), MediaAfter(Init(es)), FiltersAfter(Init(es));
    assert StepAllowed(w, ttl, es);
    var key, e :| WroteFilters(w, ttl, es, |es| - 1, key, e)
                  && Sibling(|f[key := e]| > FILTERS_CAP, m, MEDIA_CAP, last.pruneAt, last.media);
    over := |f[key := e]| > FILTERS_CAP;
  }

  /** In every run a set leaves the map of the other kind alone, or drops from it exactly what has expired: never a live
      entry. */
  lemma OtherMapKeepsLive(w: World, ttl: int, es: seq<Event>)
    requires IsRun(w, ttl, es) && es != []
    ensures var last, m, f := Last(es), MediaAfter(Init(es)), FiltersAfter(Init(es));
            && (last.SetMedia? ==> FiltersAfter(es) == f || FiltersAfter(es) == LiveOnly(f, last.pruneAt))
            && (last.SetFilters? ==> MediaAfter(es) == m || MediaAfter(es) == LiveOnly(m, last.pruneAt))
  {
    CapsHold(w, ttl, Init(es));
    if Last(es).SetMedia? {
      var over := MediaSetSibling(w, ttl, es);
      SiblingKeepsLive(over, FiltersAfter(Init(es)), FILTERS_CAP, Last(es).pruneAt, FiltersAfter(es));
    } else if Last(es).SetFilters? {
      var over := FiltersSetSibling(w, ttl, es);
      SiblingKeepsLive(over, MediaAfter(Init(es)), MEDIA_CAP, Last(es).pruneAt, MediaAfter(es));
    }
  }

  // ----- where agreement ends: a stale allowlist, and a comma in a library id -----

  /** One film, in library 3. */
  function Demo(): Database {
    Database((_, _, _) => [DEMO_ROW], (_, _, _, _, _, _) => true, (_, _, _) => Facets([], []))
  }

  const DEMO_ROW := Row("m", "movie", {3})

  function DemoQuery(libraryIDs: seq<string>): MediaQuery {
    MediaQuery(libraryIDs, [], "", "", 0, 0, "title", false, 48, "")
  }

  lemma DemoAnswer(floor: seq<int>, libraryIDs: seq<string>, ids: seq<int>)
    requires Allowed(floor, libraryIDs) == Only(ids) && ids != []
    ensures Answer(Demo(), floor, DemoQuery(libraryIDs))
            == Page(if 3 in ids then Response([Item("m", "movie", 3)], "", 1) else Response([], "", 0))
  {
    var db, q, row := Demo(), DemoQuery(libraryIDs), DEMO_ROW;
    assert Passes(db, ids, [], q, row) <==> 3 in ids by {
      assert 3 in row.libraries;
    }
    assert [row][..0] == [] && Filter(db, ids, [], q, []) == [];
    assert Filter(db, ids, [], q, [row]) == if 3 in ids then [row] else [];
    assert Selected(db, ids, [], q) == if 3 in ids then [row] else [];
    assert ShownLibrary(ids, row.libraries) == 3 || 3 !in ids by {
      assert 3 in ids ==> (set l | l in row.libraries && l in ids) == {3};
    }
    assert ToItems(ids, [row]) == [ToItem(ids, row)] && ToItems(ids, []) == [];
    assert Results(db, floor, q) == if 3 in ids then [Item("m", "movie", 3)] else [];
  }

  lemma CommaIsNoId(x: string, i: nat)
    requires Trimmed(x) && i < |x| && x[i] == COMMA && x[0] != '+' && x[0] != '-'
    ensures CleanIDs([x]) == []
  {
    TrimmedUnchanged(x);
    assert x[i] in x && !AllDigits(x);
    NoIdAlone(x);
  }

  lemma PairIds(a: int, b: int)
    requires IsId(a) && IsId(b) && a != b
    ensures CleanIDs([Itoa(a), Itoa(b)]) == [a, b]
  {
    assert Texts([a, b]) == [Itoa(a), Itoa(b)];
    ParsedTexts([a, b]);
    DedupDistinct([a, b]);
  }

  lemma KeepPair(a: int, b: int, c: int)
    ensures Keep([a, b], [a, b, c]) == [a, b]
  {
    KeepInside([a, b], [a, b, c]);
  }

  /** The first answer stored stays in the cache until `storeAt + ttl`. */
  lemma FirstSet(w: World, ttl: int, ready: seq<Event>, storeAt: int, q: MediaQuery, resp: Response)
    returns (es: seq<Event>)
    requires IsRun(w, ttl, ready) && ready != [] && ready[0].AskMedia? && ready[0].query == q
    requires MediaReply(w, ready, 0) == Page(resp) && MediaAfter(ready) == map[] && FiltersAfter(ready) == map[]
    ensures |es| == |ready| + 1 && ready <= es && IsRun(w, ttl, es)
    ensures es[|ready|].SetMedia? && es[|ready|].ask == 0 && es[|ready|].now == storeAt
    ensures Lookup(MediaAfter(es), MediaKey(q), storeAt + ttl) == Some(resp)
  {
    var key, e := MediaKey(q), Entry(storeAt + ttl, resp);
    assert key != "";
    es := ready + [SetMedia(0, storeAt, storeAt, map[key := e], map[])];
    assert Init(es) == ready && es[..0] == ready[..0] && es[0] == ready[0];
    assert WroteMedia(w, ttl, es, |ready|, key, e);
    assert map[][key := e] == map[key := e];
    assert StepAllowed(w, ttl, es) by {
      assert Stored(map[], key, e, MEDIA_CAP, storeAt, map[key := e]);
    }
    assert MediaAfter(es) == map[key := e];
  }

  lemma Asked(w: World, ttl: int, askAt: int, q: MediaQuery) returns (es: seq<Event>)
    ensures es == [AskMedia(q, askAt)] && IsRun(w, ttl, es) && MediaReply(w, es, 0) == w.media(q)
    ensures MediaAfter(es) == map[] && FiltersAfter(es) == map[]
  {
    assert IsRun(w, ttl, []);
    es := AskExtends(w, ttl, [], q, askAt);
  }

  /** Asking at `askAt` and storing the answer at `storeAt`. */
  lemma StoredRun(w: World, ttl: int, askAt: int, storeAt: int, q: MediaQuery, resp: Response) returns (es: seq<Event>)
    requires w.media(q) == Page(resp)
    ensures IsRun(w, ttl, es) && |es| == 2 && es[0] == AskMedia(q, askAt)
    ensures es[1].SetMedia? && es[1].ask == 0 && es[1].now == storeAt
    ensures Lookup(MediaAfter(es), MediaKey(q), storeAt + ttl) == Some(resp)
  {
    var asked := Asked(w, ttl, askAt, q);
    es := FirstSet(w, ttl, asked, storeAt, q, resp);
  }

  lemma AskedFilters(w: World, ttl: int, libs: seq<string>, types: seq<string>) returns (es: seq<Event>)
    ensures es == [AskFilters(libs, types, 0)] && IsRun(w, ttl, es) && FiltersReply(w, es, 0) == w.filters(libs, types)
    ensures MediaAfter(es) == map[] && FiltersAfter(es) == map[]
  {
    assert IsRun(w, ttl, []);
    es := RunSnoc(w, ttl, [], AskFilters(libs, types, 0));
    assert Init(es) == [] && es[..0] == [];
    assert MediaAfter([]) == map[] && FiltersAfter([]) == map[];
  }

  lemma StoredFiltersRun(w: World, libs: seq<string>, types: seq<string>, resp: Filters) returns (es: seq<Event>)
    requires w.filters(libs, types) == resp
    ensures IsRun(w, 0, es) && |es| == 2 && es[0] == AskFilters(libs, types, 0) && es[1].SetFilters? && es[1].ask == 0
    ensures Lookup(FiltersAfter(es), FiltersKey(libs, types), 0) == Some(resp)
  {
    var key, e := FiltersKey(libs, types), Entry(0, resp);
    assert key != "";
    var asked := AskedFilters(w, 0, libs, types);
    es := asked + [SetFilters(0, 0, 0, map[], map[key := e])];
    assert Init(es) == asked && es[..0] == asked[..0] && es[0] == asked[0];
    assert WroteFilters(w, 0, es, 1, key, e);
    assert map[][key := e] == map[key := e];
    assert StepAllowed(w, 0, es) by {
      assert Stored(map[], key, e, FILTERS_CAP, 0, map[key := e]);
    }
    assert FiltersAfter(es) == map[key := e];
  }

  lemma EditBetween(w: World, ttl: int, c: int, d: int, q: MediaQuery, resp: Response, db: Database, edited: seq<int>)
    returns (es: seq<Event>)
    requires w.media(q) == Page(resp) && d >= 0
    ensures IsRun(w, ttl, es) && Forward(es) && Prompt(es, d) && LastChange(es, 1) && es[1] == Change(db, edited, c)
    ensures Lookup(MediaAfter(es), MediaKey(q), c + ttl + d) == Some(resp)
  {
    var asked := Asked(w, ttl, c, q);
    var ready := RunSnoc(w, ttl, asked, Change(db, edited, c));
    assert ready[..0] == asked[..0];
    es := FirstSet(w, ttl, ready, c + d, q, resp);
    assert es[0] == ready[0] && es[1] == ready[1];
  }

  lemma DemoWhole(floor: seq<int>)
    ensures Answer(Demo(), floor, DemoQuery([]))
            == Page(if 3 in floor then Response([Item("m", "movie", 3)], "", 1) else Response([], "", 0))
  {
    if floor != [] {
      DemoAnswer(floor, [], floor);
    }
  }

  /** The lag is attained.  A page of library 3, asked just before an edit at `c` that takes library 3 out of the
      allowlist and stored `d` later, is still served at `c + ttl + d`, when the store would show nothing. */
  lemma AllowlistEditLags(c: int, ttl: int, d: int, floor: seq<int>, edited: seq<int>) returns (es: seq<Event>)
    requires d >= 0 && 3 in floor && 3 !in edited
    ensures var w := WorldOf(Demo(), floor);
            IsRun(w, ttl, es) && Forward(es) && Prompt(es, d) && LastChange(es, 1) && es[1] == Change(Demo(), edited, c)
    ensures Lookup(MediaAfter(es), MediaKey(DemoQuery([])), c + ttl + d)
            == Some(Response([Item("m", "movie", 3)], "", 1))
    ensures Answer(Demo(), edited, DemoQuery([])) == Page(Response([], "", 0))
  {
    DemoWhole(floor);
    DemoWhole(edited);
    es := EditBetween(WorldOf(Demo(), floor), ttl, c, d, DemoQuery([]), Response([Item("m", "movie", 3)], "", 1),
                      Demo(), edited);
  }

  lemma SameListsSameKey(a: seq<string>, b: seq<string>)
    requires ListKey(a) == ListKey(b)
    ensures MediaKey(DemoQuery(a)) == MediaKey(DemoQuery(b))
  {
    assert MediaParts(DemoQuery(a)) == MediaParts(DemoQuery(b));
  }

  /** The request behind it. */
  function DemoRequest(libraryIDs: seq<string>): Request {
    Request(libraryIDs, [], "", "", "", "", "", "", "", "")
  }

  lemma DemoAccepted(mac: Mac, secret: string, claim: seq<string>, libraryIDs: seq<string>)
    requires MergeLibraryIDs(claim, libraryIDs).Some?
    ensures Validate(mac, secret, Claims("catalog", 0, claim, []), DemoRequest(libraryIDs))
            == Accepted(DemoQuery(MergeLibraryIDs(claim, libraryIDs).value))
    ensures Direct(DemoQuery(libraryIDs).mediaTypes)
  {
    TrimmedUnchanged("");
  }

  /** Two lists with one key break agreement, and with it the bound a token's claim sets.  After one request for `wide`,
      which is answered from the whole allowlist, a token whose claim has the same key is served a page showing library
      3, which neither its claim names nor the store would have given it. */
  lemma CollisionEscapesClaim(mac: Mac, secret: string, ttl: int, floor: seq<int>, wide: seq<string>,
                              claim: seq<string>)
    returns (es: seq<Event>)
    requires ttl >= 0 && ListKey(wide) == ListKey(claim) && CleanIDs(wide) == [] && Clean(wide) && Clean(claim)
    requires 3 in floor && 3 !in CleanIDs(claim) && Allowed(floor, claim).Only? && CleanIDs(claim) != []
    ensures Validate(mac, secret, Claims("catalog", 0, [], []), DemoRequest(wide)) == Accepted(DemoQuery(wide))
    ensures Validate(mac, secret, Claims("catalog", 0, claim, []), DemoRequest([])) == Accepted(DemoQuery(claim))
    ensures IsRun(WorldOf(Demo(), floor), ttl, es) && |es| == 2 && es[0] == AskMedia(DemoQuery(wide), 0)
            && es[1].SetMedia?
    ensures Lookup(MediaAfter(es), MediaKey(DemoQuery(claim)), ttl) == Some(Response([Item("m", "movie", 3)], "", 1))
    ensures Answer(Demo(), floor, DemoQuery(claim)) == Page(Response([], "", 0))
  {
    AllowedMembers(floor, wide);
    AllowedMembers(floor, claim);
    DemoAnswer(floor, wide, floor);
    DemoAnswer(floor, claim, Allowed(floor, claim).ids);
    SameListsSameKey(wide, claim);
    es := StoredRun(WorldOf(Demo(), floor), ttl, 0, 0, DemoQuery(wide), Response([Item("m", "movie", 3)], "", 1));
    CleanUnchanged(wide);
    CleanUnchanged(claim);
    DemoAccepted(mac, secret, [], wide);
    DemoAccepted(mac, secret, claim, []);
  }

  /** Such lists exist for every two ids: their texts with a comma between, taken as one entry or as two. */
  lemma CommaCollides(a: int, b: int)
    requires IsId(a) && IsId(b) && a != b && Le(Itoa(a), Itoa(b))
    ensures var wide, claim := [Itoa(a) + [COMMA] + Itoa(b)], [Itoa(a), Itoa(b)];
            && ListKey(wide) == ListKey(claim) && CleanIDs(wide) == [] && Clean(wide) && Clean(claim)
            && CleanIDs(claim) == [a, b]
            && (forall c :: Allowed([a, b, c], claim) == Only([a, b]))
  {
    var u, v := Itoa(a), Itoa(b);
    var x := u + [COMMA] + v;
    AtoiItoa(a);
    AtoiItoa(b);
    assert u[0] in u && IsDigit(u[0]);
    assert x[..|u|] == u && x[|u| + 1..] == v && x[|u|] == COMMA && Trimmed(x);
    SplitPair(x, |u|);
    CommaIsNoId(x, |u|);
    PairIds(a, b);
    forall c ensures Allowed([a, b, c], [u, v]) == Only([a, b]) {
      KeepPair(a, b, c);
    }
  }
}
