/** The TTL cache of rendered catalog pages, internal/server/cache.go: two maps with hard size caps. */
module CatalogCache {
  import opened Text

  const MEDIA_CAP := 256
  const FILTERS_CAP := 128

  datatype Entry<V> = Entry(expires: int, resp: V)

  /** What a reader gets: an entry is live up to and including its expiry. */
  function Lookup<V>(m: map<string, Entry<V>>, key: string, now: int): Option<V> {
    if key != "" && key in m && now <= m[key].expires then Some(m[key].resp) else None
  }

  /** A read drops the entry it finds expired. */
  function AfterGet<V>(m: map<string, Entry<V>>, key: string, now: int): map<string, Entry<V>> {
    if key != "" && key in m && now > m[key].expires then m - {key} else m
  }

  function LiveOnly<V>(m: map<string, Entry<V>>, now: int): map<string, Entry<V>> {
    map k | k in m && now <= m[k].expires :: m[k]
  }

  /** `m'` keeps `cap` entries of `m`, or all when they fit, and drops none that outlives a survivor.  Which of several
      entries with one expiry go is left open: the code's sort is not stable. */
  ghost predicate Evicted<V>(m: map<string, Entry<V>>, cap: nat, m': map<string, Entry<V>>) {
    && m'.Keys <= m.Keys && (forall k :: k in m' ==> m'[k] == m[k])
    && |m'| == (if |m| <= cap then |m| else cap)
    && (forall k, k' :: k in m && k !in m' && k' in m' ==> m[k].expires <= m[k'].expires)
  }

  ghost predicate Pruned<V>(m: map<string, Entry<V>>, now: int, cap: nat, m': map<string, Entry<V>>) {
    Evicted(LiveOnly(m, now), cap, m')
  }

  /** The map after storing an entry; pruning happens only when the cap is exceeded. */
  ghost predicate Stored<V>(m: map<string, Entry<V>>, key: string, e: Entry<V>, cap: nat, pruneAt: int,
                            m': map<string, Entry<V>>) {
    if |m[key := e]| <= cap then m' == m[key := e] else Pruned(m[key := e], pruneAt, cap, m')
  }

  /** The map of the other kind after a set: pruned along when this one was over its cap. */
  ghost predicate Sibling<V>(over: bool, m: map<string, Entry<V>>, cap: nat, pruneAt: int, m': map<string, Entry<V>>) {
    if over then Pruned(m, pruneAt, cap, m') else m' == m
  }

  /** After a read an entry under the key is live or gone, a reader got it exactly if it is live, and all other entries
      are as they were. */
  lemma ReadExactly<V>(m: map<string, Entry<V>>, key: string, now: int)
    requires key != ""
    ensures var r, left := Lookup(m, key, now), AfterGet(m, key, now);
            && (key in m && m[key].expires >= now ==> r == Some(m[key].resp) && left == m)
            && (key !in m || m[key].expires < now ==> r == None && key !in left)
            && (forall k :: k != key ==> (k in left <==> k in m))
            && (forall k :: k in left ==> left[k] == m[k])
  {
  }

  class CatalogCache<M, F> {
    const ttl: int
    var media: map<string, Entry<M>>
    var filters: map<string, Entry<F>>

    constructor (ttl: int)
      ensures this.ttl == ttl && media == map[] && filters == map[]
    {
      this.ttl := ttl;
      media, filters := map[], map[];
    }

    method GetMedia(key: string, now: int) returns (r: Option<M>)
      modifies this
      ensures r == Lookup(old(media), key, now)
      ensures media == AfterGet(old(media), key, now) && filters == old(filters)
    {
      if key == "" {
        return None;
      }
      if key !in media || now > media[key].expires {
        if key in media {
          media := media - {key};
        }
        return None;
      }
      return Some(media[key].resp);
    }

    method GetFilters(key: string, now: int) returns (r: Option<F>)
      modifies this
      ensures r == Lookup(old(filters), key, now)
      ensures filters == AfterGet(old(filters), key, now) && media == old(media)
    {
      if key == "" {
        return None;
      }
      if key !in filters || now > filters[key].expires {
        if key in filters {
          filters := filters - {key};
        }
        return None;
      }
      return Some(filters[key].resp);
    }

    /** `now` is the clock when the entry is stored, `pruneAt` when pruning reads it. */
    method SetMedia(key: string, resp: Option<M>, now: int, pruneAt: int)
      modifies this
      ensures key == "" || resp.None? ==> media == old(media) && filters == old(filters)
      ensures key != "" && resp.Some? ==>
                var e := Entry(now + ttl, resp.value);
                && Stored(old(media), key, e, MEDIA_CAP, pruneAt, media)
                && Sibling(|old(media)[key := e]| > MEDIA_CAP, old(filters), FILTERS_CAP, pruneAt, filters)
    {
      if key == "" || resp.None? {
        return;
      }
      media := media[key := Entry(now + ttl, resp.value)];
      if |media| > MEDIA_CAP {
        Prune(pruneAt);
      }
    }

    method SetFilters(key: string, resp: Option<F>, now: int, pruneAt: int)
      modifies this
      ensures key == "" || resp.None? ==> media == old(media) && filters == old(filters)
      ensures key != "" && resp.Some? ==>
                var e := Entry(now + ttl, resp.value);
                && Stored(old(filters), key, e, FILTERS_CAP, pruneAt, filters)
                && Sibling(|old(filters)[key := e]| > FILTERS_CAP, old(media), MEDIA_CAP, pruneAt, media)
    {
      if key == "" || resp.None? {
        return;
      }
      filters := filters[key := Entry(now + ttl, resp.value)];
      if |filters| > FILTERS_CAP {
        Prune(pruneAt);
      }
    }

    /** Drops what has expired, then the oldest entries over each cap. */
    method Prune(now: int)
      modifies this
      ensures Pruned(old(media), now, MEDIA_CAP, media)
      ensures Pruned(old(filters), now, FILTERS_CAP, filters)
    {
      media := DropExpired(media, now);
      filters := DropExpired(filters, now);
      media := EvictOldestOverCap(media, MEDIA_CAP);
      filters := EvictOldestOverCap(filters, FILTERS_CAP);
    }
  }

  method DropExpired<V>(m: map<string, Entry<V>>, now: int) returns (r: map<string, Entry<V>>)
    ensures r == LiveOnly(m, now)
  {
    r := m;
    var todo := m.Keys;
    while todo != {}
      invariant todo <= m.Keys
      invariant r == map k | k in m && (k in todo || now <= m[k].expires) :: m[k]
      decreases todo
    {
      var key :| key in todo;
      todo := todo - {key};
      if now > m[key].expires {
        r := r - {key};
      }
    }
  }

  // ----- eviction -----

  datatype Keyed = Keyed(key: string, expires: int)

  predicate ByExpiry(s: seq<Keyed>) {
    forall i, j :: 0 <= i < j < |s| ==> s[i].expires <= s[j].expires
  }

  function InsertByExpiry(x: Keyed, s: seq<Keyed>): seq<Keyed> {
    if s == [] || x.expires <= s[0].expires then [x] + s else [s[0]] + InsertByExpiry(x, s[1..])
  }

  /** sort.Slice by expiry.  Entries that tie end up in an order that depends on the order they came in, which for map
      entries is arbitrary. */
  function SortByExpiry(s: seq<Keyed>): seq<Keyed> {
    if s == [] then [] else InsertByExpiry(s[0], SortByExpiry(s[1..]))
  }

  lemma {:induction false} InsertKeepsOrder(x: Keyed, s: seq<Keyed>)
    requires ByExpiry(s)
    ensures ByExpiry(InsertByExpiry(x, s))
    ensures forall y :: y in InsertByExpiry(x, s) <==> y == x || y in s
  {
    if s != [] && x.expires > s[0].expires {
      assert s == [s[0]] + s[1..];
      InsertKeepsOrder(x, s[1..]);
      var rest := InsertByExpiry(x, s[1..]);
      forall j | 0 <= j < |rest| ensures s[0].expires <= rest[j].expires {
        assert rest[j] in rest;
      }
    }
  }

  lemma {:induction false} SortByExpirySorts(s: seq<Keyed>)
    ensures ByExpiry(SortByExpiry(s)) && forall y :: y in SortByExpiry(s) <==> y in s
  {
    if s != [] {
      assert s == [s[0]] + s[1..];
      SortByExpirySorts(s[1..]);
      InsertKeepsOrder(s[0], SortByExpiry(s[1..]));
    }
  }

  function KeysOf(s: seq<Keyed>): set<string> {
    set x | x in s :: x.key
  }

  /** The entries of a map, by key and expiry. */
  ghost predicate Lists<V>(ordered: seq<Keyed>, m: map<string, Entry<V>>) {
    forall x: Keyed :: x in ordered <==> x.key in m && x.expires == m[x.key].expires
  }

  /** In no particular order. */
  method Collect<V>(m: map<string, Entry<V>>) returns (ordered: seq<Keyed>)
    ensures Lists(ordered, m)
  {
    ordered := [];
    var todo := m.Keys;
    while todo != {}
      invariant todo <= m.Keys
      invariant forall x: Keyed :: x in ordered <==> x.key in m && x.key !in todo && x.expires == m[x.key].expires
      decreases todo
    {
      var key :| key in todo;
      todo := todo - {key};
      ordered := ordered + [Keyed(key, m[key].expires)];
    }
  }

  method OldestFirst<V>(m: map<string, Entry<V>>) returns (ordered: seq<Keyed>)
    ensures ByExpiry(ordered)
    ensures Lists(ordered, m)
  {
    var collected := Collect(m);
    SortByExpirySorts(collected);
    ordered := SortByExpiry(collected);
  }

  method EvictOldestOverCap<V>(m: map<string, Entry<V>>, cap: nat) returns (r: map<string, Entry<V>>)
    ensures Evicted(m, cap, r)
  {
    r := m;
    if |m| <= cap {
      return;
    }
    var ordered := OldestFirst(m);
    var i := 0;
    while i < |ordered| && |r| > cap
      invariant 0 <= i <= |ordered| && |r| >= cap
      invariant r == m - KeysOf(ordered[..i])
    {
      RemoveOne(r, ordered[i].key);
      CutOneMore(m, ordered, i);
      r := r - {ordered[i].key};
      i := i + 1;
    }
    CutIsEviction(m, cap, ordered, i, r);
  }

  lemma CutOneMore<V>(m: map<string, Entry<V>>, ordered: seq<Keyed>, i: nat)
    requires i < |ordered|
    ensures (m - KeysOf(ordered[..i])) - {ordered[i].key} == m - KeysOf(ordered[..i + 1])
  {
    assert ordered[..i + 1] == ordered[..i] + [ordered[i]];
    assert KeysOf(ordered[..i + 1]) == KeysOf(ordered[..i]) + {ordered[i].key};
  }

  lemma CutIsEviction<V>(m: map<string, Entry<V>>, cap: nat, ordered: seq<Keyed>, i: nat, r: map<string, Entry<V>>)
    requires ByExpiry(ordered) && i <= |ordered| && |m| > cap && r == m - KeysOf(ordered[..i])
    ensures Lists(ordered, m) && |r| >= cap && (i == |ordered| || |r| <= cap) ==> Evicted(m, cap, r)
  {
    if Lists(ordered, m) && |r| >= cap && (i == |ordered| || |r| <= cap) {
      forall k | k in m ensures k in KeysOf(ordered) {
        assert Keyed(k, m[k].expires) in ordered;
      }
      if i == |ordered| {
        assert ordered[..i] == ordered;
        assert r == map[];
      }
      forall k, k' | k in m && k !in r && k' in r ensures m[k].expires <= m[k'].expires {
        Earlier(ordered, i, k, k');
      }
    }
  }

  lemma RemoveOne<V>(m: map<string, V>, key: string)
    ensures |m - {key}| >= |m| - 1
  {
    if key in m {
      assert (m - {key}).Keys == m.Keys - {key};
    } else {
      assert m - {key} == m;
    }
  }

  /** Keys cut from a sorted list expire no later than keys left in it. */
  lemma Earlier(sorted: seq<Keyed>, i: nat, k: string, k': string)
    requires i <= |sorted| && ByExpiry(sorted)
    requires k in KeysOf(sorted[..i]) && k' in KeysOf(sorted) && k' !in KeysOf(sorted[..i])
    ensures exists x, x' :: x in sorted && x' in sorted && x.key == k && x'.key == k' && x.expires <= x'.expires
  {
    var x :| x in sorted[..i] && x.key == k;
    var x' :| x' in sorted && x'.key == k';
    var a :| 0 <= a < i && sorted[a] == x;
    var b :| 0 <= b < |sorted| && sorted[b] == x';
    assert x' !in sorted[..i];
    assert forall c :: 0 <= c < i ==> sorted[c] in sorted[..i];
  }

  // ----- bounds and eviction order -----

  /** Main result on one store.  Under the cap nothing is lost.  At the cap the map stays within it; a live entry is
      lost only when no expired one is left, never one that outlives a survivor, and at most one; and the entry just
      stored survives unless all live entries expire together with it. */
  lemma StoreKeepsBest<V>(m: map<string, Entry<V>>, key: string, e: Entry<V>, cap: nat, pruneAt: int,
                          m': map<string, Entry<V>>)
    requires cap >= 1 && |m| <= cap && Stored(m, key, e, cap, pruneAt, m')
    requires pruneAt <= e.expires && forall k :: k in m ==> m[k].expires <= e.expires
    ensures |m'| <= cap
    ensures var all := m[key := e];
            && (forall k :: k in m' ==> k in all && m'[k] == all[k])
            && (forall k :: k in all && k !in m' && pruneAt <= all[k].expires ==>
                  && (forall k' :: k' in m' ==> pruneAt <= m'[k'].expires && all[k].expires <= m'[k'].expires)
                  && |m'| == cap && |LiveOnly(all, pruneAt)| == cap + 1)
            && (key !in m' ==> forall k :: k in LiveOnly(all, pruneAt) ==> all[k].expires == e.expires)
  {
    var all := m[key := e];
    var live := LiveOnly(all, pruneAt);
    SizeUpdate(m, key, e);
    SubmapSize(live, all);
    if |all| > cap {
      assert key in live && live[key] == e;
      if |live| > cap && key !in m' {
        forall k | k in live ensures all[k].expires == e.expires {
          if k !in m' {
            OneMissing(m'.Keys, live.Keys, k, key);
          }
        }
      } else if |live| <= cap {
        SameSize(m', live);
      }
    }
  }

  lemma SizeUpdate<V>(m: map<string, V>, key: string, v: V)
    ensures |m| <= |m[key := v]| <= |m| + 1
  {
    assert m[key := v].Keys == m.Keys + {key};
  }

  lemma SubsetSize(a: set<string>, b: set<string>)
    requires a <= b
    ensures |a| <= |b| && (|a| == |b| ==> a == b)
  {
    assert b == a + (b - a);
  }

  lemma SubmapSize<V>(a: map<string, V>, b: map<string, V>)
    requires a.Keys <= b.Keys
    ensures |a| <= |b|
  {
    SubsetSize(a.Keys, b.Keys);
  }

  lemma OneMissing(a: set<string>, b: set<string>, x: string, y: string)
    requires a <= b && |b| == |a| + 1 && x in b - a && y in b - a
    ensures x == y
  {
    SubsetSize(a + {x, y}, b);
  }

  lemma SameSize<V>(a: map<string, V>, b: map<string, V>)
    requires a.Keys <= b.Keys && |a| == |b|
    ensures a.Keys == b.Keys
  {
    SubsetSize(a.Keys, b.Keys);
  }
}
