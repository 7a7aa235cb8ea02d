/** The string keys of the catalog cache, internal/server/cache.go. */
module CacheKey {
  import opened Text

  const COMMA: char := ','
  const NUL: char := '\0'

  /** cacheListKey: the cleaned entries, sorted, joined by commas. */
  function ListKey(items: seq<string>): string {
    Join(SortStrings(CleanList(items)), COMMA)
  }

  predicate FreeOf(items: seq<string>, c: char) {
    forall x :: x in items ==> c !in x
  }

  /** The same list up to trimming, blanks and order. */
  ghost predicate SameList(a: seq<string>, b: seq<string>) {
    multiset(CleanList(a)) == multiset(CleanList(b))
  }

  lemma SortedMembers(items: seq<string>)
    ensures Sorted(SortStrings(items)) && multiset(SortStrings(items)) == multiset(items)
    ensures forall x :: x in SortStrings(items) <==> x in items
    ensures |SortStrings(items)| == |items|
  {
    var s := SortStrings(items);
    SortStringsSorts(items);
    assert |multiset(s)| == |s| && |multiset(items)| == |items|;
    forall x ensures x in s <==> x in items {
      assert x in multiset(s) <==> x in multiset(items);
    }
  }

  lemma {:induction false} CleanListFree(items: seq<string>, c: char)
    requires FreeOf(items, c)
    ensures FreeOf(CleanList(items), c)
  {
    if items != [] {
      var init, last := items[..|items| - 1], items[|items| - 1];
      assert last in items && forall x :: x in init ==> x in items;
      CleanListFree(init, c);
      TrimSpaceShape(last);
    }
  }

  lemma {:induction false} JoinFree(parts: seq<string>, sep: char, c: char)
    requires FreeOf(parts, c) && c != sep
    ensures c !in Join(parts, sep)
  {
    if parts != [] {
      assert parts[0] in parts;
      if |parts| > 1 {
        JoinFree(parts[1..], sep, c);
      }
    }
  }

  lemma ListKeyFree(items: seq<string>, c: char)
    requires FreeOf(items, c) && c != COMMA
    ensures c !in ListKey(items)
  {
    CleanListFree(items, c);
    SortedMembers(CleanList(items));
    JoinFree(SortStrings(CleanList(items)), COMMA, c);
  }

  lemma JoinNonEmpty(parts: seq<string>, sep: char)
    requires forall x :: x in parts ==> x != ""
    ensures Join(parts, sep) == "" <==> parts == []
  {
    if parts != [] {
      assert parts[0] in parts;
    }
  }

  /** On comma-free entries equal list keys mean equal lists up to order, and conversely. */
  lemma ListKeyCanonical(a: seq<string>, b: seq<string>)
    requires FreeOf(a, COMMA) && FreeOf(b, COMMA)
    ensures ListKey(a) == ListKey(b) <==> SameList(a, b)
  {
    var a', b' := SortStrings(CleanList(a)), SortStrings(CleanList(b));
    SortCanonical(CleanList(a), CleanList(b));
    if ListKey(a) == ListKey(b) {
      CleanListFree(a, COMMA);
      CleanListFree(b, COMMA);
      SortedMembers(CleanList(a));
      SortedMembers(CleanList(b));
      CleanListClean(a);
      CleanListClean(b);
      JoinNonEmpty(a', COMMA);
      JoinNonEmpty(b', COMMA);
      if a' != [] {
        JoinInjective(a', b', COMMA);
      }
    }
  }

  // ----- without the precondition -----

  /** An entry that also reads as two entries in order. */
  ghost predicate Splits(x: string, i: int) {
    && 0 < i < |x| - 1 && x[i] == COMMA
    && Trimmed(x[..i]) && Trimmed(x[i + 1..]) && Le(x[..i], x[i + 1..])
  }

  /** A list whose key belongs to it alone. */
  ghost predicate KeyDetermines(a: seq<string>) {
    forall b :: ListKey(b) == ListKey(a) ==> SameList(a, b)
  }

  /** No entry, or one that does not also read as two sorted entries. */
  ghost predicate OwnsKey(a: seq<string>) {
    var c := CleanList(a);
    |c| == 0 || (|c| == 1 && forall i :: !Splits(c[0], i))
  }

  /** Exactly which lists the key determines among all lists, commas allowed. */
  lemma KeyDeterminesExactly(a: seq<string>)
    ensures KeyDetermines(a) <==> OwnsKey(a)
  {
    var c := CleanList(a);
    CleanListClean(a);
    if |c| >= 2 {
      var b := ManyCollide(a);
    } else if |c| == 1 {
      if i :| Splits(c[0], i) {
        var b := SplitCollides(a, i);
      } else {
        forall b | ListKey(b) == ListKey(a) ensures SameList(a, b) {
          SingleDetermined(a, b);
        }
      }
    } else {
      forall b | ListKey(b) == ListKey(a) ensures SameList(a, b) {
        CleanListClean(b);
        SortedMembers(CleanList(b));
        JoinNonEmpty(SortStrings(CleanList(b)), COMMA);
      }
    }
  }

  lemma {:induction false} JoinTrimmed(parts: seq<string>)
    requires parts != [] && Clean(parts)
    ensures var j := Join(parts, COMMA); j != "" && Trimmed(j) && Le(parts[0], j)
  {
    assert parts[0] in parts;
    LeTotal(parts[0], parts[0]);
    if |parts| > 1 {
      JoinTrimmed(parts[1..]);
      LePrefix(parts[0], [COMMA] + Join(parts[1..], COMMA));
      assert parts[0] + [COMMA] + Join(parts[1..], COMMA) == parts[0] + ([COMMA] + Join(parts[1..], COMMA));
    }
  }

  lemma LePrefix(a: string, b: string)
    ensures Le(a, a + b)
  {
    if a != "" {
      assert (a + b)[1..] == a[1..] + b;
      LePrefix(a[1..], b);
    }
  }

  lemma SingletonKey(x: string)
    requires x != "" && Trimmed(x)
    ensures CleanList([x]) == [x] && ListKey([x]) == x
  {
    CleanUnchanged([x]);
    SortedFixed([x]);
  }

  lemma PairKey(u: string, v: string)
    requires u != "" && Trimmed(u) && v != "" && Trimmed(v) && Le(u, v)
    ensures CleanList([u, v]) == [u, v] && ListKey([u, v]) == u + [COMMA] + v
  {
    CleanUnchanged([u, v]);
    assert Sorted([u, v]);
    SortedFixed([u, v]);
    JoinPair(u, v);
  }

  lemma JoinPair(u: string, v: string)
    ensures Join([u, v], COMMA) == u + [COMMA] + v
  {
    assert [u, v][1..] == [v];
    assert Join([v], COMMA) == v;
  }

  lemma SplitPair(x: string, i: int)
    requires x != "" && Trimmed(x) && Splits(x, i)
    ensures var b := [x[..i], x[i + 1..]];
            ListKey(b) == ListKey([x]) && |CleanList(b)| == 2 && Clean(b) && CleanList([x]) == [x]
  {
    SingletonKey(x);
    var u, v := x[..i], x[i + 1..];
    assert x == u + [COMMA] + v && u != "" && v != "";
    PairKey(u, v);
  }

  /** Two different lists of library ids with one key. */
  lemma CommaCollision()
    ensures ListKey(["1,2"]) == ListKey(["1", "2"]) && !SameList(["1,2"], ["1", "2"])
  {
    var x := "1,2";
    assert x[..1] == "1" && x[2..] == "2";
    assert Le("1", "2");
    SplitPair(x, 1);
    assert |multiset(CleanList(["1", "2"]))| == 2 && |multiset(CleanList([x]))| == 1;
  }

  /** Another list with the key of a longer one; it brings in no new character. */
  lemma ManyCollide(a: seq<string>) returns (b: seq<string>)
    requires |CleanList(a)| >= 2
    ensures ListKey(b) == ListKey(a) && !SameList(a, b) && Clean(b) && (FreeOf(a, NUL) ==> FreeOf(b, NUL))
  {
    var k, s := ListKey(a), SortStrings(CleanList(a));
    b := [k];
    CleanListClean(a);
    SortedMembers(CleanList(a));
    JoinTrimmed(s);
    SingletonKey(k);
    assert |multiset(CleanList(b))| == 1 && |multiset(CleanList(a))| >= 2;
    if FreeOf(a, NUL) {
      ListKeyFree(a, NUL);
    }
  }

  lemma SplitCollides(a: seq<string>, i: int) returns (b: seq<string>)
    requires |CleanList(a)| == 1 && Splits(CleanList(a)[0], i)
    ensures ListKey(b) == ListKey(a) && !SameList(a, b) && Clean(b) && (FreeOf(a, NUL) ==> FreeOf(b, NUL))
  {
    var x := CleanList(a)[0];
    b := [x[..i], x[i + 1..]];
    CleanListClean(a);
    assert x in CleanList(a) && CleanList(a) == [x];
    SplitPair(x, i);
    assert ListKey(b) == ListKey(a);
    assert !SameList(a, b) by {
      assert |multiset(CleanList(b))| == 2 && |multiset(CleanList(a))| == 1;
    }
    if FreeOf(a, NUL) {
      CleanListFree(a, NUL);
      PiecesFree(x, i);
    }
  }

  lemma PiecesFree(x: string, i: nat)
    requires NUL !in x && i < |x|
    ensures FreeOf([x[..i], x[i + 1..]], NUL)
  {
  }

  lemma LongJoinSplits(d: seq<string>)
    requires |d| >= 2 && Clean(d) && Sorted(d)
    ensures Splits(Join(d, COMMA), |d[0]|)
  {
    var i, rest, x := |d[0]|, Join(d[1..], COMMA), Join(d, COMMA);
    assert d[0] in d && d[1] in d;
    JoinTrimmed(d[1..]);
    LeTransitive(d[0], d[1], rest);
    assert x == d[0] + [COMMA] + rest;
    assert x[..i] == d[0] && x[i + 1..] == rest && x[i] == COMMA;
  }

  lemma OneEntry(d: seq<string>, x: string)
    requires Clean(d) && Sorted(d) && Join(d, COMMA) == x && x != "" && forall i :: !Splits(x, i)
    ensures d == [x]
  {
    if |d| >= 2 {
      LongJoinSplits(d);
    }
  }

  lemma SingleDetermined(a: seq<string>, b: seq<string>)
    requires |CleanList(a)| == 1 && forall i :: !Splits(CleanList(a)[0], i)
    requires ListKey(b) == ListKey(a)
    ensures SameList(a, b)
  {
    var x, d := CleanList(a)[0], SortStrings(CleanList(b));
    CleanListClean(a);
    assert x in CleanList(a) && CleanList(a) == [x];
    SortedFixed([x]);
    CleanListClean(b);
    SortedMembers(CleanList(b));
    OneEntry(d, x);
  }

  // ----- the two keys -----

  /** A validated browse request; `mediaTypes` and `libraryIDs` as they enter the key. */
  datatype MediaQuery = MediaQuery(
    libraryIDs: seq<string>, mediaTypes: seq<string>, query: string, genre: string,
    yearMin: int, yearMax: int, sort: string, descending: bool, pageSize: int, pageToken: string)

  function BoolText(b: bool): string { if b then "true" else "false" }

  function MediaParts(q: MediaQuery): seq<string> {
    ["media", ListKey(q.libraryIDs), ListKey(q.mediaTypes), TrimSpace(q.query), TrimSpace(q.genre),
     Itoa(q.yearMin), Itoa(q.yearMax), q.sort, BoolText(q.descending), Itoa(q.pageSize), q.pageToken]
  }

  function MediaKey(q: MediaQuery): string {
    Join(MediaParts(q), NUL)
  }

  lemma MediaKeyNonEmpty(q: MediaQuery)
    ensures MediaKey(q) != ""
  {
    assert MediaParts(q)[0] == "media";
  }

  lemma FiltersKeyNonEmpty(libraryIDs: seq<string>, mediaTypes: seq<string>)
    ensures FiltersKey(libraryIDs, mediaTypes) != ""
  {
    assert FiltersParts(libraryIDs, mediaTypes)[0] == "filters";
  }

  function FiltersKey(libraryIDs: seq<string>, mediaTypes: seq<string>): string {
    Join(FiltersParts(libraryIDs, mediaTypes), NUL)
  }

  function FiltersParts(libraryIDs: seq<string>, mediaTypes: seq<string>): seq<string> {
    ["filters", ListKey(libraryIDs), ListKey(mediaTypes)]
  }

  /** The precondition of the cache, which the code does not enforce: no comma in a list entry, no NUL anywhere. */
  predicate Plain(items: seq<string>) {
    FreeOf(items, COMMA) && FreeOf(items, NUL)
  }

  predicate WellKeyed(q: MediaQuery) {
    Plain(q.libraryIDs) && Plain(q.mediaTypes)
    && NUL !in q.query && NUL !in q.genre && NUL !in q.sort && NUL !in q.pageToken
  }

  /** The same request up to the order of its lists and surrounding white space. */
  ghost predicate Equivalent(a: MediaQuery, b: MediaQuery) {
    && SameList(a.libraryIDs, b.libraryIDs) && SameList(a.mediaTypes, b.mediaTypes)
    && TrimSpace(a.query) == TrimSpace(b.query) && TrimSpace(a.genre) == TrimSpace(b.genre)
    && a.yearMin == b.yearMin && a.yearMax == b.yearMax && a.sort == b.sort
    && a.descending == b.descending && a.pageSize == b.pageSize && a.pageToken == b.pageToken
  }

  lemma ItoaFree(n: int)
    ensures NUL !in Itoa(n)
  {
    assert AllDigits(NatText(if n < 0 then -n else n));
  }

  lemma MediaPartsFree(q: MediaQuery)
    requires FreeOf(q.libraryIDs, NUL) && FreeOf(q.mediaTypes, NUL)
    requires NUL !in q.query && NUL !in q.genre && NUL !in q.sort && NUL !in q.pageToken
    ensures FreeOf(MediaParts(q), NUL)
  {
    ListKeyFree(q.libraryIDs, NUL);
    ListKeyFree(q.mediaTypes, NUL);
    TrimSpaceShape(q.query);
    TrimSpaceShape(q.genre);
    ItoaFree(q.yearMin);
    ItoaFree(q.yearMax);
    ItoaFree(q.pageSize);
  }

  /** Equal parts agree on every scalar. */
  lemma PartsAgree(a: MediaQuery, b: MediaQuery)
    requires MediaParts(a) == MediaParts(b)
    requires SameList(a.libraryIDs, b.libraryIDs) && SameList(a.mediaTypes, b.mediaTypes)
    ensures Equivalent(a, b)
  {
    var p, q := MediaParts(a), MediaParts(b);
    assert p[3] == q[3] && p[4] == q[4] && p[5] == q[5] && p[6] == q[6]
        && p[7] == q[7] && p[8] == q[8] && p[9] == q[9] && p[10] == q[10];
    ItoaInjective(a.yearMin, b.yearMin);
    ItoaInjective(a.yearMax, b.yearMax);
    ItoaInjective(a.pageSize, b.pageSize);
  }

  lemma PartsEqual(a: MediaQuery, b: MediaQuery)
    requires WellKeyed(a) && WellKeyed(b)
    ensures MediaParts(a) == MediaParts(b) <==> Equivalent(a, b)
  {
    ListKeyCanonical(a.libraryIDs, b.libraryIDs);
    ListKeyCanonical(a.mediaTypes, b.mediaTypes);
    if MediaParts(a) == MediaParts(b) {
      assert MediaParts(a)[1] == MediaParts(b)[1] && MediaParts(a)[2] == MediaParts(b)[2];
      PartsAgree(a, b);
    }
  }

  /** Main result: two media keys are equal exactly for equivalent requests. */
  lemma MediaKeyCanonical(a: MediaQuery, b: MediaQuery)
    requires WellKeyed(a) && WellKeyed(b)
    ensures MediaKey(a) == MediaKey(b) <==> Equivalent(a, b)
  {
    PartsEqual(a, b);
    if MediaKey(a) == MediaKey(b) {
      MediaPartsFree(a);
      MediaPartsFree(b);
      JoinInjective(MediaParts(a), MediaParts(b), NUL);
    }
  }

  lemma FiltersPartsFree(libs: seq<string>, types: seq<string>)
    requires FreeOf(libs, NUL) && FreeOf(types, NUL)
    ensures FreeOf(FiltersParts(libs, types), NUL)
  {
    ListKeyFree(libs, NUL);
    ListKeyFree(types, NUL);
  }

  lemma FiltersKeyCanonical(libs: seq<string>, types: seq<string>, libs': seq<string>, types': seq<string>)
    requires Plain(libs) && Plain(types) && Plain(libs') && Plain(types')
    ensures FiltersKey(libs, types) == FiltersKey(libs', types') <==> SameList(libs, libs') && SameList(types, types')
  {
    ListKeyCanonical(libs, libs');
    ListKeyCanonical(types, types');
    if FiltersKey(libs, types) == FiltersKey(libs', types') {
      FiltersPartsFree(libs, types);
      FiltersPartsFree(libs', types');
      var p, q := FiltersParts(libs, types), FiltersParts(libs', types');
      JoinInjective(p, q, NUL);
      assert p[1] == q[1] && p[2] == q[2];
    }
  }

  // ----- the keys among all requests -----

  function Seps(parts: seq<string>, sep: char): nat {
    if parts == [] then 0 else multiset(parts[0])[sep] + Seps(parts[1..], sep)
  }

  /** A join holds one separator between every two parts, and those inside them. */
  lemma {:induction false} JoinCount(parts: seq<string>, sep: char)
    requires parts != []
    ensures multiset(Join(parts, sep))[sep] == |parts| - 1 + Seps(parts, sep)
  {
    if |parts| == 1 {
      assert Seps(parts[1..], sep) == 0;
    } else {
      JoinCount(parts[1..], sep);
      var rest := Join(parts[1..], sep);
      assert multiset(parts[0] + [sep] + rest) == multiset(parts[0]) + multiset{sep} + multiset(rest);
    }
  }

  lemma {:induction false} SepsFree(parts: seq<string>, sep: char)
    ensures Seps(parts, sep) == 0 <==> FreeOf(parts, sep)
  {
    if parts != [] {
      SepsFree(parts[1..], sep);
      assert parts == [parts[0]] + parts[1..];
      assert multiset(parts[0])[sep] == 0 <==> sep !in parts[0];
    }
  }

  /** Among lists of one length, parts without the separator are determined by their join. */
  lemma SameJoin(a: seq<string>, b: seq<string>, sep: char)
    requires a != [] && |a| == |b| && FreeOf(a, sep) && Join(a, sep) == Join(b, sep)
    ensures a == b
  {
    JoinCount(a, sep);
    JoinCount(b, sep);
    SepsFree(a, sep);
    SepsFree(b, sep);
    JoinInjective(a, b, sep);
  }

  /** No NUL anywhere; commas are allowed. */
  predicate NulFree(q: MediaQuery) {
    && FreeOf(q.libraryIDs, NUL) && FreeOf(q.mediaTypes, NUL)
    && NUL !in q.query && NUL !in q.genre && NUL !in q.sort && NUL !in q.pageToken
  }

  /** Media types as they may be: without commas, or just any. */
  predicate Typed(types: seq<string>, commas: bool) {
    commas || FreeOf(types, COMMA)
  }

  /** Whatever the other request holds, the key of a NUL-free one has exactly ten NULs, so equal keys have equal
      parts. */
  lemma NulFreeKey(a: MediaQuery, b: MediaQuery)
    requires NulFree(a)
    ensures MediaKey(a) == MediaKey(b) <==> MediaParts(a) == MediaParts(b)
    ensures MediaKey(a) == MediaKey(b)
            ==> ListKey(a.libraryIDs) == ListKey(b.libraryIDs) && ListKey(a.mediaTypes) == ListKey(b.mediaTypes)
  {
    MediaPartsFree(a);
    if MediaKey(a) == MediaKey(b) {
      SameJoin(MediaParts(a), MediaParts(b), NUL);
      assert MediaParts(a)[1] == MediaParts(b)[1] && MediaParts(a)[2] == MediaParts(b)[2];
    }
  }

  /** Types with one key are one list when neither holds a comma, or when that list owns its key. */
  lemma SameTypes(a: seq<string>, b: seq<string>, commas: bool)
    requires Typed(a, commas) && Typed(b, commas) && (commas ==> OwnsKey(a)) && ListKey(a) == ListKey(b)
    ensures SameList(a, b)
  {
    if commas {
      KeyDeterminesExactly(a);
    } else {
      ListKeyCanonical(a, b);
    }
  }

  lemma OwnedKey(a: MediaQuery, b: MediaQuery, commas: bool)
    requires NulFree(a) && OwnsKey(a.libraryIDs) && (commas ==> OwnsKey(a.mediaTypes))
    requires Typed(a.mediaTypes, commas) && Typed(b.mediaTypes, commas) && MediaKey(a) == MediaKey(b)
    ensures Equivalent(a, b)
  {
    NulFreeKey(a, b);
    KeyDeterminesExactly(a.libraryIDs);
    SameTypes(a.mediaTypes, b.mediaTypes, commas);
    PartsAgree(a, b);
  }

  /** Another list with the key of one that does not own it. */
  lemma Rival(items: seq<string>) returns (other: seq<string>)
    requires !OwnsKey(items)
    ensures ListKey(other) == ListKey(items) && !SameList(items, other) && Clean(other)
    ensures FreeOf(items, NUL) ==> FreeOf(other, NUL)
  {
    var c := CleanList(items);
    if |c| >= 2 {
      other := ManyCollide(items);
    } else {
      var i :| Splits(c[0], i);
      other := SplitCollides(items, i);
    }
  }

  /** A request with the key of `a` that asks for something else. */
  lemma RivalQuery(a: MediaQuery, commas: bool) returns (b: MediaQuery)
    requires !OwnsKey(a.libraryIDs) || (commas && !OwnsKey(a.mediaTypes))
    ensures MediaKey(b) == MediaKey(a) && !Equivalent(a, b)
    ensures Typed(a.mediaTypes, commas) ==> Typed(b.mediaTypes, commas)
    ensures Clean(a.mediaTypes) ==> Clean(b.mediaTypes)
  {
    if !OwnsKey(a.libraryIDs) {
      var libs := Rival(a.libraryIDs);
      b := a.(libraryIDs := libs);
    } else {
      var types := Rival(a.mediaTypes);
      b := a.(mediaTypes := types);
    }
    assert MediaParts(b) == MediaParts(a);
  }

  /** Exactly which NUL-free requests own their key.  Among requests whose types hold no comma: those whose libraries
      do, that is, that name no library, or one whose text does not also read as two.  Among all requests: those whose
      types do as well. */
  lemma MediaKeyExactly(a: MediaQuery, commas: bool)
    requires NulFree(a) && Typed(a.mediaTypes, commas)
    ensures (forall b: MediaQuery :: Typed(b.mediaTypes, commas) && MediaKey(b) == MediaKey(a) ==> Equivalent(a, b))
            <==> OwnsKey(a.libraryIDs) && (commas ==> OwnsKey(a.mediaTypes))
  {
    if OwnsKey(a.libraryIDs) && (commas ==> OwnsKey(a.mediaTypes)) {
      forall b: MediaQuery | Typed(b.mediaTypes, commas) && MediaKey(b) == MediaKey(a) ensures Equivalent(a, b) {
        OwnedKey(a, b, commas);
      }
    } else {
      var b := RivalQuery(a, commas);
    }
  }

  lemma NulFreeFiltersKey(libs: seq<string>, types: seq<string>, libs': seq<string>, types': seq<string>)
    requires FreeOf(libs, NUL) && FreeOf(types, NUL)
    ensures FiltersKey(libs, types) == FiltersKey(libs', types')
            <==> ListKey(libs) == ListKey(libs') && ListKey(types) == ListKey(types')
  {
    FiltersPartsFree(libs, types);
    var p, q := FiltersParts(libs, types), FiltersParts(libs', types');
    if FiltersKey(libs, types) == FiltersKey(libs', types') {
      SameJoin(p, q, NUL);
      assert p[1] == q[1] && p[2] == q[2];
    }
  }

  lemma OwnedFiltersKey(libs: seq<string>, types: seq<string>, libs': seq<string>, types': seq<string>, commas: bool)
    requires FreeOf(libs, NUL) && FreeOf(types, NUL) && OwnsKey(libs) && (commas ==> OwnsKey(types))
    requires Typed(types, commas) && Typed(types', commas) && FiltersKey(libs, types) == FiltersKey(libs', types')
    ensures SameList(libs, libs') && SameList(types, types')
  {
    NulFreeFiltersKey(libs, types, libs', types');
    KeyDeterminesExactly(libs);
    SameTypes(types, types', commas);
  }

  /** On comma-free entries a list owns its key exactly when it has at most one. */
  lemma CommaFreeOwns(items: seq<string>)
    requires FreeOf(items, COMMA)
    ensures OwnsKey(items) <==> |CleanList(items)| <= 1
  {
    var c := CleanList(items);
    CleanListFree(items, COMMA);
    if |c| == 1 {
      assert c[0] in c;
      forall i ensures !Splits(c[0], i) {
        if 0 < i < |c[0]| - 1 {
          assert c[0][i] in c[0];
        }
      }
    }
  }

  // ----- NUL -----

  function Early(q: MediaQuery, x: string, y: string): MediaQuery {
    q.(libraryIDs := [x + [NUL] + y], mediaTypes := [], query := "", genre := Itoa(0), yearMin := 0, yearMax := 0)
  }

  function Late(q: MediaQuery, x: string, y: string): MediaQuery {
    q.(libraryIDs := [x], mediaTypes := [y], query := "", genre := "", yearMin := 0, yearMax := 0,
       sort := Itoa(0) + [NUL] + q.sort)
  }

  function Tail(q: MediaQuery): seq<string> {
    [BoolText(q.descending), Itoa(q.pageSize), q.pageToken]
  }

  function Between(): seq<string> { ["", "", Itoa(0), Itoa(0)] }

  lemma EarlyParts(q: MediaQuery, x: string, y: string)
    requires x != "" && Trimmed(x) && y != "" && Trimmed(y)
    ensures MediaParts(Early(q, x, y)) == ["media"] + [x + [NUL] + y] + (Between() + [Itoa(0), q.sort] + Tail(q))
  {
    SingletonKey(x + [NUL] + y);
    AtoiItoa(0);
    TrimmedUnchanged(Itoa(0));
    TrimmedUnchanged("");
    assert ListKey([]) == "";
  }

  lemma LateParts(q: MediaQuery, x: string, y: string)
    requires x != "" && Trimmed(x) && y != "" && Trimmed(y)
    ensures MediaParts(Late(q, x, y)) == (["media"] + [x, y] + Between()) + [Itoa(0) + [NUL] + q.sort] + Tail(q)
  {
    SingletonKey(x);
    SingletonKey(y);
    TrimmedUnchanged("");
  }

  lemma TwoCuts(front: seq<string>, x: string, y: string, mid: seq<string>, u: string, v: string, back: seq<string>)
    ensures Join(front + [x + [NUL] + y] + (mid + [u, v] + back), NUL)
            == Join((front + [x, y] + mid) + [u + [NUL] + v] + back, NUL)
  {
    JoinCut(front, x, y, mid + [u, v] + back);
    JoinCut(front + [x, y] + mid, u, v, back);
    assert front + [x, y] + (mid + [u, v] + back) == (front + [x, y] + mid) + [u, v] + back;
  }

  lemma DifferentGenre(q: MediaQuery, x: string, y: string)
    ensures !Equivalent(Early(q, x, y), Late(q, x, y))
  {
    AtoiItoa(0);
    TrimmedUnchanged(Itoa(0));
    TrimmedUnchanged("");
  }

  /** A NUL moves a field boundary: different requests, one key.  In both the NUL sits in a field that no database
      query sees, a library id that is no number and a sort order that is no column. */
  lemma NulCollision(q: MediaQuery, x: string, y: string)
    requires x != "" && Trimmed(x) && y != "" && Trimmed(y)
    ensures MediaKey(Early(q, x, y)) == MediaKey(Late(q, x, y)) && !Equivalent(Early(q, x, y), Late(q, x, y))
  {
    var early, late := MediaParts(Early(q, x, y)), MediaParts(Late(q, x, y));
    EarlyParts(q, x, y);
    LateParts(q, x, y);
    assert Join(early, NUL) == Join(late, NUL) by {
      TwoCuts(["media"], x, y, Between(), Itoa(0), q.sort, Tail(q));
    }
    DifferentGenre(q, x, y);
  }

  /** Two adjacent parts count only through their join. */
  lemma {:induction false} JoinCut(front: seq<string>, x: string, y: string, back: seq<string>)
    ensures Join(front + [x, y] + back, NUL) == Join(front + [x + [NUL] + y] + back, NUL)
  {
    var l, r := front + [x, y] + back, front + [x + [NUL] + y] + back;
    if front == [] {
      assert l == [x] + ([y] + back) && r == [x + [NUL] + y] + back;
      assert l[1..] == [y] + back && r[1..] == back && ([y] + back)[1..] == back;
      if back != [] {
        assert Join(l, NUL) == x + [NUL] + (y + [NUL] + Join(back, NUL));
        assert Join(r, NUL) == x + [NUL] + y + [NUL] + Join(back, NUL);
      }
    } else {
      assert l[1..] == front[1..] + [x, y] + back;
      assert r[1..] == front[1..] + [x + [NUL] + y] + back;
      JoinCut(front[1..], x, y, back);
    }
  }
}
