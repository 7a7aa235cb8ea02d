/** Which cached answers agree when the store is the real one: it sees of a list of library ids only which libraries
    they name, so a rival with the same key matters only when it names others.  Of the types it sees every word. */
module StoreAgreement {
  import opened Text
  import opened LibraryScope
  import opened MediaTypes
  import opened CacheKey
  import opened CatalogCache
  import opened PageToken
  import opened CatalogMedia
  import opened CatalogFilters
  import opened CatalogHandler
  import opened CacheAgreement

  /** Every hit of `q` agrees, in every run from any tables and allowlist, whatever else was asked. */
  ghost predicate StoreHitsAgree(q: MediaQuery, commas: bool) {
    forall db, floor, ttl, es, now :: MediaAgreesIn(WorldOf(db, floor), ttl, es, q, now, commas)
  }

  ghost predicate StoreFiltersAgree(libs: seq<string>, types: seq<string>, commas: bool) {
    forall db, floor, ttl, es, now :: FiltersAgreeIn(WorldOf(db, floor), ttl, es, libs, types, now, commas)
  }

  /** Every list with this key names the same libraries. */
  ghost predicate KeyNames(libs: seq<string>) {
    forall other :: ListKey(other) == ListKey(libs) ==> SameMembers(CleanIDs(other), CleanIDs(libs))
  }

  // ----- one set of libraries, one answer -----

  lemma NamedAlike(db: Database, floor: seq<int>, q: MediaQuery, asked: MediaQuery, commas: bool)
    requires NulFree(q) && KeyNames(q.libraryIDs) && (commas ==> OwnsKey(q.mediaTypes))
             && MediaKey(q) == MediaKey(asked)
    requires Clean(q.mediaTypes) && Typed(q.mediaTypes, commas) && Clean(asked.mediaTypes)
             && Typed(asked.mediaTypes, commas)
    ensures Answer(db, floor, asked) == Answer(db, floor, q)
  {
    NulFreeKey(q, asked);
    SameTypes(q.mediaTypes, asked.mediaTypes, commas);
    StoreTypesSame(q.mediaTypes, asked.mediaTypes);
    ScalarsAlike(q, asked);
    var stored := q.(mediaTypes := StoreTypes(q.mediaTypes));
    AlikeAnswers(db, floor, asked.(mediaTypes := StoreTypes(asked.mediaTypes)), stored);
  }

  lemma ScalarsAlike(q: MediaQuery, asked: MediaQuery)
    requires MediaParts(q) == MediaParts(asked) && SameList(q.mediaTypes, asked.mediaTypes)
    ensures Equivalent(asked, q.(libraryIDs := asked.libraryIDs))
  {
    assert MediaParts(asked) == MediaParts(q.(libraryIDs := asked.libraryIDs)) by {
      assert MediaParts(q)[1] == MediaParts(asked)[1];
    }
    PartsAgree(asked, q.(libraryIDs := asked.libraryIDs));
  }

  lemma NamedHitAgrees(db: Database, floor: seq<int>, ttl: int, es: seq<Event>, q: MediaQuery, now: int, commas: bool)
    requires NulFree(q) && Clean(q.mediaTypes) && Typed(q.mediaTypes, commas)
    requires KeyNames(q.libraryIDs) && (commas ==> OwnsKey(q.mediaTypes))
    ensures MediaAgreesIn(WorldOf(db, floor), ttl, es, q, now, commas)
  {
    var w := WorldOf(db, floor);
    if Fair(w) && IsRun(w, ttl, es) && TypedRun(es, commas) && Lookup(MediaAfter(es), MediaKey(q), now).Some? {
      var stored := MediaWritten(w, ttl, es, MediaKey(q));
      var ask := es[stored].ask;
      assert es[ask] in es;
      var t := TablesAfter(db, floor, es[..ask]);
      WorldOfTables(db, floor, es[..ask]);
      NamedAlike(t.0, t.1, q, es[ask].query, commas);
      assert MediaSource(w, ttl, es, q, now, Lookup(MediaAfter(es), MediaKey(q), now).value, stored);
    }
  }

  lemma NamedFiltersAlike(db: Database, floor: seq<int>, libs: seq<string>, types: seq<string>,
                          libs': seq<string>, types': seq<string>, commas: bool)
    requires FreeOf(libs, NUL) && FreeOf(types, NUL) && KeyNames(libs) && (commas ==> OwnsKey(types))
    requires Clean(types) && Typed(types, commas) && Clean(types') && Typed(types', commas)
    requires FiltersKey(libs, types) == FiltersKey(libs', types')
    ensures FiltersAnswer(db, floor, libs', types') == FiltersAnswer(db, floor, libs, types)
  {
    NulFreeFiltersKey(libs, types, libs', types');
    SameTypes(types, types', commas);
    StoreTypesSame(types, types');
    AlikeFilters(db, floor, libs', StoreTypes(types'), libs, StoreTypes(types));
  }

  lemma NamedFiltersHitAgrees(db: Database, floor: seq<int>, ttl: int, es: seq<Event>, libs: seq<string>,
                              types: seq<string>, now: int, commas: bool)
    requires FreeOf(libs, NUL) && FreeOf(types, NUL) && Clean(types) && Typed(types, commas)
    requires KeyNames(libs) && (commas ==> OwnsKey(types))
    ensures FiltersAgreeIn(WorldOf(db, floor), ttl, es, libs, types, now, commas)
  {
    var w, key := WorldOf(db, floor), FiltersKey(libs, types);
    if Fair(w) && IsRun(w, ttl, es) && TypedRun(es, commas) && Lookup(FiltersAfter(es), key, now).Some? {
      var stored := FiltersWritten(w, ttl, es, key);
      var ask := es[stored].ask;
      assert es[ask] in es;
      var t := TablesAfter(db, floor, es[..ask]);
      WorldOfTables(db, floor, es[..ask]);
      NamedFiltersAlike(t.0, t.1, libs, types, es[ask].libraryIDs, es[ask].mediaTypes, commas);
      assert FiltersSource(w, ttl, es, libs, types, now, Lookup(FiltersAfter(es), key, now).value, stored);
    }
  }

  // ----- tables that tell two sets of libraries apart -----

  function Copies(row: Row, n: nat): (rows: seq<Row>)
    ensures |rows| == n
  {
    if n == 0 then [] else Copies(row, n - 1) + [row]
  }

  /** Enough copies of one title to reach any page. */
  function CopyTables(row: Row, n: nat): Database {
    Database((_, _, _) => Copies(row, n), (_, _, _, _, _, _) => true,
             (_, ids, _) => Facets(if ids == row.libraries then ["g"] else [], []))
  }

  lemma {:induction false} FilterCopies(db: Database, ids: seq<int>, types: seq<string>, q: MediaQuery, row: Row,
                                        n: nat)
    ensures Filter(db, ids, types, q, Copies(row, n)) == if Passes(db, ids, types, q, row) then Copies(row, n) else []
  {
    if n > 0 {
      assert Copies(row, n)[..n - 1] == Copies(row, n - 1);
      FilterCopies(db, ids, types, q, row, n - 1);
    }
  }

  function KindFor(types: seq<string>): string {
    if types == [] then "movie" else types[0]
  }

  function Offset(q: MediaQuery): int {
    if q.pageToken == "" then 0 else ScanOffset(q.pageToken)
  }

  predicate EpisodeQuery(types: seq<string>) {
    |types| == 1 && types[0] == "episode"
  }

  /** Does the type condition let a row of this kind through? */
  predicate Suits(kind: string, types: seq<string>) {
    EpisodeQuery(types) || types == [] || kind in types
  }

  /** What a page of copies shows: nothing to a query that is denied, or whose scope or types leave the copies out. */
  lemma CopiesShown(floor: seq<int>, q: MediaQuery, kind: string, library: int)
    requires Offset(q) >= 0
    ensures var db := CopyTables(Row("m", kind, {library}), Offset(q) + 1);
            var reply, scope := MediaPage(db, floor, q), Allowed(floor, q.libraryIDs);
            && reply.Page?
            && (reply.response.items != []
                <==> scope.Only? && library in scope.ids && Suits(kind, CleanList(q.mediaTypes)))
  {
    var row, n, scope := Row("m", kind, {library}), Offset(q) + 1, Allowed(floor, q.libraryIDs);
    var db := CopyTables(row, n);
    AllowedMembers(floor, q.libraryIDs);
    if scope.Only? {
      var types := CleanList(q.mediaTypes);
      FilterCopies(db, scope.ids, types, q, row, n);
      CopyPasses(db, scope.ids, q, kind, library);
      var all := ToItems(scope.ids, Selected(db, scope.ids, types, q));
      assert |all| == if library in scope.ids && Suits(kind, types) then n else 0;
    }
  }

  lemma CopyPasses(db: Database, ids: seq<int>, q: MediaQuery, kind: string, library: int)
    requires ids != [] && forall a, b, c, d, e, f :: db.matches(a, b, c, d, e, f)
    ensures Passes(db, ids, CleanList(q.mediaTypes), q, Row("m", kind, {library}))
            <==> library in ids && Suits(kind, CleanList(q.mediaTypes))
  {
    assert library in {library};
  }

  lemma AnswerShown(floor: seq<int>, q: MediaQuery, kind: string, library: int)
    requires Offset(q) >= 0 && Clean(q.mediaTypes)
    ensures var db := CopyTables(Row("m", kind, {library}), Offset(q) + 1);
            var reply, scope := Answer(db, floor, q), Allowed(floor, q.libraryIDs);
            && reply.Page?
            && (reply.response.items != []
                <==> scope.Only? && library in scope.ids && Suits(kind, StoreTypes(q.mediaTypes)))
  {
    StoreTypesClean(q.mediaTypes);
    CleanUnchanged(StoreTypes(q.mediaTypes));
    CopiesShown(floor, q.(mediaTypes := StoreTypes(q.mediaTypes)), kind, library);
  }

  lemma ScopeNaming(libs: seq<string>, x: int, z: int)
    requires x in CleanIDs(libs) && z !in CleanIDs(libs)
    ensures var scope := Allowed([x, z], libs); scope.Only? && Elements(scope.ids) == {x}
  {
    var floor, scope, req := [x, z], Allowed([x, z], libs), CleanIDs(libs);
    AllowedMembers(floor, libs);
    assert forall l :: l in floor <==> l == x || l == z;
    assert scope.Only?;
    forall l ensures l in Elements(scope.ids) <==> l == x {
      assert l in scope.ids <==> l in floor && (req == [] || l in req);
    }
  }

  lemma ScopeLacking(libs: seq<string>, x: int, z: int)
    requires x !in CleanIDs(libs) && z !in CleanIDs(libs)
    ensures Allowed([x, z], libs) == if CleanIDs(libs) == [] then Only([x, z]) else DenyAll
  {
    AllowedMembers([x, z], libs);
    assert forall l :: l in [x, z] <==> l == x || l == z;
  }

  lemma BeyondBoth(a: seq<int>, b: seq<int>) returns (z: int)
    ensures z !in a && z !in b
  {
    z := Beyond(a + b);
    assert z in a ==> z in a + b;
    assert z in b ==> z in a + b;
  }

  /** An id one list names and the other does not, and an allowlist under which the two scope differently: with the
      library that tells them apart. */
  lemma ScopesDiffer(libs: seq<string>, other: seq<string>, x: int) returns (floor: seq<int>, library: int)
    requires x in CleanIDs(libs) && x !in CleanIDs(other)
    ensures var a, b := Allowed(floor, libs), Allowed(floor, other);
            && a.Only? && Elements(a.ids) == {x}
            && (library == x ==> b.DenyAll?)
            && (library != x ==> b.Only? && library in b.ids)
            && (b.Only? ==> Elements(b.ids) != {x})
  {
    var z := BeyondBoth(CleanIDs(libs), CleanIDs(other));
    floor, library := [x, z], if CleanIDs(other) == [] then z else x;
    ScopeNaming(libs, x, z);
    ScopeLacking(other, x, z);
    assert z in Elements([x, z]);
  }

  lemma DifferentNames(a: seq<string>, b: seq<string>) returns (x: int)
    requires !SameMembers(CleanIDs(a), CleanIDs(b))
    ensures (x in CleanIDs(a) && x !in CleanIDs(b)) || (x in CleanIDs(b) && x !in CleanIDs(a))
  {
    var p, q := CleanIDs(a), CleanIDs(b);
    EmptyIffNoMember(p);
    EmptyIffNoMember(q);
    assert (forall n :: n in p <==> n in q) ==> (|p| == 0 <==> |q| == 0);
    x :| (x in p && x !in q) || (x in q && x !in p);
  }

  /** Lists that name different libraries are answered differently by some store. */
  lemma AnswersDiffer(q: MediaQuery, libs: seq<string>) returns (db: Database, floor: seq<int>)
    requires Offset(q) >= 0 && Clean(q.mediaTypes) && !SameMembers(CleanIDs(libs), CleanIDs(q.libraryIDs))
    ensures Answer(db, floor, q.(libraryIDs := libs)).Page?
    ensures Answer(db, floor, q.(libraryIDs := libs)) != Answer(db, floor, q)
  {
    var x := DifferentNames(libs, q.libraryIDs);
    var library: int;
    if x in CleanIDs(libs) {
      floor, library := ScopesDiffer(libs, q.libraryIDs, x);
    } else {
      floor, library := ScopesDiffer(q.libraryIDs, libs, x);
    }
    var kind := KindFor(StoreTypes(q.mediaTypes));
    db := CopyTables(Row("m", kind, {library}), Offset(q) + 1);
    AnswerShown(floor, q, kind, library);
    AnswerShown(floor, q.(libraryIDs := libs), kind, library);
    assert forall ids: seq<int> :: Elements(ids) == {x} ==> (library in ids <==> library == x) by {
      forall ids: seq<int> | Elements(ids) == {x} ensures library in ids <==> library == x {
        assert library in ids <==> library in Elements(ids);
      }
    }
  }

  lemma FiltersDiffer(libs: seq<string>, other: seq<string>, types: seq<string>) returns (db: Database, floor: seq<int>)
    requires !SameMembers(CleanIDs(libs), CleanIDs(other))
    ensures FiltersAnswer(db, floor, libs, types) != FiltersAnswer(db, floor, other, types)
  {
    var x := DifferentNames(libs, other);
    var library: int;
    if x in CleanIDs(libs) {
      floor, library := ScopesDiffer(libs, other, x);
    } else {
      floor, library := ScopesDiffer(other, libs, x);
    }
    db := CopyTables(Row("m", "movie", {x}), 0);
  }

  // ----- tables that tell two lists of types apart -----

  /** A kind the first list lets through and the second, not empty and not the episode query, does not. */
  ghost predicate Tells(types: seq<string>, other: seq<string>, kind: string) {
    && Clean(other) && ListKey(other) == ListKey(types)
    && kind in StoreTypes(types) && !EpisodeQuery(StoreTypes(types)) && !Suits(kind, StoreTypes(other))
  }

  /** Types that do not own their key have a rival which lacks one of their kinds. */
  lemma TypesRival(types: seq<string>) returns (other: seq<string>, kind: string)
    requires Clean(types) && !OwnsKey(types)
    ensures Tells(types, other, kind)
  {
    CleanUnchanged(types);
    if |types| >= 2 {
      other, kind := WholeKey(types);
    } else {
      var i :| Splits(types[0], i);
      other, kind := TwoHalves(types, i);
    }
  }

  lemma NotAWord(k: string)
    requires COMMA in k
    ensures StoreWord(k) == k && k != "series" && k != "episode"
  {
    assert COMMA !in "tv" && COMMA !in "series" && COMMA !in "episode";
  }

  lemma KeyOfMany(types: seq<string>) returns (first: string)
    requires Clean(types) && |types| >= 2
    ensures var k := ListKey(types);
            first in types && |first| < |k| && COMMA in k && k != "" && Trimmed(k) && ListKey([k]) == k
  {
    var k, s := ListKey(types), SortStrings(types);
    CleanUnchanged(types);
    SortedMembers(types);
    JoinTrimmed(s);
    SingletonKey(k);
    JoinHasComma(s);
    first := s[0];
    assert first in s;
    assert k == first + [COMMA] + Join(s[1..], COMMA);
  }

  /** The key as a single type. */
  lemma WholeKey(types: seq<string>) returns (other: seq<string>, kind: string)
    requires Clean(types) && |types| >= 2
    ensures Tells(types, other, kind)
  {
    var first := KeyOfMany(types);
    var k := ListKey(types);
    other, kind := [k], StoreWord(first);
    NotAWord(k);
    StoreWordsAt(types);
    StoreWordsAt(other);
    assert kind in StoreTypes(types) by {
      var i :| 0 <= i < |types| && types[i] == first;
      assert StoreTypes(types)[i] == kind;
    }
    assert kind != k;
    assert StoreTypes(other) == [k];
  }

  /** The two halves of a single type that splits. */
  lemma TwoHalves(types: seq<string>, i: int) returns (other: seq<string>, kind: string)
    requires Clean(types) && |types| == 1 && Splits(types[0], i)
    ensures Tells(types, other, kind)
  {
    kind := types[0];
    assert kind in types && types == [kind];
    SplitPair(kind, i);
    other := [kind[..i], kind[i + 1..]];
    assert kind[i] == COMMA;
    NotAWord(kind);
    StoreWordsAt(types);
    StoreWordsAt(other);
    assert StoreTypes(types) == [kind];
    assert StoreTypes(other) == [StoreWord(other[0]), StoreWord(other[1])];
    assert |other[0]| < |kind| && |other[1]| < |kind|;
  }

  /** A library the list scopes to, and an allowlist of it alone. */
  lemma ScopedLibrary(libs: seq<string>) returns (library: int)
    ensures Allowed([library], libs).Only? && library in Allowed([library], libs).ids
  {
    library := if CleanIDs(libs) == [] then 1 else CleanIDs(libs)[0];
    assert CleanIDs(libs) != [] ==> CleanIDs(libs)[0] in CleanIDs(libs);
    assert library in [library];
    AllowedMembers([library], libs);
  }

  lemma TypesTold(q: MediaQuery, types: seq<string>, kind: string) returns (db: Database, floor: seq<int>)
    requires Offset(q) >= 0 && Clean(q.mediaTypes) && Clean(types)
    requires Suits(kind, StoreTypes(q.mediaTypes)) && !Suits(kind, StoreTypes(types))
    ensures Answer(db, floor, q.(mediaTypes := types)).Page?
    ensures Answer(db, floor, q.(mediaTypes := types)) != Answer(db, floor, q)
  {
    var library := ScopedLibrary(q.libraryIDs);
    floor := [library];
    db := CopyTables(Row("m", kind, {library}), Offset(q) + 1);
    AnswerShown(floor, q, kind, library);
    AnswerShown(floor, q.(mediaTypes := types), kind, library);
  }

  /** Tables in which only titles of one kind have a genre. */
  function KindTables(kind: string): Database {
    Database((_, _, _) => [], (_, _, _, _, _, _) => true,
             (_, _, kinds) => Facets(if kind in kinds then ["g"] else [], []))
  }

  lemma FilterTypesTold(libs: seq<string>, types: seq<string>, other: seq<string>, kind: string)
    returns (db: Database, floor: seq<int>)
    requires Clean(types) && Tells(types, other, kind)
    ensures FiltersAnswer(db, floor, libs, other) != FiltersAnswer(db, floor, libs, types)
  {
    var library := ScopedLibrary(libs);
    floor, db := [library], KindTables(kind);
    StoreTypesClean(types);
    StoreTypesClean(other);
    CleanUnchanged(StoreTypes(types));
    CleanUnchanged(StoreTypes(other));
    assert kind in Elements(StoreTypes(types)) && kind !in Elements(StoreTypes(other));
    assert FiltersAnswer(db, floor, libs, types).genres == ["g"];
    assert FiltersAnswer(db, floor, libs, other).genres == [];
  }

  // ----- exactly which queries agree -----

  lemma NamesDisagree(q: MediaQuery, libs: seq<string>, commas: bool)
    requires Clean(q.mediaTypes) && Typed(q.mediaTypes, commas) && Offset(q) >= 0
    requires ListKey(libs) == ListKey(q.libraryIDs) && !SameMembers(CleanIDs(libs), CleanIDs(q.libraryIDs))
    ensures !StoreHitsAgree(q, commas)
  {
    var db, floor := AnswersDiffer(q, libs);
    var rival := q.(libraryIDs := libs);
    assert MediaParts(rival) == MediaParts(q);
    StoreIsFair(db, floor);
    var es := RivalDisagrees(WorldOf(db, floor), q, rival, Answer(db, floor, rival).response, commas);
  }

  lemma TypesDisagree(q: MediaQuery)
    requires Clean(q.mediaTypes) && !OwnsKey(q.mediaTypes) && Offset(q) >= 0
    ensures !StoreHitsAgree(q, true)
  {
    var types, kind := TypesRival(q.mediaTypes);
    var db, floor := TypesTold(q, types, kind);
    var rival := q.(mediaTypes := types);
    assert MediaParts(rival) == MediaParts(q);
    StoreIsFair(db, floor);
    var es := RivalDisagrees(WorldOf(db, floor), q, rival, Answer(db, floor, rival).response, true);
  }

  lemma FiltersNamesDisagree(libs: seq<string>, types: seq<string>, rival: seq<string>, commas: bool)
    requires Clean(types) && Typed(types, commas)
    requires ListKey(rival) == ListKey(libs) && !SameMembers(CleanIDs(rival), CleanIDs(libs))
    ensures !StoreFiltersAgree(libs, types, commas)
  {
    var db, floor := FiltersDiffer(rival, libs, types);
    StoreIsFair(db, floor);
    assert FiltersParts(rival, types) == FiltersParts(libs, types);
    var w := WorldOf(db, floor);
    var es := FiltersRivalDisagrees(w, libs, types, rival, types, FiltersAnswer(db, floor, rival, types), commas);
  }

  lemma FiltersTypesDisagree(libs: seq<string>, types: seq<string>)
    requires Clean(types) && !OwnsKey(types)
    ensures !StoreFiltersAgree(libs, types, true)
  {
    var other, kind := TypesRival(types);
    var db, floor := FilterTypesTold(libs, types, other, kind);
    StoreIsFair(db, floor);
    assert FiltersParts(libs, other) == FiltersParts(libs, types);
    var w := WorldOf(db, floor);
    var es := FiltersRivalDisagrees(w, libs, types, libs, other, FiltersAnswer(db, floor, libs, other), true);
  }

  /** Main result.  Against the real store, whatever else is asked, every hit of a NUL-free query with a cursor the
      store can read agrees exactly when every list with the key of its libraries names the same ones and, if types
      with commas are about, its types own their key. */
  lemma StoreHitsAgreeExactly(q: MediaQuery, commas: bool)
    requires NulFree(q) && Clean(q.mediaTypes) && Typed(q.mediaTypes, commas) && Offset(q) >= 0
    ensures StoreHitsAgree(q, commas) <==> KeyNames(q.libraryIDs) && (commas ==> OwnsKey(q.mediaTypes))
  {
    if KeyNames(q.libraryIDs) && (commas ==> OwnsKey(q.mediaTypes)) {
      forall db, floor, ttl, es, now ensures MediaAgreesIn(WorldOf(db, floor), ttl, es, q, now, commas) {
        NamedHitAgrees(db, floor, ttl, es, q, now, commas);
      }
    } else if KeyNames(q.libraryIDs) {
      TypesDisagree(q);
    } else {
      var libs :| ListKey(libs) == ListKey(q.libraryIDs) && !SameMembers(CleanIDs(libs), CleanIDs(q.libraryIDs));
      NamesDisagree(q, libs, commas);
    }
  }

  lemma StoreFiltersAgreeExactly(libs: seq<string>, types: seq<string>, commas: bool)
    requires FreeOf(libs, NUL) && FreeOf(types, NUL) && Clean(types) && Typed(types, commas)
    ensures StoreFiltersAgree(libs, types, commas) <==> KeyNames(libs) && (commas ==> OwnsKey(types))
  {
    if KeyNames(libs) && (commas ==> OwnsKey(types)) {
      forall db, floor, ttl, es, now ensures FiltersAgreeIn(WorldOf(db, floor), ttl, es, libs, types, now, commas) {
        NamedFiltersHitAgrees(db, floor, ttl, es, libs, types, now, commas);
      }
    } else if KeyNames(libs) {
      FiltersTypesDisagree(libs, types);
    } else {
      var rival :| ListKey(rival) == ListKey(libs) && !SameMembers(CleanIDs(rival), CleanIDs(libs));
      FiltersNamesDisagree(libs, types, rival, commas);
    }
  }

  // ----- the condition, read off the list -----

  lemma NoCommaInId(x: string)
    requires PositiveId(x).Some? && Trimmed(x)
    ensures COMMA !in x
  {
    TrimmedUnchanged(x);
    var digits := if x != "" && (x[0] == '-' || x[0] == '+') then x[1..] else x;
    assert AllDigits(digits);
    forall c | c in x ensures c != COMMA {
      var i :| 0 <= i < |x| && x[i] == c;
      assert x[i] in digits || (i == 0 && (x[0] == '-' || x[0] == '+')) by {
        if digits != x && i > 0 {
          assert x[1..][i - 1] == x[i];
        }
      }
    }
  }

  lemma JoinHasComma(parts: seq<string>)
    requires |parts| >= 2
    ensures COMMA in Join(parts, COMMA)
  {
    var i, j := |parts[0]|, Join(parts, COMMA);
    assert j[i] == COMMA && j[i] in j;
  }

  /** The key as a single entry names no library when the list has two entries or more. */
  lemma WholeKeyNamesNone(libs: seq<string>)
    requires |CleanList(libs)| >= 2
    ensures ListKey([ListKey(libs)]) == ListKey(libs) && CleanIDs([ListKey(libs)]) == []
  {
    var k, s := ListKey(libs), SortStrings(CleanList(libs));
    CleanListClean(libs);
    SortedMembers(CleanList(libs));
    JoinTrimmed(s);
    SingletonKey(k);
    JoinHasComma(s);
    if PositiveId(k).Some? {
      NoCommaInId(k);
    }
    NoIdAlone(k);
  }

  /** Of the lists that name a library, exactly those with a single entry are named by their key. */
  lemma KeyNamesExactly(libs: seq<string>)
    requires CleanIDs(libs) != []
    ensures KeyNames(libs) <==> |CleanList(libs)| == 1
  {
    var c := CleanList(libs);
    CleanListIds(libs);
    assert c != [] by {
      assert c == [] ==> Parsed(c) == [];
    }
    if |c| >= 2 {
      WholeKeyNamesNone(libs);
      assert !SameMembers(CleanIDs([ListKey(libs)]), CleanIDs(libs));
    } else {
      SingleEntryOwns(libs);
      KeyDeterminesExactly(libs);
      forall other | ListKey(other) == ListKey(libs) ensures SameMembers(CleanIDs(other), CleanIDs(libs)) {
        SameListIds(other, libs);
      }
    }
  }

  lemma SingleEntryOwns(libs: seq<string>)
    requires |CleanList(libs)| == 1 && CleanIDs(libs) != []
    ensures OwnsKey(libs)
  {
    var c := CleanList(libs);
    CleanListIds(libs);
    CleanListClean(libs);
    assert c[0] in c && c == [c[0]];
    var n := CleanIDs(c)[0];
    assert n in CleanIDs(c);
    CleanIDsMembers(c);
    var x :| x in c && PositiveId(x) == Some(n);
    NoCommaInId(c[0]);
    forall i ensures !Splits(c[0], i) {
      if 0 < i < |c[0]| - 1 {
        assert c[0][i] in c[0];
      }
    }
  }

  /** So a validated query that names a library is safe from all others exactly when its list has one entry and, if
      types with commas are about, it names at most one type. */
  lemma NamedQueriesAgreeExactly(q: MediaQuery, commas: bool)
    requires NulFree(q) && OnWire(q.mediaTypes) && Offset(q) >= 0 && CleanIDs(q.libraryIDs) != []
    ensures StoreHitsAgree(q, commas) <==> |CleanList(q.libraryIDs)| == 1 && (commas ==> |q.mediaTypes| <= 1)
  {
    WirePlain(q.mediaTypes);
    CleanUnchanged(q.mediaTypes);
    CommaFreeOwns(q.mediaTypes);
    StoreHitsAgreeExactly(q, commas);
    KeyNamesExactly(q.libraryIDs);
  }

  // ----- the catalog page asks with the types of its token -----

  /** What the catalog page asks for a token with these types, in one library. */
  function PageQuery(libraryID: string, types: seq<string>): MediaQuery {
    MediaQuery([libraryID], types, "", "", 0, 0, "added_at", true, 60, "")
  }

  /** A token for the types `u,v` and `x`, the first of which minting accepts and no title has, makes the page fill the
      entry of a validated request for u, v and x: for instance of one for episodes, movies and series. */
  lemma PageCollides(libraryID: string, u: string, v: string, x: string)
    requires OnWire([u, v, x]) && Le(u, v) && Le(v, x) && Le(u + [COMMA] + v, x)
    ensures var token, validated := [u + [COMMA] + v, x], [u, v, x];
            && Clean(token)
            && MediaKey(PageQuery(libraryID, token)) == MediaKey(PageQuery(libraryID, validated))
            && !Equivalent(PageQuery(libraryID, token), PageQuery(libraryID, validated))
  {
    OnWireClean([u, v, x]);
    TypesCollide(u, v, x);
    var a, b := PageQuery(libraryID, [u + [COMMA] + v, x]), PageQuery(libraryID, [u, v, x]);
    assert MediaParts(a) == MediaParts(b);
  }

  lemma JoinThree(u: string, v: string, x: string)
    ensures Join([u, v, x], COMMA) == u + [COMMA] + v + [COMMA] + x
  {
    assert [u, v, x][1..] == [v, x];
    JoinPair(v, x);
    assert u + [COMMA] + (v + [COMMA] + x) == u + [COMMA] + v + [COMMA] + x;
  }

  lemma SortedThree(u: string, v: string, x: string)
    requires Le(u, v) && Le(v, x)
    ensures SortStrings([u, v, x]) == [u, v, x]
  {
    LeTransitive(u, v, x);
    assert Sorted([u, v, x]);
    SortedFixed([u, v, x]);
  }

  lemma TripleKey(u: string, v: string, x: string)
    requires Clean([u, v, x]) && Le(u, v) && Le(v, x)
    ensures CleanList([u, v, x]) == [u, v, x] && ListKey([u, v, x]) == u + [COMMA] + v + [COMMA] + x
  {
    CleanUnchanged([u, v, x]);
    SortedThree(u, v, x);
    JoinThree(u, v, x);
  }

  lemma PairClean(u: string, v: string, x: string)
    requires Clean([u, v, x])
    ensures var k := u + [COMMA] + v; k != "" && Trimmed(k) && x != "" && Trimmed(x) && Clean([k, x])
  {
    var long := [u, v, x];
    assert long[0] in long && long[1] in long && long[2] in long;
  }

  lemma DifferentCounts(a: seq<string>, b: seq<string>)
    requires |CleanList(a)| != |CleanList(b)|
    ensures !SameList(a, b)
  {
    assert |multiset(CleanList(a))| == |CleanList(a)| && |multiset(CleanList(b))| == |CleanList(b)|;
  }

  lemma TypesCollide(u: string, v: string, x: string)
    requires Clean([u, v, x]) && Le(u, v) && Le(v, x) && Le(u + [COMMA] + v, x)
    ensures var short, long := [u + [COMMA] + v, x], [u, v, x];
            Clean(short) && ListKey(short) == ListKey(long) && !SameList(short, long)
  {
    PairClean(u, v, x);
    PairKey(u + [COMMA] + v, x);
    TripleKey(u, v, x);
    DifferentCounts([u + [COMMA] + v, x], [u, v, x]);
  }
}
