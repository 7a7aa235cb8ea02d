/** The genre, year and decade dictionary, internal/store/catalog_filters.go. */
module CatalogFilters {
  import opened Text
  import opened LibraryScope
  import opened CacheKey
  import opened CatalogMedia

  datatype Decade = Decade(caption: string, yearMin: int, yearMax: int)

  datatype Filters = Filters(genres: seq<string>, years: seq<int>, decades: seq<Decade>)

  /** The years the row loop does not skip. */
  function Positive(years: seq<int>): seq<int> {
    if years == [] then []
    else
      var last := years[|years| - 1];
      Positive(years[..|years| - 1]) + if last > 0 then [last] else []
  }

  function DecadeStart(year: int): int { year / 10 * 10 }

  function Starts(years: seq<int>): (r: seq<int>)
    ensures |r| == |years| && forall i :: 0 <= i < |years| ==> r[i] == DecadeStart(years[i])
  {
    seq(|years|, i requires 0 <= i < |years| => DecadeStart(years[i]))
  }

  function MakeDecade(start: int): Decade {
    Decade(Itoa(start) + "s", start, start + 9)
  }

  function MakeDecades(starts: seq<int>): (r: seq<Decade>)
    ensures |r| == |starts| && forall i :: 0 <= i < |starts| ==> r[i] == MakeDecade(starts[i])
  {
    seq(|starts|, i requires 0 <= i < |starts| => MakeDecade(starts[i]))
  }

  function DecadesOf(years: seq<int>): seq<Decade> {
    MakeDecades(Dedup(Starts(years)))
  }

  /** CatalogFilters; the episode query has no type condition. */
  function FilterDictionary(db: Database, floor: seq<int>, libraryIDs: seq<string>, mediaTypes: seq<string>): Filters {
    match Allowed(floor, libraryIDs)
    case DenyAll => Filters([], [], [])
    case Only(ids) =>
      var types := CleanList(mediaTypes);
      var facets := db.facets(types == ["episode"], Elements(ids),
                              if types == ["episode"] then {} else Elements(types));
      var years := Positive(facets.years);
      Filters(facets.genres, years, DecadesOf(years))
  }

  function Elements<T>(s: seq<T>): set<T> { set x | x in s }

  method ComputeCatalogFilters(db: Database, floor: PublicFloor, libraryIDs: seq<string>, mediaTypes: seq<string>)
    returns (filters: Filters)
    ensures filters == FilterDictionary(db, floor.publicLibraryIDs, libraryIDs, mediaTypes)
  {
    var ids, denyAll := floor.AllowedLibraryIDs(libraryIDs);
    if denyAll {
      return Filters([], [], []);
    }
    var types := ComputeCleanList(mediaTypes);
    var episodes := |types| == 1 && types[0] == "episode";
    assert episodes <==> types == ["episode"];
    var facets := db.facets(episodes, Elements(ids), if episodes then {} else Elements(types));
    var years, decades := ReadYears(facets.years);
    return Filters(facets.genres, years, decades);
  }

  /** The year loop with its decadeSeen map. */
  method ReadYears(rows: seq<int>) returns (years: seq<int>, decades: seq<Decade>)
    ensures years == Positive(rows) && decades == DecadesOf(Positive(rows))
  {
    years, decades := [], [];
    var decadeSeen: set<int> := {};
    ghost var starts: seq<int> := [];
    for i := 0 to |rows|
      invariant years == Positive(rows[..i])
      invariant starts == Dedup(Starts(years)) && decades == MakeDecades(starts)
      invariant forall n :: n in decadeSeen <==> n in starts
    {
      PrefixStep(rows, i);
      var year := rows[i];
      if year <= 0 {
        continue;
      }
      StartsSnoc(years, year);
      years := years + [year];
      var decade := DecadeStart(year);
      if decade !in decadeSeen {
        MakeSnoc(starts, decade);
        decadeSeen := decadeSeen + {decade};
        starts := starts + [decade];
        decades := decades + [MakeDecade(decade)];
      }
    }
    assert rows[..|rows|] == rows;
  }

  lemma MakeSnoc(starts: seq<int>, start: int)
    ensures MakeDecades(starts + [start]) == MakeDecades(starts) + [MakeDecade(start)]
  {
  }

  lemma StartsSnoc(years: seq<int>, year: int)
    ensures var d := Dedup(Starts(years));
            Dedup(Starts(years + [year])) == if DecadeStart(year) in d then d else d + [DecadeStart(year)]
  {
    assert Starts(years + [year])[..|years|] == Starts(years);
  }

  // ----- the decades partition the years -----

  predicate Within(year: int, d: Decade) { d.yearMin <= year <= d.yearMax }

  predicate Descending(s: seq<int>) {
    forall i, j :: 0 <= i < j < |s| ==> s[i] >= s[j]
  }

  predicate IsStart(n: int) { n % 10 == 0 }

  lemma StartOfMember(year: int)
    ensures IsStart(DecadeStart(year)) && Within(year, MakeDecade(DecadeStart(year)))
  {
  }

  lemma StartUnique(year: int, a: int, b: int)
    requires IsStart(a) && IsStart(b) && Within(year, MakeDecade(a)) && Within(year, MakeDecade(b))
    ensures a == b
  {
    var i, j := a / 10, b / 10;
    assert a == 10 * i && b == 10 * j;
    assert 10 * i <= 10 * j + 9 && 10 * j <= 10 * i + 9;
    assert i <= j && j <= i;
  }

  /** The distinct starts are starts of years in the list, and all of them. */
  lemma StartsMembers(years: seq<int>)
    ensures Distinct(Dedup(Starts(years)))
    ensures forall n :: n in Dedup(Starts(years)) <==> exists y :: y in years && DecadeStart(y) == n
  {
    var starts := Starts(years);
    DedupMembers(starts);
    forall n ensures n in starts <==> exists y :: y in years && DecadeStart(y) == n {
      if n in starts {
        var k :| 0 <= k < |starts| && starts[k] == n;
        assert years[k] in years;
      }
      if y :| y in years && DecadeStart(y) == n {
        var k :| 0 <= k < |years| && years[k] == y;
        assert starts[k] in starts;
      }
    }
  }

  /** Every decade holds a year of the list and spans the ten years from a multiple of ten. */
  lemma YearOfDecade(years: seq<int>, d: Decade)
    requires d in DecadesOf(years)
    ensures IsStart(d.yearMin) && d == MakeDecade(d.yearMin) && exists y :: y in years && Within(y, d)
  {
    StartsMembers(years);
    var firsts := Dedup(Starts(years));
    var i :| 0 <= i < |firsts| && DecadesOf(years)[i] == d;
    assert firsts[i] in firsts;
    var y :| y in years && DecadeStart(y) == firsts[i];
    StartOfMember(y);
  }

  lemma DecadesDisjoint(years: seq<int>, i: nat, j: nat, y: int)
    requires i < |DecadesOf(years)| && j < |DecadesOf(years)|
    requires Within(y, DecadesOf(years)[i]) && Within(y, DecadesOf(years)[j])
    ensures i == j
  {
    var ds := DecadesOf(years);
    assert IsStart(ds[i].yearMin) && IsStart(ds[j].yearMin) by {
      YearOfDecade(years, ds[i]);
      YearOfDecade(years, ds[j]);
    }
    StartUnique(y, ds[i].yearMin, ds[j].yearMin);
    StartsMembers(years);
  }

  /** Every year lies in exactly one decade. */
  lemma DecadePartition(years: seq<int>, y: int) returns (i: nat)
    requires y in years
    ensures i < |DecadesOf(years)| && Within(y, DecadesOf(years)[i])
    ensures forall j :: 0 <= j < |DecadesOf(years)| && Within(y, DecadesOf(years)[j]) ==> j == i
  {
    StartsMembers(years);
    StartOfMember(y);
    var firsts, start := Dedup(Starts(years)), DecadeStart(y);
    assert start in firsts;
    i :| 0 <= i < |firsts| && firsts[i] == start;
    forall j | 0 <= j < |DecadesOf(years)| && Within(y, DecadesOf(years)[j]) ensures j == i {
      DecadesDisjoint(years, i, j, y);
    }
  }

  lemma {:induction false} DedupDescends(s: seq<int>)
    requires Descending(s)
    ensures forall i, j :: 0 <= i < j < |Dedup(s)| ==> Dedup(s)[i] > Dedup(s)[j]
  {
    if s != [] {
      var init, last := s[..|s| - 1], s[|s| - 1];
      DedupDescends(init);
      DedupMembers(init);
      forall i | 0 <= i < |Dedup(init)| ensures Dedup(init)[i] >= last {
        var x := Dedup(init)[i];
        assert x in init;
      }
    }
  }

  lemma StartMonotone(a: int, b: int)
    requires a >= b
    ensures DecadeStart(a) >= DecadeStart(b)
  {
  }

  /** Newest decade first, without overlap, when the years come newest first. */
  lemma DecadesDescend(years: seq<int>, i: nat, j: nat)
    requires Descending(years) && i < j < |DecadesOf(years)|
    ensures DecadesOf(years)[i].yearMin > DecadesOf(years)[j].yearMax
  {
    var starts, ds := Starts(years), DecadesOf(years);
    forall i, j | 0 <= i < j < |starts| ensures starts[i] >= starts[j] {
      StartMonotone(years[i], years[j]);
    }
    DedupDescends(starts);
    YearOfDecade(years, ds[i]);
    YearOfDecade(years, ds[j]);
    TensApart(ds[i].yearMin, ds[j].yearMin);
  }

  lemma TensApart(a: int, b: int)
    requires IsStart(a) && IsStart(b) && a > b
    ensures a > b + 9
  {
  }

  // ----- the whole dictionary -----

  lemma {:induction false} PositiveExact(years: seq<int>) returns (at: seq<nat>)
    ensures Chosen(years, y => y > 0, y => y, at, Positive(years))
  {
    at := [];
    if years != [] {
      var init, last := years[..|years| - 1], years[|years| - 1];
      at := PositiveExact(init);
      ChosenSnoc(init, last, y => y > 0, y => y, at, Positive(init));
      assert years == init + [last];
      at := at + if last > 0 then [|init|] else [];
    }
  }

  lemma ScopeElements(floor: seq<int>, libs: seq<string>, ids: set<int>)
    requires ids == set l | l in floor && (CleanIDs(libs) == [] || l in CleanIDs(libs))
    ensures Allowed(floor, libs).DenyAll? <==> ids == {}
    ensures Allowed(floor, libs).Only? ==> Elements(Allowed(floor, libs).ids) == ids
  {
    AllowedMembers(floor, libs);
    var scope := Allowed(floor, libs);
    if scope.Only? {
      forall l ensures l in Elements(scope.ids) <==> l in ids {
        assert l in scope.ids <==> l in ids;
      }
      assert Elements(scope.ids) == ids;
      var l := scope.ids[0];
      assert l in scope.ids && l in ids;
    } else {
      assert forall l :: l !in ids;
    }
  }

  /** Main result.  The dictionary of a request that may show nothing is empty.  Otherwise it is made of the facets of
      the libraries the request may show and of the types it names: their genres, their positive years in order, and
      one decade, with its caption, for each of the tens that begin those years, in order of first appearance. */
  lemma DictionaryExactly(db: Database, floor: seq<int>, libs: seq<string>, types: seq<string>)
    returns (facets: Facets, at: seq<nat>, tens: seq<int>, starts: seq<int>, at': seq<nat>)
    ensures var ids := set l | l in floor && (CleanIDs(libs) == [] || l in CleanIDs(libs));
            var words, r := CleanList(types), FilterDictionary(db, floor, libs, types);
            if ids == {} then r == Filters([], [], [])
            else
              && facets == (if words == ["episode"] then db.facets(true, ids, {})
                            else db.facets(false, ids, set t | t in words))
              && r.genres == facets.genres
              && Chosen(facets.years, y => y > 0, y => y, at, r.years)
              && |tens| == |r.years| && (forall i :: 0 <= i < |tens| ==> tens[i] == r.years[i] - r.years[i] % 10)
              && Firsts(tens, at', starts)
              && |r.decades| == |starts|
              && forall i :: 0 <= i < |starts| ==>
                   r.decades[i] == Decade(Itoa(starts[i]) + "s", starts[i], starts[i] + 9)
  {
    var ids := set l | l in floor && (CleanIDs(libs) == [] || l in CleanIDs(libs));
    ScopeElements(floor, libs, ids);
    match Allowed(floor, libs)
    case DenyAll =>
      facets, at, tens, starts, at' := Facets([], []), [], [], [], [];
    case Only(scope) =>
      var words := CleanList(types);
      assert Elements(words) == set t | t in words;
      facets := db.facets(words == ["episode"], ids, if words == ["episode"] then {} else Elements(words));
      at := PositiveExact(facets.years);
      tens := Starts(Positive(facets.years));
      at' := DedupExact(tens);
      starts := Dedup(tens);
  }

  // ----- equivalent requests get the same dictionary -----

  lemma AlikeFilters(db: Database, floor: seq<int>, libs: seq<string>, types: seq<string>,
                     libs': seq<string>, types': seq<string>)
    requires SameMembers(CleanIDs(libs), CleanIDs(libs')) && SameList(types, types')
    ensures FilterDictionary(db, floor, libs, types) == FilterDictionary(db, floor, libs', types')
  {
    ScopeSame(floor, libs, libs');
    SameListMembers(CleanList(types), CleanList(types'));
    assert Elements(CleanList(types)) == Elements(CleanList(types'));
    if Allowed(floor, libs).Only? {
      assert Elements(Allowed(floor, libs).ids) == Elements(Allowed(floor, libs').ids);
    }
  }

  lemma EquivalentFilters(db: Database, floor: seq<int>, libs: seq<string>, types: seq<string>,
                          libs': seq<string>, types': seq<string>)
    requires SameList(libs, libs') && SameList(types, types')
    ensures FilterDictionary(db, floor, libs, types) == FilterDictionary(db, floor, libs', types')
  {
    SameListIds(libs, libs');
    AlikeFilters(db, floor, libs, types, libs', types');
  }
}
