/** Catalog counts: the store's statistics on their way through the host's shape and back with the counts of federated
    sources added (internal/server/host.go, internal/server/stats.go), and scoped to a token's media types. */
module CatalogStats {
  import opened Text
  import opened LibraryScope
  import opened MediaTypes

  datatype TypeCount = TypeCount(mediaType: string, count: int)

  datatype LibraryCount = LibraryCount(libraryID: string, libraryName: string, mediaType: string, count: int)

  datatype QualityCount = QualityCount(key: string, caption: string, count: int)

  datatype Stats = Stats(total: int, types: seq<TypeCount>, libraries: seq<LibraryCount>, qualities: seq<QualityCount>)

  function Sum(types: seq<TypeCount>): int {
    if types == [] then 0 else Sum(types[..|types| - 1]) + types[|types| - 1].count
  }

  /** The total is the sum of the counts by type. */
  predicate Balanced(s: Stats) {
    s.total == Sum(s.types)
  }

  lemma {:induction false} SumConcat(a: seq<TypeCount>, b: seq<TypeCount>)
    ensures Sum(a + b) == Sum(a) + Sum(b)
  {
    if b == [] {
      assert a + b == a;
    } else {
      assert (a + b)[..|a + b| - 1] == a + b[..|b| - 1];
      SumConcat(a, b[..|b| - 1]);
    }
  }

  // ----- the host's shape, which has no qualities -----

  datatype HostTypeCount = HostTypeCount(mediaType: string, count: int)

  datatype HostLibraryCount = HostLibraryCount(libraryID: string, libraryName: string, mediaType: string, count: int)

  datatype HostStats = HostStats(total: int, types: seq<HostTypeCount>, libraries: seq<HostLibraryCount>)

  function TypeCounts(types: seq<HostTypeCount>): (r: seq<TypeCount>)
    ensures |r| == |types| && forall i :: 0 <= i < |types| ==> r[i] == TypeCount(types[i].mediaType, types[i].count)
  {
    seq(|types|, i requires 0 <= i < |types| => TypeCount(types[i].mediaType, types[i].count))
  }

  function LibraryOf(c: HostLibraryCount): LibraryCount {
    LibraryCount(c.libraryID, c.libraryName, c.mediaType, c.count)
  }

  function LibraryCounts(libraries: seq<HostLibraryCount>): (r: seq<LibraryCount>)
    ensures |r| == |libraries| && forall i :: 0 <= i < |libraries| ==> r[i] == LibraryOf(libraries[i])
  {
    seq(|libraries|, i requires 0 <= i < |libraries| => LibraryOf(libraries[i]))
  }

  /** storeStatsFromRuntime; None is a nil pointer. */
  function FromHost(stats: Option<HostStats>, qualities: seq<QualityCount>): Stats {
    match stats
    case None => Stats(0, [], [], qualities)
    case Some(s) => Stats(s.total, TypeCounts(s.types), LibraryCounts(s.libraries), qualities)
  }

  method RuntimeStatsFromStore(stats: Option<Stats>) returns (out: HostStats)
    ensures FromHost(Some(out), if stats.Some? then stats.value.qualities else [])
            == if stats.Some? then stats.value else Stats(0, [], [], [])
  {
    if stats.None? {
      return HostStats(0, [], []);
    }
    var s := stats.value;
    out := HostStats(s.total, [], []);
    for i := 0 to |s.types|
      invariant out.total == s.total && out.libraries == [] && TypeCounts(out.types) == s.types[..i]
    {
      PrefixStep(s.types, i);
      var c := s.types[i];
      assert TypeCounts(out.types + [HostTypeCount(c.mediaType, c.count)]) == TypeCounts(out.types) + [c];
      out := out.(types := out.types + [HostTypeCount(c.mediaType, c.count)]);
    }
    for i := 0 to |s.libraries|
      invariant out.total == s.total && TypeCounts(out.types) == s.types
                && LibraryCounts(out.libraries) == s.libraries[..i]
    {
      PrefixStep(s.libraries, i);
      var c := s.libraries[i];
      var h := HostLibraryCount(c.libraryID, c.libraryName, c.mediaType, c.count);
      assert LibraryCounts(out.libraries + [h]) == LibraryCounts(out.libraries) + [c];
      out := out.(libraries := out.libraries + [h]);
    }
  }

  method StoreStatsFromRuntime(stats: Option<HostStats>, qualities: seq<QualityCount>) returns (out: Stats)
    ensures out == FromHost(stats, qualities)
  {
    if stats.None? {
      return Stats(0, [], [], qualities);
    }
    var s := stats.value;
    out := Stats(s.total, [], [], qualities);
    for i := 0 to |s.types|
      invariant out == Stats(s.total, TypeCounts(s.types[..i]), [], qualities)
    {
      PrefixStep(s.types, i);
      var c := s.types[i];
      out := out.(types := out.types + [TypeCount(c.mediaType, c.count)]);
      assert TypeCounts(s.types[..i + 1]) == out.types;
    }
    assert s.types[..|s.types|] == s.types;
    for i := 0 to |s.libraries|
      invariant out == Stats(s.total, TypeCounts(s.types), LibraryCounts(s.libraries[..i]), qualities)
    {
      PrefixStep(s.libraries, i);
      var c := s.libraries[i];
      out := out.(libraries := out.libraries + [LibraryCount(c.libraryID, c.libraryName, c.mediaType, c.count)]);
      assert LibraryCounts(s.libraries[..i + 1]) == out.libraries;
    }
    assert s.libraries[..|s.libraries|] == s.libraries;
  }

  // ----- federated sources -----

  /** withSourceStats: None is a source that is missing or failed. */
  function Merged(base: HostStats, sources: seq<Option<HostStats>>): HostStats {
    if sources == [] then base
    else
      var m := Merged(base, sources[..|sources| - 1]);
      match sources[|sources| - 1]
      case None => m
      case Some(s) => HostStats(m.total + s.total, m.types + s.types, m.libraries + s.libraries)
  }

  method WithSourceStats(start: Option<HostStats>, sources: seq<Option<HostStats>>) returns (base: HostStats)
    ensures base == Merged(if start.Some? then start.value else HostStats(0, [], []), sources)
  {
    base := if start.Some? then start.value else HostStats(0, [], []);
    ghost var first := base;
    for i := 0 to |sources|
      invariant base == Merged(first, sources[..i])
    {
      PrefixStep(sources, i);
      if sources[i].None? {
        continue;
      }
      var stats := sources[i].value;
      base := base.(total := base.total + stats.total);
      base := base.(types := base.types + stats.types);
      base := base.(libraries := base.libraries + stats.libraries);
    }
    assert sources[..|sources|] == sources;
  }

  /** The sources that answered. */
  function Answered(sources: seq<Option<HostStats>>): seq<HostStats> {
    if sources == [] then []
    else
      var last := sources[|sources| - 1];
      Answered(sources[..|sources| - 1]) + if last.Some? then [last.value] else []
  }

  function Totals(all: seq<HostStats>): int {
    if all == [] then 0 else all[0].total + Totals(all[1..])
  }

  function AllTypes(all: seq<HostStats>): seq<HostTypeCount> {
    if all == [] then [] else all[0].types + AllTypes(all[1..])
  }

  function AllLibraries(all: seq<HostStats>): seq<HostLibraryCount> {
    if all == [] then [] else all[0].libraries + AllLibraries(all[1..])
  }

  lemma {:induction false} AllSnoc(all: seq<HostStats>, s: HostStats)
    ensures Totals(all + [s]) == Totals(all) + s.total
    ensures AllTypes(all + [s]) == AllTypes(all) + s.types
    ensures AllLibraries(all + [s]) == AllLibraries(all) + s.libraries
  {
    if all == [] {
      assert [s][1..] == [] && [] + [s] == [s];
    } else {
      assert (all + [s])[1..] == all[1..] + [s];
      AllSnoc(all[1..], s);
    }
  }

  /** Merging conserves: of the base and of every source that answered, each count by type and by library is there as
      often as they report it, in their order, and the totals add up. */
  lemma {:induction false} MergeConserves(base: HostStats, sources: seq<Option<HostStats>>)
    ensures Merged(base, sources).total == base.total + Totals(Answered(sources))
    ensures Merged(base, sources).types == base.types + AllTypes(Answered(sources))
    ensures Merged(base, sources).libraries == base.libraries + AllLibraries(Answered(sources))
  {
    if sources != [] {
      var init, last := sources[..|sources| - 1], sources[|sources| - 1];
      assert sources == init + [last];
      MergeConserves(base, init);
      var all := Answered(init);
      if last.Some? {
        AllSnoc(all, last.value);
        Associates(base.types, AllTypes(all), last.value.types);
        Associates(base.libraries, AllLibraries(all), last.value.libraries);
      } else {
        assert Answered(sources) == all;
      }
    }
  }

  lemma Associates<T>(a: seq<T>, b: seq<T>, c: seq<T>)
    ensures a + b + c == a + (b + c)
  {
  }

  /** The store's statistics as the page shows them: through the host's shape and back, when there is a host. */
  method AddSources(stats: Stats, host: bool, sources: seq<Option<HostStats>>) returns (out: Stats)
    ensures out == if host then Extended(stats, Answered(sources)) else stats
  {
    if !host {
      return stats;
    }
    var base := RuntimeStatsFromStore(Some(stats));
    var merged := WithSourceStats(Some(base), sources);
    out := StoreStatsFromRuntime(Some(merged), stats.qualities);
    MergeConserves(base, sources);
    var all := Answered(sources);
    assert FromHost(Some(base), stats.qualities) == stats;
    assert TypeCounts(base.types + AllTypes(all)) == TypeCounts(base.types) + TypeCounts(AllTypes(all));
    assert LibraryCounts(base.libraries + AllLibraries(all))
        == LibraryCounts(base.libraries) + LibraryCounts(AllLibraries(all));
  }

  /** Statistics with the counts of some sources after their own, and qualities as they were. */
  function Extended(s: Stats, all: seq<HostStats>): Stats {
    Stats(s.total + Totals(all), s.types + TypeCounts(AllTypes(all)), s.libraries + LibraryCounts(AllLibraries(all)),
          s.qualities)
  }

  lemma ExtendedSnoc(s: Stats, init: seq<HostStats>, last: HostStats)
    ensures Extended(s, init + [last]).total == Extended(s, init).total + last.total
    ensures Extended(s, init + [last]).types == Extended(s, init).types + TypeCounts(last.types)
  {
    AllSnoc(init, last);
    assert TypeCounts(AllTypes(init) + last.types) == TypeCounts(AllTypes(init)) + TypeCounts(last.types);
    Associates(s.types, TypeCounts(AllTypes(init)), TypeCounts(last.types));
  }

  /** Without a source that answers nothing changes, and totals that are the sum of the type counts stay so. */
  lemma {:induction false} ExtendedBalanced(s: Stats, all: seq<HostStats>)
    ensures all == [] ==> Extended(s, all) == s
    ensures Balanced(s) && (forall h :: h in all ==> Balanced(FromHost(Some(h), []))) ==> Balanced(Extended(s, all))
    decreases |all|
  {
    if all != [] {
      var init, last := all[..|all| - 1], all[|all| - 1];
      assert all == init + [last] && last in all && forall h :: h in init ==> h in all;
      ExtendedBalanced(s, init);
      ExtendedSnoc(s, init, last);
      SumConcat(Extended(s, init).types, TypeCounts(last.types));
    }
  }

  // ----- scoping -----

  function FilterTypes(types: seq<TypeCount>, allowed: set<string>): seq<TypeCount> {
    if types == [] then []
    else
      var last := types[|types| - 1];
      FilterTypes(types[..|types| - 1], allowed) + if last.mediaType in allowed then [last] else []
  }

  function LibraryType(c: LibraryCount): string {
    if c.mediaType == "tv" then "series" else c.mediaType
  }

  function FilterLibraries(libraries: seq<LibraryCount>, allowed: set<string>): seq<LibraryCount> {
    if libraries == [] then []
    else
      var last := libraries[|libraries| - 1];
      FilterLibraries(libraries[..|libraries| - 1], allowed) + if LibraryType(last) in allowed then [last] else []
  }

  function Words(types: seq<string>): set<string> { set t | t in StoreTypes(types) }

  function Scoped(s: Stats, mediaTypes: seq<string>): Stats {
    if StoreTypes(mediaTypes) == [] then s
    else
      var types := FilterTypes(s.types, Words(mediaTypes));
      Stats(Sum(types), types, FilterLibraries(s.libraries, Words(mediaTypes)), s.qualities)
  }

  method ScopeCatalogStats(stats: Stats, mediaTypes: seq<string>) returns (out: Stats)
    ensures out == Scoped(stats, mediaTypes)
  {
    var normalized := ComputeStoreTypes(mediaTypes);
    if |normalized| == 0 {
      return stats;
    }
    var allowed := set t | t in normalized;
    assert allowed == Words(mediaTypes);
    out := Stats(0, [], [], stats.qualities);
    for i := 0 to |stats.types|
      invariant out == Stats(Sum(out.types), FilterTypes(stats.types[..i], allowed), [], stats.qualities)
    {
      PrefixStep(stats.types, i);
      var count := stats.types[i];
      if count.mediaType in allowed {
        assert (out.types + [count])[..|out.types|] == out.types;
        out := out.(types := out.types + [count], total := out.total + count.count);
      }
    }
    assert stats.types[..|stats.types|] == stats.types;
    var libraries := [];
    for i := 0 to |stats.libraries|
      invariant libraries == FilterLibraries(stats.libraries[..i], allowed)
    {
      PrefixStep(stats.libraries, i);
      var count := stats.libraries[i];
      var libraryType := count.mediaType;
      if libraryType == "tv" {
        libraryType := "series";
      }
      if libraryType in allowed {
        libraries := libraries + [count];
      }
    }
    assert stats.libraries[..|stats.libraries|] == stats.libraries;
    out := out.(libraries := libraries);
  }

  lemma FilterSnoc(types: seq<TypeCount>, t: TypeCount, libraries: seq<LibraryCount>, l: LibraryCount,
                   allowed: set<string>)
    ensures FilterTypes(types + [t], allowed)
            == FilterTypes(types, allowed) + if t.mediaType in allowed then [t] else []
    ensures FilterLibraries(libraries + [l], allowed)
            == FilterLibraries(libraries, allowed) + if LibraryType(l) in allowed then [l] else []
  {
    assert (types + [t])[..|types|] == types && (libraries + [l])[..|libraries|] == libraries;
  }

  lemma {:induction false} FilterTypesTwice(types: seq<TypeCount>, a: set<string>, b: set<string>)
    ensures FilterTypes(FilterTypes(types, a), b) == FilterTypes(types, a * b)
  {
    if types != [] {
      var init, last := types[..|types| - 1], types[|types| - 1];
      FilterTypesTwice(init, a, b);
      FilterSnoc(FilterTypes(init, a), last, [], LibraryCount("", "", "", 0), b);
      assert last.mediaType !in a ==> FilterTypes(types, a) == FilterTypes(init, a);
    }
  }

  lemma {:induction false} FilterLibrariesTwice(libraries: seq<LibraryCount>, a: set<string>, b: set<string>)
    ensures FilterLibraries(FilterLibraries(libraries, a), b) == FilterLibraries(libraries, a * b)
  {
    if libraries != [] {
      var init, last := libraries[..|libraries| - 1], libraries[|libraries| - 1];
      FilterLibrariesTwice(init, a, b);
      FilterSnoc([], TypeCount("", 0), FilterLibraries(init, a), last, b);
      assert LibraryType(last) !in a ==> FilterLibraries(libraries, a) == FilterLibraries(init, a);
    }
  }

  lemma {:induction false} StoreTypesFixed(types: seq<string>)
    requires forall t :: t in types ==> t != "" && t != "tv"
    ensures StoreTypes(types) == types
  {
    if types != [] {
      var init, last := types[..|types| - 1], types[|types| - 1];
      assert types == init + [last] && last in types && forall t :: t in init ==> t in types;
      StoreTypesFixed(init);
    }
  }

  lemma {:induction false} StoreTypesWords(types: seq<string>)
    ensures forall t :: t in StoreTypes(types) ==> t != "" && t != "tv"
  {
    if types != [] {
      StoreTypesWords(types[..|types| - 1]);
    }
  }

  lemma {:induction false} FilterNothing(types: seq<TypeCount>, libraries: seq<LibraryCount>)
    ensures FilterTypes(types, {}) == [] && FilterLibraries(libraries, {}) == []
    decreases |types| + |libraries|
  {
    if types != [] {
      FilterNothing(types[..|types| - 1], libraries);
    } else if libraries != [] {
      FilterNothing(types, libraries[..|libraries| - 1]);
    }
  }

  /** Scoping by A and then by B is scoping by what both name.  When they name nothing in common nothing is left,
      whereas scoping by the empty intersection would leave everything: the empty list means no scope. */
  lemma ScopeTwice(s: Stats, a: seq<string>, b: seq<string>)
    requires StoreTypes(a) != [] && StoreTypes(b) != []
    ensures var both := Keep(StoreTypes(a), StoreTypes(b));
            && Scoped(Scoped(s, a), b) == (if both != [] then Scoped(s, both) else Stats(0, [], [], s.qualities))
            && (both == [] ==> Scoped(s, both) == s)
  {
    var both := Keep(StoreTypes(a), StoreTypes(b));
    KeepMembers(StoreTypes(a), StoreTypes(b));
    StoreTypesWords(a);
    StoreTypesFixed(both);
    FilterTypesTwice(s.types, Words(a), Words(b));
    FilterLibrariesTwice(s.libraries, Words(a), Words(b));
    assert Words(both) == Words(a) * Words(b);
    if both == [] {
      assert Words(a) * Words(b) == {};
      FilterNothing(s.types, s.libraries);
    }
  }

  lemma {:induction false} FilterTypesMembers(types: seq<TypeCount>, allowed: set<string>)
    ensures forall c :: c in FilterTypes(types, allowed) <==> c in types && c.mediaType in allowed
  {
    if types != [] {
      var init, last := types[..|types| - 1], types[|types| - 1];
      assert types == init + [last];
      FilterTypesMembers(init, allowed);
    }
  }

  lemma {:induction false} FilterTypesExact(types: seq<TypeCount>, allowed: set<string>) returns (at: seq<nat>)
    ensures Chosen(types, (c: TypeCount) => c.mediaType in allowed, c => c, at, FilterTypes(types, allowed))
  {
    at := [];
    if types != [] {
      var init, last := types[..|types| - 1], types[|types| - 1];
      at := FilterTypesExact(init, allowed);
      ChosenSnoc(init, last, (c: TypeCount) => c.mediaType in allowed, c => c, at, FilterTypes(init, allowed));
      assert types == init + [last];
      at := at + if last.mediaType in allowed then [|init|] else [];
    }
  }

  lemma {:induction false} FilterLibrariesExact(libraries: seq<LibraryCount>, allowed: set<string>)
    returns (at: seq<nat>)
    ensures Chosen(libraries, (c: LibraryCount) => (if c.mediaType == "tv" then "series" else c.mediaType) in allowed,
                   c => c, at,
                   FilterLibraries(libraries, allowed))
  {
    at := [];
    if libraries != [] {
      var init, last := libraries[..|libraries| - 1], libraries[|libraries| - 1];
      at := FilterLibrariesExact(init, allowed);
      ChosenSnoc(init, last, (c: LibraryCount) => (if c.mediaType == "tv" then "series" else c.mediaType) in allowed,
                 c => c, at,
                 FilterLibraries(init, allowed));
      assert libraries == init + [last];
      at := at + if (if last.mediaType == "tv" then "series" else last.mediaType) in allowed then [|init|] else [];
    }
  }

  /** A scope that names a type keeps exactly the counts of the types it names, in order, and of the libraries of such
      a type, "tv" ones under "series", sums the total anew and leaves the qualities; one that names none changes
      nothing. */
  lemma ScopeExactly(s: Stats, mediaTypes: seq<string>) returns (at: seq<nat>, at': seq<nat>)
    ensures var words, r := (set t | t in StoreTypes(mediaTypes)), Scoped(s, mediaTypes);
            if StoreTypes(mediaTypes) == [] then r == s
            else
              && Chosen(s.types, (c: TypeCount) => c.mediaType in words, c => c, at, r.types)
              && Chosen(s.libraries,
                        (c: LibraryCount) => (if c.mediaType == "tv" then "series" else c.mediaType) in words,
                        c => c, at', r.libraries)
              && r.total == Sum(r.types) && r.qualities == s.qualities
  {
    at := FilterTypesExact(s.types, Words(mediaTypes));
    at' := FilterLibrariesExact(s.libraries, Words(mediaTypes));
  }

  /** A scoped payload is balanced and shows exactly the counts of the allowed types. */
  lemma ScopeShows(s: Stats, mediaTypes: seq<string>)
    requires StoreTypes(mediaTypes) != []
    ensures Balanced(Scoped(s, mediaTypes))
    ensures forall c :: c in Scoped(s, mediaTypes).types <==> c in s.types && c.mediaType in StoreTypes(mediaTypes)
  {
    FilterTypesMembers(s.types, Words(mediaTypes));
  }
}
