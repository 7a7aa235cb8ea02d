/** The public-library floor: internal/store/store.go, the merge functions of internal/server/validation.go and the
    allowlist normaliser of internal/runtime/runtime.go. */
module LibraryScope {
  import opened Text

  // ----- lists -----

  predicate Distinct<T(==)>(s: seq<T>) {
    forall i, j :: 0 <= i < j < |s| ==> s[i] != s[j]
  }

  /** First occurrences, in order. */
  function Dedup<T(==)>(s: seq<T>): seq<T> {
    if s == [] then []
    else
      var d, last := Dedup(s[..|s| - 1]), s[|s| - 1];
      if last in d then d else d + [last]
  }

  lemma {:induction false} DedupMembers<T>(s: seq<T>)
    ensures Distinct(Dedup(s)) && forall x :: x in Dedup(s) <==> x in s
  {
    if s != [] {
      DedupMembers(s[..|s| - 1]);
      assert s == s[..|s| - 1] + [s[|s| - 1]];
    }
  }

  lemma {:induction false} DedupDistinct<T>(s: seq<T>)
    requires Distinct(s)
    ensures Dedup(s) == s
  {
    if s != [] {
      DedupDistinct(s[..|s| - 1]);
      assert s == s[..|s| - 1] + [s[|s| - 1]];
    }
  }

  /** `r` are the entries of `s` that do not occur before, in order; `at` are their positions. */
  ghost predicate Firsts<T>(s: seq<T>, at: seq<nat>, r: seq<T>) {
    && |r| == |at|
    && (forall i, j :: 0 <= i < j < |at| ==> at[i] < at[j])
    && (forall i :: 0 <= i < |at| ==> at[i] < |s| && s[at[i]] !in s[..at[i]] && r[i] == s[at[i]])
    && (forall k: nat :: k < |s| && s[k] !in s[..k] ==> k in at)
  }

  lemma FirstsSnoc<T>(s: seq<T>, x: T, at: seq<nat>, r: seq<T>)
    requires Firsts(s, at, r)
    ensures Firsts(s + [x], if x in s then at else at + [|s|], if x in s then r else r + [x])
  {
    var s' := s + [x];
    assert forall k: nat :: k <= |s| ==> s'[..k] == s[..k];
    assert s'[|s|] == x;
    forall k: nat | k < |s'| && s'[k] !in s'[..k] ensures k in if x in s then at else at + [|s|] {
      if k < |s| {
        assert s'[k] == s[k];
      }
    }
  }

  lemma DedupStep<T>(init: seq<T>, last: T)
    ensures Dedup(init + [last]) == if last in init then Dedup(init) else Dedup(init) + [last]
  {
    DedupMembers(init);
    assert (init + [last])[..|init|] == init;
  }

  lemma DedupGrows<T>(init: seq<T>, last: T, at: seq<nat>) returns (at': seq<nat>)
    requires Firsts(init, at, Dedup(init))
    ensures Firsts(init + [last], at', Dedup(init + [last]))
  {
    DedupStep(init, last);
    FirstsSnoc(init, last, at, Dedup(init));
    at' := if last in init then at else at + [|init|];
  }

  /** Deduplicating keeps exactly the first occurrences, in order. */
  lemma {:induction false} DedupExact<T>(s: seq<T>) returns (at: seq<nat>)
    ensures Firsts(s, at, Dedup(s))
    decreases |s|
  {
    if s == [] {
      at := [];
    } else {
      at := DedupExact(s[..|s| - 1]);
      at := DedupGrows(s[..|s| - 1], s[|s| - 1], at);
      assert s[..|s| - 1] + [s[|s| - 1]] == s;
    }
  }

  /** The members of the first list that are in the second, in order. */
  function Keep<T(==)>(req: seq<T>, allow: seq<T>): seq<T> {
    if req == [] then []
    else Keep(req[..|req| - 1], allow) + if req[|req| - 1] in allow then [req[|req| - 1]] else []
  }

  lemma {:induction false} KeepMembers<T>(req: seq<T>, allow: seq<T>)
    ensures forall x :: x in Keep(req, allow) <==> x in req && x in allow
    ensures Distinct(req) ==> Distinct(Keep(req, allow))
  {
    if req != [] {
      KeepMembers(req[..|req| - 1], allow);
      assert req == req[..|req| - 1] + [req[|req| - 1]];
    }
  }

  lemma {:induction false} KeepExact<T>(req: seq<T>, allow: seq<T>) returns (at: seq<nat>)
    ensures Chosen(req, x => x in allow, x => x, at, Keep(req, allow))
  {
    at := [];
    if req != [] {
      var init, last := req[..|req| - 1], req[|req| - 1];
      at := KeepExact(init, allow);
      ChosenSnoc(init, last, x => x in allow, x => x, at, Keep(init, allow));
      assert req == init + [last];
      at := at + if last in allow then [|init|] else [];
    }
  }

  lemma {:induction false} KeepInside<T>(req: seq<T>, allow: seq<T>)
    requires forall x :: x in req ==> x in allow
    ensures Keep(req, allow) == req
  {
    if req != [] {
      assert req == req[..|req| - 1] + [req[|req| - 1]];
      KeepInside(req[..|req| - 1], allow);
    }
  }

  // ----- cleanIDs -----

  /** A text that names a library: a positive 64-bit decimal, surrounding space ignored. */
  function PositiveId(raw: string): Option<int> {
    match Atoi(TrimSpace(raw))
    case Some(n) => if n > 0 then Some(n) else None
    case None => None
  }

  predicate IsId(n: int) { 0 < n <= MAX_INT }

  function Parsed(items: seq<string>): seq<int> {
    if items == [] then []
    else
      var n := PositiveId(items[|items| - 1]);
      Parsed(items[..|items| - 1]) + if n.Some? then [n.value] else []
  }

  lemma {:induction false} ParsedMembers(items: seq<string>)
    ensures forall n :: n in Parsed(items) ==> IsId(n)
    ensures forall n :: n in Parsed(items) <==> exists x :: x in items && PositiveId(x) == Some(n)
  {
    if items != [] {
      var init, last := items[..|items| - 1], items[|items| - 1];
      ParsedMembers(init);
      assert items == init + [last];
      forall n ensures n in Parsed(items) <==> exists x :: x in items && PositiveId(x) == Some(n) {
        if n in Parsed(init) {
          var x :| x in init && PositiveId(x) == Some(n);
          assert x in items;
        } else if PositiveId(last) == Some(n) {
          assert last in items;
        }
      }
    }
  }

  lemma {:induction false} ParsedExact(items: seq<string>) returns (at: seq<nat>)
    ensures Chosen(items, x => PositiveId(x).Some?, x => match PositiveId(x) case Some(n) => n case None => 0, at,
                   Parsed(items))
  {
    at := [];
    if items != [] {
      var init, last := items[..|items| - 1], items[|items| - 1];
      at := ParsedExact(init);
      ChosenSnoc(init, last, x => PositiveId(x).Some?, x => match PositiveId(x) case Some(n) => n case None => 0, at,
                 Parsed(init));
      assert items == init + [last];
      at := at + if PositiveId(last).Some? then [|init|] else [];
    }
  }

  /** The positive ids of a list, each once, in first-seen order. */
  function CleanIDs(items: seq<string>): seq<int> {
    Dedup(Parsed(items))
  }

  lemma CleanIDsMembers(items: seq<string>)
    ensures Distinct(CleanIDs(items))
    ensures forall n :: n in CleanIDs(items) ==> IsId(n)
    ensures forall n :: n in CleanIDs(items) <==> exists x :: x in items && PositiveId(x) == Some(n)
  {
    ParsedMembers(items);
    DedupMembers(Parsed(items));
  }

  function Texts(ids: seq<int>): (r: seq<string>)
    ensures |r| == |ids| && forall i :: 0 <= i < |ids| ==> r[i] == Itoa(ids[i])
  {
    seq(|ids|, i requires 0 <= i < |ids| => Itoa(ids[i]))
  }

  /** normalizeLibraryIDs: canonical texts, deduplicated as texts. */
  function NormalizeLibraryIDs(items: seq<string>): seq<string> {
    Dedup(Texts(Parsed(items)))
  }

  lemma TextsContain(ids: seq<int>, n: int)
    ensures Itoa(n) in Texts(ids) <==> n in ids
  {
    if Itoa(n) in Texts(ids) {
      var i :| 0 <= i < |ids| && Texts(ids)[i] == Itoa(n);
      ItoaInjective(ids[i], n);
    }
    if n in ids {
      var i :| 0 <= i < |ids| && ids[i] == n;
      assert Texts(ids)[i] == Itoa(n);
    }
  }

  lemma {:induction false} DedupTexts(ids: seq<int>)
    ensures Dedup(Texts(ids)) == Texts(Dedup(ids))
  {
    if ids != [] {
      var init, last := ids[..|ids| - 1], ids[|ids| - 1];
      DedupTexts(init);
      assert Texts(ids)[..|ids| - 1] == Texts(init);
      TextsContain(Dedup(init), last);
    }
  }

  /** Canonical texts read back as the ids they were made from. */
  lemma {:induction false} ParsedTexts(ids: seq<int>)
    requires forall n :: n in ids ==> IsId(n)
    ensures Parsed(Texts(ids)) == ids
  {
    if ids != [] {
      var init, last := ids[..|ids| - 1], ids[|ids| - 1];
      assert ids == init + [last] && IsId(last);
      ParsedTexts(init);
      assert Texts(ids)[..|ids| - 1] == Texts(init);
      TextParses(last);
    }
  }

  lemma TextParses(n: int)
    requires IsId(n)
    ensures PositiveId(Itoa(n)) == Some(n)
  {
    AtoiItoa(n);
    TrimmedUnchanged(Itoa(n));
  }

  /** The normalised allowlist is the canonical text of the ids the store floors with; so normalising first makes no
      difference to the floor, and normalising twice none to the text. */
  lemma NormalizeAgrees(items: seq<string>)
    ensures NormalizeLibraryIDs(items) == Texts(CleanIDs(items))
    ensures CleanIDs(NormalizeLibraryIDs(items)) == CleanIDs(items)
    ensures NormalizeLibraryIDs(NormalizeLibraryIDs(items)) == NormalizeLibraryIDs(items)
  {
    var ids := CleanIDs(items);
    DedupTexts(Parsed(items));
    CleanIDsMembers(items);
    ParsedTexts(ids);
    DedupDistinct(ids);
    DedupTexts(ids);
  }

  lemma TrimmedIdAgrees(x: string)
    ensures PositiveId(TrimSpace(x)) == PositiveId(x)
    ensures TrimSpace(x) == "" ==> PositiveId(x) == None
  {
    TrimSpaceShape(x);
    TrimmedUnchanged(TrimSpace(x));
  }

  lemma ParsedCleaned(clean: seq<string>, x: string)
    ensures Parsed(clean + if TrimSpace(x) != "" then [TrimSpace(x)] else [])
            == Parsed(clean) + if PositiveId(x).Some? then [PositiveId(x).value] else []
  {
    TrimmedIdAgrees(x);
    if TrimSpace(x) != "" {
      ParsedSnoc(clean, TrimSpace(x));
    } else {
      assert clean + [] == clean;
    }
  }

  /** Trimming and dropping blanks first leaves the ids as they are. */
  lemma {:induction false} CleanListIds(items: seq<string>)
    ensures Parsed(CleanList(items)) == Parsed(items)
  {
    if items != [] {
      var init, last := items[..|items| - 1], items[|items| - 1];
      CleanListIds(init);
      ParsedCleaned(CleanList(init), last);
    }
  }

  /** The loop of cleanIDs with its membership map. */
  method ComputeCleanIDs(items: seq<string>) returns (ids: seq<int>)
    ensures ids == CleanIDs(items)
  {
    var seen: set<int> := {};
    ids := [];
    for i := 0 to |items|
      invariant ids == CleanIDs(items[..i])
      invariant forall n :: n in seen <==> n in ids
    {
      PrefixStep(items, i);
      ParsedSnoc(items[..i], items[i]);
      var raw := TrimSpace(items[i]);
      if raw == "" {
        continue;
      }
      var n := Atoi(raw);
      if n.None? || n.value <= 0 || n.value in seen {
        continue;
      }
      seen := seen + {n.value};
      ids := ids + [n.value];
    }
    assert items[..|items|] == items;
  }

  lemma ParsedSnoc(init: seq<string>, last: string)
    ensures PositiveId(last).None? ==> Parsed(init + [last]) == Parsed(init)
    ensures PositiveId(last).Some? ==> Parsed(init + [last]) == Parsed(init) + [PositiveId(last).value]
    ensures PositiveId(last).Some? ==>
              var n := PositiveId(last).value;
              CleanIDs(init + [last]) == CleanIDs(init) + if n in CleanIDs(init) then [] else [n]
  {
    assert (init + [last])[..|init|] == init;
    if PositiveId(last).Some? {
      assert (Parsed(init) + [PositiveId(last).value])[..|Parsed(init)|] == Parsed(init);
    }
  }

  /** The loop of normalizeLibraryIDs with its membership map. */
  method ComputeNormalizeLibraryIDs(items: seq<string>) returns (r: seq<string>)
    ensures r == NormalizeLibraryIDs(items)
  {
    var seen: set<string> := {};
    r := [];
    for i := 0 to |items|
      invariant r == NormalizeLibraryIDs(items[..i])
      invariant forall x :: x in seen <==> x in r
    {
      PrefixStep(items, i);
      ParsedSnoc(items[..i], items[i]);
      var raw := TrimSpace(items[i]);
      if raw == "" {
        continue;
      }
      var n := Atoi(raw);
      if n.None? || n.value <= 0 {
        continue;
      }
      var canon := Itoa(n.value);
      NormalizeSnoc(Parsed(items[..i]), n.value);
      if canon in seen {
        continue;
      }
      seen := seen + {canon};
      r := r + [canon];
    }
    assert items[..|items|] == items;
  }

  lemma NormalizeSnoc(ids: seq<int>, n: int)
    ensures Dedup(Texts(ids + [n])) == Dedup(Texts(ids)) + if Itoa(n) in Dedup(Texts(ids)) then [] else [Itoa(n)]
  {
    assert Texts(ids + [n])[..|ids|] == Texts(ids);
  }

  // ----- the floor -----

  /** What a query may touch. */
  datatype Scope = DenyAll | Only(ids: seq<int>)

  /** allowedLibraryIDs */
  function Allowed(allow: seq<int>, requested: seq<string>): Scope {
    if allow == [] then DenyAll
    else
      var req := CleanIDs(requested);
      if req == [] then Only(allow)
      else
        var out := Keep(req, allow);
        if out == [] then DenyAll else Only(out)
  }

  /** ScopePublicLibraryIDs: None stands for denyAll. */
  function ScopePublic(allow: seq<int>, requested: seq<string>): Option<seq<string>> {
    match Allowed(allow, requested)
    case DenyAll => None
    case Only(ids) => Some(Texts(ids))
  }

  /** The store's in-memory allowlist, reloaded whenever the configuration is read. */
  class PublicFloor {
    var publicLibraryIDs: seq<int>

    constructor ()
      ensures publicLibraryIDs == []
    {
      publicLibraryIDs := [];
    }

    method SetPublicLibraryIDs(ids: seq<string>)
      modifies this
      ensures publicLibraryIDs == CleanIDs(ids)
    {
      publicLibraryIDs := ComputeCleanIDs(ids);
    }

    method AllowedLibraryIDs(requested: seq<string>) returns (ids: seq<int>, denyAll: bool)
      ensures (if denyAll then DenyAll else Only(ids)) == Allowed(publicLibraryIDs, requested)
    {
      ids, denyAll := [], true;
      var allow := publicLibraryIDs;
      if |allow| == 0 {
        return;
      }
      var req := ComputeCleanIDs(requested);
      if |req| == 0 {
        return allow, false;
      }
      var out := FilterBy(req, allow);
      if |out| == 0 {
        return;
      }
      return out, false;
    }

    method ScopePublicLibraryIDs(requested: seq<string>) returns (ids: seq<string>, denyAll: bool)
      ensures (if denyAll then None else Some(ids)) == ScopePublic(publicLibraryIDs, requested)
    {
      var intIDs, deny := AllowedLibraryIDs(requested);
      if deny {
        return [], true;
      }
      ids := [];
      for i := 0 to |intIDs|
        invariant ids == Texts(intIDs[..i])
      {
        assert Texts(intIDs[..i + 1]) == Texts(intIDs[..i]) + [Itoa(intIDs[i])];
        ids := ids + [Itoa(intIDs[i])];
      }
      assert intIDs[..|intIDs|] == intIDs;
      return ids, false;
    }
  }

  /** The membership-map loop shared by allowedLibraryIDs, mergeLibraryIDs and mergeMediaTypes. */
  method FilterBy<T(==)>(req: seq<T>, allow: seq<T>) returns (out: seq<T>)
    ensures out == Keep(req, allow)
  {
    var allowed := set x | x in allow;
    out := [];
    for i := 0 to |req|
      invariant out == Keep(req[..i], allow)
    {
      PrefixStep(req, i);
      if req[i] in allowed {
        out := out + [req[i]];
      }
    }
    assert req[..|req|] == req;
  }

  // ----- token claim and request -----

  /** Intersection of two cleaned lists where an empty one sets no bound; None is the 400 answer. */
  function MergeClean(allowed: seq<string>, requested: seq<string>): Option<seq<string>> {
    if allowed == [] then Some(requested)
    else if requested == [] then Some(allowed)
    else if Keep(requested, allowed) == [] then None else Some(Keep(requested, allowed))
  }

  function MergeLibraryIDs(allowed: seq<string>, requested: seq<string>): Option<seq<string>> {
    MergeClean(CleanList(allowed), CleanList(requested))
  }

  method ComputeMergeLibraryIDs(allowed: seq<string>, requested: seq<string>) returns (ids: seq<string>, ok: bool)
    ensures (if ok then Some(ids) else None) == MergeLibraryIDs(allowed, requested)
  {
    var req := ComputeCleanList(requested);
    var permitted := ComputeCleanList(allowed);
    if |permitted| == 0 {
      return req, true;
    }
    if |req| == 0 {
      return permitted, true;
    }
    ids := FilterBy(req, permitted);
    ok := |ids| > 0;
  }

  lemma MergeCleanExactly(allowed: seq<string>, requested: seq<string>) returns (at: seq<nat>)
    ensures var m := MergeClean(allowed, requested);
            && (allowed == [] ==> m == Some(requested))
            && (allowed != [] && requested == [] ==> m == Some(allowed))
            && (allowed != [] && requested != [] ==>
                  && (m.None? <==> forall x :: x in requested ==> x !in allowed)
                  && (m.Some? ==> Chosen(requested, x => x in allowed, x => x, at, m.value)))
  {
    at := KeepExact(requested, allowed);
    KeepMembers(requested, allowed);
    var kept := Keep(requested, allowed);
    if kept != [] {
      assert kept[0] in kept;
    }
  }

  /** An empty side sets no bound.  Otherwise the result is what the request and the claim share, in the order of the
      request and as often as the request has it, and it is refused exactly when they share nothing. */
  lemma MergeExactly(allowed: seq<string>, requested: seq<string>) returns (at: seq<nat>)
    ensures var claim, request, m := CleanList(allowed), CleanList(requested), MergeLibraryIDs(allowed, requested);
            && (claim == [] ==> m == Some(request))
            && (claim != [] && request == [] ==> m == Some(claim))
            && (claim != [] && request != [] ==>
                  && (m.None? <==> forall x :: x in request ==> x !in claim)
                  && (m.Some? ==> Chosen(request, x => x in claim, x => x, at, m.value)))
  {
    at := MergeCleanExactly(CleanList(allowed), CleanList(requested));
  }

  lemma MergeMembers(allowed: seq<string>, requested: seq<string>)
    requires MergeLibraryIDs(allowed, requested).Some?
    ensures var m := MergeLibraryIDs(allowed, requested).value;
            && Clean(m)
            && (CleanList(allowed) != [] ==> m != [] && forall x :: x in m ==> x in CleanList(allowed))
            && (CleanList(requested) != [] ==> forall x :: x in m ==> x in CleanList(requested))
  {
    KeepMembers(CleanList(requested), CleanList(allowed));
    CleanListClean(requested);
    CleanListClean(allowed);
  }

  // ----- what the floor guarantees -----

  /** The library filter of every catalog query: an empty id list means no filter. */
  predicate LibraryFilter(ids: seq<int>, libraries: set<int>) {
    |ids| == 0 || exists l :: l in libraries && l in ids
  }

  lemma AllowedMembers(allow: seq<int>, requested: seq<string>)
    ensures var scope, req := Allowed(allow, requested), CleanIDs(requested);
            && (scope.DenyAll? <==> forall l :: l in allow ==> req != [] && l !in req)
            && (scope.Only? ==> scope.ids != [])
            && (scope.Only? ==> forall l :: l in scope.ids <==> l in allow && (req == [] || l in req))
  {
    var scope, req, out := Allowed(allow, requested), CleanIDs(requested), Keep(CleanIDs(requested), allow);
    KeepMembers(req, allow);
    if scope.Only? {
      var l := scope.ids[0];
      assert l in scope.ids;
      assert l in allow && (req == [] || l in req) by {
        if req != [] {
          assert l in out;
        }
      }
    } else if allow != [] {
      forall l | l in allow ensures l !in req {
        assert l !in out;
      }
    }
  }

  /** An entry both sides allow: one of them has it, and so does each that has any. */
  ghost predicate Asked(claim: seq<string>, request: seq<string>, x: string) {
    var c, r := CleanList(claim), CleanList(request);
    (x in c || x in r) && (c == [] || x in c) && (r == [] || x in r)
  }

  /** Such an entry is the number of this library, or none is a number at all. */
  ghost predicate Within(claim: seq<string>, request: seq<string>, l: int) {
    || (exists x :: Asked(claim, request, x) && PositiveId(x) == Some(l))
    || (forall x :: Asked(claim, request, x) ==> PositiveId(x).None?)
  }

  lemma AskedMembers(claim: seq<string>, request: seq<string>)
    requires MergeLibraryIDs(claim, request).Some?
    ensures forall x :: x in MergeLibraryIDs(claim, request).value <==> Asked(claim, request, x)
  {
    KeepMembers(CleanList(request), CleanList(claim));
  }

  lemma EntryNames(items: seq<string>, x: string)
    requires x in items && PositiveId(x).Some?
    ensures PositiveId(x).value in CleanIDs(items)
  {
    CleanIDsMembers(items);
  }

  lemma NamedWithin(claim: seq<string>, request: seq<string>, l: int)
    requires MergeLibraryIDs(claim, request).Some?
    ensures var named := CleanIDs(MergeLibraryIDs(claim, request).value);
            named == [] || l in named <==> Within(claim, request, l)
  {
    var merged := MergeLibraryIDs(claim, request).value;
    var named := CleanIDs(merged);
    AskedMembers(claim, request);
    if x :| x in merged && PositiveId(x).Some? {
      EntryNames(merged, x);
      CleanIDsMembers(merged);
    } else {
      NothingNamed(merged);
    }
  }

  lemma NothingNamed(items: seq<string>)
    requires forall x :: x in items ==> PositiveId(x).None?
    ensures CleanIDs(items) == []
  {
    var named := CleanIDs(items);
    if named != [] {
      var n := named[0];
      assert n in named;
      CleanIDsMembers(items);
    }
  }

  /** The order of the scope: the allowlist's own, or that in which the request first names its part of it. */
  lemma AllowedExactly(allow: seq<int>, requested: seq<string>) returns (at: seq<nat>)
    ensures var scope, named := Allowed(allow, requested), CleanIDs(requested);
            && (allow == [] ==> scope.DenyAll?)
            && (allow != [] && named == [] ==> scope == Only(allow))
            && (allow != [] && named != [] ==>
                  && (scope.DenyAll? <==> forall n :: n in named ==> n !in allow)
                  && (scope.Only? ==> Chosen(named, n => n in allow, n => n, at, scope.ids)))
  {
    var named := CleanIDs(requested);
    at := KeepExact(named, allow);
    KeepMembers(named, allow);
    var kept := Keep(named, allow);
    if kept != [] {
      var n := kept[0];
      assert n in kept;
    }
  }

  /** Main result.  For every allowlist, claim and request the floored list is never empty, so the "empty means no
      filter" branch is never taken, and a row passes exactly when one of its libraries is allowlisted and within what
      claim and request ask for. */
  lemma FloorHolds(allow: seq<int>, claim: seq<string>, request: seq<string>, libraries: set<int>)
    requires MergeLibraryIDs(claim, request).Some?
    ensures var scope := Allowed(allow, MergeLibraryIDs(claim, request).value);
            && (scope.DenyAll? <==> forall l :: l in allow ==> !Within(claim, request, l))
            && (scope.Only? ==>
                  && scope.ids != []
                  && (LibraryFilter(scope.ids, libraries) <==>
                        exists l :: l in libraries && l in allow && Within(claim, request, l)))
  {
    AllowedMembers(allow, MergeLibraryIDs(claim, request).value);
    forall l ensures var named := CleanIDs(MergeLibraryIDs(claim, request).value);
                     named == [] || l in named <==> Within(claim, request, l)
    {
      NamedWithin(claim, request, l);
    }
  }

  /** Scoping a scoped list again changes nothing. */
  lemma ScopeIdempotent(allow: seq<int>, requested: seq<string>)
    requires Distinct(allow) && forall n :: n in allow ==> IsId(n)
    requires ScopePublic(allow, requested).Some?
    ensures ScopePublic(allow, ScopePublic(allow, requested).value) == ScopePublic(allow, requested)
  {
    var ids := Allowed(allow, requested).ids;
    AllowedMembers(allow, requested);
    CleanIDsMembers(requested);
    KeepMembers(CleanIDs(requested), allow);
    ParsedTexts(ids);
    DedupDistinct(ids);
    KeepInside(ids, allow);
  }

  /** The floored scope stays inside the ids the claim names. */
  ghost predicate ClaimRespected(claim: seq<string>, allow: seq<int>, request: seq<string>) {
    var merged := MergeLibraryIDs(claim, request);
    merged.Some? && Allowed(allow, merged.value).Only? ==>
      forall n :: n in Allowed(allow, merged.value).ids ==> n in CleanIDs(claim)
  }

  /** A claim bounds every request under every allowlist exactly when all its non-blank entries are positive
      integers: an entry that is none can be requested alone and is then dropped, which leaves no bound. */
  lemma ClaimBoundsExactly(claim: seq<string>)
    requires CleanList(claim) != []
    ensures (forall allow, request :: ClaimRespected(claim, allow, request))
            <==> (forall x :: x in CleanList(claim) ==> PositiveId(x).Some?)
  {
    if forall x :: x in CleanList(claim) ==> PositiveId(x).Some? {
      forall allow, request ensures ClaimRespected(claim, allow, request) {
        ParsedClaimBounds(claim, allow, request);
      }
    } else {
      var x :| x in CleanList(claim) && PositiveId(x).None?;
      UnparsedEntryEscapes(claim, x);
    }
  }

  lemma ParsedClaimBounds(claim: seq<string>, allow: seq<int>, request: seq<string>)
    requires CleanList(claim) != [] && forall x :: x in CleanList(claim) ==> PositiveId(x).Some?
    ensures ClaimRespected(claim, allow, request)
  {
    var merged := MergeLibraryIDs(claim, request);
    if merged.Some? {
      var m := merged.value;
      MergeMembers(claim, request);
      assert m[0] in m;
      CleanIDsMembers(m);
      assert PositiveId(m[0]).value in CleanIDs(m);
      AllowedMembers(allow, m);
      CleanIDsMembers(CleanList(claim));
      CleanListIds(claim);
    }
  }

  /** An id larger than all of a list. */
  function Beyond(ids: seq<int>): (n: int)
    ensures n > 0 && forall k :: k in ids ==> k < n
  {
    if ids == [] then 1
    else
      assert ids == [ids[0]] + ids[1..];
      var n := Beyond(ids[1..]);
      if ids[0] >= n then ids[0] + 1 else n
  }

  lemma NoIdAlone(x: string)
    requires PositiveId(x).None?
    ensures CleanIDs([x]) == []
  {
    ParsedSnoc([], x);
    assert [] + [x] == [x];
  }

  lemma UnparsedEntryEscapes(claim: seq<string>, x: string)
    requires x in CleanList(claim) && PositiveId(x).None?
    ensures !ClaimRespected(claim, [Beyond(CleanIDs(claim))], [x])
  {
    var beyond := Beyond(CleanIDs(claim));
    LoneRequest(claim, x);
    NoIdAlone(x);
    assert Allowed([beyond], [x]) == Only([beyond]);
    assert beyond in [beyond];
  }

  lemma LoneRequest(claim: seq<string>, x: string)
    requires x in CleanList(claim)
    ensures MergeLibraryIDs(claim, [x]) == Some([x])
  {
    CleanListClean(claim);
    CleanUnchanged([x]);
    KeepInside([x], CleanList(claim));
  }
}
