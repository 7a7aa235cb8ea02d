/** overlayCatalogMediaImages of internal/server/handlers_catalog.go: blank image URLs of a page are filled in with two
    batched look-ups, in place. */
module Overlay {
  import opened Text

  datatype Item = Item(mediaID: string, title: string, posterURL: string, backdropURL: string)

  datatype Paths = Paths(poster: string, backdrop: string)

  /** The store's path table and the host's resolver, one entry at a time, and whether a call to them succeeds. */
  datatype Lookup = Lookup(pathsOf: string -> Option<Paths>, urlOf: string -> Option<string>, storeUp: bool,
                           hostUp: bool)

  /** CatalogMediaImagePaths: exactly the known ones among the ids asked for. */
  function RawPaths(l: Lookup, ids: seq<string>): map<string, Paths> {
    map id | id in ids && l.pathsOf(id).Some? :: l.pathsOf(id).value
  }

  /** ResolveCatalogImageURLs likewise. */
  function Resolve(l: Lookup, paths: seq<string>): map<string, string> {
    map p | p in paths && l.urlOf(p).Some? :: l.urlOf(p).value
  }

  /** The image of one path: a blank path has none. */
  function Image(l: Lookup, path: string): string {
    if TrimSpace(path) == "" || l.urlOf(path).None? then "" else TrimSpace(l.urlOf(path).value)
  }

  function FillIn(l: Lookup, url: string, path: string): string {
    if url != "" then url else Image(l, path)
  }

  /** One item resolved on its own; nothing is when a call fails. */
  function Overlaid(l: Lookup, item: Item): Item {
    if !l.storeUp || !l.hostUp || item.mediaID == "" || l.pathsOf(item.mediaID).None? then item
    else
      var raw := l.pathsOf(item.mediaID).value;
      item.(posterURL := FillIn(l, item.posterURL, raw.poster),
            backdropURL := FillIn(l, item.backdropURL, raw.backdrop))
  }

  predicate Lacking(item: Item) {
    item.mediaID != "" && (item.posterURL == "" || item.backdropURL == "")
  }

  /** The ids to ask the store about. */
  method CollectMissing(items: seq<Item>) returns (missing: seq<string>)
    ensures forall id :: id in missing <==> exists item :: item in items && item.mediaID == id && Lacking(item)
  {
    missing := [];
    for i := 0 to |items|
      invariant forall id :: id in missing <==> exists item :: item in items[..i] && item.mediaID == id && Lacking(item)
    {
      PrefixStep(items, i);
      var item := items[i];
      if item.mediaID != "" && (item.posterURL == "" || item.backdropURL == "") {
        missing := missing + [item.mediaID];
      }
    }
    assert items[..|items|] == items;
  }

  /** Does some item of the list want this path resolved? */
  predicate Wants(raw: map<string, Paths>, item: Item, path: string) {
    && item.mediaID != "" && item.mediaID in raw && TrimSpace(path) != ""
    && ((item.posterURL == "" && raw[item.mediaID].poster == path)
        || (item.backdropURL == "" && raw[item.mediaID].backdrop == path))
  }

  /** The paths to ask the host about. */
  method CollectPaths(items: seq<Item>, raw: map<string, Paths>) returns (paths: seq<string>)
    ensures forall p :: p in paths <==> exists item :: item in items && Wants(raw, item, p)
  {
    paths := [];
    for i := 0 to |items|
      invariant forall p :: p in paths <==> exists item :: item in items[..i] && Wants(raw, item, p)
    {
      PrefixStep(items, i);
      var item := items[i];
      ghost var before := paths;
      if item.mediaID != "" && item.mediaID in raw {
        var r := raw[item.mediaID];
        if item.posterURL == "" && TrimSpace(r.poster) != "" {
          paths := paths + [r.poster];
        }
        if item.backdropURL == "" && TrimSpace(r.backdrop) != "" {
          paths := paths + [r.backdrop];
        }
      }
      assert forall p :: p in paths <==> p in before || Wants(raw, item, p);
    }
    assert items[..|items|] == items;
  }

  /** What the batched maps give for a path that is wanted or blank. */
  function Fetched(resolved: map<string, string>, path: string): string {
    if path in resolved then TrimSpace(resolved[path]) else ""
  }

  /** The assignment loop's treatment of one item. */
  function Assigned(raw: map<string, Paths>, resolved: map<string, string>, item: Item): Item {
    if item.mediaID !in raw then item
    else
      var r := raw[item.mediaID];
      item.(posterURL := if item.posterURL == "" then Fetched(resolved, r.poster) else item.posterURL,
            backdropURL := if item.backdropURL == "" then Fetched(resolved, r.backdrop) else item.backdropURL)
  }

  /** The two requests hold just what one item needs. */
  lemma BatchServes(l: Lookup, items: seq<Item>, missing: seq<string>, paths: seq<string>, item: Item)
    requires item in items && l.storeUp && l.hostUp
    requires forall id :: id in missing <==> exists item :: item in items && item.mediaID == id && Lacking(item)
    requires forall p :: p in paths <==> exists item :: item in items && Wants(RawPaths(l, missing), item, p)
    ensures Assigned(RawPaths(l, missing), Resolve(l, paths), item) == Overlaid(l, item)
  {
    var raw, resolved := RawPaths(l, missing), Resolve(l, paths);
    assert "" !in missing;
    if item.mediaID in raw {
      var r := raw[item.mediaID];
      if item.posterURL == "" {
        PathServed(l, items, raw, paths, item, r.poster);
      }
      if item.backdropURL == "" {
        PathServed(l, items, raw, paths, item, r.backdrop);
      }
    } else if item.mediaID != "" && l.pathsOf(item.mediaID).Some? {
      assert !Lacking(item);
    }
  }

  lemma PathServed(l: Lookup, items: seq<Item>, raw: map<string, Paths>, paths: seq<string>, item: Item, path: string)
    requires item in items && (TrimSpace(path) != "" ==> Wants(raw, item, path))
    requires forall p :: p in paths <==> exists item :: item in items && Wants(raw, item, p)
    ensures Fetched(Resolve(l, paths), path) == Image(l, path)
  {
    assert path in paths ==> TrimSpace(path) != "";
  }

  /** Main result.  The batched overlay leaves every item, in its place, as resolving that item alone would. */
  method OverlayCatalogMediaImages(l: Lookup, items: array<Item>)
    modifies items
    ensures forall i :: 0 <= i < items.Length ==> items[i] == Overlaid(l, old(items[i]))
  {
    ghost var was := items[..];
    var missing := CollectMissing(items[..]);
    if |missing| == 0 || !l.storeUp {
      if |missing| == 0 {
        assert RawPaths(l, missing) == map[];
        NothingToDo(l, was, missing, []);
      }
      return;
    }
    var rawPaths := RawPaths(l, missing);
    if |rawPaths| == 0 {
      NothingToDo(l, was, missing, []);
      return;
    }
    var paths := CollectPaths(items[..], rawPaths);
    if |paths| == 0 || !l.hostUp {
      NothingToDo(l, was, missing, paths);
      return;
    }
    var resolved := Resolve(l, paths);
    if |resolved| == 0 {
      NothingToDo(l, was, missing, paths);
      return;
    }
    AssignImages(items, rawPaths, resolved);
    forall i | 0 <= i < items.Length ensures Assigned(rawPaths, resolved, was[i]) == Overlaid(l, was[i]) {
      BatchServes(l, was, missing, paths, was[i]);
    }
  }

  /** The last loop. */
  method AssignImages(items: array<Item>, rawPaths: map<string, Paths>, resolved: map<string, string>)
    modifies items
    ensures forall i :: 0 <= i < items.Length ==> items[i] == Assigned(rawPaths, resolved, old(items[i]))
  {
    for i := 0 to items.Length
      invariant forall j :: 0 <= j < i ==> items[j] == Assigned(rawPaths, resolved, old(items[j]))
      invariant forall j :: i <= j < items.Length ==> items[j] == old(items[j])
    {
      if items[i].mediaID !in rawPaths {
        continue;
      }
      var raw := rawPaths[items[i].mediaID];
      if items[i].posterURL == "" {
        var value := if raw.poster in resolved then TrimSpace(resolved[raw.poster]) else "";
        if value != "" {
          items[i] := items[i].(posterURL := value);
        }
      }
      if items[i].backdropURL == "" {
        var value := if raw.backdrop in resolved then TrimSpace(resolved[raw.backdrop]) else "";
        if value != "" {
          items[i] := items[i].(backdropURL := value);
        }
      }
    }
  }

  /** The early returns: with nothing asked for, nothing found or a call that failed, no item would change. */
  lemma NothingToDo(l: Lookup, items: seq<Item>, missing: seq<string>, paths: seq<string>)
    requires forall id :: id in missing <==> exists item :: item in items && item.mediaID == id && Lacking(item)
    requires forall p :: p in paths <==> exists item :: item in items && Wants(RawPaths(l, missing), item, p)
    requires !l.storeUp || !l.hostUp || |RawPaths(l, missing)| == 0 || |Resolve(l, paths)| == 0
    ensures forall item :: item in items ==> Overlaid(l, item) == item
  {
    forall item | item in items ensures Overlaid(l, item) == item {
      if l.storeUp && l.hostUp {
        BatchServes(l, items, missing, paths, item);
      }
    }
  }

  /** Which image an item ends with: the one it has; else, when both calls succeed and its paths are known, the address
      of its own poster or backdrop path, if that path is not blank and has one. */
  lemma OverlaidExactly(l: Lookup, item: Item)
    ensures var o, paths := Overlaid(l, item), l.pathsOf(item.mediaID);
            var known := l.storeUp && l.hostUp && item.mediaID != "" && paths.Some?;
            && o.mediaID == item.mediaID && o.title == item.title
            && (item.posterURL != "" || !known ==> o.posterURL == item.posterURL)
            && (item.backdropURL != "" || !known ==> o.backdropURL == item.backdropURL)
            && (item.posterURL == "" && known ==> Addressed(l, paths.value.poster, o.posterURL))
            && (item.backdropURL == "" && known ==> Addressed(l, paths.value.backdrop, o.backdropURL))
  {
  }

  /** The trimmed address of a path, nothing for a blank path or one without. */
  predicate Addressed(l: Lookup, path: string, url: string) {
    && (TrimSpace(path) != "" && l.urlOf(path).Some? ==> url == TrimSpace(l.urlOf(path).value))
    && (TrimSpace(path) == "" || l.urlOf(path).None? ==> url == "")
  }

  /** A present URL is never overwritten, identity and title never change, and overlaying again changes nothing. */
  lemma OverlayKeeps(l: Lookup, item: Item)
    ensures var o := Overlaid(l, item);
            && o.mediaID == item.mediaID && o.title == item.title
            && (item.posterURL != "" ==> o.posterURL == item.posterURL)
            && (item.backdropURL != "" ==> o.backdropURL == item.backdropURL)
            && Overlaid(l, o) == o
  {
  }
}
