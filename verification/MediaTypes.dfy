/** The media-type vocabulary of internal/server/validation.go. */
module MediaTypes {
  import opened Text
  import opened LibraryScope

  /** unicode.ToLower as far as it can produce ASCII letters. */
  function LowerChar(c: char): char {
    if 'A' <= c <= 'Z' then (c as int + 32) as char
    else if c == '\U{0130}' then 'i'
    else if c == '\U{212A}' then 'k'
    else c
  }

  function ToLower(s: string): (r: string)
    ensures |r| == |s|
  {
    if s == "" then "" else [LowerChar(s[0])] + ToLower(s[1..])
  }

  const WIRE_TYPES: seq<string> := ["movie", "tv", "episode", "audiobook", "ebook"]

  /** One accepted spelling per type; None rejects the request. */
  function Canonical(v: string): Option<string> {
    var l := ToLower(v);
    if l == "series" then Some("tv")
    else if l in WIRE_TYPES then Some(l)
    else None
  }

  function AllCanonical(items: seq<string>): Option<seq<string>> {
    if items == [] then Some([])
    else
      match (AllCanonical(items[..|items| - 1]), Canonical(items[|items| - 1]))
      case (Some(init), Some(t)) => Some(init + [t])
      case _ => None
  }

  function CleanMediaTypes(items: seq<string>): Option<seq<string>> {
    AllCanonical(CleanList(items))
  }

  function MergeMediaTypes(allowed: seq<string>, requested: seq<string>): Option<seq<string>> {
    match (CleanMediaTypes(requested), CleanMediaTypes(allowed))
    case (Some(r), Some(a)) => MergeClean(a, r)
    case _ => None
  }

  predicate OnWire(types: seq<string>) {
    forall t :: t in types ==> t in WIRE_TYPES
  }

  lemma {:induction false} AllCanonicalOnWire(items: seq<string>)
    ensures AllCanonical(items).Some? ==> |AllCanonical(items).value| == |items| && OnWire(AllCanonical(items).value)
  {
    if items != [] {
      AllCanonicalOnWire(items[..|items| - 1]);
    }
  }

  /** The merged types are canonical words, and none is outside the claim or outside the request unless that side
      names none. */
  lemma MergedTypes(allowed: seq<string>, requested: seq<string>)
    requires MergeMediaTypes(allowed, requested).Some?
    ensures var m := MergeMediaTypes(allowed, requested).value;
            && OnWire(m)
            && (CleanMediaTypes(allowed).value != []
                ==> m != [] && forall t :: t in m ==> t in CleanMediaTypes(allowed).value)
            && (CleanMediaTypes(requested).value != [] ==> forall t :: t in m ==> t in CleanMediaTypes(requested).value)
  {
    AllCanonicalOnWire(CleanList(requested));
    AllCanonicalOnWire(CleanList(allowed));
    KeepMembers(CleanMediaTypes(requested).value, CleanMediaTypes(allowed).value);
  }

  /** The same for types: refused for an unknown word on either side, or when both sides name types and share none;
      otherwise what they share, in the order of the request and as often as the request has it. */
  lemma MergeTypesExactly(allowed: seq<string>, requested: seq<string>) returns (at: seq<nat>)
    ensures var claim, request, m := CleanMediaTypes(allowed), CleanMediaTypes(requested),
                MergeMediaTypes(allowed, requested);
            && (claim.None? || request.None? ==> m.None?)
            && (claim.Some? && request.Some? ==>
                  var c, r := claim.value, request.value;
                  && (c == [] ==> m == Some(r))
                  && (c != [] && r == [] ==> m == Some(c))
                  && (c != [] && r != [] ==>
                        && (m.None? <==> forall t :: t in r ==> t !in c)
                        && (m.Some? ==> Chosen(r, t => t in c, t => t, at, m.value))))
  {
    at := [];
    if CleanMediaTypes(allowed).Some? && CleanMediaTypes(requested).Some? {
      at := MergeCleanExactly(CleanMediaTypes(allowed).value, CleanMediaTypes(requested).value);
    }
  }

  // ----- the vocabulary -----

  /** The characters Go's unicode.ToLower takes to this letter from a to z. */
  predicate Lowers(c: char, letter: char) {
    || c == letter || c as int + 32 == letter as int
    || (c == '\U{0130}' && letter == 'i') || (c == '\U{212A}' && letter == 'k')
  }

  lemma LowerExactly(c: char, letter: char)
    requires 'a' <= letter <= 'z'
    ensures LowerChar(c) == letter <==> Lowers(c, letter)
  {
  }

  /** The word in whatever case. */
  predicate SpelledAs(v: string, word: string) {
    |v| == |word| && forall i :: 0 <= i < |word| ==> Lowers(v[i], word[i])
  }

  predicate LowerWord(word: string) {
    forall c :: c in word ==> 'a' <= c <= 'z'
  }

  lemma SpelledCons(v: string, word: string)
    requires v != "" && word != ""
    ensures SpelledAs(v, word) <==> Lowers(v[0], word[0]) && SpelledAs(v[1..], word[1..])
  {
    if Lowers(v[0], word[0]) && SpelledAs(v[1..], word[1..]) {
      forall i | 0 <= i < |word| ensures Lowers(v[i], word[i]) {
        assert i > 0 ==> v[i] == v[1..][i - 1] && word[i] == word[1..][i - 1];
      }
    }
  }

  lemma {:induction false} ToLowerSpells(v: string, word: string)
    requires LowerWord(word)
    ensures ToLower(v) == word <==> SpelledAs(v, word)
  {
    if v != "" && word != "" {
      assert word == [word[0]] + word[1..] && word[0] in word;
      assert forall c :: c in word[1..] ==> c in word;
      ToLowerSpells(v[1..], word[1..]);
      LowerExactly(v[0], word[0]);
      SpelledCons(v, word);
    }
  }

  /** Exactly the spellings of the five words, and of "series" for "tv", are accepted. */
  lemma CanonicalExactly(v: string)
    ensures Canonical(v) == Some("movie") <==> SpelledAs(v, "movie")
    ensures Canonical(v) == Some("tv") <==> SpelledAs(v, "tv") || SpelledAs(v, "series")
    ensures Canonical(v) == Some("episode") <==> SpelledAs(v, "episode")
    ensures Canonical(v) == Some("audiobook") <==> SpelledAs(v, "audiobook")
    ensures Canonical(v) == Some("ebook") <==> SpelledAs(v, "ebook")
    ensures Canonical(v).Some? ==> Canonical(v).value in ["movie", "tv", "episode", "audiobook", "ebook"]
  {
    ToLowerSpells(v, "movie");
    ToLowerSpells(v, "tv");
    ToLowerSpells(v, "series");
    ToLowerSpells(v, "episode");
    ToLowerSpells(v, "audiobook");
    ToLowerSpells(v, "ebook");
  }

  /** A list is accepted exactly when each of its entries is, entry by entry. */
  lemma {:induction false} AllCanonicalExactly(items: seq<string>)
    ensures AllCanonical(items).Some? <==> forall x :: x in items ==> Canonical(x).Some?
    ensures AllCanonical(items).Some? ==>
              var r := AllCanonical(items).value;
              |r| == |items| && forall i :: 0 <= i < |items| ==> Canonical(items[i]) == Some(r[i])
  {
    if items != [] {
      var init, last := items[..|items| - 1], items[|items| - 1];
      assert items == init + [last];
      AllCanonicalExactly(init);
    }
  }

  lemma WordLowered(word: string)
    requires LowerWord(word)
    ensures ToLower(word) == word
  {
    ToLowerSpells(word, word);
  }

  lemma WireLower(t: string)
    requires t in WIRE_TYPES
    ensures LowerWord(t)
  {
  }

  lemma ServedWord(lower: string, t: string)
    requires t in WIRE_TYPES && lower == t
    ensures lower in ["movie", "tv", "series", "episode"] <==> t != "audiobook" && t != "ebook"
  {
  }

  /** The store serves exactly the validated types that name no book. */
  lemma DirectExactly(types: seq<string>)
    requires OnWire(types)
    ensures Direct(types) <==> "audiobook" !in types && "ebook" !in types
  {
    forall t | t in types
      ensures ToLower(t) in ["movie", "tv", "series", "episode"] <==> t != "audiobook" && t != "ebook"
    {
      WireLower(t);
      WordLowered(t);
      ServedWord(ToLower(t), t);
    }
  }

  lemma OnWireClean(types: seq<string>)
    requires OnWire(types)
    ensures Clean(types)
  {
  }

  /** directCatalogMediaTypes: can the store serve all of them? */
  predicate Direct(types: seq<string>) {
    forall t :: t in types ==> ToLower(t) in ["movie", "tv", "series", "episode"]
  }

  /** normalizeStoreMediaTypes: the store says "series" for "tv". */
  function StoreTypes(types: seq<string>): seq<string> {
    if types == [] then []
    else
      var last := types[|types| - 1];
      var t := if last == "tv" then "series" else last;
      StoreTypes(types[..|types| - 1]) + if t != "" then [t] else []
  }

  /** Every entry but the blank ones, in order, with the store's word for "tv". */
  lemma {:induction false} StoreTypesExact(types: seq<string>) returns (at: seq<nat>)
    ensures Chosen(types, t => t != "", t => if t == "tv" then "series" else t, at, StoreTypes(types))
  {
    at := [];
    if types != [] {
      var init, last := types[..|types| - 1], types[|types| - 1];
      at := StoreTypesExact(init);
      ChosenSnoc(init, last, t => t != "", t => if t == "tv" then "series" else t, at, StoreTypes(init));
      assert types == init + [last];
      at := at + if last != "" then [|init|] else [];
    }
  }

  method ComputeStoreTypes(types: seq<string>) returns (out: seq<string>)
    ensures out == StoreTypes(types)
  {
    out := [];
    for i := 0 to |types|
      invariant out == StoreTypes(types[..i])
    {
      PrefixStep(types, i);
      var mediaType := types[i];
      if mediaType == "tv" {
        mediaType := "series";
      }
      if mediaType != "" {
        out := out + [mediaType];
      }
    }
    assert types[..|types|] == types;
  }

  method ComputeCleanMediaTypes(items: seq<string>) returns (out: seq<string>, ok: bool)
    ensures (if ok then Some(out) else None) == CleanMediaTypes(items)
  {
    var cleaned := ComputeCleanList(items);
    out := [];
    for i := 0 to |cleaned|
      invariant AllCanonical(cleaned[..i]) == Some(out)
    {
      PrefixStep(cleaned, i);
      var t := Canonical(cleaned[i]);
      if t.None? {
        RejectedPrefix(cleaned, i + 1);
        return [], false;
      }
      out := out + [t.value];
    }
    assert cleaned[..|cleaned|] == cleaned;
    ok := true;
  }

  lemma {:induction false} RejectedPrefix(items: seq<string>, n: nat)
    requires n <= |items| && AllCanonical(items[..n]).None?
    ensures AllCanonical(items).None?
    decreases |items|
  {
    if n == |items| {
      assert items[..n] == items;
    } else {
      assert items[..|items| - 1][..n] == items[..n];
      RejectedPrefix(items[..|items| - 1], n);
    }
  }

  method ComputeMergeMediaTypes(allowed: seq<string>, requested: seq<string>) returns (types: seq<string>, ok: bool)
    ensures (if ok then Some(types) else None) == MergeMediaTypes(allowed, requested)
  {
    var req, requestedOK := ComputeCleanMediaTypes(requested);
    if !requestedOK {
      return [], false;
    }
    var permitted, allowedOK := ComputeCleanMediaTypes(allowed);
    if !allowedOK {
      return [], false;
    }
    if |permitted| == 0 {
      return req, true;
    }
    if |req| == 0 {
      return permitted, true;
    }
    types := FilterBy(req, permitted);
    ok := |types| > 0;
  }
}
