/** Go's string helpers as the code uses them: TrimSpace, Atoi, Itoa, Split, Join and sort.Strings.
    A Go string is modelled as its sequence of characters. */
module Text {

  datatype Option<+T> = None | Some(value: T)

  // ----- lists picked from lists -----

  /** `r` is what `f` makes of the entries of `s` that satisfy `p`: all of them, in order, each as often as it occurs.
      `at` are their positions. */
  ghost predicate Chosen<T, U>(s: seq<T>, p: T -> bool, f: T -> U, at: seq<nat>, r: seq<U>) {
    && |r| == |at|
    && (forall i, j :: 0 <= i < j < |at| ==> at[i] < at[j])
    && (forall i :: 0 <= i < |at| ==> at[i] < |s| && p(s[at[i]]) && r[i] == f(s[at[i]]))
    && (forall k: nat :: k < |s| && p(s[k]) ==> k in at)
  }

  lemma ChosenSnoc<T, U>(s: seq<T>, x: T, p: T -> bool, f: T -> U, at: seq<nat>, r: seq<U>)
    requires Chosen(s, p, f, at, r)
    ensures Chosen(s + [x], p, f, at + if p(x) then [|s|] else [], r + if p(x) then [f(x)] else [])
  {
  }

  // ----- strings.TrimSpace -----

  /** unicode.IsSpace */
  predicate IsSpace(c: char) {
    var n := c as int;
    9 <= n <= 13 || n == 32 || n == 0x85 || n == 0xA0 || n == 0x1680 || 0x2000 <= n <= 0x200A
    || n == 0x2028 || n == 0x2029 || n == 0x202F || n == 0x205F || n == 0x3000
  }

  predicate Trimmed(s: string) {
    s == "" || (!IsSpace(s[0]) && !IsSpace(s[|s| - 1]))
  }

  function TrimLeft(s: string): string {
    if s != "" && IsSpace(s[0]) then TrimLeft(s[1..]) else s
  }

  function TrimRight(s: string): string {
    if s != "" && IsSpace(s[|s| - 1]) then TrimRight(s[..|s| - 1]) else s
  }

  function TrimSpace(s: string): string {
    TrimRight(TrimLeft(s))
  }

  lemma {:induction false} TrimLeftShape(s: string)
    ensures var r := TrimLeft(s); (r == "" || !IsSpace(r[0])) && forall c :: c in r ==> c in s
  {
    if s != "" && IsSpace(s[0]) {
      TrimLeftShape(s[1..]);
    }
  }

  lemma {:induction false} TrimRightShape(s: string)
    ensures var r := TrimRight(s); r == "" || (s != "" && r[0] == s[0] && !IsSpace(r[|r| - 1]))
    ensures forall c :: c in TrimRight(s) ==> c in s
  {
    if s != "" && IsSpace(s[|s| - 1]) {
      TrimRightShape(s[..|s| - 1]);
    }
  }

  lemma TrimSpaceShape(s: string)
    ensures Trimmed(TrimSpace(s)) && forall c :: c in TrimSpace(s) ==> c in s
  {
    TrimLeftShape(s);
    TrimRightShape(TrimLeft(s));
  }

  /** Trimming changes exactly the strings that start or end with white space. */
  lemma TrimmedUnchanged(s: string)
    ensures TrimSpace(s) == s <==> Trimmed(s)
  {
    TrimSpaceShape(s);
  }

  /** TrimSpace removes the surrounding white space and nothing else. */
  lemma TrimSpaceExact(left: string, core: string, right: string)
    requires Trimmed(core) && (core == "" ==> right == "")
    requires (forall c :: c in left ==> IsSpace(c)) && (forall c :: c in right ==> IsSpace(c))
    ensures TrimSpace(left + core + right) == core
  {
    TrimLeftExact(left, core + right);
    assert left + core + right == left + (core + right);
    TrimRightExact(core, right);
  }

  lemma {:induction false} TrimLeftExact(left: string, rest: string)
    requires (forall c :: c in left ==> IsSpace(c)) && (rest == "" || !IsSpace(rest[0]))
    ensures TrimLeft(left + rest) == rest
  {
    if left != "" {
      assert left[0] in left && (left + rest)[1..] == left[1..] + rest;
      TrimLeftExact(left[1..], rest);
    } else {
      assert left + rest == rest;
    }
  }

  lemma {:induction false} TrimRightExact(rest: string, right: string)
    requires (forall c :: c in right ==> IsSpace(c)) && (rest == "" || !IsSpace(rest[|rest| - 1]))
    ensures TrimRight(rest + right) == rest
  {
    if right != "" {
      var r := right[..|right| - 1];
      assert right[|right| - 1] in right && (rest + right)[..|rest + right| - 1] == rest + r;
      TrimRightExact(rest, r);
    } else {
      assert rest + right == rest;
    }
  }

  /** cleanList and cleanStrings: trim every entry and drop the blank ones, in order. */
  function CleanList(items: seq<string>): seq<string> {
    if items == [] then []
    else
      var v := TrimSpace(items[|items| - 1]);
      CleanList(items[..|items| - 1]) + if v != "" then [v] else []
  }

  lemma {:induction false} CleanListClean(items: seq<string>)
    ensures Clean(CleanList(items))
  {
    if items != [] {
      CleanListClean(items[..|items| - 1]);
      TrimSpaceShape(items[|items| - 1]);
    }
  }

  /** What is kept is every entry that is not blank, trimmed, in order. */
  lemma {:induction false} CleanListExact(items: seq<string>) returns (at: seq<nat>)
    ensures Chosen(items, x => TrimSpace(x) != "", x => TrimSpace(x), at, CleanList(items))
  {
    at := [];
    if items != [] {
      var init, last := items[..|items| - 1], items[|items| - 1];
      at := CleanListExact(init);
      ChosenSnoc(init, last, x => TrimSpace(x) != "", x => TrimSpace(x), at, CleanList(init));
      assert items == init + [last];
      at := at + if TrimSpace(last) != "" then [|init|] else [];
    }
  }

  predicate Clean(items: seq<string>) {
    forall x :: x in items ==> x != "" && Trimmed(x)
  }

  lemma {:induction false} CleanUnchanged(items: seq<string>)
    requires Clean(items)
    ensures CleanList(items) == items
  {
    if items != [] {
      var last := items[|items| - 1];
      assert last in items;
      TrimmedUnchanged(last);
      CleanUnchanged(items[..|items| - 1]);
      assert items == items[..|items| - 1] + [last];
    }
  }

  lemma PrefixStep<T>(s: seq<T>, i: nat)
    requires i < |s|
    ensures s[..i + 1] == s[..i] + [s[i]] && s[..i + 1][..i] == s[..i] && s[..|s|] == s
  {
  }

  /** The loop of cleanList. */
  method ComputeCleanList(items: seq<string>) returns (r: seq<string>)
    ensures r == CleanList(items)
  {
    r := [];
    for i := 0 to |items|
      invariant r == CleanList(items[..i])
    {
      PrefixStep(items, i);
      var v := TrimSpace(items[i]);
      if v != "" {
        r := r + [v];
      }
    }
    assert items[..|items|] == items;
  }

  // ----- strconv -----

  predicate IsDigit(c: char) { '0' <= c <= '9' }

  predicate AllDigits(s: string) { forall c :: c in s ==> IsDigit(c) }

  function DigitChar(n: nat): (c: char)
    requires n < 10
    ensures IsDigit(c) && DigitValue(c) == n
  {
    (n + 48) as char
  }

  function DigitValue(c: char): (n: nat)
    requires IsDigit(c)
    ensures n < 10
  {
    c as int - 48
  }

  function DigitsValue(s: string): nat
    requires AllDigits(s)
  {
    if s == "" then 0 else DigitsValue(s[..|s| - 1]) * 10 + DigitValue(s[|s| - 1])
  }

  /** The decimal text of a number, without leading zeros. */
  function NatText(n: nat): (s: string)
    ensures s != "" && AllDigits(s) && DigitsValue(s) == n
    ensures n > 0 ==> s[0] != '0'
  {
    if n < 10 then [DigitChar(n)]
    else
      var s := NatText(n / 10);
      assert (s + [DigitChar(n % 10)])[..|s|] == s;
      s + [DigitChar(n % 10)]
  }

  function Itoa(n: int): string {
    if n < 0 then "-" + NatText(-n) else NatText(n)
  }

  const MIN_INT: int := -0x8000_0000_0000_0000
  const MAX_INT: int := 0x7FFF_FFFF_FFFF_FFFF

  /** strconv.Atoi: an optional sign, at least one digit, nothing else, and a 64-bit result. */
  function Atoi(s: string): (r: Option<int>)
    ensures r.Some? ==> MIN_INT <= r.value <= MAX_INT
  {
    var signed := s != "" && (s[0] == '-' || s[0] == '+');
    var digits := if signed then s[1..] else s;
    if digits == "" || !AllDigits(digits) then None
    else
      var n: int := if signed && s[0] == '-' then 0 - DigitsValue(digits) else DigitsValue(digits);
      if MIN_INT <= n <= MAX_INT then Some(n) else None
  }

  /** A text taken apart: an optional sign and digits. */
  predicate Spells(s: string, sign: string, digits: string, n: int) {
    && s == sign + digits && sign in ["", "+", "-"] && digits != "" && AllDigits(digits)
    && n == (if sign == "-" then 0 - DigitsValue(digits) else DigitsValue(digits))
  }

  /** Exactly which texts read as which number. */
  lemma AtoiExact(s: string, n: int)
    ensures Atoi(s) == Some(n) <==> MIN_INT <= n <= MAX_INT && exists sign, digits :: Spells(s, sign, digits, n)
  {
    if Atoi(s) == Some(n) {
      var signed := s != "" && (s[0] == '-' || s[0] == '+');
      var sign, digits := if signed then (if s[0] == '-' then "-" else "+") else "", if signed then s[1..] else s;
      assert s == sign + digits;
      assert Spells(s, sign, digits, n);
    }
    if sign, digits :| MIN_INT <= n <= MAX_INT && Spells(s, sign, digits, n) {
      assert digits[0] in digits;
      assert sign != "" ==> s[1..] == digits;
      assert sign == "" ==> s == digits;
    }
  }

  /** Every 64-bit number reads back from its text. */
  lemma AtoiItoa(n: int)
    requires MIN_INT <= n <= MAX_INT
    ensures Atoi(Itoa(n)) == Some(n)
    ensures Trimmed(Itoa(n)) && Itoa(n) != ""
  {
    if n < 0 {
      assert Itoa(n)[1..] == NatText(-n);
      assert Itoa(n)[|Itoa(n)| - 1] in NatText(-n);
    } else {
      assert NatText(n)[0] in NatText(n);
    }
  }

  lemma ItoaInjective(a: int, b: int)
    requires Itoa(a) == Itoa(b)
    ensures a == b
  {
    assert a < 0 ==> Itoa(a)[1..] == NatText(-a);
    assert b < 0 ==> Itoa(b)[1..] == NatText(-b);
    assert a >= 0 ==> Itoa(a)[0] in NatText(a);
    assert b >= 0 ==> Itoa(b)[0] in NatText(b);
  }

  // ----- strings.Join and strings.Split on a one-character separator -----

  function Join(parts: seq<string>, sep: char): string {
    if parts == [] then ""
    else if |parts| == 1 then parts[0]
    else parts[0] + [sep] + Join(parts[1..], sep)
  }

  function Split(s: string, sep: char): (parts: seq<string>)
    ensures parts != [] && forall x :: x in parts ==> sep !in x
  {
    if s == "" then [""]
    else if s[0] == sep then [""] + Split(s[1..], sep)
    else
      var rest := Split(s[1..], sep);
      [[s[0]] + rest[0]] + rest[1..]
  }

  lemma {:induction false} SplitFirst(x: string, s: string, sep: char)
    requires sep !in x
    ensures Split(x + [sep] + s, sep) == [x] + Split(s, sep)
    ensures Split(x, sep) == [x]
  {
    if x == "" {
      assert (x + [sep] + s)[1..] == s;
    } else {
      assert (x + [sep] + s)[1..] == x[1..] + [sep] + s;
      SplitFirst(x[1..], s, sep);
      assert [x[0]] + x[1..] == x;
    }
  }

  /** Splitting undoes joining when no part holds the separator. */
  lemma {:induction false} SplitJoin(parts: seq<string>, sep: char)
    requires parts != [] && forall x :: x in parts ==> sep !in x
    ensures Split(Join(parts, sep), sep) == parts
  {
    assert parts[0] in parts;
    if |parts| == 1 {
      SplitFirst(parts[0], "", sep);
    } else {
      SplitFirst(parts[0], Join(parts[1..], sep), sep);
      SplitJoin(parts[1..], sep);
    }
  }

  lemma JoinInjective(a: seq<string>, b: seq<string>, sep: char)
    requires a != [] && forall x :: x in a ==> sep !in x
    requires b != [] && forall x :: x in b ==> sep !in x
    requires Join(a, sep) == Join(b, sep)
    ensures a == b
  {
    SplitJoin(a, sep);
    SplitJoin(b, sep);
  }

  // ----- sort.Strings -----

  /** Lexicographic order, as Go compares strings. */
  predicate Le(a: string, b: string) {
    a == "" || (b != "" && (a[0] < b[0] || (a[0] == b[0] && Le(a[1..], b[1..]))))
  }

  lemma LeTotal(a: string, b: string)
    ensures Le(a, b) || Le(b, a)
    ensures Le(a, a)
  {
    if a != "" && b != "" {
      LeTotal(a[1..], b[1..]);
    }
  }

  lemma LeAntisymmetric(a: string, b: string)
    requires Le(a, b) && Le(b, a)
    ensures a == b
  {
    if a != "" {
      LeAntisymmetric(a[1..], b[1..]);
      assert a == [a[0]] + a[1..] && b == [b[0]] + b[1..];
    }
  }

  lemma LeTransitive(a: string, b: string, c: string)
    requires Le(a, b) && Le(b, c)
    ensures Le(a, c)
  {
    if a != "" && a[0] == b[0] && b[0] == c[0] {
      LeTransitive(a[1..], b[1..], c[1..]);
    }
  }

  predicate Sorted(s: seq<string>) {
    forall i, j :: 0 <= i < j < |s| ==> Le(s[i], s[j])
  }

  /** Where an insertion sort puts one more entry. */
  function Insert(x: string, s: seq<string>): seq<string> {
    if s == [] then [x]
    else if Le(x, s[0]) then [x] + s
    else [s[0]] + Insert(x, s[1..])
  }

  lemma {:induction false} InsertSorted(x: string, s: seq<string>)
    requires Sorted(s)
    ensures Sorted(Insert(x, s)) && multiset(Insert(x, s)) == multiset(s) + multiset{x}
  {
    if s != [] {
      LeTotal(x, s[0]);
      assert s == [s[0]] + s[1..];
      if Le(x, s[0]) {
        LeFirst(x, s);
      } else {
        InsertSorted(x, s[1..]);
        InsertedAbove(s[0], x, s[1..], Insert(x, s[1..]));
        ConsSorted(s[0], Insert(x, s[1..]));
      }
    }
  }

  lemma ConsSorted(low: string, s: seq<string>)
    requires Sorted(s) && forall y :: y in s ==> Le(low, y)
    ensures Sorted([low] + s)
  {
  }

  lemma LeFirst(x: string, s: seq<string>)
    requires s != [] && Sorted(s) && Le(x, s[0])
    ensures forall j :: 0 <= j < |s| ==> Le(x, s[j])
  {
    forall j | 0 <= j < |s| ensures Le(x, s[j]) {
      if j > 0 {
        LeTransitive(x, s[0], s[j]);
      }
    }
  }

  lemma InsertedAbove(low: string, x: string, s: seq<string>, r: seq<string>)
    requires multiset(r) == multiset(s) + multiset{x}
    requires Le(low, x) && forall y :: y in s ==> Le(low, y)
    ensures forall y :: y in r ==> Le(low, y)
  {
    forall y | y in r ensures Le(low, y) {
      assert y in multiset(r);
    }
  }

  /** A sorted copy. */
  function SortStrings(s: seq<string>): seq<string> {
    if s == [] then [] else Insert(s[0], SortStrings(s[1..]))
  }

  lemma {:induction false} SortStringsSorts(s: seq<string>)
    ensures Sorted(SortStrings(s)) && multiset(SortStrings(s)) == multiset(s)
  {
    if s != [] {
      assert s == [s[0]] + s[1..];
      SortStringsSorts(s[1..]);
      InsertSorted(s[0], SortStrings(s[1..]));
    }
  }

  lemma LeFirstOfAny(a: seq<string>, x: string)
    requires Sorted(a) && x in a
    ensures Le(a[0], x)
  {
    LeTotal(a[0], a[0]);
  }

  lemma SortedHead(a: seq<string>, b: seq<string>)
    requires a != [] && b != [] && Sorted(a) && Sorted(b) && multiset(a) == multiset(b)
    ensures a[0] == b[0] && multiset(a[1..]) == multiset(b[1..])
  {
    assert a[0] == b[0] by {
      assert a[0] in multiset(b) && b[0] in multiset(a);
      LeFirstOfAny(a, b[0]);
      LeFirstOfAny(b, a[0]);
      LeAntisymmetric(a[0], b[0]);
    }
    TailMultiset(a);
    TailMultiset(b);
  }

  lemma TailMultiset(a: seq<string>)
    requires a != []
    ensures multiset(a[1..]) == multiset(a) - multiset{a[0]}
  {
    assert a == [a[0]] + a[1..];
  }

  /** A sorted list is determined by its elements. */
  lemma {:induction false} SortedUnique(a: seq<string>, b: seq<string>)
    requires Sorted(a) && Sorted(b) && multiset(a) == multiset(b)
    ensures a == b
  {
    assert |multiset(a)| == |a| && |multiset(b)| == |b|;
    if a != [] {
      SortedHead(a, b);
      SortedUnique(a[1..], b[1..]);
      assert a == [a[0]] + a[1..] && b == [b[0]] + b[1..];
    }
  }

  lemma SortedFixed(s: seq<string>)
    requires Sorted(s)
    ensures SortStrings(s) == s
  {
    SortStringsSorts(s);
    SortedUnique(SortStrings(s), s);
  }

  /** sort.Strings is a canonical form: equal exactly for permutations. */
  lemma SortCanonical(a: seq<string>, b: seq<string>)
    ensures SortStrings(a) == SortStrings(b) <==> multiset(a) == multiset(b)
  {
    SortStringsSorts(a);
    SortStringsSorts(b);
    if multiset(a) == multiset(b) {
      SortedUnique(SortStrings(a), SortStrings(b));
    }
  }

  // ----- UTF-8 -----

  /** The bytes of a character (section 3 of RFC 3629). */
  function Utf8(c: char): (b: seq<int>)
    ensures 1 <= |b| <= 4
  {
    var n := c as int;
    if n < 0x80 then [n]
    else if n < 0x800 then [0xC0 + n / 0x40, 0x80 + n % 0x40]
    else if n < 0x1_0000 then [0xE0 + n / 0x1000, 0x80 + n / 0x40 % 0x40, 0x80 + n % 0x40]
    else [0xF0 + n / 0x4_0000, 0x80 + n / 0x1000 % 0x40, 0x80 + n / 0x40 % 0x40, 0x80 + n % 0x40]
  }

  function Utf8Text(s: string): seq<int> {
    if s == "" then [] else Utf8(s[0]) + Utf8Text(s[1..])
  }

  /** What Go's len counts. */
  function ByteLen(s: string): nat {
    if s == "" then 0
    else
      var n := s[0] as int;
      (if n < 0x80 then 1 else if n < 0x800 then 2 else if n < 0x1_0000 then 3 else 4) + ByteLen(s[1..])
  }

  lemma {:induction false} ByteLenCounts(s: string)
    ensures ByteLen(s) == |Utf8Text(s)|
  {
    if s != "" {
      ByteLenCounts(s[1..]);
    }
  }
}
