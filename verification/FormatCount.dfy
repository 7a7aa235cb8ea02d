/** Thousands grouping, formatCount of internal/server/stats.go. */
module FormatCount {
  import opened Text

  const COMMA: char := ','

  /** Each further group of three behind a comma. */
  function Groups(s: string): string
    requires |s| % 3 == 0
  {
    if s == "" then "" else [COMMA] + s[..3] + Groups(s[3..])
  }

  function FirstGroup(s: string): nat {
    if |s| % 3 == 0 then 3 else |s| % 3
  }

  function Format(n: int): string {
    var s := Itoa(n);
    if n < 1000 then s
    else
      assert |s| >= 4 by { LongText(n); }
      s[..FirstGroup(s)] + Groups(s[FirstGroup(s)..])
  }

  lemma LongText(n: nat)
    requires n >= 1000
    ensures |NatText(n)| >= 4
  {
    assert NatText(n / 10 / 10) == NatText(n / 10 / 10 / 10) + [DigitChar(n / 10 / 10 % 10)];
    assert NatText(n / 10) == NatText(n / 10 / 10) + [DigitChar(n / 10 % 10)];
    assert NatText(n) == NatText(n / 10) + [DigitChar(n % 10)];
  }

  method ComputeFormat(n: int) returns (out: string)
    ensures out == Format(n)
  {
    var s := Itoa(n);
    if n < 1000 {
      return s;
    }
    LongText(n);
    out := Group(s);
  }

  /** The builder loop; its slices stay in range. */
  method Group(s: string) returns (out: string)
    requires |s| >= 3
    ensures out == s[..FirstGroup(s)] + Groups(s[FirstGroup(s)..])
  {
    var first := |s| % 3;
    if first == 0 {
      first := 3;
    }
    out := s[..first];
    var i := first;
    while i < |s|
      invariant first <= i <= |s| && (|s| - i) % 3 == 0
      invariant out + Groups(s[i..]) == s[..first] + Groups(s[first..])
      decreases |s| - i
    {
      NextGroup(s, i);
      out := out + [COMMA];
      out := out + s[i..i + 3];
      i := i + 3;
    }
  }

  lemma NextGroup(s: string, i: nat)
    requires i < |s| && (|s| - i) % 3 == 0
    ensures i + 3 <= |s| && Groups(s[i..]) == [COMMA] + s[i..i + 3] + Groups(s[i + 3..])
  {
    assert s[i..][..3] == s[i..i + 3] && s[i..][3..] == s[i + 3..];
  }

  function WithoutCommas(s: string): string {
    if s == "" then "" else (if s[0] == COMMA then "" else [s[0]]) + WithoutCommas(s[1..])
  }

  lemma {:induction false} WithoutCommasPlain(x: string, s: string)
    requires COMMA !in x
    ensures WithoutCommas(x + s) == x + WithoutCommas(s)
  {
    if x == "" {
      assert x + s == s;
    } else {
      assert (x + s)[1..] == x[1..] + s;
      WithoutCommasPlain(x[1..], s);
    }
  }

  lemma {:induction false} GroupsUndone(s: string)
    requires |s| % 3 == 0 && COMMA !in s
    ensures WithoutCommas(Groups(s)) == s
  {
    if s != "" {
      var g, rest := s[..3], s[3..];
      assert s == g + rest;
      GroupsUndone(rest);
      assert Groups(s) == [COMMA] + (g + Groups(rest));
      assert ([COMMA] + (g + Groups(rest)))[1..] == g + Groups(rest);
      WithoutCommasPlain(g, Groups(rest));
    }
  }

  predicate AllThrees(groups: seq<string>) {
    forall g :: g in groups ==> |g| == 3
  }

  lemma {:induction false} GroupsOfThree(head: string, s: string)
    requires |s| % 3 == 0 && COMMA !in s && COMMA !in head
    ensures var parts := Split(head + Groups(s), COMMA); parts[0] == head && AllThrees(parts[1..])
    decreases |s|
  {
    if s == "" {
      assert head + Groups(s) == head;
      SplitFirst(head, "", COMMA);
    } else {
      var g, rest := s[..3], s[3..];
      assert s == g + rest;
      assert head + Groups(s) == head + [COMMA] + (g + Groups(rest));
      SplitFirst(head, g + Groups(rest), COMMA);
      GroupsOfThree(g, rest);
      var tail := Split(g + Groups(rest), COMMA);
      assert tail == [tail[0]] + tail[1..];
    }
  }

  lemma NoCommaInNumber(n: int)
    ensures COMMA !in Itoa(n)
  {
    assert AllDigits(NatText(if n < 0 then -n else n));
  }

  /** Without its commas the text is the number, and the commas cut it into a first group of one to three digits and
      further groups of exactly three. */
  lemma FormatGroups(n: int)
    ensures WithoutCommas(Format(n)) == Itoa(n)
    ensures n >= 1000 ==>
              var parts := Split(Format(n), COMMA);
              |parts| >= 2 && 1 <= |parts[0]| <= 3 && AllThrees(parts[1..])
  {
    var s := Itoa(n);
    NoCommaInNumber(n);
    if n < 1000 {
      WithoutCommasPlain(s, "");
      assert s + "" == s;
    } else {
      LongText(n);
      var k := FirstGroup(s);
      assert s == s[..k] + s[k..];
      GroupsUndone(s[k..]);
      WithoutCommasPlain(s[..k], Groups(s[k..]));
      GroupsOfThree(s[..k], s[k..]);
      TwoParts(s[..k], s[k..]);
    }
  }

  lemma TwoParts(head: string, s: string)
    requires |s| % 3 == 0 && s != "" && COMMA !in head
    ensures |Split(head + Groups(s), COMMA)| >= 2
  {
    assert head + Groups(s) == head + [COMMA] + (s[..3] + Groups(s[3..]));
    SplitFirst(head, s[..3] + Groups(s[3..]), COMMA);
  }
}
