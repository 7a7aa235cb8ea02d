/** Unpadded base64url: section 5 of RFC 4648 without padding (section 3.2), decoded as leniently as Go's
    RawURLEncoding: line breaks are skipped and unused trailing bits ignored. */
module Base64Url {
  import opened Text

  type byte = b: int | 0 <= b < 256
  type sextet = v: int | 0 <= v < 64

  function Letter(v: sextet): (c: char)
    ensures Value(c) == Some(v)
  {
    if v < 26 then (v + 65) as char
    else if v < 52 then (v + 71) as char
    else if v < 62 then (v - 4) as char
    else if v == 62 then '-' else '_'
  }

  function Value(c: char): Option<sextet> {
    if 'A' <= c <= 'Z' then Some(c as int - 65)
    else if 'a' <= c <= 'z' then Some(c as int - 71)
    else if '0' <= c <= '9' then Some(c as int + 4)
    else if c == '-' then Some(62)
    else if c == '_' then Some(63)
    else None
  }

  function Letters(vs: seq<sextet>): (s: string)
    ensures |s| == |vs| && forall i :: 0 <= i < |vs| ==> s[i] == Letter(vs[i])
  {
    seq(|vs|, i requires 0 <= i < |vs| => Letter(vs[i]))
  }

  // A quantum of three bytes b0 b1 b2 is four sextets v0 v1 v2 v3.
  function First(b0: int): int { b0 / 4 }
  function Second(b0: int, b1: int): int { b0 % 4 * 16 + b1 / 16 }
  function Third(b1: int, b2: int): int { b1 % 16 * 4 + b2 / 64 }
  function Fourth(b2: int): int { b2 % 64 }

  function High(v0: int, v1: int): int { v0 * 4 + v1 / 16 }
  function Middle(v1: int, v2: int): int { v1 % 16 * 16 + v2 / 4 }
  function Low(v2: int, v3: int): int { v2 % 4 * 64 + v3 }

  function UnpackTail(b: seq<byte>): seq<sextet>
    requires |b| < 3
  {
    if |b| == 0 then []
    else if |b| == 1 then [First(b[0]), Second(b[0], 0)]
    else [First(b[0]), Second(b[0], b[1]), Third(b[1], 0)]
  }

  function PackTail(v: seq<sextet>): Option<seq<byte>>
    requires |v| < 4
  {
    if |v| == 0 then Some([])
    else if |v| == 1 then None
    else if |v| == 2 then Some([High(v[0], v[1])])
    else Some([High(v[0], v[1]), Middle(v[1], v[2])])
  }

  /** Three bytes to four sextets; one or two bytes left over give two or three. */
  function Unpack(b: seq<byte>): seq<sextet> {
    if |b| < 3 then UnpackTail(b)
    else [First(b[0]), Second(b[0], b[1]), Third(b[1], b[2]), Fourth(b[2])] + Unpack(b[3..])
  }

  function Pack(v: seq<sextet>): Option<seq<byte>> {
    if |v| < 4 then PackTail(v)
    else
      match Pack(v[4..])
      case None => None
      case Some(rest) => Some([High(v[0], v[1]), Middle(v[1], v[2]), Low(v[2], v[3])] + rest)
  }

  lemma Quantum(b0: byte, b1: byte, b2: byte)
    ensures High(First(b0), Second(b0, b1)) == b0
    ensures Middle(Second(b0, b1), Third(b1, b2)) == b1
    ensures Low(Third(b1, b2), Fourth(b2)) == b2
  {
  }

  lemma QuantumBack(v0: sextet, v1: sextet, v2: sextet, v3: sextet)
    ensures First(High(v0, v1)) == v0
    ensures Second(High(v0, v1), Middle(v1, v2)) == v1
    ensures Third(Middle(v1, v2), Low(v2, v3)) == v2
    ensures Fourth(Low(v2, v3)) == v3
    ensures Second(High(v0, v1), 0) == v1 / 16 * 16
    ensures Third(Middle(v1, v2), 0) == v2 / 4 * 4
  {
  }

  /** The alphabet of section 5 of RFC 4648. */
  lemma LetterExactly(v: sextet)
    ensures v < 26 ==> Letter(v) as int == 'A' as int + v
    ensures 26 <= v < 52 ==> Letter(v) as int == 'a' as int + v - 26
    ensures 52 <= v < 62 ==> Letter(v) as int == '0' as int + v - 52
    ensures v == 62 ==> Letter(v) == '-'
    ensures v == 63 ==> Letter(v) == '_'
  {
  }

  function Encode(b: seq<byte>): string {
    Letters(Unpack(b))
  }

  /** The sextets of a text, line breaks skipped; None when a character is outside the alphabet. */
  function Values(s: string): Option<seq<sextet>> {
    if s == "" then Some([])
    else if s[0] == '\n' || s[0] == '\r' then Values(s[1..])
    else
      match (Value(s[0]), Values(s[1..]))
      case (Some(v), Some(rest)) => Some([v] + rest)
      case _ => None
  }

  function Decode(s: string): Option<seq<byte>> {
    match Values(s)
    case None => None
    case Some(v) => Pack(v)
  }

  lemma {:induction false} ValuesLetters(vs: seq<sextet>)
    ensures Values(Letters(vs)) == Some(vs)
  {
    if vs != [] {
      ValuesLetters(vs[1..]);
      assert Letters(vs)[1..] == Letters(vs[1..]);
      assert Letters(vs)[0] == Letter(vs[0]);
      assert vs == [vs[0]] + vs[1..];
    }
  }

  ghost predicate RoundTrips(b: seq<byte>) { Pack(Unpack(b)) == Some(b) }

  lemma {:induction false} PackUnpack(b: seq<byte>)
    ensures RoundTrips(b)
  {
    if |b| >= 3 {
      PackUnpack(b[3..]);
      QuadRound(b[0], b[1], b[2], b[3..]);
      assert b == [b[0], b[1], b[2]] + b[3..];
    } else {
      PackUnpackTail(b);
    }
  }

  lemma QuadRound(b0: byte, b1: byte, b2: byte, rest: seq<byte>)
    requires RoundTrips(rest)
    ensures RoundTrips([b0, b1, b2] + rest)
  {
    var v0: sextet, v1: sextet, v2: sextet, v3: sextet := First(b0), Second(b0, b1), Third(b1, b2), Fourth(b2);
    assert Unpack([b0, b1, b2] + rest) == [v0, v1, v2, v3] + Unpack(rest) by {
      assert ([b0, b1, b2] + rest)[3..] == rest;
    }
    assert Pack([v0, v1, v2, v3] + Unpack(rest)) == Some([b0, b1, b2] + rest) by {
      Quantum(b0, b1, b2);
      PackQuad(v0, v1, v2, v3, Unpack(rest), b0, b1, b2, rest);
    }
  }

  lemma PackQuad(v0: sextet, v1: sextet, v2: sextet, v3: sextet, rest: seq<sextet>,
                 b0: byte, b1: byte, b2: byte, r: seq<byte>)
    requires High(v0, v1) == b0 && Middle(v1, v2) == b1 && Low(v2, v3) == b2 && Pack(rest) == Some(r)
    ensures Pack([v0, v1, v2, v3] + rest) == Some([b0, b1, b2] + r)
  {
    assert ([v0, v1, v2, v3] + rest)[4..] == rest;
  }

  lemma PackUnpackTail(b: seq<byte>)
    requires |b| < 3
    ensures |UnpackTail(b)| < 4 && PackTail(UnpackTail(b)) == Some(b)
  {
    if |b| == 2 {
      TailRoundTwo(b[0], b[1]);
      assert b == [b[0], b[1]];
    } else if |b| == 1 {
      TailRoundOne(b[0]);
      assert b == [b[0]];
    }
  }

  lemma TailRoundTwo(b0: byte, b1: byte)
    ensures PackTail(UnpackTail([b0, b1])) == Some([b0, b1])
  {
    var v0: sextet, v1: sextet, v2: sextet := First(b0), Second(b0, b1), Third(b1, 0);
    assert High(v0, v1) == b0 && Middle(v1, v2) == b1 by {
      Quantum(b0, b1, 0);
    }
    assert UnpackTail([b0, b1]) == [v0, v1, v2];
  }

  lemma TailRoundOne(b0: byte)
    ensures PackTail(UnpackTail([b0])) == Some([b0])
  {
    var v0: sextet, v1: sextet := First(b0), Second(b0, 0);
    assert High(v0, v1) == b0 by {
      Quantum(b0, 0, 0);
    }
    assert UnpackTail([b0]) == [v0, v1];
  }

  /** Decoding undoes encoding, for every byte string. */
  lemma DecodeEncode(b: seq<byte>)
    ensures Decode(Encode(b)) == Some(b)
  {
    ValuesLetters(Unpack(b));
    PackUnpack(b);
  }

  function ByteBits(b0: int, b1: int, b2: int): int { b0 * 0x1_0000 + b1 * 0x100 + b2 }
  function LetterBits(v0: int, v1: int, v2: int, v3: int): int { v0 * 0x4_0000 + v1 * 0x1000 + v2 * 0x40 + v3 }

  lemma QuantumBits(b0: byte, b1: byte, b2: byte)
    ensures ByteBits(b0, b1, b2) == LetterBits(First(b0), Second(b0, b1), Third(b1, b2), Fourth(b2))
  {
  }

  lemma EncodeQuantum(b: seq<byte>)
    requires |b| >= 3
    ensures Encode(b) == [Letter(First(b[0])), Letter(Second(b[0], b[1])), Letter(Third(b[1], b[2])),
                          Letter(Fourth(b[2]))]
                         + Encode(b[3..])
  {
    var v: seq<sextet> := [First(b[0]), Second(b[0], b[1]), Third(b[1], b[2]), Fourth(b[2])];
    assert Unpack(b) == v + Unpack(b[3..]);
    LettersConcat(v, Unpack(b[3..]));
    FourLetters(v);
  }

  lemma LettersConcat(a: seq<sextet>, b: seq<sextet>)
    ensures Letters(a + b) == Letters(a) + Letters(b)
  {
  }

  lemma FourLetters(v: seq<sextet>)
    requires |v| == 4
    ensures Letters(v) == [Letter(v[0]), Letter(v[1]), Letter(v[2]), Letter(v[3])]
  {
  }

  /** Three bytes are the same 24 bits as the four letters they become; one or two left over are filled up with zero
      bits (section 4 of RFC 4648). */
  lemma EncodeExactly(b: seq<byte>) returns (v: seq<sextet>)
    ensures b == [] ==> Encode(b) == ""
    ensures |b| == 1 ==> |v| == 2 && ByteBits(b[0], 0, 0) == LetterBits(v[0], v[1], 0, 0)
                         && Encode(b) == [Letter(v[0]), Letter(v[1])]
    ensures |b| == 2 ==> |v| == 3 && ByteBits(b[0], b[1], 0) == LetterBits(v[0], v[1], v[2], 0)
                         && Encode(b) == [Letter(v[0]), Letter(v[1]), Letter(v[2])]
    ensures |b| >= 3 ==>
              && |v| == 4 && ByteBits(b[0], b[1], b[2]) == LetterBits(v[0], v[1], v[2], v[3])
              && Encode(b) == [Letter(v[0]), Letter(v[1]), Letter(v[2]), Letter(v[3])] + Encode(b[3..])
  {
    if |b| < 3 {
      v := UnpackTail(b);
      QuantumBits(if |b| > 0 then b[0] else 0, if |b| > 1 then b[1] else 0, 0);
    } else {
      v := [First(b[0]), Second(b[0], b[1]), Third(b[1], b[2]), Fourth(b[2])];
      QuantumBits(b[0], b[1], b[2]);
      EncodeQuantum(b);
    }
  }

  /** An encoding is made of alphabet characters only: no dot, no white space; and it is empty only for no bytes. */
  lemma EncodePlain(b: seq<byte>)
    ensures forall c :: c in Encode(b) ==> Value(c).Some? && c != '.' && !IsSpace(c)
    ensures Encode(b) == "" <==> b == []
  {
    forall c | c in Encode(b) ensures Value(c).Some? && c != '.' && !IsSpace(c) {
      var i :| 0 <= i < |Encode(b)| && Encode(b)[i] == c;
      assert Value(Letter(Unpack(b)[i])).Some?;
    }
  }

  /** The bits of the last sextet that carry no data are zero. */
  predicate ZeroTail(v: seq<sextet>) {
    (|v| % 4 == 2 ==> v[|v| - 1] % 16 == 0) && (|v| % 4 == 3 ==> v[|v| - 1] % 4 == 0)
  }

  lemma {:induction false} UnpackPack(v: seq<sextet>)
    requires Pack(v).Some?
    ensures Unpack(Pack(v).value) == v <==> ZeroTail(v)
  {
    if |v| >= 4 {
      UnpackPack(v[4..]);
      UnpackPackQuantum(v);
      ZeroTailQuantum(v);
    } else {
      UnpackPackTail(v);
    }
  }

  lemma ZeroTailQuantum(v: seq<sextet>)
    requires |v| >= 4
    ensures ZeroTail(v) <==> ZeroTail(v[4..])
  {
    assert |v| > 4 ==> v[4..][|v[4..]| - 1] == v[|v| - 1];
  }

  lemma UnpackPackTail(v: seq<sextet>)
    requires |v| < 4 && PackTail(v).Some?
    ensures |PackTail(v).value| < 3 && (UnpackTail(PackTail(v).value) == v <==> ZeroTail(v))
  {
    if |v| == 3 {
      QuantumBack(v[0], v[1], v[2], 0);
      assert UnpackTail(PackTail(v).value) == [v[0], v[1], v[2] / 4 * 4];
    } else if |v| == 2 {
      QuantumBack(v[0], v[1], 0, 0);
      assert UnpackTail(PackTail(v).value) == [v[0], v[1] / 16 * 16];
    }
  }

  lemma UnpackPackQuantum(v: seq<sextet>)
    requires |v| >= 4 && Pack(v).Some?
    ensures Unpack(Pack(v).value) == v <==> Unpack(Pack(v[4..]).value) == v[4..]
  {
    var b, rest := Pack(v).value, v[4..];
    QuantumBack(v[0], v[1], v[2], v[3]);
    assert b[3..] == Pack(rest).value;
    assert Unpack(b) == [v[0], v[1], v[2], v[3]] + Unpack(b[3..]);
    assert v == [v[0], v[1], v[2], v[3]] + rest;
    assert Unpack(b)[4..] == Unpack(b[3..]);
  }

  lemma {:induction false} ValuesExact(s: string)
    requires Values(s).Some?
    ensures Letters(Values(s).value) == s <==> '\n' !in s && '\r' !in s
    ensures |Values(s).value| <= |s|
    ensures ('\n' in s || '\r' in s) ==> |Values(s).value| < |s|
  {
    if s != "" {
      ValuesExact(s[1..]);
      assert s == [s[0]] + s[1..];
      if s[0] != '\n' && s[0] != '\r' {
        var v := Values(s).value;
        assert Letters(v)[1..] == Letters(v[1..]);
        assert v[1..] == Values(s[1..]).value;
        assert Letter(v[0]) == s[0];
        assert Letters(v) == [s[0]] + Letters(v[1..]);
      }
    }
  }

  /** The sextets a decoder reads: without the bits of the last one that carry no data. */
  function Cleared(v: seq<sextet>): seq<sextet> {
    if |v| == 0 then v else v[|v| - 1 := LastBits(|v| % 4, v[|v| - 1])]
  }

  function LastBits(used: int, x: sextet): (r: sextet)
    ensures used == 2 ==> r % 16 == 0 && r / 16 == x / 16
    ensures used == 3 ==> r % 4 == 0 && r / 4 == x / 4
    ensures used != 2 && used != 3 ==> r == x
  {
    if used == 2 then x / 16 * 16 else if used == 3 then x / 4 * 4 else x
  }

  lemma {:induction false} PackSome(v: seq<sextet>)
    ensures Pack(v).Some? <==> |v| % 4 != 1
  {
    if |v| >= 4 {
      PackSome(v[4..]);
      assert |v| == |v[4..]| + 4;
    }
  }

  lemma SameHead(v: seq<sextet>, w: seq<sextet>)
    requires |v| >= 4 && |w| >= 4 && v[..4] == w[..4] && Pack(v[4..]) == Pack(w[4..])
    ensures Pack(v) == Pack(w)
  {
    assert v[0] == v[..4][0] == w[0] && v[1] == v[..4][1] == w[1];
    assert v[2] == v[..4][2] == w[2] && v[3] == v[..4][3] == w[3];
  }

  lemma HighAlike(v0: sextet, x: sextet, y: sextet)
    requires x / 16 == y / 16
    ensures High(v0, x) == High(v0, y)
  {
  }

  lemma MiddleAlike(v1: sextet, x: sextet, y: sextet)
    requires x / 4 == y / 4
    ensures Middle(v1, x) == Middle(v1, y)
  {
  }

  lemma PackTailCleared(v: seq<sextet>)
    requires |v| < 4
    ensures PackTail(Cleared(v)) == PackTail(v)
  {
    var w := Cleared(v);
    if |v| == 2 {
      assert w[0] == v[0] && w[1] == LastBits(2, v[1]);
      HighAlike(v[0], w[1], v[1]);
    } else if |v| == 3 {
      assert w[0] == v[0] && w[1] == v[1] && w[2] == LastBits(3, v[2]);
      MiddleAlike(v[1], w[2], v[2]);
    } else if |v| == 1 {
      assert w == v;
    }
  }

  lemma {:induction false} PackCleared(v: seq<sextet>)
    ensures Pack(Cleared(v)) == Pack(v)
    decreases |v|
  {
    if |v| >= 4 {
      PackCleared(v[4..]);
      ClearedAfter(v[..4], v[4..]);
      assert v == v[..4] + v[4..];
      var w := Cleared(v);
      assert w[..4] == v[..4] && w[4..] == Cleared(v[4..]);
      SameHead(v, w);
    } else {
      PackTailCleared(v);
    }
  }

  lemma ClearedZero(v: seq<sextet>)
    ensures |Cleared(v)| == |v| && ZeroTail(Cleared(v))
  {
  }

  /** Any number of sextets but one more than a multiple of four packs, to the bytes of the cleared ones. */
  lemma PackExactly(v: seq<sextet>)
    ensures Pack(v).Some? <==> |v| % 4 != 1
    ensures Pack(v).Some? ==> Unpack(Pack(v).value) == Cleared(v)
  {
    PackSome(v);
    if Pack(v).Some? {
      PackCleared(v);
      ClearedZero(v);
      UnpackPack(Cleared(v));
    }
  }

  lemma UpdateTail(head: seq<sextet>, tail: seq<sextet>, x: sextet)
    requires tail != []
    ensures (head + tail)[|head + tail| - 1 := x] == head + tail[|tail| - 1 := x]
  {
  }

  lemma ClearedAfter(head: seq<sextet>, tail: seq<sextet>)
    requires |head| == 4
    ensures Cleared(head + tail) == head + Cleared(tail)
  {
    if tail == [] {
      assert head + tail == head && head[3 := head[3]] == head;
    } else {
      var x := tail[|tail| - 1];
      assert (head + tail)[|head + tail| - 1] == x && |head + tail| % 4 == |tail| % 4;
      UpdateTail(head, tail, LastBits(|tail| % 4, x));
    }
  }

  /** A character outside the alphabet that is no line break makes a text unreadable, and nothing else does. */
  lemma {:induction false} ReadableExactly(s: string)
    ensures Values(s).Some? <==> forall c :: c in s ==> c == '\n' || c == '\r' || Value(c).Some?
  {
    if s != "" {
      ReadableExactly(s[1..]);
      assert s == [s[0]] + s[1..];
    }
  }

  /** A line break anywhere makes no difference. */
  lemma {:induction false} BreaksSkipped(a: string, b: string, c: char)
    requires c == '\n' || c == '\r'
    ensures Decode(a + [c] + b) == Decode(a + b)
  {
    ValuesSkip(a, b, c);
  }

  lemma {:induction false} ValuesSkip(a: string, b: string, c: char)
    requires c == '\n' || c == '\r'
    ensures Values(a + [c] + b) == Values(a + b)
  {
    if a == "" {
      assert ([c] + b)[1..] == b && a + [c] + b == [c] + b && a + b == b;
    } else {
      assert (a + [c] + b)[1..] == a[1..] + [c] + b && (a + b)[1..] == a[1..] + b;
      ValuesSkip(a[1..], b, c);
    }
  }

  /** A text with no line break whose unused trailing bits are zero. */
  predicate Canonical(s: string) {
    Decode(s).Some? && '\n' !in s && '\r' !in s && ZeroTail(Values(s).value)
  }

  /** Exactly which accepted texts are the encoding of what they decode to. */
  lemma EncodeDecode(s: string)
    requires Decode(s).Some?
    ensures Encode(Decode(s).value) == s <==> Canonical(s)
  {
    var v, b := Values(s).value, Decode(s).value;
    ValuesExact(s);
    UnpackPack(v);
    if Encode(b) == s {
      ValuesLetters(Unpack(b));
    }
  }
}
