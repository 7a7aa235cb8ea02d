/** Signed envelopes: page tokens (internal/server/pagetoken.go) and session tokens (internal/server/token.go).
    The MAC is an uninterpreted function of secret and payload text with 32-byte results. */
module PageToken {
  import opened Text
  import opened Base64Url

  type Digest = b: seq<byte> | |b| == 32 witness seq(32, _ => 0)

  type Mac = (string, string) -> Digest

  const DOT: char := '.'

  // ----- the envelope -----

  function Seal(mac: Mac, secret: string, body: seq<byte>): string {
    Encode(body) + [DOT] + Encode(mac(secret, Encode(body)))
  }

  /** The signed body of a token, or None when the token does not have two non-empty parts, the second does not
      decode to the MAC of the first, or the first does not decode. */
  function Open(mac: Mac, secret: string, token: string): Option<seq<byte>> {
    var parts := Split(token, DOT);
    if |parts| != 2 || parts[0] == "" || parts[1] == "" then None
    else
      match Decode(parts[1])
      case None => None
      case Some(got) => if got != mac(secret, parts[0]) then None else Decode(parts[0])
  }

  /** A token that is `payload.sig` with a signature that decodes to the MAC of the payload text. */
  ghost predicate Signed(mac: Mac, secret: string, token: string, payload: string, sig: string) {
    && token == payload + [DOT] + sig && DOT !in payload && DOT !in sig && payload != ""
    && Decode(sig) == Some(mac(secret, payload))
  }

  lemma JoinPrepend(c: char, parts: seq<string>, sep: char)
    requires parts != []
    ensures Join([[c] + parts[0]] + parts[1..], sep) == [c] + Join(parts, sep)
  {
    var longer := [[c] + parts[0]] + parts[1..];
    assert longer[1..] == parts[1..];
    if |parts| > 1 {
      var tail := [sep] + Join(parts[1..], sep);
      assert Join(parts, sep) == parts[0] + tail;
      assert Join(longer, sep) == [c] + parts[0] + tail;
    }
  }

  lemma JoinBlank(parts: seq<string>, sep: char)
    requires parts != []
    ensures Join([""] + parts, sep) == [sep] + Join(parts, sep)
  {
    assert ([""] + parts)[1..] == parts;
  }

  lemma {:induction false} JoinSplit(s: string, sep: char)
    ensures Join(Split(s, sep), sep) == s
  {
    if s != "" {
      JoinSplit(s[1..], sep);
      var rest := Split(s[1..], sep);
      assert s == [s[0]] + s[1..];
      if s[0] == sep {
        JoinBlank(rest, sep);
      } else {
        JoinPrepend(s[0], rest, sep);
      }
    }
  }

  lemma SplitTwo(token: string, payload: string, sig: string)
    requires DOT !in payload && DOT !in sig
    ensures Split(token, DOT) == [payload, sig] <==> token == payload + [DOT] + sig
  {
    var two := [payload, sig];
    assert two[1..] == [sig] && Join([sig], DOT) == sig;
    assert Join(two, DOT) == payload + [DOT] + sig;
    SplitJoin(two, DOT);
    JoinSplit(token, DOT);
  }

  /** Exactly the signed tokens whose payload decodes are opened, and to what it decodes to. */
  lemma OpenExactly(mac: Mac, secret: string, token: string, body: seq<byte>)
    ensures Open(mac, secret, token) == Some(body)
            <==> exists payload, sig :: Signed(mac, secret, token, payload, sig) && Decode(payload) == Some(body)
  {
    if Open(mac, secret, token) == Some(body) {
      var parts := Split(token, DOT);
      assert parts == [parts[0], parts[1]] && parts[0] in parts && parts[1] in parts;
      SplitTwo(token, parts[0], parts[1]);
      assert Signed(mac, secret, token, parts[0], parts[1]);
    }
    if payload, sig :| Signed(mac, secret, token, payload, sig) && Decode(payload) == Some(body) {
      SplitTwo(token, payload, sig);
      assert sig != "";
    }
  }

  /** What one secret seals another opens exactly when the MACs agree; the same secret always does. */
  lemma OpenSeal(mac: Mac, secret: string, other: string, body: seq<byte>)
    requires body != []
    ensures var payload := Encode(body);
            Open(mac, other, Seal(mac, secret, body))
            == if mac(secret, payload) == mac(other, payload) then Some(body) else None
  {
    var payload, sig := Encode(body), Encode(mac(secret, Encode(body)));
    EncodePlain(body);
    EncodePlain(mac(secret, payload));
    SplitTwo(Seal(mac, secret, body), payload, sig);
    DecodeEncode(body);
    DecodeEncode(mac(secret, payload));
  }

  // ----- page tokens -----

  /** An inner cursor: a Go string given by its bytes. */
  type Cursor = s: string | forall c :: c in s ==> c as int < 256

  function ToBytes(s: Cursor): (b: seq<byte>)
    ensures |b| == |s| && forall i :: 0 <= i < |s| ==> b[i] == s[i] as int
  {
    seq(|s|, i requires 0 <= i < |s| => assert s[i] in s; s[i] as int)
  }

  function FromBytes(b: seq<byte>): (s: Cursor)
    ensures |s| == |b| && forall i :: 0 <= i < |b| ==> s[i] == b[i] as char
  {
    seq(|b|, i requires 0 <= i < |b| => b[i] as char)
  }

  lemma BytesRoundTrip(s: Cursor)
    ensures FromBytes(ToBytes(s)) == s
  {
    forall i | 0 <= i < |s| ensures FromBytes(ToBytes(s))[i] == s[i] {
      assert s[i] in s;
    }
  }

  const MAX_CATALOG_OFFSET := 50000
  const PREFIX := "offset:"

  function SignPageToken(mac: Mac, secret: string, inner: Cursor): string {
    if inner == "" then "" else Seal(mac, secret, ToBytes(inner))
  }

  /** parseOffsetToken: the N of "offset:N", None for any other cursor. */
  function ParseOffsetToken(inner: string): Option<int> {
    if !(PREFIX <= inner) then None
    else
      match Atoi(inner[|PREFIX|..])
      case Some(n) => if n < 0 then None else Some(n)
      case None => None
  }

  /** Exactly the cursors that are "offset:" and the text of a number that is not negative. */
  lemma ParseExactly(inner: string, n: int)
    ensures ParseOffsetToken(inner) == Some(n) <==>
              && 0 <= n <= MAX_INT
              && exists tail, sign, digits :: inner == "offset:" + tail && Spells(tail, sign, digits, n)
  {
    if |PREFIX| <= |inner| {
      AtoiExact(inner[|PREFIX|..], n);
    }
    if ParseOffsetToken(inner) == Some(n) {
      var tail := inner[|PREFIX|..];
      var sign, digits :| Spells(tail, sign, digits, n);
      assert inner == "offset:" + tail;
    }
    if tail, sign, digits :| 0 <= n <= MAX_INT && inner == "offset:" + tail && Spells(tail, sign, digits, n) {
      assert inner[|PREFIX|..] == tail;
    }
  }

  datatype Verified = Inner(cursor: Cursor) | Invalid | TooDeep

  function VerifyPageToken(mac: Mac, secret: string, raw: string): Verified {
    var token := TrimSpace(raw);
    if token == "" then Inner("")
    else
      match Open(mac, secret, token)
      case None => Invalid
      case Some(body) =>
        var inner := FromBytes(body);
        match ParseOffsetToken(inner)
        case Some(n) => if n > MAX_CATALOG_OFFSET then TooDeep else Inner(inner)
        case None => Inner(inner)
  }

  /** The cursor the store mints for position n: fmt's %d. */
  function OffsetToken(n: nat): (s: Cursor)
    ensures s == PREFIX + NatText(n)
  {
    assert forall c :: c in NatText(n) ==> IsDigit(c);
    PREFIX + NatText(n)
  }

  // ----- how the store reads a cursor: fmt.Sscanf(token, "offset:%d", &offset) -----

  function Byte(s: string, i: nat): nat {
    if i < |s| then s[i] as int else 0
  }

  /** How many bytes the blank at the head of `s` takes, 0 when there is none.  Every white space of Unicode is one, in
      its UTF-8 form: ASCII blanks, U+0085 and U+00A0, U+1680, U+2000 to U+200A, U+2028, U+2029, U+202F, U+205F, U+3000.
      A line feed is none: it makes the scan fail. */
  function BlankLen(s: string): (n: nat)
    ensures n <= |s|
  {
    var a, b, c := Byte(s, 0), Byte(s, 1), Byte(s, 2);
    if a == 32 || a == 9 || a == 13 || a == 11 || a == 12 then 1
    else if a == 0xC2 && (b == 0x85 || b == 0xA0) then 2
    else if a == 0xE1 && b == 0x9A && c == 0x80 then 3
    else if a == 0xE2 && b == 0x80 && (0x80 <= c <= 0x8A || c == 0xA8 || c == 0xA9 || c == 0xAF) then 3
    else if a == 0xE2 && b == 0x81 && c == 0x9F then 3
    else if a == 0xE3 && b == 0x80 && c == 0x80 then 3
    else 0
  }

  /** The bytes of a text given byte by byte. */
  ghost predicate Starts(s: string, bytes: seq<int>) {
    |bytes| <= |s| && forall i :: 0 <= i < |bytes| ==> s[i] as int == bytes[i]
  }

  /** A blank is a white space character in its UTF-8 form, any but the line feed. */
  lemma BlankExactly(s: Cursor, n: nat)
    requires n > 0
    ensures BlankLen(s) == n <==> exists c :: IsSpace(c) && c != '\n' && |Utf8(c)| == n && Starts(s, Utf8(c))
  {
    if BlankLen(s) == n {
      var c := BlankAt(s);
    }
    if c :| IsSpace(c) && c != '\n' && |Utf8(c)| == n && Starts(s, Utf8(c)) {
      BlankOf(s, c);
    }
  }

  lemma BlankAt(s: Cursor) returns (c: char)
    requires BlankLen(s) > 0
    ensures IsSpace(c) && c != '\n' && |Utf8(c)| == BlankLen(s) && Starts(s, Utf8(c))
  {
    var x, y, z := Byte(s, 0), Byte(s, 1), Byte(s, 2);
    c := if BlankLen(s) == 1 then x as char
         else if BlankLen(s) == 2 then y as char
         else if x == 0xE1 then '\U{1680}'
         else if x == 0xE3 then '\U{3000}'
         else if y == 0x81 then '\U{205F}'
         else (0x1F80 + z) as char;
  }

  lemma BlankOf(s: Cursor, c: char)
    requires IsSpace(c) && c != '\n' && Starts(s, Utf8(c))
    ensures BlankLen(s) == |Utf8(c)|
  {
  }

  function SkipBlanks(s: string): string
    decreases |s|
  {
    var n := BlankLen(s);
    if n > 0 then SkipBlanks(s[n..]) else s
  }

  /** No blank starts like a number. */
  lemma NoBlankNumber(s: string)
    requires s != "" && (IsDigit(s[0]) || s[0] == '+' || s[0] == '-')
    ensures BlankLen(s) == 0
  {
  }

  /** A blank is read without what follows it. */
  lemma BlankHead(s: string, rest: string)
    requires BlankLen(s) > 0
    ensures BlankLen(s[..BlankLen(s)] + rest) == BlankLen(s)
  {
    var n := BlankLen(s);
    var t := s[..n] + rest;
    assert n > 0 ==> t[0] == s[0];
    assert n > 1 ==> t[1] == s[1];
    assert n > 2 ==> t[2] == s[2];
  }

  function LeadingDigits(s: string): (d: string)
    ensures AllDigits(d)
  {
    if s != "" && IsDigit(s[0]) then [s[0]] + LeadingDigits(s[1..]) else ""
  }

  /** The scanned offset; 0 when the scan fails. */
  function ScanOffset(token: string): int {
    if !(PREFIX <= token) then 0
    else
      var s := SkipBlanks(token[|PREFIX|..]);
      var signed := s != "" && (s[0] == '-' || s[0] == '+');
      var digits := LeadingDigits(if signed then s[1..] else s);
      if digits == "" then 0
      else
        var n: int := if signed && s[0] == '-' then 0 - DigitsValue(digits) else DigitsValue(digits);
        if MIN_INT <= n <= MAX_INT then n else 0
  }

  lemma {:induction false} LeadingDigitsStop(digits: string, rest: string)
    requires AllDigits(digits) && (rest == "" || !IsDigit(rest[0]))
    ensures LeadingDigits(digits + rest) == digits
  {
    if digits != "" {
      assert digits[0] in digits && (digits + rest)[1..] == digits[1..] + rest;
      LeadingDigitsStop(digits[1..], rest);
    } else {
      assert digits + rest == rest;
    }
  }

  /** Where the depth check reads an offset, the store reads the same one. */
  lemma CapReadsWhatStoreReads(inner: string)
    requires ParseOffsetToken(inner).Some?
    ensures ScanOffset(inner) == ParseOffsetToken(inner).value
  {
    var s := inner[|PREFIX|..];
    var signed := s != "" && (s[0] == '-' || s[0] == '+');
    var digits := if signed then s[1..] else s;
    assert digits != "" && AllDigits(digits);
    assert digits[0] in digits;
    NoBlankNumber(s);
    LeadingDigitsStop(digits, "");
    assert digits + "" == digits;
  }

  // ----- exactly which cursors the depth check misses -----

  /** Nothing but blanks. */
  predicate Blank(s: string)
    decreases |s|
  {
    s == "" || (BlankLen(s) > 0 && Blank(s[BlankLen(s)..]))
  }

  /** The cursor as the scanner takes it apart: blanks, a sign, all the digits there are, and whatever follows. */
  predicate Scans(inner: string, blanks: string, sign: string, digits: string, rest: string) {
    && inner == PREFIX + (blanks + (sign + (digits + rest)))
    && Blank(blanks) && sign in ["", "+", "-"] && digits != "" && AllDigits(digits) && (rest == "" || !IsDigit(rest[0]))
  }

  lemma BlankMore(s: string, rest: string)
    requires BlankLen(s) > 0 && Blank(rest)
    ensures Blank(s[..BlankLen(s)] + rest)
  {
    var n := BlankLen(s);
    BlankHead(s, rest);
    assert (s[..n] + rest)[n..] == rest;
  }

  lemma SkipCut(s: string, n: nat, rest: string)
    requires n <= |s| && s[n..] == rest + SkipBlanks(s[n..])
    ensures s == s[..n] + rest + SkipBlanks(s[n..])
  {
    assert s == s[..n] + s[n..];
    assert s[..n] + rest + SkipBlanks(s[n..]) == s[..n] + (rest + SkipBlanks(s[n..]));
  }

  lemma {:induction false} SkipBlanksShape(s: string) returns (blanks: string)
    ensures s == blanks + SkipBlanks(s) && Blank(blanks) && BlankLen(SkipBlanks(s)) == 0
    decreases |s|
  {
    var n := BlankLen(s);
    if n > 0 {
      var rest := SkipBlanksShape(s[n..]);
      blanks := s[..n] + rest;
      BlankMore(s, rest);
      SkipCut(s, n, rest);
    } else {
      blanks := "";
    }
  }

  lemma {:induction false} SkipBlanksExact(blanks: string, s: string)
    requires Blank(blanks) && BlankLen(s) == 0
    ensures SkipBlanks(blanks + s) == s
    decreases |blanks|
  {
    if blanks != "" {
      var n := BlankLen(blanks);
      assert blanks + s == blanks[..n] + (blanks[n..] + s);
      BlankHead(blanks, blanks[n..] + s);
      assert (blanks + s)[n..] == blanks[n..] + s;
      SkipBlanksExact(blanks[n..], s);
    } else {
      assert blanks + s == s;
    }
  }

  lemma {:induction false} LeadingDigitsShape(s: string) returns (rest: string)
    ensures s == LeadingDigits(s) + rest && (rest == "" || !IsDigit(rest[0]))
  {
    if s != "" && IsDigit(s[0]) {
      rest := LeadingDigitsShape(s[1..]);
    } else {
      rest := s;
    }
  }

  /** Reading a cursor of that shape. */
  lemma ScanReads(inner: string, blanks: string, sign: string, digits: string, rest: string)
    requires Scans(inner, blanks, sign, digits, rest)
    ensures var n := if sign == "-" then 0 - DigitsValue(digits) else DigitsValue(digits);
            ScanOffset(inner) == if MIN_INT <= n <= MAX_INT then n else 0
  {
    var number := digits + rest;
    assert digits[0] in digits && number[0] == digits[0];
    assert inner[|PREFIX|..] == blanks + (sign + number);
    assert (sign + number)[0] == if sign == "" then digits[0] else sign[0];
    NoBlankNumber(sign + number);
    SkipBlanksExact(blanks, sign + number);
    assert sign != "" ==> (sign + number)[1..] == number;
    assert sign == "" ==> sign + number == number;
    LeadingDigitsStop(digits, rest);
  }

  /** What stands behind the blanks, taken apart. */
  lemma NumberShape(s: string) returns (sign: string, digits: string, rest: string)
    ensures s == sign + (digits + rest) && sign in ["", "+", "-"] && AllDigits(digits)
    ensures rest == "" || !IsDigit(rest[0])
    ensures var signed := s != "" && (s[0] == '-' || s[0] == '+'); digits == LeadingDigits(if signed then s[1..] else s)
  {
    var signed := s != "" && (s[0] == '-' || s[0] == '+');
    sign := if signed then (if s[0] == '-' then "-" else "+") else "";
    var number := if signed then s[1..] else s;
    assert s == sign + number;
    digits := LeadingDigits(number);
    rest := LeadingDigitsShape(number);
  }

  /** Any cursor read as a number other than 0 has that shape. */
  lemma ScanShape(inner: string) returns (blanks: string, sign: string, digits: string, rest: string)
    requires ScanOffset(inner) != 0
    ensures Scans(inner, blanks, sign, digits, rest)
  {
    var tail := inner[|PREFIX|..];
    assert inner == PREFIX + tail;
    blanks := SkipBlanksShape(tail);
    sign, digits, rest := NumberShape(SkipBlanks(tail));
    assert digits != "";
  }

  lemma BlankStart(s: string)
    requires Blank(s) && s != ""
    ensures !IsDigit(s[0]) && s[0] != '+' && s[0] != '-'
  {
    if IsDigit(s[0]) || s[0] == '+' || s[0] == '-' {
      NoBlankNumber(s);
    }
  }

  lemma NoAtoi(s: string, i: nat)
    requires i < |s| && !IsDigit(s[i]) && (i > 0 || (s[0] != '+' && s[0] != '-'))
    ensures Atoi(s).None?
  {
    if i > 0 {
      assert s[1..][i - 1] == s[i] && s[1..][i - 1] in s[1..] && !AllDigits(s[1..]);
    }
    assert s[i] in s && !AllDigits(s);
  }

  lemma SignedAtoi(sign: string, digits: string)
    requires sign in ["", "+"] && digits != "" && AllDigits(digits) && DigitsValue(digits) <= MAX_INT
    ensures Atoi(sign + digits) == Some(DigitsValue(digits))
  {
    assert Spells(sign + digits, sign, digits, DigitsValue(digits));
    AtoiExact(sign + digits, DigitsValue(digits));
  }

  /** The depth check reads the number only when nothing but a sign stands around it. */
  lemma ParseReads(inner: string, blanks: string, sign: string, digits: string, rest: string)
    requires Scans(inner, blanks, sign, digits, rest) && sign != "-" && DigitsValue(digits) <= MAX_INT
    ensures ParseOffsetToken(inner).Some? <==> blanks == "" && rest == ""
  {
    var tail := inner[|PREFIX|..];
    assert tail == blanks + (sign + (digits + rest));
    if blanks != "" {
      BlankStart(blanks);
      assert tail[0] == blanks[0];
      NoAtoi(tail, 0);
    } else if rest != "" {
      assert tail[|sign| + |digits|] == rest[0];
      NoAtoi(tail, |sign| + |digits|);
    } else {
      assert tail == sign + digits;
      SignedAtoi(sign, digits);
    }
  }

  /** A cursor past the cap that the depth check takes for no offset at all. */
  predicate Missed(inner: string) {
    ScanOffset(inner) > MAX_CATALOG_OFFSET && ParseOffsetToken(inner).None?
  }

  ghost predicate Disguised(inner: string, blanks: string, sign: string, digits: string, rest: string) {
    && Scans(inner, blanks, sign, digits, rest) && sign != "-" && (blanks != "" || rest != "")
    && MAX_CATALOG_OFFSET < DigitsValue(digits) <= MAX_INT
  }

  /** The depth check misses exactly the cursors with a blank, of whatever script, before the number or anything after
      its digits, where the number is past the cap and fits an int. */
  lemma CapMissesExactly(inner: string)
    ensures Missed(inner) <==> exists blanks, sign, digits, rest :: Disguised(inner, blanks, sign, digits, rest)
  {
    if Missed(inner) {
      var blanks, sign, digits, rest := ScanShape(inner);
      ScanReads(inner, blanks, sign, digits, rest);
      ParseReads(inner, blanks, sign, digits, rest);
      assert Disguised(inner, blanks, sign, digits, rest);
    }
    if blanks, sign, digits, rest :| Disguised(inner, blanks, sign, digits, rest) {
      ScanReads(inner, blanks, sign, digits, rest);
      ParseReads(inner, blanks, sign, digits, rest);
    }
  }

  /** For instance a number followed by anything that is no digit, however deep. */
  lemma CapMissesOtherCursors(n: nat, suffix: Cursor)
    requires n <= MAX_INT && suffix != "" && !IsDigit(suffix[0])
    ensures ParseOffsetToken(OffsetToken(n) + suffix).None? && ScanOffset(OffsetToken(n) + suffix) == n
  {
    var inner, digits := OffsetToken(n) + suffix, NatText(n);
    assert inner == PREFIX + ("" + ("" + (digits + suffix)));
    ScanReads(inner, "", "", digits, suffix);
    ParseReads(inner, "", "", digits, suffix);
  }

  // ----- cursor round trips -----

  lemma OffsetTokenReads(n: nat)
    requires n <= MAX_INT
    ensures ParseOffsetToken(OffsetToken(n)) == Some(n) && ScanOffset(OffsetToken(n)) == n
  {
    assert OffsetToken(n)[|PREFIX|..] == NatText(n) == Itoa(n);
    AtoiItoa(n);
    CapReadsWhatStoreReads(OffsetToken(n));
  }

  lemma SealTrimmed(mac: Mac, secret: string, body: seq<byte>)
    requires body != []
    ensures Trimmed(Seal(mac, secret, body)) && Seal(mac, secret, body) != ""
  {
    var payload, sig := Encode(body), Encode(mac(secret, Encode(body)));
    EncodePlain(body);
    EncodePlain(mac(secret, payload));
    assert payload[0] in payload && sig[|sig| - 1] in sig;
    assert Seal(mac, secret, body)[0] == payload[0];
  }

  /** Any cursor survives signing and verifying under the same secret, unless it is an offset past the cap; under
      another secret it does exactly when the MACs collide. */
  lemma VerifySigned(mac: Mac, secret: string, other: string, inner: Cursor)
    requires inner != ""
    ensures var payload := Encode(ToBytes(inner));
            VerifyPageToken(mac, other, SignPageToken(mac, secret, inner))
            == if mac(secret, payload) != mac(other, payload) then Invalid
               else if ParseOffsetToken(inner).Some? && ParseOffsetToken(inner).value > MAX_CATALOG_OFFSET then TooDeep
               else Inner(inner)
  {
    var body := ToBytes(inner);
    SealTrimmed(mac, secret, body);
    TrimmedUnchanged(Seal(mac, secret, body));
    OpenSeal(mac, secret, other, body);
    BytesRoundTrip(inner);
  }

  /** Main result.  A signed offset comes back exactly up to the cap, is refused past it, and the store reads the very
      number that was signed. */
  lemma CursorRoundTrip(mac: Mac, secret: string, n: nat)
    requires n <= MAX_INT
    ensures VerifyPageToken(mac, secret, SignPageToken(mac, secret, OffsetToken(n)))
            == if n <= 50000 then Inner(OffsetToken(n)) else TooDeep
    ensures ScanOffset(OffsetToken(n)) == n
  {
    OffsetTokenReads(n);
    VerifySigned(mac, secret, secret, OffsetToken(n));
  }

  /** Exactly which request tokens yield a cursor: the blank one yields the first page; any other must be signed over
      a payload that decodes to the cursor, and the cursor must not be an offset past the cap. */
  lemma VerifyExactly(mac: Mac, secret: string, raw: string, inner: Cursor)
    ensures TrimSpace(raw) == "" ==> VerifyPageToken(mac, secret, raw) == Inner("")
    ensures TrimSpace(raw) != "" ==>
              (VerifyPageToken(mac, secret, raw) == Inner(inner) <==>
              && !(ParseOffsetToken(inner).Some? && ParseOffsetToken(inner).value > 50000)
              && exists payload, sig :: Signed(mac, secret, TrimSpace(raw), payload, sig)
                                        && Decode(payload) == Some(ToBytes(inner)))
  {
    BytesRoundTrip(inner);
    OpenExactly(mac, secret, TrimSpace(raw), ToBytes(inner));
    match Open(mac, secret, TrimSpace(raw))
    case None =>
    case Some(body) =>
      assert ToBytes(FromBytes(body)) == body;
  }

  // ----- session tokens -----

  datatype Claims = Claims(scope: string, expiresAt: int, libraryIDs: seq<string>, mediaTypes: seq<string>)

  /** JSON as the code relies on it: `decode` reads back what `encode` wrote, which is never empty. */
  datatype Json = Json(encode: Claims -> seq<byte>, decode: seq<byte> -> Option<Claims>)

  ghost predicate Lossless(json: Json) {
    forall c: Claims :: json.decode(json.encode(c)) == Some(c) && json.encode(c) != []
  }

  function SignToken(mac: Mac, json: Json, secret: string, claims: Claims): string {
    Seal(mac, secret, json.encode(claims))
  }

  /** `now` in unix seconds. */
  function VerifyToken(mac: Mac, json: Json, secret: string, token: string, now: int): Option<Claims> {
    match Open(mac, secret, token)
    case None => None
    case Some(body) =>
      match json.decode(body)
      case None => None
      case Some(claims) =>
        if claims.scope != "catalog" then None
        else if claims.expiresAt > 0 && claims.expiresAt <= now then None
        else Some(claims)
  }

  /** Exactly which session tokens are accepted, and for which claims: two parts, the second the MAC of the first, the
      first the document of claims for the catalog that have not expired. */
  lemma VerifyTokenExactly(mac: Mac, json: Json, secret: string, token: string, now: int, claims: Claims)
    ensures VerifyToken(mac, json, secret, token, now) == Some(claims) <==>
              && claims.scope == "catalog" && (claims.expiresAt <= 0 || now < claims.expiresAt)
              && exists payload, sig, body :: Signed(mac, secret, token, payload, sig) && Decode(payload) == Some(body)
                                              && json.decode(body) == Some(claims)
  {
    if VerifyToken(mac, json, secret, token, now) == Some(claims) {
      var body := Open(mac, secret, token).value;
      OpenExactly(mac, secret, token, body);
      var payload, sig :| Signed(mac, secret, token, payload, sig) && Decode(payload) == Some(body);
      assert json.decode(body) == Some(claims);
    }
    if payload, sig, body :| Signed(mac, secret, token, payload, sig) && Decode(payload) == Some(body)
                             && json.decode(body) == Some(claims) {
      OpenExactly(mac, secret, token, body);
    }
  }

  /** A token returns its claims while it is unexpired, and, once the secret has changed, exactly when the MACs
      collide. */
  lemma TokenRoundTrip(mac: Mac, json: Json, secret: string, other: string, claims: Claims, now: int)
    requires Lossless(json) && claims.scope == "catalog"
    ensures var payload := Encode(json.encode(claims));
            VerifyToken(mac, json, other, SignToken(mac, json, secret, claims), now)
            == if mac(secret, payload) == mac(other, payload) && (claims.expiresAt <= 0 || now < claims.expiresAt)
               then Some(claims) else None
  {
    assert json.decode(json.encode(claims)) == Some(claims);
    OpenSeal(mac, secret, other, json.encode(claims));
  }
}
