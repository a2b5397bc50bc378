// The check on the authenticated MCP context: a length range and a regular
// expression, which together accept exactly the unpadded base64url texts
// (sections 5 and 3.5 of RFC 4648) of 1 to 2625 bytes.

module Base64Url {
  import opened Prelude

  type Byte = b: int | 0 <= b < 256
  type Sextet = v: int | 0 <= v < 64

  const MIN_CHARS := 2
  const MAX_CHARS := 3500

  // ---------------------------------------------------------------- the check

  // [A-Za-z0-9_-]
  predicate InAlphabet(c: char) {
    'A' <= c <= 'Z' || 'a' <= c <= 'z' || '0' <= c <= '9' || c == '_' || c == '-'
  }

  // [AQgw]
  predicate EndsOneByte(c: char) {
    c in {'A', 'Q', 'g', 'w'}
  }

  // [AEIMQUYcgkosw048]
  predicate EndsTwoBytes(c: char) {
    c in {'A', 'E', 'I', 'M', 'Q', 'U', 'Y', 'c', 'g', 'k', 'o', 's', 'w', '0', '4', '8'}
  }

  predicate AllInAlphabet(s: string) {
    forall i :: 0 <= i < |s| ==> InAlphabet(s[i])
  }

  // The optional last group of the expression.
  predicate LastGroup(t: string) {
    || t == ""
    || (|t| == 2 && InAlphabet(t[0]) && EndsOneByte(t[1]))
    || (|t| == 3 && InAlphabet(t[0]) && InAlphabet(t[1]) && EndsTwoBytes(t[2]))
  }

  ghost predicate SplitsAt(s: string, k: int) {
    0 <= 4 * k <= |s| && AllInAlphabet(s[..4 * k]) && LastGroup(s[4 * k..])
  }

  // ^(four)*(last)?$ : some number of groups of four, then the last one.
  ghost predicate MatchesPattern(s: string) {
    exists k :: SplitsAt(s, k)
  }

  ghost predicate Accepted(s: string) {
    MIN_CHARS <= |s| <= MAX_CHARS && MatchesPattern(s)
  }

  // ---------------------------------------------------------------- characters and sextets

  function Symbol(v: Sextet): char {
    if v < 26 then 'A' + v as char
    else if v < 52 then 'a' + (v - 26) as char
    else if v < 62 then '0' + (v - 52) as char
    else if v == 62 then '-' else '_'
  }

  function Value(c: char): Sextet
    requires InAlphabet(c)
  {
    if 'A' <= c <= 'Z' then c as int - 'A' as int
    else if 'a' <= c <= 'z' then c as int - 'a' as int + 26
    else if '0' <= c <= '9' then c as int - '0' as int + 52
    else if c == '-' then 62 else 63
  }

  function Spell(sextets: seq<Sextet>): string {
    seq(|sextets|, i requires 0 <= i < |sextets| => Symbol(sextets[i]))
  }

  function Values(s: string): seq<Sextet>
    requires AllInAlphabet(s)
  {
    seq(|s|, i requires 0 <= i < |s| => Value(s[i]))
  }

  lemma SymbolOfValue(c: char)
    requires InAlphabet(c)
    ensures Symbol(Value(c)) == c
    ensures EndsOneByte(c) <==> Value(c) % 16 == 0
    ensures EndsTwoBytes(c) <==> Value(c) % 4 == 0
  {
  }

  lemma SpellValues(s: string)
    requires AllInAlphabet(s)
    ensures Spell(Values(s)) == s
  {
    forall i | 0 <= i < |s| ensures Spell(Values(s))[i] == s[i] {
      SymbolOfValue(s[i]);
    }
  }

  lemma ValuesSpell(sextets: seq<Sextet>)
    ensures AllInAlphabet(Spell(sextets)) && Values(Spell(sextets)) == sextets
  {
  }

  // ---------------------------------------------------------------- sextets and bytes

  // The bits of the bytes, six at a time, with zero bits added at the end.
  function Sextets(bytes: seq<Byte>): seq<Sextet> {
    if bytes == [] then []
    else if |bytes| == 1 then [bytes[0] / 4, bytes[0] % 4 * 16]
    else if |bytes| == 2 then [bytes[0] / 4, bytes[0] % 4 * 16 + bytes[1] / 16, bytes[1] % 16 * 4]
    else
      [bytes[0] / 4, bytes[0] % 4 * 16 + bytes[1] / 16, bytes[1] % 16 * 4 + bytes[2] / 64, bytes[2] % 64]
      + Sextets(bytes[3..])
  }

  // Back to bytes; None when a byte is incomplete or an added bit is set.
  function Bytes(sextets: seq<Sextet>): Option<seq<Byte>> {
    var v: seq<int> := sextets;
    if v == [] then Some([])
    else if |v| == 1 then None
    else if |v| == 2 then
      if v[1] % 16 != 0 then None else Some([v[0] * 4 + v[1] / 16])
    else if |v| == 3 then
      if v[2] % 4 != 0 then None else Some([v[0] * 4 + v[1] / 16, v[1] % 16 * 16 + v[2] / 4])
    else match Bytes(sextets[4..])
      case None => None
      case Some(more) => Some([v[0] * 4 + v[1] / 16, v[1] % 16 * 16 + v[2] / 4, v[2] % 4 * 64 + v[3]] + more)
  }

  // Three bytes and four sextets hold the same 24 bits.
  lemma BytesFromSextets(b0: Byte, b1: Byte, b2: Byte)
    ensures b0 / 4 * 4 + (b0 % 4 * 16 + b1 / 16) / 16 == b0
    ensures (b0 % 4 * 16 + b1 / 16) % 16 * 16 + (b1 % 16 * 4 + b2 / 64) / 4 == b1
    ensures (b1 % 16 * 4 + b2 / 64) % 4 * 64 + b2 % 64 == b2
  {
  }

  lemma SextetsFromBytes(v0: Sextet, v1: Sextet, v2: Sextet, v3: Sextet)
    ensures var b0, b1, b2 := v0 * 4 + v1 / 16, v1 % 16 * 16 + v2 / 4, v2 % 4 * 64 + v3;
            && b0 / 4 == v0 && b0 % 4 * 16 + b1 / 16 == v1
            && b1 % 16 * 4 + b2 / 64 == v2 && b2 % 64 == v3
  {
  }

  lemma {:induction false} BytesOfSextets(bytes: seq<Byte>)
    ensures Bytes(Sextets(bytes)) == Some(bytes)
  {
    if |bytes| == 1 {
      OneByte(bytes[0]);
      assert bytes == [bytes[0]];
    } else if |bytes| == 2 {
      TwoBytes(bytes[0], bytes[1]);
      assert bytes == [bytes[0], bytes[1]];
    } else if |bytes| >= 3 {
      BytesOfSextets(bytes[3..]);
      BytesFromSextets(bytes[0], bytes[1], bytes[2]);
      assert Sextets(bytes)[4..] == Sextets(bytes[3..]);
      assert bytes == [bytes[0], bytes[1], bytes[2]] + bytes[3..];
    }
  }

  lemma OneByte(b: Byte)
    ensures Bytes(Sextets([b])) == Some([b])
  {
    assert b % 4 * 16 % 16 == 0 && b / 4 * 4 + b % 4 * 16 / 16 == b;
  }

  lemma TwoBytes(b: Byte, c: Byte)
    ensures Bytes(Sextets([b, c])) == Some([b, c])
  {
    var v0, v1, v2 := b / 4, b % 4 * 16 + c / 16, c % 16 * 4;
    assert v0 * 4 + v1 / 16 == b;
    assert v1 % 16 == c / 16;
    assert v1 % 16 * 16 + v2 / 4 == c;
    assert Sextets([b, c]) == [v0, v1, v2];
  }

  lemma {:induction false} SextetsOfBytes(sextets: seq<Sextet>)
    requires Bytes(sextets).Some?
    ensures Sextets(Bytes(sextets).value) == sextets
  {
    var v := sextets;
    if |v| == 2 {
      SextetsFromBytes(v[0], v[1], 0, 0);
    } else if |v| == 3 {
      SextetsFromBytes(v[0], v[1], v[2], 0);
    } else if |v| >= 4 {
      SextetsOfBytes(v[4..]);
      SextetsOfGroup(v[0], v[1], v[2], v[3], Bytes(v[4..]).value);
      assert v == [v[0], v[1], v[2], v[3]] + v[4..];
    }
  }

  lemma SextetsOfGroup(v0: Sextet, v1: Sextet, v2: Sextet, v3: Sextet, more: seq<Byte>)
    ensures Sextets([v0 * 4 + v1 / 16, v1 % 16 * 16 + v2 / 4, v2 % 4 * 64 + v3] + more) ==
            [v0, v1, v2, v3] + Sextets(more)
  {
    var bytes := [v0 * 4 + v1 / 16, v1 % 16 * 16 + v2 / 4, v2 % 4 * 64 + v3] + more;
    SextetsFromBytes(v0, v1, v2, v3);
    assert bytes[3..] == more;
  }

  // Only the length and the last sextet decide whether bytes come out.
  lemma {:induction false} BytesDefined(sextets: seq<Sextet>)
    ensures Bytes(sextets).Some? <==>
            || |sextets| % 4 == 0
            || (|sextets| % 4 == 2 && sextets[|sextets| - 1] % 16 == 0)
            || (|sextets| % 4 == 3 && sextets[|sextets| - 1] % 4 == 0)
  {
    if |sextets| >= 4 {
      BytesDefined(sextets[4..]);
    }
  }

  lemma {:induction false} SextetCount(bytes: seq<Byte>)
    ensures |Sextets(bytes)| == 4 * (|bytes| / 3) + (if |bytes| % 3 == 0 then 0 else |bytes| % 3 + 1)
  {
    if |bytes| >= 3 {
      SextetCount(bytes[3..]);
    }
  }

  // The digits read as one number, going on from `acc`.
  function Number(base: nat, acc: nat, digits: seq<int>): int
    requires forall i :: 0 <= i < |digits| ==> digits[i] >= 0
    decreases |digits|
  {
    if digits == [] then acc else Number(base, acc * base + digits[0], digits[1..])
  }

  // The sextets are the bits of the bytes, in their order: as numbers they are
  // equal, but for the zero bits that fill up the last sextet.
  lemma {:induction false} SextetsAreTheBits(acc: nat, bytes: seq<Byte>)
    ensures Number(64, acc, Sextets(bytes)) ==
            Number(256, acc, bytes) * (if |bytes| % 3 == 1 then 16 else if |bytes| % 3 == 2 then 4 else 1)
    decreases |bytes|
  {
    if |bytes| == 1 {
      NumberOfOne(acc, bytes[0]);
      assert bytes == [bytes[0]];
    } else if |bytes| == 2 {
      NumberOfTwo(acc, bytes[0], bytes[1]);
      assert bytes == [bytes[0], bytes[1]];
    } else if |bytes| >= 3 {
      var next := SextetGroup(acc, bytes[0], bytes[1], bytes[2], bytes[3..]);
      assert bytes == [bytes[0], bytes[1], bytes[2]] + bytes[3..];
      SextetsAreTheBits(next, bytes[3..]);
    }
  }

  // Three bytes and their four sextets lead to the same number.
  lemma SextetGroup(acc: nat, b0: Byte, b1: Byte, b2: Byte, rest: seq<Byte>) returns (next: nat)
    ensures Number(256, acc, [b0, b1, b2] + rest) == Number(256, next, rest)
    ensures Number(64, acc, Sextets([b0, b1, b2] + rest)) == Number(64, next, Sextets(rest))
  {
    var x0: int, x1: int, x2: int := b0, b1, b2;
    next := acc * 0x100_0000 + (x0 * 0x1_0000 + x1 * 0x100 + x2);
    NumberOfThree(acc, x0, x1, x2, rest);
    NumberOfFour(acc, x0 / 4, x0 % 4 * 16 + x1 / 16, x1 % 16 * 4 + x2 / 64, x2 % 64, Sextets(rest));
    SameBits(x0, x1, x2);
    assert ([b0, b1, b2] + rest)[3..] == rest;
  }

  lemma SameBits(b0: Byte, b1: Byte, b2: Byte)
    ensures (b0 / 4) * 0x4_0000 + (b0 % 4 * 16 + b1 / 16) * 0x1000 + (b1 % 16 * 4 + b2 / 64) * 0x40 + b2 % 64 ==
            b0 * 0x1_0000 + b1 * 0x100 + b2
  {
  }

  lemma NumberOfOne(acc: nat, b: Byte)
    ensures Number(64, acc, [b / 4, b % 4 * 16]) == Number(256, acc, [b]) * 16
  {
    assert Number(64, acc, [b / 4, b % 4 * 16]) == (acc * 64 + b / 4) * 64 + b % 4 * 16 by {
      NumberSteps(64, acc, b / 4, [b % 4 * 16]);
      NumberSteps(64, acc * 64 + b / 4, b % 4 * 16, []);
    }
    NumberSteps(256, acc, b, []);
  }

  lemma NumberOfTwo(acc: nat, b: Byte, c: Byte)
    ensures Number(64, acc, [b / 4, b % 4 * 16 + c / 16, c % 16 * 4]) == Number(256, acc, [b, c]) * 4
  {
    var v0, v1, v2 := b / 4, b % 4 * 16 + c / 16, c % 16 * 4;
    NumberSteps(64, acc, v0, [v1, v2]);
    NumberSteps(64, acc * 64 + v0, v1, [v2]);
    NumberSteps(64, (acc * 64 + v0) * 64 + v1, v2, []);
    NumberSteps(256, acc, b, [c]);
    NumberSteps(256, acc * 256 + b, c, []);
  }

  lemma NumberSteps(base: nat, acc: nat, digit: nat, rest: seq<int>)
    requires forall i :: 0 <= i < |rest| ==> rest[i] >= 0
    ensures Number(base, acc, [digit] + rest) == Number(base, acc * base + digit, rest)
  {
    assert ([digit] + rest)[1..] == rest;
  }

  lemma NumberOfThree(acc: nat, b0: nat, b1: nat, b2: nat, rest: seq<int>)
    requires forall i :: 0 <= i < |rest| ==> rest[i] >= 0
    ensures Number(256, acc, [b0, b1, b2] + rest) ==
            Number(256, acc * 0x100_0000 + (b0 * 0x1_0000 + b1 * 0x100 + b2), rest)
  {
    assert [b0, b1, b2] + rest == [b0] + ([b1] + ([b2] + rest));
    NumberSteps(256, acc, b0, [b1] + ([b2] + rest));
    NumberSteps(256, acc * 256 + b0, b1, [b2] + rest);
    NumberSteps(256, (acc * 256 + b0) * 256 + b1, b2, rest);
  }

  lemma NumberOfFour(acc: nat, v0: nat, v1: nat, v2: nat, v3: nat, rest: seq<int>)
    requires forall i :: 0 <= i < |rest| ==> rest[i] >= 0
    ensures Number(64, acc, [v0, v1, v2, v3] + rest) ==
            Number(64, acc * 0x100_0000 + (v0 * 0x4_0000 + v1 * 0x1000 + v2 * 0x40 + v3), rest)
  {
    assert [v0, v1, v2, v3] + rest == [v0] + ([v1] + ([v2] + ([v3] + rest)));
    NumberSteps(64, acc, v0, [v1] + ([v2] + ([v3] + rest)));
    NumberSteps(64, acc * 64 + v0, v1, [v2] + ([v3] + rest));
    NumberSteps(64, (acc * 64 + v0) * 64 + v1, v2, [v3] + rest);
    NumberSteps(64, ((acc * 64 + v0) * 64 + v1) * 64 + v2, v3, rest);
  }

  // Each sextet is written with the character at its place in the table of
  // section 5 of RFC 4648.
  lemma SymbolExactly(v: Sextet)
    ensures v < 26 ==> Symbol(v) == "ABCDEFGHIJKLMNOPQRSTUVWXYZ"[v]
    ensures 26 <= v < 52 ==> Symbol(v) == "abcdefghijklmnopqrstuvwxyz"[v - 26]
    ensures 52 <= v ==> Symbol(v) == "0123456789-_"[v - 52]
  {
  }

  // ---------------------------------------------------------------- the encoding

  function Encode(bytes: seq<Byte>): string {
    Spell(Sextets(bytes))
  }

  // Strict decoding: no padding, and no bits left over at the end.
  function Decode(s: string): Option<seq<Byte>> {
    if AllInAlphabet(s) then Bytes(Values(s)) else None
  }

  lemma DecodeEncode(bytes: seq<Byte>)
    ensures Decode(Encode(bytes)) == Some(bytes)
  {
    ValuesSpell(Sextets(bytes));
    BytesOfSextets(bytes);
  }

  lemma EncodeDecode(s: string)
    requires Decode(s).Some?
    ensures Encode(Decode(s).value) == s
  {
    SextetsOfBytes(Values(s));
    SpellValues(s);
  }

  // The expression describes the domain of the decoder.
  lemma PatternIsDecodable(s: string)
    ensures MatchesPattern(s) <==> Decode(s).Some?
  {
    if MatchesPattern(s) {
      var k :| SplitsAt(s, k);
      SplitIsDecodable(s, k);
    }
    if AllInAlphabet(s) && Decode(s).Some? {
      LastSextet(s);
      GroupsOfFour(s, |s| / 4, |s| % 4);
    }
  }

  lemma GroupsOfFour(s: string, k: nat, m: nat)
    requires AllInAlphabet(s) && |s| == 4 * k + m && m < 4
    requires m == 0 || (m == 2 && EndsOneByte(s[|s| - 1])) || (m == 3 && EndsTwoBytes(s[|s| - 1]))
    ensures SplitsAt(s, k)
  {
    var t := s[4 * k..];
    assert |t| == m && forall i :: 0 <= i < m ==> t[i] == s[4 * k + i];
  }

  lemma SplitIsDecodable(s: string, k: int)
    requires SplitsAt(s, k)
    ensures Decode(s).Some?
  {
    var t := s[4 * k..];
    assert |t| == |s| % 4;
    assert forall i :: 4 * k <= i < |s| ==> s[i] == t[i - 4 * k];
    assert forall i :: 0 <= i < 4 * k ==> s[i] == s[..4 * k][i];
    EndsInAlphabet();
    assert AllInAlphabet(s);
    LastSextet(s);
  }

  lemma EndsInAlphabet()
    ensures forall c :: EndsOneByte(c) || EndsTwoBytes(c) ==> InAlphabet(c)
  {
  }

  lemma LastSextet(s: string)
    requires AllInAlphabet(s)
    ensures Decode(s).Some? <==>
            || |s| % 4 == 0
            || (|s| % 4 == 2 && EndsOneByte(s[|s| - 1]))
            || (|s| % 4 == 3 && EndsTwoBytes(s[|s| - 1]))
  {
    BytesDefined(Values(s));
    if s != "" {
      SymbolOfValue(s[|s| - 1]);
    }
  }

  // Exactly the encodings of 1 to 2625 bytes are accepted.
  lemma AcceptedIffEncoding(s: string)
    ensures Accepted(s) <==> exists bytes: seq<Byte> :: 1 <= |bytes| <= 2625 && Encode(bytes) == s
  {
    PatternIsDecodable(s);
    if Accepted(s) {
      var bytes := Decode(s).value;
      EncodeDecode(s);
      SextetCount(bytes);
      assert 1 <= |bytes| <= 2625;
    }
    forall bytes: seq<Byte> | 1 <= |bytes| <= 2625 && Encode(bytes) == s ensures Accepted(s) {
      DecodeEncode(bytes);
      SextetCount(bytes);
    }
  }

  // Decoding and encoding an accepted text changes nothing, so two accepted
  // texts for the same bytes are the same text.
  lemma AcceptedIsCanonical(s: string, t: string)
    requires Accepted(s) && Accepted(t)
    ensures Decode(s).Some? && Decode(t).Some?
    ensures Encode(Decode(s).value) == s
    ensures Decode(s) == Decode(t) <==> s == t
  {
    PatternIsDecodable(s);
    PatternIsDecodable(t);
    EncodeDecode(s);
    EncodeDecode(t);
  }
}
