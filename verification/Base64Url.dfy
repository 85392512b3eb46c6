/**
 Base64 with the URL-safe alphabet and no padding (section 5 of RFC 4648), as Go's base64.RawURLEncoding encodes and
 decodes: the decoder skips line breaks and ignores the unused low bits of the last character.
 */
module Base64Url {
  import opened Options
  import opened Strings

  type Byte = x: int | 0 <= x < 256
  type Sextet = x: int | 0 <= x < 64

  function CharOf(k: Sextet): (c: char)
    ensures IsCode(c)
  {
    if k < 26 then 'A' + k as char
    else if k < 52 then 'a' + (k - 26) as char
    else if k < 62 then '0' + (k - 52) as char
    else if k == 62 then '-' else '_'
  }

  predicate IsCode(c: char) {
    'A' <= c <= 'Z' || 'a' <= c <= 'z' || '0' <= c <= '9' || c == '-' || c == '_'
  }

  function ValueOf(c: char): (k: Sextet)
    requires IsCode(c)
  {
    if 'A' <= c <= 'Z' then c as int - 'A' as int
    else if 'a' <= c <= 'z' then c as int - 'a' as int + 26
    else if '0' <= c <= '9' then c as int - '0' as int + 52
    else if c == '-' then 62 else 63
  }

  function Chars(codes: seq<Sextet>): (s: string)
    ensures |s| == |codes| && forall i | 0 <= i < |s| :: IsCode(s[i]) && s[i] == CharOf(codes[i])
  {
    seq(|codes|, i requires 0 <= i < |codes| => CharOf(codes[i]))
  }

  /** Three bytes make four characters; one or two left over make two or three. */
  function Encode(b: seq<Byte>): string {
    if |b| == 0 then ""
    else if |b| == 1 then Chars([b[0] / 4, Middle(b[0], 0, 4)])
    else if |b| == 2 then Chars([b[0] / 4, Middle(b[0], b[1], 4), Middle(b[1], 0, 16)])
    else Chars([b[0] / 4, Middle(b[0], b[1], 4), Middle(b[1], b[2], 16), b[2] % 64]) + Encode(b[3..])
  }

  /** The six bits made of x's low bits (below unit) and y's high bits. */
  function Middle(x: Byte, y: Byte, unit: int): (r: Sextet)
    requires unit in {4, 16}
  {
    if unit == 4 then x % 4 * 16 + y / 16 else x % 16 * 4 + y / 64
  }

  function WithoutBreaks(s: string): string {
    if s == "" then ""
    else if s[0] == '\r' || s[0] == '\n' then WithoutBreaks(s[1..])
    else [s[0]] + WithoutBreaks(s[1..])
  }

  predicate AllCodes(s: string) {
    forall i | 0 <= i < |s| :: IsCode(s[i])
  }

  /** The byte whose low part starts unit bits into b. */
  function Joined(a: Sextet, b: Sextet, unit: int): (r: int)
    requires unit in {4, 16, 64}
    ensures 0 <= r < 256
  {
    if unit == 4 then a * 4 + b / 16 else if unit == 16 then a % 16 * 16 + b / 4 else a % 4 * 64 + b
  }

  function DecodeCodes(s: string): Option<seq<Byte>>
    requires AllCodes(s)
  {
    if |s| == 0 then Some([])
    else if |s| == 1 then None
    else if |s| == 2 then Some([ByteAt(s, 0)])
    else if |s| == 3 then Some([ByteAt(s, 0), ByteAt(s, 1)])
    else
      match DecodeCodes(s[4..])
      case None => None
      case Some(rest) => Some([ByteAt(s, 0), ByteAt(s, 1), ByteAt(s, 2)] + rest)
  }

  /** Byte k of a group: the low bits of its character k and the high bits of the next. */
  function ByteAt(s: string, k: nat): Byte
    requires AllCodes(s) && k + 1 < |s| && k < 3
  {
    Joined(ValueOf(s[k]), ValueOf(s[k + 1]), if k == 0 then 4 else if k == 1 then 16 else 64)
  }

  function Decode(s: string): Option<seq<Byte>> {
    var codes := WithoutBreaks(s);
    if AllCodes(codes) then DecodeCodes(codes) else None
  }

  lemma {:induction false} EncodeUsesCodes(b: seq<Byte>)
    ensures AllCodes(Encode(b)) && |Encode(b)| == (|b| * 4 + 2) / 3
  {
    if |b| > 2 {
      EncodeUsesCodes(b[3..]);
    }
  }

  lemma {:induction false} CodesHaveNoBreaks(s: string)
    requires AllCodes(s)
    ensures WithoutBreaks(s) == s
  {
    if s != "" {
      CodesHaveNoBreaks(s[1..]);
    }
  }

  lemma BytesJoin(x: Byte, y: Byte, z: Byte)
    ensures Joined(x / 4, Middle(x, y, 4), 4) == x
    ensures Joined(Middle(x, y, 4), Middle(y, z, 16), 16) == y
    ensures Joined(Middle(y, z, 16), z % 64, 64) == z
  {
  }

  lemma {:induction false} FirstBytes(b: seq<Byte>)
    requires AllCodes(Encode(b))
    ensures |Encode(b)| >= if |b| > 2 then 4 else if |b| > 0 then |b| + 1 else 0
    ensures forall k | 0 <= k < |b| && k < 3 :: ByteAt(Encode(b), k) == b[k]
  {
    var s := Encode(b);
    if b != [] {
      BytesJoin(b[0], if |b| > 1 then b[1] else 0, if |b| > 2 then b[2] else 0);
    }
    hide Joined, Middle;
    forall k | 0 <= k < |b| && k < 3 ensures ByteAt(s, k) == b[k] {
      hide CharOf, ValueOf;
      CodeRoundTrips();
    }
  }

  lemma {:induction false} DecodeCodesEncode(b: seq<Byte>)
    requires AllCodes(Encode(b))
    ensures DecodeCodes(Encode(b)) == Some(b)
  {
    FirstBytes(b);
    hide ByteAt, CharOf, Middle;
    if |b| > 2 {
      EncodeUsesCodes(b[3..]);
      DecodeCodesEncode(b[3..]);
      assert Encode(b)[4..] == Encode(b[3..]);
      assert b == [b[0], b[1], b[2]] + b[3..];
    } else if |b| == 2 {
      assert b == [b[0], b[1]];
    } else if |b| == 1 {
      assert b == [b[0]];
    }
  }

  lemma CodeRoundTrips()
    ensures forall k: Sextet :: ValueOf(CharOf(k)) == k
  {
  }

  /** Decoding undoes encoding, for any bytes, and an encoding has no separator in it. */
  lemma DecodeEncode(b: seq<Byte>)
    ensures Decode(Encode(b)) == Some(b)
    ensures Lacks(Encode(b), ':')
  {
    EncodeUsesCodes(b);
    CodesHaveNoBreaks(Encode(b));
    DecodeCodesEncode(b);
  }

  /** Only code characters, and the bits that the last one leaves unused are zero. */
  predicate IsCanonicalCode(s: string) {
    && AllCodes(s)
    && (|s| % 4 == 2 ==> ValueOf(s[|s| - 1]) % 16 == 0)
    && (|s| % 4 == 3 ==> ValueOf(s[|s| - 1]) % 4 == 0)
  }

  /** Groups of four in front do not matter. */
  lemma CanonicalAfterGroup(group: string, rest: string)
    requires |group| == 4 && AllCodes(group)
    ensures IsCanonicalCode(group + rest) <==> IsCanonicalCode(rest)
  {
    var s := group + rest;
    hide ValueOf;
    assert forall i | 0 <= i < 4 :: s[i] == group[i];
    assert forall i | 0 <= i < |rest| :: rest[i] == s[i + 4];
    if rest != "" {
      assert s[|s| - 1] == rest[|rest| - 1];
    }
    assert |s| == |rest| + 4;
  }

  lemma {:induction false} EncodeIsCanonical(b: seq<Byte>)
    ensures IsCanonicalCode(Encode(b))
  {
    if |b| > 2 {
      EncodeIsCanonical(b[3..]);
      hide CharOf, Middle, IsCanonicalCode;
      CanonicalAfterGroup(Chars([b[0] / 4, Middle(b[0], b[1], 4), Middle(b[1], b[2], 16), b[2] % 64]), Encode(b[3..]));
    } else {
      CodeRoundTrips();
      hide CharOf, ValueOf;
    }
  }

  lemma SextetsJoin(a: Sextet, b: Sextet, c: Sextet, d: Sextet)
    ensures Joined(a, b, 4) / 4 == a
    ensures Middle(Joined(a, b, 4), Joined(b, c, 16), 4) == b
    ensures Middle(Joined(b, c, 16), Joined(c, d, 64), 16) == c
    ensures Joined(c, d, 64) % 64 == d
    ensures b % 16 == 0 ==> Middle(Joined(a, b, 4), 0, 4) == b
    ensures c % 4 == 0 ==> Middle(Joined(b, c, 16), 0, 16) == c
  {
  }

  lemma CodesAreChars()
    ensures forall c | IsCode(c) :: CharOf(ValueOf(c)) == c
  {
  }

  /** The first characters of an encoding come back. */
  lemma FirstCodes(s: string)
    requires IsCanonicalCode(s) && |s| >= 2
    ensures |s| == 2 ==> Encode([ByteAt(s, 0)]) == s
    ensures |s| == 3 ==> Encode([ByteAt(s, 0), ByteAt(s, 1)]) == s
    ensures |s| >= 4 ==>
      forall rest: seq<Byte> :: Encode([ByteAt(s, 0), ByteAt(s, 1), ByteAt(s, 2)] + rest) == s[..4] + Encode(rest)
  {
    var a, b := ValueOf(s[0]), ValueOf(s[1]);
    var c, d := if |s| > 2 then ValueOf(s[2]) else 0, if |s| > 3 then ValueOf(s[3]) else 0;
    SextetsJoin(a, b, c, d);
    CodesAreChars();
    hide Joined, Middle, CharOf, ValueOf;
    if |s| >= 4 {
      var first := [ByteAt(s, 0), ByteAt(s, 1), ByteAt(s, 2)];
      forall rest: seq<Byte> ensures Encode(first + rest) == s[..4] + Encode(rest) {
        assert (first + rest)[3..] == rest;
        assert Chars([a, b, c, d]) == s[..4];
      }
    }
  }

  lemma {:induction false} EncodeDecodeCodes(s: string)
    requires IsCanonicalCode(s) && DecodeCodes(s).Some?
    ensures Encode(DecodeCodes(s).value) == s
  {
    hide ByteAt, ValueOf;
    if |s| >= 4 {
      assert s == s[..4] + s[4..];
      CanonicalAfterGroup(s[..4], s[4..]);
      EncodeDecodeCodes(s[4..]);
      FirstCodes(s);
      hide Encode, IsCanonicalCode;
    } else if |s| >= 2 {
      FirstCodes(s);
    }
  }

  /** A decodable text is the encoding of what it decodes to exactly when it is canonical. */
  lemma EncodeDecodeExactly(s: string)
    requires Decode(s).Some?
    ensures Encode(Decode(s).value) == s <==> IsCanonicalCode(s)
  {
    EncodeIsCanonical(Decode(s).value);
    if IsCanonicalCode(s) {
      CodesHaveNoBreaks(s);
      EncodeDecodeCodes(s);
    }
  }

  // --------------------------------------------------------------------------
  // The alphabet and the order of the bits

  /** The characters are A to Z, a to z, 0 to 9, - and _, in this order: those of the URL and filename safe alphabet. */
  lemma CodesAreTheAlphabet()
    ensures CharOf(0) == 'A' && CharOf(25) == 'Z' && CharOf(26) == 'a' && CharOf(51) == 'z'
    ensures CharOf(52) == '0' && CharOf(61) == '9' && CharOf(62) == '-' && CharOf(63) == '_'
    ensures forall k: nat | k < 61 && k != 25 && k != 51 :: CharOf(k + 1) as int == CharOf(k) as int + 1
  {
  }

  lemma SameBits(x: Byte, y: Byte, z: Byte)
    ensures x / 4 * 0x4_0000 + Middle(x, y, 4) * 0x1000 + Middle(y, z, 16) * 0x40 + z % 64
            == x * 0x1_0000 + y * 0x100 + z
  {
  }

  /** A group is one number of 24 bits, its bytes and its characters both read from the high end. */
  lemma GroupIsOneNumber(group: seq<Byte>) returns (a: Sextet, b: Sextet, c: Sextet, d: Sextet)
    requires |group| >= 3
    ensures Encode(group) == [CharOf(a), CharOf(b), CharOf(c), CharOf(d)] + Encode(group[3..])
    ensures a * 0x4_0000 + b * 0x1000 + c * 0x40 + d == group[0] as int * 0x1_0000 + group[1] as int * 0x100 + group[2]
  {
    var x, y, z := group[0], group[1], group[2];
    a, b, c, d := x / 4, Middle(x, y, 4), Middle(y, z, 16), z % 64;
    SameBits(x, y, z);
    hide CharOf, Middle;
    assert Chars([a, b, c, d]) == [CharOf(a), CharOf(b), CharOf(c), CharOf(d)];
  }

  /** One or two bytes left over are encoded as if zeros followed them, without the characters that hold only zeros. */
  lemma RestIsPaddedWithZeros(x: Byte, y: Byte)
    ensures Encode([x]) == Encode([x, 0, 0])[..2] && Encode([x, y]) == Encode([x, y, 0])[..3]
  {
    hide CharOf;
    assert [x, 0, 0][3..] == [] && [x, y, 0][3..] == [];
    assert Encode([x, 0, 0]) == Chars([x / 4, Middle(x, 0, 4), Middle(0, 0, 16), 0]) + "";
    assert Encode([x, y, 0]) == Chars([x / 4, Middle(x, y, 4), Middle(y, 0, 16), 0]) + "";
  }
}
