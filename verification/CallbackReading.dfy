/**
 What Unpack makes of data that Pack did not write (callback_data.go): numbers wider than their field, and other ways
 of writing the same value. Data comes back from packing what it unpacks to exactly when it is canonical.
 */
module CallbackReading {
  import opened Options
  import opened Strings
  import opened Decimal
  import opened Base64Url
  import opened CallbackData

  // --------------------------------------------------------------------------
  // Numbers wider than their field

  /** v is what a width keeps of n: the value in its range that is n modulo its size. */
  predicate IsLeftOf(v: int, n: int, w: Width, signed: bool) {
    && IsOf(Number(v), if signed then SignedField(w) else UnsignedField(w))
    && (n - v) % Size(w) == 0
  }

  /** A number is read modulo its field's size, as long as 64 bits hold it; a larger one is refused. */
  lemma NarrowFieldsWrap(n: nat, w: Width)
    ensures n >= Size(W64) ==> ReadField(UnsignedField(w), IntString(n)).None?
    ensures n < Size(W64) ==> ReadField(UnsignedField(w), IntString(n)) == Some(Number(n % Size(w)))
    ensures IsLeftOf(n % Size(w), n, w, false)
  {
    NatRoundTrip(n);
    LeftOver(n, w);
    hide NatString, NatValue;
  }

  /** The widths in numbers: an unsigned field keeps a number modulo 2 to the power of 8, 16, 32 or 64. */
  lemma UnsignedFieldsHoldTheirBits(n: nat)
    requires n < 0x1_0000_0000_0000_0000
    ensures ReadField(UnsignedField(W8), IntString(n)) == Some(Number(n % 0x100))
    ensures ReadField(UnsignedField(W16), IntString(n)) == Some(Number(n % 0x1_0000))
    ensures ReadField(UnsignedField(W32), IntString(n)) == Some(Number(n % 0x1_0000_0000))
    ensures ReadField(UnsignedField(W64), IntString(n)) == Some(Number(n))
  {
    NarrowFieldsWrap(n, W8);
    NarrowFieldsWrap(n, W16);
    NarrowFieldsWrap(n, W32);
    NarrowFieldsWrap(n, W64);
    hide ReadField, IntString, IsLeftOf;
  }

  lemma LeftOver(n: int, w: Width)
    ensures IsLeftOf(WrapUnsigned(n, w), n, w, false)
    ensures IsLeftOf(WrapSigned(n, w), n, w, true)
  {
    SizeIsEven(w);
    LeftOverOf(n, Size(w), Size(w) / 2);
    hide Size;
  }

  lemma SizeIsEven(w: Width)
    ensures Size(w) == 2 * (Size(w) / 2) > 0
  {
  }

  lemma LeftOverOf(n: int, size: int, half: int)
    requires size == 2 * half > 0
    ensures 0 <= n % size < size && (n - n % size) % size == 0
    ensures var v := (n + half) % size - half; -half <= v < half && (n - v) % size == 0
  {
    Remainder(n, size);
    Remainder(n + half, size);
  }

  lemma Remainder(m: int, size: int)
    requires size > 0
    ensures (m - m % size) % size == 0
  {
    var q := m / size;
    assert m - m % size == q * size;
    MultipleIsZero(q, size);
  }

  lemma MultipleIsZero(q: int, size: int)
    requires size > 0
    ensures (q * size) % size == 0
  {
    var m := q * size;
    assert m == m / size * size + m % size;
    Multiples(q - m / size, size);
    assert (q - m / size) * size == m % size;
  }

  lemma Multiples(k: int, size: int)
    requires size > 0
    ensures k >= 1 ==> k * size >= size
    ensures k <= -1 ==> k * size <= -size
  {
  }

  lemma NarrowSignedFieldsWrap(n: int, w: Width)
    ensures !(-(Size(W64) / 2) <= n < Size(W64) / 2) ==> ReadField(SignedField(w), IntString(n)).None?
    ensures -(Size(W64) / 2) <= n < Size(W64) / 2 ==>
      ReadField(SignedField(w), IntString(n)) == Some(Number(WrapSigned(n, w)))
    ensures IsLeftOf(WrapSigned(n, w), n, w, true)
  {
    LeftOver(n, w);
    hide WrapSigned, IsLeftOf;
    if -(Size(W64) / 2) <= n < Size(W64) / 2 {
      ParseIntOf(n);
    } else {
      WideIsRefused(n);
    }
    hide ParseInt, IntString;
  }

  lemma WideIsRefused(n: int)
    requires !(-(Size(W64) / 2) <= n < Size(W64) / 2)
    ensures ParseInt(IntString(n)).None?
  {
    var m: nat := if n < 0 then -n else n;
    NatRoundTrip(m);
    assert IsDigit(NatString(m)[0]);
    assert ParseUint(NatString(m)) == if m >= Size(W64) then None else Some(m);
    hide ParseUint, NatValue, NatString;
    if n < 0 {
      assert IntString(n)[0] == '-' && IntString(n)[1..] == NatString(m);
    }
  }

  // --------------------------------------------------------------------------
  // Canonical data

  /** How Pack writes a value of this kind. */
  predicate IsCanonicalPart(kind: Kind, part: string) {
    match kind
    case TextField => true
    case FlagField => part == "true" || part == "false"
    case UnsignedField(w) => IsPlainNumber(part) && NatValue(part) < Size(w)
    case SignedField(w) =>
      if part != "" && part[0] == '-' then IsPlainNumber(part[1..]) && 0 < NatValue(part[1..]) <= Size(w) / 2
      else IsPlainNumber(part) && NatValue(part) < Size(w) / 2
  }

  /** The spellings of booleans that strconv.ParseBool knows, and no others. */
  lemma FlagSpellings(part: string)
    ensures ReadField(FlagField, part) == Some(Flag(true)) <==> part in ["1", "t", "T", "TRUE", "true", "True"]
    ensures ReadField(FlagField, part) == Some(Flag(false)) <==> part in ["0", "f", "F", "FALSE", "false", "False"]
  {
  }

  lemma FlagExactly(part: string)
    requires ReadField(FlagField, part).Some?
    ensures TextOf(ReadField(FlagField, part).value) == part <==> IsCanonicalPart(FlagField, part)
  {
  }

  lemma WrapUnsignedExactly(n: nat, w: Width)
    ensures WrapUnsigned(n, w) == n <==> n < Size(w)
    ensures WrapUnsigned(n, w) >= 0
  {
    match w
    case W8 =>
    case W16 =>
    case W32 =>
    case W64 =>
  }

  lemma UnsignedExactly(w: Width, part: string)
    requires ReadField(UnsignedField(w), part).Some?
    ensures TextOf(ReadField(UnsignedField(w), part).value) == part <==> IsCanonicalPart(UnsignedField(w), part)
  {
    var n := NatValue(part);
    var v := WrapUnsigned(n, w);
    assert AllDigits(part);
    WrapUnsignedExactly(n, w);
    DigitsExactly(part, v);
    hide NatString, NatValue, IsPlainNumber, WrapUnsigned, AllDigits;
  }

  lemma WrapSignedExactly(n: int, w: Width)
    ensures WrapSigned(n, w) == n <==> -(Size(w) / 2) <= n < Size(w) / 2
  {
    LeftOver(n, w);
    if -(Size(w) / 2) <= n < Size(w) / 2 {
      WrapSignedOf(n, w);
    }
  }

  /** The digits of a number are written back exactly when they are plain and the number is not changed. */
  lemma DigitsExactly(digits: string, m: nat)
    requires AllDigits(digits)
    ensures NatString(m) == digits <==> m == NatValue(digits) && IsPlainNumber(digits)
  {
    PlainExactly(digits);
    NatRoundTrip(m);
  }

  lemma SignedExactly(w: Width, part: string)
    requires ReadField(SignedField(w), part).Some?
    ensures TextOf(ReadField(SignedField(w), part).value) == part <==> IsCanonicalPart(SignedField(w), part)
  {
    var negative := part[0] == '-';
    var digits := if negative || part[0] == '+' then part[1..] else part;
    var n := ParseInt(part).value;
    assert AllDigits(digits) && digits != "";
    assert if negative then n + NatValue(digits) == 0 else n == NatValue(digits);
    var v := WrapSigned(n, w);
    WrapSignedExactly(n, w);
    hide ParseInt, ParseUint, WrapSigned, NatValue, NatString, IsPlainNumber;
    SignedTextExactly(part, digits, v);
    assert part[0] == '+' ==> !IsPlainNumber(part) by { assert !IsDigit('+'); }
  }

  /** When an integer's text is a given sign and digits. */
  lemma SignedTextExactly(part: string, digits: string, v: int)
    requires part != "" && AllDigits(digits) && digits != ""
    requires digits == if part[0] == '-' || part[0] == '+' then part[1..] else part
    ensures IntString(v) == part <==>
      if part[0] == '-' then v < 0 && -v == NatValue(digits) && IsPlainNumber(digits)
      else part[0] != '+' && v >= 0 && v == NatValue(digits) && IsPlainNumber(digits)
  {
    var m: nat := if v < 0 then -v else v;
    DigitsExactly(digits, m);
    NatStringIsPlain(m);
    hide NatValue, IsPlainNumber;
    assert IsDigit(NatString(m)[0]);
    assert part[0] == '-' || part[0] == '+' ==> part == [part[0]] + digits;
    if v < 0 {
      assert IntString(v)[0] == '-' && IntString(v)[1..] == NatString(m);
    }
  }

  /** A part that can be read is its value's own text exactly when it is canonical. */
  lemma PartExactly(kind: Kind, part: string)
    requires ReadField(kind, part).Some?
    ensures TextOf(ReadField(kind, part).value) == part <==> IsCanonicalPart(kind, part)
    ensures IsOf(ReadField(kind, part).value, kind)
    ensures Lacks(part, SEPARATOR) ==> Packable(ReadField(kind, part).value)
  {
    hide ParseInt, ParseUint, ParseBool, IntString;
    match kind
    case TextField =>
    case FlagField => FlagExactly(part);
    case UnsignedField(w) =>
      UnsignedExactly(w, part);
      LeftOver(ParseUint(part).value, w);
    case SignedField(w) =>
      SignedExactly(w, part);
      LeftOver(ParseInt(part).value, w);
  }

  lemma {:induction false} ReadFieldsAt(kinds: seq<Kind>, parts: seq<string>, i: nat)
    requires |kinds| == |parts| && i < |kinds| && ReadFields(kinds, parts).Ok?
    ensures |ReadFields(kinds, parts).value| == |kinds|
    ensures ReadField(kinds[i], parts[i]) == Some(ReadFields(kinds, parts).value[i])
  {
    var k := |kinds| - 1;
    hide ReadField;
    if k > 0 {
      ReadFieldsAt(kinds[..k], parts[..k], if i < k then i else 0);
    } else {
      assert ReadFields(kinds[..k], parts[..k]) == Ok([]);
    }
  }

  /** Joining undoes splitting, and no part has the separator in it. */
  lemma SplitParts(s: string)
    ensures AllLack(Split(s)) && Join(Split(s)) == s
  {
    SplitLacks(s);
    JoinSplit(s);
  }

  lemma {:induction false} SplitLacks(s: string)
    ensures AllLack(Split(s))
  {
    if s != "" {
      SplitLacks(s[1..]);
    }
  }

  lemma {:induction false} JoinSplit(s: string)
    ensures Join(Split(s)) == s
  {
    if s == "" {
      assert [""][..0] == [];
    } else {
      hide Join;
      JoinSplit(s[1..]);
      var rest := Split(s[1..]);
      assert Split(s) == if s[0] == SEPARATOR then [""] + rest else [[s[0]] + rest[0]] + rest[1..];
      hide Split;
      assert s == [s[0]] + s[1..];
      if s[0] == SEPARATOR {
        JoinFirst("", rest);
      } else {
        JoinLonger(s[0], rest);
      }
    }
  }

  lemma {:induction false} JoinFirst(a: string, rest: seq<string>)
    requires rest != []
    ensures Join([a] + rest) == a + [SEPARATOR] + Join(rest)
  {
    var all, k := [a] + rest, |rest| - 1;
    if k == 0 {
      assert all[..1] == [a];
    } else {
      JoinFirst(a, rest[..k]);
      assert all[..k + 1] == [a] + rest[..k];
    }
  }

  lemma {:induction false} JoinLonger(c: char, rest: seq<string>)
    requires rest != []
    ensures Join([[c] + rest[0]] + rest[1..]) == [c] + Join(rest)
  {
    var all, k := [[c] + rest[0]] + rest[1..], |rest| - 1;
    if k > 0 {
      JoinLonger(c, rest[..k]);
      assert all[..k] == [[c] + rest[..k][0]] + rest[..k][1..];
      assert all[k] == rest[k];
    }
  }

  /** The fields of data that unpacks. */
  function PartsOf(s: Schema, data: string): seq<string>
    requires Unpacked(s, data).Ok?
  {
    Split(Verified(s.sign, data).value)[1..]
  }

  function TagText(s: Schema, data: string): string
    requires s.sign.Some? && Unpacked(s, data).Ok?
  {
    data[LastIndex(data) + 1..]
  }

  predicate AreCanonical(kinds: seq<Kind>, parts: seq<string>)
    requires |kinds| == |parts|
  {
    forall i | 0 <= i < |kinds| :: IsCanonicalPart(kinds[i], parts[i])
  }

  /** Every field is written as Pack writes it, and so is the tag. */
  predicate IsCanonical(s: Schema, data: string)
    requires Unpacked(s, data).Ok?
  {
    && AreCanonical(s.kinds, PartsOf(s, data))
    && (s.sign.Some? ==> IsCanonicalCode(TagText(s, data)))
  }

  lemma PartsExactly(kinds: seq<Kind>, parts: seq<string>)
    requires |kinds| == |parts| && ReadFields(kinds, parts).Ok? && AllLack(parts)
    ensures var vs := ReadFields(kinds, parts).value;
            IsPayload(vs, kinds) && (forall i | 0 <= i < |vs| :: Packable(vs[i]))
            && (Texts(vs) == parts <==> AreCanonical(kinds, parts))
  {
    var vs := ReadFields(kinds, parts).value;
    assert |vs| == |kinds| by {
      if kinds != [] {
        ReadFieldsAt(kinds, parts, 0);
      }
    }
    hide ReadField, ReadFields, IsCanonicalPart, TextOf, IsOf, Packable, Lacks;
    forall i | 0 <= i < |kinds|
      ensures IsOf(vs[i], kinds[i]) && Packable(vs[i]) && (TextOf(vs[i]) == parts[i] <==> IsCanonicalPart(kinds[i], parts[i]))
    {
      ReadFieldsAt(kinds, parts, i);
      PartExactly(kinds[i], parts[i]);
    }
    if Texts(vs) == parts {
      assert forall i | 0 <= i < |kinds| :: TextOf(vs[i]) == parts[i];
    }
  }

  /** The same payload is joined from the same parts only. */
  lemma JoinsExactly(parts: seq<string>, payload: string)
    requires parts != [] && AllLack(parts)
    ensures Join(parts) == payload <==> parts == Split(payload)
  {
    SplitJoin(parts);
    SplitParts(payload);
  }

  lemma SignedSame(payload: string, t: string, joined: string, u: string)
    requires Lacks(t, SEPARATOR) && Lacks(u, SEPARATOR)
    ensures joined + [SEPARATOR] + u == payload + [SEPARATOR] + t <==> joined == payload && u == t
  {
    LastIndexOf(payload, t);
    LastIndexOf(joined, u);
    if joined + [SEPARATOR] + u == payload + [SEPARATOR] + t {
      var s := payload + [SEPARATOR] + t;
      assert s[..|payload|] == payload && s[..|joined|] == joined;
      assert s[|payload| + 1..] == t && s[|joined| + 1..] == u;
    }
  }

  /** The signature of data that unpacks is written back exactly when its text is canonical. */
  lemma SignatureExactly(sign: string -> Tag, data: string, joined: string)
    requires Verified(Some(sign), data).Ok?
    ensures var payload := Verified(Some(sign), data).value;
            joined + [SEPARATOR] + Encode(sign(joined)) == data
            <==> joined == payload && IsCanonicalCode(data[LastIndex(data) + 1..])
  {
    var at := LastIndex(data);
    var payload, t := data[..at], data[at + 1..];
    assert data == payload + [SEPARATOR] + t;
    DecodableLacksSeparator(t);
    DecodeEncode(sign(joined));
    EncodeDecodeExactly(t);
    hide Encode, Decode, IsCanonicalCode, LastIndex, Lacks;
    SignedSame(payload, t, joined, Encode(sign(joined)));
  }

  /**
   Data that unpacks gives a payload that Pack accepts, apart from its length, and packing it gives the same data back
   exactly when the data is canonical.
   */
  lemma RepacksExactly(s: Schema, data: string)
    requires IsSchema(s) && Unpacked(s, data).Ok?
    ensures var vs := Unpacked(s, data).value;
            IsPayload(vs, s.kinds) && (forall i | 0 <= i < |vs| :: Packable(vs[i]))
            && (Encoded(s, vs) == data <==> IsCanonical(s, data))
  {
    var payload, parts := Verified(s.sign, data).value, PartsOf(s, data);
    hide Join, Split, AreCanonical, IsCanonicalCode, Encode, ReadFields, IsPayload, Packable, Texts;
    PartsUnpack(s, payload, parts);
    var joined := Join([s.prefix] + Texts(ReadFields(s.kinds, parts).value));
    if s.sign.Some? {
      SignatureExactly(s.sign.value, data, joined);
    }
  }

  lemma PartsUnpack(s: Schema, payload: string, parts: seq<string>)
    requires IsSchema(s) && Decoded(s, payload).Ok? && parts == Split(payload)[1..]
    ensures Decoded(s, payload) == ReadFields(s.kinds, parts)
    ensures var vs := ReadFields(s.kinds, parts).value;
            IsPayload(vs, s.kinds) && (forall i | 0 <= i < |vs| :: Packable(vs[i]))
            && (Join([s.prefix] + Texts(vs)) == payload <==> AreCanonical(s.kinds, parts))
  {
    hide ReadFields, AreCanonical, Join, IsPayload, Packable, Texts, Lacks;
    SplitParts(payload);
    assert Split(payload) == [s.prefix] + parts;
    hide Split;
    assert AllLack(parts) by {
      assert forall i | 0 <= i < |parts| :: parts[i] == Split(payload)[i + 1];
    }
    PartsExactly(s.kinds, parts);
    var vs := ReadFields(s.kinds, parts).value;
    FieldsRoundTrip(vs, s.kinds);
    JoinsExactly([s.prefix] + Texts(vs), payload);
    SameTail(s.prefix, Texts(vs), parts);
  }

  lemma SameTail(prefix: string, a: seq<string>, b: seq<string>)
    ensures [prefix] + a == [prefix] + b <==> a == b
  {
    assert ([prefix] + a)[1..] == a && ([prefix] + b)[1..] == b;
  }

  lemma TwoParts(a: string, b: string)
    requires Lacks(a, SEPARATOR) && Lacks(b, SEPARATOR)
    ensures Join([a, b]) == a + [SEPARATOR] + b && Split(a + [SEPARATOR] + b) == [a, b]
  {
    assert [a, b][..1] == [a];
    assert Join([a, b]) == Join([a]) + [SEPARATOR] + b;
    SplitJoin([a, b]);
  }

  lemma WideNumber()
    ensures ReadField(UnsignedField(W8), "300") == Some(Number(44)) && TextOf(Number(44)) == "44"
  {
    NarrowFieldsWrap(300, W8);
    hide ReadField, IsLeftOf;
    assert Size(W8) == 256 && 300 < Size(W64);
    hide Size;
    assert NatString(3) == "3" && NatString(30) == "30" && NatString(4) == "4";
    assert IntString(300) == "300" && IntString(44) == "44";
  }

  lemma OneFieldUnpacks(s: Schema, kind: Kind, data: string, part: string)
    requires s.kinds == [kind] && s.sign.None? && Split(data) == [s.prefix, part] && ReadField(kind, part).Some?
    ensures Unpacked(s, data) == Ok([ReadField(kind, part).value])
  {
    hide Split, ReadField;
    assert [s.prefix, part][1..] == [part];
    assert s.kinds[..0] == [] && [part][..0] == [];
    var v := ReadField(kind, part).value;
    assert ReadFields(s.kinds, [part]) == Ok([] + [v]);
    assert [] + [v] == [v];
  }

  lemma OneFieldPacks(s: Schema, v: FieldValue)
    requires s.sign.None?
    ensures Encoded(s, [v]) == Join([s.prefix, TextOf(v)])
  {
    assert [s.prefix] + Texts([v]) == [s.prefix, TextOf(v)];
  }

  lemma OneFieldRepacks(s: Schema, kind: Kind, data: string, part: string, v: FieldValue)
    requires s.kinds == [kind] && s.sign.None?
    requires Lacks(s.prefix, SEPARATOR) && Lacks(part, SEPARATOR) && Lacks(TextOf(v), SEPARATOR)
    requires data == s.prefix + [SEPARATOR] + part && ReadField(kind, part) == Some(v)
    ensures Unpacked(s, data) == Ok([v]) && Encoded(s, [v]) == s.prefix + [SEPARATOR] + TextOf(v)
  {
    TwoParts(s.prefix, part);
    TwoParts(s.prefix, TextOf(v));
    OneFieldUnpacks(s, kind, data, part);
    OneFieldPacks(s, v);
  }

  /** A number wider than its field: the data unpacks, and packing what it unpacks to gives other data. */
  lemma WideNumberDoesNotRepack()
    ensures var s := Schema("p", [UnsignedField(W8)], None);
            IsSchema(s) && Unpacked(s, "p:300") == Ok([Number(44)]) && Encoded(s, [Number(44)]) == "p:44"
  {
    WideNumber();
    hide TextOf, ReadField, Unpacked, Encoded;
    OneFieldRepacks(Schema("p", [UnsignedField(W8)], None), UnsignedField(W8), "p:300", "300", Number(44));
  }
}
