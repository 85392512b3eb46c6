/**
 Callback data (callback_data.go): a typed payload packed into "prefix:field1:field2:…", with an optional signature,
 and unpacked again. Strings stand for their bytes, one char a byte. Reflection over the payload struct becomes a list
 of field kinds and a list of values; the keyed hash is any function of the payload to eight bytes.
 */
module CallbackData {
  import opened Options
  import opened Strings
  import opened Decimal
  import opened Base64Url

  const SEPARATOR := ':'
  const MAX_LENGTH := 64
  const TAG_LENGTH := 8

  type Tag = t: seq<Byte> | |t| == TAG_LENGTH witness [0, 0, 0, 0, 0, 0, 0, 0]

  datatype Width = W8 | W16 | W32 | W64

  datatype Kind = TextField | FlagField | SignedField(width: Width) | UnsignedField(width: Width)

  datatype FieldValue = Text(text: string) | Flag(flag: bool) | Number(number: int)

  /** sign is the tag function under the schema's secret, if it has one. */
  datatype Schema = Schema(prefix: string, kinds: seq<Kind>, sign: Option<string -> Tag>)

  datatype Error = HasSeparator(field: nat) | TooLong(length: nat)
                 | Tampered | WrongPrefix | FieldCount(got: nat) | BadField(field: nat)

  datatype Result<T> = Ok(value: T) | Err(error: Error)

  /** What NewCallbackData insists on. */
  predicate IsSchema(s: Schema) {
    s.prefix != "" && Lacks(s.prefix, SEPARATOR)
  }

  /** The number of values of a width. */
  function Size(width: Width): int {
    match width
    case W8 => 0x100
    case W16 => 0x1_0000
    case W32 => 0x1_0000_0000
    case W64 => 0x1_0000_0000_0000_0000
  }

  /** The values a Go field of this kind can hold. */
  predicate IsOf(v: FieldValue, kind: Kind) {
    match kind
    case TextField => v.Text?
    case FlagField => v.Flag?
    case SignedField(w) => v.Number? && -(Size(w) / 2) <= v.number < Size(w) / 2
    case UnsignedField(w) => v.Number? && 0 <= v.number < Size(w)
  }

  predicate IsPayload(vs: seq<FieldValue>, kinds: seq<Kind>) {
    |vs| == |kinds| && forall i | 0 <= i < |vs| :: IsOf(vs[i], kinds[i])
  }

  // --------------------------------------------------------------------------
  // Go's strings and strconv, as far as they are used

  function Join(parts: seq<string>): string {
    if |parts| == 0 then ""
    else if |parts| == 1 then parts[0]
    else Join(parts[..|parts| - 1]) + [SEPARATOR] + parts[|parts| - 1]
  }

  function Split(s: string): (parts: seq<string>)
    ensures |parts| > 0
  {
    if s == "" then [""]
    else
      var rest := Split(s[1..]);
      if s[0] == SEPARATOR then [""] + rest else [[s[0]] + rest[0]] + rest[1..]
  }

  function LastIndex(s: string): (i: int)
    ensures i < |s|
    ensures i >= 0 ==> s[i] == SEPARATOR && Lacks(s[i + 1..], SEPARATOR)
    ensures i < 0 ==> i == -1 && Lacks(s, SEPARATOR)
  {
    if s == "" then -1 else if s[|s| - 1] == SEPARATOR then |s| - 1 else LastIndex(s[..|s| - 1])
  }

  function BoolString(b: bool): string {
    if b then "true" else "false"
  }

  function ParseBool(s: string): Option<bool> {
    if s in {"1", "t", "T", "TRUE", "true", "True"} then Some(true)
    else if s in {"0", "f", "F", "FALSE", "false", "False"} then Some(false)
    else None
  }

  function ParseUint(s: string): Option<int> {
    if s == "" || !AllDigits(s) || NatValue(s) >= Size(W64) then None else Some(NatValue(s))
  }

  function ParseInt(s: string): Option<int> {
    var negative := s != "" && s[0] == '-';
    var digits := if s != "" && (s[0] == '-' || s[0] == '+') then s[1..] else s;
    match ParseUint(digits)
    case None => None
    case Some(n) =>
      if (if negative then n > Size(W64) / 2 else n >= Size(W64) / 2) then None
      else Some(if negative then -n else n)
  }

  /** What is left of n in a field of this width: reflection keeps the low bits. */
  function WrapUnsigned(n: int, width: Width): int {
    n % Size(width)
  }

  function WrapSigned(n: int, width: Width): int {
    (n + Size(width) / 2) % Size(width) - Size(width) / 2
  }

  // --------------------------------------------------------------------------
  // Pack

  function TextOf(v: FieldValue): string {
    match v
    case Text(t) => t
    case Flag(b) => BoolString(b)
    case Number(n) => IntString(n)
  }

  function Texts(vs: seq<FieldValue>): (r: seq<string>)
    ensures |r| == |vs| && forall i | 0 <= i < |r| :: r[i] == TextOf(vs[i])
  {
    seq(|vs|, i requires 0 <= i < |vs| => TextOf(vs[i]))
  }

  predicate Packable(v: FieldValue) {
    v.Text? ==> Lacks(v.text, SEPARATOR)
  }

  predicate IsFirstUnpackable(vs: seq<FieldValue>, k: nat) {
    k < |vs| && !Packable(vs[k]) && forall i | 0 <= i < k :: Packable(vs[i])
  }

  /** The fields joined, and signed if the schema signs. */
  function Encoded(s: Schema, vs: seq<FieldValue>): string {
    var joined := Join([s.prefix] + Texts(vs));
    match s.sign
    case None => joined
    case Some(tag) => joined + [SEPARATOR] + Encode(tag(joined))
  }

  method Pack(s: Schema, vs: seq<FieldValue>) returns (r: Result<string>)
    requires IsSchema(s) && IsPayload(vs, s.kinds)
    ensures r.Ok? <==> (forall v | v in vs :: Packable(v)) && |Encoded(s, vs)| <= 64
    ensures r.Ok? ==> r.value == Encoded(s, vs)
    ensures r.Err? && r.error.HasSeparator? ==> IsFirstUnpackable(vs, r.error.field)
    ensures r.Err? && (forall v | v in vs :: Packable(v)) ==> r.error == TooLong(|Encoded(s, vs)|)
    ensures r.Err? ==> r.error.HasSeparator? || r.error.TooLong?
  {
    hide IsSchema, Join, Encode, NatString;
    var parts := [s.prefix];
    for i := 0 to |s.kinds|
      invariant forall j | 0 <= j < i :: Packable(vs[j])
      invariant parts == [s.prefix] + Texts(vs[..i])
    {
      var part: string;
      match s.kinds[i] {
        case TextField =>
          part := vs[i].text;
          if SEPARATOR in part {
            assert vs[i] in vs && !Packable(vs[i]);
            return Err(HasSeparator(i));
          }
        case FlagField => part := BoolString(vs[i].flag);
        case UnsignedField(_) => part := NatString(vs[i].number);
        case SignedField(_) => part := IntString(vs[i].number);
      }
      assert part == TextOf(vs[i]);
      assert Texts(vs[..i + 1]) == Texts(vs[..i]) + [part];
      assert [s.prefix] + Texts(vs[..i]) + [part] == [s.prefix] + (Texts(vs[..i]) + [part]);
      parts := parts + [part];
    }
    assert vs[..|vs|] == vs;
    var packed := Join(parts);
    if s.sign.Some? {
      packed := packed + [SEPARATOR] + Encode(s.sign.value(packed));
    }
    if |packed| > MAX_LENGTH {
      return Err(TooLong(|packed|));
    }
    return Ok(packed);
  }

  // --------------------------------------------------------------------------
  // Unpack

  function ReadField(kind: Kind, part: string): Option<FieldValue> {
    match kind
    case TextField => Some(Text(part))
    case FlagField =>
      (match ParseBool(part) case None => None case Some(b) => Some(Flag(b)))
    case UnsignedField(w) =>
      (match ParseUint(part) case None => None case Some(n) => Some(Number(WrapUnsigned(n, w))))
    case SignedField(w) =>
      (match ParseInt(part) case None => None case Some(n) => Some(Number(WrapSigned(n, w))))
  }

  /** The values in order, or the first part that cannot be read. */
  function ReadFields(kinds: seq<Kind>, parts: seq<string>): Result<seq<FieldValue>>
    requires |kinds| == |parts|
  {
    if kinds == [] then Ok([])
    else
      var k := |kinds| - 1;
      match ReadFields(kinds[..k], parts[..k])
      case Err(e) => Err(e)
      case Ok(vs) =>
        match ReadField(kinds[k], parts[k])
        case None => Err(BadField(k))
        case Some(v) => Ok(vs + [v])
  }

  /** The payload in front of a valid tag. */
  function Verified(sign: Option<string -> Tag>, data: string): Result<string> {
    match sign
    case None => Ok(data)
    case Some(tag) =>
      var at := LastIndex(data);
      if at < 0 then Err(Tampered)
      else
        match Decode(data[at + 1..])
        case None => Err(Tampered)
        case Some(t) => if t == tag(data[..at]) then Ok(data[..at]) else Err(Tampered)
  }

  function Decoded(s: Schema, payload: string): Result<seq<FieldValue>> {
    var parts := Split(payload);
    if parts[0] != s.prefix then Err(WrongPrefix)
    else if |parts| - 1 != |s.kinds| then Err(FieldCount(|parts| - 1))
    else ReadFields(s.kinds, parts[1..])
  }

  /** What data means to the schema. */
  function Unpacked(s: Schema, data: string): Result<seq<FieldValue>> {
    match Verified(s.sign, data)
    case Err(e) => Err(e)
    case Ok(payload) => Decoded(s, payload)
  }

  lemma {:induction false} ReadErrorStays(kinds: seq<Kind>, parts: seq<string>, i: nat)
    requires |kinds| == |parts| && i <= |kinds| && ReadFields(kinds[..i], parts[..i]).Err?
    ensures ReadFields(kinds, parts) == ReadFields(kinds[..i], parts[..i])
  {
    var k := |kinds|;
    if i == k {
      assert kinds[..i] == kinds && parts[..i] == parts;
    } else {
      assert kinds[..k - 1][..i] == kinds[..i] && parts[..k - 1][..i] == parts[..i];
      ReadErrorStays(kinds[..k - 1], parts[..k - 1], i);
    }
  }

  lemma ReadOneMore(kinds: seq<Kind>, parts: seq<string>, i: nat)
    requires |kinds| == |parts| && i < |kinds| && ReadFields(kinds[..i], parts[..i]).Ok?
    ensures var vs := ReadFields(kinds[..i], parts[..i]).value;
            match ReadField(kinds[i], parts[i])
            case None => ReadFields(kinds, parts) == Err(BadField(i))
            case Some(v) => ReadFields(kinds[..i + 1], parts[..i + 1]) == Ok(vs + [v])
  {
    assert kinds[..i + 1][..i] == kinds[..i] && parts[..i + 1][..i] == parts[..i];
    if ReadField(kinds[i], parts[i]).None? {
      ReadErrorStays(kinds, parts, i + 1);
    }
  }

  method Unpack(s: Schema, data: string) returns (r: Result<seq<FieldValue>>)
    ensures r == Unpacked(s, data)
  {
    assert ReadFields([], []) == Ok([]);
    hide ReadFields, LastIndex, Split, Decode, ParseInt, ParseUint, ParseBool, WrapSigned, WrapUnsigned;
    var payload := data;
    if s.sign.Some? {
      var at := LastIndex(data);
      if at < 0 {
        return Err(Tampered);
      }
      payload := data[..at];
      var want := Decode(data[at + 1..]);
      if want.None? || |want.value| != TAG_LENGTH || s.sign.value(payload) != want.value {
        return Err(Tampered);
      }
    }
    var parts := Split(payload);
    if parts[0] != s.prefix {
      return Err(WrongPrefix);
    }
    if |parts| - 1 != |s.kinds| {
      return Err(FieldCount(|parts| - 1));
    }
    ghost var texts := parts[1..];
    var vs := [];
    for i := 0 to |s.kinds|
      invariant ReadFields(s.kinds[..i], texts[..i]) == Ok(vs)
    {
      var part := parts[i + 1];
      ReadOneMore(s.kinds, texts, i);
      var v: FieldValue;
      match s.kinds[i] {
        case TextField => v := Text(part);
        case FlagField =>
          var b := ParseBool(part);
          if b.None? {
            return Err(BadField(i));
          }
          v := Flag(b.value);
        case UnsignedField(w) =>
          var n := ParseUint(part);
          if n.None? {
            return Err(BadField(i));
          }
          v := Number(WrapUnsigned(n.value, w));
        case SignedField(w) =>
          var n := ParseInt(part);
          if n.None? {
            return Err(BadField(i));
          }
          v := Number(WrapSigned(n.value, w));
      }
      vs := vs + [v];
    }
    assert s.kinds[..|s.kinds|] == s.kinds && texts[..|s.kinds|] == texts;
    return Ok(vs);
  }

  /** Filter on the data of a callback query. */
  function Accepts(s: Schema, data: string): bool {
    data == s.prefix || HasPrefix(data, s.prefix + [SEPARATOR])
  }

  // --------------------------------------------------------------------------
  // Round trip

  lemma {:induction false} SplitAtFirst(a: string, x: string)
    requires Lacks(a, SEPARATOR)
    ensures Split(a + [SEPARATOR] + x) == [a] + Split(x)
    ensures Split(a) == [a]
  {
    var s := a + [SEPARATOR] + x;
    if a == "" {
      assert s[1..] == x;
    } else {
      SplitAtFirst(a[1..], x);
      assert s[1..] == a[1..] + [SEPARATOR] + x;
      assert [a[0]] + a[1..] == a;
    }
  }

  lemma {:induction false} SplitAtLast(x: string, a: string)
    requires Lacks(a, SEPARATOR)
    ensures Split(x + [SEPARATOR] + a) == Split(x) + [a]
  {
    var s := x + [SEPARATOR] + a;
    if x == "" {
      assert s[1..] == a;
      SplitAtFirst(a, "");
    } else {
      SplitAtLast(x[1..], a);
      assert s[1..] == x[1..] + [SEPARATOR] + a;
      assert s[0] == x[0];
    }
  }

  predicate AllLack(parts: seq<string>) {
    forall i | 0 <= i < |parts| :: Lacks(parts[i], SEPARATOR)
  }

  /** Splitting undoes joining. */
  lemma {:induction false} SplitJoin(parts: seq<string>)
    requires parts != [] && AllLack(parts)
    ensures Split(Join(parts)) == parts
  {
    var k := |parts| - 1;
    if k == 0 {
      SplitAtFirst(parts[0], "");
    } else {
      SplitJoin(parts[..k]);
      SplitAtLast(Join(parts[..k]), parts[k]);
      assert parts == parts[..k] + [parts[k]];
    }
  }

  lemma {:induction false} LastIndexOf(x: string, a: string)
    requires Lacks(a, SEPARATOR)
    ensures LastIndex(x + [SEPARATOR] + a) == |x|
  {
    var s := x + [SEPARATOR] + a;
    if a != "" {
      var k := |a| - 1;
      LastIndexOf(x, a[..k]);
      assert s[|s| - 1] == a[k];
      assert s[..|s| - 1] == x + [SEPARATOR] + a[..k];
    }
  }

  lemma FitsItsWidth(n: nat, w: Width)
    requires n < Size(w)
    ensures n < Size(W64) && WrapUnsigned(n, w) == n
  {
  }

  lemma UnsignedRoundTrip(n: nat, w: Width)
    requires n < Size(w)
    ensures ReadField(UnsignedField(w), IntString(n)) == Some(Number(n))
  {
    NatRoundTrip(n);
    FitsItsWidth(n, w);
    hide Size, WrapUnsigned, NatString, NatValue;
  }

  lemma ParseIntOf(n: int)
    requires -(Size(W64) / 2) <= n < Size(W64) / 2
    ensures ParseInt(IntString(n)) == Some(n)
  {
    var digits := NatString(if n < 0 then -n else n);
    NatRoundTrip(if n < 0 then -n else n);
    assert ParseUint(digits) == Some(if n < 0 then -n else n);
    assert IsDigit(digits[0]);
    hide ParseUint, NatString, NatValue;
    if n < 0 {
      assert IntString(n)[1..] == digits;
    }
  }

  lemma WrapSignedOf(n: int, w: Width)
    requires -(Size(w) / 2) <= n < Size(w) / 2
    ensures WrapSigned(n, w) == n
  {
  }

  lemma FieldRoundTrip(v: FieldValue, kind: Kind)
    requires IsOf(v, kind) && Packable(v)
    ensures ReadField(kind, TextOf(v)) == Some(v)
    ensures Lacks(TextOf(v), SEPARATOR)
  {
    hide NatString, IntString, ParseUint;
    match kind
    case TextField =>
    case FlagField =>
    case UnsignedField(w) =>
      UnsignedRoundTrip(v.number, w);
      IntStringLacks(v.number, SEPARATOR);
    case SignedField(w) =>
      hide ParseInt, WrapSigned;
      assert Size(w) <= Size(W64);
      ParseIntOf(v.number);
      WrapSignedOf(v.number, w);
      IntStringLacks(v.number, SEPARATOR);
  }

  lemma {:induction false} FieldsRoundTrip(vs: seq<FieldValue>, kinds: seq<Kind>)
    requires IsPayload(vs, kinds) && forall i | 0 <= i < |vs| :: Packable(vs[i])
    ensures ReadFields(kinds, Texts(vs)) == Ok(vs)
    ensures AllLack(Texts(vs))
  {
    if vs != [] {
      var k := |vs| - 1;
      FieldsRoundTrip(vs[..k], kinds[..k]);
      FieldRoundTrip(vs[k], kinds[k]);
      hide ReadField, TextOf, Lacks, Packable, IsOf;
      assert Texts(vs)[..k] == Texts(vs[..k]);
      assert vs == vs[..k] + [vs[k]];
    }
  }

  /** The payload in front of the signature comes back. */
  lemma {:induction false} EncodedIsVerified(s: Schema, vs: seq<FieldValue>)
    ensures Verified(s.sign, Encoded(s, vs)) == Ok(Join([s.prefix] + Texts(vs)))
  {
    var joined := Join([s.prefix] + Texts(vs));
    if s.sign.Some? {
      var tag := s.sign.value(joined);
      DecodeEncode(tag);
      LastIndexOf(joined, Encode(tag));
      var data := joined + [SEPARATOR] + Encode(tag);
      assert data[|joined| + 1..] == Encode(tag) && data[..|joined|] == joined;
    }
  }

  lemma EncodedSplits(s: Schema, vs: seq<FieldValue>)
    requires IsSchema(s) && IsPayload(vs, s.kinds) && forall v | v in vs :: Packable(v)
    ensures Split(Join([s.prefix] + Texts(vs))) == [s.prefix] + Texts(vs)
    ensures ReadFields(s.kinds, Texts(vs)) == Ok(vs)
  {
    FieldsRoundTrip(vs, s.kinds);
    SplitJoin([s.prefix] + Texts(vs));
  }

  /** The layout: the prefix, each value after a colon, and, when the schema signs, the eight bytes of the tag as text. */
  lemma DataIsLaidOut(prefix: string, kinds: seq<Kind>, vs: seq<FieldValue>, v: FieldValue, tag: string -> Tag)
    ensures var plain, signed := Schema(prefix, kinds, None), Schema(prefix, kinds, Some(tag));
            && Encoded(plain, []) == prefix
            && Encoded(plain, vs + [v]) == Encoded(plain, vs) + ":" + TextOf(v)
            && Encoded(signed, vs) == Encoded(plain, vs) + ":" + Encode(tag(Encoded(plain, vs)))
            && |Encoded(signed, vs)| == |Encoded(plain, vs)| + 12
  {
    var plain := Schema(prefix, kinds, None);
    var parts := [prefix] + Texts(vs);
    assert [prefix] + Texts([]) == [prefix];
    assert [prefix] + Texts(vs + [v]) == parts + [TextOf(v)] && (parts + [TextOf(v)])[..|parts|] == parts;
    EncodeUsesCodes(tag(Encoded(plain, vs)));
    hide IntString, Encode, Texts, TextOf;
  }

  lemma ValuesAreWritten(s: string, n: int)
    ensures TextOf(Text(s)) == s && TextOf(Number(n)) == IntString(n)
    ensures TextOf(Flag(true)) == "true" && TextOf(Flag(false)) == "false"
  {
  }

  /** Whatever Pack encodes, Unpack reads back, signed or not. */
  lemma UnpackUndoesPack(s: Schema, vs: seq<FieldValue>)
    requires IsSchema(s) && IsPayload(vs, s.kinds) && forall v | v in vs :: Packable(v)
    ensures Unpacked(s, Encoded(s, vs)) == Ok(vs)
  {
    EncodedIsVerified(s, vs);
    EncodedSplits(s, vs);
    assert ([s.prefix] + Texts(vs))[1..] == Texts(vs);
  }

  /** Different payloads have different data. */
  lemma PackIsInjective(s: Schema, vs: seq<FieldValue>, ws: seq<FieldValue>)
    requires IsSchema(s) && IsPayload(vs, s.kinds) && IsPayload(ws, s.kinds)
    requires (forall v | v in vs :: Packable(v)) && (forall w | w in ws :: Packable(w))
    requires Encoded(s, vs) == Encoded(s, ws)
    ensures vs == ws
  {
    UnpackUndoesPack(s, vs);
    UnpackUndoesPack(s, ws);
  }

  function TagOf(tag: string -> Tag, payload: string): seq<Byte> {
    tag(payload)
  }

  lemma {:induction false} DecodableLacksSeparator(t: string)
    requires AllCodes(WithoutBreaks(t))
    ensures Lacks(t, SEPARATOR)
  {
    if t != "" {
      var kept := WithoutBreaks(t);
      if t[0] != '\r' && t[0] != '\n' {
        assert kept[0] == t[0] && kept[1..] == WithoutBreaks(t[1..]);
      }
      DecodableLacksSeparator(t[1..]);
    }
  }

  /** A signing schema takes a payload for genuine exactly when some encoding of the payload's own tag follows it. */
  lemma VerifiedExactly(tag: string -> Tag, data: string, payload: string)
    ensures Verified(Some(tag), data) == Ok(payload)
            <==> exists t :: data == payload + [SEPARATOR] + t && Decode(t) == Some(TagOf(tag, payload))
  {
    var at := LastIndex(data);
    if Verified(Some(tag), data) == Ok(payload) {
      assert data == payload + [SEPARATOR] + data[at + 1..];
    }
    forall t | data == payload + [SEPARATOR] + t && Decode(t) == Some(TagOf(tag, payload))
      ensures Verified(Some(tag), data) == Ok(payload)
    {
      DecodableLacksSeparator(t);
      LastIndexOf(payload, t);
      assert data[at + 1..] == t && data[..at] == payload;
    }
  }

  // --------------------------------------------------------------------------
  // Filters

  lemma {:induction false} FirstPartOf(data: string)
    ensures var h := Split(data)[0]; Lacks(h, SEPARATOR) && (data == h || HasPrefix(data, h + [SEPARATOR]))
  {
    if data != "" && data[0] != SEPARATOR {
      FirstPartOf(data[1..]);
      var h, t := Split(data)[0], Split(data[1..])[0];
      assert h == [data[0]] + t && data == [data[0]] + data[1..];
      if data[1..] != t {
        assert data[..|h| + 1] == [data[0]] + data[1..][..|t| + 1];
      }
    }
  }

  /** A schema's Filter accepts the data whose first part is its prefix. */
  lemma AcceptsExactly(s: Schema, data: string)
    requires IsSchema(s)
    ensures Accepts(s, data) <==> Split(data)[0] == s.prefix
  {
    FirstPartOf(data);
    if data == s.prefix {
      SplitAtFirst(s.prefix, "");
    } else if HasPrefix(data, s.prefix + [SEPARATOR]) {
      var x := data[|s.prefix| + 1..];
      assert data == s.prefix + [SEPARATOR] + x;
      SplitAtFirst(s.prefix, x);
    }
  }

  /** Whatever a schema unpacks, its own Filter accepts: tampered tags, foreign data and all. */
  lemma WhatUnpacksIsAccepted(s: Schema, data: string)
    requires IsSchema(s) && Unpacked(s, data).Ok?
    ensures Accepts(s, data)
  {
    var payload := Verified(s.sign, data).value;
    assert Split(payload)[0] == s.prefix;
    hide Decoded, Decode, Split;
    AcceptsExactly(s, payload);
    if s.sign.Some? {
      assert data == payload + [SEPARATOR] + data[|payload| + 1..];
      assert data[..|s.prefix| + 1] == s.prefix + [SEPARATOR];
    }
  }

  /** What one schema packs, its own Filter accepts. */
  lemma PackedIsAccepted(s: Schema, vs: seq<FieldValue>)
    requires IsSchema(s) && IsPayload(vs, s.kinds) && forall v | v in vs :: Packable(v)
    ensures Accepts(s, Encoded(s, vs))
  {
    UnpackUndoesPack(s, vs);
    WhatUnpacksIsAccepted(s, Encoded(s, vs));
  }

  /**
   What one schema packs, no schema with another prefix accepts or unpacks, however either of them signs; one that
   signs the same way reports the prefix.
   */
  lemma ForeignDataIsRejected(s: Schema, vs: seq<FieldValue>, other: Schema)
    requires IsSchema(s) && IsPayload(vs, s.kinds) && forall v | v in vs :: Packable(v)
    requires IsSchema(other) && other.prefix != s.prefix
    ensures !Accepts(other, Encoded(s, vs))
    ensures Unpacked(other, Encoded(s, vs)).Err?
    ensures other.sign == s.sign ==> Unpacked(other, Encoded(s, vs)) == Err(WrongPrefix)
  {
    var data := Encoded(s, vs);
    PackedIsAccepted(s, vs);
    AcceptsExactly(s, data);
    AcceptsExactly(other, data);
    if Unpacked(other, data).Ok? {
      WhatUnpacksIsAccepted(other, data);
    }
    if other.sign == s.sign {
      EncodedIsVerified(s, vs);
      EncodedSplits(s, vs);
    }
  }
}
