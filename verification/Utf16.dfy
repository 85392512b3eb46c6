/**
 UTF-16 as sections 2.1 and 2.2 of RFC 2781 define it, with the treatment of unpaired surrogates that Go's
 unicode/utf16 package adds: each one decodes to the replacement character.

 Text is a sequence of Unicode scalar values; an encoded text is a sequence of 16-bit units.
 */
module Utf16 {

  type Scalar = c: int | 0 <= c < 0xD800 || 0xE000 <= c < 0x11_0000 witness 0
  type Unit = c: int | 0 <= c < 0x1_0000 witness 0
  type Text = seq<Scalar>

  const REPLACEMENT: Scalar := 0xFFFD

  predicate IsHighSurrogate(c: Unit) {
    0xD800 <= c < 0xDC00
  }

  predicate IsLowSurrogate(c: Unit) {
    0xDC00 <= c < 0xE000
  }

  function EncodeScalar(c: Scalar): (r: seq<Unit>)
    ensures 1 <= |r| <= 2
  {
    if c < 0x1_0000 then [c]
    else [0xD800 + (c - 0x1_0000) / 0x400, 0xDC00 + (c - 0x1_0000) % 0x400]
  }

  function Encode(t: Text): seq<Unit> {
    if t == [] then [] else EncodeScalar(t[0]) + Encode(t[1..])
  }

  predicate StartsWithPair(u: seq<Unit>) {
    |u| > 1 && IsHighSurrogate(u[0]) && IsLowSurrogate(u[1])
  }

  function DecodePair(high: Unit, low: Unit): Scalar
    requires IsHighSurrogate(high) && IsLowSurrogate(low)
  {
    0x1_0000 + (high - 0xD800) * 0x400 + (low - 0xDC00)
  }

  function Decode(u: seq<Unit>): Text {
    if u == [] then []
    else if StartsWithPair(u) then [DecodePair(u[0], u[1])] + Decode(u[2..])
    else if IsHighSurrogate(u[0]) || IsLowSurrogate(u[0]) then [REPLACEMENT] + Decode(u[1..])
    else [u[0]] + Decode(u[1..])
  }

  /** A cut at b does not separate the two units of a surrogate pair. */
  predicate Aligned(u: seq<Unit>, b: int) {
    !(0 < b < |u| && IsHighSurrogate(u[b - 1]) && IsLowSurrogate(u[b]))
  }

  /** Every surrogate is one half of a pair. */
  predicate WellFormed(u: seq<Unit>) {
    && (forall i :: 0 <= i < |u| && IsHighSurrogate(u[i]) ==> i + 1 < |u| && IsLowSurrogate(u[i + 1]))
    && (forall i :: 0 <= i < |u| && IsLowSurrogate(u[i]) ==> i > 0 && IsHighSurrogate(u[i - 1]))
  }

  lemma {:induction false} EncodeAppend(s: Text, t: Text)
    ensures Encode(s + t) == Encode(s) + Encode(t)
  {
    if s == [] {
      assert s + t == t;
    } else {
      assert (s + t)[1..] == s[1..] + t;
      EncodeAppend(s[1..], t);
    }
  }

  /** Decoding inverts encoding. */
  lemma {:induction false} DecodeEncode(t: Text)
    ensures Decode(Encode(t)) == t
  {
    if t != [] {
      var head, rest := EncodeScalar(t[0]), Encode(t[1..]);
      DecodeEncode(t[1..]);
      assert (head + rest)[|head|..] == rest;
    }
  }

  lemma {:induction false} EncodeWellFormed(t: Text)
    ensures WellFormed(Encode(t))
  {
    if t != [] {
      var head, rest := EncodeScalar(t[0]), Encode(t[1..]);
      EncodeWellFormed(t[1..]);
      forall i | 0 <= i < |Encode(t)| && IsHighSurrogate(Encode(t)[i])
        ensures i + 1 < |Encode(t)| && IsLowSurrogate(Encode(t)[i + 1])
      {
        if i >= |head| {
          assert rest[i - |head|] == Encode(t)[i];
        }
      }
      forall i | 0 <= i < |Encode(t)| && IsLowSurrogate(Encode(t)[i])
        ensures i > 0 && IsHighSurrogate(Encode(t)[i - 1])
      {
        if i >= |head| {
          assert rest[i - |head|] == Encode(t)[i];
        }
      }
    }
  }

  /** Re-encoding a decoded unit sequence always has the original length, well formed or not. */
  lemma {:induction false} EncodeDecodeLength(u: seq<Unit>)
    ensures |Encode(Decode(u))| == |u|
  {
    if u != [] {
      var step := if StartsWithPair(u) then 2 else 1;
      EncodeDecodeLength(u[step..]);
      assert Decode(u)[1..] == Decode(u[step..]);
    }
  }

  /** A cut that separates no pair decodes to the same characters on both sides. */
  lemma {:induction false} DecodeSplit(u: seq<Unit>, b: nat)
    requires b <= |u| && Aligned(u, b)
    ensures Decode(u) == Decode(u[..b]) + Decode(u[b..])
    decreases |u|
  {
    hide DecodePair;
    if b == 0 {
      assert u[..b] == [] && u[b..] == u;
    } else {
      var step := if StartsWithPair(u) then 2 else 1;
      assert step <= b;
      assert StartsWithPair(u[..b]) == StartsWithPair(u);
      DecodeSplit(u[step..], b - step);
      assert u[..b][step..] == u[step..][..b - step];
      assert u[b..] == u[step..][b - step..];
    }
  }

  /** The first k characters of a text end at an aligned offset, where the encoding splits in two. */
  lemma OffsetOf(t: Text, k: nat)
    requires k <= |t|
    ensures |Encode(t[..k])| <= |Encode(t)|
    ensures Aligned(Encode(t), |Encode(t[..k])|)
    ensures Encode(t)[..|Encode(t[..k])|] == Encode(t[..k])
    ensures Encode(t)[|Encode(t[..k])|..] == Encode(t[k..])
  {
    assert t == t[..k] + t[k..];
    EncodeAppend(t[..k], t[k..]);
    var a, b := Encode(t[..k]), Encode(t[k..]);
    EncodeWellFormed(t[..k]);
    if 0 < |a| < |a + b| && IsHighSurrogate(a[|a| - 1]) {
      assert false;
    }
  }

  lemma EncodeDecodedPair(high: Unit, low: Unit)
    requires IsHighSurrogate(high) && IsLowSurrogate(low)
    ensures EncodeScalar(DecodePair(high, low)) == [high, low]
  {
  }

  lemma WellFormedSlice(u: seq<Unit>, a: nat, b: nat)
    requires a <= b <= |u| && Aligned(u, a) && Aligned(u, b) && WellFormed(u)
    ensures WellFormed(u[a..b])
  {
    var v := u[a..b];
    assert forall i :: 0 <= i < |v| ==> v[i] == u[a + i];
    forall i | 0 <= i < |v| && IsHighSurrogate(v[i]) ensures i + 1 < |v| && IsLowSurrogate(v[i + 1]) {
      assert IsLowSurrogate(u[a + i + 1]);
    }
    forall i | 0 <= i < |v| && IsLowSurrogate(v[i]) ensures i > 0 && IsHighSurrogate(v[i - 1]) {
      assert IsHighSurrogate(u[a + i - 1]);
    }
  }

  lemma {:induction false} EncodeDecodeWellFormed(u: seq<Unit>)
    requires WellFormed(u)
    ensures Encode(Decode(u)) == u
  {
    if u != [] {
      var step := if StartsWithPair(u) then 2 else 1;
      WellFormedSlice(u, step, |u|);
      assert u[step..|u|] == u[step..];
      EncodeDecodeWellFormed(u[step..]);
      assert Decode(u)[1..] == Decode(u[step..]);
      assert u == u[..step] + u[step..];
      if step == 2 {
        EncodeDecodedPair(u[0], u[1]);
      } else {
        assert EncodeScalar(Decode(u)[0]) == u[..1];
      }
    }
  }

  /** A unit sequence is the encoding of some text exactly when decoding and encoding it changes nothing. */
  lemma {:induction false} EncodeDecodeIff(u: seq<Unit>)
    ensures Encode(Decode(u)) == u <==> WellFormed(u)
  {
    if WellFormed(u) {
      EncodeDecodeWellFormed(u);
    }
    EncodeWellFormed(Decode(u));
  }

  /** Two aligned offsets cut a text into three texts. */
  lemma SplitInThree(t: Text, a: nat, b: nat)
    requires a <= b <= |Encode(t)| && Aligned(Encode(t), a) && Aligned(Encode(t), b)
    ensures Decode(Encode(t)[..a]) + Decode(Encode(t)[a..b]) + Decode(Encode(t)[b..]) == t
  {
    var u := Encode(t);
    DecodeEncode(t);
    DecodeSplit(u, b);
    DecodeSplit(u[..b], a);
    assert u[..b][..a] == u[..a] && u[..b][a..] == u[a..b];
  }

  /** The units between two aligned offsets are exactly the encoding of the text they decode to. */
  lemma SliceIsText(t: Text, a: nat, b: nat)
    requires a <= b <= |Encode(t)| && Aligned(Encode(t), a) && Aligned(Encode(t), b)
    ensures Encode(Decode(Encode(t)[a..b])) == Encode(t)[a..b]
  {
    EncodeWellFormed(t);
    WellFormedSlice(Encode(t), a, b);
    EncodeDecodeWellFormed(Encode(t)[a..b]);
  }
}
