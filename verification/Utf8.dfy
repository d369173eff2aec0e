/** JavaScript strings (sequences of UTF-16 code units) and their UTF-8 form,
    as `Buffer.from(value, "utf8")` and `Buffer.byteLength` produce it and
    section 3 of RFC 3629 defines it. */
module Utf8 {
  import opened Wrappers

  newtype CodeUnit = u: int | 0 <= u < 0x1_0000
  newtype Byte = b: int | 0 <= b < 0x100

  type JsString = seq<CodeUnit>

  const REPLACEMENT: CodeUnit := 0xFFFD

  predicate IsHigh(u: CodeUnit) {
    0xD800 <= u < 0xDC00
  }

  predicate IsLow(u: CodeUnit) {
    0xDC00 <= u < 0xE000
  }

  /** How many code units the next step of `for (const c of s)` consumes. */
  function Width(s: JsString): (w: nat)
    requires s != []
    ensures 1 <= w <= 2 && w <= |s|
  {
    if IsHigh(s[0]) && |s| > 1 && IsLow(s[1]) then 2 else 1
  }

  /** A Unicode scalar value: a code point that is no surrogate. */
  predicate IsScalar(c: int) {
    0 <= c < 0xD800 || 0xE000 <= c < 0x11_0000
  }

  /** The scalar value the encoder writes for the first code point; a lone
      surrogate is written as U+FFFD. */
  function Scalar(s: JsString): (c: int)
    requires s != []
    ensures IsScalar(c)
  {
    if Width(s) == 2 then 0x1_0000 + (s[0] as int - 0xD800) * 0x400 + (s[1] as int - 0xDC00)
    else if IsHigh(s[0]) || IsLow(s[0]) then REPLACEMENT as int
    else s[0] as int
  }

  function EncodeScalar(c: int): (bytes: seq<Byte>)
    requires IsScalar(c)
    ensures 1 <= |bytes| <= 4
  {
    if c < 0x80 then [c as Byte]
    else if c < 0x800 then [(0xC0 + c / 0x40) as Byte, (0x80 + c % 0x40) as Byte]
    else if c < 0x1_0000 then
      [(0xE0 + c / 0x1000) as Byte, (0x80 + c / 0x40 % 0x40) as Byte, (0x80 + c % 0x40) as Byte]
    else
      [(0xF0 + c / 0x4_0000) as Byte, (0x80 + c / 0x1000 % 0x40) as Byte,
       (0x80 + c / 0x40 % 0x40) as Byte, (0x80 + c % 0x40) as Byte]
  }

  function Encode(s: JsString): seq<Byte> {
    if s == [] then [] else EncodeScalar(Scalar(s)) + Encode(s[Width(s)..])
  }

  /** How many bytes the first code point takes; a lone surrogate takes the three of U+FFFD. */
  function CodePointBytes(s: JsString): (n: nat)
    requires s != []
    ensures 1 <= n <= 4
  {
    if Width(s) == 2 then 4 else if s[0] < 0x80 then 1 else if s[0] < 0x800 then 2 else 3
  }

  /** `Buffer.byteLength(s, "utf8")` */
  function ByteLength(s: JsString): nat {
    if s == [] then 0 else CodePointBytes(s) + ByteLength(s[Width(s)..])
  }

  /** `(byte & 0xc0) === 0x80` */
  predicate IsContinuation(b: Byte) {
    0x80 <= b < 0xC0
  }

  /** The length announced by a lead byte, 0 for a byte that leads nothing. */
  function LeadLength(b: Byte): (n: nat)
    ensures n <= 4
  {
    if b < 0x80 then 1 else if b < 0xC0 then 0 else if b < 0xE0 then 2 else if b < 0xF0 then 3
    else if b < 0xF8 then 4 else 0
  }

  /** The bits a multi-byte sequence carries. */
  function Payload(bytes: seq<Byte>): int
    requires bytes != [] && |bytes| == LeadLength(bytes[0])
  {
    if |bytes| == 1 then bytes[0] as int
    else if |bytes| == 2 then (bytes[0] as int - 0xC0) * 0x40 + Low6(bytes[1])
    else if |bytes| == 3 then (bytes[0] as int - 0xE0) * 0x1000 + Low6(bytes[1]) * 0x40 + Low6(bytes[2])
    else (bytes[0] as int - 0xF0) * 0x4_0000 + Low6(bytes[1]) * 0x1000 + Low6(bytes[2]) * 0x40 + Low6(bytes[3])
  }

  function Low6(b: Byte): int {
    b as int - 0x80
  }

  /** The scalar value at the head of `bytes` and its length; None when the head
      is not the UTF-8 form of any scalar value (overlong forms included). */
  function DecodeHead(bytes: seq<Byte>): (r: Option<(int, nat)>)
    requires bytes != []
    ensures r.Some? ==> IsScalar(r.value.0) && 1 <= r.value.1 <= 4 && r.value.1 <= |bytes|
    ensures r.Some? ==> EncodeScalar(r.value.0) == bytes[..r.value.1]
  {
    var n := LeadLength(bytes[0]);
    if n == 0 || |bytes| < n then None
    else
      var c := Payload(bytes[..n]);
      if IsScalar(c) && EncodeScalar(c) == bytes[..n] then Some((c, n)) else None
  }

  function ToUnits(c: int): (s: JsString)
    requires IsScalar(c)
    ensures 1 <= |s| <= 2
  {
    if c < 0x1_0000 then [c as CodeUnit]
    else [(0xD800 + (c - 0x1_0000) / 0x400) as CodeUnit, (0xDC00 + (c - 0x1_0000) % 0x400) as CodeUnit]
  }

  /** `Buffer.toString("utf8")` on well-formed bytes; None for malformed ones,
      where the platform would substitute U+FFFD. */
  function Decode(bytes: seq<Byte>): Option<JsString>
    decreases |bytes|, 1
  {
    if bytes == [] then Some([]) else DecodeOn(bytes)
  }

  /** The first code point and those after it. */
  function DecodeOn(bytes: seq<Byte>): Option<JsString>
    requires bytes != []
    decreases |bytes|, 0
  {
    match DecodeHead(bytes)
    case None => None
    case Some((c, n)) =>
      match Decode(bytes[n..])
      case None => None
      case Some(rest) => Some(ToUnits(c) + rest)
  }

  predicate WellFormed(bytes: seq<Byte>) {
    Decode(bytes).Some?
  }

  /** What encoding and decoding makes of a string: each lone surrogate becomes U+FFFD. */
  function Scrub(s: JsString): JsString {
    if s == [] then []
    else
      var w := Width(s);
      (if w == 1 && (IsHigh(s[0]) || IsLow(s[0])) then [REPLACEMENT] else s[..w]) + Scrub(s[w..])
  }

  /** Every high surrogate is followed by a low one and every low one preceded by a high one. */
  predicate Paired(s: JsString) {
    && (forall i :: 0 <= i < |s| && IsHigh(s[i]) ==> i + 1 < |s| && IsLow(s[i + 1]))
    && (forall i :: 0 <= i < |s| && IsLow(s[i]) ==> i > 0 && IsHigh(s[i - 1]))
  }

  /** Position `k` does not fall inside a surrogate pair. */
  predicate CodePointBoundary(s: JsString, k: nat)
    requires k <= |s|
  {
    k == 0 || k == |s| || !(IsHigh(s[k - 1]) && IsLow(s[k]))
  }

  /** Offset `i` does not fall inside an encoded code point. */
  predicate ByteBoundary(bytes: seq<Byte>, i: nat)
    requires i <= |bytes|
  {
    i == |bytes| || !IsContinuation(bytes[i])
  }

  lemma EncodedScalarShape(c: int)
    requires IsScalar(c)
    ensures var e := EncodeScalar(c);
            && |e| == LeadLength(e[0]) && Payload(e) == c && !IsContinuation(e[0])
            && forall i :: 1 <= i < |e| ==> IsContinuation(e[i])
  {
    if 0x80 <= c < 0x800 {
      SixBits(c);
    } else if 0x800 <= c < 0x1_0000 {
      ThreeBytes(c);
    } else if 0x1_0000 <= c {
      FourBytes(c);
    }
  }

  lemma SixBits(c: nat)
    ensures c == c / 0x40 * 0x40 + c % 0x40 && 0 <= c % 0x40 < 0x40
  {
  }

  lemma ThreeBytes(c: int)
    requires 0x800 <= c < 0x1_0000 && IsScalar(c)
    ensures var e := EncodeScalar(c);
            && |e| == 3 && LeadLength(e[0]) == 3 && Payload(e) == c && !IsContinuation(e[0])
            && IsContinuation(e[1]) && IsContinuation(e[2])
  {
    SixBits(c);
    SixBits(c / 0x40);
    assert c / 0x40 / 0x40 == c / 0x1000;
  }

  lemma FourBytes(c: int)
    requires 0x1_0000 <= c < 0x11_0000
    ensures var e := EncodeScalar(c);
            && |e| == 4 && LeadLength(e[0]) == 4 && Payload(e) == c && !IsContinuation(e[0])
            && IsContinuation(e[1]) && IsContinuation(e[2]) && IsContinuation(e[3])
  {
    SixBits(c);
    SixBits(c / 0x40);
    SixBits(c / 0x1000);
    assert c / 0x40 / 0x40 == c / 0x1000;
    assert c / 0x1000 / 0x40 == c / 0x4_0000;
  }

  lemma DecodeEncodedHead(c: int, rest: seq<Byte>)
    requires IsScalar(c)
    ensures DecodeHead(EncodeScalar(c) + rest) == Some((c, |EncodeScalar(c)|))
  {
    EncodedScalarShape(c);
    var e := EncodeScalar(c);
    assert (e + rest)[..|e|] == e;
  }

  /** One encoded code point in front of anything decodes to that code point in front. */
  lemma DecodeCons(c: int, rest: seq<Byte>)
    requires IsScalar(c)
    ensures Decode(EncodeScalar(c) + rest) ==
            match Decode(rest) case None => None case Some(units) => Some(ToUnits(c) + units)
  {
    DecodeEncodedHead(c, rest);
    assert (EncodeScalar(c) + rest)[|EncodeScalar(c)|..] == rest;
  }

  lemma Uncons(bytes: seq<Byte>) returns (c: int, rest: seq<Byte>)
    requires bytes != [] && WellFormed(bytes)
    ensures IsScalar(c) && bytes == EncodeScalar(c) + rest && |rest| < |bytes|
    ensures WellFormed(rest)
  {
    assert DecodeOn(bytes).Some?;
    var head := DecodeHead(bytes).value;
    c, rest := head.0, bytes[head.1..];
  }

  /** Decoding undoes encoding, up to the replacement of lone surrogates. */
  lemma {:induction false} DecodeEncode(s: JsString)
    ensures Decode(Encode(s)) == Some(Scrub(s))
  {
    if s != [] {
      DecodeEncode(s[Width(s)..]);
      DecodeCons(Scalar(s), Encode(s[Width(s)..]));
      UnitsOfScalar(s);
    }
  }

  lemma UnitsOfScalar(s: JsString)
    requires s != []
    ensures ToUnits(Scalar(s)) ==
            if Width(s) == 1 && (IsHigh(s[0]) || IsLow(s[0])) then [REPLACEMENT] else s[..Width(s)]
  {
    if Width(s) == 2 {
      var hi, lo := s[0] as int - 0xD800, s[1] as int - 0xDC00;
      assert (hi * 0x400 + lo) / 0x400 == hi && (hi * 0x400 + lo) % 0x400 == lo;
    }
  }

  /** Text survives encoding exactly when it has no lone surrogate. */
  lemma {:induction false} ScrubIdentityIff(s: JsString)
    ensures Scrub(s) == s <==> Paired(s)
  {
    if s == [] {
    } else {
      var w := Width(s);
      var head := if w == 1 && (IsHigh(s[0]) || IsLow(s[0])) then [REPLACEMENT] else s[..w];
      ScrubLength(s[w..]);
      ScrubIdentityIff(s[w..]);
      assert s == s[..w] + s[w..];
      assert Scrub(s)[..w] == head && Scrub(s)[w..] == Scrub(s[w..]);
      assert Scrub(s) == s <==> head == s[..w] && Scrub(s[w..]) == s[w..];
      PairedStep(s);
    }
  }

  lemma {:induction false} ScrubLength(s: JsString)
    ensures |Scrub(s)| == |s|
  {
    if s != [] {
      ScrubLength(s[Width(s)..]);
    }
  }

  lemma PairedStep(s: JsString)
    requires s != []
    ensures var w := Width(s);
            Paired(s) <==> !(w == 1 && (IsHigh(s[0]) || IsLow(s[0]))) && Paired(s[w..])
  {
    var w := Width(s);
    var t := s[w..];
    if !(w == 1 && (IsHigh(s[0]) || IsLow(s[0]))) {
      if Paired(t) {
        forall i | 0 <= i < |s| && IsHigh(s[i]) ensures i + 1 < |s| && IsLow(s[i + 1]) {
          if i >= w {
            assert t[i - w] == s[i];
            assert t[i - w + 1] == s[i + 1];
          }
        }
        forall i | 0 <= i < |s| && IsLow(s[i]) ensures i > 0 && IsHigh(s[i - 1]) {
          if i >= w {
            assert t[i - w] == s[i];
            assert t[i - w - 1] == s[i - 1];
          }
        }
      }
      if Paired(s) {
        forall i | 0 <= i < |t| && IsHigh(t[i]) ensures i + 1 < |t| && IsLow(t[i + 1]) {
          assert s[i + w] == t[i];
          assert IsLow(s[i + w + 1]);
        }
        forall i | 0 <= i < |t| && IsLow(t[i]) ensures i > 0 && IsHigh(t[i - 1]) {
          assert s[i + w] == t[i];
          assert IsHigh(s[i + w - 1]);
        }
      }
    }
  }

  /** `Buffer.byteLength` counts the encoded bytes. */
  lemma {:induction false} ByteLengthIsEncoded(s: JsString)
    ensures ByteLength(s) == |Encode(s)|
  {
    if s != [] {
      ByteLengthIsEncoded(s[Width(s)..]);
    }
  }

  lemma ByteLengthPrefix(s: JsString, k: nat)
    requires s != [] && Width(s) <= k <= |s|
    ensures ByteLength(s[..k]) == CodePointBytes(s) + ByteLength(s[Width(s)..][..k - Width(s)])
  {
    assert s[..k][Width(s)..] == s[Width(s)..][..k - Width(s)];
  }

  lemma {:induction false} ByteLengthSplit(s: JsString, k: nat)
    requires k <= |s| && CodePointBoundary(s, k)
    ensures ByteLength(s) == ByteLength(s[..k]) + ByteLength(s[k..])
    decreases k
  {
    if k == 0 {
      assert s[0..] == s;
    } else if k == |s| {
      assert s[..k] == s;
    } else {
      var w := Width(s);
      BoundaryInRest(s, k);
      ByteLengthSplit(s[w..], k - w);
      ByteLengthPrefix(s, k);
      assert s[k..] == s[w..][k - w..];
    }
  }

  lemma BoundaryInRest(s: JsString, k: nat)
    requires s != [] && 0 < k <= |s| && CodePointBoundary(s, k)
    ensures k >= Width(s) && CodePointBoundary(s[Width(s)..], k - Width(s))
  {
    var w := Width(s);
    if w < k < |s| { assert s[w..][k - w - 1] == s[k - 1] && s[w..][k - w] == s[k]; }
  }

  lemma Assoc<T>(a: seq<T>, b: seq<T>, c: seq<T>)
    ensures a + (b + c) == (a + b) + c
  {
  }

  lemma {:induction false} WellFormedAppend(a: seq<Byte>, b: seq<Byte>)
    requires WellFormed(a) && WellFormed(b)
    ensures Decode(a + b) == Some(Decode(a).value + Decode(b).value)
    decreases |a|
  {
    if a == [] {
      assert a + b == b && [] + Decode(b).value == Decode(b).value;
    } else {
      var c, rest := Uncons(a);
      WellFormedAppend(rest, b);
      DecodeCons(c, rest);
      DecodeCons(c, rest + b);
      Assoc(EncodeScalar(c), rest, b);
      Assoc(ToUnits(c), Decode(rest).value, Decode(b).value);
    }
  }

  /** Encoding undoes decoding: no two byte strings decode alike. */
  lemma {:induction false} EncodeDecode(bytes: seq<Byte>)
    requires WellFormed(bytes)
    ensures Encode(Decode(bytes).value) == bytes
    decreases |bytes|
  {
    if bytes != [] {
      var c, rest := Uncons(bytes);
      DecodeCons(c, rest);
      EncodeDecode(rest);
      NoLowFirst(rest);
      UnitsScalar(c, Decode(rest).value);
    }
  }

  /** Decoded text never starts in the middle of a surrogate pair. */
  lemma NoLowFirst(bytes: seq<Byte>)
    requires WellFormed(bytes)
    ensures Decode(bytes).value != [] ==> !IsLow(Decode(bytes).value[0])
  {
    if bytes != [] {
      var c, rest := Uncons(bytes);
      DecodeCons(c, rest);
    }
  }

  lemma UnitsScalar(c: int, rest: JsString)
    requires IsScalar(c) && (rest != [] ==> !IsLow(rest[0]))
    ensures var s := ToUnits(c) + rest;
            Width(s) == |ToUnits(c)| && Scalar(s) == c && s[Width(s)..] == rest
  {
    if c >= 0x1_0000 {
      var d := c - 0x1_0000;
      assert d == d / 0x400 * 0x400 + d % 0x400;
    }
  }

  /** Inside the first code point every byte but the first is a continuation byte. */
  lemma HeadBytes(c: int, rest: seq<Byte>)
    requires IsScalar(c)
    ensures var bytes := EncodeScalar(c) + rest;
            && !IsContinuation(bytes[0])
            && forall i :: 1 <= i < |EncodeScalar(c)| ==> IsContinuation(bytes[i])
  {
    EncodedScalarShape(c);
  }

  /** Cutting well-formed bytes where no continuation byte stands gives two well-formed parts. */
  lemma {:induction false} WellFormedCut(bytes: seq<Byte>, i: nat)
    requires WellFormed(bytes) && i <= |bytes| && ByteBoundary(bytes, i)
    ensures WellFormed(bytes[..i]) && WellFormed(bytes[i..])
    decreases |bytes|
  {
    if i == 0 {
      assert bytes[0..] == bytes;
    } else if i == |bytes| {
      assert bytes[..i] == bytes;
    } else {
      var c, rest := Uncons(bytes);
      var head := EncodeScalar(c);
      HeadBytes(c, rest);
      CutBehind(head, rest, i);
      WellFormedCut(rest, i - |head|);
      DecodeCons(c, rest[..i - |head|]);
    }
  }

  lemma {:induction false} CutBehind(head: seq<Byte>, rest: seq<Byte>, i: nat)
    requires |head| <= i <= |head| + |rest|
    ensures (head + rest)[..i] == head + rest[..i - |head|]
    ensures (head + rest)[i..] == rest[i - |head|..]
    ensures ByteBoundary(head + rest, i) == ByteBoundary(rest, i - |head|)
  {
  }

  /** At most three continuation bytes stand in a row. */
  lemma {:induction false} BoundaryNear(bytes: seq<Byte>, i: nat) returns (j: nat)
    requires WellFormed(bytes) && i <= |bytes|
    ensures i <= j <= i + 3 && j <= |bytes| && ByteBoundary(bytes, j)
    decreases |bytes|
  {
    if i == |bytes| {
      return i;
    }
    var c, rest := Uncons(bytes);
    HeadBytes(c, rest);
    var n := |EncodeScalar(c)|;
    if i == 0 {
      return 0;
    }
    if i < n {
      if rest != [] {
        var c', rest' := Uncons(rest);
        HeadBytes(c', rest');
      }
      return n;
    }
    j := BoundaryNear(rest, i - n);
    j := j + n;
  }

  // ----- The examples of section 7 of RFC 3629

  lemma EncodesHead(s: JsString, bytes: seq<Byte>)
    requires s != [] && EncodeScalar(Scalar(s)) == bytes
    ensures Encode(s) == bytes + Encode(s[Width(s)..])
  {
  }

  lemma {:induction false} Rfc3629Letters()
    ensures Encode([0x41, 0x2262, 0x391, 0x2E]) == [0x41, 0xE2, 0x89, 0xA2, 0xCE, 0x91, 0x2E]
  {
    var s: JsString := [0x41, 0x2262, 0x391, 0x2E];
    assert s[1..][1..] == s[2..] && s[2..][1..] == s[3..] && s[3..][1..] == [];
    EncodesHead(s, [0x41]);
    EncodesHead(s[1..], [0xE2, 0x89, 0xA2]);
    EncodesHead(s[2..], [0xCE, 0x91]);
    EncodesHead(s[3..], [0x2E]);
    assert Encode(s[3..][1..]) == [];
  }

  lemma {:induction false} Rfc3629Pair()
    ensures Encode([0xD84C, 0xDFB4]) == [0xF0, 0xA3, 0x8E, 0xB4]
  {
    var s: JsString := [0xD84C, 0xDFB4];
    assert s[2..] == [];
    EncodesHead(s, [0xF0, 0xA3, 0x8E, 0xB4]);
  }
}
