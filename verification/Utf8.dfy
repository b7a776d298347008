/** UTF-8, as `TextEncoder` writes it and a decoder reads it back. */
module Utf8 {
  import opened Text
  import opened Json

  predicate IsScalar(cp: int) {
    0 <= cp < 0x110000 && !IsHigh(cp) && !IsLow(cp)
  }

  /** The code point of a surrogate pair. */
  function PairOf(high: int, low: int): int {
    0x10000 + (high - 0xD800) * 0x400 + (low - 0xDC00)
  }

  /** The code point at the start of a non-empty string; a lone surrogate becomes U+FFFD. */
  function FirstScalar(s: JsString): (cp: int)
    requires s != []
    ensures IsScalar(cp)
  {
    if IsHigh(s[0]) && |s| >= 2 && IsLow(s[1]) then PairOf(s[0], s[1])
    else if IsHigh(s[0]) || IsLow(s[0]) then 0xFFFD
    else s[0]
  }

  function AfterFirst(s: JsString): (rest: JsString)
    requires s != []
    ensures |rest| < |s|
  {
    if IsHigh(s[0]) && |s| >= 2 && IsLow(s[1]) then s[2..] else s[1..]
  }

  function EncodeScalar(cp: int): (b: seq<Byte>)
    requires IsScalar(cp)
    ensures b != []
  {
    if cp < 0x80 then [cp]
    else if cp < 0x800 then [0xC0 + cp / 0x40, 0x80 + cp % 0x40]
    else if cp < 0x10000 then [0xE0 + cp / 0x1000, 0x80 + cp / 0x40 % 0x40, 0x80 + cp % 0x40]
    else [0xF0 + cp / 0x40000, 0x80 + cp / 0x1000 % 0x40, 0x80 + cp / 0x40 % 0x40, 0x80 + cp % 0x40]
  }

  function Encode(s: JsString): seq<Byte>
    decreases |s|
  {
    if s == [] then [] else EncodeScalar(FirstScalar(s)) + Encode(AfterFirst(s))
  }

  // ---- Decoding ----

  /** The code units of one code point. */
  function UnitsOf(cp: int): JsString
    requires 0 <= cp < 0x110000
  {
    if cp < 0x10000 then [cp] else [0xD800 + (cp - 0x10000) / 0x400, 0xDC00 + (cp - 0x10000) % 0x400]
  }

  /** The number of bytes a first byte announces. */
  function Width(b: Byte): nat {
    if b < 0x80 then 1 else if b < 0xE0 then 2 else if b < 0xF0 then 3 else 4
  }

  function DecodeScalar(b: seq<Byte>): int
    requires b != [] && |b| >= Width(b[0])
  {
    match Width(b[0])
    case 1 => b[0]
    case 2 => Combine(0, 0, b[0] as int - 0xC0, b[1] as int - 0x80)
    case 3 => Combine(0, b[0] as int - 0xE0, b[1] as int - 0x80, b[2] as int - 0x80)
    case _ => Combine(b[0] as int - 0xF0, b[1] as int - 0x80, b[2] as int - 0x80, b[3] as int - 0x80)
  }

  /** Six bits a byte. */
  function Combine(d3: int, d2: int, d1: int, d0: int): int {
    ((d3 * 0x40 + d2) * 0x40 + d1) * 0x40 + d0
  }

  function Decode(b: seq<Byte>): Option<JsString>
    decreases |b|
  {
    if b == [] then Some([])
    else if |b| < Width(b[0]) || !(0 <= DecodeScalar(b) < 0x110000) then None
    else
      match Decode(b[Width(b[0])..])
      case None => None
      case Some(rest) => Some(UnitsOf(DecodeScalar(b)) + rest)
  }

  lemma ScalarRoundTrip(cp: int, rest: seq<Byte>)
    requires IsScalar(cp)
    ensures var b := EncodeScalar(cp) + rest;
            && Width(b[0]) == |EncodeScalar(cp)| && DecodeScalar(b) == cp
            && b[Width(b[0])..] == rest
  {
    var b := EncodeScalar(cp) + rest;
    assert cp / 0x1000 == cp / 0x40 / 0x40 && cp / 0x40000 == cp / 0x1000 / 0x40;
    assert cp < 0x800 ==> cp / 0x40 < 0x20;
    assert cp < 0x10000 ==> cp / 0x1000 < 0x10;
    assert Width(b[0]) == |EncodeScalar(cp)|;
    assert b[|EncodeScalar(cp)|..] == rest;
  }

  /** Well-formed text survives encoding and decoding. */
  lemma {:induction false} RoundTrip(s: JsString)
    requires IsScalarSequence(s)
    ensures Decode(Encode(s)) == Some(s)
    decreases |s|
  {
    if s != [] {
      var cp := FirstScalar(s);
      ScalarRoundTrip(cp, Encode(AfterFirst(s)));
      RoundTrip(AfterFirst(s));
      assert UnitsOf(cp) + AfterFirst(s) == s;
    }
  }

  lemma EncodeIsInjective(a: JsString, b: JsString)
    requires IsScalarSequence(a) && IsScalarSequence(b) && Encode(a) == Encode(b)
    ensures a == b
  {
    RoundTrip(a);
    RoundTrip(b);
  }

  /** Encoding piecewise is encoding the whole, as long as no piece splits a surrogate pair. */
  lemma {:induction false} EncodeAppend(a: JsString, b: JsString)
    requires IsScalarSequence(a)
    ensures Encode(a + b) == Encode(a) + Encode(b)
    ensures IsScalarSequence(b) ==> IsScalarSequence(a + b)
    decreases |a|
  {
    if a == [] {
      assert a + b == b;
    } else {
      assert FirstScalar(a + b) == FirstScalar(a);
      assert AfterFirst(a + b) == AfterFirst(a) + b;
      EncodeAppend(AfterFirst(a), b);
      if IsHigh(a[0]) {
        assert (a + b)[2..] == a[2..] + b;
      } else {
        assert (a + b)[1..] == a[1..] + b;
      }
    }
  }
}
