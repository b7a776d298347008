/** JavaScript values as the canonical encoder sees them, and the RFC 8785 text it prints. */
module Json {
  import opened Text
  import Ordering

  type CodeUnit = u: int | 0 <= u < 0x10000
  type JsString = seq<CodeUnit>

  /** The code units of a printable ASCII literal. */
  function Ascii(s: string): (units: JsString)
    ensures |units| == |s| && forall u | u in units :: 0x20 <= u < 0x80
    ensures forall i | 0 <= i < |s| && 0x20 <= s[i] as int < 0x80 :: units[i] == s[i] as int
  {
    seq(|s|, i requires 0 <= i < |s| => if 0x20 <= s[i] as int < 0x80 then s[i] as int else 0x3F)
  }

  const QUOTE: CodeUnit := 0x22
  const BACKSLASH: CodeUnit := 0x5C
  const COMMA: CodeUnit := 0x2C
  const COLON: CodeUnit := 0x3A
  const OPEN_BRACKET: CodeUnit := 0x5B
  const CLOSE_BRACKET: CodeUnit := 0x5D
  const OPEN_BRACE: CodeUnit := 0x7B
  const CLOSE_BRACE: CodeUnit := 0x7D

  // ---- Values ----

  predicate IsNumberUnit(u: int) {
    0x30 <= u <= 0x39 || u == 0x2B || u == 0x2D || u == 0x2E || u == 0x65
  }

  predicate IsNumberToken(s: JsString) {
    && s != []
    && (s[0] == 0x2D || 0x30 <= s[0] <= 0x39)
    && (forall u | u in s :: IsNumberUnit(u))
    && s != [0x30]
  }

  /** ECMAScript prints distinct finite non-zero numbers as distinct tokens, so a number is
      represented by the token it prints as. */
  type NumberToken = s: JsString | IsNumberToken(s) witness [0x31]

  datatype JsNumber = NaN | Infinite(negative: bool) | Zero(negative: bool) | Finite(token: NumberToken)

  datatype Json =
    | Null
    | Bool(flag: bool)
    | Num(n: JsNumber)
    | Str(s: JsString)
    | Arr(items: seq<Json>)
      // Own keys in property order with their values, one for one.
    | Obj(keys: seq<JsString>, values: seq<Json>)
      // undefined, bigints, functions and symbols
    | Unsupported
      // sparse or decorated arrays; class instances; accessor, hidden or symbol-keyed properties
    | Exotic

  predicate IsHigh(u: int) { 0xD800 <= u <= 0xDBFF }

  predicate IsLow(u: int) { 0xDC00 <= u <= 0xDFFF }

  /** Well-formed UTF-16: every surrogate is half of a pair. */
  predicate IsScalarSequence(s: JsString) {
    if s == [] then true
    else if IsHigh(s[0]) then |s| >= 2 && IsLow(s[1]) && IsScalarSequence(s[2..])
    else !IsLow(s[0]) && IsScalarSequence(s[1..])
  }

  /** `assertUnicodeScalarSequence`; a rejected string makes it throw. */
  method AssertUnicodeScalarSequence(value: JsString) returns (ok: bool)
    ensures ok <==> IsScalarSequence(value)
  {
    var index := 0;
    while index < |value|
      invariant 0 <= index <= |value|
      invariant IsScalarSequence(value) <==> IsScalarSequence(value[index..])
    {
      var codeUnit := value[index];
      assert value[index..][0] == codeUnit;
      if IsHigh(codeUnit) {
        if index + 1 >= |value| || !IsLow(value[index + 1]) {
          return false;
        }
        assert value[index..][2..] == value[index + 2..];
        index := index + 2;
        continue;
      }
      if IsLow(codeUnit) {
        return false;
      }
      assert value[index..][1..] == value[index + 1..];
      index := index + 1;
    }
    return true;
  }

  ghost predicate Distinct<T>(s: seq<T>) {
    forall i, j | 0 <= i < j < |s| :: s[i] != s[j]
  }

  /** What canonical JSON accepts: finite numbers, well-formed strings and keys, plain containers.
      An object's keys are distinct by nature. */
  ghost predicate WellFormed(v: Json) {
    match v
    case Num(n) => n.Zero? || n.Finite?
    case Str(s) => IsScalarSequence(s)
    case Arr(items) => forall item | item in items :: WellFormed(item)
    case Obj(keys, values) =>
      && |keys| == |values| && Distinct(keys)
      && (forall key | key in keys :: IsScalarSequence(key))
      && (forall value | value in values :: WellFormed(value))
    case Unsupported => false
    case Exotic => false
    case _ => true
  }

  /** Values that JSON can store. */
  type StoredJson = v: Json | WellFormed(v) witness Null

  // ---- Printing ----

  function HexDigit(d: int): (u: CodeUnit)
    requires 0 <= d < 16
  {
    if d < 10 then 0x30 + d else 0x61 + d - 10
  }

  function EscapeUnit(u: CodeUnit): (r: JsString)
    ensures r != []
  {
    if u == QUOTE || u == BACKSLASH then [BACKSLASH, u]
    else if u == 8 then [BACKSLASH, 0x62]
    else if u == 9 then [BACKSLASH, 0x74]
    else if u == 10 then [BACKSLASH, 0x6E]
    else if u == 12 then [BACKSLASH, 0x66]
    else if u == 13 then [BACKSLASH, 0x72]
    else if u < 0x20 then [BACKSLASH, 0x75, 0x30, 0x30, HexDigit(u / 16), HexDigit(u % 16)]
    else [u]
  }

  function Escape(s: JsString): JsString {
    if s == [] then [] else EscapeUnit(s[0]) + Escape(s[1..])
  }

  /** `JSON.stringify` of a well-formed string. */
  function Quote(s: JsString): JsString {
    [QUOTE] + Escape(s) + [QUOTE]
  }

  function Join(parts: seq<JsString>): JsString {
    if parts == [] then [] else if |parts| == 1 then parts[0] else parts[0] + [COMMA] + Join(parts[1..])
  }

  function IndexOf<T(==)>(s: seq<T>, x: T): (i: nat)
    requires x in s
    ensures i < |s| && s[i] == x
  {
    if s[0] == x then 0 else 1 + IndexOf(s[1..], x)
  }

  /** The order of `compareJcsUtf16`. */
  function ByUtf16(): (JsString, JsString) -> bool {
    (a: JsString, b: JsString) => Ordering.AtMost(a, b)
  }

  function SortKeys(keys: seq<JsString>): (sorted: seq<JsString>)
    ensures |sorted| == |keys| && multiset(sorted) == multiset(keys)
    ensures forall key :: key in sorted <==> key in keys
  {
    var sorted := Ordering.Sort(keys, ByUtf16());
    assert multiset(sorted) == multiset(keys) && |sorted| == |keys| by {
      Ordering.SortKeepsElements(keys, ByUtf16());
    }
    assert forall key :: key in sorted <==> key in multiset(sorted);
    assert forall key :: key in keys <==> key in multiset(keys);
    sorted
  }

  function Print(v: Json): JsString
    requires WellFormed(v)
    decreases v, 0
  {
    match v
    case Null => Ascii("null")
    case Bool(flag) => if flag then Ascii("true") else Ascii("false")
    case Num(n) => if n.Zero? then [0x30] else n.token
    case Str(s) => Quote(s)
    case Arr(items) => [OPEN_BRACKET] + Join(PrintItems(items)) + [CLOSE_BRACKET]
    case Obj(keys, values) => [OPEN_BRACE] + Join(PrintMembers(SortKeys(keys), keys, values)) + [CLOSE_BRACE]
  }

  function PrintItems(items: seq<Json>): (parts: seq<JsString>)
    requires forall item | item in items :: WellFormed(item)
    ensures |parts| == |items|
    decreases items, 0
  {
    if items == [] then [] else [Print(items[0])] + PrintItems(items[1..])
  }

  function PrintMembers(order: seq<JsString>, keys: seq<JsString>, values: seq<Json>): (parts: seq<JsString>)
    requires |keys| == |values| && forall key | key in order :: key in keys
    requires forall value | value in values :: WellFormed(value)
    ensures |parts| == |order|
    decreases values, |order|
  {
    if order == [] then []
    else
      [Quote(order[0]) + [COLON] + Print(values[IndexOf(keys, order[0])])] + PrintMembers(order[1..], keys, values)
  }

  /** `canonicalJsonV2`: the RFC 8785 text, or a TypeError. */
  ghost function CanonicalJsonV2(v: Json): Option<JsString> {
    if WellFormed(v) then Some(Print(v)) else None
  }

  // ---- Sameness ----

  /** The value up to key order and the sign of zero. */
  function Normal(v: Json): Json
    requires WellFormed(v)
    decreases v, 0
  {
    match v
    case Num(n) => if n.Zero? then Num(Zero(false)) else v
    case Arr(items) => Arr(NormalItems(items))
    case Obj(keys, values) => Obj(SortKeys(keys), NormalMembers(SortKeys(keys), keys, values))
    case _ => v
  }

  function NormalItems(items: seq<Json>): (r: seq<Json>)
    requires forall item | item in items :: WellFormed(item)
    ensures |r| == |items|
    decreases items, 0
  {
    if items == [] then [] else [Normal(items[0])] + NormalItems(items[1..])
  }

  function NormalMembers(order: seq<JsString>, keys: seq<JsString>, values: seq<Json>): (r: seq<Json>)
    requires |keys| == |values| && forall key | key in order :: key in keys
    requires forall value | value in values :: WellFormed(value)
    ensures |r| == |order|
    decreases values, |order|
  {
    if order == [] then []
    else [Normal(values[IndexOf(keys, order[0])])] + NormalMembers(order[1..], keys, values)
  }

  /** `sameJsonValue`, the catalog's comparison of stored and expected JSON. */
  predicate SameJson(stored: Json, expected: Json)
    decreases stored
  {
    match stored
    case Num(n) => expected.Num? && ((n.Zero? && expected.n.Zero?) || (!n.NaN? && n == expected.n))
    case Arr(items) =>
      && expected.Arr? && |items| == |expected.items|
      && forall i | 0 <= i < |items| :: SameJson(items[i], expected.items[i])
    case Obj(keys, values) =>
      && expected.Obj? && |keys| == |expected.keys|
      && |keys| == |values| && |expected.keys| == |expected.values|
      && forall i | 0 <= i < |keys| ::
           keys[i] in expected.keys && SameJson(values[i], expected.values[IndexOf(expected.keys, keys[i])])
    case _ => stored == expected
  }
}
