/** The Apache Thrift compact protocol, as far as the preflight scanner understands it: the trees a
    byte string can denote, their canonical encoding, and a grammar that reads them back.  Budgets
    play no part here; see `CompactThriftBudgets`. */
module CompactThrift {
  import opened Text

  const STOP := 0
  const TRUE := 1
  const FALSE := 2
  const BYTE := 3
  const I16 := 4
  const I32 := 5
  const I64 := 6
  const DOUBLE := 7
  const BINARY := 8
  const LIST := 9
  const STRUCT := 12

  datatype Value =
    | Bool(flag: bool)
    | I8Value(byte: Byte)
    | I16Value(n: int)
    | I32Value(n: int)
    | I64Value(n: int)
    | DoubleValue(bytes: seq<Byte>)
    | BinaryValue(bytes: seq<Byte>)
      // Boolean lists carry one byte per element, so their items are `I8Value`s.
    | ListValue(elementType: int, items: seq<Value>)
    | StructValue(fields: Fields)

  datatype Fields = End | More(id: int, value: Value, others: Fields)

  /** What reading a prefix of some bytes gives: a value and the bytes after it. */
  datatype Parsed<+T> = Rejected | Parsed(value: T, rest: seq<Byte>)

  function TypeOf(v: Value): (t: int)
    ensures 0 < t < 16
  {
    match v
    case Bool(flag) => if flag then TRUE else FALSE
    case I8Value(_) => BYTE
    case I16Value(_) => I16
    case I32Value(_) => I32
    case I64Value(_) => I64
    case DoubleValue(_) => DOUBLE
    case BinaryValue(_) => BINARY
    case ListValue(_, _) => LIST
    case StructValue(_) => STRUCT
  }

  /** The type a list scans its elements as: booleans are bytes there. */
  function ItemType(elementType: int): int {
    if elementType == TRUE || elementType == FALSE then BYTE else elementType
  }

  // ---- Variable-length integers ----

  function Pow128(k: nat): (p: nat)
    ensures p >= 1
  {
    if k == 0 then 1 else 128 * Pow128(k - 1)
  }

  function EncodeVarint(n: nat): (b: seq<Byte>)
    ensures |b| > 0
  {
    if n < 128 then [n] else [128 + n % 128] + EncodeVarint(n / 128)
  }

  function ParseVarint(b: seq<Byte>, maxBytes: nat): (r: Parsed<nat>)
    ensures r.Parsed? ==> |r.rest| < |b|
    decreases maxBytes
  {
    if maxBytes == 0 || b == [] then Rejected
    else if b[0] < 128 then Parsed(b[0], b[1..])
    else
      match ParseVarint(b[1..], maxBytes - 1)
      case Rejected => Rejected
      case Parsed(high, rest) => Parsed(b[0] - 128 + 128 * high, rest)
  }

  function ZigZag(n: int): nat {
    if n >= 0 then 2 * n else -2 * n - 1
  }

  function UnZigZag(encoded: nat): int {
    if encoded % 2 == 0 then encoded / 2 else -(encoded / 2) - 1
  }

  function ParseZigZag(b: seq<Byte>, maxBytes: nat): (r: Parsed<int>)
    ensures r.Parsed? ==> |r.rest| < |b|
  {
    match ParseVarint(b, maxBytes)
    case Rejected => Rejected
    case Parsed(encoded, rest) => Parsed(UnZigZag(encoded), rest)
  }

  lemma {:induction false} VarintRoundTrip(n: nat, maxBytes: nat, rest: seq<Byte>)
    requires 0 < maxBytes && n < Pow128(maxBytes)
    ensures ParseVarint(EncodeVarint(n) + rest, maxBytes) == Parsed(n, rest)
  {
    var b := EncodeVarint(n) + rest;
    if n < 128 {
      assert b[1..] == rest;
    } else {
      assert b[1..] == EncodeVarint(n / 128) + rest;
      VarintRoundTrip(n / 128, maxBytes - 1, rest);
    }
  }

  lemma ZigZagRoundTrip(n: int, maxBytes: nat, rest: seq<Byte>)
    requires 0 < maxBytes && ZigZag(n) < Pow128(maxBytes)
    ensures ParseZigZag(EncodeVarint(ZigZag(n)) + rest, maxBytes) == Parsed(n, rest)
  {
    VarintRoundTrip(ZigZag(n), maxBytes, rest);
  }

  /** Padded encodings are accepted too, but no encoding is shorter than the canonical one. */
  lemma {:induction false} VarintIsShortest(b: seq<Byte>, maxBytes: nat)
    requires ParseVarint(b, maxBytes).Parsed?
    ensures var Parsed(n, rest) := ParseVarint(b, maxBytes);
            n < Pow128(maxBytes) && |EncodeVarint(n)| <= |b| - |rest|
  {
    if b[0] >= 128 {
      VarintIsShortest(b[1..], maxBytes - 1);
      var high := ParseVarint(b[1..], maxBytes - 1).value;
      var n := b[0] - 128 + 128 * high;
      if n >= 128 {
        assert n / 128 == high;
      }
    }
  }

  // ---- The grammar ----

  function ParseFields(b: seq<Byte>, previous: int): (r: Parsed<Fields>)
    ensures r.Parsed? ==> |r.rest| < |b|
    decreases |b|, 0
  {
    if b == [] then Rejected
    else if b[0] % 16 == STOP then Parsed(End, b[1..])
    else
      match ParseFieldId(b, previous)
      case Rejected => Rejected
      case Parsed(id, afterId) =>
        match ParseElement(afterId, b[0] % 16)
        case Rejected => Rejected
        case Parsed(value, afterValue) =>
          match ParseFields(afterValue, id)
          case Rejected => Rejected
          case Parsed(others, rest) => Parsed(More(id, value, others), rest)
  }

  /** A field header: a short delta in the high nibble, or zero and a signed identifier.
      Identifiers must increase. */
  function ParseFieldId(b: seq<Byte>, previous: int): (r: Parsed<int>)
    requires b != []
    ensures r.Parsed? ==> |r.rest| < |b|
  {
    var id := if b[0] / 16 == 0 then ParseZigZag(b[1..], 3) else Parsed(previous + b[0] / 16, b[1..]);
    if id.Rejected? || id.value <= previous then Rejected else id
  }

  function ParseElement(b: seq<Byte>, elementType: int): (r: Parsed<Value>)
    ensures r.Parsed? ==> |r.rest| <= |b|
    ensures r.Parsed? && elementType != TRUE && elementType != FALSE ==> |r.rest| < |b|
    decreases |b|, 1
  {
    if elementType == LIST then
      (match ParseListHeader(b)
       case Rejected => Rejected
       case Parsed(n, afterHeader) =>
         match ParseItems(afterHeader, ItemType(b[0] % 16), n)
         case Rejected => Rejected
         case Parsed(items, rest) => Parsed(ListValue(b[0] % 16, items), rest))
    else if elementType == STRUCT then
      (match ParseFields(b, 0)
       case Rejected => Rejected
       case Parsed(fields, rest) => Parsed(StructValue(fields), rest))
    else ParseLeaf(b, elementType)
  }

  /** Elements without nested elements. */
  function ParseLeaf(b: seq<Byte>, elementType: int): (r: Parsed<Value>)
    ensures r.Parsed? ==> |r.rest| <= |b| && !r.value.ListValue? && !r.value.StructValue?
    ensures r.Parsed? && elementType != TRUE && elementType != FALSE ==> |r.rest| < |b|
  {
    if elementType == TRUE then Parsed(Bool(true), b)
    else if elementType == FALSE then Parsed(Bool(false), b)
    else if elementType == BYTE then
      if b == [] then Rejected else Parsed(I8Value(b[0]), b[1..])
    else if elementType == I16 then
      (match ParseZigZag(b, 5) case Rejected => Rejected case Parsed(n, rest) => Parsed(I16Value(n), rest))
    else if elementType == I32 then
      (match ParseZigZag(b, 5) case Rejected => Rejected case Parsed(n, rest) => Parsed(I32Value(n), rest))
    else if elementType == I64 then
      (match ParseZigZag(b, 10) case Rejected => Rejected case Parsed(n, rest) => Parsed(I64Value(n), rest))
    else if elementType == DOUBLE then
      if |b| < 8 then Rejected else Parsed(DoubleValue(b[..8]), b[8..])
    else if elementType == BINARY then
      (match ParseVarint(b, 5)
       case Rejected => Rejected
       case Parsed(n, rest) => if n > |rest| then Rejected else Parsed(BinaryValue(rest[..n]), rest[n..]))
    else Rejected
  }

  /** The length of a list: inline up to 14, otherwise a varint after the nibble 15. */
  function ParseListHeader(b: seq<Byte>): (r: Parsed<nat>)
    ensures r.Parsed? ==> |r.rest| < |b|
  {
    if b == [] then Rejected
    else if b[0] / 16 == 15 then ParseVarint(b[1..], 5)
    else Parsed(b[0] / 16, b[1..])
  }

  function ParseItems(b: seq<Byte>, itemType: int, n: nat): (r: Parsed<seq<Value>>)
    requires itemType != TRUE && itemType != FALSE
    ensures r.Parsed? ==> |r.rest| <= |b| && |r.value| == n
    decreases |b|, 2, n
  {
    if n == 0 then Parsed([], b)
    else
      match ParseElement(b, itemType)
      case Rejected => Rejected
      case Parsed(item, afterItem) =>
        match ParseItems(afterItem, itemType, n - 1)
        case Rejected => Rejected
        case Parsed(items, rest) => Parsed([item] + items, rest)
  }

  // ---- The canonical encoding ----

  function EncodeFields(fields: Fields, previous: int): seq<Byte>
    requires FieldsEncodable(fields, previous)
  {
    match fields
    case End => [STOP]
    case More(id, value, others) =>
      EncodeFieldHeader(id, previous, TypeOf(value)) + EncodeElement(value) + EncodeFields(others, id)
  }

  function EncodeFieldHeader(id: int, previous: int, elementType: int): (b: seq<Byte>)
    requires 0 < elementType < 16 && previous < id
    ensures |b| > 0
  {
    if id - previous <= 15 then [(id - previous) * 16 + elementType]
    else [elementType] + EncodeVarint(ZigZag(id))
  }

  function EncodeElement(v: Value): seq<Byte>
    requires Encodable(v)
    decreases v, 1
  {
    match v
    case Bool(_) => []
    case I8Value(byte) => [byte]
    case I16Value(n) => EncodeVarint(ZigZag(n))
    case I32Value(n) => EncodeVarint(ZigZag(n))
    case I64Value(n) => EncodeVarint(ZigZag(n))
    case DoubleValue(bytes) => bytes
    case BinaryValue(bytes) => EncodeVarint(|bytes|) + bytes
    case ListValue(elementType, items) => EncodeListHeader(|items|, elementType) + EncodeItems(items)
    case StructValue(fields) => EncodeFields(fields, 0)
  }

  function EncodeListHeader(n: nat, elementType: int): (b: seq<Byte>)
    requires 0 <= elementType < 16
    ensures |b| > 0
  {
    if n < 15 then [n * 16 + elementType] else [15 * 16 + elementType] + EncodeVarint(n)
  }

  function EncodeItems(items: seq<Value>): seq<Byte>
    requires forall item | item in items :: Encodable(item)
    decreases items, 0
  {
    if items == [] then [] else EncodeElement(items[0]) + EncodeItems(items[1..])
  }

  /** Exactly the trees that some bytes denote: every integer fits its varint, identifiers
      increase and are reachable, and list items have the list's element type. */
  predicate Encodable(v: Value)
    decreases v, 1
  {
    match v
    case Bool(_) => true
    case I8Value(_) => true
    case I16Value(n) => ZigZag(n) < Pow128(5)
    case I32Value(n) => ZigZag(n) < Pow128(5)
    case I64Value(n) => ZigZag(n) < Pow128(10)
    case DoubleValue(bytes) => |bytes| == 8
    case BinaryValue(bytes) => |bytes| < Pow128(5)
    case ListValue(elementType, items) =>
      && 0 <= elementType < 16
      && |items| < Pow128(5)
      && forall item | item in items :: TypeOf(item) == ItemType(elementType) && Encodable(item)
    case StructValue(fields) => FieldsEncodable(fields, 0)
  }

  predicate FieldsEncodable(fields: Fields, previous: int) {
    match fields
    case End => true
    case More(id, value, others) =>
      && previous < id
      && (id - previous <= 15 || ZigZag(id) < Pow128(3))
      && Encodable(value)
      && FieldsEncodable(others, id)
  }

  // ---- The grammar reads back exactly what the encoding writes ----

  lemma NibblesOf(high: int, low: int)
    requires 0 <= low < 16
    ensures (high * 16 + low) / 16 == high && (high * 16 + low) % 16 == low
  {
  }

  lemma {:induction false} FieldHeaderRoundTrip(id: int, previous: int, elementType: int, rest: seq<Byte>)
    requires 0 <= previous < id && 0 < elementType < 16
    requires id - previous <= 15 || ZigZag(id) < Pow128(3)
    ensures var b := EncodeFieldHeader(id, previous, elementType) + rest;
            b[0] % 16 == elementType && ParseFieldId(b, previous) == Parsed(id, rest)
  {
    hide Pow128, ParseZigZag, EncodeVarint, ZigZag;
    var b := EncodeFieldHeader(id, previous, elementType) + rest;
    NibblesOf(if id - previous <= 15 then id - previous else 0, elementType);
    if id - previous <= 15 {
      assert b[1..] == rest;
    } else {
      assert b[1..] == EncodeVarint(ZigZag(id)) + rest;
      ZigZagRoundTrip(id, 3, rest);
    }
  }

  lemma {:induction false} ListHeaderRoundTrip(n: nat, elementType: int, rest: seq<Byte>)
    requires 0 <= elementType < 16 && n < Pow128(5)
    ensures var b := EncodeListHeader(n, elementType) + rest;
            b[0] % 16 == elementType && ParseListHeader(b) == Parsed(n, rest)
  {
    hide Pow128, ParseVarint, EncodeVarint;
    var b := EncodeListHeader(n, elementType) + rest;
    var first: int := b[0];
    NibblesOf(if n < 15 then n else 15, elementType);
    assert first == (if n < 15 then n else 15) * 16 + elementType;
    if n < 15 {
      assert b[1..] == rest;
    } else {
      assert b[1..] == EncodeVarint(n) + rest;
      VarintRoundTrip(n, 5, rest);
    }
  }

  /** Round trip: the grammar recovers every encodable value from its encoding, stops exactly at
      its end and ignores whatever follows. */
  lemma {:induction false} ElementRoundTrip(v: Value, rest: seq<Byte>)
    requires Encodable(v)
    ensures ParseElement(EncodeElement(v) + rest, TypeOf(v)) == Parsed(v, rest)
    decreases v, 1
  {
    hide Pow128, ParseItems, EncodeItems, ParseLeaf;
    match v {
      case BinaryValue(bytes) => BinaryRoundTrip(bytes, rest);
      case ListValue(elementType, items) =>
        ItemsRoundTrip(items, ItemType(elementType), rest);
        ListRoundTrip(elementType, items, rest);
      case StructValue(fields) =>
        assert FieldsEncodable(fields, 0);
        FieldsRoundTrip(fields, 0, rest);
      case _ => FixedRoundTrip(v, rest);
    }
  }

  lemma FixedRoundTrip(v: Value, rest: seq<Byte>)
    requires Encodable(v) && !v.BinaryValue? && !v.ListValue? && !v.StructValue?
    ensures ParseElement(EncodeElement(v) + rest, TypeOf(v)) == Parsed(v, rest)
  {
    hide Pow128, EncodeVarint, ParseZigZag, ZigZag;
    match v {
      case Bool(_) => assert EncodeElement(v) + rest == rest;
      case I8Value(byte) => assert ([byte] + rest)[1..] == rest;
      case I16Value(n) => ZigZagRoundTrip(n, 5, rest);
      case I32Value(n) => ZigZagRoundTrip(n, 5, rest);
      case I64Value(n) => ZigZagRoundTrip(n, 10, rest);
      case DoubleValue(bytes) => assert (bytes + rest)[..8] == bytes && (bytes + rest)[8..] == rest;
    }
  }

  lemma BinaryRoundTrip(bytes: seq<Byte>, rest: seq<Byte>)
    requires |bytes| < Pow128(5)
    ensures ParseElement(EncodeElement(BinaryValue(bytes)) + rest, BINARY) == Parsed(BinaryValue(bytes), rest)
  {
    assert EncodeElement(BinaryValue(bytes)) + rest == EncodeVarint(|bytes|) + (bytes + rest);
    VarintRoundTrip(|bytes|, 5, bytes + rest);
    assert (bytes + rest)[..|bytes|] == bytes && (bytes + rest)[|bytes|..] == rest;
  }

  lemma ListRoundTrip(elementType: int, items: seq<Value>, rest: seq<Byte>)
    requires Encodable(ListValue(elementType, items))
    requires ParseItems(EncodeItems(items) + rest, ItemType(elementType), |items|) == Parsed(items, rest)
    ensures ParseElement(EncodeElement(ListValue(elementType, items)) + rest, LIST)
         == Parsed(ListValue(elementType, items), rest)
  {
    hide Pow128, EncodeListHeader, ParseListHeader, ParseItems, ParseElement, EncodeItems, ItemType;
    var afterHeader := EncodeItems(items) + rest;
    var b := EncodeElement(ListValue(elementType, items)) + rest;
    assert b == EncodeListHeader(|items|, elementType) + afterHeader;
    ListHeaderRoundTrip(|items|, elementType, afterHeader);
    ParseListParts(b, afterHeader, items, rest);
  }

  lemma ParseListParts(b: seq<Byte>, afterHeader: seq<Byte>, items: seq<Value>, rest: seq<Byte>)
    requires ParseListHeader(b) == Parsed(|items|, afterHeader)
    requires ParseItems(afterHeader, ItemType(b[0] % 16), |items|) == Parsed(items, rest)
    ensures ParseElement(b, LIST) == Parsed(ListValue(b[0] % 16, items), rest)
  {
    hide ParseItems;
  }

  lemma {:induction false} FieldsRoundTrip(fields: Fields, previous: int, rest: seq<Byte>)
    requires 0 <= previous && FieldsEncodable(fields, previous)
    ensures ParseFields(EncodeFields(fields, previous) + rest, previous) == Parsed(fields, rest)
    decreases fields, 0
  {
    hide ParseElement, EncodeElement, Encodable, EncodeFieldHeader, ParseFieldId, Pow128;
    match fields {
      case End => assert ([STOP] + rest)[1..] == rest;
      case More(id, value, others) =>
        var b := EncodeFields(fields, previous) + rest;
        var afterValue := EncodeFields(others, id) + rest;
        var afterId := EncodeElement(value) + afterValue;
        assert b == EncodeFieldHeader(id, previous, TypeOf(value)) + afterId;
        FieldHeaderRoundTrip(id, previous, TypeOf(value), afterId);
        ElementRoundTrip(value, afterValue);
        FieldsRoundTrip(others, id, rest);
    }
  }

  lemma {:induction false} ItemsRoundTrip(items: seq<Value>, itemType: int, rest: seq<Byte>)
    requires itemType != TRUE && itemType != FALSE
    requires forall item | item in items :: TypeOf(item) == itemType && Encodable(item)
    ensures ParseItems(EncodeItems(items) + rest, itemType, |items|) == Parsed(items, rest)
    decreases items, 0
  {
    hide ParseElement, EncodeElement, Encodable, TypeOf, ParseItems;
    if items == [] {
      assert EncodeItems(items) + rest == rest;
      ParseNoItems(rest, itemType);
    } else {
      var afterItem := EncodeItems(items[1..]) + rest;
      assert EncodeItems(items) + rest == EncodeElement(items[0]) + afterItem;
      ElementRoundTrip(items[0], afterItem);
      ItemsRoundTrip(items[1..], itemType, rest);
      ParseOneMore(EncodeItems(items) + rest, itemType, items, afterItem, rest);
    }
  }

  lemma ParseNoItems(b: seq<Byte>, itemType: int)
    requires itemType != TRUE && itemType != FALSE
    ensures ParseItems(b, itemType, 0) == Parsed([], b)
  {
  }

  lemma ParseOneMore(b: seq<Byte>, itemType: int, items: seq<Value>, afterItem: seq<Byte>, rest: seq<Byte>)
    requires itemType != TRUE && itemType != FALSE && items != []
    requires ParseElement(b, itemType) == Parsed(items[0], afterItem)
    requires ParseItems(afterItem, itemType, |items| - 1) == Parsed(items[1..], rest)
    ensures ParseItems(b, itemType, |items|) == Parsed(items, rest)
  {
    hide ParseElement;
    assert [items[0]] + items[1..] == items;
  }

  /** Converse: whatever the grammar accepts denotes an encodable value of the requested type, and
      the bytes it consumed are no fewer than that value's canonical encoding. */
  lemma {:induction false} ElementIsEncodable(b: seq<Byte>, elementType: int)
    requires ParseElement(b, elementType).Parsed?
    ensures var Parsed(v, rest) := ParseElement(b, elementType);
            Encodable(v) && TypeOf(v) == elementType && |EncodeElement(v)| <= |b| - |rest|
    decreases |b|, 1
  {
    hide Pow128, EncodeVarint, ParseLeaf, ParseListHeader, EncodeListHeader;
    if elementType == LIST {
      ListHeaderIsShortest(b);
      var Parsed(n, afterHeader) := ParseListHeader(b);
      ItemsAreEncodable(afterHeader, ItemType(b[0] % 16), n);
    } else if elementType == STRUCT {
      FieldsAreEncodable(b, 0);
    } else {
      LeafIsEncodable(b, elementType);
    }
  }

  lemma LeafIsEncodable(b: seq<Byte>, elementType: int)
    requires ParseLeaf(b, elementType).Parsed?
    ensures var Parsed(v, rest) := ParseLeaf(b, elementType);
            Encodable(v) && TypeOf(v) == elementType && |EncodeElement(v)| <= |b| - |rest|
  {
    hide Pow128, EncodeVarint, ZigZag, ParseVarint, ParseZigZag;
    if elementType == I16 || elementType == I32 {
      ZigZagIsShortest(b, 5);
    } else if elementType == I64 {
      ZigZagIsShortest(b, 10);
    } else if elementType == BINARY {
      VarintIsShortest(b, 5);
    }
  }

  lemma {:induction false} FieldsAreEncodable(b: seq<Byte>, previous: int)
    requires ParseFields(b, previous).Parsed?
    ensures var Parsed(fields, rest) := ParseFields(b, previous);
            FieldsEncodable(fields, previous) && |EncodeFields(fields, previous)| <= |b| - |rest|
    decreases |b|, 0
  {
    if b[0] % 16 != STOP {
      var Parsed(id, afterId) := ParseFieldId(b, previous);
      if b[0] / 16 == 0 {
        ZigZagIsShortest(b[1..], 3);
      }
      ElementIsEncodable(afterId, b[0] % 16);
      FieldsAreEncodable(ParseElement(afterId, b[0] % 16).rest, id);
    }
  }

  lemma {:induction false} ItemsAreEncodable(b: seq<Byte>, itemType: int, n: nat)
    requires itemType != TRUE && itemType != FALSE && ParseItems(b, itemType, n).Parsed?
    ensures var Parsed(items, rest) := ParseItems(b, itemType, n);
            && (forall item | item in items :: TypeOf(item) == itemType && Encodable(item))
            && |EncodeItems(items)| <= |b| - |rest|
    decreases |b|, 2, n
  {
    if n > 0 {
      ElementIsEncodable(b, itemType);
      ItemsAreEncodable(ParseElement(b, itemType).rest, itemType, n - 1);
    }
  }

  lemma ZigZagIsShortest(b: seq<Byte>, maxBytes: nat)
    requires ParseZigZag(b, maxBytes).Parsed?
    ensures var Parsed(n, rest) := ParseZigZag(b, maxBytes);
            ZigZag(n) < Pow128(maxBytes) && |EncodeVarint(ZigZag(n))| <= |b| - |rest|
  {
    VarintIsShortest(b, maxBytes);
    var encoded := ParseVarint(b, maxBytes).value;
    assert ZigZag(UnZigZag(encoded)) == encoded;
  }

  lemma ListHeaderIsShortest(b: seq<Byte>)
    requires ParseListHeader(b).Parsed?
    ensures var Parsed(n, rest) := ParseListHeader(b);
            n < Pow128(5) && |EncodeListHeader(n, b[0] % 16)| <= |b| - |rest|
  {
    if b[0] / 16 == 15 {
      VarintIsShortest(b[1..], 5);
    } else {
      assert Pow128(5) == 128 * 128 * 128 * 128 * 128;
    }
  }
}
