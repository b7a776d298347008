/** The compact protocol byte by byte: what the grammar makes of each kind of byte, in numbers. */
module CompactThriftWire {
  import opened Text
  import opened CompactThrift
  import opened CompactThriftPaths

  // ---- Variable-length integers ----

  /** Seven bits a byte, the least significant group first. */
  function Groups(b: seq<Byte>, k: nat): int
    requires k <= |b|
  {
    if k == 0 then 0 else Groups(b, k - 1) + b[k - 1] % 128 * Pow128(k - 1)
  }

  /** The varint takes k bytes: all but the last have the top bit set. */
  predicate EndsAt(b: seq<Byte>, k: nat) {
    0 < k <= |b| && b[k - 1] < 128 && forall i | 0 <= i < k - 1 :: b[i] >= 128
  }

  lemma {:induction false} GroupsFromFirst(b: seq<Byte>, k: nat)
    requires 0 < k <= |b|
    ensures Groups(b, k) == b[0] % 128 + 128 * Groups(b[1..], k - 1)
  {
    if k > 1 {
      GroupsFromFirst(b, k - 1);
      assert b[1..][k - 2] == b[k - 1];
      Regroup(Groups(b[1..], k - 2), b[k - 1] % 128, Pow128(k - 2));
    }
  }

  lemma Regroup(low: int, digit: int, scale: int)
    ensures 128 * (low + digit * scale) == 128 * low + digit * (128 * scale)
  {
  }

  /** An accepted varint ends at its first byte without the top bit, within the limit, and denotes its groups. */
  lemma {:induction false} VarintDenotes(b: seq<Byte>, maxBytes: nat, k: nat)
    requires EndsAt(b, k)
    ensures ParseVarint(b, maxBytes) == if k <= maxBytes then Parsed(Groups(b, k), b[k..]) else Rejected
    decreases k
  {
    GroupsFromFirst(b, k);
    if maxBytes > 0 {
      if k == 1 {
        assert Groups(b[1..], 0) == 0;
      } else {
        var tail := b[1..];
        assert tail[k - 2] == b[k - 1] && forall i | 0 <= i < k - 2 :: tail[i] == b[i + 1];
        VarintDenotes(tail, maxBytes - 1, k - 1);
        assert tail[k - 1..] == b[k..];
      }
    }
  }

  /** Bytes that never end are rejected. */
  lemma {:induction false} EndlessVarint(b: seq<Byte>, maxBytes: nat)
    requires forall i | 0 <= i < |b| :: b[i] >= 128
    ensures ParseVarint(b, maxBytes) == Rejected
    decreases maxBytes
  {
    if maxBytes > 0 && b != [] {
      EndlessVarint(b[1..], maxBytes - 1);
    }
  }

  /** Even numbers count up from zero and odd ones down from minus one. */
  lemma ZigZagAlternates(n: nat)
    ensures UnZigZag(2 * n) == n && UnZigZag(2 * n + 1) == -1 - n
    ensures ZigZag(n) == 2 * n && ZigZag(-1 - n) == 2 * n + 1
  {
  }

  // ---- Headers ----

  /** The type is in the low nibble.  A delta of 1 to 15 is in the high one; zero announces a signed id of at
      most three bytes, which must be larger than the previous id. */
  lemma FieldHeaderIs(delta: int, elementType: int, rest: seq<Byte>, previous: int)
    requires 0 <= delta < 16 && 0 <= elementType < 16
    ensures var b := [delta * 16 + elementType] + rest;
            && (elementType == 0 ==> ParseFields(b, previous) == Parsed(End, rest))
            && (delta > 0 ==> ParseFieldId(b, previous) == Parsed(previous + delta, rest))
            && (delta == 0 ==>
                  ParseFieldId(b, previous) ==
                  match ParseZigZag(rest, 3)
                  case Rejected => Rejected
                  case Parsed(id, after) => if id > previous then Parsed(id, after) else Rejected)
  {
    hide ParseZigZag, ParseElement;
    NibblesOf(delta, elementType);
    assert ([delta * 16 + elementType] + rest)[1..] == rest;
  }

  /** The item type is in the low nibble, a length up to 14 in the high one; 15 announces a varint. */
  lemma ListHeaderIs(n: int, elementType: int, rest: seq<Byte>)
    requires 0 <= n < 16 && 0 <= elementType < 16
    ensures var b := [n * 16 + elementType] + rest;
            ParseListHeader(b) == if n < 15 then Parsed(n, rest) else ParseVarint(rest, 5)
  {
    NibblesOf(n, elementType);
    assert ([n * 16 + elementType] + rest)[1..] == rest;
  }

  // ---- Elements, by type number ----

  /** A boolean's value is its type; a byte is unsigned; 16- and 32-bit numbers take up to five bytes and 64-bit
      numbers up to ten; a double is eight bytes; a binary has a length of up to five bytes; nothing else without
      nesting is accepted. */
  lemma LeafIs(b: seq<Byte>, elementType: int)
    requires elementType != 9 && elementType != 12
    ensures var r := ParseElement(b, elementType);
            && (elementType == 1 ==> r == Parsed(Bool(true), b))
            && (elementType == 2 ==> r == Parsed(Bool(false), b))
            && (elementType == 3 && b != [] ==> r == Parsed(I8Value(b[0]), b[1..]))
            && (elementType == 4 ==>
                  r == match ParseZigZag(b, 5) case Rejected => Rejected case Parsed(n, rest) => Parsed(I16Value(n), rest))
            && (elementType == 5 ==>
                  r == match ParseZigZag(b, 5) case Rejected => Rejected case Parsed(n, rest) => Parsed(I32Value(n), rest))
            && (elementType == 6 ==>
                  r == match ParseZigZag(b, 10) case Rejected => Rejected case Parsed(n, rest) => Parsed(I64Value(n), rest))
            && (elementType == 7 && |b| >= 8 ==> r == Parsed(DoubleValue(b[..8]), b[8..]))
            && (elementType == 8 ==>
                  r == match ParseVarint(b, 5)
                       case Rejected => Rejected
                       case Parsed(n, rest) => if n <= |rest| then Parsed(BinaryValue(rest[..n]), rest[n..]) else Rejected)
            && ((elementType == 3 && b == []) || (elementType == 7 && |b| < 8) || !(1 <= elementType <= 8) ==> r == Rejected)
  {
    hide ParseZigZag, ParseVarint;
  }

  // ---- A footer ----

  const INNER := More(2, Bool(true), End)
  const LAST := More(12, Bool(true), End)
  const TWO_LEVELS := More(1, StructValue(INNER), LAST)

  /** 1: a struct of 2: true; 12: true.  Three different keys, although "1" and "2" make "12". */
  lemma TwoLevels()
    ensures ParseFields([0x1C, 0x21, 0x00, 0xB1, 0x00], 0) == Parsed(TWO_LEVELS, [])
    ensures FieldPositions(TWO_LEVELS) ==
            [Position([Hop(1, 0), Hop(2, 0)], Bool(true)), Position([Hop(1, 0)], StructValue(INNER)), Position([Hop(12, 0)], Bool(true))]
    ensures KeyOf([Hop(1, 0), Hop(2, 0)]) == "1.2" && KeyOf([Hop(1, 0)]) == "1" && KeyOf([Hop(12, 0)]) == "12"
  {
    hide ParseFields, FieldPositions, KeyOf;
    TwoLevelBytes();
    TwoLevelPositions();
    TwoLevelKeys();
  }

  lemma TwoLevelBytes()
    ensures ParseFields([0x1C, 0x21, 0x00, 0xB1, 0x00], 0) == Parsed(TWO_LEVELS, [])
  {
    hide ParseLeaf, ParseZigZag, ParseFields, ParseElement, ParseFieldId;
    var inner: seq<Byte>, stop: seq<Byte> := [0x21, 0x00, 0xB1, 0x00], [0x00];
    assert [0x00] + [0xB1, 0x00] == [0x00, 0xB1, 0x00] && [0x00] + [] == stop;
    assert [0x21] + [0x00, 0xB1, 0x00] == inner && [0xB1] + stop == [0xB1, 0x00];
    assert [0x1C, 0x21, 0x00, 0xB1, 0x00] == [0x1C] + inner;
    EmptyStruct([0xB1, 0x00], 2);
    OneFlag(2, 1, [0x00, 0xB1, 0x00], 0, [0xB1, 0x00], End);
    EmptyStruct([], 12);
    OneFlag(11, 1, stop, 1, [], End);
    StructAhead([0x1C] + inner, inner, [0xB1, 0x00], INNER, LAST);
  }

  lemma EmptyStruct(rest: seq<Byte>, previous: int)
    ensures ParseFields([0x00] + rest, previous) == Parsed(End, rest)
  {
    assert ([0x00] + rest)[1..] == rest;
  }

  /** A boolean field with a short header, before other fields. */
  lemma OneFlag(delta: int, elementType: int, after: seq<Byte>, previous: int, rest: seq<Byte>, others: Fields)
    requires 1 <= delta < 16 && 1 <= elementType <= 2
    requires ParseFields(after, previous + delta) == Parsed(others, rest)
    ensures ParseFields([delta * 16 + elementType] + after, previous) ==
            Parsed(More(previous + delta, Bool(elementType == 1), others), rest)
  {
    hide ParseElement, ParseFieldId;
    FieldHeaderIs(delta, elementType, after, previous);
    LeafIs(after, elementType);
    NibblesOf(delta, elementType);
  }

  lemma StructElement(inner: seq<Byte>, fields: Fields, after: seq<Byte>)
    requires ParseFields(inner, 0) == Parsed(fields, after)
    ensures ParseElement(inner, 12) == Parsed(StructValue(fields), after)
  {
    hide ParseFields;
  }

  /** A struct field with the first id, before other fields. */
  lemma StructAhead(b: seq<Byte>, inner: seq<Byte>, after: seq<Byte>, fields: Fields, others: Fields)
    requires b == [0x1C] + inner && ParseFields(inner, 0) == Parsed(fields, after) && ParseFields(after, 1) == Parsed(others, [])
    ensures ParseFields(b, 0) == Parsed(More(1, StructValue(fields), others), [])
  {
    hide ParseElement, ParseFieldId;
    FieldHeaderIs(1, 12, inner, 0);
    StructElement(inner, fields, after);
  }

  lemma TwoLevelPositions()
    ensures FieldPositions(TWO_LEVELS) ==
            [Position([Hop(1, 0), Hop(2, 0)], Bool(true)), Position([Hop(1, 0)], StructValue(INNER)), Position([Hop(12, 0)], Bool(true))]
  {
    hide UnderField, FieldPositions;
    FlagPosition(2);
    FlagPosition(12);
    var flag := Position([Hop(2, 0)], Bool(true));
    assert InStruct([flag]) == [Below(0, flag)];
    UnderOneField(flag);
    assert [Hop(1, 0)] + [Hop(2, 0)] == [Hop(1, 0), Hop(2, 0)];
    FirstPositions(1, StructValue(INNER), LAST);
  }

  lemma UnderOneField(p: Position)
    ensures p.hops != [] ==> UnderField(1, [Below(0, p)]) == [Position([Hop(1, 0)] + p.hops, p.value)]
  {
  }

  lemma FirstPositions(id: int, value: Value, others: Fields)
    ensures FieldPositions(More(id, value, others)) ==
            UnderField(id, PositionsBelow(value)) + [Position([Hop(id, 0)], value)] + FieldPositions(others)
  {
    hide PositionsBelow, UnderField;
  }

  lemma FlagPosition(id: int)
    ensures FieldPositions(More(id, Bool(true), End)) == [Position([Hop(id, 0)], Bool(true))]
  {
    assert FieldPositions(End) == [];
    assert UnderField(id, []) == [];
  }

  lemma TwoLevelKeys()
    ensures KeyOf([Hop(1, 0), Hop(2, 0)]) == "1.2" && KeyOf([Hop(1, 0)]) == "1" && KeyOf([Hop(12, 0)]) == "12"
  {
    assert [Hop(1, 0), Hop(2, 0)][1..] == [Hop(2, 0)];
    OneHop(1);
    OneHop(2);
    OneHop(12);
    assert PartOf(Hop(1, 0)) == Decimal(1) + "" == Decimal(1);
    assert Decimal(1) == "1" && Decimal(2) == "2";
    assert Decimal(12) == Decimal(1) + [Digit(2)];
  }
}
