/** The preflight scanner itself: one pass over the bytes that parses, charges budgets and captures
    fields at the same time, in place.  It is proved to be the fusion of the grammar and the budgeted
    walk: it never builds the tree, yet accepts exactly when the bytes parse to a tree that the walk
    accepts. */
module CompactThriftScanner {
  import opened Text
  import opened CompactThrift
  import opened CompactThriftBudgets

  const MAX_SAFE_INTEGER := 9007199254740991

  /** What a successful scan leaves: the unread bytes, the totals, and what a field would capture. */
  datatype Scanned = Scanned(rest: seq<Byte>, totals: Totals, capture: Captured)

  /** Parse, then walk. */
  ghost function ElementOutcome(b: seq<Byte>, elementType: int, t: Totals, depth: int, path: string, limits: Limits): Option<Scanned> {
    match ParseElement(b, elementType)
    case Rejected => None
    case Parsed(v, rest) =>
      match WalkElement(v, t, depth, path, limits)
      case None => None
      case Some(t') => Some(Scanned(rest, t', CaptureOf(v)))
  }

  ghost function FieldsOutcome(b: seq<Byte>, previous: int, t: Totals, depth: int, path: string, limits: Limits): Option<(seq<Byte>, Totals)> {
    match ParseFields(b, previous)
    case Rejected => None
    case Parsed(fields, rest) =>
      match WalkFields(fields, t, depth, path, limits)
      case None => None
      case Some(t') => Some((rest, t'))
  }

  ghost function StructOutcome(b: seq<Byte>, t: Totals, depth: int, path: string, limits: Limits): Option<(seq<Byte>, Totals)> {
    match ParseFields(b, 0)
    case Rejected => None
    case Parsed(fields, rest) =>
      match WalkStruct(fields, t, depth, path, limits)
      case None => None
      case Some(t') => Some((rest, t'))
  }

  ghost function ItemsOutcome(b: seq<Byte>, itemType: int, n: nat, t: Totals, depth: int, path: string, limits: Limits): Option<(seq<Byte>, Totals)>
    requires itemType != TRUE && itemType != FALSE
  {
    match ParseItems(b, itemType, n)
    case Rejected => None
    case Parsed(items, rest) =>
      match WalkItems(items, t, depth, path, limits)
      case None => None
      case Some(t') => Some((rest, t'))
  }

  lemma StructOutcomeStart(b: seq<Byte>, t: Totals, depth: int, path: string, limits: Limits)
    ensures StructOutcome(b, t, depth, path, limits) ==
            if depth > limits.maxDepth || t.structs + 1 > limits.maxTotalStructs then None
            else FieldsOutcome(b, 0, t.(structs := t.structs + 1), depth, path, limits)
  {
  }

  lemma FieldsOutcomeEnd(b: seq<Byte>, previous: int, t: Totals, depth: int, path: string, limits: Limits)
    ensures b == [] ==> FieldsOutcome(b, previous, t, depth, path, limits) == None
    ensures b != [] && b[0] % 16 == STOP ==> FieldsOutcome(b, previous, t, depth, path, limits) == Some((b[1..], t))
  {
  }

  /** One field of the outcome of a struct. */
  lemma FieldsOutcomeStep(b: seq<Byte>, previous: int, t: Totals, depth: int, path: string, limits: Limits)
    requires b != [] && b[0] % 16 != STOP
    ensures FieldsOutcome(b, previous, t, depth, path, limits) ==
            match ParseFieldId(b, previous)
            case Rejected => None
            case Parsed(id, afterId) =>
              if t.fields + 1 > limits.maxTotalFields then None
              else
                match ElementOutcome(afterId, b[0] % 16, t.(fields := t.fields + 1), depth, FieldPath(path, id), limits)
                case None => None
                case Some(Scanned(rest, t', c)) =>
                  match CaptureField(t', FieldPath(path, id), c, limits)
                  case None => None
                  case Some(t'') => FieldsOutcome(rest, id, t'', depth, path, limits)
  {
  }

  /** One item of the outcome of a list. */
  lemma ItemsOutcomeStep(b: seq<Byte>, itemType: int, n: nat, t: Totals, depth: int, path: string, limits: Limits)
    requires itemType != TRUE && itemType != FALSE && n > 0
    ensures ItemsOutcome(b, itemType, n, t, depth, path, limits) ==
            match ElementOutcome(b, itemType, t, depth, path, limits)
            case None => None
            case Some(Scanned(rest, t', _)) => ItemsOutcome(rest, itemType, n - 1, t', depth, path, limits)
  {
    match ParseElement(b, itemType) {
      case Rejected =>
      case Parsed(item, afterItem) =>
        match ParseItems(afterItem, itemType, n - 1) {
          case Rejected =>
          case Parsed(items, rest) =>
            assert ([item] + items)[0] == item && ([item] + items)[1..] == items;
        }
    }
  }

  lemma ItemsOutcomeEnd(b: seq<Byte>, itemType: int, t: Totals, depth: int, path: string, limits: Limits)
    requires itemType != TRUE && itemType != FALSE
    ensures ItemsOutcome(b, itemType, 0, t, depth, path, limits) == Some((b, t))
  {
  }

  /** An element after its type is known, for the composite types. */
  lemma ListOutcome(b: seq<Byte>, t: Totals, depth: int, path: string, limits: Limits)
    requires depth <= limits.maxDepth
    ensures ElementOutcome(b, LIST, t, depth, path, limits) ==
            match ParseListHeader(b)
            case Rejected => None
            case Parsed(n, afterHeader) =>
              if !FitsCollection(n, t, limits) then None
              else
                match ItemsOutcome(afterHeader, ItemType(b[0] % 16), n, t.(elements := t.elements + n), depth + 1, path + "[]", limits)
                case None => None
                case Some((rest, t')) => Some(Scanned(rest, t', Captured(LIST, None)))
  {
  }

  lemma LeafOutcome(b: seq<Byte>, elementType: int, t: Totals, depth: int, path: string, limits: Limits)
    requires depth <= limits.maxDepth && elementType != LIST && elementType != STRUCT
    ensures ElementOutcome(b, elementType, t, depth, path, limits) ==
            match ParseLeaf(b, elementType)
            case Rejected => None
            case Parsed(v, rest) =>
              if v.BinaryValue? && |v.bytes| > limits.maxBinaryLength then None else Some(Scanned(rest, t, CaptureOf(v)))
  {
  }

  lemma NestedStructOutcome(b: seq<Byte>, t: Totals, depth: int, path: string, limits: Limits)
    requires depth <= limits.maxDepth
    ensures ElementOutcome(b, STRUCT, t, depth, path, limits) ==
            match StructOutcome(b, t, depth + 1, path, limits)
            case None => None
            case Some((rest, t')) => Some(Scanned(rest, t', Captured(STRUCT, None)))
  {
  }

  class Reader {
    const input: seq<Byte>
    const limits: Limits
    var offset: nat
    var totalCollectionElements: nat
    var totalFields: nat
    var totalStructs: nat
    var fields: map<string, Captured>

    ghost predicate Valid()
      reads this
    {
      offset <= |input|
    }

    ghost function Remaining(): seq<Byte>
      reads this
      requires Valid()
    {
      input[offset..]
    }

    ghost function Counters(): Totals
      reads this
    {
      Totals(totalCollectionElements, totalFields, totalStructs, fields)
    }

    constructor (input: seq<Byte>, limits: Limits)
      ensures Valid() && this.input == input && this.limits == limits
      ensures offset == 0 && Counters() == NOTHING
    {
      this.input := input;
      this.limits := limits;
      offset, totalCollectionElements, totalFields, totalStructs, fields := 0, 0, 0, 0, map[];
    }

    method ReadByte() returns (r: Option<Byte>)
      requires Valid()
      modifies this`offset
      ensures Valid()
      ensures r.Some? <==> old(Remaining()) != []
      ensures r.Some? ==> r.value == old(Remaining())[0] && Remaining() == old(Remaining())[1..]
      ensures r.Some? ==> offset == old(offset) + 1
    {
      if 1 > |input| - offset {
        return None;
      }
      r := Some(input[offset]);
      offset := offset + 1;
    }

    method Skip(length: nat) returns (ok: bool)
      requires Valid()
      modifies this`offset
      ensures Valid()
      ensures ok <==> length <= |old(Remaining())|
      ensures ok ==> Remaining() == old(Remaining())[length..]
      ensures ok ==> offset == old(offset) + length
    {
      if length > |input| - offset {
        return false;
      }
      offset := offset + length;
      ok := true;
    }

    method ReadUnsigned(maxBytes: nat) returns (r: Option<nat>)
      requires Valid()
      modifies this`offset
      ensures Valid()
      ensures r.Some? <==> ParseVarint(old(Remaining()), maxBytes).Parsed?
      ensures r.Some? ==> ParseVarint(old(Remaining()), maxBytes) == Parsed(r.value, Remaining())
      ensures r.Some? ==> offset > old(offset)
    {
      var value, scale := 0, 1;
      var index := 0;
      ghost var start := Remaining();
      while index < maxBytes
        invariant Valid() && index <= maxBytes && offset == old(offset) + index
        // The bits already read are below the next ones, so a bitwise or is a sum.
        invariant 0 <= value < scale
        invariant ParseVarint(start, maxBytes) == Shifted(value, scale, ParseVarint(Remaining(), maxBytes - index))
      {
        ShiftDigit(Remaining(), maxBytes - index, value, scale);
        var byte := ReadByte();
        if byte.None? {
          return None;
        }
        var digit: int := byte.value % 128;
        value := value + digit * scale;
        if byte.value < 128 {
          return Some(value);
        }
        scale := scale * 128;
        index := index + 1;
      }
      r := None;
    }

    method ReadZigZag(maxBytes: nat) returns (r: Option<int>)
      requires Valid()
      modifies this`offset
      ensures Valid()
      ensures r.Some? <==> ParseZigZag(old(Remaining()), maxBytes).Parsed?
      ensures r.Some? ==> ParseZigZag(old(Remaining()), maxBytes) == Parsed(r.value, Remaining())
      ensures r.Some? ==> offset > old(offset)
    {
      var encoded := ReadUnsigned(maxBytes);
      if encoded.None? {
        return None;
      }
      r := Some(UnZigZag(encoded.value));
    }

    /** The identifier of a field whose header byte has just been read. */
    method ReadFieldId(header: Byte, previous: int) returns (id: Option<int>)
      requires Valid()
      modifies this`offset
      ensures Valid() && (id.Some? ==> offset >= old(offset))
      ensures id.Some? <==> ParseFieldId([header] + old(Remaining()), previous).Parsed?
      ensures id.Some? ==> ParseFieldId([header] + old(Remaining()), previous) == Parsed(id.value, Remaining())
    {
      ghost var b := [header] + Remaining();
      assert b[1..] == Remaining();
      if header / 16 == 0 {
        id := ReadZigZag(3);
      } else {
        id := Some(previous + header / 16);
      }
      if id.Some? && id.value <= previous {
        id := None;
      }
    }

    /** The fields of a struct: on success exactly what parsing and then walking them leaves. */
    method ScanStruct(depth: int, path: string) returns (ok: bool)
      requires Valid()
      modifies this
      ensures Valid()
      ensures ok <==> old(StructOutcome(Remaining(), Counters(), depth, path, limits)).Some?
      ensures ok ==> old(StructOutcome(Remaining(), Counters(), depth, path, limits)) == Some((Remaining(), Counters()))
      ensures ok ==> offset > old(offset)
      decreases |input| - offset, 0
    {
      hide FieldsOutcome, ElementOutcome, StructOutcome, ParseFieldId;
      StructOutcomeStart(Remaining(), Counters(), depth, path, limits);
      if depth > limits.maxDepth {
        return false;
      }
      totalStructs := totalStructs + 1;
      if totalStructs > limits.maxTotalStructs {
        return false;
      }
      var previousFieldId := 0;
      ghost var outcome := FieldsOutcome(Remaining(), 0, Counters(), depth, path, limits);
      while true
        invariant Valid() && offset >= old(offset)
        invariant outcome == FieldsOutcome(Remaining(), previousFieldId, Counters(), depth, path, limits)
        decreases |input| - offset
      {
        ghost var b := Remaining();
        FieldsOutcomeEnd(b, previousFieldId, Counters(), depth, path, limits);
        var header := ReadByte();
        if header.None? {
          return false;
        }
        assert b == [header.value] + Remaining();
        var elementType := header.value % 16;
        if elementType == STOP {
          return true;
        }
        FieldsOutcomeStep(b, previousFieldId, Counters(), depth, path, limits);
        var fieldId := ReadFieldId(header.value, previousFieldId);
        if fieldId.None? {
          return false;
        }
        totalFields := totalFields + 1;
        if totalFields > limits.maxTotalFields {
          return false;
        }
        previousFieldId := fieldId.value;
        var fieldPath := FieldPath(path, fieldId.value);
        var scanned, value := ScanElement(elementType, depth, fieldPath);
        if !scanned {
          return false;
        }
        if limits.captureFields {
          if fieldPath in fields {
            return false;
          }
          fields := fields[fieldPath := Captured(elementType, value)];
        }
      }
    }

    /** One element of the given type. */
    method ScanElement(elementType: int, depth: int, path: string) returns (ok: bool, value: Option<Scalar>)
      requires Valid()
      modifies this
      ensures Valid()
      ensures ok <==> old(ElementOutcome(Remaining(), elementType, Counters(), depth, path, limits)).Some?
      ensures ok ==>
        old(ElementOutcome(Remaining(), elementType, Counters(), depth, path, limits)) ==
        Some(Scanned(Remaining(), Counters(), Captured(elementType, value)))
      ensures ok ==> offset >= old(offset)
      ensures ok && elementType != TRUE && elementType != FALSE ==> offset > old(offset)
      decreases |input| - offset, 1
    {
      value := None;
      if depth > limits.maxDepth {
        return false, None;
      }
      if elementType == LIST {
        ok := ScanList(depth, path);
      } else if elementType == STRUCT {
        NestedStructOutcome(Remaining(), Counters(), depth, path, limits);
        ok := ScanStruct(depth + 1, path);
      } else {
        LeafOutcome(Remaining(), elementType, Counters(), depth, path, limits);
        ok, value := ScanLeaf(elementType);
      }
    }

    /** The cases without nested elements. */
    method ScanLeaf(elementType: int) returns (ok: bool, value: Option<Scalar>)
      requires Valid() && elementType != LIST && elementType != STRUCT
      modifies this`offset
      ensures Valid() && (ok ==> offset >= old(offset))
      ensures ok ==>
        var leaf := ParseLeaf(old(Remaining()), elementType);
        && leaf.Parsed? && leaf.rest == Remaining()
        && CaptureOf(leaf.value) == Captured(elementType, value)
        && (leaf.value.BinaryValue? ==> |leaf.value.bytes| <= limits.maxBinaryLength)
      ensures !ok ==>
        var leaf := ParseLeaf(old(Remaining()), elementType);
        leaf.Parsed? ==> leaf.value.BinaryValue? && |leaf.value.bytes| > limits.maxBinaryLength
    {
      hide ParseVarint, Pow128, ParseZigZag, UnZigZag;
      ghost var b := Remaining();
      FiveBytesAreSafe(b);
      value := None;
      if elementType == TRUE {
        return true, Some(Flag(true));
      } else if elementType == FALSE {
        return true, Some(Flag(false));
      } else if elementType == BYTE {
        var byte := ReadByte();
        if byte.None? {
          return false, None;
        }
        return true, Some(Number(byte.value));
      } else if elementType == I16 || elementType == I32 {
        var n := ReadZigZag(5);
        if n.None? {
          return false, None;
        }
        // The source rejects unsafe integers here; five bytes never hold one.
        assert -MAX_SAFE_INTEGER <= n.value <= MAX_SAFE_INTEGER;
        return true, Some(Number(n.value));
      } else if elementType == I64 {
        var n := ReadZigZag(10);
        if n.None? {
          return false, None;
        }
        return true, Some(BigInt(n.value));
      } else if elementType == DOUBLE {
        ok := Skip(8);
      } else if elementType == BINARY {
        var length := ReadUnsigned(5);
        if length.None? {
          return false, None;
        }
        // As above: a five-byte length is always a safe integer.
        assert length.value <= MAX_SAFE_INTEGER;
        if length.value > limits.maxBinaryLength {
          return false, None;
        }
        ok := Skip(length.value);
      } else {
        return false, None;
      }
    }

    /** The LIST case of the element scanner. */
    method ScanList(depth: int, path: string) returns (ok: bool)
      requires Valid() && depth <= limits.maxDepth
      modifies this
      ensures Valid()
      ensures ok <==> old(ElementOutcome(Remaining(), LIST, Counters(), depth, path, limits)).Some?
      ensures ok ==>
        old(ElementOutcome(Remaining(), LIST, Counters(), depth, path, limits)) ==
        Some(Scanned(Remaining(), Counters(), Captured(LIST, None)))
      ensures ok ==> offset > old(offset)
      decreases |input| - offset, 0
    {
      hide ItemsOutcome, ElementOutcome, ParseVarint;
      ListOutcome(Remaining(), Counters(), depth, path, limits);
      var header := ReadByte();
      if header.None? {
        return false;
      }
      var elementType := header.value % 16;
      var length := header.value / 16;
      if length == 15 {
        var long := ReadUnsigned(5);
        if long.None? {
          return false;
        }
        length := long.value;
      }
      if length > limits.maxCollectionLength || length > limits.maxTotalCollectionElements - totalCollectionElements {
        return false;
      }
      totalCollectionElements := totalCollectionElements + length;
      var itemType := if elementType == TRUE || elementType == FALSE then BYTE else elementType;
      ghost var outcome := ItemsOutcome(Remaining(), itemType, length, Counters(), depth + 1, path + "[]", limits);
      for index := 0 to length
        invariant Valid() && offset > old(offset)
        invariant outcome == ItemsOutcome(Remaining(), itemType, length - index, Counters(), depth + 1, path + "[]", limits)
      {
        ItemsOutcomeStep(Remaining(), itemType, length - index, Counters(), depth + 1, path + "[]", limits);
        var scanned, _ := ScanElement(itemType, depth + 1, path + "[]");
        if !scanned {
          return false;
        }
      }
      ItemsOutcomeEnd(Remaining(), itemType, Counters(), depth + 1, path + "[]", limits);
      ok := true;
    }
  }

  lemma FiveBytesAreSafe(b: seq<Byte>)
    ensures ParseVarint(b, 5).Parsed? ==> ParseVarint(b, 5).value <= MAX_SAFE_INTEGER
    ensures ParseZigZag(b, 5).Parsed? ==> -MAX_SAFE_INTEGER <= ParseZigZag(b, 5).value <= MAX_SAFE_INTEGER
  {
    if ParseVarint(b, 5).Parsed? {
      VarintIsShortest(b, 5);
      assert Pow128(5) == 128 * 128 * 128 * 128 * 128;
    }
  }

  /** A varint whose low part is already known. */
  ghost function Shifted(low: nat, scale: nat, r: Parsed<nat>): Parsed<nat> {
    match r case Rejected => Rejected case Parsed(high, rest) => Parsed(low + scale * high, rest)
  }

  /** One more digit of a varint. */
  lemma ShiftDigit(b: seq<Byte>, maxBytes: nat, low: nat, scale: nat)
    requires maxBytes > 0 && low < scale
    ensures b != [] ==>
      var digit: int := b[0] % 128;
      && low + digit * scale < scale * 128
      && Shifted(low, scale, ParseVarint(b, maxBytes)) ==
         if b[0] < 128 then Parsed(low + digit * scale, b[1..])
         else Shifted(low + digit * scale, scale * 128, ParseVarint(b[1..], maxBytes - 1))
  {
    if b != [] {
      var digit: int := b[0] % 128;
      DigitBound(low, scale, digit);
      if b[0] < 128 {
        assert digit == b[0] && ParseVarint(b, maxBytes) == Parsed(b[0], b[1..]);
        assert scale * digit == digit * scale;
      } else {
        assert digit == b[0] - 128;
        var r := ParseVarint(b[1..], maxBytes - 1);
        if r.Parsed? {
          hide ParseVarint;
          DigitShift(low, scale, digit, r.value);
        }
      }
    }
  }

  lemma DigitBound(low: nat, scale: nat, digit: int)
    requires low < scale && 0 <= digit < 128
    ensures 0 <= low + digit * scale < scale * 128
  {
    assert 0 <= digit * scale <= 127 * scale;
  }

  lemma DigitShift(low: nat, scale: nat, digit: int, high: nat)
    ensures low + scale * (digit + 128 * high) == low + digit * scale + scale * 128 * high
  {
  }
}
