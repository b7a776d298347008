/** What the preflight promises its callers, for every byte string and every choice of limits. */
module CompactThriftPreflight {
  import opened Text
  import opened CompactThrift
  import opened CompactThriftBudgets
  import opened CompactThriftPaths
  import opened CompactThriftScanner

  datatype Preflight = Preflight(byteLength: nat, fields: map<string, Captured>)

  function CountOfTree(fields: Fields): Count {
    Plus(Count(0, 0, 1, 0), CountOfFields(fields))
  }

  /** The budgets of a whole tree, in closed form. */
  ghost predicate WithinBudgets(fields: Fields, limits: Limits) {
    && 0 <= limits.maxDepth
    && FieldsShaped(fields, 0, limits)
    && Affordable(CountOfTree(fields), NOTHING, limits)
    && (limits.captureFields ==> NoRepeatedPath(CapturesOfFields(fields, "")))
  }

  /** `m` is what a successful scan of the tree reports. */
  ghost predicate Reports(m: map<string, Captured>, fields: Fields, limits: Limits) {
    if limits.captureFields then Holds(m, CapturesOfFields(fields, "")) else m == map[]
  }

  /** The scan accepts exactly the inputs that start with a tree within the budgets; it reports how
      many bytes that tree took and, if asked, exactly its fields and scalars. */
  method PreflightCompactThrift(input: seq<Byte>, limits: Limits) returns (r: Option<Preflight>)
    ensures r.Some? <==> ParseFields(input, 0).Parsed? && WithinBudgets(ParseFields(input, 0).value, limits)
    ensures r.Some? ==>
      var Parsed(fields, rest) := ParseFields(input, 0);
      && r.value.byteLength == |input| - |rest|
      && rest == input[r.value.byteLength..]
      && Reports(r.value.fields, fields, limits)
      && (if limits.captureFields then CapturesFields(r.value.fields, fields) else r.value.fields == map[])
  {
    hide ParseFields, WithinBudgets, Holds, CapturesFields, CapturesOfFields;
    var reader := new Reader(input, limits);
    assert reader.Remaining() == input;
    OutcomeOfTree(input, limits);
    var ok := reader.ScanStruct(0, "");
    if !ok {
      return None;
    }
    r := Some(Preflight(reader.offset, reader.fields));
    if limits.captureFields {
      HeldMapsCaptureFields(reader.fields, ParseFields(input, 0).value);
    }
  }

  lemma CaptureFromNothing(cs: seq<(string, Captured)>)
    ensures CaptureAll(map[], cs).Some? <==> NoRepeatedPath(cs)
    ensures CaptureAll(map[], cs).Some? ==> Holds(CaptureAll(map[], cs).value, cs)
  {
    CaptureAllHolds([], map[], cs);
    assert [] + cs == cs;
  }

  /** On success the scanner's totals are the tree's own counts, and they are within the limits. */
  lemma OutcomeOfTree(input: seq<Byte>, limits: Limits)
    ensures
      var outcome := StructOutcome(input, NOTHING, 0, "", limits);
      match ParseFields(input, 0)
      case Rejected => outcome == None
      case Parsed(fields, rest) =>
        var c := CountOfTree(fields);
        && (outcome.Some? <==> WithinBudgets(fields, limits))
        && (outcome.Some? ==>
              var (unread, t) := outcome.value;
              && unread == rest
              && (t.elements, t.fields, t.structs) == (c.elements, c.fields, c.structs)
              && (c.elements > 0 ==> t.elements <= limits.maxTotalCollectionElements)
              && (t.fields > 0 ==> t.fields <= limits.maxTotalFields)
              && t.structs <= limits.maxTotalStructs
              && Reports(t.captured, fields, limits))
  {
    hide FieldsShaped, CountOfFields, CapturesOfFields, NoRepeatedPath, Holds, CaptureAll, ParseFields, WalkStruct, WithinBudgets;
    hide Reports, CountOfTree;
    if ParseFields(input, 0).Parsed? {
      WalkOfTree(ParseFields(input, 0).value, limits);
    }
  }

  /** The same for the walk over a tree. */
  lemma WalkOfTree(fields: Fields, limits: Limits)
    ensures
      var walked := WalkStruct(fields, NOTHING, 0, "", limits);
      var c := CountOfTree(fields);
      && (walked.Some? <==> WithinBudgets(fields, limits))
      && (walked.Some? ==>
            var t := walked.value;
            && (t.elements, t.fields, t.structs) == (c.elements, c.fields, c.structs)
            && (c.elements > 0 ==> t.elements <= limits.maxTotalCollectionElements)
            && (t.fields > 0 ==> t.fields <= limits.maxTotalFields)
            && t.structs <= limits.maxTotalStructs
            && Reports(t.captured, fields, limits))
  {
    hide FieldsShaped, CountOfFields, CapturesOfFields, NoRepeatedPath, Holds, WalkStruct, Charge, Affordable;
    WalkStructExact(fields, NOTHING, 0, "", limits);
    ChargeFromNothing(CountOfTree(fields), CapturesOfFields(fields, ""), limits);
  }

  lemma ChargeFromNothing(c: Count, cs: seq<(string, Captured)>, limits: Limits)
    requires c.structs > 0
    ensures
      var charged := Charge(NOTHING, c, cs, limits);
      && (charged.Some? <==> Affordable(c, NOTHING, limits) && (limits.captureFields ==> NoRepeatedPath(cs)))
      && (charged.Some? ==>
            var t := charged.value;
            && (t.elements, t.fields, t.structs) == (c.elements, c.fields, c.structs)
            && (c.elements > 0 ==> t.elements <= limits.maxTotalCollectionElements)
            && (t.fields > 0 ==> t.fields <= limits.maxTotalFields)
            && t.structs <= limits.maxTotalStructs
            && if limits.captureFields then Holds(t.captured, cs) else t.captured == map[])
  {
    hide NoRepeatedPath, Holds, CaptureAll;
    CaptureFromNothing(cs);
  }

  /** Round trip: an encodable tree followed by anything is accepted if and only if the tree is
      within the budgets, and the scan then stops at the end of its encoding. */
  lemma EncodingsAreAccepted(fields: Fields, trailing: seq<Byte>, limits: Limits)
    requires FieldsEncodable(fields, 0)
    ensures var input := EncodeFields(fields, 0) + trailing;
            && ParseFields(input, 0) == Parsed(fields, trailing)
            && (StructOutcome(input, NOTHING, 0, "", limits).Some? <==> WithinBudgets(fields, limits))
            && |input| - |trailing| == |EncodeFields(fields, 0)|
  {
    FieldsRoundTrip(fields, 0, trailing);
    OutcomeOfTree(EncodeFields(fields, 0) + trailing, limits);
  }

  /** Converse: whatever is accepted denotes one encodable tree; the canonical encoding of that tree is
      no longer than the bytes scanned, and scanning it under the same limits succeeds with the same
      totals and the same captured fields. */
  lemma AcceptedInputsAreTrees(input: seq<Byte>, limits: Limits)
    requires StructOutcome(input, NOTHING, 0, "", limits).Some?
    ensures ParseFields(input, 0).Parsed?
    ensures
      var Parsed(fields, rest) := ParseFields(input, 0);
      && FieldsEncodable(fields, 0)
      && WithinBudgets(fields, limits)
      && |EncodeFields(fields, 0)| <= |input| - |rest|
      && StructOutcome(EncodeFields(fields, 0), NOTHING, 0, "", limits) ==
         Some(([], StructOutcome(input, NOTHING, 0, "", limits).value.1))
  {
    OutcomeOfTree(input, limits);
    FieldsAreEncodable(input, 0);
    var fields := ParseFields(input, 0).value;
    FieldsRoundTrip(fields, 0, []);
    assert EncodeFields(fields, 0) + [] == EncodeFields(fields, 0);
  }

  /** Depth is bounded whatever the bytes say: an accepted tree has no node below the limit. */
  lemma {:induction false} ShapedBoundsDepth(v: Value, depth: int, limits: Limits)
    requires Shaped(v, depth, limits)
    ensures depth + Height(v) <= limits.maxDepth
    decreases v, 0
  {
    match v {
      case ListValue(_, items) => ItemsShapedBoundsDepth(items, depth + 1, limits);
      case StructValue(fields) => FieldsShapedBoundsDepth(fields, depth + 1, limits);
      case _ =>
    }
  }

  lemma {:induction false} ItemsShapedBoundsDepth(items: seq<Value>, depth: int, limits: Limits)
    requires depth <= limits.maxDepth + 1 && forall item | item in items :: Shaped(item, depth, limits)
    ensures items != [] ==> depth + HeightOfItems(items) <= limits.maxDepth
    decreases items, 0
  {
    if items != [] {
      ShapedBoundsDepth(items[0], depth, limits);
      ItemsShapedBoundsDepth(items[1..], depth, limits);
    }
  }

  lemma {:induction false} FieldsShapedBoundsDepth(fields: Fields, depth: int, limits: Limits)
    requires depth <= limits.maxDepth && FieldsShaped(fields, depth, limits)
    ensures depth + HeightOfFields(fields) <= limits.maxDepth
    decreases fields, 0
  {
    match fields {
      case End =>
      case More(_, value, others) =>
        ShapedBoundsDepth(value, depth, limits);
        FieldsShapedBoundsDepth(others, depth, limits);
    }
  }

  function Max(a: nat, b: nat): nat { if a < b then b else a }

  /** How far below a node its deepest descendant lies, one level per struct and per list item. */
  function Height(v: Value): nat {
    match v
    case ListValue(_, items) => if items == [] then 0 else 1 + HeightOfItems(items)
    case StructValue(fields) => 1 + HeightOfFields(fields)
    case _ => 0
  }

  function HeightOfItems(items: seq<Value>): nat {
    if items == [] then 0 else Max(Height(items[0]), HeightOfItems(items[1..]))
  }

  function HeightOfFields(fields: Fields): nat {
    match fields
    case End => 0
    case More(_, value, others) => Max(Height(value), HeightOfFields(others))
  }
}
