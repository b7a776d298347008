/** The budgets of the preflight scan, stated on trees instead of bytes: what a walk over a tree in
    encoding order charges and captures, and the closed form of when it stays within its limits. */
module CompactThriftBudgets {
  import opened Text
  import opened CompactThrift

  datatype Limits = Limits(
    maxDepth: int,
    maxCollectionLength: int,
    maxTotalCollectionElements: int,
    maxBinaryLength: int,
    maxTotalFields: int,
    maxTotalStructs: int,
    captureFields: bool)

  /** A captured scalar: booleans, numbers and 64-bit integers are the only ones that have one. */
  datatype Scalar = Flag(flag: bool) | Number(n: int) | BigInt(n: int)

  datatype Captured = Captured(elementType: int, scalar: Option<Scalar>)

  datatype Totals = Totals(elements: nat, fields: nat, structs: nat, captured: map<string, Captured>)

  const NOTHING: Totals := Totals(0, 0, 0, map[])

  function ScalarOf(v: Value): Option<Scalar> {
    match v
    case Bool(flag) => Some(Flag(flag))
    case I8Value(byte) => Some(Number(byte))
    case I16Value(n) => Some(Number(n))
    case I32Value(n) => Some(Number(n))
    case I64Value(n) => Some(BigInt(n))
    case _ => None
  }

  function CaptureOf(v: Value): Captured {
    Captured(TypeOf(v), ScalarOf(v))
  }

  function FieldPath(path: string, id: int): string {
    if |path| == 0 then Decimal(id) else path + "." + Decimal(id)
  }

  // ---- The walk: budgets charged node by node, in the order the scanner meets the nodes ----

  function WalkStruct(fields: Fields, t: Totals, depth: int, path: string, limits: Limits): Option<Totals>
    decreases fields, 1
  {
    if depth > limits.maxDepth || t.structs + 1 > limits.maxTotalStructs then None
    else WalkFields(fields, t.(structs := t.structs + 1), depth, path, limits)
  }

  function WalkFields(fields: Fields, t: Totals, depth: int, path: string, limits: Limits): Option<Totals>
    decreases fields, 0
  {
    match fields
    case End => Some(t)
    case More(id, value, others) =>
      if t.fields + 1 > limits.maxTotalFields then None
      else
        match WalkElement(value, t.(fields := t.fields + 1), depth, FieldPath(path, id), limits)
        case None => None
        case Some(t') =>
          match CaptureField(t', FieldPath(path, id), CaptureOf(value), limits)
          case None => None
          case Some(t'') => WalkFields(others, t'', depth, path, limits)
  }

  function CaptureField(t: Totals, path: string, c: Captured, limits: Limits): Option<Totals> {
    if !limits.captureFields then Some(t)
    else if path in t.captured then None
    else Some(t.(captured := t.captured[path := c]))
  }

  function WalkElement(v: Value, t: Totals, depth: int, path: string, limits: Limits): Option<Totals>
    decreases v, 0
  {
    if depth > limits.maxDepth then None
    else
      match v
      case BinaryValue(bytes) => if |bytes| > limits.maxBinaryLength then None else Some(t)
      case ListValue(_, items) =>
        if !FitsCollection(|items|, t, limits) then None
        else WalkItems(items, t.(elements := t.elements + |items|), depth + 1, path + "[]", limits)
      case StructValue(fields) => WalkStruct(fields, t, depth + 1, path, limits)
      case _ => Some(t)
  }

  predicate FitsCollection(n: nat, t: Totals, limits: Limits) {
    n <= limits.maxCollectionLength && n <= limits.maxTotalCollectionElements - t.elements
  }

  function WalkItems(items: seq<Value>, t: Totals, depth: int, path: string, limits: Limits): Option<Totals>
    decreases items, 0
  {
    if items == [] then Some(t)
    else
      match WalkElement(items[0], t, depth, path, limits)
      case None => None
      case Some(t') => WalkItems(items[1..], t', depth, path, limits)
  }

  // ---- The closed form ----

  datatype Count = Count(elements: nat, fields: nat, structs: nat, lists: nat)

  const ZERO := Count(0, 0, 0, 0)

  function Plus(a: Count, b: Count): Count {
    Count(a.elements + b.elements, a.fields + b.fields, a.structs + b.structs, a.lists + b.lists)
  }

  /** List elements, fields, structs and lists in a tree. */
  function CountOf(v: Value): Count {
    match v
    case ListValue(_, items) => Plus(Count(|items|, 0, 0, 1), CountOfItems(items))
    case StructValue(fields) => Plus(Count(0, 0, 1, 0), CountOfFields(fields))
    case _ => ZERO
  }

  function CountOfFields(fields: Fields): Count {
    match fields
    case End => ZERO
    case More(_, value, others) => Plus(Count(0, 1, 0, 0), Plus(CountOf(value), CountOfFields(others)))
  }

  function CountOfItems(items: seq<Value>): Count {
    if items == [] then ZERO else Plus(CountOf(items[0]), CountOfItems(items[1..]))
  }

  /** The tree is no deeper than allowed, and no single binary or list is too long. */
  predicate Shaped(v: Value, depth: int, limits: Limits) {
    && depth <= limits.maxDepth
    && match v
       case BinaryValue(bytes) => |bytes| <= limits.maxBinaryLength
       case ListValue(_, items) =>
         && |items| <= limits.maxCollectionLength
         && forall item | item in items :: Shaped(item, depth + 1, limits)
       case StructValue(fields) => depth + 1 <= limits.maxDepth && FieldsShaped(fields, depth + 1, limits)
       case _ => true
  }

  predicate FieldsShaped(fields: Fields, depth: int, limits: Limits) {
    match fields
    case End => true
    case More(_, value, others) => Shaped(value, depth, limits) && FieldsShaped(others, depth, limits)
  }

  /** Every field below a value with its path and scalar, nested fields before their parent. */
  function Captures(v: Value, path: string): seq<(string, Captured)> {
    match v
    case ListValue(_, items) => CapturesOfItems(items, path + "[]")
    case StructValue(fields) => CapturesOfFields(fields, path)
    case _ => []
  }

  function CapturesOfFields(fields: Fields, path: string): seq<(string, Captured)> {
    match fields
    case End => []
    case More(id, value, others) =>
      Captures(value, FieldPath(path, id)) + ([(FieldPath(path, id), CaptureOf(value))] + CapturesOfFields(others, path))
  }

  function CapturesOfItems(items: seq<Value>, path: string): seq<(string, Captured)> {
    if items == [] then [] else Captures(items[0], path) + CapturesOfItems(items[1..], path)
  }

  function CaptureAll(m: map<string, Captured>, cs: seq<(string, Captured)>): Option<map<string, Captured>>
    decreases |cs|
  {
    if cs == [] then Some(m)
    else if cs[0].0 in m then None
    else CaptureAll(m[cs[0].0 := cs[0].1], cs[1..])
  }

  /** A total is only compared with its limit when something adds to it. */
  predicate Affordable(c: Count, t: Totals, limits: Limits) {
    && (c.lists > 0 || c.elements > 0 ==> t.elements + c.elements <= limits.maxTotalCollectionElements)
    && (c.fields > 0 ==> t.fields + c.fields <= limits.maxTotalFields)
    && (c.structs > 0 ==> t.structs + c.structs <= limits.maxTotalStructs)
  }

  /** Charging a whole tree at once. */
  function Charge(t: Totals, c: Count, cs: seq<(string, Captured)>, limits: Limits): Option<Totals> {
    if Affordable(c, t, limits) then Credit(t, c, CaptureWhenOn(t.captured, cs, limits)) else None
  }

  function Credit(t: Totals, c: Count, captured: Option<map<string, Captured>>): Option<Totals> {
    match captured
    case None => None
    case Some(m) => Some(Totals(t.elements + c.elements, t.fields + c.fields, t.structs + c.structs, m))
  }

  function CaptureWhenOn(m: map<string, Captured>, cs: seq<(string, Captured)>, limits: Limits)
    : Option<map<string, Captured>>
  {
    if limits.captureFields then CaptureAll(m, cs) else Some(m)
  }

  lemma {:induction false} CaptureAllAppend(m: map<string, Captured>, a: seq<(string, Captured)>, b: seq<(string, Captured)>)
    ensures CaptureAll(m, a + b) == match CaptureAll(m, a) case None => None case Some(m') => CaptureAll(m', b)
    decreases |a|
  {
    if a == [] {
      assert a + b == b;
    } else {
      assert (a + b)[1..] == a[1..] + b;
      if a[0].0 !in m {
        CaptureAllAppend(m[a[0].0 := a[0].1], a[1..], b);
      }
    }
  }

  /** Charging is a homomorphism: one charge for two parts is a charge for each in turn. */
  lemma ChargeAppend(t: Totals, a: Count, b: Count, xs: seq<(string, Captured)>, ys: seq<(string, Captured)>, limits: Limits)
    ensures Charge(t, Plus(a, b), xs + ys, limits)
         == match Charge(t, a, xs, limits) case None => None case Some(t') => Charge(t', b, ys, limits)
  {
    CaptureWhenOnAppend(t.captured, xs, ys, limits);
    hide CaptureWhenOn, Affordable;
    match CaptureWhenOn(t.captured, xs, limits) {
      case None =>
        if Affordable(Plus(a, b), t, limits) {
          AffordableAppend(t, a, b, t.captured, limits);
        }
      case Some(m) => AffordableAppend(t, a, b, m, limits);
    }
  }

  lemma CaptureWhenOnAppend(m: map<string, Captured>, a: seq<(string, Captured)>, b: seq<(string, Captured)>, limits: Limits)
    ensures CaptureWhenOn(m, a + b, limits)
         == match CaptureWhenOn(m, a, limits) case None => None case Some(m') => CaptureWhenOn(m', b, limits)
  {
    CaptureAllAppend(m, a, b);
  }

  lemma AffordableAppend(t: Totals, a: Count, b: Count, m: map<string, Captured>, limits: Limits)
    ensures Affordable(Plus(a, b), t, limits) <==>
      Affordable(a, t, limits) &&
      Affordable(b, Totals(t.elements + a.elements, t.fields + a.fields, t.structs + a.structs, m), limits)
  {
  }

  ghost predicate ElementIsExact(v: Value, t: Totals, depth: int, path: string, limits: Limits) {
    WalkElement(v, t, depth, path, limits)
    == if Shaped(v, depth, limits) then Charge(t, CountOf(v), Captures(v, path), limits) else None
  }

  ghost predicate ItemsAreExact(items: seq<Value>, t: Totals, depth: int, path: string, limits: Limits) {
    WalkItems(items, t, depth, path, limits)
    == if forall item | item in items :: Shaped(item, depth, limits)
       then Charge(t, CountOfItems(items), CapturesOfItems(items, path), limits)
       else None
  }

  /** The walk succeeds exactly when the tree is shaped within the limits and its closed-form charge
      is affordable, and then its totals and captures are that charge. */
  lemma {:induction false} WalkElementExact(v: Value, t: Totals, depth: int, path: string, limits: Limits)
    ensures ElementIsExact(v, t, depth, path, limits)
    decreases v, 0
  {
    hide ElementIsExact;
    match v {
      case ListValue(elementType, items) =>
        WalkItemsExact(items, t.(elements := t.elements + |items|), depth + 1, path + "[]", limits);
        WalkListParts(elementType, items, t, depth, path, limits);
      case StructValue(fields) =>
        WalkStructExact(fields, t, depth + 1, path, limits);
        WalkStructParts(fields, t, depth, path, limits);
      case _ => WalkLeaf(v, t, depth, path, limits);
    }
  }

  lemma WalkLeaf(v: Value, t: Totals, depth: int, path: string, limits: Limits)
    requires !v.ListValue? && !v.StructValue?
    ensures ElementIsExact(v, t, depth, path, limits)
  {
    assert CaptureAll(t.captured, []) == Some(t.captured);
  }

  lemma WalkStructParts(fields: Fields, t: Totals, depth: int, path: string, limits: Limits)
    requires WalkStruct(fields, t, depth + 1, path, limits)
          == if depth + 1 <= limits.maxDepth && FieldsShaped(fields, depth + 1, limits)
             then Charge(t, Plus(Count(0, 0, 1, 0), CountOfFields(fields)), CapturesOfFields(fields, path), limits)
             else None
    ensures ElementIsExact(StructValue(fields), t, depth, path, limits)
  {
    hide Charge, WalkStruct, FieldsShaped, CountOfFields, CapturesOfFields;
  }

  lemma WalkListParts(elementType: int, items: seq<Value>, t: Totals, depth: int, path: string, limits: Limits)
    requires ItemsAreExact(items, t.(elements := t.elements + |items|), depth + 1, path + "[]", limits)
    ensures ElementIsExact(ListValue(elementType, items), t, depth, path, limits)
  {
    hide Charge, WalkItems, CountOfItems, CapturesOfItems;
    ChargeList(t, |items|, CountOfItems(items), CapturesOfItems(items, path + "[]"), limits);
  }

  lemma ChargeList(t: Totals, n: nat, c: Count, cs: seq<(string, Captured)>, limits: Limits)
    ensures Charge(t, Plus(Count(n, 0, 0, 1), c), cs, limits)
         == if n > limits.maxTotalCollectionElements - t.elements then None
            else Charge(t.(elements := t.elements + n), c, cs, limits)
  {
    hide CaptureWhenOn;
    var list, t1 := Count(n, 0, 0, 1), t.(elements := t.elements + n);
    if n <= limits.maxTotalCollectionElements - t.elements {
      assert Affordable(Plus(list, c), t, limits) <==> Affordable(c, t1, limits);
    }
  }

  lemma {:induction false} WalkStructExact(fields: Fields, t: Totals, depth: int, path: string, limits: Limits)
    ensures WalkStruct(fields, t, depth, path, limits)
         == if depth <= limits.maxDepth && FieldsShaped(fields, depth, limits)
            then Charge(t, Plus(Count(0, 0, 1, 0), CountOfFields(fields)), CapturesOfFields(fields, path), limits)
            else None
    decreases fields, 1
  {
    hide Charge, WalkFields, FieldsShaped, CountOfFields, CapturesOfFields, Plus;
    WalkFieldsExact(fields, t.(structs := t.structs + 1), depth, path, limits);
    ChargeStruct(t, CountOfFields(fields), CapturesOfFields(fields, path), limits);
  }

  lemma {:induction false} WalkFieldsExact(fields: Fields, t: Totals, depth: int, path: string, limits: Limits)
    ensures WalkFields(fields, t, depth, path, limits)
         == if FieldsShaped(fields, depth, limits)
            then Charge(t, CountOfFields(fields), CapturesOfFields(fields, path), limits)
            else None
    decreases fields, 0
  {
    match fields {
      case End =>
      case More(id, value, others) =>
        var fieldPath, c := FieldPath(path, id), CaptureOf(value);
        ChargeField(t, CountOf(value), CountOfFields(others), Captures(value, fieldPath), fieldPath, c,
                    CapturesOfFields(others, path), limits);
        var t1 := t.(fields := t.fields + 1);
        WalkElementExact(value, t1, depth, fieldPath, limits);
        match WalkElement(value, t1, depth, fieldPath, limits) {
          case None =>
          case Some(t2) =>
            match CaptureField(t2, fieldPath, c, limits) {
              case None =>
              case Some(t3) => WalkFieldsExact(others, t3, depth, path, limits);
            }
        }
    }
  }

  lemma ChargeStruct(t: Totals, c: Count, cs: seq<(string, Captured)>, limits: Limits)
    ensures Charge(t, Plus(Count(0, 0, 1, 0), c), cs, limits)
         == if t.structs + 1 > limits.maxTotalStructs then None
            else Charge(t.(structs := t.structs + 1), c, cs, limits)
  {
    hide CaptureWhenOn;
    var one, t1 := Count(0, 0, 1, 0), t.(structs := t.structs + 1);
    if t.structs + 1 <= limits.maxTotalStructs {
      assert Affordable(Plus(one, c), t, limits) <==> Affordable(c, t1, limits);
    }
  }

  lemma ChargeField(t: Totals, value: Count, others: Count, below: seq<(string, Captured)>, path: string, c: Captured,
                    after: seq<(string, Captured)>, limits: Limits)
    ensures Charge(t, Plus(Count(0, 1, 0, 0), Plus(value, others)), below + ([(path, c)] + after), limits)
         == if t.fields + 1 > limits.maxTotalFields then None
            else
              match Charge(t.(fields := t.fields + 1), value, below, limits)
              case None => None
              case Some(t2) =>
                match CaptureField(t2, path, c, limits)
                case None => None
                case Some(t3) => Charge(t3, others, after, limits)
  {
    var t1 := t.(fields := t.fields + 1);
    assert Plus(ZERO, others) == others;
    ChargeAppend(t1, value, others, below, [(path, c)] + after, limits);
    match Charge(t1, value, below, limits) {
      case None =>
      case Some(t2) =>
        ChargeAppend(t2, ZERO, others, [(path, c)], after, limits);
        ChargeOne(t2, path, c, limits);
    }
  }

  lemma ChargeOne(t: Totals, path: string, c: Captured, limits: Limits)
    ensures Charge(t, ZERO, [(path, c)], limits) == CaptureField(t, path, c, limits)
  {
    var m := t.captured[path := c];
    assert CaptureAll(m, [(path, c)][1..]) == Some(m);
  }

  lemma {:induction false} WalkItemsExact(items: seq<Value>, t: Totals, depth: int, path: string, limits: Limits)
    ensures ItemsAreExact(items, t, depth, path, limits)
    decreases items, 0
  {
    if items != [] {
      var first, others := items[0], items[1..];
      assert items == [first] + others;
      WalkElementExact(first, t, depth, path, limits);
      ChargeAppend(t, CountOf(first), CountOfItems(others), Captures(first, path), CapturesOfItems(others, path), limits);
      match WalkElement(first, t, depth, path, limits) {
        case None =>
        case Some(t') => WalkItemsExact(others, t', depth, path, limits);
      }
    }
  }

  // ---- Captured maps ----

  ghost predicate NoRepeatedPath(cs: seq<(string, Captured)>) {
    forall i, j | 0 <= i < j < |cs| :: cs[i].0 != cs[j].0
  }

  /** The map holds exactly the listed paths, each with its own capture. */
  ghost predicate Holds(m: map<string, Captured>, cs: seq<(string, Captured)>) {
    && (forall i | 0 <= i < |cs| :: cs[i].0 in m && m[cs[i].0] == cs[i].1)
    && (forall path | path in m :: exists i :: 0 <= i < |cs| && cs[i].0 == path)
  }

  lemma {:induction false} CaptureAllHolds(done: seq<(string, Captured)>, m: map<string, Captured>, cs: seq<(string, Captured)>)
    requires NoRepeatedPath(done) && Holds(m, done)
    ensures CaptureAll(m, cs).Some? <==> NoRepeatedPath(done + cs)
    ensures CaptureAll(m, cs).Some? ==> Holds(CaptureAll(m, cs).value, done + cs)
    decreases |cs|
  {
    if cs == [] {
      assert done + cs == done;
    } else {
      var (path, c) := cs[0];
      var next := done + [cs[0]];
      assert next + cs[1..] == done + cs;
      if path in m {
        var i :| 0 <= i < |done| && done[i].0 == path;
        assert (done + cs)[i].0 == (done + cs)[|done|].0;
      } else {
        var m' := m[path := c];
        forall i | 0 <= i < |next| ensures next[i].0 in m' && m'[next[i].0] == next[i].1 {
        }
        forall p | p in m' ensures exists i :: 0 <= i < |next| && next[i].0 == p {
          if p == path {
            assert next[|done|].0 == p;
          } else {
            var i :| 0 <= i < |done| && done[i].0 == p;
            assert next[i].0 == p;
          }
        }
        CaptureAllHolds(next, m', cs[1..]);
      }
    }
  }
}
