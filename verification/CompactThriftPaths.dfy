/** Where the fields of a tree are, and the keys they are captured under.  A position is the list of field ids on
    the way from the root, each with the number of lists entered below it. */
module CompactThriftPaths {
  import opened Text
  import opened CompactThrift
  import opened CompactThriftBudgets

  datatype Hop = Hop(id: int, lists: nat)

  datatype Position = Position(hops: seq<Hop>, value: Value)

  /** A position below a value that is reached through some lists first. */
  datatype Below = Below(lists: nat, position: Position)

  // ---- The positions of a tree, nested ones before their parent ----

  function FieldPositions(fields: Fields): (ps: seq<Position>)
    ensures forall p | p in ps :: p.hops != []
    decreases fields, 0
  {
    match fields
    case End => []
    case More(id, value, others) =>
      UnderField(id, PositionsBelow(value)) + [Position([Hop(id, 0)], value)] + FieldPositions(others)
  }

  function PositionsBelow(v: Value): (bs: seq<Below>)
    ensures forall b | b in bs :: b.position.hops != []
    decreases v, 0
  {
    match v
    case StructValue(fields) => InStruct(FieldPositions(fields))
    case ListValue(_, items) => InList(ItemsBelow(items))
    case _ => []
  }

  function ItemsBelow(items: seq<Value>): (bs: seq<Below>)
    ensures forall b | b in bs :: b.position.hops != []
    decreases items, 0
  {
    if items == [] then [] else PositionsBelow(items[0]) + ItemsBelow(items[1..])
  }

  function UnderField(id: int, bs: seq<Below>): (ps: seq<Position>)
    ensures |ps| == |bs| && forall p | p in ps :: p.hops != []
  {
    seq(|bs|, i requires 0 <= i < |bs| => Position([Hop(id, bs[i].lists)] + bs[i].position.hops, bs[i].position.value))
  }

  function InStruct(ps: seq<Position>): (bs: seq<Below>)
    requires forall p | p in ps :: p.hops != []
    ensures |bs| == |ps| && forall b | b in bs :: b.position.hops != []
  {
    seq(|ps|, i requires 0 <= i < |ps| => Below(0, ps[i]))
  }

  function InList(bs: seq<Below>): (r: seq<Below>)
    requires forall b | b in bs :: b.position.hops != []
    ensures |r| == |bs| && forall b | b in r :: b.position.hops != []
  {
    seq(|bs|, i requires 0 <= i < |bs| => Below(bs[i].lists + 1, bs[i].position))
  }

  // ---- Keys ----

  function Brackets(n: nat): string {
    if n == 0 then "" else "[]" + Brackets(n - 1)
  }

  function PartOf(h: Hop): string {
    Decimal(h.id) + Brackets(h.lists)
  }

  /** The ids joined by dots, each followed by a pair of brackets for every list entered below it. */
  function KeyOf(hops: seq<Hop>): string
    requires hops != []
  {
    if |hops| == 1 then PartOf(hops[0]) else PartOf(hops[0]) + "." + KeyOf(hops[1..])
  }

  function Prefixed(path: string, key: string): string {
    if path == "" then key else path + "." + key
  }

  function Keyed(path: string, ps: seq<Position>): (cs: seq<(string, Captured)>)
    requires forall p | p in ps :: p.hops != []
    ensures |cs| == |ps|
  {
    seq(|ps|, i requires 0 <= i < |ps| => (Prefixed(path, KeyOf(ps[i].hops)), CaptureOf(ps[i].value)))
  }

  function KeyedBelow(path: string, bs: seq<Below>): (cs: seq<(string, Captured)>)
    requires forall b | b in bs :: b.position.hops != []
    ensures |cs| == |bs|
  {
    seq(|bs|, i requires 0 <= i < |bs| =>
      (path + Brackets(bs[i].lists) + "." + KeyOf(bs[i].position.hops), CaptureOf(bs[i].position.value)))
  }

  lemma {:induction false} DecimalIsNotEmpty(n: int)
    ensures Decimal(n) != ""
  {
  }

  lemma KeyedUnderField(path: string, id: int, bs: seq<Below>)
    requires forall b | b in bs :: b.position.hops != []
    ensures Keyed(path, UnderField(id, bs)) == KeyedBelow(Prefixed(path, Decimal(id)), bs)
  {
    DecimalIsNotEmpty(id);
    var ps := UnderField(id, bs);
    forall i | 0 <= i < |bs| ensures Keyed(path, ps)[i] == KeyedBelow(Prefixed(path, Decimal(id)), bs)[i] {
      var rest := bs[i].position.hops;
      assert bs[i] in bs && ps[i] in ps;
      assert ps[i].hops == [Hop(id, bs[i].lists)] + rest && ps[i].hops[1..] == rest;
      assert KeyOf(ps[i].hops) == Decimal(id) + Brackets(bs[i].lists) + "." + KeyOf(rest);
      PrefixFirst(path, Decimal(id), Brackets(bs[i].lists) + "." + KeyOf(rest));
      assert Decimal(id) + Brackets(bs[i].lists) + "." + KeyOf(rest) == Decimal(id) + (Brackets(bs[i].lists) + "." + KeyOf(rest));
      assert Prefixed(path, Decimal(id)) + (Brackets(bs[i].lists) + "." + KeyOf(rest)) ==
             Prefixed(path, Decimal(id)) + Brackets(bs[i].lists) + "." + KeyOf(rest);
    }
  }

  lemma PrefixFirst(path: string, part: string, rest: string)
    requires part != ""
    ensures Prefixed(path, part + rest) == Prefixed(path, part) + rest
  {
    assert path + "." + (part + rest) == path + "." + part + rest;
  }

  lemma KeyedAppend(path: string, a: seq<Position>, b: seq<Position>)
    requires (forall p | p in a :: p.hops != []) && (forall p | p in b :: p.hops != [])
    ensures Keyed(path, a + b) == Keyed(path, a) + Keyed(path, b)
  {
    hide KeyOf;
  }

  lemma KeyedBelowAppend(path: string, a: seq<Below>, b: seq<Below>)
    requires (forall p | p in a :: p.position.hops != []) && (forall p | p in b :: p.position.hops != [])
    ensures KeyedBelow(path, a + b) == KeyedBelow(path, a) + KeyedBelow(path, b)
  {
    hide KeyOf, Brackets;
  }

  lemma KeyedInStruct(path: string, ps: seq<Position>)
    requires path != "" && forall p | p in ps :: p.hops != []
    ensures KeyedBelow(path, InStruct(ps)) == Keyed(path, ps)
  {
    hide KeyOf;
    forall i | 0 <= i < |ps| ensures KeyedBelow(path, InStruct(ps))[i] == Keyed(path, ps)[i] {
      assert path + Brackets(0) == path;
    }
  }

  lemma KeyedInList(path: string, bs: seq<Below>)
    requires forall b | b in bs :: b.position.hops != []
    ensures KeyedBelow(path, InList(bs)) == KeyedBelow(path + "[]", bs)
  {
    hide KeyOf;
    forall i | 0 <= i < |bs| ensures KeyedBelow(path, InList(bs))[i] == KeyedBelow(path + "[]", bs)[i] {
      assert path + ("[]" + Brackets(bs[i].lists)) == path + "[]" + Brackets(bs[i].lists);
    }
  }

  /** What a struct captures is its positions, in order, each under its key. */
  lemma {:induction false} CapturesAreKeyed(fields: Fields, path: string)
    ensures CapturesOfFields(fields, path) == Keyed(path, FieldPositions(fields))
    decreases fields, 0
  {
    hide KeyOf, Brackets, PositionsBelow, Captures;
    match fields {
      case End =>
      case More(id, value, others) =>
        var p, ps := Position([Hop(id, 0)], value), UnderField(id, PositionsBelow(value));
        DecimalIsNotEmpty(id);
        CapturesBelowAreKeyed(value, Prefixed(path, Decimal(id)));
        KeyedUnderField(path, id, PositionsBelow(value));
        CapturesAreKeyed(others, path);
        KeyedAppend(path, ps, [p]);
        KeyedAppend(path, ps + [p], FieldPositions(others));
        OneHop(id);
        assert Keyed(path, [p]) == [(Prefixed(path, Decimal(id)), CaptureOf(value))];
    }
  }

  lemma OneHop(id: int)
    ensures KeyOf([Hop(id, 0)]) == Decimal(id)
  {
    assert Decimal(id) + Brackets(0) == Decimal(id);
  }

  lemma {:induction false} CapturesBelowAreKeyed(v: Value, path: string)
    requires path != ""
    ensures Captures(v, path) == KeyedBelow(path, PositionsBelow(v))
    decreases v, 0
  {
    hide KeyOf, Brackets, FieldPositions, ItemsBelow, CapturesOfFields, CapturesOfItems;
    match v {
      case StructValue(fields) =>
        CapturesAreKeyed(fields, path);
        KeyedInStruct(path, FieldPositions(fields));
      case ListValue(_, items) =>
        CapturesOfItemsAreKeyed(items, path + "[]");
        KeyedInList(path, ItemsBelow(items));
      case _ =>
    }
  }

  lemma {:induction false} CapturesOfItemsAreKeyed(items: seq<Value>, path: string)
    requires path != ""
    ensures CapturesOfItems(items, path) == KeyedBelow(path, ItemsBelow(items))
    decreases items, 0
  {
    hide KeyOf, Brackets, PositionsBelow, Captures;
    if items != [] {
      CapturesBelowAreKeyed(items[0], path);
      CapturesOfItemsAreKeyed(items[1..], path);
      KeyedBelowAppend(path, PositionsBelow(items[0]), ItemsBelow(items[1..]));
    }
  }

  // ---- Keys determine positions ----

  /** The number that decimal digits denote. */
  function NumberOf(digits: string): int {
    if digits == "" then 0 else NumberOf(digits[..|digits| - 1]) * 10 + (digits[|digits| - 1] as int - '0' as int)
  }

  predicate IsDigits(s: string) {
    forall c | c in s :: '0' <= c <= '9'
  }

  lemma {:induction false} DecimalDenotes(n: nat)
    ensures IsDigits(Decimal(n)) && NumberOf(Decimal(n)) == n
    ensures n > 0 ==> Decimal(n)[0] != '0'
  {
    if n < 10 {
      assert Decimal(n)[..0] == "";
    } else {
      DecimalDenotes(n / 10);
      var s := Decimal(n);
      assert s[..|s| - 1] == Decimal(n / 10) && s[|s| - 1] == Digit(n % 10);
    }
  }

  lemma EndsNoLater(a: string, x: string, b: string, y: string, c: char)
    requires a + x == b + y && c !in b && (x == "" || x[0] == c)
    ensures |b| <= |a|
  {
    assert forall i | 0 <= i < |b| :: (b + y)[i] == b[i] && b[i] in b;
    if x == "" {
      assert |a + x| == |a|;
    } else {
      assert (a + x)[|a|] == c;
    }
  }

  /** What comes before the first occurrence of a character is determined. */
  lemma SplitIsUnique(a: string, x: string, b: string, y: string, c: char)
    requires a + x == b + y && c !in a && c !in b
    requires (x == "" || x[0] == c) && (y == "" || y[0] == c)
    ensures a == b && x == y
  {
    EndsNoLater(a, x, b, y, c);
    EndsNoLater(b, y, a, x, c);
    assert a == (a + x)[..|a|] && b == (b + y)[..|b|] && x == (a + x)[|a|..] && y == (b + y)[|b|..];
  }

  lemma {:induction false} BracketsAre(n: nat)
    ensures |Brackets(n)| == 2 * n && '.' !in Brackets(n)
    ensures n > 0 ==> Brackets(n)[0] == '['
  {
    if n > 0 {
      BracketsAre(n - 1);
    }
  }

  lemma PartIsUnique(g: Hop, h: Hop)
    requires g.id >= 0 && h.id >= 0 && PartOf(g) == PartOf(h)
    ensures g == h
  {
    DecimalDenotes(g.id);
    DecimalDenotes(h.id);
    BracketsAre(g.lists);
    BracketsAre(h.lists);
    SplitIsUnique(Decimal(g.id), Brackets(g.lists), Decimal(h.id), Brackets(h.lists), '[');
  }

  lemma NoDotInPart(h: Hop)
    requires h.id >= 0
    ensures '.' !in PartOf(h)
  {
    DecimalDenotes(h.id);
    BracketsAre(h.lists);
  }

  predicate Counted(hops: seq<Hop>) {
    forall h | h in hops :: h.id >= 0
  }

  function RestOf(hops: seq<Hop>): string
    requires hops != []
  {
    if |hops| == 1 then "" else "." + KeyOf(hops[1..])
  }

  lemma {:induction false} KeyIsUnique(a: seq<Hop>, b: seq<Hop>)
    requires a != [] && b != [] && Counted(a) && Counted(b) && KeyOf(a) == KeyOf(b)
    ensures a == b
    decreases |a|
  {
    hide PartOf, KeyOf, RestOf;
    NoDotInPart(a[0]);
    NoDotInPart(b[0]);
    KeySplits(a);
    KeySplits(b);
    SplitIsUnique(PartOf(a[0]), RestOf(a), PartOf(b[0]), RestOf(b), '.');
    PartIsUnique(a[0], b[0]);
    if |a| > 1 {
      KeyIsUnique(a[1..], b[1..]);
      assert a == [a[0]] + a[1..] && b == [b[0]] + b[1..];
    }
  }

  lemma KeySplits(hops: seq<Hop>)
    requires hops != []
    ensures KeyOf(hops) == PartOf(hops[0]) + RestOf(hops)
    ensures RestOf(hops) == "" <==> |hops| == 1
    ensures |hops| > 1 ==> RestOf(hops)[0] == '.' && RestOf(hops)[1..] == KeyOf(hops[1..])
  {
    hide PartOf;
    assert PartOf(hops[0]) + "" == PartOf(hops[0]);
  }

  // ---- When two fields have the same key ----

  ghost predicate DistinctHops(ps: seq<Position>) {
    forall i, j | 0 <= i < j < |ps| :: ps[i].hops != ps[j].hops
  }

  /** In a tree that some bytes denote every id is positive, and at the top above `previous`. */
  lemma {:induction false} HopsAreCounted(fields: Fields, previous: int)
    requires previous >= 0 && FieldsEncodable(fields, previous)
    ensures forall p | p in FieldPositions(fields) :: Counted(p.hops) && p.hops[0].id > previous
    decreases fields, 0
  {
    hide PositionsBelow, Pow128, Encodable;
    match fields {
      case End =>
      case More(id, value, others) =>
        HopsBelowAreCounted(value);
        HopsAreCounted(others, id);
        var bs := PositionsBelow(value);
        forall p | p in UnderField(id, bs) ensures Counted(p.hops) && p.hops[0].id > previous {
          var i :| 0 <= i < |bs| && UnderField(id, bs)[i] == p;
          assert bs[i] in bs;
        }
    }
  }

  lemma {:induction false} HopsBelowAreCounted(v: Value)
    requires Encodable(v)
    ensures forall b | b in PositionsBelow(v) :: Counted(b.position.hops)
    decreases v, 0
  {
    hide Pow128, FieldPositions, ItemsBelow, Counted;
    match v {
      case StructValue(fields) => HopsAreCounted(fields, 0);
      case ListValue(_, items) => HopsOfItemsAreCounted(items);
      case _ =>
    }
  }

  lemma {:induction false} HopsOfItemsAreCounted(items: seq<Value>)
    requires forall item | item in items :: Encodable(item)
    ensures forall b | b in ItemsBelow(items) :: Counted(b.position.hops)
    decreases items, 0
  {
    hide PositionsBelow, Counted, Encodable;
    if items != [] {
      HopsBelowAreCounted(items[0]);
      HopsOfItemsAreCounted(items[1..]);
    }
  }

  /** Two fields collide exactly when they are reached by the same ids through equally many lists: they are in
      different items of a list.  Nothing else makes two paths equal. */
  lemma PathsRepeatLikePositions(fields: Fields)
    requires FieldsEncodable(fields, 0)
    ensures NoRepeatedPath(CapturesOfFields(fields, "")) <==> DistinctHops(FieldPositions(fields))
  {
    hide FieldPositions, CapturesOfFields, FieldsEncodable, KeyOf, Counted;
    CapturesAreKeyed(fields, "");
    HopsAreCounted(fields, 0);
    var ps := FieldPositions(fields);
    var cs := Keyed("", ps);
    forall i, j | 0 <= i < j < |ps| ensures cs[i].0 == cs[j].0 <==> ps[i].hops == ps[j].hops {
      assert ps[i] in ps && ps[j] in ps;
      if cs[i].0 == cs[j].0 {
        KeyIsUnique(ps[i].hops, ps[j].hops);
      }
    }
  }

  /** No list of the tree leads to a struct. */
  predicate NoStructUnderList(fields: Fields)
    decreases fields, 0
  {
    match fields
    case End => true
    case More(_, value, others) => ListsAreFlat(value) && NoStructUnderList(others)
  }

  predicate ListsAreFlat(v: Value)
    decreases v, 0
  {
    match v
    case StructValue(fields) => NoStructUnderList(fields)
    case ListValue(_, items) => forall item | item in items :: HasNoStruct(item)
    case _ => true
  }

  predicate HasNoStruct(v: Value) {
    match v
    case StructValue(_) => false
    case ListValue(_, items) => forall item | item in items :: HasNoStruct(item)
    case _ => true
  }

  lemma {:induction false} NothingBelow(v: Value)
    requires HasNoStruct(v)
    ensures PositionsBelow(v) == []
    decreases v, 0
  {
    if v.ListValue? {
      NothingBelowItems(v.items);
    }
  }

  lemma {:induction false} NothingBelowItems(items: seq<Value>)
    requires forall item | item in items :: HasNoStruct(item)
    ensures ItemsBelow(items) == []
    decreases items, 0
  {
    if items != [] {
      NothingBelow(items[0]);
      NothingBelowItems(items[1..]);
    }
  }

  lemma {:induction false} FlatHopsAreDistinct(fields: Fields, previous: int)
    requires previous >= 0 && FieldsEncodable(fields, previous) && NoStructUnderList(fields)
    ensures DistinctHops(FieldPositions(fields))
    decreases fields, 0
  {
    hide PositionsBelow, Pow128, Encodable, ListsAreFlat, Counted;
    match fields {
      case End =>
      case More(id, value, others) =>
        FlatHopsBelowAreDistinct(id, value);
        FlatHopsAreDistinct(others, id);
        HopsAreCounted(others, id);
        OneMoreField(UnderField(id, PositionsBelow(value)), Position([Hop(id, 0)], value), FieldPositions(others), id);
    }
  }

  /** The positions under one field, the field itself, and those of later fields do not meet. */
  lemma OneMoreField(under: seq<Position>, p: Position, others: seq<Position>, id: int)
    requires DistinctHops(under) && DistinctHops(others) && p.hops == [Hop(id, 0)]
    requires forall q | q in under :: |q.hops| >= 2 && q.hops[0].id == id
    requires forall q | q in others :: q.hops != [] && q.hops[0].id > id
    ensures DistinctHops(under + [p] + others)
  {
    var all := under + [p] + others;
    forall i, j | 0 <= i < j < |all| ensures all[i].hops != all[j].hops {
      assert i < |under| ==> all[i] in under;
      assert j < |under| ==> all[j] in under;
      assert i > |under| ==> all[i] in others;
      assert j > |under| ==> all[j] in others;
      if i > |under| {
        assert all[i] == others[i - |under| - 1] && all[j] == others[j - |under| - 1];
      }
    }
  }

  lemma {:induction false} FlatHopsBelowAreDistinct(id: int, v: Value)
    requires Encodable(v) && ListsAreFlat(v)
    ensures DistinctHops(UnderField(id, PositionsBelow(v)))
    ensures forall q | q in UnderField(id, PositionsBelow(v)) :: |q.hops| >= 2 && q.hops[0].id == id
    decreases v, 0
  {
    hide Pow128, FieldPositions;
    match v {
      case StructValue(fields) =>
        FlatHopsAreDistinct(fields, 0);
        var ps, under := FieldPositions(fields), UnderField(id, PositionsBelow(v));
        forall i, j | 0 <= i < j < |ps| ensures under[i].hops != under[j].hops {
          assert under[i].hops[1..] == ps[i].hops && under[j].hops[1..] == ps[j].hops;
        }
        forall q | q in under ensures |q.hops| >= 2 && q.hops[0].id == id {
          var i :| 0 <= i < |under| && under[i] == q;
          assert ps[i] in ps;
        }
      case ListValue(_, items) => NothingBelowItems(items);
      case _ =>
    }
  }

  /** So without a struct under a list no path is ever repeated. */
  lemma FlatTreesNeverRepeat(fields: Fields)
    requires FieldsEncodable(fields, 0) && NoStructUnderList(fields)
    ensures NoRepeatedPath(CapturesOfFields(fields, ""))
  {
    hide FieldPositions, CapturesOfFields, FieldsEncodable, NoStructUnderList, DistinctHops, NoRepeatedPath;
    FlatHopsAreDistinct(fields, 0);
    PathsRepeatLikePositions(fields);
  }

  // ---- What a captured map says ----

  /** Every field is in the map under its key with its type and scalar, and the map has no other key. */
  ghost predicate CapturesFields(m: map<string, Captured>, fields: Fields) {
    && (forall p | p in FieldPositions(fields) :: KeyOf(p.hops) in m && m[KeyOf(p.hops)] == CaptureOf(p.value))
    && (forall key | key in m :: exists p :: p in FieldPositions(fields) && KeyOf(p.hops) == key)
  }

  lemma HeldMapsCaptureFields(m: map<string, Captured>, fields: Fields)
    requires Holds(m, CapturesOfFields(fields, ""))
    ensures CapturesFields(m, fields)
  {
    hide FieldPositions, CapturesOfFields, KeyOf, CaptureOf;
    CapturesAreKeyed(fields, "");
    var ps, cs := FieldPositions(fields), CapturesOfFields(fields, "");
    forall p | p in ps ensures KeyOf(p.hops) in m && m[KeyOf(p.hops)] == CaptureOf(p.value) {
      var i :| 0 <= i < |ps| && ps[i] == p;
      assert cs[i] == (KeyOf(p.hops), CaptureOf(p.value));
    }
    forall key | key in m ensures exists p :: p in ps && KeyOf(p.hops) == key {
      var i :| 0 <= i < |cs| && cs[i].0 == key;
      assert ps[i] in ps && KeyOf(ps[i].hops) == key;
    }
  }

  /** The header byte of each kind of field, and the scalar captured with it, if any. */
  lemma CaptureIs(v: Value)
    ensures match v
            case Bool(flag) => CaptureOf(v) == Captured(if flag then 1 else 2, Some(Flag(flag)))
            case I8Value(byte) => CaptureOf(v) == Captured(3, Some(Number(byte)))
            case I16Value(n) => CaptureOf(v) == Captured(4, Some(Number(n)))
            case I32Value(n) => CaptureOf(v) == Captured(5, Some(Number(n)))
            case I64Value(n) => CaptureOf(v) == Captured(6, Some(BigInt(n)))
            case DoubleValue(_) => CaptureOf(v) == Captured(7, None)
            case BinaryValue(_) => CaptureOf(v) == Captured(8, None)
            case ListValue(_, _) => CaptureOf(v) == Captured(9, None)
            case StructValue(_) => CaptureOf(v) == Captured(12, None)
  {
  }
}
