/** The budgets of the preflight scan read off a flat list of everything in a tree, instead of off its nesting. */
module CompactThriftNodes {
  import opened Text
  import opened CompactThrift
  import opened CompactThriftBudgets
  import opened CompactThriftPaths
  import opened CompactThriftPreflight

  /** A field's value or a list item, with the depth the scanner meets it at. */
  datatype Node = Node(value: Value, depth: int)

  function Nodes(fields: Fields, depth: int): seq<Node>
    decreases fields, 0
  {
    match fields
    case End => []
    case More(_, value, others) => NodesOf(value, depth) + Nodes(others, depth)
  }

  function NodesOf(v: Value, depth: int): seq<Node>
    decreases v, 1
  {
    [Node(v, depth)] +
    match v
    case ListValue(_, items) => NodesOfItems(items, depth + 1)
    case StructValue(fields) => Nodes(fields, depth + 1)
    case _ => []
  }

  function NodesOfItems(items: seq<Value>, depth: int): seq<Node>
    decreases items, 0
  {
    if items == [] then [] else NodesOf(items[0], depth) + NodesOfItems(items[1..], depth)
  }

  // ---- Totals ----

  function ItemsIn(ns: seq<Node>): nat {
    if ns == [] then 0 else (if ns[0].value.ListValue? then |ns[0].value.items| else 0) + ItemsIn(ns[1..])
  }

  function StructsIn(ns: seq<Node>): nat {
    if ns == [] then 0 else (if ns[0].value.StructValue? then 1 else 0) + StructsIn(ns[1..])
  }

  function ListsIn(ns: seq<Node>): nat {
    if ns == [] then 0 else (if ns[0].value.ListValue? then 1 else 0) + ListsIn(ns[1..])
  }

  lemma {:induction false} TotalsAppend(a: seq<Node>, b: seq<Node>)
    ensures ItemsIn(a + b) == ItemsIn(a) + ItemsIn(b)
    ensures StructsIn(a + b) == StructsIn(a) + StructsIn(b)
    ensures ListsIn(a + b) == ListsIn(a) + ListsIn(b)
  {
    if a == [] {
      assert a + b == b;
    } else {
      assert (a + b)[1..] == a[1..] + b;
      TotalsAppend(a[1..], b);
    }
  }

  ghost predicate Tallies(ns: seq<Node>, c: Count) {
    c.elements == ItemsIn(ns) && c.structs == StructsIn(ns) && c.lists == ListsIn(ns)
  }

  lemma TalliesAppend(a: seq<Node>, b: seq<Node>, c: Count, d: Count)
    requires Tallies(a, c) && Tallies(b, d)
    ensures Tallies(a + b, Plus(c, d))
  {
    TotalsAppend(a, b);
  }

  lemma {:induction false} FieldsTally(fields: Fields, depth: int)
    ensures Tallies(Nodes(fields, depth), CountOfFields(fields))
    decreases fields, 0
  {
    hide NodesOf, CountOf, Tallies, TallyParts;
    match fields {
      case End => NothingTallies();
      case More(_, value, others) =>
        ValueTallies(value, depth);
        FieldsTally(others, depth);
        TalliesAppend(NodesOf(value, depth), Nodes(others, depth), CountOf(value), CountOfFields(others));
        SameTally(Nodes(fields, depth), Plus(CountOf(value), CountOfFields(others)), CountOfFields(fields));
    }
  }

  predicate TallyParts(c: Count, d: Count) {
    c.elements == d.elements && c.structs == d.structs && c.lists == d.lists
  }

  lemma SameTally(ns: seq<Node>, c: Count, d: Count)
    requires Tallies(ns, c) && TallyParts(c, d)
    ensures Tallies(ns, d)
  {
  }

  lemma NothingTallies()
    ensures Tallies([], ZERO)
  {
  }

  lemma {:induction false} ValueTallies(v: Value, depth: int)
    ensures Tallies(NodesOf(v, depth), CountOf(v))
    decreases v, 1
  {
    hide Nodes, NodesOfItems, CountOfFields, CountOfItems;
    var own := [Node(v, depth)];
    assert own[1..] == [] && ItemsIn([]) == 0 && StructsIn([]) == 0 && ListsIn([]) == 0;
    match v {
      case ListValue(_, items) =>
        ItemsTally(items, depth + 1);
        TalliesAppend(own, NodesOfItems(items, depth + 1), Count(|items|, 0, 0, 1), CountOfItems(items));
      case StructValue(fields) =>
        FieldsTally(fields, depth + 1);
        TalliesAppend(own, Nodes(fields, depth + 1), Count(0, 0, 1, 0), CountOfFields(fields));
      case _ =>
        assert Tallies(own, ZERO);
        assert NodesOf(v, depth) == own;
    }
  }

  lemma {:induction false} ItemsTally(items: seq<Value>, depth: int)
    ensures Tallies(NodesOfItems(items, depth), CountOfItems(items))
    decreases items, 0
  {
    hide NodesOf, CountOf, Tallies;
    if items == [] {
      NothingTallies();
    } else {
      ValueTallies(items[0], depth);
      ItemsTally(items[1..], depth);
      TalliesAppend(NodesOf(items[0], depth), NodesOfItems(items[1..], depth), CountOf(items[0]), CountOfItems(items[1..]));
    }
  }

  /** There are as many positions as fields. */
  lemma {:induction false} FieldsHavePositions(fields: Fields)
    ensures |FieldPositions(fields)| == CountOfFields(fields).fields
    decreases fields, 0
  {
    match fields {
      case End =>
      case More(_, value, others) =>
        FieldsBelowHavePositions(value);
        FieldsHavePositions(others);
    }
  }

  lemma {:induction false} FieldsBelowHavePositions(v: Value)
    ensures |PositionsBelow(v)| == CountOf(v).fields
    decreases v, 0
  {
    match v {
      case StructValue(fields) => FieldsHavePositions(fields);
      case ListValue(_, items) => FieldsOfItemsHavePositions(items);
      case _ =>
    }
  }

  lemma {:induction false} FieldsOfItemsHavePositions(items: seq<Value>)
    ensures |ItemsBelow(items)| == CountOfItems(items).fields
    decreases items, 0
  {
    if items != [] {
      FieldsBelowHavePositions(items[0]);
      FieldsOfItemsHavePositions(items[1..]);
    }
  }

  // ---- Shape ----

  predicate NodeFits(n: Node, limits: Limits) {
    && n.depth <= limits.maxDepth
    && (n.value.StructValue? ==> n.depth + 1 <= limits.maxDepth)
    && (n.value.ListValue? ==> |n.value.items| <= limits.maxCollectionLength)
    && (n.value.BinaryValue? ==> |n.value.bytes| <= limits.maxBinaryLength)
  }

  predicate AllFit(ns: seq<Node>, limits: Limits) {
    forall n | n in ns :: NodeFits(n, limits)
  }

  lemma AllFitAppend(a: seq<Node>, b: seq<Node>, limits: Limits)
    ensures AllFit(a + b, limits) <==> AllFit(a, limits) && AllFit(b, limits)
  {
    hide NodeFits;
    assert forall n :: n in a + b <==> n in a || n in b;
  }

  lemma {:induction false} FieldsFit(fields: Fields, depth: int, limits: Limits)
    ensures FieldsShaped(fields, depth, limits) <==> AllFit(Nodes(fields, depth), limits)
    decreases fields, 0
  {
    hide NodesOf, Shaped, NodeFits, AllFit;
    match fields {
      case End => NothingMisfits(limits);
      case More(_, value, others) =>
        ValueFits(value, depth, limits);
        FieldsFit(others, depth, limits);
        AllFitAppend(NodesOf(value, depth), Nodes(others, depth), limits);
    }
  }

  lemma NothingMisfits(limits: Limits)
    ensures AllFit([], limits)
  {
  }

  lemma OneFits(n: Node, limits: Limits)
    ensures AllFit([n], limits) <==> NodeFits(n, limits)
  {
    assert n in [n];
  }

  lemma {:induction false} ValueFits(v: Value, depth: int, limits: Limits)
    ensures Shaped(v, depth, limits) <==> AllFit(NodesOf(v, depth), limits)
    decreases v, 1
  {
    hide Nodes, NodesOfItems, FieldsShaped, AllFit;
    OneFits(Node(v, depth), limits);
    match v {
      case ListValue(_, items) =>
        ItemsFit(items, depth + 1, limits);
        AllFitAppend([Node(v, depth)], NodesOfItems(items, depth + 1), limits);
      case StructValue(fields) =>
        FieldsFit(fields, depth + 1, limits);
        AllFitAppend([Node(v, depth)], Nodes(fields, depth + 1), limits);
      case _ => assert NodesOf(v, depth) == [Node(v, depth)];
    }
  }

  lemma {:induction false} ItemsFit(items: seq<Value>, depth: int, limits: Limits)
    ensures (forall item | item in items :: Shaped(item, depth, limits)) <==> AllFit(NodesOfItems(items, depth), limits)
    decreases items, 0
  {
    hide NodesOf, Shaped, NodeFits, AllFit;
    if items == [] {
      NothingMisfits(limits);
    } else {
      ValueFits(items[0], depth, limits);
      ItemsFit(items[1..], depth, limits);
      AllFitAppend(NodesOf(items[0], depth), NodesOfItems(items[1..], depth), limits);
      assert forall item :: item in items <==> item == items[0] || item in items[1..];
    }
  }

  // ---- The budgets ----

  /** The six budgets, and the map: every node within its own limits, the totals over all nodes within theirs
      (a list total only counts if there is a list, a field total only if there is a field), one struct for the
      root, and, when capturing, no two fields reached in the same way. */
  lemma BudgetsAreTotals(fields: Fields, limits: Limits)
    requires FieldsEncodable(fields, 0)
    ensures var ns, ps := Nodes(fields, 0), FieldPositions(fields);
            WithinBudgets(fields, limits) <==>
              && 0 <= limits.maxDepth
              && AllFit(ns, limits)
              && (ListsIn(ns) > 0 ==> ItemsIn(ns) <= limits.maxTotalCollectionElements)
              && (|ps| > 0 ==> |ps| <= limits.maxTotalFields)
              && 1 + StructsIn(ns) <= limits.maxTotalStructs
              && (limits.captureFields ==> DistinctHops(ps))
  {
    hide Nodes, FieldPositions, AllFit, DistinctHops, FieldsEncodable, FieldsShaped, NoRepeatedPath, CapturesOfFields, CountOfFields;
    FieldsTally(fields, 0);
    NoItemsWithoutLists(Nodes(fields, 0));
    FieldsHavePositions(fields);
    FieldsFit(fields, 0, limits);
    PathsRepeatLikePositions(fields);
  }

  lemma {:induction false} NoItemsWithoutLists(ns: seq<Node>)
    ensures ItemsIn(ns) > 0 ==> ListsIn(ns) > 0
  {
    if ns != [] {
      NoItemsWithoutLists(ns[1..]);
    }
  }
}
