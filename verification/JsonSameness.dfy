/** Three notions of sameness agree: equal canonical text, equality up to key order and the sign of
    zero, and the catalog's own comparison of stored JSON. */
module JsonSameness {
  import opened Text
  import opened Json
  import JsonReader
  import Ordering

  // ---- Members of a list ----

  lemma {:induction false} NormalItemAt(items: seq<Json>, i: nat)
    requires i < |items| && forall item | item in items :: WellFormed(item)
    ensures NormalItems(items)[i] == Normal(items[i])
  {
    if i > 0 {
      NormalItemAt(items[1..], i - 1);
    }
  }

  lemma {:induction false} NormalMemberAt(order: seq<JsString>, keys: seq<JsString>, values: seq<Json>, i: nat)
    requires i < |order| && |keys| == |values| && forall key | key in order :: key in keys
    requires forall value | value in values :: WellFormed(value)
    ensures NormalMembers(order, keys, values)[i] == Normal(values[IndexOf(keys, order[i])])
  {
    if i > 0 {
      NormalMemberAt(order[1..], keys, values, i - 1);
    }
  }

  // ---- The normal form determines the text ----

  lemma {:induction false} NormalDeterminesPrint(a: Json, b: Json)
    requires WellFormed(a) && WellFormed(b) && Normal(a) == Normal(b)
    ensures Print(a) == Print(b)
    decreases a, 0
  {
    match a {
      case Arr(items) =>
        assert b.Arr?;
        NormalDeterminesItems(items, b.items);
      case Obj(keys, values) =>
        assert b.Obj?;
        NormalDeterminesMembers(SortKeys(keys), keys, values, b.keys, b.values);
      case _ =>
    }
  }

  lemma {:induction false} NormalDeterminesItems(a: seq<Json>, b: seq<Json>)
    requires (forall item | item in a :: WellFormed(item)) && (forall item | item in b :: WellFormed(item))
    requires NormalItems(a) == NormalItems(b)
    ensures PrintItems(a) == PrintItems(b)
    decreases a, 0
  {
    if a != [] {
      assert |b| == |NormalItems(b)| == |a|;
      assert NormalItems(a)[0] == NormalItems(b)[0] && NormalItems(a)[1..] == NormalItems(b)[1..];
      NormalDeterminesPrint(a[0], b[0]);
      NormalDeterminesItems(a[1..], b[1..]);
    }
  }

  lemma {:induction false} NormalDeterminesMembers(order: seq<JsString>, ak: seq<JsString>, av: seq<Json>,
                                                  bk: seq<JsString>, bv: seq<Json>)
    requires |ak| == |av| && |bk| == |bv| && forall key | key in order :: key in ak && key in bk
    requires (forall value | value in av :: WellFormed(value)) && (forall value | value in bv :: WellFormed(value))
    requires NormalMembers(order, ak, av) == NormalMembers(order, bk, bv)
    ensures PrintMembers(order, ak, av) == PrintMembers(order, bk, bv)
    decreases av, |order|
  {
    if order != [] {
      assert NormalMembers(order, ak, av)[0] == NormalMembers(order, bk, bv)[0];
      assert NormalMembers(order, ak, av)[1..] == NormalMembers(order, bk, bv)[1..];
      NormalDeterminesPrint(av[IndexOf(ak, order[0])], bv[IndexOf(bk, order[0])]);
      NormalDeterminesMembers(order[1..], ak, av, bk, bv);
    }
  }

  /** Canonical JSON is uniquely readable: two values print alike exactly when they are equal up to
      key order and the sign of zero. */
  lemma PrintIsUniquelyReadable(a: Json, b: Json)
    requires WellFormed(a) && WellFormed(b)
    ensures Print(a) == Print(b) <==> Normal(a) == Normal(b)
  {
    JsonReader.ValueRoundTrip(a, []);
    JsonReader.ValueRoundTrip(b, []);
    assert Print(a) + [] == Print(a) && Print(b) + [] == Print(b);
    if Normal(a) == Normal(b) {
      NormalDeterminesPrint(a, b);
    }
  }

  // ---- The catalog's comparison ----

  lemma {:induction false} SetOfDistinct<T>(s: seq<T>)
    requires Distinct(s)
    ensures |set x | x in s| == |s|
  {
    if s != [] {
      SetOfDistinct(s[1..]);
      assert (set x | x in s) == {s[0]} + set x | x in s[1..];
    }
  }

  lemma CountOfDistinct<T>(s: seq<T>, x: T)
    requires Distinct(s)
    ensures multiset(s)[x] == if x in s then 1 else 0
    decreases |s|
  {
    if s != [] {
      assert s == [s[0]] + s[1..];
      CountOfDistinct(s[1..], x);
    }
  }

  /** Distinct keys of equal number, all found on the other side, sort alike. */
  lemma SameKeysSortAlike(a: seq<JsString>, b: seq<JsString>)
    requires Distinct(a) && Distinct(b) && |a| == |b| && forall key | key in a :: key in b
    ensures SortKeys(a) == SortKeys(b)
  {
    var sa, sb := set x | x in a, set x | x in b;
    SetOfDistinct(a);
    SetOfDistinct(b);
    if sa != sb {
      assert sa < sb;
      SubsetIsSmaller(sa, sb);
    }
    forall key ensures multiset(a)[key] == multiset(b)[key] {
      CountOfDistinct(a, key);
      CountOfDistinct(b, key);
      assert key in sa <==> key in sb;
    }
    assert multiset(a) == multiset(b);
    KeysAreTotallyOrdered();
    Ordering.SortIgnoresOrder(a, b, ByUtf16());
  }

  lemma SubsetIsSmaller<T>(a: set<T>, b: set<T>)
    requires a < b
    ensures |a| < |b|
  {
    var extra := b - a;
    assert b == a + extra;
    var x :| x in extra;
    assert |extra| >= |{x}|;
  }

  lemma KeysAreTotallyOrdered()
    ensures Ordering.TotalPreorder(ByUtf16())
    ensures forall x, y :: ByUtf16()(x, y) && ByUtf16()(y, x) ==> x == y
  {
    forall x: JsString, y: JsString, z: JsString {
      Ordering.CompareIsTotalOrder(x, y, z);
    }
  }

  lemma SortedKeysAreSame(a: seq<JsString>, b: seq<JsString>)
    requires SortKeys(a) == SortKeys(b)
    ensures |a| == |b| && forall key | key in a :: key in b
  {
    assert forall key | key in a :: key in SortKeys(a);
  }

  /** `sameJsonValue` decides equality up to key order and the sign of zero. */
  lemma {:induction false} SameJsonIsNormalEquality(a: Json, b: Json)
    requires WellFormed(a) && WellFormed(b)
    ensures SameJson(a, b) <==> Normal(a) == Normal(b)
    decreases a
  {
    match a {
      case Arr(items) =>
        if b.Arr? && |items| == |b.items| {
          SameItemsIsNormalEquality(items, b.items);
        } else if b.Arr? {
          assert |NormalItems(items)| != |NormalItems(b.items)|;
        }
      case Obj(keys, values) =>
        if b.Obj? {
          forall i, j | 0 <= i < |values| && 0 <= j < |b.values|
            ensures SameJson(values[i], b.values[j]) <==> Normal(values[i]) == Normal(b.values[j])
          {
            SameJsonIsNormalEquality(values[i], b.values[j]);
          }
          SameMembersIsNormalEquality(keys, values, b.keys, b.values);
        }
      case _ =>
    }
  }

  lemma {:induction false} SameItemsIsNormalEquality(a: seq<Json>, b: seq<Json>)
    requires |a| == |b|
    requires (forall item | item in a :: WellFormed(item)) && (forall item | item in b :: WellFormed(item))
    ensures (forall i | 0 <= i < |a| :: SameJson(a[i], b[i])) <==> NormalItems(a) == NormalItems(b)
    decreases a
  {
    forall i | 0 <= i < |a|
      ensures SameJson(a[i], b[i]) <==> NormalItems(a)[i] == NormalItems(b)[i]
    {
      SameJsonIsNormalEquality(a[i], b[i]);
      NormalItemAt(a, i);
      NormalItemAt(b, i);
    }
  }

  ghost predicate SameMembers(ak: seq<JsString>, av: seq<Json>, bk: seq<JsString>, bv: seq<Json>)
    requires |ak| == |av| && |bk| == |bv|
  {
    && |ak| == |bk|
    && forall i | 0 <= i < |ak| :: ak[i] in bk && SameJson(av[i], bv[IndexOf(bk, ak[i])])
  }

  lemma SameMembersIsNormalEquality(ak: seq<JsString>, av: seq<Json>, bk: seq<JsString>, bv: seq<Json>)
    requires WellFormed(Obj(ak, av)) && WellFormed(Obj(bk, bv))
    requires forall i, j | 0 <= i < |av| && 0 <= j < |bv| ::
               SameJson(av[i], bv[j]) <==> Normal(av[i]) == Normal(bv[j])
    ensures SameMembers(ak, av, bk, bv) <==> Normal(Obj(ak, av)) == Normal(Obj(bk, bv))
  {
    if SameMembers(ak, av, bk, bv) {
      SameKeysSortAlike(ak, bk);
      SameMembersNormalizeAlike(SortKeys(ak), ak, av, bk, bv);
    } else if Normal(Obj(ak, av)) == Normal(Obj(bk, bv)) {
      SortedKeysAreSame(ak, bk);
      AlikeNormalFormsMatch(SortKeys(ak), ak, av, bk, bv);
    }
  }

  lemma SameMembersNormalizeAlike(order: seq<JsString>, ak: seq<JsString>, av: seq<Json>, bk: seq<JsString>, bv: seq<Json>)
    requires WellFormed(Obj(ak, av)) && WellFormed(Obj(bk, bv)) && SameMembers(ak, av, bk, bv)
    requires forall i, j | 0 <= i < |av| && 0 <= j < |bv| ::
               SameJson(av[i], bv[j]) <==> Normal(av[i]) == Normal(bv[j])
    requires forall key | key in order :: key in ak && key in bk
    ensures NormalMembers(order, ak, av) == NormalMembers(order, bk, bv)
  {
    forall i | 0 <= i < |order| ensures NormalMembers(order, ak, av)[i] == NormalMembers(order, bk, bv)[i] {
      NormalMemberAt(order, ak, av, i);
      NormalMemberAt(order, bk, bv, i);
      var at := IndexOf(ak, order[i]);
      assert SameJson(av[at], bv[IndexOf(bk, ak[at])]);
    }
  }

  lemma AlikeNormalFormsMatch(order: seq<JsString>, ak: seq<JsString>, av: seq<Json>, bk: seq<JsString>, bv: seq<Json>)
    requires WellFormed(Obj(ak, av)) && WellFormed(Obj(bk, bv)) && |ak| == |bk|
    requires forall i, j | 0 <= i < |av| && 0 <= j < |bv| ::
               SameJson(av[i], bv[j]) <==> Normal(av[i]) == Normal(bv[j])
    requires forall key | key in ak :: key in order && key in bk
    requires forall key | key in order :: key in ak && key in bk
    requires NormalMembers(order, ak, av) == NormalMembers(order, bk, bv)
    ensures SameMembers(ak, av, bk, bv)
  {
    forall i | 0 <= i < |ak| ensures ak[i] in bk && SameJson(av[i], bv[IndexOf(bk, ak[i])]) {
      assert ak[i] in order;
      var at :| 0 <= at < |order| && order[at] == ak[i];
      NormalMemberAt(order, ak, av, at);
      NormalMemberAt(order, bk, bv, at);
      assert IndexOf(ak, ak[i]) == i;
    }
  }

  /** So stored JSON is the same as expected JSON exactly when both have the same canonical text;
      the comparison is an equivalence. */
  lemma SameJsonIsSameText(a: Json, b: Json)
    requires WellFormed(a) && WellFormed(b)
    ensures SameJson(a, b) <==> CanonicalJsonV2(a) == CanonicalJsonV2(b)
  {
    SameJsonIsNormalEquality(a, b);
    PrintIsUniquelyReadable(a, b);
  }
}
