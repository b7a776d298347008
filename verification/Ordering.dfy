/** Total orders on strings and the sorting they drive.

    JavaScript compares strings by UTF-16 code unit, and PostgreSQL's "C" collation compares them
    byte by byte; on the ASCII keys the catalog sorts, both are the lexicographic order below. */
module Ordering {

  /** The sign of the result orders two code unit sequences: the first differing unit decides,
      and otherwise the shorter sequence comes first. */
  function Compare(left: seq<int>, right: seq<int>): (difference: int)
    decreases |left|
  {
    if left == [] || right == [] then |left| - |right|
    else if left[0] != right[0] then left[0] - right[0]
    else Compare(left[1..], right[1..])
  }

  /** Lexicographic order: a proper prefix comes first, and otherwise the first difference decides. */
  ghost predicate Precedes(a: seq<int>, b: seq<int>) {
    IsProperPrefix(a, b) || exists k :: DifferAt(a, b, k) && a[k] < b[k]
  }

  predicate IsProperPrefix(a: seq<int>, b: seq<int>) {
    |a| < |b| && b[..|a|] == a
  }

  predicate DifferAt(a: seq<int>, b: seq<int>, k: int) {
    0 <= k < |a| && k < |b| && a[..k] == b[..k] && a[k] != b[k]
  }

  /** The comparison is negative exactly when the left sequence precedes the right one. */
  lemma CompareIsLexicographic(a: seq<int>, b: seq<int>)
    ensures Compare(a, b) < 0 <==> Precedes(a, b)
    ensures Compare(a, b) == 0 <==> a == b
  {
    CompareIsTotalOrder(a, b, b);
    if a != b {
      FirstDifference(a, b);
    }
  }

  /** What the comparison returns: the first difference, or the difference in length. */
  lemma {:induction false} FirstDifference(a: seq<int>, b: seq<int>)
    ensures IsProperPrefix(a, b) || IsProperPrefix(b, a) || a == b || exists k :: DifferAt(a, b, k)
    ensures IsProperPrefix(a, b) || IsProperPrefix(b, a) ==> Compare(a, b) == |a| - |b|
    ensures forall k | DifferAt(a, b, k) :: Compare(a, b) == a[k] - b[k]
    ensures forall k | DifferAt(a, b, k) :: !IsProperPrefix(a, b) && !IsProperPrefix(b, a)
  {
    hide IsProperPrefix, Compare;
    forall k | DifferAt(a, b, k)
      ensures Compare(a, b) == a[k] - b[k] && !IsProperPrefix(a, b) && !IsProperPrefix(b, a)
    {
      DifferenceDecides(a, b, k);
      DifferenceIsNoPrefix(a, b, k);
    }
    FirstDifferenceExists(a, b);
  }

  lemma DifferenceIsNoPrefix(a: seq<int>, b: seq<int>, k: int)
    requires DifferAt(a, b, k)
    ensures !IsProperPrefix(a, b) && !IsProperPrefix(b, a)
  {
    assert |a| <= |b| ==> b[..|a|][k] != a[k];
    assert |b| <= |a| ==> a[..|b|][k] != b[k];
  }

  lemma {:induction false} FirstDifferenceExists(a: seq<int>, b: seq<int>)
    ensures IsProperPrefix(a, b) || IsProperPrefix(b, a) || a == b || exists k :: DifferAt(a, b, k)
    ensures IsProperPrefix(a, b) || IsProperPrefix(b, a) ==> Compare(a, b) == |a| - |b|
    decreases |a|
  {
    hide DifferAt;
    if a != [] && b != [] && a[0] == b[0] {
      var s, t := a[1..], b[1..];
      FirstDifferenceExists(s, t);
      PrefixesOfTails(a, b);
      PrefixesOfTails(b, a);
      assert a == [a[0]] + s && b == [a[0]] + t;
      hide IsProperPrefix;
      if k :| DifferAt(s, t, k) {
        DifferenceOfTails(a, b, k);
      }
    } else if a != [] && b != [] {
      assert DifferAt(a, b, 0) by { HeadsDiffer(a, b); }
      DifferenceIsNoPrefix(a, b, 0);
    }
  }

  lemma HeadsDiffer(a: seq<int>, b: seq<int>)
    requires a != [] && b != [] && a[0] != b[0]
    ensures DifferAt(a, b, 0)
  {
  }

  lemma DifferenceOfTails(a: seq<int>, b: seq<int>, k: int)
    requires a != [] && b != [] && a[0] == b[0] && DifferAt(a[1..], b[1..], k)
    ensures DifferAt(a, b, k + 1)
  {
    assert a[..k + 1] == [a[0]] + a[1..][..k] && b[..k + 1] == [b[0]] + b[1..][..k];
  }

  lemma PrefixesOfTails(a: seq<int>, b: seq<int>)
    requires a != [] && b != [] && a[0] == b[0]
    ensures IsProperPrefix(a, b) <==> IsProperPrefix(a[1..], b[1..])
  {
    if |a| < |b| {
      assert b[..|a|] == [b[0]] + b[1..][..|a| - 1];
      assert a == [a[0]] + a[1..];
    }
  }

  lemma {:induction false} DifferenceDecides(a: seq<int>, b: seq<int>, k: nat)
    requires DifferAt(a, b, k)
    ensures Compare(a, b) == a[k] - b[k]
    decreases k
  {
    if k > 0 {
      assert a[0] == a[..k][0] == b[..k][0] == b[0];
      assert a[1..][..k - 1] == a[..k][1..] && b[1..][..k - 1] == b[..k][1..];
      DifferenceDecides(a[1..], b[1..], k - 1);
    }
  }

  /** `compareJcsUtf16`, as the source writes it: one pass over the common length. */
  method CompareJcsUtf16(left: seq<int>, right: seq<int>) returns (difference: int)
    ensures difference == Compare(left, right)
    ensures difference < 0 <==> Precedes(left, right)
    ensures difference > 0 <==> Precedes(right, left)
    ensures difference == 0 <==> left == right
  {
    CompareIsLexicographic(left, right);
    CompareIsLexicographic(right, left);
    CompareIsTotalOrder(left, right, left);
    hide Precedes;
    var length := if |left| < |right| then |left| else |right|;
    var index := 0;
    while index < length
      invariant 0 <= index <= length
      invariant Compare(left, right) == Compare(left[index..], right[index..])
    {
      difference := left[index] - right[index];
      if difference != 0 {
        return;
      }
      index := index + 1;
    }
    return |left| - |right|;
  }

  predicate AtMost(left: seq<int>, right: seq<int>) {
    Compare(left, right) <= 0
  }

  /** The comparison is a strict total order: zero exactly on equal sequences, antisymmetric in
      sign, and transitive. */
  lemma {:induction false} CompareIsTotalOrder(a: seq<int>, b: seq<int>, c: seq<int>)
    ensures Compare(a, b) == 0 <==> a == b
    ensures Compare(a, b) < 0 <==> Compare(b, a) > 0
    ensures Compare(a, b) <= 0 && Compare(b, c) <= 0 ==> Compare(a, c) <= 0
    ensures Compare(a, b) < 0 && Compare(b, c) < 0 ==> Compare(a, c) < 0
    decreases |a|
  {
    if a != [] && b != [] && a[0] == b[0] {
      assert a == [a[0]] + a[1..] && b == [b[0]] + b[1..];
      CompareIsTotalOrder(a[1..], b[1..], if c == [] then c else c[1..]);
    }
  }

  // ---- Sorting by a comparison ----

  ghost predicate TotalPreorder<T(!new)>(le: (T, T) -> bool) {
    && (forall x, y :: le(x, y) || le(y, x))
    && (forall x, y, z :: le(x, y) && le(y, z) ==> le(x, z))
  }

  ghost predicate SortedBy<T>(s: seq<T>, le: (T, T) -> bool) {
    forall i, j | 0 <= i < j < |s| :: le(s[i], s[j])
  }

  /** No two distinct elements of `s` tie. */
  ghost predicate NoTies<T>(s: seq<T>, le: (T, T) -> bool) {
    forall x, y | x in s && y in s && le(x, y) && le(y, x) :: x == y
  }

  function Insert<T>(x: T, s: seq<T>, le: (T, T) -> bool): seq<T> {
    if s == [] || le(x, s[0]) then [x] + s else [s[0]] + Insert(x, s[1..], le)
  }

  /** Stable sort. */
  function Sort<T>(s: seq<T>, le: (T, T) -> bool): seq<T> {
    if s == [] then [] else Insert(s[0], Sort(s[1..], le), le)
  }

  lemma {:induction false} InsertKeepsElements<T>(x: T, s: seq<T>, le: (T, T) -> bool)
    ensures multiset(Insert(x, s, le)) == multiset([x] + s)
  {
    if s != [] && !le(x, s[0]) {
      InsertKeepsElements(x, s[1..], le);
      assert s == [s[0]] + s[1..];
    }
  }

  lemma {:induction false} InsertKeepsOrder<T(!new)>(x: T, s: seq<T>, le: (T, T) -> bool)
    requires TotalPreorder(le) && SortedBy(s, le)
    ensures SortedBy(Insert(x, s, le), le)
  {
    if s != [] && !le(x, s[0]) {
      InsertKeepsOrder(x, s[1..], le);
      InsertKeepsElements(x, s[1..], le);
      var tail := Insert(x, s[1..], le);
      assert Insert(x, s, le) == [s[0]] + tail;
      hide Insert;
      forall j | 0 <= j < |tail| ensures le(s[0], tail[j]) {
        assert tail[j] in multiset(tail);
        assert tail[j] in [x] + s[1..];
      }
    }
  }

  lemma {:induction false} SortKeepsElements<T>(s: seq<T>, le: (T, T) -> bool)
    ensures multiset(Sort(s, le)) == multiset(s)
    ensures |Sort(s, le)| == |s|
  {
    if s != [] {
      SortKeepsElements(s[1..], le);
      InsertKeepsElements(s[0], Sort(s[1..], le), le);
      assert s == [s[0]] + s[1..];
    }
    assert |multiset(Sort(s, le))| == |Sort(s, le)| && |multiset(s)| == |s|;
  }

  lemma {:induction false} SortOrders<T(!new)>(s: seq<T>, le: (T, T) -> bool)
    requires TotalPreorder(le)
    ensures SortedBy(Sort(s, le), le)
  {
    if s != [] {
      SortOrders(s[1..], le);
      InsertKeepsOrder(s[0], Sort(s[1..], le), le);
    }
  }

  /** A sorted sequence without ties is determined by its elements. */
  lemma {:induction false} SortedIsUnique<T(!new)>(a: seq<T>, b: seq<T>, le: (T, T) -> bool)
    requires multiset(a) == multiset(b) && SortedBy(a, le) && SortedBy(b, le) && NoTies(a, le)
    requires forall x :: le(x, x)
    ensures a == b
  {
    assert |multiset(a)| == |a| && |multiset(b)| == |b|;
    if a != [] {
      HeadsAgree(a, b, le);
      TailsAgree(a, b);
      TailStaysSorted(a, le);
      TailStaysSorted(b, le);
      assert NoTies(a[1..], le) by {
        assert forall x | x in a[1..] :: x in a;
      }
      hide SortedBy, NoTies;
      SortedIsUnique(a[1..], b[1..], le);
      assert a == [a[0]] + a[1..] && b == [b[0]] + b[1..];
    }
  }

  lemma TailStaysSorted<T>(s: seq<T>, le: (T, T) -> bool)
    requires s != [] && SortedBy(s, le)
    ensures SortedBy(s[1..], le)
  {
  }

  lemma TailsAgree<T>(a: seq<T>, b: seq<T>)
    requires a != [] && b != [] && a[0] == b[0] && multiset(a) == multiset(b)
    ensures multiset(a[1..]) == multiset(b[1..])
  {
    assert a == [a[0]] + a[1..] && b == [b[0]] + b[1..];
    assert multiset(a[1..]) == multiset(a) - multiset{a[0]};
    assert multiset(b[1..]) == multiset(b) - multiset{b[0]};
  }

  lemma HeadsAgree<T(!new)>(a: seq<T>, b: seq<T>, le: (T, T) -> bool)
    requires a != [] && b != []
    requires multiset(a) == multiset(b) && SortedBy(a, le) && SortedBy(b, le) && NoTies(a, le)
    requires forall x :: le(x, x)
    ensures a[0] == b[0]
  {
    assert a[0] in multiset(b) && b[0] in multiset(a);
    var i :| 0 <= i < |b| && b[i] == a[0];
    var j :| 0 <= j < |a| && a[j] == b[0];
    assert le(a[0], a[j]) && le(b[0], b[i]);
    assert a[0] in a && a[j] in a;
  }

  /** Sorting forgets the order of its input: permutations without ties sort alike. */
  lemma SortIgnoresOrder<T(!new)>(a: seq<T>, b: seq<T>, le: (T, T) -> bool)
    requires TotalPreorder(le) && multiset(a) == multiset(b) && NoTies(a, le)
    ensures Sort(a, le) == Sort(b, le)
  {
    SortKeepsElements(a, le);
    SortKeepsElements(b, le);
    SortOrders(a, le);
    SortOrders(b, le);
    forall x | x in Sort(a, le) ensures x in a {
      assert x in multiset(Sort(a, le));
      assert x in multiset(a);
    }
    SortedIsUnique(Sort(a, le), Sort(b, le), le);
  }
}
