/** Keyset pagination: pages cut from a set by rank, each continuing after the last key of the one
    before.  The set may change between pages as long as the keys the query selects do not. */
module Keyset {
  import opened Text
  import Ordering

  /** A total order, as every ORDER BY of the catalog is on the keys it selects. */
  ghost predicate TotalOrder<T(!new)>(le: (T, T) -> bool) {
    && (forall x, y :: le(x, y) || le(y, x))
    && (forall x, y, z :: le(x, y) && le(y, z) ==> le(x, z))
    && (forall x, y :: le(x, y) && le(y, x) ==> x == y)
  }

  ghost predicate IsLeast<T>(m: T, keys: set<T>, le: (T, T) -> bool) {
    m in keys && forall k | k in keys :: le(m, k)
  }

  lemma {:induction false} LeastExists<T(!new)>(keys: set<T>, le: (T, T) -> bool) returns (m: T)
    requires TotalOrder(le) && keys != {}
    ensures IsLeast(m, keys, le)
    decreases |keys|
  {
    var k :| k in keys;
    if keys == {k} {
      m := k;
    } else {
      m := LeastExists(keys - {k}, le);
      if !le(m, k) {
        m := k;
      }
    }
  }

  ghost function Least<T(!new)>(keys: set<T>, le: (T, T) -> bool): (m: T)
    requires TotalOrder(le) && keys != {}
    ensures IsLeast(m, keys, le)
  {
    assert exists m :: IsLeast(m, keys, le) by {
      var m := LeastExists(keys, le);
    }
    var m :| IsLeast(m, keys, le);
    m
  }

  /** ORDER BY: the keys from least to greatest. */
  ghost function Ranked<T(!new)>(keys: set<T>, le: (T, T) -> bool): (r: seq<T>)
    requires TotalOrder(le)
    ensures |r| == |keys|
    decreases |keys|
  {
    if keys == {} then [] else [Least(keys, le)] + Ranked(keys - {Least(keys, le)}, le)
  }

  lemma {:induction false} RankedHasKeys<T(!new)>(keys: set<T>, le: (T, T) -> bool)
    requires TotalOrder(le)
    ensures forall k :: k in Ranked(keys, le) <==> k in keys
    ensures forall i, j | 0 <= i < j < |keys| :: le(Ranked(keys, le)[i], Ranked(keys, le)[j]) && Ranked(keys, le)[i] != Ranked(keys, le)[j]
    decreases |keys|
  {
    hide TotalOrder, Ranked, Least;
    if keys == {} {
      assert |Ranked(keys, le)| == 0;
    } else {
      var m := Least(keys, le);
      RankedHasKeys(keys - {m}, le);
      RankedIsLeastFirst(keys, le);
      var tail := Ranked(keys - {m}, le);
      forall j | 0 <= j < |tail| ensures tail[j] in keys && tail[j] != m {
        assert tail[j] in tail;
      }
    }
  }

  lemma RankedIsLeastFirst<T(!new)>(keys: set<T>, le: (T, T) -> bool)
    requires TotalOrder(le) && keys != {}
    ensures var m := Least(keys, le); Ranked(keys, le) == [m] + Ranked(keys - {m}, le)
  {
    hide TotalOrder, Least;
  }

  /** The seek condition of a query: strictly after the cursor. */
  ghost function After<T(!new)>(keys: set<T>, cursor: Option<T>, le: (T, T) -> bool): set<T> {
    if cursor.None? then keys else set k | k in keys && le(cursor.value, k) && k != cursor.value
  }

  /** Seeking after the key of rank i leaves exactly the keys of higher rank, in order. */
  lemma {:induction false} SeekDropsPrefix<T(!new)>(keys: set<T>, i: nat, le: (T, T) -> bool)
    requires TotalOrder(le) && i < |keys|
    ensures Ranked(After(keys, Some(Ranked(keys, le)[i]), le), le) == Ranked(keys, le)[i + 1..]
    decreases |keys|
  {
    hide TotalOrder;
    var m := Least(keys, le);
    var others := keys - {m};
    assert Ranked(keys, le) == [m] + Ranked(others, le);
    hide Ranked, Least, After, IsLeast;
    if i == 0 {
      AfterLeast(keys, m, le);
    } else {
      var cursor := RankedKey(others, i - 1, le);
      LeastIsPassed(keys, m, cursor, le);
      SeekDropsPrefix(others, i - 1, le);
    }
  }

  lemma RankedKey<T(!new)>(keys: set<T>, i: nat, le: (T, T) -> bool) returns (key: T)
    requires TotalOrder(le) && i < |keys|
    ensures key == Ranked(keys, le)[i] && key in keys
  {
    RankedHasKeys(keys, le);
    key := Ranked(keys, le)[i];
    assert key in Ranked(keys, le);
  }

  lemma AfterLeast<T(!new)>(keys: set<T>, m: T, le: (T, T) -> bool)
    requires IsLeast(m, keys, le)
    ensures After(keys, Some(m), le) == keys - {m}
  {
  }

  lemma LeastIsPassed<T(!new)>(keys: set<T>, m: T, cursor: T, le: (T, T) -> bool)
    requires TotalOrder(le) && IsLeast(m, keys, le) && cursor in keys - {m}
    ensures After(keys, Some(cursor), le) == After(keys - {m}, Some(cursor), le)
  {
    assert le(m, cursor);
  }

  datatype Page<T> = Page(rows: seq<T>, next: Option<T>)

  /** Fetch one more than asked for; if it is there, the last visible key is the next cursor. */
  ghost function PageOf<T(!new)>(keys: set<T>, cursor: Option<T>, limit: nat, le: (T, T) -> bool): Page<T>
    requires TotalOrder(le) && limit > 0
  {
    Cut(Ranked(After(keys, cursor, le), le), limit)
  }

  function Cut<T>(ranked: seq<T>, limit: nat): Page<T>
    requires limit > 0
  {
    if |ranked| > limit then Page(ranked[..limit], Some(ranked[limit - 1])) else Page(ranked, None)
  }

  /** The rows read by following cursors for n pages, starting after a cursor. */
  ghost function Follow<T(!new)>(keys: set<T>, n: nat, cursor: Option<T>, limit: nat, le: (T, T) -> bool): Page<T>
    requires TotalOrder(le) && limit > 0
  {
    if n == 0 then Page([], cursor)
    else
      var page := PageOf(keys, cursor, limit, le);
      if page.next.None? then page
      else
        var others := Follow(keys, n - 1, page.next, limit, le);
        Page(page.rows + others.rows, others.next)
  }

  /** The cursor of a reader that has read the first `done` keys. */
  ghost function CursorAt<T(!new)>(keys: set<T>, done: nat, le: (T, T) -> bool): (cursor: Option<T>)
    requires TotalOrder(le) && done <= |keys|
    ensures cursor.None? <==> done == 0
  {
    if done == 0 then None else Some(Ranked(keys, le)[done - 1])
  }

  lemma PageAt<T(!new)>(keys: set<T>, done: nat, limit: nat, le: (T, T) -> bool)
    requires TotalOrder(le) && limit > 0 && done <= |keys|
    ensures PageOf(keys, CursorAt(keys, done, le), limit, le) ==
            if done + limit < |keys|
            then Page(Ranked(keys, le)[done..done + limit], CursorAt(keys, done + limit, le))
            else Page(Ranked(keys, le)[done..], None)
  {
    hide TotalOrder, Ranked, After;
    var all := Ranked(keys, le);
    if done > 0 {
      SeekDropsPrefix(keys, done - 1, le);
    } else {
      NothingToSeek(keys, le);
    }
    assert Ranked(After(keys, CursorAt(keys, done, le), le), le) == all[done..];
    if done + limit < |keys| {
      assert all[done..][..limit] == all[done..done + limit];
    }
  }

  lemma NothingToSeek<T(!new)>(keys: set<T>, le: (T, T) -> bool)
    ensures After(keys, None, le) == keys
  {
  }

  /** After n pages a reader holds exactly the first n * limit keys in order, or all of them, in which
      case there is no next cursor: pages neither skip nor repeat. */
  lemma {:induction false} PagesPartition<T(!new)>(keys: set<T>, n: nat, done: nat, limit: nat, le: (T, T) -> bool)
    requires TotalOrder(le) && limit > 0 && n > 0 && done <= |keys|
    ensures Follow(keys, n, CursorAt(keys, done, le), limit, le) ==
            if done + n * limit < |keys|
            then Page(Ranked(keys, le)[done..done + n * limit], CursorAt(keys, done + n * limit, le))
            else Page(Ranked(keys, le)[done..], None)
    decreases n
  {
    hide TotalOrder, Ranked, PageOf, CursorAt, Follow;
    PageAt(keys, done, limit, le);
    OnePageMore(n, limit);
    FollowOnce(keys, n, CursorAt(keys, done, le), limit, le);
    if done + limit < |keys| {
      var all, others := Ranked(keys, le), (n - 1) * limit;
      if n == 1 {
        NothingFollows(keys, CursorAt(keys, done + limit, le), limit, le);
        assert all[done..done + limit] + [] == all[done..done + limit];
      } else {
        PagesPartition(keys, n - 1, done + limit, limit, le);
        PartsJoin(all, done, limit, others);
      }
    }
  }

  lemma FollowOnce<T(!new)>(keys: set<T>, n: nat, cursor: Option<T>, limit: nat, le: (T, T) -> bool)
    requires TotalOrder(le) && limit > 0 && n > 0
    ensures var page := PageOf(keys, cursor, limit, le);
            Follow(keys, n, cursor, limit, le) ==
            if page.next.None? then page
            else Page(page.rows + Follow(keys, n - 1, page.next, limit, le).rows, Follow(keys, n - 1, page.next, limit, le).next)
  {
    hide TotalOrder, PageOf;
  }

  lemma NothingFollows<T(!new)>(keys: set<T>, cursor: Option<T>, limit: nat, le: (T, T) -> bool)
    requires TotalOrder(le) && limit > 0
    ensures Follow(keys, 0, cursor, limit, le) == Page([], cursor)
  {
    hide TotalOrder;
  }

  lemma PartsJoin<T>(all: seq<T>, done: nat, first: nat, others: nat)
    requires done + first <= |all|
    ensures done + first + others <= |all| ==>
              all[done..done + first] + all[done + first..done + first + others] == all[done..done + first + others]
    ensures all[done..done + first] + all[done + first..] == all[done..]
  {
  }

  function RowsRead(pages: nat, limit: nat): (n: nat)
    ensures pages > 0 && limit > 0 ==> n > 0
  {
    pages * limit
  }

  lemma OnePageMore(n: nat, limit: nat)
    requires n > 0
    ensures limit + (n - 1) * limit == n * limit && n * limit >= limit
  {
  }

  // ---- The orders the catalog sorts by ----

  function CodeUnits(s: string): (units: seq<int>)
    ensures |units| == |s| && forall i | 0 <= i < |s| :: units[i] == s[i] as int
  {
    seq(|s|, i requires 0 <= i < |s| => s[i] as int)
  }

  /** COLLATE "C" ASC */
  predicate CollatesBefore(a: string, b: string) {
    Ordering.AtMost(CodeUnits(a), CodeUnits(b))
  }

  function ByText(): (string, string) -> bool {
    (a: string, b: string) => CollatesBefore(a, b)
  }

  lemma CollationIsTotal(a: string, b: string, c: string)
    ensures CollatesBefore(a, b) || CollatesBefore(b, a)
    ensures CollatesBefore(a, b) && CollatesBefore(b, c) ==> CollatesBefore(a, c)
    ensures CollatesBefore(a, b) && CollatesBefore(b, a) ==> a == b
  {
    Ordering.CompareIsTotalOrder(CodeUnits(a), CodeUnits(b), CodeUnits(c));
    Ordering.CompareIsTotalOrder(CodeUnits(b), CodeUnits(a), CodeUnits(c));
    if CodeUnits(a) == CodeUnits(b) {
      assert forall i | 0 <= i < |a| :: CodeUnits(a)[i] == CodeUnits(b)[i];
      assert a == b;
    }
  }

  /** Collation is the lexicographic order of code units. */
  lemma CollationIsLexicographic(a: string, b: string)
    ensures CollatesBefore(a, b) <==> a == b || Ordering.Precedes(CodeUnits(a), CodeUnits(b))
  {
    Ordering.CompareIsLexicographic(CodeUnits(a), CodeUnits(b));
    CollationIsTotal(a, b, a);
    hide Ordering.Precedes;
    if CodeUnits(a) == CodeUnits(b) {
      assert CollatesBefore(a, b) && CollatesBefore(b, a);
    }
  }

  lemma TextIsTotallyOrdered()
    ensures TotalOrder(ByText())
  {
    forall a: string, b: string, c: string
      ensures (ByText()(a, b) || ByText()(b, a)) &&
              (ByText()(a, b) && ByText()(b, c) ==> ByText()(a, c)) &&
              (ByText()(a, b) && ByText()(b, a) ==> a == b)
    {
      CollationIsTotal(a, b, c);
    }
  }

  datatype TimedKey = TimedKey(time: int, id: string)

  /** ORDER BY time ASC, id ASC */
  function OldestFirst(): (TimedKey, TimedKey) -> bool {
    (a: TimedKey, b: TimedKey) => a.time < b.time || (a.time == b.time && CollatesBefore(a.id, b.id))
  }

  /** ORDER BY time DESC, id DESC */
  function NewestFirst(): (TimedKey, TimedKey) -> bool {
    (a: TimedKey, b: TimedKey) => OldestFirst()(b, a)
  }

  lemma TimedKeysAreTotallyOrdered()
    ensures TotalOrder(OldestFirst()) && TotalOrder(NewestFirst())
  {
    hide CollatesBefore;
    forall a: TimedKey, b: TimedKey, c: TimedKey
      ensures (OldestFirst()(a, b) || OldestFirst()(b, a)) &&
              (OldestFirst()(a, b) && OldestFirst()(b, c) ==> OldestFirst()(a, c)) &&
              (OldestFirst()(a, b) && OldestFirst()(b, a) ==> a == b)
    {
      CollationIsTotal(a.id, b.id, c.id);
    }
    assert TotalOrder(OldestFirst());
    assert forall a, b :: NewestFirst()(a, b) == OldestFirst()(b, a);
  }
}
