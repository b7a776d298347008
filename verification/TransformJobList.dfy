/** `listTransformJobs` and its compound cursor. */
module TransformJobList {
  import opened Text
  import opened TransformJobs
  import Keyset
  import Ordering

  /** Milliseconds, as a JavaScript date keeps them. */
  function Milliseconds(time: int): int {
    time / 1000
  }

  function ListKeys(jobs: map<string, Job>): set<Keyset.TimedKey> {
    set id | id in jobs :: Keyset.TimedKey(Milliseconds(jobs[id].createdAt), id)
  }

  datatype JobPage = JobPage(ids: seq<string>, nextCursor: Option<Keyset.TimedKey>)

  /** `listTransformJobs`: newest first by truncated time and id; one row more than asked for tells whether
      there is another page, and the cursor is made of the last visible row. */
  ghost function ListTransformJobs(jobs: map<string, Job>, before: Option<Keyset.TimedKey>, limit: int): (page: Option<JobPage>)
    ensures page.Some? <==> ValidLimit(limit)
  {
    if !ValidLimit(limit) then None
    else
      Keyset.TimedKeysAreTotallyOrdered();
      var rows := IdsOf(Keyset.Ranked(Keyset.After(ListKeys(jobs), before, Keyset.NewestFirst()), Keyset.NewestFirst()));
      if |rows| > limit && rows[limit - 1] in jobs
      then Some(JobPage(rows[..limit], Some(Keyset.TimedKey(Milliseconds(jobs[rows[limit - 1]].createdAt), rows[limit - 1]))))
      else Some(JobPage(rows, None))
  }

  const MAX_CATALOG_PAGE_SIZE := 1000

  predicate ValidLimit(limit: int) {
    0 < limit <= MAX_CATALOG_PAGE_SIZE
  }

  function IdsOf(keys: seq<Keyset.TimedKey>): (ids: seq<string>)
    ensures |ids| == |keys| && forall i | 0 <= i < |keys| :: ids[i] == keys[i].id
  {
    seq(|keys|, i requires 0 <= i < |keys| => keys[i].id)
  }

  /** The rows of n pages, following cursors over a table that does not change. */
  ghost function FollowJobs(jobs: map<string, Job>, n: nat, before: Option<Keyset.TimedKey>, limit: int): JobPage
    requires ValidLimit(limit)
  {
    if n == 0 then JobPage([], before)
    else
      var page := ListTransformJobs(jobs, before, limit).value;
      if page.nextCursor.None? then page
      else
        var others := FollowJobs(jobs, n - 1, page.nextCursor, limit);
        JobPage(page.ids + others.ids, others.nextCursor)
  }

  lemma ListedPage(jobs: map<string, Job>, before: Option<Keyset.TimedKey>, limit: int)
    requires ValidLimit(limit) && Keyset.TotalOrder(Keyset.NewestFirst())
    ensures var page := Keyset.PageOf(ListKeys(jobs), before, limit, Keyset.NewestFirst());
            ListTransformJobs(jobs, before, limit) == Some(JobPage(IdsOf(page.rows), page.next))
  {
    var keys := Keyset.After(ListKeys(jobs), before, Keyset.NewestFirst());
    var ranked := Keyset.Ranked(keys, Keyset.NewestFirst());
    KeysAreIds(jobs, before);
    hide Keyset.TotalOrder, Keyset.Ranked, Keyset.After, ListKeys, Milliseconds;
    if |ranked| > limit {
      assert ranked[limit - 1] in ranked;
      assert IdsOf(ranked)[..limit] == IdsOf(ranked[..limit]);
    }
  }

  /** A listed key is determined by its row. */
  lemma KeysAreIds(jobs: map<string, Job>, before: Option<Keyset.TimedKey>)
    requires Keyset.TotalOrder(Keyset.NewestFirst())
    ensures forall key | key in Keyset.Ranked(Keyset.After(ListKeys(jobs), before, Keyset.NewestFirst()), Keyset.NewestFirst()) ::
              key.id in jobs && key == Keyset.TimedKey(Milliseconds(jobs[key.id].createdAt), key.id)
  {
    Keyset.RankedHasKeys(Keyset.After(ListKeys(jobs), before, Keyset.NewestFirst()), Keyset.NewestFirst());
  }

  lemma {:induction false} FollowedPages(jobs: map<string, Job>, n: nat, before: Option<Keyset.TimedKey>, limit: int)
    requires ValidLimit(limit) && Keyset.TotalOrder(Keyset.NewestFirst())
    ensures var read := Keyset.Follow(ListKeys(jobs), n, before, limit, Keyset.NewestFirst());
            FollowJobs(jobs, n, before, limit) == JobPage(IdsOf(read.rows), read.next)
  {
    hide Keyset.TotalOrder, Keyset.PageOf, ListTransformJobs, ListKeys;
    if n > 0 {
      ListedPage(jobs, before, limit);
      var page := Keyset.PageOf(ListKeys(jobs), before, limit, Keyset.NewestFirst());
      if page.next.Some? {
        FollowedPages(jobs, n - 1, page.next, limit);
        var others := Keyset.Follow(ListKeys(jobs), n - 1, page.next, limit, Keyset.NewestFirst());
        assert IdsOf(page.rows + others.rows) == IdsOf(page.rows) + IdsOf(others.rows);
      }
    }
  }

  /** All jobs, newest first, ties broken by descending id. */
  ghost function JobsInOrder(jobs: map<string, Job>): (ids: seq<string>) {
    IdsOf(RankedJobs(jobs))
  }

  /** The order lists every job exactly once. */
  lemma OrderListsJobsOnce(jobs: map<string, Job>)
    ensures forall id :: id in JobsInOrder(jobs) <==> id in jobs
    ensures forall i, j | 0 <= i < j < |JobsInOrder(jobs)| :: JobsInOrder(jobs)[i] != JobsInOrder(jobs)[j]
  {
    var ranked := RankedJobs(jobs);
    IdsAreDistinct(jobs, ranked);
  }

  /** The order goes back in time by whole milliseconds, and within a millisecond from the larger id to the smaller. */
  lemma OrderIsNewestFirst(jobs: map<string, Job>, i: nat, j: nat)
    requires i < j < |JobsInOrder(jobs)|
    ensures var a, b := JobsInOrder(jobs)[i], JobsInOrder(jobs)[j];
            a in jobs && b in jobs &&
            exists m, n :: WithinMillisecond(jobs[a].createdAt, m) && WithinMillisecond(jobs[b].createdAt, n) &&
                           (m > n || (m == n && Ordering.Precedes(Keyset.CodeUnits(b), Keyset.CodeUnits(a))))
  {
    var ranked := RankedJobs(jobs);
    hide Ordering.Precedes, Keyset.NewestFirst;
    KeysDescend(ranked[i], ranked[j]);
    var a, b := JobsInOrder(jobs)[i], JobsInOrder(jobs)[j];
    assert WithinMillisecond(jobs[a].createdAt, ranked[i].time) && WithinMillisecond(jobs[b].createdAt, ranked[j].time);
  }

  lemma KeysDescend(a: Keyset.TimedKey, b: Keyset.TimedKey)
    requires Keyset.NewestFirst()(a, b) && a != b
    ensures a.time > b.time || (a.time == b.time && Ordering.Precedes(Keyset.CodeUnits(b.id), Keyset.CodeUnits(a.id)))
  {
    hide Ordering.Precedes;
    assert Keyset.OldestFirst()(b, a);
    Keyset.CollationIsLexicographic(b.id, a.id);
  }

  predicate WithinMillisecond(time: int, m: int) {
    1000 * m <= time < 1000 * (m + 1)
  }

  /** The keys of all jobs in order: each job's own key, and every job's. */
  ghost function RankedJobs(jobs: map<string, Job>): (ranked: seq<Keyset.TimedKey>)
    ensures forall i, j | 0 <= i < j < |ranked| :: Keyset.NewestFirst()(ranked[i], ranked[j])
    ensures forall i | 0 <= i < |ranked| :: ranked[i].id in jobs && ranked[i].time == Milliseconds(jobs[ranked[i].id].createdAt)
    ensures forall i, j | 0 <= i < j < |ranked| :: ranked[i] != ranked[j]
    ensures forall id | id in jobs :: Keyset.TimedKey(Milliseconds(jobs[id].createdAt), id) in ranked
  {
    Keyset.TimedKeysAreTotallyOrdered();
    Keyset.RankedHasKeys(ListKeys(jobs), Keyset.NewestFirst());
    var ranked := Keyset.Ranked(ListKeys(jobs), Keyset.NewestFirst());
    assert forall i | 0 <= i < |ranked| :: ranked[i] in ranked;
    ranked
  }

  lemma IdsAreDistinct(jobs: map<string, Job>, ranked: seq<Keyset.TimedKey>)
    requires forall i | 0 <= i < |ranked| :: ranked[i].id in jobs && ranked[i].time == Milliseconds(jobs[ranked[i].id].createdAt)
    requires forall i, j | 0 <= i < j < |ranked| :: ranked[i] != ranked[j]
    requires forall id | id in jobs :: Keyset.TimedKey(Milliseconds(jobs[id].createdAt), id) in ranked
    ensures forall id :: id in IdsOf(ranked) <==> id in jobs
    ensures forall i, j | 0 <= i < j < |ranked| :: IdsOf(ranked)[i] != IdsOf(ranked)[j]
  {
    hide Milliseconds;
    forall id | id in jobs ensures id in IdsOf(ranked) {
      var i :| 0 <= i < |ranked| && ranked[i] == Keyset.TimedKey(Milliseconds(jobs[id].createdAt), id);
      assert IdsOf(ranked)[i] == id;
    }
  }

  /** The reading of the first n jobs of an order. */
  ghost predicate ReadsFirst(read: JobPage, all: seq<string>, n: nat) {
    if n < |all| then read.ids == all[..n] && read.nextCursor.Some? else read.ids == all && read.nextCursor.None?
  }

  /** Over an unchanging table, n pages are the first n * limit jobs in order, and there is no next cursor
      exactly when that was all of them. */
  lemma JobPaging(jobs: map<string, Job>, n: nat, limit: int)
    requires ValidLimit(limit) && n > 0
    ensures ReadsFirst(FollowJobs(jobs, n, None, limit), JobsInOrder(jobs), Keyset.RowsRead(n, limit))
  {
    hide Keyset.TotalOrder, Keyset.Ranked, Keyset.Follow, FollowJobs, ListKeys;
    Keyset.TimedKeysAreTotallyOrdered();
    FollowedPages(jobs, n, None, limit);
    Keyset.PagesPartition(ListKeys(jobs), n, 0, limit, Keyset.NewestFirst());
    var ranked := Keyset.Ranked(ListKeys(jobs), Keyset.NewestFirst());
    assert ranked[0..] == ranked;
    IdsOfFirst(ranked, Keyset.RowsRead(n, limit));
  }

  lemma IdsOfFirst(ranked: seq<Keyset.TimedKey>, n: nat)
    ensures n < |ranked| ==> IdsOf(ranked[..n]) == IdsOf(ranked)[..n]
  {
  }
}
