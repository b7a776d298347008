/** The registration transactions, in place over the tables, and the paging of producing runs. */
module RegistryCatalog {
  import opened Text
  import opened Json
  import opened Lineage
  import opened Registry
  import Keyset
  import Ordering

  datatype RunRegistration = CreatedRun | ExistingRun | RunConflict | UnknownSnapshot

  class RegistryTables {
    const lineage: LineageTables
    var snapshots: map<string, Snapshot>
    var layouts: map<LayoutKey, Layout>
    var runs: map<string, Run>
    var sequence: nat

    function Contents(): Tables
      reads this, lineage
    {
      Tables(snapshots, layouts, lineage.Contents(), runs, sequence)
    }

    constructor ()
      ensures fresh(lineage) && Contents() == Tables(map[], map[], Store(map[], map[]), map[], 0)
      ensures Consistent(Contents())
    {
      lineage := new LineageTables();
      snapshots, layouts, runs, sequence := map[], map[], map[], 0;
    }

    method EnsureSnapshot(version: string, snapshot: Snapshot) returns (ok: bool)
      modifies this`snapshots
      ensures ok <==> (version in old(snapshots) ==> old(snapshots)[version] == snapshot)
      ensures ok ==> snapshots == old(snapshots)[version := snapshot]
    {
      if version !in snapshots {
        snapshots := snapshots[version := snapshot];
      }
      ok := snapshots[version] == snapshot;
    }

    /** A manifest key that another layout uses makes the insert a no-op, like an existing layout. */
    method EnsureLayout(key: LayoutKey, layout: Layout) returns (ok: bool)
      modifies this`layouts
      ensures ok <==> if key in old(layouts) then old(layouts)[key] == layout else !ManifestTaken(old(layouts), layout)
      ensures ok ==> layouts == old(layouts)[key := layout]
    {
      if key !in layouts && !ManifestTaken(layouts, layout) {
        layouts := layouts[key := layout];
      }
      ok := key in layouts && layouts[key] == layout;
    }

    /** Throws, leaving what it inserted for the transaction to undo, exactly when it must. */
    method RegisterLayoutInTransaction(input: LayoutInput) returns (ok: bool)
      requires Consistent(Contents()) && ValidLayoutInput(input)
      modifies this, lineage
      ensures ok <==> LayoutRegisters(old(Contents()), input)
      ensures ok ==> Contents() == WithLayout(old(Contents()), input)
      ensures sequence == old(sequence)
    {
      hide Registrable, Committed, ValidRevisions, Sane;
      ok := EnsureSnapshot(input.version, input.snapshot);
      if !ok {
        return;
      }
      ok := EnsureLayout(input.layoutKey, input.layout);
      if !ok {
        return;
      }
      var outcome := lineage.EnsureRecordRevisions(input.version, input.revisions);
      ok := outcome.Registered?;
    }

    /** Inputs are written only with a new run; an existing run is compared and never extended. */
    method RegisterRunInTransaction(run: RunInput) returns (result: RunRegistration)
      modifies this`runs, this`sequence
      ensures sequence == old(sequence) + 1
      ensures result.CreatedRun? || result.ExistingRun? <==> RunRegisters(old(Contents()), run)
      ensures result.CreatedRun? || result.ExistingRun? ==> Contents() == WithRun(old(Contents()), run)
      ensures result.ExistingRun? || result.RunConflict? <==> run.cacheKey in old(runs)
    {
      hide SameJson;
      sequence := sequence + 1;
      if run.cacheKey in runs {
        result := if SameRun(runs[run.cacheKey], run) then ExistingRun else RunConflict;
        return;
      }
      if run.outputVersion !in snapshots || exists version | version in run.inputVersions :: version !in snapshots {
        return UnknownSnapshot;
      }
      runs := runs[run.cacheKey := Run(run.id, run.op, run.opVersion, run.params, run.outputVersion, run.inputVersions, sequence)];
      result := CreatedRun;
    }

    /** Undoes everything but the sequence. */
    method Rollback(saved: Tables)
      modifies this, lineage
      ensures Contents() == saved.(sequence := old(sequence))
    {
      snapshots, layouts, runs := saved.snapshots, saved.layouts, saved.runs;
      lineage.located, lineage.edges := saved.lineage.located, saved.lineage.edges;
    }

    method ValidateRegistrationInput(input: LayoutInput) returns (ok: bool)
      ensures ok <==> ValidLayoutInput(input)
    {
      if input.layoutKey.datasetVersion != input.version || input.snapshot.numRecords != |input.revisions| {
        return false;
      }
      ok := ValidateRevisions(input.revisions);
    }

    method RegisterCommittedLayout(input: LayoutInput) returns (ok: bool)
      requires Consistent(Contents())
      modifies this, lineage
      ensures Contents() == AfterLayout(old(Contents()), input)
      ensures ok <==> ValidLayoutInput(input) && LayoutRegisters(old(Contents()), input)
      ensures Consistent(Contents()) && Evolves(old(Contents()), Contents())
    {
      hide LayoutRegisters, WithLayout, ValidLayoutInput, Consistent, Evolves;
      var saved := Contents();
      RegistrationKeepsTables(saved, RegisterLayout(input));
      ok := ValidateRegistrationInput(input);
      if !ok {
        return;
      }
      ok := RegisterLayoutInTransaction(input);
      if !ok {
        Rollback(saved);
      }
    }

    method RegisterTransformResult(input: LayoutInput, run: RunInput) returns (ok: bool)
      requires Consistent(Contents())
      modifies this, lineage
      ensures Contents() == AfterResult(old(Contents()), input, run)
      ensures ok <==> ResultRegisters(old(Contents()), input, run)
      ensures Consistent(Contents()) && Evolves(old(Contents()), Contents())
    {
      hide LayoutRegisters, WithLayout, ValidLayoutInput, RunRegisters, WithRun, Consistent, Evolves;
      var saved := Contents();
      RegistrationKeepsTables(saved, RegisterResult(input, run));
      ok := ValidateRegistrationInput(input);
      if !ok || !ValidRunInput(input, run) {
        return false;
      }
      ok := RegisterLayoutInTransaction(input);
      if !ok {
        Rollback(saved);
        return;
      }
      var result := RegisterRunInTransaction(run);
      ok := result.CreatedRun? || result.ExistingRun?;
      if !ok {
        Rollback(saved);
      }
    }
  }

  // ---- Paging producing runs under a sequence snapshot ----

  const MAX_CATALOG_PAGE_SIZE := 1000
  const POSTGRES_BIGINT_MAX := 9223372036854775807

  /** `lineageSnapshotSequence`: COALESCE(MAX(lineage_seq), 0), read while no registration runs. */
  ghost predicate IsSnapshotSequence(t: Tables, at: nat) {
    && (forall key | key in t.runs :: t.runs[key].lineageSeq <= at)
    && (at == 0 || exists key :: key in t.runs && t.runs[key].lineageSeq == at)
  }

  predicate Produces(run: Run, version: string, at: int) {
    run.outputVersion == version && run.lineageSeq <= at
  }

  ghost function Producing(t: Tables, version: string, at: int): set<string> {
    set key | key in t.runs && Produces(t.runs[key], version, at)
  }

  datatype RunPage = RunPage(rows: seq<Run>, nextCacheKey: Option<string>)

  /** The first statement: keys in order, one more than the limit. */
  ghost function SelectKeys(t: Tables, version: string, after: Option<string>, fetchLimit: nat, at: int): seq<string> {
    Keyset.TextIsTotallyOrdered();
    Limited(Keyset.Ranked(Keyset.After(Producing(t, version, at), after, Keyset.ByText()), Keyset.ByText()), fetchLimit)
  }

  /** The second statement and the reordering of its rows; a selected key without a row throws. */
  ghost function FetchRows(t: Tables, keys: seq<string>, version: string, at: int): Option<seq<Run>> {
    if exists key | key in keys :: key !in t.runs || !Produces(t.runs[key], version, at) then None
    else Some(seq(|keys|, i requires 0 <= i < |keys| && keys[i] in t.runs => t.runs[keys[i]]))
  }

  /** `listRunsProducing`.  Its two statements may see different states of the tables. */
  ghost function ListRunsProducing(first: Tables, second: Tables, version: string, after: Option<string>, limit: int, at: int)
    : Option<RunPage>
  {
    if limit <= 0 || limit > MAX_CATALOG_PAGE_SIZE || at < 0 || at > POSTGRES_BIGINT_MAX then None
    else
      var keys := SelectKeys(first, version, after, limit + 1, at);
      match FetchRows(second, keys, version, at)
      case None => None
      case Some(rows) =>
        if |rows| > limit then Some(RunPage(rows[..limit], Some(keys[limit - 1]))) else Some(RunPage(rows, None))
  }

  /** Whatever has been registered since the snapshot was taken, the selection is what it was then. */
  lemma SnapshotIsStable(t: Tables, u: Tables, version: string, at: nat)
    requires Consistent(t) && Evolves(t, u) && IsSnapshotSequence(t, at)
    ensures Producing(u, version, at) == Producing(t, version, at)
    ensures Producing(t, version, at) == set key | key in t.runs && t.runs[key].outputVersion == version
  {
    hide Sane, LayoutsAreConsistent, LineageKept;
    assert at <= t.sequence by {
      if at > 0 {
        var key :| key in t.runs && t.runs[key].lineageSeq == at;
        assert RunIsGrounded(key, t.runs[key], t.snapshots, t.sequence);
      }
    }
  }

  ghost function RowsOf(t: Tables, keys: seq<string>): seq<Run>
    requires forall key | key in keys :: key in t.runs
  {
    seq(|keys|, i requires 0 <= i < |keys| => t.runs[keys[i]])
  }

  /** One page is the corresponding slice of the snapshot, and the missing-run throw cannot happen. */
  lemma PageIsSlice(t: Tables, first: Tables, second: Tables, version: string, cursor: Option<string>, limit: int, at: nat)
    requires Consistent(t) && Evolves(t, first) && Evolves(t, second) && IsSnapshotSequence(t, at)
    requires 0 < limit <= MAX_CATALOG_PAGE_SIZE && at <= POSTGRES_BIGINT_MAX
    requires Keyset.TotalOrder(Keyset.ByText())
    ensures var page := Keyset.PageOf(Producing(t, version, at), cursor, limit, Keyset.ByText());
            && (forall key | key in page.rows :: key in t.runs)
            && ListRunsProducing(first, second, version, cursor, limit, at)
               == Some(RunPage(RowsOf(t, page.rows), page.next))
  {
    hide Consistent, Evolves, IsSnapshotSequence, Keyset.TotalOrder, Keyset.PageOf, Keyset.Cut;
    hide SelectKeys, FetchRows, RankedProducers, Producing, Produces, RowsOf, Limited;
    SelectionIsRanked(t, first, version, cursor, limit, at);
    var ranked := RankedProducers(t, version, cursor, at);
    LimitedIsPart(ranked, limit + 1);
    FetchedRowsAreKept(t, second, Limited(ranked, limit + 1), version, at);
    CutRows(t, ranked, limit);
  }

  lemma SelectionIsRanked(t: Tables, first: Tables, version: string, cursor: Option<string>, limit: nat, at: nat)
    requires Consistent(t) && Evolves(t, first) && IsSnapshotSequence(t, at) && limit > 0
    requires Keyset.TotalOrder(Keyset.ByText())
    ensures var ranked := RankedProducers(t, version, cursor, at);
            && SelectKeys(first, version, cursor, limit + 1, at) == Limited(ranked, limit + 1)
            && Keyset.PageOf(Producing(t, version, at), cursor, limit, Keyset.ByText()) == Keyset.Cut(ranked, limit)
  {
    SnapshotIsStable(t, first, version, at);
    hide Consistent, Evolves, IsSnapshotSequence, Keyset.TotalOrder, Keyset.Ranked, Keyset.After, Producing, Limited, Keyset.Cut;
  }

  /** LIMIT */
  function Limited(ranked: seq<string>, n: nat): seq<string> {
    if |ranked| > n then ranked[..n] else ranked
  }

  lemma LimitedIsPart(ranked: seq<string>, n: nat)
    ensures forall key | key in Limited(ranked, n) :: key in ranked
  {
  }

  ghost function RankedProducers(t: Tables, version: string, cursor: Option<string>, at: int): (ranked: seq<string>)
    ensures forall key | key in ranked :: key in t.runs && Produces(t.runs[key], version, at)
  {
    Keyset.TextIsTotallyOrdered();
    var sought := Keyset.After(Producing(t, version, at), cursor, Keyset.ByText());
    Keyset.RankedHasKeys(sought, Keyset.ByText());
    assert forall key | key in sought :: key in Producing(t, version, at);
    Keyset.Ranked(sought, Keyset.ByText())
  }

  /** Cutting the fetched rows is fetching the rows of the cut keys. */
  lemma CutRows(t: Tables, ranked: seq<string>, limit: nat)
    requires limit > 0 && forall key | key in ranked :: key in t.runs
    ensures var fetched := Limited(ranked, limit + 1);
            var rows, page := RowsOf(t, fetched), Keyset.Cut(ranked, limit);
            && (forall key | key in page.rows :: key in ranked)
            && if |rows| > limit then page.next == Some(fetched[limit - 1]) && rows[..limit] == RowsOf(t, page.rows)
            else page.next.None? && rows == RowsOf(t, page.rows)
  {
  }

  lemma FetchedRowsAreKept(t: Tables, second: Tables, keys: seq<string>, version: string, at: nat)
    requires Evolves(t, second) && forall key | key in keys :: key in t.runs && Produces(t.runs[key], version, at)
    ensures FetchRows(second, keys, version, at) == Some(RowsOf(t, keys))
  {
    assert Kept(t.runs, second.runs);
    hide Evolves, Produces;
    assert forall key | key in keys :: key in second.runs && second.runs[key] == t.runs[key];
    var rows := FetchRows(second, keys, version, at);
    assert rows.Some? && |rows.value| == |keys|;
    assert rows.value == RowsOf(t, keys);
  }

  /** Following cursors; each page sees its own two states of the tables. */
  ghost function FollowRuns(views: seq<(Tables, Tables)>, version: string, after: Option<string>, limit: int, at: int)
    : Option<RunPage>
  {
    if views == [] then Some(RunPage([], after))
    else
      match ListRunsProducing(views[0].0, views[0].1, version, after, limit, at)
      case None => None
      case Some(page) =>
        if page.nextCacheKey.None? then Some(page)
        else
          match FollowRuns(views[1..], version, page.nextCacheKey, limit, at)
          case None => None
          case Some(others) => Some(RunPage(page.rows + others.rows, others.nextCacheKey))
  }

  lemma {:induction false} FollowIsKeyset(t: Tables, views: seq<(Tables, Tables)>, version: string, cursor: Option<string>, limit: int, at: nat)
    requires Consistent(t) && IsSnapshotSequence(t, at)
    requires forall view | view in views :: Evolves(t, view.0) && Evolves(t, view.1)
    requires 0 < limit <= MAX_CATALOG_PAGE_SIZE && at <= POSTGRES_BIGINT_MAX
    requires Keyset.TotalOrder(Keyset.ByText())
    ensures var read := Keyset.Follow(Producing(t, version, at), |views|, cursor, limit, Keyset.ByText());
            && (forall key | key in read.rows :: key in t.runs)
            && FollowRuns(views, version, cursor, limit, at) == Some(RunPage(RowsOf(t, read.rows), read.next))
    decreases |views|
  {
    hide Consistent, Evolves, IsSnapshotSequence, Keyset.TotalOrder, ListRunsProducing, Keyset.PageOf, Producing;
    if views == [] {
      assert RowsOf(t, []) == [];
    } else {
      assert views[0] in views;
      PageIsSlice(t, views[0].0, views[0].1, version, cursor, limit, at);
      var page := Keyset.PageOf(Producing(t, version, at), cursor, limit, Keyset.ByText());
      if page.next.Some? {
        assert forall view | view in views[1..] :: view in views;
        FollowIsKeyset(t, views[1..], version, page.next, limit, at);
        var others := Keyset.Follow(Producing(t, version, at), |views| - 1, page.next, limit, Keyset.ByText());
        assert RowsOf(t, page.rows + others.rows) == RowsOf(t, page.rows) + RowsOf(t, others.rows);
      }
    }
  }

  /** Snapshot paging: n pages read under the snapshot's sequence, with registrations interleaved
      anywhere, give the first n * limit runs that produced the version at snapshot time, in key order
      and each once; there is no next key exactly when that was all of them. */
  lemma SnapshotPaging(t: Tables, views: seq<(Tables, Tables)>, version: string, limit: int, at: nat)
    requires Consistent(t) && IsSnapshotSequence(t, at) && views != []
    requires forall view | view in views :: Evolves(t, view.0) && Evolves(t, view.1)
    requires 0 < limit <= MAX_CATALOG_PAGE_SIZE && at <= POSTGRES_BIGINT_MAX
    ensures var all := ProducersInOrder(t, version);
            FollowRuns(views, version, None, limit, at) == Some(FirstRuns(t, all, Keyset.RowsRead(|views|, limit)))
  {
    hide Consistent, Evolves, Keyset.TotalOrder, Keyset.Ranked, Keyset.Follow, FollowRuns;
    Keyset.TextIsTotallyOrdered();
    EvolvesItself(t);
    SnapshotIsStable(t, t, version, at);
    var keys, le := Producing(t, version, at), Keyset.ByText();
    FollowIsKeyset(t, views, version, None, limit, at);
    Keyset.PagesPartition(keys, |views|, 0, limit, le);
    var all := ProducersInOrder(t, version);
    assert all == Keyset.Ranked(keys, le) && all[0..] == all;
  }

  ghost function FirstRuns(t: Tables, keys: seq<string>, n: nat): RunPage
    requires n > 0 && forall key | key in keys :: key in t.runs
  {
    if n < |keys| then RunPage(RowsOf(t, keys[..n]), Some(keys[n - 1])) else RunPage(RowsOf(t, keys), None)
  }

  /** The runs that produced a version, by cache key, least first. */
  ghost function ProducersInOrder(t: Tables, version: string): (keys: seq<string>)
    ensures forall key | key in keys :: key in t.runs
  {
    Keyset.TextIsTotallyOrdered();
    var producers := set key | key in t.runs && t.runs[key].outputVersion == version;
    Keyset.RankedHasKeys(producers, Keyset.ByText());
    Keyset.Ranked(producers, Keyset.ByText())
  }

  /** They are exactly the runs with that output, in ascending order of their keys' code units. */
  lemma ProducersAscend(t: Tables, version: string)
    ensures var keys := ProducersInOrder(t, version);
            && (forall key :: key in keys <==> key in t.runs && t.runs[key].outputVersion == version)
            && (forall i, j | 0 <= i < j < |keys| :: Ordering.Precedes(Keyset.CodeUnits(keys[i]), Keyset.CodeUnits(keys[j])))
  {
    hide Keyset.CollatesBefore, Ordering.Precedes;
    Keyset.TextIsTotallyOrdered();
    var producers := set key | key in t.runs && t.runs[key].outputVersion == version;
    Keyset.RankedHasKeys(producers, Keyset.ByText());
    var keys := ProducersInOrder(t, version);
    assert |keys| == |producers|;
    forall i, j | 0 <= i < j < |keys| ensures Ordering.Precedes(Keyset.CodeUnits(keys[i]), Keyset.CodeUnits(keys[j])) {
      assert Keyset.ByText()(keys[i], keys[j]) && keys[i] != keys[j];
      Keyset.CollationIsLexicographic(keys[i], keys[j]);
    }
  }

  lemma EvolvesItself(t: Tables)
    ensures Evolves(t, t)
  {
  }
}
