/** What registrations commit: snapshots, layouts, record lineage and runs.  Every row is immutable
    once committed; a registration either adds its rows or changes nothing but the run sequence. */
module Registry {
  import opened Text
  import opened Json
  import opened Lineage
  import Keyset
  import JsonSameness

  datatype Snapshot = Snapshot(identityProfile: string, recordSchemaVersion: string, numRecords: int)

  datatype LayoutKey = LayoutKey(datasetVersion: string, layoutVersion: string)

  datatype Layout = Layout(artifactDigest: string, artifactSizeBytes: int, manifestKey: string, columns: seq<string>)

  datatype Run = Run(id: string, op: string, opVersion: string, params: StoredJson, outputVersion: string,
                     inputVersions: seq<string>, lineageSeq: nat)

  /** The tables, and the last value drawn from the run sequence. */
  datatype Tables = Tables(snapshots: map<string, Snapshot>, layouts: map<LayoutKey, Layout>, lineage: Store,
                           runs: map<string, Run>, sequence: nat)

  datatype LayoutInput = LayoutInput(version: string, snapshot: Snapshot, layoutKey: LayoutKey, layout: Layout,
                                     revisions: seq<RecordRevision>)

  datatype RunInput = RunInput(id: string, cacheKey: string, op: string, opVersion: string, params: StoredJson,
                               outputVersion: string, inputVersions: seq<string>)

  // ---- What one registration does ----

  /** `validateRegistrationInput` */
  ghost predicate ValidLayoutInput(input: LayoutInput) {
    && input.layoutKey.datasetVersion == input.version
    && input.snapshot.numRecords == |input.revisions|
    && ValidRevisions(input.revisions)
  }

  /** `validateRunInput` */
  predicate ValidRunInput(input: LayoutInput, run: RunInput) {
    run.outputVersion == input.version && run.id == "run_" + run.cacheKey
  }

  predicate ManifestTaken(layouts: map<LayoutKey, Layout>, layout: Layout) {
    exists key | key in layouts :: layouts[key].manifestKey == layout.manifestKey
  }

  /** Nothing that is already committed disagrees with the input. */
  ghost predicate LayoutRegisters(t: Tables, input: LayoutInput) {
    && (input.version in t.snapshots ==> t.snapshots[input.version] == input.snapshot)
    && (if input.layoutKey in t.layouts then t.layouts[input.layoutKey] == input.layout
        else !ManifestTaken(t.layouts, input.layout))
    && Registrable(t.lineage, input.revisions)
  }

  function WithLayout(t: Tables, input: LayoutInput): Tables {
    t.(snapshots := t.snapshots[input.version := input.snapshot],
       layouts := t.layouts[input.layoutKey := input.layout],
       lineage := Committed(t.lineage, input.version, input.revisions))
  }

  /** `assertRunInTransaction` */
  predicate SameRun(stored: Run, run: RunInput) {
    && stored.id == run.id && stored.op == run.op && stored.opVersion == run.opVersion
    && stored.outputVersion == run.outputVersion
    && SameJson(stored.params, run.params)
    && stored.inputVersions == run.inputVersions
  }

  predicate RunRegisters(t: Tables, run: RunInput) {
    if run.cacheKey in t.runs then SameRun(t.runs[run.cacheKey], run)
    else run.outputVersion in t.snapshots && forall version | version in run.inputVersions :: version in t.snapshots
  }

  function WithRun(t: Tables, run: RunInput): Tables {
    var row := Run(run.id, run.op, run.opVersion, run.params, run.outputVersion, run.inputVersions, t.sequence + 1);
    t.(runs := if run.cacheKey in t.runs then t.runs else t.runs[run.cacheKey := row], sequence := t.sequence + 1)
  }

  ghost function AfterLayout(t: Tables, input: LayoutInput): Tables {
    if ValidLayoutInput(input) && LayoutRegisters(t, input) then WithLayout(t, input) else t
  }

  /** Exactly when a transform result registers: its layout does, and then its run does. */
  ghost predicate ResultRegisters(t: Tables, input: LayoutInput, run: RunInput) {
    && ValidLayoutInput(input) && ValidRunInput(input, run)
    && LayoutRegisters(t, input) && RunRegisters(WithLayout(t, input), run)
  }

  /** A run that does not register undoes the layout too, but not the sequence number it drew. */
  ghost function AfterResult(t: Tables, input: LayoutInput, run: RunInput): Tables {
    if !ValidLayoutInput(input) || !ValidRunInput(input, run) || !LayoutRegisters(t, input) then t
    else if RunRegisters(WithLayout(t, input), run) then WithRun(WithLayout(t, input), run)
    else t.(sequence := t.sequence + 1)
  }

  // ---- What every registration keeps ----

  ghost predicate Consistent(t: Tables) {
    && Sane(t.lineage)
    && (forall version | version in t.snapshots :: t.snapshots[version].numRecords >= 0)
    && LayoutsAreConsistent(t.layouts, t.snapshots)
    && (forall r | r in t.lineage.located :: t.lineage.located[r] in t.snapshots)
    && RunsAreConsistent(t.runs, t.snapshots, t.sequence)
  }

  ghost predicate LayoutsAreConsistent(layouts: map<LayoutKey, Layout>, snapshots: map<string, Snapshot>) {
    && (forall key | key in layouts :: key.datasetVersion in snapshots)
    && (forall a, b | a in layouts && b in layouts && layouts[a].manifestKey == layouts[b].manifestKey :: a == b)
  }

  ghost predicate RunsAreConsistent(runs: map<string, Run>, snapshots: map<string, Snapshot>, sequence: nat) {
    && (forall key | key in runs :: RunIsGrounded(key, runs[key], snapshots, sequence))
    && (forall a, b | a in runs && b in runs && runs[a].lineageSeq == runs[b].lineageSeq :: a == b)
  }

  ghost predicate RunIsGrounded(key: string, run: Run, snapshots: map<string, Snapshot>, sequence: nat) {
    && run.id == "run_" + key
    && run.outputVersion in snapshots
    && (forall version | version in run.inputVersions :: version in snapshots)
    && 0 < run.lineageSeq <= sequence
  }

  ghost predicate Kept<K, V>(before: map<K, V>, after: map<K, V>) {
    forall key | key in before :: key in after && after[key] == before[key]
  }

  /** Nothing committed is lost or changed, and new runs are numbered after all old ones. */
  ghost predicate Evolves(t: Tables, u: Tables) {
    && t.sequence <= u.sequence
    && Kept(t.snapshots, u.snapshots)
    && Kept(t.layouts, u.layouts)
    && LineageKept(t.lineage, u.lineage)
    && Kept(t.runs, u.runs)
    && (forall key | key in u.runs && key !in t.runs :: u.runs[key].lineageSeq > t.sequence)
  }

  ghost predicate LineageKept(before: Store, after: Store) {
    && Kept(before.located, after.located)
    && forall r | r in before.located :: ParentsOf(after.edges, r) == ParentsOf(before.edges, r)
  }

  lemma EvolvesOnwards(t: Tables, u: Tables, v: Tables)
    requires Evolves(t, u) && Evolves(u, v)
    ensures Evolves(t, v)
  {
  }

  /** Committing lineage adds revisions and keeps every located one as it was. */
  lemma CommittedLineageIsKept(store: Store, datasetVersion: string, revisions: seq<RecordRevision>)
    requires Sane(store) && ValidRevisions(revisions) && Registrable(store, revisions)
    ensures var after := Committed(store, datasetVersion, revisions);
            && Sane(after)
            && LineageKept(store, after)
            && (forall r | r in after.located ::
                  (r in store.located && after.located[r] == store.located[r]) || after.located[r] == datasetVersion)
  {
    hide Acyclic, Graft;
    var created := CreatedBy(store.located, revisions);
    assert created !! store.edges.Keys;
    GraftExtends(store.edges, created, revisions);
  }

  lemma LayoutKeepsTables(t: Tables, input: LayoutInput)
    requires Consistent(t) && ValidLayoutInput(input) && LayoutRegisters(t, input)
    ensures Consistent(WithLayout(t, input)) && Evolves(t, WithLayout(t, input))
  {
    hide Sane, Registrable, Committed, LineageKept, RunsAreConsistent, LayoutsAreConsistent, ValidRevisions, ManifestTaken;
    CommittedLineageIsKept(t.lineage, input.version, input.revisions);
    LayoutStaysConsistent(t, input);
    RunsStayConsistent(t.runs, t.snapshots, t.sequence, WithLayout(t, input).snapshots, t.sequence);
    RowsAreKept(t, input);
    hide Kept;
  }

  lemma RowsAreKept(t: Tables, input: LayoutInput)
    requires LayoutRegisters(t, input)
    ensures Kept(t.snapshots, WithLayout(t, input).snapshots)
    ensures Kept(t.layouts, WithLayout(t, input).layouts)
    ensures Kept(t.runs, WithLayout(t, input).runs)
  {
    hide Registrable, Committed, ManifestTaken;
  }

  lemma LayoutStaysConsistent(t: Tables, input: LayoutInput)
    requires Consistent(t) && ValidLayoutInput(input) && LayoutRegisters(t, input)
    ensures LayoutsAreConsistent(WithLayout(t, input).layouts, WithLayout(t, input).snapshots)
  {
    hide Sane, Registrable, RunsAreConsistent;
  }

  lemma RunsStayConsistent(runs: map<string, Run>, snapshots: map<string, Snapshot>, sequence: nat,
                           moreSnapshots: map<string, Snapshot>, later: nat)
    requires RunsAreConsistent(runs, snapshots, sequence)
    requires snapshots.Keys <= moreSnapshots.Keys && sequence <= later
    ensures RunsAreConsistent(runs, moreSnapshots, later)
  {
    forall key | key in runs ensures RunIsGrounded(key, runs[key], moreSnapshots, later) {
      assert RunIsGrounded(key, runs[key], snapshots, sequence);
    }
  }

  lemma RunKeepsTables(t: Tables, run: RunInput)
    requires Consistent(t) && RunRegisters(t, run) && run.id == "run_" + run.cacheKey
    ensures Consistent(WithRun(t, run)) && Evolves(t, WithRun(t, run))
  {
    hide Sane, SameRun, LayoutsAreConsistent;
    var u := WithRun(t, run);
    RunsStayConsistent(t.runs, t.snapshots, t.sequence, t.snapshots, u.sequence);
    assert RunsAreConsistent(u.runs, u.snapshots, u.sequence) by {
      forall key | key in u.runs ensures RunIsGrounded(key, u.runs[key], u.snapshots, u.sequence) {
      }
    }
  }

  datatype Registration = RegisterLayout(input: LayoutInput) | RegisterResult(input: LayoutInput, run: RunInput)

  ghost function After(t: Tables, call: Registration): Tables {
    match call
    case RegisterLayout(input) => AfterLayout(t, input)
    case RegisterResult(input, run) => AfterResult(t, input, run)
  }

  lemma RegistrationKeepsTables(t: Tables, call: Registration)
    requires Consistent(t)
    ensures Consistent(After(t, call)) && Evolves(t, After(t, call))
  {
    hide ValidLayoutInput, LayoutRegisters, WithLayout, WithRun, RunRegisters, Consistent, Evolves;
    if ValidLayoutInput(call.input) && LayoutRegisters(t, call.input) {
      LayoutKeepsTables(t, call.input);
      if call.RegisterResult? && ValidRunInput(call.input, call.run) {
        var u := WithLayout(t, call.input);
        if RunRegisters(u, call.run) {
          RunKeepsTables(u, call.run);
          EvolvesOnwards(t, u, WithRun(u, call.run));
        }
      }
    }
    SkippedNumbersAreHarmless(t);
  }

  lemma SkippedNumbersAreHarmless(t: Tables)
    requires Consistent(t)
    ensures Consistent(t.(sequence := t.sequence + 1)) && Evolves(t, t.(sequence := t.sequence + 1)) && Evolves(t, t)
  {
    RunsStayConsistent(t.runs, t.snapshots, t.sequence, t.snapshots, t.sequence + 1);
  }

  ghost function AfterAll(t: Tables, calls: seq<Registration>): Tables
    decreases |calls|
  {
    if calls == [] then t else AfterAll(After(t, calls[0]), calls[1..])
  }

  /** Over every run of registrations the lineage stays acyclic, and no committed row, parent list or
      run is ever changed. */
  lemma {:induction false} RegistrationsKeepTables(t: Tables, calls: seq<Registration>)
    requires Consistent(t)
    ensures Consistent(AfterAll(t, calls)) && Evolves(t, AfterAll(t, calls))
    decreases |calls|
  {
    hide Consistent, Evolves, After;
    SkippedNumbersAreHarmless(t);
    if calls != [] {
      var u := After(t, calls[0]);
      RegistrationKeepsTables(t, calls[0]);
      RegistrationsKeepTables(u, calls[1..]);
      EvolvesOnwards(t, u, AfterAll(u, calls[1..]));
    }
  }
}
