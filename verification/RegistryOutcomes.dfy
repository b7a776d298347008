/** What a registration commits, row by row, and exactly when: from the input and the stored rows alone. */
module RegistryOutcomes {
  import opened Text
  import opened Json
  import opened Lineage
  import opened Registry
  import JsonSameness

  // ---- Lineage ----

  /** No record twice, no record its own parent, no parent record twice. */
  lemma ValidRevisionsMean(revisions: seq<RecordRevision>)
    ensures ValidRevisions(revisions) <==>
            && (forall i, j | 0 <= i < |revisions| && 0 <= j < |revisions| && revisions[i].self.recordId == revisions[j].self.recordId :: i == j)
            && (forall i | 0 <= i < |revisions| :: ParentsAreValid(revisions[i]))
  {
    var selves := Selves(revisions);
    assert DistinctIds(selves) <==>
           forall i, j | 0 <= i < |revisions| && 0 <= j < |revisions| && revisions[i].self.recordId == revisions[j].self.recordId :: i == j by {
      IdsMean(selves);
    }
    forall r ensures ParentsAreValid(r) <==> DistinctIds(r.parents) && forall parent | parent in r.parents :: parent.recordId != r.self.recordId {
      IdsMean(r.parents);
    }
    hide DistinctIds, ParentsAreValid;
    assert forall i | 0 <= i < |revisions| :: revisions[i] in revisions;
  }

  ghost predicate ParentsAreValid(r: RecordRevision) {
    && (forall i | 0 <= i < |r.parents| :: r.parents[i].recordId != r.self.recordId)
    && (forall i, j | 0 <= i < |r.parents| && 0 <= j < |r.parents| && r.parents[i].recordId == r.parents[j].recordId :: i == j)
  }

  lemma IdsMean(revisions: seq<Revision>)
    ensures DistinctIds(revisions) <==>
            forall i, j | 0 <= i < |revisions| && 0 <= j < |revisions| && revisions[i].recordId == revisions[j].recordId :: i == j
  {
    if DistinctIds(revisions) {
      forall i, j | 0 <= i < |revisions| && 0 <= j < |revisions| && revisions[i].recordId == revisions[j].recordId ensures i == j {
        assert !(i < j) && !(j < i);
      }
    }
  }

  /** The graph after a registration: new revisions have the parents submitted, all others those they had. */
  ghost predicate GrownBy(store: Store, revisions: seq<RecordRevision>, more: Graph) {
    && (forall r | r in revisions && r.self !in store.located :: ParentsOf(more, r.self) == r.parents)
    && (forall child | child in store.located || (forall r | r in revisions :: r.self != child) ::
          ParentsOf(more, child) == ParentsOf(store.edges, child))
  }

  /** A lineage registers exactly if the revisions already there have the parents submitted and the new ones
      close no cycle; then every revision is there, the new ones in this dataset. */
  lemma LineageOutcome(store: Store, version: string, revisions: seq<RecordRevision>)
    requires Sane(store) && ValidRevisions(revisions)
    ensures var after := Committed(store, version, revisions);
            && GrownBy(store, revisions, after.edges)
            && (Registrable(store, revisions) <==>
                  && (forall r | r in revisions && r.self in store.located :: ParentsOf(store.edges, r.self) == r.parents)
                  && forall child :: !Reaches(after.edges, child, child))
            && (forall self :: self in after.located <==> self in store.located || exists r :: r in revisions && r.self == self)
            && (forall self | self in after.located ::
                  after.located[self] == if self in store.located then store.located[self] else version)
  {
    hide Graft, Acyclic, Reaches, DistinctIds;
    var created := CreatedBy(store.located, revisions);
    assert created !! store.edges.Keys;
    GraftExtends(store.edges, created, revisions);
    CyclesRefuteAcyclic(Graft(store.edges, created, revisions));
  }

  // ---- Layouts ----

  /** Exactly when a layout registers. */
  ghost predicate LayoutFits(t: Tables, input: LayoutInput) {
    && (input.version !in t.snapshots || t.snapshots[input.version] == input.snapshot)
    && (input.layoutKey in t.layouts ==> t.layouts[input.layoutKey] == input.layout)
    && (forall key | key in t.layouts && t.layouts[key].manifestKey == input.layout.manifestKey :: key == input.layoutKey)
    && (forall r | r in input.revisions && r.self in t.lineage.located :: ParentsOf(t.lineage.edges, r.self) == r.parents)
    && (forall child :: !Reaches(Committed(t.lineage, input.version, input.revisions).edges, child, child))
  }

  lemma LayoutFitsExactly(t: Tables, input: LayoutInput)
    requires Consistent(t) && ValidLayoutInput(input)
    ensures LayoutFits(t, input) <==> LayoutRegisters(t, input)
  {
    hide Reaches, Graft, Acyclic, RunsAreConsistent, ValidRevisions, Sane, ParentsOf;
    LineageOutcome(t.lineage, input.version, input.revisions);
    hide Registrable;
  }

  /** A layout that registers leaves its snapshot, its layout and its lineage, and every other row as it was. */
  lemma LayoutOutcome(t: Tables, input: LayoutInput)
    requires Consistent(t)
    ensures var after := After(t, RegisterLayout(input));
            if input.layoutKey.datasetVersion == input.version && input.snapshot.numRecords == |input.revisions| &&
               ValidRevisions(input.revisions) && LayoutFits(t, input)
            then after == t.(snapshots := t.snapshots[input.version := input.snapshot],
                             layouts := t.layouts[input.layoutKey := input.layout], lineage := after.lineage) &&
                 after.lineage == Committed(t.lineage, input.version, input.revisions)
            else after == t
  {
    hide Consistent, LayoutFits, LayoutRegisters, Committed, ValidRevisions;
    if ValidLayoutInput(input) {
      LayoutFitsExactly(t, input);
    }
  }

  // ---- Runs ----

  /** The stored run is the run that is asked to be registered. */
  ghost predicate SameComputation(stored: Run, run: RunInput) {
    && (stored.id, stored.op, stored.opVersion, stored.outputVersion, stored.inputVersions)
       == (run.id, run.op, run.opVersion, run.outputVersion, run.inputVersions)
    && CanonicalJsonV2(stored.params) == CanonicalJsonV2(run.params)
  }

  /** A run registers exactly if it is new and all its snapshots are there, or if it is already there; a new run
      gets the number just drawn. */
  lemma RunOutcome(t: Tables, run: RunInput)
    ensures RunRegisters(t, run) <==>
            if run.cacheKey in t.runs then SameComputation(t.runs[run.cacheKey], run)
            else run.outputVersion in t.snapshots && forall i | 0 <= i < |run.inputVersions| :: run.inputVersions[i] in t.snapshots
    ensures var after := WithRun(t, run);
            && after == t.(runs := after.runs, sequence := t.sequence + 1)
            && after.runs == if run.cacheKey in t.runs then t.runs
                             else t.runs[run.cacheKey := Run(run.id, run.op, run.opVersion, run.params, run.outputVersion,
                                                             run.inputVersions, after.sequence)]
  {
    hide CanonicalJsonV2, SameJson;
    if run.cacheKey in t.runs {
      JsonSameness.SameJsonIsSameText(t.runs[run.cacheKey].params, run.params);
    }
    assert forall i | 0 <= i < |run.inputVersions| :: run.inputVersions[i] in run.inputVersions;
  }

  /** A result is registered whole or not at all; a number is drawn as soon as its layout is in. */
  lemma ResultOutcome(t: Tables, input: LayoutInput, run: RunInput)
    requires Consistent(t)
    ensures var layout := After(t, RegisterLayout(input));
            var after := After(t, RegisterResult(input, run));
            var sound := input.layoutKey.datasetVersion == input.version == run.outputVersion && input.snapshot.numRecords == |input.revisions| &&
                         ValidRevisions(input.revisions) && run.id == "run_" + run.cacheKey && LayoutFits(t, input);
            if !sound then after == t
            else if RunRegisters(layout, run) then after == WithRun(layout, run)
            else after == t.(sequence := t.sequence + 1)
  {
    hide Consistent, LayoutFits, LayoutRegisters, Committed, ValidRevisions, RunRegisters, WithRun;
    if ValidLayoutInput(input) {
      LayoutFitsExactly(t, input);
    }
  }
}
