/** The guarantees of sessions, imports and artifacts over whole runs. */
module ModelArtifactTheorems {
  import opened Text
  import opened Json
  import opened ModelArtifacts
  import opened ModelArtifactInvariant

  // ---- Exclusion ----

  /** Whatever calls are made, in whatever order, from an empty catalog: at most one session is active; a
      closing or closed session has only completed or failed imports; a session with any import has an
      export; no two rows share a key; and every row decodes. */
  lemma ReachableStates(snapshots: set<string>, namespaces: set<string>, clock: int, steps: seq<Step>)
    requires FreshRun(Db(snapshots, namespaces, map[], map[], map[], clock), steps)
    ensures var db := AfterSteps(Db(snapshots, namespaces, map[], map[], map[], clock), steps);
            && SingleActive(db.sessions) && UniqueKeys(db)
            && (forall id | id in db.sessions :: SessionDecodes(db.sessions[id]) &&
                  (db.sessions[id].status.Closing? || db.sessions[id].status.Closed? ==> NoOpenImport(db.imports, id)))
            && (forall id | id in db.imports :: ImportDecodes(id, db.imports[id]) && SourceIsReady(db, db.imports[id]))
            && (forall id | id in db.artifacts :: ArtifactDecodes(db.artifacts[id]))
  {
    InitialIsOk(snapshots, namespaces, clock);
    RunKeepsInv(Db(snapshots, namespaces, map[], map[], map[], clock), steps);
    RunKeepsKeys(Db(snapshots, namespaces, map[], map[], map[], clock), steps);
    var db := AfterSteps(Db(snapshots, namespaces, map[], map[], map[], clock), steps);
    hide AfterSteps, FreshRun;
    StatesAreSafe(db);
  }

  ghost predicate SourceIsReady(db: Db, i: Import) {
    && i.sessionId in db.sessions && ReachedReady(db.sessions[i.sessionId])
    && db.sessions[i.sessionId].exportDigest.Some?
  }

  lemma StatesAreSafe(db: Db)
    requires Inv(db)
    ensures SingleActive(db.sessions)
    ensures forall id | id in db.sessions :: SessionDecodes(db.sessions[id]) &&
              (db.sessions[id].status.Closing? || db.sessions[id].status.Closed? ==> NoOpenImport(db.imports, id))
    ensures forall id | id in db.imports :: ImportDecodes(id, db.imports[id]) && SourceIsReady(db, db.imports[id])
    ensures forall id | id in db.artifacts :: ArtifactDecodes(db.artifacts[id])
  {
    forall id | id in db.imports ensures ImportDecodes(id, db.imports[id]) && SourceIsReady(db, db.imports[id]) {
      ImportIsSafe(db, id);
    }
    forall id | id in db.sessions ensures SessionDecodes(db.sessions[id]) {
      assert SessionOk(db.sessions[id], db.clock);
    }
    forall id | id in db.sessions && (db.sessions[id].status.Closing? || db.sessions[id].status.Closed?)
      ensures NoOpenImport(db.imports, id)
    {
      SettledWhenClosing(db, id);
    }
    hide SessionOk, SingleActive, ImportsOk, SessionDecodes, ImportDecodes, ArtifactDecodes, ArtifactFits, NoOpenImport, SourceIsReady;
  }

  lemma ImportIsSafe(db: Db, id: string)
    requires Inv(db) && id in db.imports
    ensures ImportDecodes(id, db.imports[id]) && SourceIsReady(db, db.imports[id])
  {
    hide Inv, ImportDecodes, FinalFits, Produced, ImportTimes, HasFinal;
    ImportOfInv(db, id);
    ReadySessionHasExport(db, db.imports[id].sessionId);
  }

  lemma SettledWhenClosing(db: Db, id: string)
    requires Inv(db) && id in db.sessions && (db.sessions[id].status.Closing? || db.sessions[id].status.Closed?)
    ensures NoOpenImport(db.imports, id)
  {
    forall other | other in db.imports && db.imports[other].sessionId == id ensures Settled(db.imports[other]) {
      assert ImportFits(db.sessions, db.imports[other]);
    }
  }

  // ---- Finalization ----

  /** A finalizing import is finalized exactly by the locator of its archive, and then the import and the new
      artifact are both readable. */
  lemma FinalizationNeedsItsLocator(db: Db, id: string, objectLocator: string, artifactId: string)
    requires Inv(db) && id in db.imports && db.imports[id].status.Finalizing? && artifactId !in db.artifacts
    ensures HasFinal(db.imports[id])
    ensures var result := Finalized(db, db.imports[id].namespaceId, id, objectLocator, artifactId);
            && (result.Ok? <==> objectLocator == ObjectLocator(db.imports[id].archiveDigest.value))
            && (result.Ok? ==>
                  && result.value.Some? && result.value.value.artifactId == artifactId
                  && IsReadable(result.value.value.db, id, artifactId))
            && (result.Throws? ==> result.error == InputError)
  {
    hide Inv, ImportDecodes, ArtifactDecodes, SessionDecodes, NewArtifact, ObjectLocator, CompleteImport, SameArtifact;
    hide HasFinal;
    hide ArtifactFits, ImportFits, Produced;
    FinalizationIsReadable(db, id, artifactId);
    ImportOfInv(db, id);
  }

  /** The import is completed by the artifact, and the reader of each accepts its row. */
  ghost predicate IsReadable(db: Db, id: string, artifactId: string) {
    && id in db.imports && artifactId in db.artifacts
    && db.imports[id].status.Completed? && db.imports[id].artifactId == Some(artifactId)
    && ImportDecodes(id, db.imports[id]) && ArtifactDecodes(db.artifacts[artifactId])
  }

  // ---- Progress ----

  /** What the four calls of an import must be given. */
  ghost predicate Deliverable(db: Db, request: CreateImport, id: string, providerImportId: string, outputSnapshot: string, f: Final) {
    && id !in db.imports && SessionFound(db, request.namespaceId, request.sessionId)
    && db.sessions[request.sessionId].status.Ready? && !ImportCollides(db.imports, request)
    && !ProviderImportTaken(db.imports, providerImportId)
    && ValidFinal(id, f)
    && FinalMatches(Staged(NewImport(request, db.clock), providerImportId, outputSnapshot, db.clock), db.sessions[request.sessionId], f)
  }

  ghost function Staged(i: Import, providerImportId: string, outputSnapshot: string, now: int): Import {
    i.(status := Staging, providerImportId := Some(providerImportId), outputSnapshot := Some(outputSnapshot), stagingAt := Some(now))
  }

  /** The import once its bytes are staged and described. */
  ghost function Described(request: CreateImport, providerImportId: string, outputSnapshot: string, f: Final, t0: int, t1: int, t2: int)
    : Import
  {
    FinalizingFrom(Staged(NewImport(request, t0), providerImportId, outputSnapshot, t1), f, t2)
  }

  lemma DescribedLater(db: Db, request: CreateImport, id: string, providerImportId: string, outputSnapshot: string, f: Final,
                       w1: nat, w2: nat)
    requires Inv(db) && Deliverable(db, request, id, providerImportId, outputSnapshot, f)
    ensures var requested := Next(db, Step(0, RequestImport(request, id)));
            var staged := Next(requested, Step(w1, Stage(request.namespaceId, id, providerImportId, outputSnapshot)));
            var finalizing := Next(staged, Step(w2, BeginFinalizing(request.namespaceId, id, f)));
            var i := Described(request, providerImportId, outputSnapshot, f, db.clock, db.clock + w1, db.clock + w1 + w2);
            Inv(finalizing) && finalizing == db.(imports := db.imports[id := i], clock := db.clock + w1 + w2)
  {
    hide Apply, Inv, ValidFinal, ImportCollides;
    var ns := request.namespaceId;
    StagedLater(db, request, id, providerImportId, outputSnapshot, w1);
    var staged := Next(Next(db, Step(0, RequestImport(request, id))), Step(w1, Stage(ns, id, providerImportId, outputSnapshot)));
    TimeMayPass(staged, staged.clock + w2);
    FinalizingNow(staged.(clock := staged.clock + w2), ns, id, f);
  }

  lemma StagedLater(db: Db, request: CreateImport, id: string, providerImportId: string, outputSnapshot: string, w1: nat)
    requires Inv(db) && id !in db.imports && SessionFound(db, request.namespaceId, request.sessionId)
    requires db.sessions[request.sessionId].status.Ready? && !ImportCollides(db.imports, request)
    requires !ProviderImportTaken(db.imports, providerImportId)
    ensures var staged := Next(Next(db, Step(0, RequestImport(request, id))),
                               Step(w1, Stage(request.namespaceId, id, providerImportId, outputSnapshot)));
            var i := Staged(NewImport(request, db.clock), providerImportId, outputSnapshot, db.clock + w1);
            Inv(staged) && staged == db.(imports := db.imports[id := i], clock := db.clock + w1)
  {
    hide Apply, Inv, ImportCollides;
    RequestedNow(db, request, id);
    var requested := Next(db, Step(0, RequestImport(request, id)));
    TimeMayPass(requested, requested.clock + w1);
    StagedNow(requested.(clock := requested.clock + w1), request.namespaceId, id, providerImportId, outputSnapshot);
  }

  /** A request of a ready session can always be carried through: requested, staged, finalized with a manifest
      that describes it, and stored.  The catalog gains one import and one artifact, and the artifact says
      exactly what the request and the manifest said, however long each call takes. */
  lemma ImportIsDelivered(db: Db, request: CreateImport, id: string, providerImportId: string, outputSnapshot: string,
                          f: Final, artifactId: string, w1: nat, w2: nat, w3: nat)
    requires Inv(db) && Deliverable(db, request, id, providerImportId, outputSnapshot, f) && artifactId !in db.artifacts
    ensures var requested := Next(db, Step(0, RequestImport(request, id)));
            var staged := Next(requested, Step(w1, Stage(request.namespaceId, id, providerImportId, outputSnapshot)));
            var finalizing := Next(staged, Step(w2, BeginFinalizing(request.namespaceId, id, f)));
            var after := Next(finalizing, Step(w3, Finalize(request.namespaceId, id, ObjectLocator(f.archiveDigest), artifactId)));
            && IsReadable(after, id, artifactId)
            && Delivers(after.artifacts[artifactId], request, id, f)
            && after == Db(db.snapshots, db.namespaces, db.sessions, db.imports[id := after.imports[id]],
                           db.artifacts[artifactId := after.artifacts[artifactId]], db.clock + w1 + w2 + w3)
  {
    hide Inv, Apply, Delivers, NewArtifact, ObjectLocator, ImportCollides, ValidFinal, NewImport, FinalMatches;
    DescribedLater(db, request, id, providerImportId, outputSnapshot, f, w1, w2);
    var i := Described(request, providerImportId, outputSnapshot, f, db.clock, db.clock + w1, db.clock + w1 + w2);
    var finalizing := db.(imports := db.imports[id := i], clock := db.clock + w1 + w2);
    DescribedSays(request, id, providerImportId, outputSnapshot, f, db.clock, db.clock + w1, db.clock + w1 + w2,
                  db.sessions[request.sessionId], db.clock + w1 + w2 + w3);
    StoredLater(finalizing, request.namespaceId, id, artifactId, w3);
  }

  lemma StoredLater(db: Db, namespaceId: string, id: string, artifactId: string, w3: nat)
    requires Inv(db) && ImportFound(db, namespaceId, id) && db.imports[id].status.Finalizing? && artifactId !in db.artifacts
    ensures var i := db.imports[id];
            && HasFinal(i) && i.sessionId in db.sessions
            && var after := Next(db, Step(w3, Finalize(namespaceId, id, ObjectLocator(i.archiveDigest.value), artifactId)));
            && IsReadable(after, id, artifactId)
            && after == db.(imports := db.imports[id := Completing(i, artifactId, db.clock + w3)],
                            artifacts := db.artifacts[artifactId :=
                              NewArtifact(id, i, db.sessions[i.sessionId], ObjectLocator(i.archiveDigest.value), db.clock + w3)],
                            clock := db.clock + w3)
  {
    hide Apply, Inv, IsReadable, NewArtifact, ObjectLocator;
    TimeMayPass(db, db.clock + w3);
    StoredNow(db.(clock := db.clock + w3), namespaceId, id, artifactId);
  }

  lemma DescribedSays(request: CreateImport, id: string, providerImportId: string, outputSnapshot: string, f: Final,
                      t0: int, t1: int, t2: int, s: Session, t3: int)
    requires FinalMatches(Staged(NewImport(request, t0), providerImportId, outputSnapshot, t0), s, f) && ValidFinal(id, f)
    ensures var i := Described(request, providerImportId, outputSnapshot, f, t0, t1, t2);
            && HasFinal(i) && i.status.Finalizing? && i.archiveDigest == Some(f.archiveDigest)
            && i.sessionId == request.sessionId && i.namespaceId == request.namespaceId
            && Delivers(NewArtifact(id, i, s, ObjectLocator(f.archiveDigest), t3), request, id, f)
  {
    hide ObjectLocator;
  }

  lemma RequestedNow(db: Db, request: CreateImport, id: string)
    requires Inv(db) && id !in db.imports && SessionFound(db, request.namespaceId, request.sessionId)
    requires db.sessions[request.sessionId].status.Ready? && !ImportCollides(db.imports, request)
    ensures var after := Apply(db, RequestImport(request, id));
            Inv(after) && after == db.(imports := db.imports[id := NewImport(request, db.clock)])
  {
    CallKeepsInv(db, RequestImport(request, id));
    hide Inv, ImportCollides;
  }

  lemma StagedNow(db: Db, namespaceId: string, id: string, providerImportId: string, outputSnapshot: string)
    requires Inv(db) && ImportFound(db, namespaceId, id) && db.imports[id].status.Requested?
    requires !ProviderImportTaken(db.imports, providerImportId)
    ensures var after := Apply(db, Stage(namespaceId, id, providerImportId, outputSnapshot));
            Inv(after) && after == db.(imports := db.imports[id := Staged(db.imports[id], providerImportId, outputSnapshot, db.clock)])
  {
    hide Inv, ProviderImportTaken;
    CallKeepsInv(db, Stage(namespaceId, id, providerImportId, outputSnapshot));
  }

  ghost function FinalizingFrom(i: Import, f: Final, now: int): Import {
    i.(status := Finalizing, stagingObjectKey := Some(f.stagingObjectKey), archiveDigest := Some(f.archiveDigest),
       archiveSize := Some(f.archiveSize), manifestDigest := Some(f.manifestDigest), manifest := Some(f.manifest),
       lineageStatus := Some(f.dataset.status), datasetVersion := f.dataset.version,
       datasetExportDigest := f.dataset.exportDigest, binding := Some(f.binding), finalizingAt := Some(now))
  }

  lemma FinalizingNow(db: Db, namespaceId: string, id: string, f: Final)
    requires Inv(db) && ImportFound(db, namespaceId, id) && db.imports[id].status.Staging?
    requires SessionFound(db, namespaceId, db.imports[id].sessionId)
    requires ValidFinal(id, f) && FinalMatches(db.imports[id], db.sessions[db.imports[id].sessionId], f)
    ensures var after := Apply(db, BeginFinalizing(namespaceId, id, f));
            Inv(after) && after == db.(imports := db.imports[id := FinalizingFrom(db.imports[id], f, db.clock)])
  {
    hide Inv, ValidFinal, FinalMatches;
    CallKeepsInv(db, BeginFinalizing(namespaceId, id, f));
  }

  lemma StoredNow(db: Db, namespaceId: string, id: string, artifactId: string)
    requires Inv(db) && ImportFound(db, namespaceId, id) && db.imports[id].status.Finalizing? && artifactId !in db.artifacts
    ensures var i := db.imports[id];
            && HasFinal(i) && i.sessionId in db.sessions
            && var after := Apply(db, Finalize(namespaceId, id, ObjectLocator(i.archiveDigest.value), artifactId));
            && IsReadable(after, id, artifactId)
            && after == db.(imports := db.imports[id := Completing(i, artifactId, db.clock)],
                            artifacts := db.artifacts[artifactId :=
                              NewArtifact(id, i, db.sessions[i.sessionId], ObjectLocator(i.archiveDigest.value), db.clock)])
  {
    hide Inv, ImportDecodes, ArtifactDecodes, Finalized, NewArtifact, ObjectLocator, SessionFound, ArtifactFor;
    FinalizationIsReadable(db, id, artifactId);
    SessionIsThere(db, db.imports[id].namespaceId, db.imports[id].sessionId);
  }

  lemma SessionIsThere(db: Db, namespaceId: string, id: string)
    requires SessionFound(db, namespaceId, id)
    ensures id in db.sessions
  {
  }

  ghost predicate Delivers(a: Artifact, request: CreateImport, id: string, f: Final) {
    && a.namespaceId == request.namespaceId && a.displayName == request.displayName && a.sessionId == request.sessionId
    && a.importId == id
    && a.archiveDigest == f.archiveDigest && a.archiveSize == f.archiveSize && a.manifest == f.manifest
    && a.manifestDigest == f.manifestDigest && a.objectLocator == ObjectLocator(f.archiveDigest)
    && a.dataset == f.dataset && a.baseModel == f.manifest.baseModel
  }

  // ---- What never changes ----

  ghost predicate SessionFollows(before: Session, after: Session) {
    && after.identity == before.identity && after.options == before.options
    && after.providerSessionId == before.providerSessionId
    && (before.exportDigest.Some? ==> after.exportDigest == before.exportDigest && after.exportSize == before.exportSize)
  }

  ghost predicate SessionsFollow(before: map<string, Session>, after: map<string, Session>) {
    forall id | id in before :: id in after && SessionFollows(before[id], after[id])
  }

  ghost predicate SameOrigin(a: Import, b: Import) {
    && b.namespaceId == a.namespaceId && b.createDigest == a.createDigest
    && b.sessionId == a.sessionId && b.outputHandle == a.outputHandle && b.displayName == a.displayName
    && b.baseReference == a.baseReference && b.baseRevision == a.baseRevision
  }

  ghost predicate SameFinalColumns(a: Import, b: Import) {
    && b.stagingObjectKey == a.stagingObjectKey && b.archiveDigest == a.archiveDigest && b.archiveSize == a.archiveSize
    && b.manifestDigest == a.manifestDigest && b.manifest == a.manifest && b.lineageStatus == a.lineageStatus
    && b.datasetVersion == a.datasetVersion && b.datasetExportDigest == a.datasetExportDigest && b.binding == a.binding
  }

  function Rank(status: ImportStatus): nat {
    match status case Requested => 0 case Staging => 1 case Finalizing => 2 case Completed => 3 case ImportFailed => 3
  }

  /** An import only moves forward, keeps what it was asked for, and keeps what each step wrote. */
  ghost predicate ImportFollows(before: Import, after: Import) {
    && SameOrigin(before, after) && Rank(before.status) <= Rank(after.status)
    && (HasStaging(before) ==>
          HasStaging(after) && after.providerImportId == before.providerImportId && after.outputSnapshot == before.outputSnapshot)
    && (HasFinal(before) ==> HasFinal(after) && SameFinalColumns(before, after))
    && (Settled(before) ==>
          after.status == before.status && after.artifactId == before.artifactId && after.failure == before.failure)
  }

  ghost predicate ImportsFollow(before: map<string, Import>, after: map<string, Import>) {
    forall id | id in before :: id in after && ImportFollows(before[id], after[id])
  }

  ghost predicate ArtifactsKept(before: map<string, Artifact>, after: map<string, Artifact>) {
    forall id | id in before :: id in after && after[id] == before[id]
  }

  ghost predicate Follows(before: Db, after: Db) {
    && SessionsFollow(before.sessions, after.sessions)
    && ImportsFollow(before.imports, after.imports)
    && ArtifactsKept(before.artifacts, after.artifacts)
  }

  lemma FollowsOnwards(a: Db, b: Db, c: Db)
    requires Follows(a, b) && Follows(b, c)
    ensures Follows(a, c)
  {
    hide SessionFollows, ImportFollows;
    forall id | id in a.imports ensures id in c.imports && ImportFollows(a.imports[id], c.imports[id]) {
      ImportFollowsOnwards(a.imports[id], b.imports[id], c.imports[id]);
    }
    forall id | id in a.sessions ensures id in c.sessions && SessionFollows(a.sessions[id], c.sessions[id]) {
      SessionFollowsOnwards(a.sessions[id], b.sessions[id], c.sessions[id]);
    }
  }

  lemma ImportFollowsOnwards(a: Import, b: Import, c: Import)
    requires ImportFollows(a, b) && ImportFollows(b, c)
    ensures ImportFollows(a, c)
  {
  }

  lemma SessionFollowsOnwards(a: Session, b: Session, c: Session)
    requires SessionFollows(a, b) && SessionFollows(b, c)
    ensures SessionFollows(a, c)
  {
  }

  lemma NothingFollows(db: Db)
    ensures Follows(db, db)
  {
  }

  lemma OneSessionFollows(sessions: map<string, Session>, id: string, s: Session)
    requires id in sessions ==> SessionFollows(sessions[id], s)
    ensures SessionsFollow(sessions, sessions[id := s])
  {
  }

  lemma OneImportFollows(imports: map<string, Import>, id: string, i: Import)
    requires id in imports ==> ImportFollows(imports[id], i)
    ensures ImportsFollow(imports, imports[id := i])
  {
    hide ImportFollows;
    forall other | other in imports ensures ImportFollows(imports[other], imports[other]) {
      ImportFollowsItself(imports[other]);
    }
  }

  lemma ImportFollowsItself(i: Import)
    ensures ImportFollows(i, i)
  {
  }

  lemma ImportWrittenFollows(db: Db, id: string, i: Import, call: Call)
    requires ImportDecodes(id, i) && IsImportCall(call) && ImportWritten(db, id, i, call).Some?
    ensures ImportFollows(i, ImportWritten(db, id, i, call).value)
  {
    hide StagingObjectKey, ValidClaim, ValidManifest, ValidBaseModel, ProviderImportTaken, ValidFinal, FinalMatches;
  }

  lemma SessionWrittenFollows(db: Db, id: string, s: Session, call: Call)
    requires SessionOk(s, db.clock) && SessionWritten(db, id, s, call).Some?
    ensures SessionFollows(s, SessionWritten(db, id, s, call).value)
  {
    hide NoOpenImport, SessionTimes;
  }

  lemma SessionCallFollows(db: Db, call: Call)
    requires Inv(db) && IsSessionCall(call)
    ensures Follows(db, AfterSessionCall(db, call))
  {
    NothingFollows(db);
    hide ImportsOk, ArtifactsOk, SessionWritten, SessionOk, SessionFollows, SessionsFollow, ImportsFollow, ArtifactsKept;
    if SessionFound(db, call.namespaceId, call.id) && SessionWritten(db, call.id, db.sessions[call.id], call).Some? {
      SessionWrittenFollows(db, call.id, db.sessions[call.id], call);
      OneSessionFollows(db.sessions, call.id, SessionWritten(db, call.id, db.sessions[call.id], call).value);
    }
  }

  lemma ImportCallFollows(db: Db, call: Call)
    requires Inv(db) && IsImportCall(call)
    ensures Follows(db, AfterImportCall(db, call))
  {
    hide Inv, SessionsFollow, ImportsFollow, ImportFollows, ArtifactsKept, ImportWritten, ImportDecodes;
    NothingFollows(db);
    if ImportFound(db, call.namespaceId, call.id) && ImportWritten(db, call.id, db.imports[call.id], call).Some? {
      ImportIsSafe(db, call.id);
      ImportWrittenFollows(db, call.id, db.imports[call.id], call);
      OneImportFollows(db.imports, call.id, ImportWritten(db, call.id, db.imports[call.id], call).value);
    }
  }

  lemma CreationFollows(db: Db, call: Call)
    requires FreshIds(db, call) && (call.OpenSession? || call.RequestImport?)
    ensures Follows(db, Apply(db, call))
  {
    NothingFollows(db);
    hide SessionsFollow, ImportsFollow, ArtifactsKept, SessionCollides, ImportCollides, NewSession, NewImport, SessionFollows;
    if call.OpenSession? {
      OneSessionFollows(db.sessions, call.id, NewSession(call.create, call.ownerToken, db.clock));
    } else {
      OneImportFollows(db.imports, call.id, NewImport(call.request, db.clock));
    }
  }

  lemma FinalizeFollows(db: Db, namespaceId: string, id: string, objectLocator: string, artifactId: string)
    requires Inv(db) && artifactId !in db.artifacts
    ensures Follows(db, AfterFinalize(db, namespaceId, id, objectLocator, artifactId))
  {
    hide Inv, ImportDecodes, ArtifactDecodes, NewArtifact, ObjectLocator, Finalized, AfterFinalize, SessionsFollow;
    hide ImportsFollow;
    NothingFollows(db);
    FinalizationIsConsistent(db, namespaceId, id, objectLocator, artifactId);
    if AfterFinalize(db, namespaceId, id, objectLocator, artifactId) != db {
      FinalizationIsReadable(db, id, artifactId);
      FinalizedPair(db, namespaceId, id, objectLocator, artifactId);
      CompletingFollows(db.imports[id], artifactId, db.clock);
      OneImportFollows(db.imports, id, Completing(db.imports[id], artifactId, db.clock));
    }
  }

  lemma CompletingFollows(i: Import, artifactId: string, now: int)
    requires i.status.Finalizing?
    ensures ImportFollows(i, Completing(i, artifactId, now))
  {
  }

  /** What a finalization that changes anything leaves. */
  lemma FinalizedPair(db: Db, namespaceId: string, id: string, objectLocator: string, artifactId: string)
    requires Inv(db) && artifactId !in db.artifacts && ImportFound(db, namespaceId, id)
    requires db.imports[id].status.Finalizing? && HasFinal(db.imports[id])
    requires objectLocator == ObjectLocator(db.imports[id].archiveDigest.value)
    ensures SessionFound(db, namespaceId, db.imports[id].sessionId)
    ensures AfterFinalize(db, namespaceId, id, objectLocator, artifactId) ==
            db.(artifacts := db.artifacts[artifactId := NewArtifact(id, db.imports[id], db.sessions[db.imports[id].sessionId], objectLocator, db.clock)],
                imports := db.imports[id := Completing(db.imports[id], artifactId, db.clock)])
  {
    hide Inv, ImportDecodes, ArtifactDecodes, NewArtifact, ObjectLocator, Finalized, HasFinal;
    FinalizationIsReadable(db, id, artifactId);
  }

  lemma CallFollows(db: Db, call: Call)
    requires Inv(db) && FreshIds(db, call)
    ensures Follows(db, Apply(db, call))
  {
    hide Inv, AfterOpen, AfterRequest, AfterSessionCall, AfterImportCall, AfterFinalize, Follows;
    match call {
      case OpenSession(_, _, _) => CreationFollows(db, call);
      case RequestImport(_, _) => CreationFollows(db, call);
      case Finalize(namespaceId, id, objectLocator, artifactId) => FinalizeFollows(db, namespaceId, id, objectLocator, artifactId);
      case Stage(_, _, _, _) => ImportCallFollows(db, call);
      case BeginFinalizing(_, _, _) => ImportCallFollows(db, call);
      case FailImport(_, _, _) => ImportCallFollows(db, call);
      case MarkCleaned(_, _) => ImportCallFollows(db, call);
      case _ => SessionCallFollows(db, call);
    }
  }

  lemma StepFollows(db: Db, step: Step)
    requires Inv(db) && FreshIds(db, step.call)
    ensures Follows(db, Next(db, step))
  {
    hide Inv, Apply, SessionsFollow, ImportsFollow, ArtifactsKept;
    TimeMayPass(db, db.clock + step.wait);
    CallFollows(db.(clock := db.clock + step.wait), step.call);
  }

  /** Over every run the export of a session, once it has one, is fixed, and artifacts are immutable. */
  lemma {:induction false} RunFollows(db: Db, steps: seq<Step>)
    requires Inv(db) && FreshRun(db, steps)
    ensures Follows(db, AfterSteps(db, steps))
    decreases |steps|
  {
    hide Inv, Next, FreshIds, Follows;
    if steps == [] {
      NothingFollows(db);
    } else {
      StepKeepsInv(db, steps[0]);
      StepFollows(db, steps[0]);
      RunFollows(Next(db, steps[0]), steps[1..]);
      FollowsOnwards(db, Next(db, steps[0]), AfterSteps(db, steps));
    }
  }

  /** A verified artifact carries exactly the dataset version and the export digest of its session, for good. */
  lemma VerifiedForever(db: Db, steps: seq<Step>, artifactId: string)
    requires Inv(db) && FreshRun(db, steps)
    requires artifactId in db.artifacts && db.artifacts[artifactId].dataset.status.Verified?
    ensures var after := AfterSteps(db, steps);
            && artifactId in after.artifacts && after.artifacts[artifactId] == db.artifacts[artifactId]
            && db.artifacts[artifactId].sessionId in after.sessions
            && var s := after.sessions[db.artifacts[artifactId].sessionId];
            && s.exportDigest.Some?
            && db.artifacts[artifactId].dataset == DatasetClaim(Verified, Some(s.identity.datasetVersion), s.exportDigest)
  {
    RunFollows(db, steps);
    RunKeepsInv(db, steps);
    var after := AfterSteps(db, steps);
    assert artifactId in after.artifacts;
    ArtifactSessionIsReady(after, artifactId);
    hide Inv, AfterSteps, FreshRun;
  }

  /** A session that some import names keeps its export through every run. */
  lemma ExportIsFixed(db: Db, steps: seq<Step>, importId: string)
    requires Inv(db) && FreshRun(db, steps) && importId in db.imports
    ensures var after := AfterSteps(db, steps);
            var sessionId := db.imports[importId].sessionId;
            && sessionId in db.sessions && db.sessions[sessionId].exportDigest.Some?
            && sessionId in after.sessions && after.sessions[sessionId].exportDigest == db.sessions[sessionId].exportDigest
            && importId in after.imports && after.imports[importId].sessionId == sessionId
  {
    RunFollows(db, steps);
    ImportIsSafe(db, importId);
    hide Inv, AfterSteps, FreshRun;
  }
}
