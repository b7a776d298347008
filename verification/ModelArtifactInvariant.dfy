/** What holds of sessions, imports and artifacts in every reachable state, and what never changes. */
module ModelArtifactInvariant {
  import opened Text
  import opened Json
  import opened ModelArtifacts

  // ---- The invariant ----

  predicate SessionTimes(s: Session, now: int) {
    && s.createdAt <= now
    && (s.readyAt.Some? ==> s.createdAt <= s.readyAt.value <= now)
    && (s.closedAt.Some? ==> s.readyAt.Some? && s.readyAt.value <= s.closedAt.value)
  }

  /** A session has an export exactly from the moment it became ready. */
  ghost predicate SessionOk(s: Session, now: int) {
    && SessionDecodes(s) && SessionTimes(s, now)
    && (s.exportDigest.Some? <==> ReachedReady(s))
  }

  /** The CHECK constraints on the times of an import. */
  predicate ImportTimes(i: Import, now: int) {
    && i.createdAt <= now
    && (i.stagingAt.Some? ==> i.createdAt <= i.stagingAt.value <= now)
    && (i.finalizingAt.Some? ==> i.stagingAt.Some? && i.stagingAt.value <= i.finalizingAt.value <= now)
    && (i.completedAt.Some? ==> i.finalizingAt.Some? && i.finalizingAt.value <= i.completedAt.value <= now)
    && (i.failedAt.Some? ==> i.createdAt <= i.failedAt.value <= now)
    && (i.cleanedAt.Some? ==> (i.completedAt.Some? ==> i.completedAt.value <= i.cleanedAt.value) &&
                              (i.failedAt.Some? ==> i.failedAt.value <= i.cleanedAt.value))
  }

  /** The final columns agree with the manifest, the import and its session. */
  ghost predicate FinalFits(i: Import, s: Session)
    requires HasFinal(i)
  {
    var m := i.manifest.value;
    && m.archiveDigest == i.archiveDigest.value && m.archiveSize == i.archiveSize.value
    && Some(m.outputSnapshot) == i.outputSnapshot && m.sessionId == i.sessionId
    && m.upstreamCommit == s.identity.upstreamCommit && m.imageDigest == s.identity.imageDigest
    && m.dataset == DatasetClaim(i.lineageStatus.value, i.datasetVersion, i.datasetExportDigest)
    && m.baseModel == BaseModel(i.baseReference, i.baseRevision, i.binding.value)
    && (i.lineageStatus.value.Verified? ==>
          i.datasetVersion == Some(s.identity.datasetVersion) && i.datasetExportDigest == s.exportDigest)
  }

  /** An import among the sessions: its session has been ready, and is not closing while it is under way. */
  ghost predicate ImportFits(sessions: map<string, Session>, i: Import) {
    && i.sessionId in sessions
    && sessions[i.sessionId].identity.namespaceId == i.namespaceId
    && ReachedReady(sessions[i.sessionId])
    && (sessions[i.sessionId].status.Ready? || Settled(i))
    && (HasFinal(i) ==> FinalFits(i, sessions[i.sessionId]))
  }

  ghost predicate ImportOk(id: string, i: Import, now: int) {
    ImportDecodes(id, i) && ImportTimes(i, now)
  }

  ghost predicate Produced(artifacts: map<string, Artifact>, id: string, i: Import) {
    i.status.Completed? ==>
      && i.artifactId.Some? && i.artifactId.value in artifacts
      && SameArtifact(artifacts[i.artifactId.value], id, i, artifacts[i.artifactId.value].objectLocator)
  }

  /** An artifact among the others: its import is completed by it, and verified lineage is its session's. */
  ghost predicate ArtifactFits(sessions: map<string, Session>, imports: map<string, Import>, artifactId: string, a: Artifact) {
    && a.importId in imports && imports[a.importId].status.Completed? && imports[a.importId].artifactId == Some(artifactId)
    && a.sessionId in sessions
    && (a.dataset.status.Verified? ==>
          a.dataset == DatasetClaim(Verified, Some(sessions[a.sessionId].identity.datasetVersion), sessions[a.sessionId].exportDigest))
  }

  ghost predicate SingleActive(sessions: map<string, Session>) {
    forall a, b | a in sessions && b in sessions && ActiveSession(sessions[a]) && ActiveSession(sessions[b]) :: a == b
  }

  ghost predicate SessionsOk(sessions: map<string, Session>, now: int) {
    (forall id | id in sessions :: SessionOk(sessions[id], now)) && SingleActive(sessions)
  }

  ghost predicate ImportsOk(sessions: map<string, Session>, imports: map<string, Import>, artifacts: map<string, Artifact>, now: int) {
    && (forall id | id in imports :: ImportOk(id, imports[id], now) && ImportFits(sessions, imports[id]) && Produced(artifacts, id, imports[id]))
    && (forall a, b | a in imports && b in imports && imports[a].providerImportId.Some? &&
                      imports[a].providerImportId == imports[b].providerImportId :: a == b)
  }

  ghost predicate ArtifactsOk(sessions: map<string, Session>, imports: map<string, Import>, artifacts: map<string, Artifact>) {
    forall id | id in artifacts :: ArtifactDecodes(artifacts[id]) && ArtifactFits(sessions, imports, id, artifacts[id])
  }

  ghost predicate Inv(db: Db) {
    && SessionsOk(db.sessions, db.clock)
    && ImportsOk(db.sessions, db.imports, db.artifacts, db.clock)
    && ArtifactsOk(db.sessions, db.imports, db.artifacts)
  }

  lemma InitialIsOk(snapshots: set<string>, namespaces: set<string>, clock: int)
    ensures Inv(Db(snapshots, namespaces, map[], map[], map[], clock))
  {
  }

  lemma TimeMayPass(db: Db, later: int)
    requires Inv(db) && db.clock <= later
    ensures Inv(db.(clock := later))
  {
    hide ImportFits, Produced, ImportDecodes, SessionDecodes, ArtifactFits, ArtifactDecodes;
  }

  lemma SessionOfInv(db: Db, id: string)
    requires Inv(db) && id in db.sessions
    ensures SessionOk(db.sessions[id], db.clock)
  {
    hide SessionOk, ImportsOk, ArtifactsOk, SingleActive;
  }

  lemma ImportOfInv(db: Db, id: string)
    requires Inv(db) && id in db.imports
    ensures ImportOk(id, db.imports[id], db.clock) && ImportFits(db.sessions, db.imports[id])
    ensures Produced(db.artifacts, id, db.imports[id])
  {
    hide ImportOk, ImportFits, Produced, SessionsOk, ArtifactsOk;
  }

  lemma ArtifactOfInv(db: Db, id: string)
    requires Inv(db) && id in db.artifacts
    ensures ArtifactDecodes(db.artifacts[id]) && ArtifactFits(db.sessions, db.imports, id, db.artifacts[id])
  {
    hide ArtifactDecodes, ArtifactFits, SessionsOk, ImportsOk;
  }

  // ---- Sessions ----

  /** A session may move on if its imports and artifacts still fit it. */
  lemma SessionMayChange(db: Db, id: string, s: Session)
    requires Inv(db) && id in db.sessions && SessionOk(s, db.clock)
    requires ActiveSession(s) ==> ActiveSession(db.sessions[id])
    requires s.identity == db.sessions[id].identity
    requires db.sessions[id].exportDigest.Some? ==> s.exportDigest == db.sessions[id].exportDigest
    requires s.status.Ready? || !ReachedReady(s) || NoOpenImport(db.imports, id)
    requires ReachedReady(db.sessions[id]) ==> ReachedReady(s)
    ensures Inv(db.(sessions := db.sessions[id := s]))
  {
    hide SessionOk, ImportOk, ImportFits, Produced, ArtifactDecodes, ArtifactFits, ActiveSession, ReachedReady;
    var sessions := db.sessions[id := s];
    ReadySessionHasExport(db, id);
    forall other | other in db.imports ensures ImportFits(sessions, db.imports[other]) {
      ImportStillFits(db.sessions, id, s, db.imports, other);
    }
    forall other | other in db.artifacts ensures ArtifactFits(sessions, db.imports, other, db.artifacts[other]) {
      ArtifactSessionIsReady(db, other);
      ArtifactStillFits(db.sessions, id, s, db.imports, other, db.artifacts[other]);
    }
  }

  lemma ReadySessionHasExport(db: Db, id: string)
    requires Inv(db) && id in db.sessions
    ensures ReachedReady(db.sessions[id]) <==> db.sessions[id].exportDigest.Some?
  {
    assert SessionOk(db.sessions[id], db.clock);
  }

  lemma ImportStillFits(sessions: map<string, Session>, id: string, s: Session, imports: map<string, Import>, other: string)
    requires other in imports && ImportFits(sessions, imports[other])
    requires id in sessions && s.identity == sessions[id].identity
    requires sessions[id].exportDigest.Some? ==> s.exportDigest == sessions[id].exportDigest
    requires ReachedReady(sessions[id]) ==> sessions[id].exportDigest.Some? && ReachedReady(s)
    requires s.status.Ready? || !ReachedReady(s) || NoOpenImport(imports, id)
    ensures ImportFits(sessions[id := s], imports[other])
  {
  }

  lemma ArtifactStillFits(sessions: map<string, Session>, id: string, s: Session, imports: map<string, Import>,
                          artifactId: string, a: Artifact)
    requires ArtifactFits(sessions, imports, artifactId, a) && sessions[a.sessionId].exportDigest.Some?
    requires id in sessions && s.identity == sessions[id].identity
    requires sessions[id].exportDigest.Some? ==> s.exportDigest == sessions[id].exportDigest
    ensures ArtifactFits(sessions[id := s], imports, artifactId, a)
  {
  }

  lemma ArtifactSessionIsReady(db: Db, artifactId: string)
    requires Inv(db) && artifactId in db.artifacts
    ensures ArtifactFits(db.sessions, db.imports, artifactId, db.artifacts[artifactId])
    ensures ReachedReady(db.sessions[db.artifacts[artifactId].sessionId])
    ensures db.sessions[db.artifacts[artifactId].sessionId].exportDigest.Some?
  {
    var a := db.artifacts[artifactId];
    var i := db.imports[a.importId];
    assert Produced(db.artifacts, a.importId, i) && ImportFits(db.sessions, i);
    assert SessionOk(db.sessions[a.sessionId], db.clock);
  }

  lemma SessionWrittenIsOk(db: Db, id: string, s: Session, call: Call)
    requires SessionOk(s, db.clock) && IsSessionCall(call) && ValidSessionCall(call)
    requires SessionWritten(db, id, s, call).Some?
    ensures var t := SessionWritten(db, id, s, call).value;
            && SessionOk(t, db.clock)
            && (ActiveSession(t) ==> ActiveSession(s))
            && t.identity == s.identity
            && (s.exportDigest.Some? ==> t.exportDigest == s.exportDigest)
            && (ReachedReady(s) ==> ReachedReady(t))
            && (t.status.Ready? || !ReachedReady(t) || NoOpenImport(db.imports, id) || call.MarkClosed?)
  {
    hide NoOpenImport;
  }

  lemma SessionCallKeepsInv(db: Db, call: Call)
    requires Inv(db) && IsSessionCall(call)
    ensures Inv(AfterSessionCall(db, call))
  {
    hide SessionOk, ImportsOk, ArtifactsOk, SessionWritten, NoOpenImport;
    if SessionFound(db, call.namespaceId, call.id) && ValidSessionCall(call) {
      var s := db.sessions[call.id];
      if SessionWritten(db, call.id, s, call).Some? {
        SessionWrittenIsOk(db, call.id, s, call);
        if call.MarkClosed? {
          ClosingHasNoOpenImport(db, call.id, call);
        }
        SessionMayChange(db, call.id, SessionWritten(db, call.id, s, call).value);
      }
    }
  }

  lemma ClosingHasNoOpenImport(db: Db, id: string, call: Call)
    requires Inv(db) && id in db.sessions && call.MarkClosed? && SessionWritten(db, id, db.sessions[id], call).Some?
    ensures NoOpenImport(db.imports, id)
  {
    hide Inv, ImportOk, Produced, HasFinal, FinalFits;
    forall other | other in db.imports && db.imports[other].sessionId == id ensures Settled(db.imports[other]) {
      ImportOfInv(db, other);
    }
  }

  lemma OpenKeepsInv(db: Db, create: CreateSession, id: string, ownerToken: string)
    requires Inv(db) && id !in db.sessions
    ensures Inv(AfterOpen(db, create, id, ownerToken))
  {
    hide SessionOk, ImportOk, ImportFits, Produced, ArtifactDecodes, ArtifactFits, SingleActive, NewSession, SessionCollides, ValidIdentity;
    if AfterOpen(db, create, id, ownerToken) != db {
      var sessions := db.sessions[id := NewSession(create, ownerToken, db.clock)];
      NewSessionIsOk(db, create, id, ownerToken);
      forall other | other in db.imports ensures ImportFits(sessions, db.imports[other]) {
        OtherSessionsDoNotMatter(db.sessions, id, sessions[id], db.imports[other]);
      }
      forall other | other in db.artifacts ensures ArtifactFits(sessions, db.imports, other, db.artifacts[other]) {
        OtherSessionsDoNotMatterToArtifacts(db.sessions, id, sessions[id], db.imports, other, db.artifacts[other]);
      }
    }
  }

  lemma OtherSessionsDoNotMatter(sessions: map<string, Session>, id: string, s: Session, i: Import)
    requires id !in sessions && ImportFits(sessions, i)
    ensures ImportFits(sessions[id := s], i)
  {
  }

  lemma OtherSessionsDoNotMatterToArtifacts(sessions: map<string, Session>, id: string, s: Session, imports: map<string, Import>,
                                            artifactId: string, a: Artifact)
    requires id !in sessions && ArtifactFits(sessions, imports, artifactId, a)
    ensures ArtifactFits(sessions[id := s], imports, artifactId, a)
  {
  }

  /** The partial unique index lets a session in only when none is active. */
  lemma NewSessionIsOk(db: Db, create: CreateSession, id: string, ownerToken: string)
    requires Inv(db) && ValidIdentity(create.identity) && !SessionCollides(db.sessions, create)
    ensures SessionOk(NewSession(create, ownerToken, db.clock), db.clock)
    ensures SingleActive(db.sessions[id := NewSession(create, ownerToken, db.clock)])
  {
    hide ImportsOk, ArtifactsOk;
    forall other | other in db.sessions ensures !ActiveSession(db.sessions[other]) {
      assert SessionOk(db.sessions[other], db.clock);
    }
  }

  // ---- Imports ----

  /** An import may move on if it still fits its session and no artifact was made of it. */
  lemma ImportMayChange(db: Db, id: string, i: Import)
    requires Inv(db) && (id in db.imports ==> !db.imports[id].status.Completed? || SameOutcome(db.imports[id], i))
    requires ImportOk(id, i, db.clock) && ImportFits(db.sessions, i) && Produced(db.artifacts, id, i)
    requires i.providerImportId.Some? ==>
               forall other | other in db.imports && other != id :: db.imports[other].providerImportId != i.providerImportId
    ensures Inv(db.(imports := db.imports[id := i]))
  {
    hide SessionsOk, ImportOk, ImportFits, Produced, ArtifactDecodes;
    forall other | other in db.artifacts ensures ArtifactFits(db.sessions, db.imports[id := i], other, db.artifacts[other]) {
      assert ArtifactFits(db.sessions, db.imports, other, db.artifacts[other]);
    }
    hide ArtifactFits;
  }

  predicate SameOutcome(i: Import, j: Import) {
    i.status == j.status && i.artifactId == j.artifactId
  }

  lemma RequestKeepsInv(db: Db, request: CreateImport, id: string)
    requires Inv(db) && id !in db.imports
    ensures Inv(AfterRequest(db, request, id))
  {
    hide Inv, ImportOk, ImportFits, Produced, ImportCollides;
    if AfterRequest(db, request, id) != db {
      NewImportIsOk(db, request, id);
      ImportMayChange(db, id, NewImport(request, db.clock));
    }
  }

  lemma NewImportIsOk(db: Db, request: CreateImport, id: string)
    requires SessionFound(db, request.namespaceId, request.sessionId) && db.sessions[request.sessionId].status.Ready?
    ensures var i := NewImport(request, db.clock);
            ImportOk(id, i, db.clock) && ImportFits(db.sessions, i) && Produced(db.artifacts, id, i)
  {
  }

  lemma StageIsOk(db: Db, id: string, i: Import, call: Call)
    requires ImportOk(id, i, db.clock) && ImportFits(db.sessions, i) && call.Stage? && ImportWritten(db, id, i, call).Some?
    ensures var j := ImportWritten(db, id, i, call).value;
            ImportOk(id, j, db.clock) && ImportFits(db.sessions, j) && !j.status.Completed?
  {
    hide StagingObjectKey, ProviderImportTaken;
  }

  lemma BeginFinalizingIsOk(db: Db, id: string, i: Import, call: Call)
    requires ImportOk(id, i, db.clock) && ImportFits(db.sessions, i)
    requires call.BeginFinalizing? && ImportWritten(db, id, i, call).Some?
    ensures var j := ImportWritten(db, id, i, call).value;
            ImportOk(id, j, db.clock) && ImportFits(db.sessions, j) && !j.status.Completed?
  {
    hide StagingObjectKey;
  }

  lemma FailImportIsOk(db: Db, id: string, i: Import, call: Call)
    requires ImportOk(id, i, db.clock) && ImportFits(db.sessions, i) && call.FailImport? && ImportWritten(db, id, i, call).Some?
    ensures var j := ImportWritten(db, id, i, call).value;
            ImportOk(id, j, db.clock) && ImportFits(db.sessions, j) && !j.status.Completed?
  {
    hide StagingObjectKey;
  }

  lemma MarkCleanedIsOk(db: Db, id: string, i: Import, call: Call)
    requires ImportOk(id, i, db.clock) && ImportFits(db.sessions, i) && Produced(db.artifacts, id, i)
    requires call.MarkCleaned? && ImportWritten(db, id, i, call).Some?
    ensures var j := ImportWritten(db, id, i, call).value;
            ImportOk(id, j, db.clock) && ImportFits(db.sessions, j) && Produced(db.artifacts, id, j) && SameOutcome(i, j)
  {
    hide StagingObjectKey;
  }

  lemma ImportWrittenIsOk(db: Db, id: string, call: Call)
    requires Inv(db) && id in db.imports && IsImportCall(call) && ImportWritten(db, id, db.imports[id], call).Some?
    ensures var i, j := db.imports[id], ImportWritten(db, id, db.imports[id], call).value;
            && ImportOk(id, j, db.clock) && ImportFits(db.sessions, j) && Produced(db.artifacts, id, j)
            && (i.status.Completed? ==> SameOutcome(i, j))
            && (j.providerImportId.Some? ==>
                  forall other | other in db.imports && other != id :: db.imports[other].providerImportId != j.providerImportId)
  {
    hide SessionsOk, ArtifactsOk, ImportOk, ImportFits, ImportWritten, Produced;
    var i := db.imports[id];
    ProviderStaysUnique(db, id, call);
    ProducesNothing(db.artifacts, id, ImportWritten(db, id, i, call).value);
    match call {
      case Stage(_, _, _, _) => StageIsOk(db, id, i, call);
      case BeginFinalizing(_, _, _) => BeginFinalizingIsOk(db, id, i, call);
      case FailImport(_, _, _) => FailImportIsOk(db, id, i, call);
      case MarkCleaned(_, _) => MarkCleanedIsOk(db, id, i, call);
    }
  }

  lemma ProducesNothing(artifacts: map<string, Artifact>, id: string, i: Import)
    ensures !i.status.Completed? ==> Produced(artifacts, id, i)
  {
  }

  lemma ProviderStaysUnique(db: Db, id: string, call: Call)
    requires Inv(db) && id in db.imports && IsImportCall(call) && ImportWritten(db, id, db.imports[id], call).Some?
    ensures var j := ImportWritten(db, id, db.imports[id], call).value;
            j.providerImportId.Some? ==>
              forall other | other in db.imports && other != id :: db.imports[other].providerImportId != j.providerImportId
    ensures db.imports[id].status.Completed? ==> call.MarkCleaned?
  {
    hide SessionsOk, ArtifactsOk, ImportOk, ImportFits, Produced, ValidFinal, FinalMatches;
  }

  lemma ImportCallKeepsInv(db: Db, call: Call)
    requires Inv(db) && IsImportCall(call)
    ensures Inv(AfterImportCall(db, call))
  {
    hide Inv, ImportWritten, ImportOk, ImportFits, Produced;
    if ImportFound(db, call.namespaceId, call.id) && ImportWritten(db, call.id, db.imports[call.id], call).Some? {
      ImportWrittenIsOk(db, call.id, call);
      ImportMayChange(db, call.id, ImportWritten(db, call.id, db.imports[call.id], call).value);
    }
  }

  // ---- Finalization ----

  /** A finalizing import in a good state has everything its artifact needs: the insert cannot find another
      artifact of the same import, and both rows that are written decode. */
  lemma FinalizationIsReadable(db: Db, id: string, artifactId: string)
    requires Inv(db) && id in db.imports && db.imports[id].status.Finalizing? && artifactId !in db.artifacts
    ensures var i := db.imports[id];
            && HasFinal(i) && SessionFound(db, i.namespaceId, i.sessionId)
            && (forall other :: !ArtifactFor(db.artifacts, other, id))
            && var a := NewArtifact(id, i, db.sessions[i.sessionId], ObjectLocator(i.archiveDigest.value), db.clock);
            && ArtifactDecodes(a)
            && ImportDecodes(id, Completing(i, artifactId, db.clock))
            && Finalized(db, i.namespaceId, id, ObjectLocator(i.archiveDigest.value), artifactId) ==
               Ok(Some(Finalization(db.(artifacts := db.artifacts[artifactId := a],
                                        imports := db.imports[id := Completing(i, artifactId, db.clock)]), artifactId)))
  {
    hide Inv, ImportDecodes, ArtifactDecodes, SessionDecodes, NewArtifact, ObjectLocator, HasFinal, SameArtifact;
    var i := db.imports[id];
    NoArtifactYet(db, id);
    FinalizingDecodes(db, id, artifactId);
  }

  function Completing(i: Import, artifactId: string, now: int): Import {
    i.(status := Completed, artifactId := Some(artifactId), completedAt := Some(now))
  }

  lemma NoArtifactYet(db: Db, id: string)
    requires Inv(db) && id in db.imports && !db.imports[id].status.Completed?
    ensures forall other :: !ArtifactFor(db.artifacts, other, id)
  {
    hide SessionsOk, ImportsOk, ArtifactDecodes;
    forall other | other in db.artifacts ensures db.artifacts[other].importId != id {
      assert ArtifactFits(db.sessions, db.imports, other, db.artifacts[other]);
    }
  }

  lemma FinalizingDecodes(db: Db, id: string, artifactId: string)
    requires Inv(db) && id in db.imports && db.imports[id].status.Finalizing?
    ensures var i := db.imports[id];
            && ImportDecodes(id, i) && HasFinal(i)
            && SessionFound(db, i.namespaceId, i.sessionId) && SessionDecodes(db.sessions[i.sessionId])
            && ImportDecodes(id, Completing(i, artifactId, db.clock))
            && ArtifactDecodes(NewArtifact(id, i, db.sessions[i.sessionId], ObjectLocator(i.archiveDigest.value), db.clock))
  {
    hide StagingObjectKey, ObjectLocator, Inv;
    ImportOfInv(db, id);
    SessionOfInv(db, db.imports[id].sessionId);
  }

  /** Finalization never meets the inconsistencies it guards against. */
  lemma FinalizationIsConsistent(db: Db, namespaceId: string, id: string, objectLocator: string, artifactId: string)
    requires Inv(db) && artifactId !in db.artifacts
    ensures Finalized(db, namespaceId, id, objectLocator, artifactId) != Throws(ConsistencyError)
    ensures AfterFinalize(db, namespaceId, id, objectLocator, artifactId) == db ||
            (ImportFound(db, namespaceId, id) && db.imports[id].status.Finalizing? &&
             HasFinal(db.imports[id]) && objectLocator == ObjectLocator(db.imports[id].archiveDigest.value))
  {
    hide Inv, ImportDecodes, ArtifactDecodes, SessionDecodes, NewArtifact, ObjectLocator, CompleteImport, SameArtifact, ArtifactFits;
    if ImportFound(db, namespaceId, id) {
      var i := db.imports[id];
      ImportOfInv(db, id);
      if i.status.Finalizing? {
        FinalizationIsReadable(db, id, artifactId);
      } else if i.status.Completed? {
        ArtifactOfInv(db, i.artifactId.value);
      }
    }
  }

  lemma FinalizeKeepsInv(db: Db, namespaceId: string, id: string, objectLocator: string, artifactId: string)
    requires Inv(db) && artifactId !in db.artifacts
    ensures Inv(AfterFinalize(db, namespaceId, id, objectLocator, artifactId))
  {
    FinalizationIsConsistent(db, namespaceId, id, objectLocator, artifactId);
    if AfterFinalize(db, namespaceId, id, objectLocator, artifactId) != db {
      var i := db.imports[id];
      FinalizationIsReadable(db, id, artifactId);
      var a := NewArtifact(id, i, db.sessions[i.sessionId], objectLocator, db.clock);
      hide Inv, ImportDecodes, ArtifactDecodes, NewArtifact, ObjectLocator, Finalized;
      PairMayAppear(db, id, Completing(i, artifactId, db.clock), artifactId, a);
    }
  }

  /** Completing an import and adding its artifact, together. */
  lemma PairMayAppear(db: Db, id: string, j: Import, artifactId: string, a: Artifact)
    requires Inv(db) && id in db.imports && db.imports[id].status.Finalizing? && artifactId !in db.artifacts
    requires HasFinal(db.imports[id]) && db.imports[id].sessionId in db.sessions
    requires j == Completing(db.imports[id], artifactId, db.clock) && ImportDecodes(id, j) && ArtifactDecodes(a)
    requires a == NewArtifact(id, db.imports[id], db.sessions[db.imports[id].sessionId], a.objectLocator, db.clock)
    ensures Inv(db.(artifacts := db.artifacts[artifactId := a], imports := db.imports[id := j]))
  {
    hide SessionsOk, ImportOk, ImportFits, Produced, ArtifactDecodes, ArtifactFits, NewArtifact, HasFinal, ImportDecodes;
    PairFits(db, id, j, artifactId, a);
    OthersStay(db, id, j, artifactId, a);
    assert j.providerImportId == db.imports[id].providerImportId;
  }

  lemma PairFits(db: Db, id: string, j: Import, artifactId: string, a: Artifact)
    requires Inv(db) && id in db.imports && db.imports[id].status.Finalizing?
    requires HasFinal(db.imports[id]) && db.imports[id].sessionId in db.sessions
    requires j == Completing(db.imports[id], artifactId, db.clock) && ImportDecodes(id, j)
    requires a == NewArtifact(id, db.imports[id], db.sessions[db.imports[id].sessionId], a.objectLocator, db.clock)
    ensures ImportOk(id, j, db.clock) && ImportFits(db.sessions, j)
    ensures Produced(db.artifacts[artifactId := a], id, j)
    ensures ArtifactFits(db.sessions, db.imports[id := j], artifactId, a)
  {
    hide Inv, StagingObjectKey;
    ImportOfInv(db, id);
  }

  lemma OthersStay(db: Db, id: string, j: Import, artifactId: string, a: Artifact)
    requires Inv(db) && id in db.imports && !db.imports[id].status.Completed? && artifactId !in db.artifacts
    ensures forall other | other in db.imports :: Produced(db.artifacts[artifactId := a], other, db.imports[other])
    ensures forall other | other in db.artifacts :: ArtifactFits(db.sessions, db.imports[id := j], other, db.artifacts[other])
  {
    hide Inv, ImportOk, ImportFits, ArtifactDecodes, SameArtifact;
    forall other | other in db.imports ensures Produced(db.artifacts[artifactId := a], other, db.imports[other]) {
      ImportOfInv(db, other);
    }
    forall other | other in db.artifacts ensures ArtifactFits(db.sessions, db.imports[id := j], other, db.artifacts[other]) {
      ArtifactOfInv(db, other);
    }
  }

  // ---- Every step, every run ----

  lemma CallKeepsInv(db: Db, call: Call)
    requires Inv(db) && FreshIds(db, call)
    ensures Inv(Apply(db, call))
  {
    hide Inv, AfterOpen, AfterRequest, AfterSessionCall, AfterImportCall, AfterFinalize;
    match call {
      case OpenSession(create, id, ownerToken) => OpenKeepsInv(db, create, id, ownerToken);
      case RequestImport(request, id) => RequestKeepsInv(db, request, id);
      case Finalize(namespaceId, id, objectLocator, artifactId) => FinalizeKeepsInv(db, namespaceId, id, objectLocator, artifactId);
      case Stage(_, _, _, _) => ImportCallKeepsInv(db, call);
      case BeginFinalizing(_, _, _) => ImportCallKeepsInv(db, call);
      case FailImport(_, _, _) => ImportCallKeepsInv(db, call);
      case MarkCleaned(_, _) => ImportCallKeepsInv(db, call);
      case _ => SessionCallKeepsInv(db, call);
    }
  }

  lemma StepKeepsInv(db: Db, step: Step)
    requires Inv(db) && FreshIds(db, step.call)
    ensures Inv(Next(db, step))
  {
    hide Inv, Apply;
    TimeMayPass(db, db.clock + step.wait);
    CallKeepsInv(db.(clock := db.clock + step.wait), step.call);
  }

  lemma {:induction false} RunKeepsInv(db: Db, steps: seq<Step>)
    requires Inv(db) && FreshRun(db, steps)
    ensures Inv(AfterSteps(db, steps))
    decreases |steps|
  {
    hide Inv, Next, FreshIds;
    if steps != [] {
      StepKeepsInv(db, steps[0]);
      RunKeepsInv(Next(db, steps[0]), steps[1..]);
    }
  }

  // ---- Unique keys ----

  predicate SameSessionKey(s: Session, t: Session) {
    || (s.identity.namespaceId == t.identity.namespaceId && s.identity.createDigest == t.identity.createDigest)
    || (s.identity.provider == t.identity.provider && s.providerSessionId == t.providerSessionId)
  }

  predicate SameImportKey(i: Import, j: Import) {
    && i.namespaceId == j.namespaceId
    && (i.createDigest == j.createDigest || (i.sessionId == j.sessionId && i.outputHandle == j.outputHandle))
  }

  /** The UNIQUE constraints of the two tables: no lookup by key finds more than one row. */
  ghost predicate UniqueKeys(db: Db) {
    && (forall a, b | a in db.sessions && b in db.sessions && SameSessionKey(db.sessions[a], db.sessions[b]) :: a == b)
    && (forall a, b | a in db.imports && b in db.imports && SameImportKey(db.imports[a], db.imports[b]) :: a == b)
  }

  lemma SessionKeyStays(db: Db, id: string, s: Session)
    requires UniqueKeys(db)
    requires forall other | other in db.sessions && other != id :: !SameSessionKey(s, db.sessions[other]) && !SameSessionKey(db.sessions[other], s)
    ensures UniqueKeys(db.(sessions := db.sessions[id := s]))
  {
    hide SameSessionKey, SameImportKey;
  }

  lemma ImportKeyStays(db: Db, id: string, i: Import)
    requires UniqueKeys(db)
    requires forall other | other in db.imports && other != id :: !SameImportKey(i, db.imports[other]) && !SameImportKey(db.imports[other], i)
    ensures UniqueKeys(db.(imports := db.imports[id := i]))
  {
    hide SameSessionKey, SameImportKey;
  }

  /** Updating a row without touching its keys. */
  lemma SessionMayMove(db: Db, id: string, s: Session)
    requires UniqueKeys(db) && id in db.sessions
    requires s.identity == db.sessions[id].identity && s.providerSessionId == db.sessions[id].providerSessionId
    ensures UniqueKeys(db.(sessions := db.sessions[id := s]))
  {
    forall other | other in db.sessions && other != id
      ensures !SameSessionKey(s, db.sessions[other]) && !SameSessionKey(db.sessions[other], s)
    {
      assert !SameSessionKey(db.sessions[id], db.sessions[other]);
    }
    SessionKeyStays(db, id, s);
  }

  lemma ImportMayMove(db: Db, id: string, i: Import)
    requires UniqueKeys(db) && id in db.imports
    requires i.namespaceId == db.imports[id].namespaceId && i.createDigest == db.imports[id].createDigest
    requires i.sessionId == db.imports[id].sessionId && i.outputHandle == db.imports[id].outputHandle
    ensures UniqueKeys(db.(imports := db.imports[id := i]))
  {
    forall other | other in db.imports && other != id
      ensures !SameImportKey(i, db.imports[other]) && !SameImportKey(db.imports[other], i)
    {
      assert !SameImportKey(db.imports[id], db.imports[other]);
    }
    ImportKeyStays(db, id, i);
  }

  lemma SessionCallKeepsKeys(db: Db, call: Call)
    requires UniqueKeys(db) && IsSessionCall(call)
    ensures UniqueKeys(AfterSessionCall(db, call))
  {
    hide UniqueKeys, SessionWritten, ValidSessionCall;
    if AfterSessionCall(db, call) != db {
      var s := db.sessions[call.id];
      WrittenKeepsSessionKey(db, call.id, s, call);
      SessionMayMove(db, call.id, SessionWritten(db, call.id, s, call).value);
    }
  }

  lemma WrittenKeepsSessionKey(db: Db, id: string, s: Session, call: Call)
    requires SessionWritten(db, id, s, call).Some?
    ensures var t := SessionWritten(db, id, s, call).value;
            t.identity == s.identity && t.providerSessionId == s.providerSessionId
  {
    hide NoOpenImport;
  }

  lemma ImportCallKeepsKeys(db: Db, call: Call)
    requires UniqueKeys(db) && IsImportCall(call)
    ensures UniqueKeys(AfterImportCall(db, call))
  {
    hide UniqueKeys, ValidFinal, FinalMatches, ProviderImportTaken;
    if AfterImportCall(db, call) != db {
      ImportMayMove(db, call.id, ImportWritten(db, call.id, db.imports[call.id], call).value);
    }
  }

  lemma CreationKeepsKeys(db: Db, call: Call)
    requires UniqueKeys(db) && (call.OpenSession? || call.RequestImport?)
    ensures UniqueKeys(Apply(db, call))
  {
    hide UniqueKeys;
    if Apply(db, call) != db {
      if call.OpenSession? {
        SessionKeyStays(db, call.id, NewSession(call.create, call.ownerToken, db.clock));
      } else {
        ImportKeyStays(db, call.id, NewImport(call.request, db.clock));
      }
    }
  }

  lemma FinalizeKeepsKeys(db: Db, namespaceId: string, id: string, objectLocator: string, artifactId: string)
    requires UniqueKeys(db)
    ensures UniqueKeys(AfterFinalize(db, namespaceId, id, objectLocator, artifactId))
  {
    hide UniqueKeys, ImportDecodes, ArtifactDecodes, SessionDecodes, ObjectLocator, SameArtifact, HasFinal;
    var after := AfterFinalize(db, namespaceId, id, objectLocator, artifactId);
    if after != db {
      ImportMayMove(db, id, after.imports[id]);
      KeysAreOfImports(db.(imports := after.imports), after);
    }
  }

  lemma KeysAreOfImports(a: Db, b: Db)
    requires UniqueKeys(a) && a.sessions == b.sessions && a.imports == b.imports
    ensures UniqueKeys(b)
  {
  }

  lemma CallKeepsKeys(db: Db, call: Call)
    requires UniqueKeys(db)
    ensures UniqueKeys(Apply(db, call))
  {
    hide UniqueKeys, AfterOpen, AfterRequest, AfterSessionCall, AfterImportCall, AfterFinalize;
    match call {
      case OpenSession(_, _, _) => CreationKeepsKeys(db, call);
      case RequestImport(_, _) => CreationKeepsKeys(db, call);
      case Finalize(namespaceId, id, objectLocator, artifactId) => FinalizeKeepsKeys(db, namespaceId, id, objectLocator, artifactId);
      case Stage(_, _, _, _) => ImportCallKeepsKeys(db, call);
      case BeginFinalizing(_, _, _) => ImportCallKeepsKeys(db, call);
      case FailImport(_, _, _) => ImportCallKeepsKeys(db, call);
      case MarkCleaned(_, _) => ImportCallKeepsKeys(db, call);
      case _ => SessionCallKeepsKeys(db, call);
    }
  }

  lemma {:induction false} RunKeepsKeys(db: Db, steps: seq<Step>)
    requires UniqueKeys(db)
    ensures UniqueKeys(AfterSteps(db, steps))
    decreases |steps|
  {
    hide UniqueKeys, Apply;
    if steps != [] {
      var waited := db.(clock := db.clock + steps[0].wait);
      KeysAreOfImports(db, waited);
      CallKeepsKeys(waited, steps[0].call);
      RunKeepsKeys(Next(db, steps[0]), steps[1..]);
    }
  }
}
