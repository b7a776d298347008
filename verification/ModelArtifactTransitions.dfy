/** What each session and import call does, from the stored rows and the clock alone: exactly when it writes,
    every column it writes, and what it answers otherwise. */
module ModelArtifactTransitions {
  import opened Text
  import opened Json
  import opened ModelArtifacts
  import opened ModelArtifactInvariant
  import opened ModelArtifactTheorems
  import opened ModelArtifactAnswers
  import opened ModelArtifactCatalog
  import JsonSameness

  // ---- Sessions ----

  ghost predicate SessionThere(db: Db, namespaceId: string, id: string) {
    id in db.sessions && db.sessions[id].identity.namespaceId == namespaceId
  }

  /** The transition writes this row and nothing else, and answers with it. */
  ghost predicate MovesSession(db: Db, namespaceId: string, id: string, t: SessionTransition, row: Session) {
    && Apply(db, TransitionCall(namespaceId, id, t)) == db.(sessions := db.sessions[id := row])
    && TransitionAnswer(db, namespaceId, id, t) == Ok(Some(row))
  }

  /** It changes nothing; the answer is the row if that is where the transition leads, and otherwise a conflict. */
  ghost predicate LeavesSession(db: Db, namespaceId: string, id: string, t: SessionTransition, there: bool) {
    && Apply(db, TransitionCall(namespaceId, id, t)) == db
    && (!SessionThere(db, namespaceId, id) ==> TransitionAnswer(db, namespaceId, id, t) == Ok(None))
    && (SessionThere(db, namespaceId, id) && there ==> TransitionAnswer(db, namespaceId, id, t) == Ok(Some(db.sessions[id])))
    && (SessionThere(db, namespaceId, id) && !there ==> TransitionAnswer(db, namespaceId, id, t) == Throws(ConflictError))
  }

  lemma SessionCallMoves(db: Db, call: Call)
    requires IsSessionCall(call)
    ensures Apply(db, call) ==
            if !ValidSessionCall(call) || !SessionThere(db, call.namespaceId, call.id) then db
            else
              match SessionWritten(db, call.id, db.sessions[call.id], call)
              case None => db
              case Some(s) => db.(sessions := db.sessions[call.id := s])
  {
    hide SessionWritten, ValidSessionCall;
  }

  /** Preparing ends in ready by the hand of its owner, and of nobody else. */
  lemma ReadyMoves(db: Db, namespaceId: string, id: string, token: string, digest: string, size: int)
    requires 0 <= size <= 9223372036854775807
    ensures var t := ToReady(token, digest, size);
            if SessionThere(db, namespaceId, id) && db.sessions[id].status == Preparing && db.sessions[id].ownerToken == token
            then MovesSession(db, namespaceId, id, t,
                              db.sessions[id].(status := Ready, exportDigest := Some(digest), exportSize := Some(size),
                                               abandonedAt := None, readyAt := Some(db.clock)))
            else LeavesSession(db, namespaceId, id, t,
                               SessionThere(db, namespaceId, id) && db.sessions[id].status == Ready &&
                               (db.sessions[id].exportDigest, db.sessions[id].exportSize) == (Some(digest), Some(size)))
  {
    hide Apply;
    SessionCallMoves(db, TransitionCall(namespaceId, id, ToReady(token, digest, size)));
  }

  /** So it does in failure. */
  lemma FailureMoves(db: Db, namespaceId: string, id: string, token: string, failure: Failure)
    ensures var t := ToFailed(token, failure);
            if SessionThere(db, namespaceId, id) && db.sessions[id].status == Preparing && db.sessions[id].ownerToken == token
            then MovesSession(db, namespaceId, id, t,
                              db.sessions[id].(status := SessionFailed, abandonedAt := None, failure := Some(failure)))
            else LeavesSession(db, namespaceId, id, t,
                               SessionThere(db, namespaceId, id) && db.sessions[id].status == SessionFailed &&
                               db.sessions[id].failure == Some(failure))
  {
    hide Apply;
    SessionCallMoves(db, TransitionCall(namespaceId, id, ToFailed(token, failure)));
  }

  /** A ready session closes in two steps, the first of them once all its imports are completed or failed. */
  lemma ClosingMoves(db: Db, namespaceId: string, id: string)
    ensures if SessionThere(db, namespaceId, id) && db.sessions[id].status == Ready &&
               forall i | i in db.imports && db.imports[i].sessionId == id :: db.imports[i].status in {Completed, ImportFailed}
            then MovesSession(db, namespaceId, id, ToClosing, db.sessions[id].(status := Closing))
            else LeavesSession(db, namespaceId, id, ToClosing, SessionThere(db, namespaceId, id) && db.sessions[id].status == Closing)
    ensures if SessionThere(db, namespaceId, id) && db.sessions[id].status == Closing
            then MovesSession(db, namespaceId, id, ToClosed, db.sessions[id].(status := Closed, closedAt := Some(db.clock)))
            else LeavesSession(db, namespaceId, id, ToClosed, SessionThere(db, namespaceId, id) && db.sessions[id].status == Closed)
  {
    hide Apply;
    SessionCallMoves(db, TransitionCall(namespaceId, id, ToClosing));
    SessionCallMoves(db, TransitionCall(namespaceId, id, ToClosed));
  }

  lemma ReopeningMoves(db: Db, namespaceId: string, id: string)
    ensures Apply(db, Reopen(namespaceId, id)) ==
            if SessionThere(db, namespaceId, id) && db.sessions[id].status == Closing
            then db.(sessions := db.sessions[id := db.sessions[id].(status := Ready)])
            else db
  {
    hide Apply;
    SessionCallMoves(db, Reopen(namespaceId, id));
  }

  /** Only its owner abandons a preparation, the first time counting, or renews it for five hours from now. */
  lemma OwnerMoves(db: Db, namespaceId: string, id: string, token: string)
    ensures if SessionThere(db, namespaceId, id) && db.sessions[id].status == Preparing && db.sessions[id].ownerToken == token
            then
              var s := db.sessions[id];
              && Apply(db, AbandonPreparation(namespaceId, id, token)) ==
                 (if s.abandonedAt == None then db.(sessions := db.sessions[id := s.(abandonedAt := Some(db.clock))]) else db)
              && Apply(db, RenewPreparation(namespaceId, id, token)) ==
                 db.(sessions := db.sessions[id := s.(abandonedAt := None, expiresAt := db.clock + 5 * 3600 * 1000000)])
            else Apply(db, AbandonPreparation(namespaceId, id, token)) == db && Apply(db, RenewPreparation(namespaceId, id, token)) == db
  {
    hide Apply;
    SessionCallMoves(db, AbandonPreparation(namespaceId, id, token));
    SessionCallMoves(db, RenewPreparation(namespaceId, id, token));
    if id in db.sessions {
      assert db.sessions[id := db.sessions[id]] == db.sessions;
    }
  }

  /** Somebody else takes a preparation over exactly when it has run out, or was abandoned `graceMs` ago or
      earlier, and names the owner it takes it from. */
  lemma TakeoverMoves(db: Db, namespaceId: string, id: string, token: string, graceMs: int, newToken: string)
    requires 0 <= graceMs <= 86400000
    ensures Apply(db, ClaimPreparation(namespaceId, id, token, graceMs, newToken)) ==
            if SessionThere(db, namespaceId, id) && db.sessions[id].status == Preparing && db.sessions[id].ownerToken == token &&
               (db.sessions[id].expiresAt <= db.clock ||
                (db.sessions[id].abandonedAt != None && db.sessions[id].abandonedAt.value + 1000 * graceMs <= db.clock))
            then db.(sessions := db.sessions[id := db.sessions[id].(ownerToken := newToken, abandonedAt := None,
                                                                    expiresAt := db.clock + 5 * 3600 * 1000000)])
            else db
  {
    hide Apply;
    SessionCallMoves(db, ClaimPreparation(namespaceId, id, token, graceMs, newToken));
  }

  /** A session opens exactly when no session is active with the provider, none has its provider id and none its
      creation key; it starts in preparation, with five hours to go. */
  lemma OpeningMoves(db: Db, create: CreateSession, id: string, token: string)
    requires create.identity.provider == "swift-studio" && 0 < create.identity.exportOutputCount <= 9223372036854775807
    requires create.identity.namespaceId in db.namespaces && create.identity.datasetVersion in db.snapshots
    ensures var row := Session(create.identity, create.options, create.providerSessionId, Preparing, None, None, None, token, None,
                               db.clock + 5 * 3600 * 1000000, db.clock, None, None);
            if forall other | other in db.sessions ::
                 var s := db.sessions[other];
                 && (s.identity.namespaceId, s.identity.createDigest) != (create.identity.namespaceId, create.identity.createDigest)
                 && (s.identity.provider == "swift-studio" ==>
                       s.providerSessionId != create.providerSessionId && s.status !in {Preparing, Ready, Closing})
            then Apply(db, OpenSession(create, id, token)) == db.(sessions := db.sessions[id := row]) &&
                 OpenAnswer(db, create, token) == Ok(row)
            else Apply(db, OpenSession(create, id, token)) == db &&
                 ((forall other | other in db.sessions ::
                     var s := db.sessions[other];
                     (s.identity.namespaceId, s.identity.createDigest) != (create.identity.namespaceId, create.identity.createDigest)) ==>
                   OpenAnswer(db, create, token) == Throws(ConflictError))
  {
    hide AfterRequest, AfterFinalize, AfterImportCall, AfterSessionCall, SameSession;
  }

  /** Asking again under the same key reads the session back if everything asked for is the same, and is a
      conflict otherwise; it never opens another. */
  lemma ReopenedRequestIsRead(db: Db, create: CreateSession, id: string, other: string, token: string)
    requires UniqueKeys(db) && create.identity.provider == "swift-studio" && 0 < create.identity.exportOutputCount <= 9223372036854775807
    requires id in db.sessions && db.sessions[id].identity.namespaceId == create.identity.namespaceId
    requires db.sessions[id].identity.createDigest == create.identity.createDigest
    ensures var s := db.sessions[id];
            OpenAnswer(db, create, token) ==
            if s.identity == create.identity && CanonicalJsonV2(s.options) == CanonicalJsonV2(create.options) then Ok(s)
            else Throws(ConflictError)
    ensures Apply(db, OpenSession(create, other, token)) == db
  {
    hide UniqueKeys, CanonicalJsonV2, SameJson;
    TheSessionReplay(db, create, token, id);
    JsonSameness.SameJsonIsSameText(db.sessions[id].options, create.options);
  }

  /** An export size out of range, another provider and an export count out of range are refused; an unknown
      namespace or dataset violates a foreign key. */
  lemma MalformedSessionsThrow(db: Db, create: CreateSession, namespaceId: string, id: string, token: string, digest: string, size: int)
    ensures TransitionAnswer(db, namespaceId, id, ToReady(token, digest, size)) == Throws(InputError) <==>
              size < 0 || size >= 0x8000_0000_0000_0000
    ensures OpenAnswer(db, create, token) == Throws(InputError) <==>
              create.identity.provider != "swift-studio" || create.identity.exportOutputCount <= 0 ||
              create.identity.exportOutputCount >= 0x8000_0000_0000_0000
    ensures OpenAnswer(db, create, token) == Throws(ConstraintViolation) ==>
              create.identity.namespaceId !in db.namespaces || create.identity.datasetVersion !in db.snapshots
    ensures create.identity.namespaceId !in db.namespaces || create.identity.datasetVersion !in db.snapshots ==>
              Apply(db, OpenSession(create, id, token)) == db
  {
    hide SessionCollides, SameSession, AfterRequest, AfterFinalize, AfterImportCall, AfterSessionCall;
  }

  // ---- Imports ----

  ghost predicate ImportThere(db: Db, namespaceId: string, id: string) {
    id in db.imports && db.imports[id].namespaceId == namespaceId
  }

  ghost predicate MovesImport(db: Db, namespaceId: string, id: string, t: ImportTransition, row: Import) {
    && Apply(db, ImportTransitionCall(namespaceId, id, t)) == db.(imports := db.imports[id := row])
    && ImportAnswer(db, namespaceId, id, t) == Ok(Some(row))
  }

  ghost predicate LeavesImport(db: Db, namespaceId: string, id: string, t: ImportTransition, answer: Result<Option<Import>>) {
    && Apply(db, ImportTransitionCall(namespaceId, id, t)) == db
    && ImportAnswer(db, namespaceId, id, t) == (if ImportThere(db, namespaceId, id) then answer else Ok(None))
  }

  lemma ImportCallMoves(db: Db, call: Call)
    requires IsImportCall(call)
    ensures Apply(db, call) ==
            if !ImportThere(db, call.namespaceId, call.id) then db
            else
              match ImportWritten(db, call.id, db.imports[call.id], call)
              case None => db
              case Some(i) => db.(imports := db.imports[call.id := i])
  {
    hide ImportWritten;
  }

  /** A requested import is staged with a provider import that no row has; one further on answers with itself. */
  lemma StagingMoves(db: Db, namespaceId: string, id: string, providerImportId: string, outputSnapshot: string)
    requires ImportThere(db, namespaceId, id)
    ensures var t, i := ToStaging(providerImportId, outputSnapshot), db.imports[id];
            var taken := exists other :: other in db.imports && db.imports[other].providerImportId == Some(providerImportId);
            if i.status == Requested && !taken
            then MovesImport(db, namespaceId, id, t,
                             i.(status := Staging, providerImportId := Some(providerImportId),
                                outputSnapshot := Some(outputSnapshot), stagingAt := Some(db.clock)))
            else LeavesImport(db, namespaceId, id, t,
                              if i.status == Requested then Throws(ConstraintViolation)
                              else if i.status != ImportFailed &&
                                      (i.providerImportId, i.outputSnapshot) == (Some(providerImportId), Some(outputSnapshot)) then Ok(Some(i))
                              else Throws(ConflictError))
  {
    hide Apply;
    ImportCallMoves(db, ImportTransitionCall(namespaceId, id, ToStaging(providerImportId, outputSnapshot)));
  }

  /** An import fails from any state before its end. */
  lemma ImportFailureMoves(db: Db, namespaceId: string, id: string, failure: Failure)
    requires ImportThere(db, namespaceId, id)
    ensures var t, i := ToImportFailed(failure), db.imports[id];
            if i.status in {Requested, Staging, Finalizing}
            then MovesImport(db, namespaceId, id, t, i.(status := ImportFailed, failure := Some(failure), failedAt := Some(db.clock)))
            else LeavesImport(db, namespaceId, id, t,
                              if i.status == ImportFailed && i.failure == Some(failure) then Ok(Some(i)) else Throws(ConflictError))
  {
    hide Apply;
    ImportCallMoves(db, ImportTransitionCall(namespaceId, id, ToImportFailed(failure)));
  }

  /** Staging is marked cleaned once, and only after the end. */
  lemma CleaningMoves(db: Db, namespaceId: string, id: string)
    ensures Apply(db, MarkCleaned(namespaceId, id)) ==
            if ImportThere(db, namespaceId, id) && db.imports[id].status in {Completed, ImportFailed} && db.imports[id].cleanedAt == None
            then db.(imports := db.imports[id := db.imports[id].(cleanedAt := Some(db.clock))])
            else db
  {
    hide Apply;
    ImportCallMoves(db, MarkCleaned(namespaceId, id));
    if id in db.imports {
      assert db.imports[id := db.imports[id]] == db.imports;
    }
  }

  /** What is known of the archive is consistent in itself: staged under the import's own key, sized and claimed
      soundly, and described by its manifest. */
  ghost predicate WellDescribed(id: string, f: Final) {
    && f.stagingObjectKey == "staging/swift-artifact/v1/" + id + "/archive.tar.zst"
    && 0 <= f.archiveSize <= 9007199254740991
    && (f.manifest.archiveDigest, f.manifest.archiveSize, f.manifest.dataset, f.manifest.baseModel.binding)
       == (f.archiveDigest, f.archiveSize, f.dataset, f.binding)
    && (f.dataset.version.Some? <==> f.dataset.exportDigest.Some?)
    && (f.dataset.status == Verified <==> f.dataset.version.Some?)
    && (f.binding == BoundVerified ==> f.manifest.baseModel.revision != None)
  }

  /** And with the import and its session: verified lineage is the session's own dataset and export. */
  ghost predicate DescribesImport(i: Import, s: Session, f: Final) {
    && i.outputSnapshot == Some(f.manifest.outputSnapshot)
    && (f.manifest.sessionId, f.manifest.upstreamCommit, f.manifest.imageDigest)
       == (i.sessionId, s.identity.upstreamCommit, s.identity.imageDigest)
    && (f.manifest.baseModel.reference, f.manifest.baseModel.revision) == (i.baseReference, i.baseRevision)
    && (f.dataset.status == Verified ==> (f.dataset.version, f.dataset.exportDigest) == (Some(s.identity.datasetVersion), s.exportDigest))
  }

  lemma DescriptionsAre(id: string, i: Import, s: Session, f: Final)
    ensures WellDescribed(id, f) <==> ValidFinal(id, f)
    ensures DescribesImport(i, s, f) <==> FinalMatches(i, s, f)
  {
  }

  /** A staged import gets all the columns of its archive at once, if the description fits. */
  lemma FinalizingMoves(db: Db, namespaceId: string, id: string, f: Final)
    requires Inv(db) && ImportThere(db, namespaceId, id)
    ensures var t, i := ToFinalizing(f), db.imports[id];
            i.sessionId in db.sessions &&
            var fits := WellDescribed(id, f) && DescribesImport(i, db.sessions[i.sessionId], f);
            if fits && i.status == Staging
            then MovesImport(db, namespaceId, id, t,
                             i.(status := Finalizing, stagingObjectKey := Some(f.stagingObjectKey), archiveDigest := Some(f.archiveDigest),
                                archiveSize := Some(f.archiveSize), manifestDigest := Some(f.manifestDigest), manifest := Some(f.manifest),
                                lineageStatus := Some(f.dataset.status), datasetVersion := f.dataset.version,
                                datasetExportDigest := f.dataset.exportDigest, binding := Some(f.binding), finalizingAt := Some(db.clock)))
            else LeavesImport(db, namespaceId, id, t,
                              if !fits then Throws(InputError)
                              else if i.status in {Finalizing, Completed} && AlreadyDescribed(i, f) then Ok(Some(i))
                              else Throws(ConflictError))
  {
    hide Apply, Inv, WellDescribed, DescribesImport, FinalMatches, ValidFinal, AlreadyDescribed;
    ImportHasSession(db, id);
    var i := db.imports[id];
    DescriptionsAre(id, i, db.sessions[i.sessionId], f);
    DescriptionsMatch(i, f);
    ImportCallMoves(db, ImportTransitionCall(namespaceId, id, ToFinalizing(f)));
  }

  /** The row has this description, its manifest up to how the JSON of its other parts is written. */
  ghost predicate AlreadyDescribed(i: Import, f: Final) {
    && (i.stagingObjectKey, i.archiveDigest, i.archiveSize) == (Some(f.stagingObjectKey), Some(f.archiveDigest), Some(f.archiveSize))
    && (i.manifestDigest, i.lineageStatus, i.binding) == (Some(f.manifestDigest), Some(f.dataset.status), Some(f.binding))
    && (i.datasetVersion, i.datasetExportDigest) == (f.dataset.version, f.dataset.exportDigest)
    && i.manifest != None
    && i.manifest.value == f.manifest.(others := i.manifest.value.others)
    && CanonicalJsonV2(i.manifest.value.others) == CanonicalJsonV2(f.manifest.others)
  }

  lemma DescriptionsMatch(i: Import, f: Final)
    ensures AlreadyDescribed(i, f) <==> SameImportTransition(i, ToFinalizing(f))
  {
    hide CanonicalJsonV2, SameJson;
    if i.manifest.Some? {
      JsonSameness.SameJsonIsSameText(i.manifest.value.others, f.manifest.others);
      var a, b := i.manifest.value, f.manifest;
      assert a == b.(others := a.others) <==> a.(others := Null) == b.(others := Null);
    }
  }

  /** A ready session takes an import of an output that has none, under a new creation key. */
  lemma RequestMoves(db: Db, request: CreateImport, id: string)
    requires SessionThere(db, request.namespaceId, request.sessionId)
    ensures var row := Import(request.namespaceId, request.createDigest, request.sessionId, request.outputHandle, request.displayName,
                              request.baseReference, request.baseRevision, Requested, None, None, None, None, None, None, None, None,
                              None, None, None, None, None, db.clock, None, None, None, None, None);
            if db.sessions[request.sessionId].status == Ready &&
               forall other | other in db.imports && db.imports[other].namespaceId == request.namespaceId ::
                 && db.imports[other].createDigest != request.createDigest
                 && (db.imports[other].sessionId, db.imports[other].outputHandle) != (request.sessionId, request.outputHandle)
            then Apply(db, RequestImport(request, id)) == db.(imports := db.imports[id := row]) && RequestAnswer(db, request) == Ok(row)
            else Apply(db, RequestImport(request, id)) == db &&
                 ((forall other | other in db.imports && db.imports[other].namespaceId == request.namespaceId ::
                     db.imports[other].createDigest != request.createDigest) ==>
                   RequestAnswer(db, request) ==
                   Throws(if db.sessions[request.sessionId].status == Ready then ConflictError else InputError))
  {
    hide AfterOpen, AfterFinalize, AfterImportCall, AfterSessionCall, SameRequest;
  }

  /** Asking again under the same key reads the import back if everything asked for is the same. */
  lemma RepeatedRequestIsRead(db: Db, request: CreateImport, id: string, other: string)
    requires UniqueKeys(db) && SessionThere(db, request.namespaceId, request.sessionId) && ImportThere(db, request.namespaceId, id)
    requires db.imports[id].createDigest == request.createDigest
    ensures var i := db.imports[id];
            RequestAnswer(db, request) ==
            if (i.sessionId, i.outputHandle, i.displayName, i.baseReference, i.baseRevision)
               == (request.sessionId, request.outputHandle, request.displayName, request.baseReference, request.baseRevision)
            then Ok(i) else Throws(ConflictError)
    ensures Apply(db, RequestImport(request, other)) == db
  {
    hide UniqueKeys;
    TheImportReplay(db, request, id);
  }

  /** Before the description is in, and after a failure, there is nothing to finalize; a completed import answers
      with its artifact, to the artifact's own locator. */
  lemma OtherFinalizations(db: Db, namespaceId: string, id: string, locator: string, artifactId: string)
    requires Inv(db) && ImportThere(db, namespaceId, id) && db.imports[id].status != Finalizing
    ensures Apply(db, Finalize(namespaceId, id, locator, artifactId)) == db
    ensures var i := db.imports[id];
            if i.status != Completed then Finalized(db, namespaceId, id, locator, artifactId) == Throws(ConflictError)
            else
              i.artifactId != None && i.artifactId.value in db.artifacts &&
              Finalized(db, namespaceId, id, locator, artifactId) ==
              if db.artifacts[i.artifactId.value].objectLocator == locator then Ok(Some(Finalization(db, i.artifactId.value)))
              else Throws(ConflictError)
  {
    hide Inv, ImportDecodes, ArtifactDecodes, SameArtifact, ImportFits, ArtifactFits;
    ImportOfInv(db, id);
    if db.imports[id].status.Completed? {
      ArtifactOfInv(db, db.imports[id].artifactId.value);
    }
  }

  /** The artifact is made of the import's own columns, under the locator of its archive. */
  ghost predicate RecordsImport(a: Artifact, id: string, i: Import, s: Session, now: int) {
    && (a.namespaceId, a.displayName, a.sessionId, a.importId, a.createdAt) == (i.namespaceId, i.displayName, i.sessionId, id, now)
    && (Some(a.archiveDigest), Some(a.archiveSize)) == (i.archiveDigest, i.archiveSize)
    && a.objectLocator == LocatorOf(a.archiveDigest)
    && (Some(a.manifestDigest), Some(a.manifest)) == (i.manifestDigest, i.manifest)
    && (Some(a.dataset.status), a.dataset.version, a.dataset.exportDigest) == (i.lineageStatus, i.datasetVersion, i.datasetExportDigest)
    && (a.baseModel.reference, a.baseModel.revision, Some(a.baseModel.binding)) == (i.baseReference, i.baseRevision, i.binding)
    && (a.upstreamCommit, a.imageDigest) == (s.identity.upstreamCommit, s.identity.imageDigest)
  }

  function LocatorOf(digest: string): string {
    "objects/v2/model-artifact-v1/" + (if |digest| <= 2 then digest else [digest[0], digest[1]]) + "/" + digest + ".tar.zst"
  }

  lemma NewArtifactRecords(id: string, i: Import, s: Session, now: int)
    requires HasFinal(i)
    ensures RecordsImport(NewArtifact(id, i, s, ObjectLocator(i.archiveDigest.value), now), id, i, s, now)
    ensures ObjectLocator(i.archiveDigest.value) == LocatorOf(i.archiveDigest.value)
  {
    var digest := i.archiveDigest.value;
    if |digest| > 2 {
      assert digest[..2] == [digest[0], digest[1]];
    }
  }

  /** A finalization completes the import and records that one artifact. */
  lemma FinalizationMoves(db: Db, namespaceId: string, id: string, digest: string, artifactId: string)
    requires Inv(db) && ImportThere(db, namespaceId, id) && db.imports[id].status == Finalizing && artifactId !in db.artifacts
    requires db.imports[id].archiveDigest == Some(digest)
    ensures var i := db.imports[id];
            var after := Apply(db, Finalize(namespaceId, id, LocatorOf(digest), artifactId));
            && i.sessionId in db.sessions && artifactId in after.artifacts
            && RecordsImport(after.artifacts[artifactId], id, i, db.sessions[i.sessionId], db.clock)
            && after == db.(artifacts := db.artifacts[artifactId := after.artifacts[artifactId]],
                            imports := db.imports[id := i.(status := Completed, artifactId := Some(artifactId), completedAt := Some(db.clock))])
  {
    hide Inv, Finalized, ImportDecodes, ArtifactDecodes, NewArtifact, RecordsImport, ObjectLocator, LocatorOf, HasFinal;
    FinalizationIsReadable(db, id, artifactId);
    NewArtifactRecords(id, db.imports[id], db.sessions[db.imports[id].sessionId], db.clock);
  }

  // ---- What the rows say ----

  /** The export and its time from ready on, the end with closing, the reason with failing. */
  ghost predicate SessionSays(s: Session) {
    && (s.exportDigest.Some? <==> s.status in {Ready, Closing, Closed})
    && (s.exportSize.Some? <==> s.exportDigest.Some?) && (s.exportDigest.Some? ==> s.readyAt.Some?)
    && (s.failure.Some? <==> s.status == SessionFailed) && (s.closedAt.Some? <==> s.status == Closed)
    && (s.abandonedAt.Some? ==> s.status == Preparing)
  }

  /** Each stage of an import has its columns, and none of a later stage. */
  ghost predicate ImportSays(id: string, i: Import) {
    && (i.status == Requested ==> i.stagingAt.None? && !(i.providerImportId.Some? && i.outputSnapshot.Some?))
    && (i.status in {Staging, Finalizing} ==> i.stagingAt.Some? && i.providerImportId.Some? && i.outputSnapshot.Some?)
    && (i.status in {Requested, Staging} ==> i.manifest.None? && i.archiveDigest.None? && i.stagingObjectKey.None?)
    && (i.status in {Finalizing, Completed} ==>
          && i.archiveDigest.Some? && i.archiveSize.Some? && i.manifestDigest.Some? && i.lineageStatus.Some? && i.binding.Some?
          && i.stagingObjectKey == Some("staging/swift-artifact/v1/" + id + "/archive.tar.zst")
          && i.manifest.Some? && i.manifest.value.sessionId == i.sessionId && Some(i.manifest.value.outputSnapshot) == i.outputSnapshot
          && (Some(i.manifest.value.archiveDigest), Some(i.manifest.value.archiveSize)) == (i.archiveDigest, i.archiveSize))
    && (i.artifactId.Some? <==> i.status == Completed) && (i.completedAt.Some? <==> i.status == Completed)
    && (i.failure.Some? <==> i.status == ImportFailed) && (i.failedAt.Some? <==> i.status == ImportFailed)
    && (i.cleanedAt.Some? ==> i.status in {Completed, ImportFailed})
  }

  /** An artifact is what its manifest says, at the locator of its archive; a verified base model has a revision. */
  ghost predicate ArtifactSays(a: Artifact) {
    && a.objectLocator == LocatorOf(a.archiveDigest)
    && (a.manifest.archiveDigest, a.manifest.archiveSize, a.manifest.sessionId) == (a.archiveDigest, a.archiveSize, a.sessionId)
    && (a.manifest.upstreamCommit, a.manifest.imageDigest) == (a.upstreamCommit, a.imageDigest)
    && (a.manifest.dataset, a.manifest.baseModel) == (a.dataset, a.baseModel)
    && 0 <= a.archiveSize < 0x20_0000_0000_0000
    && (a.dataset.version.Some? <==> a.dataset.status == Verified) && (a.dataset.exportDigest.Some? <==> a.dataset.status == Verified)
    && (a.baseModel.binding == BoundVerified ==> a.baseModel.revision.Some?)
  }

  /** Whatever calls are made, in whatever order, from an empty catalog, every row says this, and a completed import
      and its artifact name each other. */
  lemma ReachableRowsSay(snapshots: set<string>, namespaces: set<string>, clock: int, steps: seq<Step>)
    requires FreshRun(Db(snapshots, namespaces, map[], map[], map[], clock), steps)
    ensures var db := AfterSteps(Db(snapshots, namespaces, map[], map[], map[], clock), steps);
            && (forall id | id in db.sessions :: SessionSays(db.sessions[id]))
            && (forall id | id in db.imports :: ImportSays(id, db.imports[id]))
            && (forall id | id in db.artifacts :: ArtifactSays(db.artifacts[id]))
            && (forall id | id in db.imports && db.imports[id].status == Completed ::
                  db.imports[id].artifactId.value in db.artifacts && db.artifacts[db.imports[id].artifactId.value].importId == id)
            && (forall id | id in db.artifacts ::
                  db.artifacts[id].importId in db.imports && db.imports[db.artifacts[id].importId].artifactId == Some(id))
  {
    hide AfterSteps, FreshRun, Inv, SessionSays, ImportSays, ArtifactSays, ArtifactDecodes, ImportDecodes, ImportFits;
    InitialIsOk(snapshots, namespaces, clock);
    RunKeepsInv(Db(snapshots, namespaces, map[], map[], map[], clock), steps);
    var db := AfterSteps(Db(snapshots, namespaces, map[], map[], map[], clock), steps);
    forall id | id in db.sessions ensures SessionSays(db.sessions[id]) {
      SessionOfInv(db, id);
      OkSessionSays(db.sessions[id], db.clock);
    }
    forall id | id in db.imports
      ensures ImportSays(id, db.imports[id])
      ensures db.imports[id].status == Completed ==>
                db.imports[id].artifactId.Some? && db.imports[id].artifactId.value in db.artifacts &&
                db.artifacts[db.imports[id].artifactId.value].importId == id
    {
      ImportOfInv(db, id);
      OkImportSays(id, db.imports[id], db);
    }
    forall id | id in db.artifacts
      ensures ArtifactSays(db.artifacts[id])
      ensures db.artifacts[id].importId in db.imports && db.imports[db.artifacts[id].importId].artifactId == Some(id)
    {
      ArtifactOfInv(db, id);
      ReadableArtifactSays(db.artifacts[id]);
    }
  }

  lemma OkSessionSays(s: Session, now: int)
    requires SessionOk(s, now)
    ensures SessionSays(s)
  {
  }

  lemma OkImportSays(id: string, i: Import, db: Db)
    requires ImportOk(id, i, db.clock) && ImportFits(db.sessions, i)
    ensures ImportSays(id, i)
  {
  }

  lemma ReadableArtifactSays(a: Artifact)
    requires ArtifactDecodes(a)
    ensures ArtifactSays(a)
  {
    if |a.archiveDigest| > 2 {
      assert a.archiveDigest[..2] == [a.archiveDigest[0], a.archiveDigest[1]];
    }
  }
}
