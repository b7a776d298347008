/** The catalog's session and import methods, in place over its tables; each takes exactly one step of the
    protocol. */
module ModelArtifactCatalog {
  import opened Text
  import opened Json
  import opened ModelArtifacts
  import opened ModelArtifactInvariant
  import opened ModelArtifactAnswers

  class ArtifactCatalog {
    const snapshots: set<string>
    const namespaces: set<string>
    var sessions: map<string, Session>
    var imports: map<string, Import>
    var artifacts: map<string, Artifact>
    var clock: int

    function State(): Db
      reads this
    {
      Db(snapshots, namespaces, sessions, imports, artifacts, clock)
    }

    ghost predicate Valid()
      reads this
    {
      Inv(State()) && UniqueKeys(State())
    }

    constructor (snapshots: set<string>, namespaces: set<string>, clock: int)
      ensures Valid() && State() == Db(snapshots, namespaces, map[], map[], map[], clock)
    {
      this.snapshots, this.namespaces, this.clock := snapshots, namespaces, clock;
      sessions, imports, artifacts := map[], map[], map[];
    }

    method Wait(microseconds: nat)
      requires Valid()
      modifies this`clock
      ensures Valid() && State() == old(State()).(clock := old(clock) + microseconds)
    {
      hide Inv, UniqueKeys;
      TimeMayPass(State(), clock + microseconds);
      KeysAreOfImports(State(), State().(clock := clock + microseconds));
      clock := clock + microseconds;
    }

    // ---- Sessions ----

    /** An existing session with the same request is read back; the unique indexes keep everything else out. */
    method CreateOrReadSwiftStudioSession(create: CreateSession, id: string, ownerToken: string) returns (r: Result<Session>)
      requires Valid() && id !in sessions
      modifies this`sessions
      ensures r == OpenAnswer(old(State()), create, ownerToken)
      ensures Valid() && State() == Apply(old(State()), OpenSession(create, id, ownerToken))
    {
      hide Inv, UniqueKeys, Apply, SessionCollides, ValidIdentity, SameJson;
      OpenStep(State(), create, id, ownerToken);
      if !ValidIdentity(create.identity) {
        return Throws(InputError);
      }
      if !SessionCollides(sessions, create) {
        if create.identity.namespaceId !in namespaces || create.identity.datasetVersion !in snapshots {
          return Throws(ConstraintViolation);
        }
        var s := NewSession(create, ownerToken, clock);
        sessions := sessions[id := s];
        return Ok(s);
      }
      r := Throws(ConflictError);
      if other :| other in sessions && IsSessionReplay(sessions, other, create) {
        TheSessionReplay(State(), create, ownerToken, other);
        if SameSession(sessions[other], create) {
          r := Ok(sessions[other]);
        }
      }
    }

    /** Only the owner of a preparation may end it, and only a session without open imports may close. */
    method TransitionSwiftStudioSession(namespaceId: string, id: string, t: SessionTransition) returns (r: Result<Option<Session>>)
      requires Valid()
      modifies this`sessions
      ensures r == TransitionAnswer(old(State()), namespaceId, id, t)
      ensures Valid() && State() == Apply(old(State()), TransitionCall(namespaceId, id, t))
    {
      hide Inv, UniqueKeys, Apply, NoOpenImport;
      SessionStep(State(), TransitionCall(namespaceId, id, t));
      if t.ToReady? && !ValidExportSize(t.exportSize) {
        return Throws(InputError);
      }
      if id !in sessions || sessions[id].identity.namespaceId != namespaceId {
        return Ok(None);
      }
      var s := sessions[id];
      var owned := (t.ToReady? || t.ToFailed?) ==> s.ownerToken == t.ownerToken;
      var free := t.ToClosing? ==> NoOpenImport(imports, id);
      if s.status == FromStatus(t) && owned && free {
        match t {
          case ToReady(_, digest, size) =>
            s := s.(status := Ready, exportDigest := Some(digest), exportSize := Some(size), abandonedAt := None, readyAt := Some(clock));
          case ToFailed(_, failure) => s := s.(status := SessionFailed, abandonedAt := None, failure := Some(failure));
          case ToClosing => s := s.(status := Closing);
          case ToClosed => s := s.(status := Closed, closedAt := Some(clock));
        }
        sessions := sessions[id := s];
        return Ok(Some(s));
      }
      if s.status != ToStatus(t) || !SameTransition(s, t) {
        return Throws(ConflictError);
      }
      r := Ok(Some(s));
    }

    method ReopenBusySwiftStudioSession(namespaceId: string, id: string) returns (row: Option<Session>)
      requires Valid()
      modifies this`sessions
      ensures row == if SessionFound(State(), namespaceId, id) then Some(sessions[id]) else None
      ensures Valid() && State() == Apply(old(State()), Reopen(namespaceId, id))
    {
      hide Inv, UniqueKeys, Apply;
      SessionStep(State(), Reopen(namespaceId, id));
      if id !in sessions || sessions[id].identity.namespaceId != namespaceId {
        return None;
      }
      if sessions[id].status.Closing? {
        sessions := sessions[id := sessions[id].(status := Ready)];
      }
      row := Some(sessions[id]);
    }

    /** The first abandonment counts. */
    method AbandonSwiftStudioSessionPreparation(namespaceId: string, id: string, ownerToken: string) returns (updated: bool)
      requires Valid()
      modifies this`sessions
      ensures updated <==> SessionFound(old(State()), namespaceId, id) && OwnsPreparation(old(sessions)[id], ownerToken)
      ensures Valid() && State() == Apply(old(State()), AbandonPreparation(namespaceId, id, ownerToken))
    {
      hide Inv, UniqueKeys, Apply;
      SessionStep(State(), AbandonPreparation(namespaceId, id, ownerToken));
      updated := false;
      if id in sessions && sessions[id].identity.namespaceId == namespaceId && OwnsPreparation(sessions[id], ownerToken) {
        var s := sessions[id];
        sessions := sessions[id := s.(abandonedAt := if s.abandonedAt.Some? then s.abandonedAt else Some(clock))];
        updated := true;
      }
    }

    method RenewSwiftStudioSessionPreparation(namespaceId: string, id: string, ownerToken: string) returns (updated: bool)
      requires Valid()
      modifies this`sessions
      ensures updated <==> SessionFound(old(State()), namespaceId, id) && OwnsPreparation(old(sessions)[id], ownerToken)
      ensures Valid() && State() == Apply(old(State()), RenewPreparation(namespaceId, id, ownerToken))
    {
      hide Inv, UniqueKeys, Apply;
      SessionStep(State(), RenewPreparation(namespaceId, id, ownerToken));
      updated := false;
      if id in sessions && sessions[id].identity.namespaceId == namespaceId && OwnsPreparation(sessions[id], ownerToken) {
        sessions := sessions[id := sessions[id].(abandonedAt := None, expiresAt := clock + FIVE_HOURS)];
        updated := true;
      }
    }

    /** Whether the preparation was claimed, with the session as it now is. */
    method ClaimSwiftStudioSessionPreparation(namespaceId: string, id: string, ownerToken: string, graceMs: int, newToken: string)
      returns (r: Result<(Option<Session>, bool)>)
      requires Valid()
      modifies this`sessions
      ensures r.Throws? <==> !(0 <= graceMs <= MAX_ABANDON_GRACE_MS)
      ensures r.Throws? ==> r.error == InputError
      ensures r.Ok? ==>
        && r.value.0 == (if SessionFound(State(), namespaceId, id) then Some(sessions[id]) else None)
        && (r.value.1 <==> SessionFound(old(State()), namespaceId, id) && OwnsPreparation(old(sessions)[id], ownerToken) &&
                           MayBeTaken(old(sessions)[id], graceMs, clock))
      ensures Valid() && State() == Apply(old(State()), ClaimPreparation(namespaceId, id, ownerToken, graceMs, newToken))
    {
      hide Inv, UniqueKeys, Apply;
      SessionStep(State(), ClaimPreparation(namespaceId, id, ownerToken, graceMs, newToken));
      if graceMs < 0 || graceMs > MAX_ABANDON_GRACE_MS {
        return Throws(InputError);
      }
      if id !in sessions || sessions[id].identity.namespaceId != namespaceId {
        return Ok((None, false));
      }
      var s := sessions[id];
      var claimed := OwnsPreparation(s, ownerToken) && MayBeTaken(s, graceMs, clock);
      if claimed {
        sessions := sessions[id := s.(ownerToken := newToken, abandonedAt := None, expiresAt := clock + FIVE_HOURS)];
      }
      r := Ok((Some(sessions[id]), claimed));
    }

    // ---- Imports ----

    /** Only a ready session takes new imports; one output is imported once. */
    method CreateOrReadModelArtifactImport(request: CreateImport, id: string) returns (r: Result<Import>)
      requires Valid() && id !in imports
      modifies this`imports
      ensures r == RequestAnswer(old(State()), request)
      ensures Valid() && State() == Apply(old(State()), RequestImport(request, id))
    {
      hide Inv, UniqueKeys, Apply;
      RequestStep(State(), request, id);
      if request.sessionId !in sessions || sessions[request.sessionId].identity.namespaceId != request.namespaceId {
        return Throws(InputError);
      }
      if other :| other in imports && IsImportReplay(imports, other, request) {
        TheImportReplay(State(), request, other);
        return if SameRequest(imports[other], request) then Ok(imports[other]) else Throws(ConflictError);
      }
      assert forall other :: !IsImportReplay(imports, other, request);
      if !sessions[request.sessionId].status.Ready? {
        return Throws(InputError);
      }
      if ImportCollides(imports, request) {
        return Throws(ConflictError);
      }
      var i := NewImport(request, clock);
      imports := imports[id := i];
      r := Ok(i);
    }

    method MarkModelArtifactImportStagingCleaned(namespaceId: string, id: string) returns (row: Option<Import>)
      requires Valid()
      modifies this`imports
      ensures row.Some? <==> ImportFound(old(State()), namespaceId, id) && Settled(old(imports)[id])
      ensures row.Some? ==> id in imports && row.value == imports[id] && row.value.cleanedAt.Some?
      ensures Valid() && State() == Apply(old(State()), MarkCleaned(namespaceId, id))
    {
      hide Inv, UniqueKeys, Apply;
      ImportStep(State(), MarkCleaned(namespaceId, id));
      row := None;
      if id in imports && imports[id].namespaceId == namespaceId && Settled(imports[id]) {
        var i := imports[id];
        i := i.(cleanedAt := if i.cleanedAt.Some? then i.cleanedAt else Some(clock));
        imports := imports[id := i];
        row := Some(i);
      }
    }

    /** `transitionModelArtifactImport` */
    method TransitionModelArtifactImport(namespaceId: string, id: string, t: ImportTransition) returns (r: Result<Option<Import>>)
      requires Valid()
      modifies this`imports
      ensures r == ImportAnswer(old(State()), namespaceId, id, t) && r != Throws(ConsistencyError)
      ensures Valid() && State() == Apply(old(State()), ImportTransitionCall(namespaceId, id, t))
    {
      hide Inv, UniqueKeys, Apply, ImportAnswer;
      ImportAnswersAreConsistent(State(), namespaceId, id, t);
      match t {
        case ToStaging(providerImportId, outputSnapshot) =>
          r := StageModelArtifactImport(namespaceId, id, providerImportId, outputSnapshot);
        case ToFinalizing(f) => r := BeginFinalizingModelArtifactImport(namespaceId, id, f);
        case ToImportFailed(failure) => r := FailModelArtifactImport(namespaceId, id, failure);
      }
    }

    /** Writing a provider import that another row holds violates the unique constraint. */
    method StageModelArtifactImport(namespaceId: string, id: string, providerImportId: string, outputSnapshot: string)
      returns (r: Result<Option<Import>>)
      requires Valid()
      modifies this`imports
      ensures r == ImportAnswer(old(State()), namespaceId, id, ToStaging(providerImportId, outputSnapshot))
      ensures Valid() && State() == Apply(old(State()), Stage(namespaceId, id, providerImportId, outputSnapshot))
    {
      hide Inv, UniqueKeys, Apply, ProviderImportTaken;
      ImportStep(State(), Stage(namespaceId, id, providerImportId, outputSnapshot));
      if id !in imports || imports[id].namespaceId != namespaceId {
        return Ok(None);
      }
      if imports[id].status.Requested? {
        if ProviderImportTaken(imports, providerImportId) {
          return Throws(ConstraintViolation);
        }
        var staged := imports[id].(status := Staging, providerImportId := Some(providerImportId),
                                   outputSnapshot := Some(outputSnapshot), stagingAt := Some(clock));
        imports := imports[id := staged];
        return Ok(Some(staged));
      }
      r := ReadBack(imports[id], ToStaging(providerImportId, outputSnapshot));
    }

    method FailModelArtifactImport(namespaceId: string, id: string, failure: Failure) returns (r: Result<Option<Import>>)
      requires Valid()
      modifies this`imports
      ensures r == ImportAnswer(old(State()), namespaceId, id, ToImportFailed(failure))
      ensures Valid() && State() == Apply(old(State()), FailImport(namespaceId, id, failure))
    {
      hide Inv, UniqueKeys, Apply;
      ImportStep(State(), FailImport(namespaceId, id, failure));
      if id !in imports || imports[id].namespaceId != namespaceId {
        return Ok(None);
      }
      var i := imports[id];
      if i.status.Requested? || i.status.Staging? || i.status.Finalizing? {
        var failed := i.(status := ImportFailed, failure := Some(failure), failedAt := Some(clock));
        imports := imports[id := failed];
        return Ok(Some(failed));
      }
      r := ReadBack(i, ToImportFailed(failure));
    }

    /** The manifest must describe the import and its session before the row moves on. */
    method BeginFinalizingModelArtifactImport(namespaceId: string, id: string, f: Final) returns (r: Result<Option<Import>>)
      requires Valid()
      modifies this`imports
      ensures r == ImportAnswer(old(State()), namespaceId, id, ToFinalizing(f))
      ensures Valid() && State() == Apply(old(State()), BeginFinalizing(namespaceId, id, f))
    {
      hide Inv, UniqueKeys, Apply, ValidFinal;
      ImportStep(State(), BeginFinalizing(namespaceId, id, f));
      if !ValidFinal(id, f) {
        return Throws(InputError);
      }
      if id !in imports || imports[id].namespaceId != namespaceId {
        return Ok(None);
      }
      var i := imports[id];
      if i.sessionId !in sessions || sessions[i.sessionId].identity.namespaceId != namespaceId {
        return Throws(ConsistencyError);
      }
      var s := sessions[i.sessionId];
      if Some(f.manifest.outputSnapshot) != i.outputSnapshot || f.manifest.sessionId != i.sessionId ||
         f.manifest.upstreamCommit != s.identity.upstreamCommit || f.manifest.imageDigest != s.identity.imageDigest ||
         f.manifest.baseModel.reference != i.baseReference || f.manifest.baseModel.revision != i.baseRevision {
        return Throws(InputError);
      }
      if f.dataset.status.Verified? && (f.dataset.version != Some(s.identity.datasetVersion) || f.dataset.exportDigest != s.exportDigest) {
        return Throws(InputError);
      }
      if !i.status.Staging? {
        r := ReadBack(i, ToFinalizing(f));
        return;
      }
      var finalizing :=
        i.(status := Finalizing, stagingObjectKey := Some(f.stagingObjectKey), archiveDigest := Some(f.archiveDigest),
           archiveSize := Some(f.archiveSize), manifestDigest := Some(f.manifestDigest), manifest := Some(f.manifest),
           lineageStatus := Some(f.dataset.status), datasetVersion := f.dataset.version,
           datasetExportDigest := f.dataset.exportDigest, binding := Some(f.binding), finalizingAt := Some(clock));
      imports := imports[id := finalizing];
      r := Ok(Some(finalizing));
    }

    /** The row that an UPDATE did not take: a replay of the same transition, or a conflict. */
    method ReadBack(i: Import, t: ImportTransition) returns (r: Result<Option<Import>>)
      ensures r == ReplayAnswer(i, t)
    {
      if !Replayable(i.status, t) || !SameImportTransition(i, t) {
        return Throws(ConflictError);
      }
      r := Ok(Some(i));
    }

    /** Writes the artifact and completes the import, or undoes both. */
    method FinalizeModelArtifactImport(namespaceId: string, id: string, objectLocator: string, artifactId: string)
      returns (r: Result<Option<(Import, Artifact)>>)
      requires Valid() && artifactId !in artifacts
      modifies this`imports, this`artifacts
      ensures match Finalized(old(State()), namespaceId, id, objectLocator, artifactId)
              case Throws(error) => r == Throws(error)
              case Ok(None) => r == Ok(None)
              case Ok(Some(done)) => id in imports && done.artifactId in artifacts && r == Ok(Some((imports[id], artifacts[done.artifactId])))
      ensures Valid() && State() == Apply(old(State()), Finalize(namespaceId, id, objectLocator, artifactId))
    {
      hide Inv, UniqueKeys, Apply, ImportDecodes, ArtifactDecodes, SessionDecodes, ObjectLocator, SameArtifact, NewArtifact;
      FinalizeStep(State(), namespaceId, id, objectLocator, artifactId);
      if id !in imports || imports[id].namespaceId != namespaceId {
        return Ok(None);
      }
      var i := imports[id];
      if !ImportDecodes(id, i) {
        return Throws(ConsistencyError);
      }
      if i.status.Completed? {
        if i.artifactId.None? || i.artifactId.value !in artifacts || !ArtifactDecodes(artifacts[i.artifactId.value]) {
          return Throws(ConsistencyError);
        }
        if artifacts[i.artifactId.value].objectLocator != objectLocator {
          return Throws(ConflictError);
        }
        return Ok(Some((i, artifacts[i.artifactId.value])));
      }
      if !i.status.Finalizing? {
        return Throws(ConflictError);
      }
      if !HasFinal(i) {
        return Throws(ConsistencyError);
      }
      if objectLocator != ObjectLocator(i.archiveDigest.value) {
        return Throws(InputError);
      }
      if i.sessionId !in sessions || sessions[i.sessionId].identity.namespaceId != namespaceId || !SessionDecodes(sessions[i.sessionId]) {
        return Throws(ConsistencyError);
      }
      var savedArtifacts := artifacts;
      var produced := artifactId;
      if existing :| existing in artifacts && artifacts[existing].importId == id {
        assert ArtifactFor(artifacts, existing, id);
        if !SameArtifact(artifacts[existing], id, i, objectLocator) {
          return Throws(ConflictError);
        }
        produced := existing;
      } else {
        assert forall other :: !ArtifactFor(artifacts, other, id);
        artifacts := artifacts[artifactId := NewArtifact(id, i, sessions[i.sessionId], objectLocator, clock)];
      }
      var completed := i.(status := Completed, artifactId := Some(produced), completedAt := Some(clock));
      if !ArtifactDecodes(artifacts[produced]) || !ImportDecodes(id, completed) {
        artifacts := savedArtifacts;
        return Throws(ConsistencyError);
      }
      imports := imports[id := completed];
      r := Ok(Some((completed, artifacts[produced])));
    }
  }

  predicate OwnsPreparation(s: Session, ownerToken: string) {
    s.status.Preparing? && s.ownerToken == ownerToken
  }

  /** The preparation has expired, or its owner abandoned it long enough ago. */
  predicate MayBeTaken(s: Session, graceMs: int, now: int) {
    s.expiresAt <= now || (s.abandonedAt.Some? && s.abandonedAt.value <= now - graceMs * 1000)
  }

  // ---- Each method is a step ----

  lemma Steps(db: Db, call: Call)
    requires Inv(db) && UniqueKeys(db) && FreshIds(db, call)
    ensures Inv(Apply(db, call)) && UniqueKeys(Apply(db, call))
  {
    hide Inv, UniqueKeys, Apply, FreshIds;
    CallKeepsInv(db, call);
    CallKeepsKeys(db, call);
  }

  lemma OpenStep(db: Db, create: CreateSession, id: string, ownerToken: string)
    requires Inv(db) && UniqueKeys(db) && id !in db.sessions
    ensures var after := AfterOpen(db, create, id, ownerToken);
            Apply(db, OpenSession(create, id, ownerToken)) == after && Inv(after) && UniqueKeys(after)
  {
    hide Inv, UniqueKeys, AfterOpen;
    Steps(db, OpenSession(create, id, ownerToken));
  }

  lemma SessionStep(db: Db, call: Call)
    requires Inv(db) && UniqueKeys(db) && IsSessionCall(call)
    ensures var after := AfterSessionCall(db, call); Apply(db, call) == after && Inv(after) && UniqueKeys(after)
  {
    hide Inv, UniqueKeys, AfterSessionCall;
    Steps(db, call);
  }

  lemma RequestStep(db: Db, request: CreateImport, id: string)
    requires Inv(db) && UniqueKeys(db) && id !in db.imports
    ensures var after := AfterRequest(db, request, id);
            Apply(db, RequestImport(request, id)) == after && Inv(after) && UniqueKeys(after)
  {
    hide Inv, UniqueKeys, AfterRequest;
    Steps(db, RequestImport(request, id));
  }

  lemma ImportStep(db: Db, call: Call)
    requires Inv(db) && UniqueKeys(db) && IsImportCall(call)
    ensures var after := AfterImportCall(db, call); Apply(db, call) == after && Inv(after) && UniqueKeys(after)
  {
    hide Inv, UniqueKeys, AfterImportCall;
    Steps(db, call);
  }

  /** An import has one artifact at most, so the lookup by import is a lookup by key. */
  lemma FinalizeStep(db: Db, namespaceId: string, id: string, objectLocator: string, artifactId: string)
    requires Inv(db) && UniqueKeys(db) && artifactId !in db.artifacts
    ensures var after := AfterFinalize(db, namespaceId, id, objectLocator, artifactId);
            Apply(db, Finalize(namespaceId, id, objectLocator, artifactId)) == after && Inv(after) && UniqueKeys(after)
    ensures forall a, b | ArtifactFor(db.artifacts, a, id) && ArtifactFor(db.artifacts, b, id) :: a == b
  {
    hide UniqueKeys, AfterFinalize, SessionsOk, ImportsOk, ArtifactDecodes;
    Steps(db, Finalize(namespaceId, id, objectLocator, artifactId));
    forall a, b | ArtifactFor(db.artifacts, a, id) && ArtifactFor(db.artifacts, b, id) ensures a == b {
      assert ArtifactFits(db.sessions, db.imports, a, db.artifacts[a]) && ArtifactFits(db.sessions, db.imports, b, db.artifacts[b]);
    }
  }
}
