/** What each session and import call answers its caller, and why a repeated call is harmless: every call but
    a conflicting one can be sent again and answers with the row it already made. */
module ModelArtifactAnswers {
  import opened Text
  import opened Json
  import opened ModelArtifacts
  import opened ModelArtifactInvariant
  import opened ModelArtifactTheorems
  import JsonSameness

  // ---- Creating a session ----

  predicate IsSessionReplay(sessions: map<string, Session>, id: string, create: CreateSession) {
    id in sessions && sessions[id].identity.namespaceId == create.identity.namespaceId &&
    sessions[id].identity.createDigest == create.identity.createDigest
  }

  /** `sameSwiftStudioSessionCreate` */
  predicate SameSession(s: Session, create: CreateSession) {
    s.identity == create.identity && SameJson(s.options, create.options)
  }

  /** An existing session with the same key is read back if the request is the same; an active session or one
      with the same provider id keeps a new one out. */
  ghost function OpenAnswer(db: Db, create: CreateSession, ownerToken: string): Result<Session> {
    if !ValidIdentity(create.identity) then Throws(InputError)
    else if !SessionCollides(db.sessions, create) then
      if create.identity.namespaceId !in db.namespaces || create.identity.datasetVersion !in db.snapshots
      then Throws(ConstraintViolation)
      else Ok(NewSession(create, ownerToken, db.clock))
    else if id :| IsSessionReplay(db.sessions, id, create) then
      if SameSession(db.sessions[id], create) then Ok(db.sessions[id]) else Throws(ConflictError)
    else Throws(ConflictError)
  }

  lemma TheSessionReplay(db: Db, create: CreateSession, ownerToken: string, id: string)
    requires UniqueKeys(db) && ValidIdentity(create.identity) && IsSessionReplay(db.sessions, id, create)
    ensures SessionCollides(db.sessions, create)
    ensures OpenAnswer(db, create, ownerToken) ==
            if SameSession(db.sessions[id], create) then Ok(db.sessions[id]) else Throws(ConflictError)
  {
    hide SameSession, ValidIdentity;
    forall other | IsSessionReplay(db.sessions, other, create) ensures other == id {
      assert SameSessionKey(db.sessions[other], db.sessions[id]);
    }
  }

  lemma SameJsonItself(v: StoredJson)
    ensures SameJson(v, v)
  {
    JsonSameness.SameJsonIsNormalEquality(v, v);
  }

  /** A session that was opened can be asked for again at any later time: the answer is the row as it now is,
      and nothing changes. */
  lemma OpeningReplays(db: Db, create: CreateSession, id: string, ownerToken: string, steps: seq<Step>,
                       otherId: string, otherToken: string)
    requires Inv(db) && UniqueKeys(db) && id !in db.sessions && !SessionCollides(db.sessions, create)
    requires OpenAnswer(db, create, ownerToken).Ok?
    requires FreshRun(AfterOpen(db, create, id, ownerToken), steps)
    ensures var after := AfterSteps(AfterOpen(db, create, id, ownerToken), steps);
            && id in after.sessions
            && OpenAnswer(after, create, otherToken) == Ok(after.sessions[id])
            && AfterOpen(after, create, otherId, otherToken) == after
  {
    hide Inv, UniqueKeys, FreshRun, AfterSteps, SessionCollides, ValidIdentity, SameJson;
    var made := AfterOpen(db, create, id, ownerToken);
    OpenKeepsInv(db, create, id, ownerToken);
    CallKeepsKeys(db, OpenSession(create, id, ownerToken));
    RunFollows(made, steps);
    RunKeepsKeys(made, steps);
    var after := AfterSteps(made, steps);
    assert SessionFollows(made.sessions[id], after.sessions[id]);
    SameJsonItself(create.options);
    TheSessionReplay(after, create, otherToken, id);
  }

  // ---- Session transitions ----

  /** `TransitionSwiftStudioSessionV2` */
  datatype SessionTransition =
    | ToReady(ownerToken: string, exportDigest: string, exportSize: int)
    | ToFailed(ownerToken: string, failure: Failure)
    | ToClosing
    | ToClosed

  function TransitionCall(namespaceId: string, id: string, t: SessionTransition): (call: Call)
    ensures IsSessionCall(call)
  {
    match t
    case ToReady(token, digest, size) => MarkReady(namespaceId, id, token, digest, size)
    case ToFailed(token, failure) => MarkSessionFailed(namespaceId, id, token, failure)
    case ToClosing => MarkClosing(namespaceId, id)
    case ToClosed => MarkClosed(namespaceId, id)
  }

  function FromStatus(t: SessionTransition): SessionStatus {
    match t case ToReady(_, _, _) => Preparing case ToFailed(_, _) => Preparing case ToClosing => Ready case ToClosed => Closing
  }

  function ToStatus(t: SessionTransition): SessionStatus {
    match t case ToReady(_, _, _) => Ready case ToFailed(_, _) => SessionFailed case ToClosing => Closing case ToClosed => Closed
  }

  /** `sameSwiftStudioSessionTransitionBody` */
  predicate SameTransition(s: Session, t: SessionTransition) {
    match t
    case ToReady(_, digest, size) => s.exportDigest == Some(digest) && s.exportSize == Some(size)
    case ToFailed(_, failure) => s.failure == Some(failure)
    case _ => true
  }

  /** The row that was written, or the row that already is what was asked for; None for an unknown session. */
  function TransitionAnswer(db: Db, namespaceId: string, id: string, t: SessionTransition): Result<Option<Session>> {
    var call := TransitionCall(namespaceId, id, t);
    if !ValidSessionCall(call) then Throws(InputError)
    else if !SessionFound(db, namespaceId, id) then Ok(None)
    else
      var s := db.sessions[id];
      match SessionWritten(db, id, s, call)
      case Some(written) => Ok(Some(written))
      case None => if s.status == ToStatus(t) && SameTransition(s, t) then Ok(Some(s)) else Throws(ConflictError)
  }

  /** A transition that succeeded can be repeated, while the session is where it left it: the same answer, and
      no further change. */
  lemma TransitionReplays(db: Db, namespaceId: string, id: string, t: SessionTransition, wait: nat)
    requires TransitionAnswer(db, namespaceId, id, t).Ok? && TransitionAnswer(db, namespaceId, id, t).value.Some?
    ensures var call := TransitionCall(namespaceId, id, t);
            var after := Apply(db, call);
            var later := after.(clock := after.clock + wait);
            && id in after.sessions && TransitionAnswer(db, namespaceId, id, t) == Ok(Some(after.sessions[id]))
            && TransitionAnswer(later, namespaceId, id, t) == TransitionAnswer(db, namespaceId, id, t)
            && Apply(later, call) == later
  {
    hide NoOpenImport;
  }

  // ---- Requesting an import ----

  predicate IsImportReplay(imports: map<string, Import>, id: string, request: CreateImport) {
    id in imports && imports[id].namespaceId == request.namespaceId && imports[id].createDigest == request.createDigest
  }

  /** `sameModelArtifactImportCreate` */
  predicate SameRequest(i: Import, request: CreateImport) {
    && i.namespaceId == request.namespaceId && i.createDigest == request.createDigest
    && i.sessionId == request.sessionId && i.outputHandle == request.outputHandle
    && i.displayName == request.displayName
    && i.baseReference == request.baseReference && i.baseRevision == request.baseRevision
  }

  /** A replay is read back even when its session takes no new imports; a new request needs a ready session and
      an output that nothing has imported. */
  ghost function RequestAnswer(db: Db, request: CreateImport): Result<Import> {
    if !SessionFound(db, request.namespaceId, request.sessionId) then Throws(InputError)
    else if id :| IsImportReplay(db.imports, id, request) then
      if SameRequest(db.imports[id], request) then Ok(db.imports[id]) else Throws(ConflictError)
    else if !db.sessions[request.sessionId].status.Ready? then Throws(InputError)
    else if ImportCollides(db.imports, request) then Throws(ConflictError)
    else Ok(NewImport(request, db.clock))
  }

  lemma TheImportReplay(db: Db, request: CreateImport, id: string)
    requires UniqueKeys(db) && SessionFound(db, request.namespaceId, request.sessionId) && IsImportReplay(db.imports, id, request)
    ensures ImportCollides(db.imports, request)
    ensures RequestAnswer(db, request) ==
            if SameRequest(db.imports[id], request) then Ok(db.imports[id]) else Throws(ConflictError)
  {
    hide SameRequest;
    forall other | IsImportReplay(db.imports, other, request) ensures other == id {
      assert SameImportKey(db.imports[other], db.imports[id]);
    }
  }

  /** An import that was requested can be asked for again at any later time, whatever has become of it. */
  lemma RequestReplays(db: Db, request: CreateImport, id: string, steps: seq<Step>, otherId: string)
    requires Inv(db) && UniqueKeys(db) && id !in db.imports && !ImportCollides(db.imports, request)
    requires RequestAnswer(db, request).Ok? && FreshRun(AfterRequest(db, request, id), steps)
    ensures var after := AfterSteps(AfterRequest(db, request, id), steps);
            && id in after.imports
            && RequestAnswer(after, request) == Ok(after.imports[id])
            && AfterRequest(after, request, otherId) == after
  {
    hide Inv, UniqueKeys, FreshRun, AfterSteps;
    NewRequestIsInserted(db, request, id);
    hide ImportCollides, NewImport;
    var requested := AfterRequest(db, request, id);
    RequestKeepsInv(db, request, id);
    CallKeepsKeys(db, RequestImport(request, id));
    RunFollows(requested, steps);
    RunKeepsKeys(requested, steps);
    var after := AfterSteps(requested, steps);
    assert ImportFollows(requested.imports[id], after.imports[id]);
    assert SessionFollows(requested.sessions[request.sessionId], after.sessions[request.sessionId]);
    TheImportReplay(after, request, id);
  }

  lemma NewRequestIsInserted(db: Db, request: CreateImport, id: string)
    requires !ImportCollides(db.imports, request) && RequestAnswer(db, request).Ok?
    ensures SessionFound(db, request.namespaceId, request.sessionId)
    ensures AfterRequest(db, request, id) == db.(imports := db.imports[id := NewImport(request, db.clock)])
    ensures SameRequest(NewImport(request, db.clock), request)
  {
  }

  // ---- Import transitions ----

  /** `TransitionModelArtifactImportV2` */
  datatype ImportTransition =
    | ToStaging(providerImportId: string, outputSnapshot: string)
    | ToFinalizing(final: Final)
    | ToImportFailed(importFailure: Failure)

  function ImportTransitionCall(namespaceId: string, id: string, t: ImportTransition): (call: Call)
    ensures IsImportCall(call)
  {
    match t
    case ToStaging(providerImportId, outputSnapshot) => Stage(namespaceId, id, providerImportId, outputSnapshot)
    case ToFinalizing(f) => BeginFinalizing(namespaceId, id, f)
    case ToImportFailed(failure) => FailImport(namespaceId, id, failure)
  }

  /** A row that has already been through the transition. */
  predicate Replayable(status: ImportStatus, t: ImportTransition) {
    match t
    case ToStaging(_, _) => status.Staging? || status.Finalizing? || status.Completed?
    case ToFinalizing(_) => status.Finalizing? || status.Completed?
    case ToImportFailed(_) => status.ImportFailed?
  }

  predicate SameManifest(stored: Manifest, expected: Manifest) {
    stored.(others := Null) == expected.(others := Null) && SameJson(stored.others, expected.others)
  }

  /** `sameModelArtifactImportTransitionBody` */
  predicate SameImportTransition(i: Import, t: ImportTransition) {
    match t
    case ToStaging(providerImportId, outputSnapshot) =>
      i.providerImportId == Some(providerImportId) && i.outputSnapshot == Some(outputSnapshot)
    case ToFinalizing(f) =>
      && i.stagingObjectKey == Some(f.stagingObjectKey) && i.archiveDigest == Some(f.archiveDigest)
      && i.archiveSize == Some(f.archiveSize) && i.manifestDigest == Some(f.manifestDigest)
      && i.lineageStatus == Some(f.dataset.status) && i.datasetVersion == f.dataset.version
      && i.datasetExportDigest == f.dataset.exportDigest && i.binding == Some(f.binding)
      && i.manifest.Some? && SameManifest(i.manifest.value, f.manifest)
    case ToImportFailed(failure) => i.failure == Some(failure)
  }

  /** What comes before the UPDATE of the step to `finalizing`. */
  function FinalError(db: Db, i: Import, f: Final): Option<Error> {
    if !SessionFound(db, i.namespaceId, i.sessionId) then Some(ConsistencyError)
    else if !FinalMatches(i, db.sessions[i.sessionId], f) then Some(InputError)
    else None
  }

  /** A provider import in use elsewhere violates the unique constraint of the row being written; a row that
      does not take the transition is compared with it. */
  function ImportAnswer(db: Db, namespaceId: string, id: string, t: ImportTransition): Result<Option<Import>> {
    if t.ToFinalizing? && !ValidFinal(id, t.final) then Throws(InputError)
    else if !ImportFound(db, namespaceId, id) then Ok(None)
    else if t.ToFinalizing? && FinalError(db, db.imports[id], t.final).Some? then
      Throws(FinalError(db, db.imports[id], t.final).value)
    else
      var i := db.imports[id];
      match ImportWritten(db, id, i, ImportTransitionCall(namespaceId, id, t))
      case Some(written) => Ok(Some(written))
      case None => if t.ToStaging? && i.status.Requested? then Throws(ConstraintViolation) else ReplayAnswer(i, t)
  }

  function ReplayAnswer(i: Import, t: ImportTransition): Result<Option<Import>> {
    if Replayable(i.status, t) && SameImportTransition(i, t) then Ok(Some(i)) else Throws(ConflictError)
  }

  /** No reachable import has lost its session. */
  lemma ImportAnswersAreConsistent(db: Db, namespaceId: string, id: string, t: ImportTransition)
    requires Inv(db)
    ensures ImportAnswer(db, namespaceId, id, t) != Throws(ConsistencyError)
  {
    hide Inv, FinalMatches, ValidFinal, ImportWritten, SessionOk, ImportOk, ImportDecodes;
    if ImportFound(db, namespaceId, id) {
      ImportHasSession(db, id);
    }
  }

  lemma ImportIsOk(db: Db, id: string)
    requires Inv(db) && id in db.imports
    ensures ImportOk(id, db.imports[id], db.clock)
  {
    hide ImportOk;
  }

  lemma ImportHasSession(db: Db, id: string)
    requires Inv(db) && id in db.imports
    ensures SessionFound(db, db.imports[id].namespaceId, db.imports[id].sessionId)
    ensures db.sessions[db.imports[id].sessionId].exportDigest.Some?
  {
    ImportIsSafe(db, id);
    assert ImportFits(db.sessions, db.imports[id]);
    hide ImportDecodes, SessionsOk, ArtifactsOk;
  }

  /** A transition that succeeded has left the row where a replay finds it. */
  lemma WrittenIsReplayable(db: Db, namespaceId: string, id: string, t: ImportTransition)
    requires ImportAnswer(db, namespaceId, id, t).Ok? && ImportAnswer(db, namespaceId, id, t).value.Some?
    ensures var after := AfterImportCall(db, ImportTransitionCall(namespaceId, id, t));
            && ImportFound(after, namespaceId, id) && after.sessions == db.sessions
            && ImportAnswer(db, namespaceId, id, t) == Ok(Some(after.imports[id]))
            && Replayable(after.imports[id].status, t) && SameImportTransition(after.imports[id], t)
            && (t.ToFinalizing? ==> ValidFinal(id, t.final) && FinalError(after, after.imports[id], t.final).None?)
  {
    hide ValidFinal, ProviderImportTaken, SameJson, WellFormed;
    if t.ToFinalizing? {
      SameJsonItself(t.final.manifest.others);
    }
  }

  /** Where a later row stands to a transition that an earlier one has been through. */
  lemma StaysReplayable(id: string, i: Import, j: Import, t: ImportTransition)
    requires ImportDecodes(id, i) && ImportFollows(i, j) && Replayable(i.status, t) && SameImportTransition(i, t)
    ensures SameImportTransition(j, t)
    ensures Replayable(j.status, t) || j.status.ImportFailed?
  {
    hide SameManifest, ValidClaim, ValidBaseModel, ValidManifest, StagingObjectKey;
  }

  /** Replaying writes nothing. */
  lemma ReplayedRow(db: Db, namespaceId: string, id: string, t: ImportTransition)
    requires ImportFound(db, namespaceId, id) && SameImportTransition(db.imports[id], t)
    requires t.ToFinalizing? ==> ValidFinal(id, t.final) && FinalError(db, db.imports[id], t.final).None?
    requires Replayable(db.imports[id].status, t) || db.imports[id].status.ImportFailed?
    ensures AfterImportCall(db, ImportTransitionCall(namespaceId, id, t)) == db
    ensures ImportAnswer(db, namespaceId, id, t) ==
            if Replayable(db.imports[id].status, t) then Ok(Some(db.imports[id])) else Throws(ConflictError)
  {
    hide ValidFinal, FinalMatches, ProviderImportTaken, SameManifest;
  }

  /** A transition that succeeded can be repeated after any further calls: it changes nothing, and it answers
      the row as it now is, unless the import has failed in between. */
  lemma ImportTransitionReplays(db: Db, namespaceId: string, id: string, t: ImportTransition, steps: seq<Step>)
    requires Inv(db) && ImportAnswer(db, namespaceId, id, t).Ok? && ImportAnswer(db, namespaceId, id, t).value.Some?
    requires FreshRun(AfterImportCall(db, ImportTransitionCall(namespaceId, id, t)), steps)
    ensures var call := ImportTransitionCall(namespaceId, id, t);
            var after := AfterSteps(AfterImportCall(db, call), steps);
            && id in after.imports
            && AfterImportCall(after, call) == after
            && ImportAnswer(after, namespaceId, id, t) ==
               (if Replayable(after.imports[id].status, t) then Ok(Some(after.imports[id])) else Throws(ConflictError))
            && (Replayable(after.imports[id].status, t) || after.imports[id].status.ImportFailed?)
  {
    hide Inv, FreshRun, AfterSteps, ImportAnswer, AfterImportCall, ImportDecodes, ValidFinal, SameImportTransition, ImportFollows, SessionFollows;
    hide Replayable, FinalError, ImportTimes;
    WrittenIsReplayable(db, namespaceId, id, t);
    var moved := AfterImportCall(db, ImportTransitionCall(namespaceId, id, t));
    ImportCallKeepsInv(db, ImportTransitionCall(namespaceId, id, t));
    RunFollows(moved, steps);
    var after := AfterSteps(moved, steps);
    ImportIsSafe(moved, id);
    ImportHasSession(moved, id);
    ImportIsOk(moved, id);
    var i, j := moved.imports[id], after.imports[id];
    assert ImportFollows(i, j) && SessionFollows(moved.sessions[i.sessionId], after.sessions[i.sessionId]);
    StaysReplayable(id, i, j, t);
    FollowersKeepTheirPlace(moved, after, namespaceId, id, t);
    ReplayedRow(after, namespaceId, id, t);
  }

  lemma FollowersKeepTheirPlace(db: Db, after: Db, namespaceId: string, id: string, t: ImportTransition)
    requires ImportFound(db, namespaceId, id) && id in after.imports && ImportFollows(db.imports[id], after.imports[id])
    requires var i := db.imports[id];
             && SessionFound(db, i.namespaceId, i.sessionId) && db.sessions[i.sessionId].exportDigest.Some?
             && i.sessionId in after.sessions && SessionFollows(db.sessions[i.sessionId], after.sessions[i.sessionId])
    requires ImportOk(id, db.imports[id], db.clock) && Replayable(db.imports[id].status, t)
    ensures ImportFound(after, namespaceId, id)
    ensures t.ToFinalizing? && FinalError(db, db.imports[id], t.final).None? ==>
              FinalError(after, after.imports[id], t.final).None?
  {
    hide ValidClaim, ValidBaseModel, ValidManifest, StagingObjectKey;
  }
}
