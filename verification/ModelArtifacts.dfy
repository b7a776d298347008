/** Studio sessions, the artifact imports that read their output, and the immutable artifacts the imports
    end in.  Sessions and imports guard each other; every call is one transaction. */
module ModelArtifacts {
  import opened Text
  import opened Json

  const MAX_SAFE_INTEGER := 9007199254740991
  const POSTGRES_BIGINT_MAX := 9223372036854775807
  const MAX_ABANDON_GRACE_MS := 86400000
  const PROVIDER := "swift-studio"
  const FIVE_HOURS := 18000000000

  datatype Failure = Failure(phase: string, code: string, message: string)

  // ---- Sessions ----

  datatype SessionStatus = Preparing | Ready | Closing | Closed | SessionFailed

  /** What a replayed creation must repeat. */
  datatype SessionIdentity = SessionIdentity(namespaceId: string, createDigest: string, datasetVersion: string,
                                             converter: string, converterVersion: string,
                                             fidelityDigest: string, exportOutputCount: int, provider: string,
                                             upstreamCommit: string, imageDigest: string, capabilityDigest: string)

  datatype Session = Session(identity: SessionIdentity, options: StoredJson, providerSessionId: string,
                             status: SessionStatus, exportDigest: Option<string>, exportSize: Option<int>,
                             failure: Option<Failure>, ownerToken: string, abandonedAt: Option<int>, expiresAt: int,
                             createdAt: int, readyAt: Option<int>, closedAt: Option<int>)

  predicate ActiveSession(s: Session) {
    s.status.Preparing? || s.status.Ready? || s.status.Closing?
  }

  predicate ReachedReady(s: Session) {
    s.status.Ready? || s.status.Closing? || s.status.Closed?
  }

  predicate ValidIdentity(identity: SessionIdentity) {
    identity.provider == PROVIDER && 0 < identity.exportOutputCount <= POSTGRES_BIGINT_MAX
  }

  predicate ValidExportSize(n: int) {
    0 <= n <= POSTGRES_BIGINT_MAX
  }

  /** `sqlRowToSwiftStudioSession` */
  predicate SessionDecodes(s: Session) {
    && ValidIdentity(s.identity)
    && (s.exportDigest.None? <==> s.exportSize.None?)
    && (ReachedReady(s) <==> s.readyAt.Some? && s.exportDigest.Some?)
    && (s.status.SessionFailed? <==> s.failure.Some?)
    && (s.status.Closed? <==> s.closedAt.Some?)
    && (s.exportSize.Some? ==> ValidExportSize(s.exportSize.value))
    && s.expiresAt >= s.createdAt
    && (s.abandonedAt.Some? ==> s.status.Preparing? && s.abandonedAt.value >= s.createdAt)
  }

  // ---- Imports ----

  datatype ImportStatus = Requested | Staging | Finalizing | Completed | ImportFailed

  datatype LineageStatus = Verified | ExternalOrUnverified | NotApplicable

  datatype Binding = BoundVerified | Declared | Unresolved

  datatype DatasetClaim = DatasetClaim(status: LineageStatus, version: Option<string>, exportDigest: Option<string>)

  datatype BaseModel = BaseModel(reference: string, revision: Option<string>, binding: Binding)

  /** The parts of a manifest that the catalog compares; `others` is everything else. */
  datatype Manifest = Manifest(archiveDigest: string, archiveSize: int, outputSnapshot: string, sessionId: string,
                               upstreamCommit: string, imageDigest: string, dataset: DatasetClaim,
                               baseModel: BaseModel, others: StoredJson)

  predicate ValidClaim(c: DatasetClaim) {
    && (c.version.None? <==> c.exportDigest.None?)
    && (c.status.Verified? <==> c.version.Some? && c.exportDigest.Some?)
  }

  predicate ValidBaseModel(b: BaseModel) {
    b.binding.BoundVerified? ==> b.revision.Some?
  }

  predicate ValidSize(n: int) {
    0 <= n <= MAX_SAFE_INTEGER
  }

  predicate ValidManifest(m: Manifest) {
    ValidSize(m.archiveSize) && ValidClaim(m.dataset) && ValidBaseModel(m.baseModel)
  }

  /** The columns that the step to `finalizing` fills, all at once. */
  datatype Final = Final(stagingObjectKey: string, archiveDigest: string, archiveSize: int, manifestDigest: string,
                         manifest: Manifest, dataset: DatasetClaim, binding: Binding)

  /** A row; the nullable columns are independent. */
  datatype Import = Import(
    namespaceId: string, createDigest: string, sessionId: string, outputHandle: string, displayName: string,
    baseReference: string, baseRevision: Option<string>,
    status: ImportStatus,
    providerImportId: Option<string>, outputSnapshot: Option<string>,
    stagingObjectKey: Option<string>, archiveDigest: Option<string>, archiveSize: Option<int>,
    manifestDigest: Option<string>, manifest: Option<Manifest>, lineageStatus: Option<LineageStatus>,
    datasetVersion: Option<string>, datasetExportDigest: Option<string>, binding: Option<Binding>,
    artifactId: Option<string>, failure: Option<Failure>,
    createdAt: int, stagingAt: Option<int>, finalizingAt: Option<int>, completedAt: Option<int>, failedAt: Option<int>,
    cleanedAt: Option<int>)

  function StagingObjectKey(importId: string): string {
    "staging/swift-artifact/v1/" + importId + "/archive.tar.zst"
  }

  predicate HasStaging(i: Import) {
    i.stagingAt.Some?
  }

  predicate HasFinal(i: Import) {
    && i.finalizingAt.Some? && i.stagingObjectKey.Some? && i.archiveDigest.Some? && i.archiveSize.Some?
    && i.manifestDigest.Some? && i.manifest.Some? && i.lineageStatus.Some? && i.binding.Some?
  }

  predicate HasNoFinal(i: Import) {
    && i.finalizingAt.None? && i.stagingObjectKey.None? && i.archiveDigest.None? && i.archiveSize.None?
    && i.manifestDigest.None? && i.manifest.None? && i.lineageStatus.None? && i.binding.None?
  }

  predicate Settled(i: Import) {
    i.status.Completed? || i.status.ImportFailed?
  }

  /** `sqlRowToModelArtifactImport` with `validateStoredModelArtifactImportShape` */
  predicate ImportDecodes(id: string, i: Import) {
    && (HasStaging(i) <==> i.providerImportId.Some? && i.outputSnapshot.Some?)
    && (HasFinal(i) || HasNoFinal(i))
    && (HasFinal(i) ==>
          && ValidSize(i.archiveSize.value)
          && i.stagingObjectKey == Some(StagingObjectKey(id))
          && ValidClaim(DatasetClaim(i.lineageStatus.value, i.datasetVersion, i.datasetExportDigest))
          && ValidBaseModel(BaseModel(i.baseReference, i.baseRevision, i.binding.value)))
    && (i.manifest.Some? ==> ValidManifest(i.manifest.value))
    && LifecycleDecodes(i)
  }

  predicate LifecycleDecodes(i: Import) {
    && (match i.status
        case Requested => !HasStaging(i) && HasNoFinal(i) && Undecided(i)
        case Staging => HasStaging(i) && HasNoFinal(i) && Undecided(i)
        case Finalizing => HasStaging(i) && HasFinal(i) && Undecided(i)
        case Completed =>
          HasFinal(i) && i.artifactId.Some? && i.failure.None? && i.completedAt.Some? && i.failedAt.None?
        case ImportFailed => i.artifactId.None? && i.failure.Some? && i.completedAt.None? && i.failedAt.Some?)
    && (i.cleanedAt.Some? ==> Settled(i))
  }

  predicate Undecided(i: Import) {
    i.artifactId.None? && i.failure.None? && i.completedAt.None? && i.failedAt.None?
  }

  // ---- Artifacts ----

  datatype Artifact = Artifact(
    namespaceId: string, displayName: string, archiveDigest: string, archiveSize: int, objectLocator: string,
    manifestDigest: string, manifest: Manifest, sessionId: string, importId: string, dataset: DatasetClaim,
    baseModel: BaseModel, upstreamCommit: string, imageDigest: string, createdAt: int)

  function FirstTwo(s: string): string {
    if |s| < 2 then s else s[..2]
  }

  function ObjectLocator(archiveDigest: string): string {
    "objects/v2/model-artifact-v1/" + FirstTwo(archiveDigest) + "/" + archiveDigest + ".tar.zst"
  }

  /** `sqlRowToModelArtifact` */
  predicate ArtifactDecodes(a: Artifact) {
    && ValidBaseModel(a.baseModel)
    && ValidSize(a.archiveSize)
    && a.objectLocator == ObjectLocator(a.archiveDigest)
    && ValidClaim(a.dataset)
    && ValidManifest(a.manifest)
    && a.manifest.archiveDigest == a.archiveDigest && a.manifest.archiveSize == a.archiveSize
    && a.manifest.sessionId == a.sessionId
    && a.manifest.upstreamCommit == a.upstreamCommit && a.manifest.imageDigest == a.imageDigest
    && a.manifest.dataset == a.dataset
    && a.manifest.baseModel == a.baseModel
  }

  // ---- The database ----

  datatype Db = Db(snapshots: set<string>, namespaces: set<string>, sessions: map<string, Session>,
                   imports: map<string, Import>, artifacts: map<string, Artifact>, clock: int)

  datatype CreateSession = CreateSession(identity: SessionIdentity, options: StoredJson, providerSessionId: string)

  datatype CreateImport = CreateImport(namespaceId: string, createDigest: string, sessionId: string, outputHandle: string,
                                       displayName: string, baseReference: string, baseRevision: Option<string>)

  datatype Call =
    | OpenSession(create: CreateSession, id: string, ownerToken: string)
    | AbandonPreparation(namespaceId: string, id: string, ownerToken: string)
    | RenewPreparation(namespaceId: string, id: string, ownerToken: string)
    | ClaimPreparation(namespaceId: string, id: string, ownerToken: string, graceMs: int, newToken: string)
    | MarkReady(namespaceId: string, id: string, ownerToken: string, exportDigest: string, exportSize: int)
    | MarkSessionFailed(namespaceId: string, id: string, ownerToken: string, sessionFailure: Failure)
    | MarkClosing(namespaceId: string, id: string)
    | MarkClosed(namespaceId: string, id: string)
    | Reopen(namespaceId: string, id: string)
    | RequestImport(request: CreateImport, id: string)
    | Stage(namespaceId: string, id: string, providerImportId: string, outputSnapshot: string)
    | BeginFinalizing(namespaceId: string, id: string, final: Final)
    | FailImport(namespaceId: string, id: string, importFailure: Failure)
    | MarkCleaned(namespaceId: string, id: string)
    | Finalize(namespaceId: string, id: string, objectLocator: string, artifactId: string)

  datatype Error = InputError | ConflictError | ConsistencyError | ConstraintViolation

  datatype Result<+T> = Ok(value: T) | Throws(error: Error)

  // ---- Session calls ----

  function NewSession(create: CreateSession, ownerToken: string, now: int): Session {
    Session(create.identity, create.options, create.providerSessionId, Preparing, None, None, None, ownerToken, None,
            now + FIVE_HOURS, now, None, None)
  }

  /** The unique constraints of the session table. */
  predicate SessionCollides(sessions: map<string, Session>, create: CreateSession) {
    exists id | id in sessions ::
      var s := sessions[id];
      || (s.identity.namespaceId == create.identity.namespaceId && s.identity.createDigest == create.identity.createDigest)
      || (s.identity.provider == create.identity.provider && s.providerSessionId == create.providerSessionId)
      || (s.identity.provider == create.identity.provider && ActiveSession(s))
  }

  function AfterOpen(db: Db, create: CreateSession, id: string, ownerToken: string): Db {
    if !ValidIdentity(create.identity) || SessionCollides(db.sessions, create) then db
    else if create.identity.namespaceId !in db.namespaces || create.identity.datasetVersion !in db.snapshots then db
    else db.(sessions := db.sessions[id := NewSession(create, ownerToken, db.clock)])
  }

  /** No import of the session is still under way. */
  predicate NoOpenImport(imports: map<string, Import>, sessionId: string) {
    forall id | id in imports && imports[id].sessionId == sessionId :: Settled(imports[id])
  }

  /** The row a session UPDATE writes, or None if its WHERE clause rejects the row. */
  function SessionWritten(db: Db, id: string, s: Session, call: Call): Option<Session> {
    match call
    case AbandonPreparation(_, _, token) =>
      if s.status.Preparing? && s.ownerToken == token
      then Some(s.(abandonedAt := if s.abandonedAt.Some? then s.abandonedAt else Some(db.clock))) else None
    case RenewPreparation(_, _, token) =>
      if s.status.Preparing? && s.ownerToken == token
      then Some(s.(abandonedAt := None, expiresAt := db.clock + FIVE_HOURS)) else None
    case ClaimPreparation(_, _, token, graceMs, newToken) =>
      if s.status.Preparing? && s.ownerToken == token &&
         (s.expiresAt <= db.clock || (s.abandonedAt.Some? && s.abandonedAt.value <= db.clock - graceMs * 1000))
      then Some(s.(ownerToken := newToken, abandonedAt := None, expiresAt := db.clock + FIVE_HOURS)) else None
    case MarkReady(_, _, token, digest, size) =>
      if s.status.Preparing? && s.ownerToken == token
      then Some(s.(status := Ready, exportDigest := Some(digest), exportSize := Some(size), abandonedAt := None, readyAt := Some(db.clock)))
      else None
    case MarkSessionFailed(_, _, token, failure) =>
      if s.status.Preparing? && s.ownerToken == token
      then Some(s.(status := SessionFailed, abandonedAt := None, failure := Some(failure))) else None
    case MarkClosing(_, _) => if s.status.Ready? && NoOpenImport(db.imports, id) then Some(s.(status := Closing)) else None
    case MarkClosed(_, _) => if s.status.Closing? then Some(s.(status := Closed, closedAt := Some(db.clock))) else None
    case Reopen(_, _) => if s.status.Closing? then Some(s.(status := Ready)) else None
    case _ => None
  }

  predicate IsSessionCall(call: Call) {
    call.AbandonPreparation? || call.RenewPreparation? || call.ClaimPreparation? || call.MarkReady? ||
    call.MarkSessionFailed? || call.MarkClosing? || call.MarkClosed? || call.Reopen?
  }

  /** Reading a session or an import by namespace and id. */
  predicate SessionFound(db: Db, namespaceId: string, id: string) {
    id in db.sessions && db.sessions[id].identity.namespaceId == namespaceId
  }

  predicate ImportFound(db: Db, namespaceId: string, id: string) {
    id in db.imports && db.imports[id].namespaceId == namespaceId
  }

  predicate ValidSessionCall(call: Call) {
    && (call.MarkReady? ==> ValidExportSize(call.exportSize))
    && (call.ClaimPreparation? ==> 0 <= call.graceMs <= MAX_ABANDON_GRACE_MS)
  }

  function AfterSessionCall(db: Db, call: Call): Db
    requires IsSessionCall(call)
  {
    if !ValidSessionCall(call) || !SessionFound(db, call.namespaceId, call.id) then db
    else
      match SessionWritten(db, call.id, db.sessions[call.id], call)
      case None => db
      case Some(s) => db.(sessions := db.sessions[call.id := s])
  }

  // ---- Import calls ----

  function NewImport(request: CreateImport, now: int): Import {
    Import(request.namespaceId, request.createDigest, request.sessionId, request.outputHandle, request.displayName,
           request.baseReference, request.baseRevision, Requested, None, None, None, None, None, None, None, None, None, None,
           None, None, None, now, None, None, None, None, None)
  }

  predicate ImportCollides(imports: map<string, Import>, request: CreateImport) {
    exists id | id in imports ::
      var i := imports[id];
      && i.namespaceId == request.namespaceId
      && (i.createDigest == request.createDigest || (i.sessionId == request.sessionId && i.outputHandle == request.outputHandle))
  }

  /** Only a ready session takes new imports. */
  function AfterRequest(db: Db, request: CreateImport, id: string): Db {
    if !SessionFound(db, request.namespaceId, request.sessionId) || ImportCollides(db.imports, request) then db
    else if !db.sessions[request.sessionId].status.Ready? then db
    else db.(imports := db.imports[id := NewImport(request, db.clock)])
  }

  /** `validateModelArtifactImportTransition` for the step to `finalizing` */
  predicate ValidFinal(id: string, f: Final) {
    && f.stagingObjectKey == StagingObjectKey(id)
    && ValidSize(f.archiveSize) && ValidClaim(f.dataset) && ValidManifest(f.manifest)
    && f.manifest.archiveDigest == f.archiveDigest && f.manifest.archiveSize == f.archiveSize
    && f.manifest.dataset == f.dataset && f.manifest.baseModel.binding == f.binding
  }

  /** The manifest describes this import and its session; verified lineage is the session's own export. */
  predicate FinalMatches(i: Import, s: Session, f: Final) {
    && Some(f.manifest.outputSnapshot) == i.outputSnapshot
    && f.manifest.sessionId == i.sessionId
    && f.manifest.upstreamCommit == s.identity.upstreamCommit && f.manifest.imageDigest == s.identity.imageDigest
    && f.manifest.baseModel.reference == i.baseReference && f.manifest.baseModel.revision == i.baseRevision
    && (f.dataset.status.Verified? ==> f.dataset.version == Some(s.identity.datasetVersion) && f.dataset.exportDigest == s.exportDigest)
  }

  /** The UPDATE of an import transition; a provider import already in use violates a unique constraint. */
  function ImportWritten(db: Db, id: string, i: Import, call: Call): Option<Import> {
    match call
    case Stage(_, _, providerImportId, outputSnapshot) =>
      if i.status.Requested? && !ProviderImportTaken(db.imports, providerImportId)
      then Some(i.(status := Staging, providerImportId := Some(providerImportId), outputSnapshot := Some(outputSnapshot),
                   stagingAt := Some(db.clock)))
      else None
    case BeginFinalizing(_, _, f) =>
      if !ValidFinal(id, f) || !SessionFound(db, i.namespaceId, i.sessionId) || !FinalMatches(i, db.sessions[i.sessionId], f)
      then None
      else if !i.status.Staging? then None
      else Some(i.(status := Finalizing, stagingObjectKey := Some(f.stagingObjectKey), archiveDigest := Some(f.archiveDigest),
                   archiveSize := Some(f.archiveSize), manifestDigest := Some(f.manifestDigest), manifest := Some(f.manifest),
                   lineageStatus := Some(f.dataset.status), datasetVersion := f.dataset.version,
                   datasetExportDigest := f.dataset.exportDigest, binding := Some(f.binding), finalizingAt := Some(db.clock)))
    case FailImport(_, _, failure) =>
      if i.status.Requested? || i.status.Staging? || i.status.Finalizing?
      then Some(i.(status := ImportFailed, failure := Some(failure), failedAt := Some(db.clock))) else None
    case MarkCleaned(_, _) =>
      if Settled(i) then Some(i.(cleanedAt := if i.cleanedAt.Some? then i.cleanedAt else Some(db.clock))) else None
    case _ => None
  }

  predicate ProviderImportTaken(imports: map<string, Import>, providerImportId: string) {
    exists id | id in imports :: imports[id].providerImportId == Some(providerImportId)
  }

  predicate IsImportCall(call: Call) {
    call.Stage? || call.BeginFinalizing? || call.FailImport? || call.MarkCleaned?
  }

  function AfterImportCall(db: Db, call: Call): Db
    requires IsImportCall(call)
  {
    if !ImportFound(db, call.namespaceId, call.id) then db
    else
      match ImportWritten(db, call.id, db.imports[call.id], call)
      case None => db
      case Some(i) => db.(imports := db.imports[call.id := i])
  }

  // ---- Finalization ----

  function NewArtifact(id: string, i: Import, s: Session, objectLocator: string, now: int): Artifact
    requires HasFinal(i)
  {
    Artifact(i.namespaceId, i.displayName, i.archiveDigest.value, i.archiveSize.value, objectLocator, i.manifestDigest.value,
             i.manifest.value, i.sessionId, id, DatasetClaim(i.lineageStatus.value, i.datasetVersion, i.datasetExportDigest),
             BaseModel(i.baseReference, i.baseRevision, i.binding.value), s.identity.upstreamCommit, s.identity.imageDigest, now)
  }

  /** `sameModelArtifactFinalizeBody` */
  predicate SameArtifact(a: Artifact, id: string, i: Import, objectLocator: string) {
    && HasFinal(i)
    && a.namespaceId == i.namespaceId && a.displayName == i.displayName
    && a.archiveDigest == i.archiveDigest.value && a.archiveSize == i.archiveSize.value
    && a.objectLocator == objectLocator && a.manifestDigest == i.manifestDigest.value
    && a.sessionId == i.sessionId && a.importId == id
    && a.dataset == DatasetClaim(i.lineageStatus.value, i.datasetVersion, i.datasetExportDigest)
    && a.baseModel == BaseModel(i.baseReference, i.baseRevision, i.binding.value)
    && a.manifest == i.manifest.value
  }

  /** What a finalization returns with the state it commits. */
  datatype Finalization = Finalization(db: Db, artifactId: string)

  predicate ArtifactFor(artifacts: map<string, Artifact>, artifactId: string, importId: string) {
    artifactId in artifacts && artifacts[artifactId].importId == importId
  }

  /** Completing the import with its artifact, and decoding what was written. */
  function CompleteImport(db: Db, id: string, artifactId: string): Result<Finalization>
    requires id in db.imports && artifactId in db.artifacts
  {
    var completed := db.imports[id].(status := Completed, artifactId := Some(artifactId), completedAt := Some(db.clock));
    if ArtifactDecodes(db.artifacts[artifactId]) && ImportDecodes(id, completed)
    then Ok(Finalization(db.(imports := db.imports[id := completed]), artifactId))
    else Throws(ConsistencyError)
  }

  /** `finalizeModelArtifactImport`; the result is None for an unknown import. */
  ghost function Finalized(db: Db, namespaceId: string, id: string, objectLocator: string, artifactId: string)
    : Result<Option<Finalization>>
  {
    if !ImportFound(db, namespaceId, id) then Ok(None)
    else
      var i := db.imports[id];
      if !ImportDecodes(id, i) then Throws(ConsistencyError)
      else if i.status.Completed? then
        if i.artifactId.None? || i.artifactId.value !in db.artifacts || !ArtifactDecodes(db.artifacts[i.artifactId.value])
        then Throws(ConsistencyError)
        else if db.artifacts[i.artifactId.value].objectLocator != objectLocator then Throws(ConflictError)
        else Ok(Some(Finalization(db, i.artifactId.value)))
      else if !i.status.Finalizing? then Throws(ConflictError)
      else if !HasFinal(i) then Throws(ConsistencyError)
      else if objectLocator != ObjectLocator(i.archiveDigest.value) then Throws(InputError)
      else if !SessionFound(db, namespaceId, i.sessionId) || !SessionDecodes(db.sessions[i.sessionId]) then Throws(ConsistencyError)
      else if existing :| ArtifactFor(db.artifacts, existing, id) then
        if !SameArtifact(db.artifacts[existing], id, i, objectLocator) then Throws(ConflictError)
        else
          match CompleteImport(db, id, existing)
          case Throws(error) => Throws(error)
          case Ok(done) => Ok(Some(done))
      else
        var inserted := db.(artifacts := db.artifacts[artifactId := NewArtifact(id, i, db.sessions[i.sessionId], objectLocator, db.clock)]);
        match CompleteImport(inserted, id, artifactId)
        case Throws(error) => Throws(error)
        case Ok(done) => Ok(Some(done))
  }

  ghost function AfterFinalize(db: Db, namespaceId: string, id: string, objectLocator: string, artifactId: string): Db {
    match Finalized(db, namespaceId, id, objectLocator, artifactId)
    case Ok(Some(done)) => done.db
    case _ => db
  }

  // ---- Steps ----

  ghost function Apply(db: Db, call: Call): Db {
    match call
    case OpenSession(create, id, ownerToken) => AfterOpen(db, create, id, ownerToken)
    case RequestImport(request, id) => AfterRequest(db, request, id)
    case Finalize(namespaceId, id, objectLocator, artifactId) => AfterFinalize(db, namespaceId, id, objectLocator, artifactId)
    case Stage(_, _, _, _) => AfterImportCall(db, call)
    case BeginFinalizing(_, _, _) => AfterImportCall(db, call)
    case FailImport(_, _, _) => AfterImportCall(db, call)
    case MarkCleaned(_, _) => AfterImportCall(db, call)
    case _ => AfterSessionCall(db, call)
  }

  datatype Step = Step(wait: nat, call: Call)

  ghost function Next(db: Db, step: Step): Db {
    Apply(db.(clock := db.clock + step.wait), step.call)
  }

  ghost function AfterSteps(db: Db, steps: seq<Step>): Db
    decreases |steps|
  {
    if steps == [] then db else AfterSteps(Next(db, steps[0]), steps[1..])
  }

  /** The ids that a call draws are fresh, and no step sees an id twice. */
  ghost predicate FreshIds(db: Db, call: Call) {
    match call
    case OpenSession(_, id, _) => id !in db.sessions
    case RequestImport(_, id) => id !in db.imports
    case Finalize(_, _, _, artifactId) => artifactId !in db.artifacts
    case _ => true
  }

  ghost predicate FreshRun(db: Db, steps: seq<Step>)
    decreases |steps|
  {
    steps == [] || (FreshIds(db, steps[0].call) && FreshRun(Next(db, steps[0]), steps[1..]))
  }
}
