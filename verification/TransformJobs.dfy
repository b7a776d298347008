/** Transform jobs: their rows, and what every call of the catalog does to the database.  Each call is
    one transaction and so one atomic step; the database clock only moves forward between steps. */
module TransformJobs {
  import opened Text
  import opened Json
  import opened Registry
  import Keyset

  const POSTGRES_INTEGER_MAX := 2147483647
  const POSTGRES_BIGINT_MAX := 9223372036854775807
  const MAX_JOB_LEASE_MS := 86400000

  datatype Status = Queued | Leased | Running | Finalizing | Completed | Failed | Cancelled

  datatype RefStatus = Pending | Updated | Conflict

  datatype Progress = Progress(phase: string, completedUnits: int, totalUnits: Option<int>)

  datatype JobError = JobError(code: string, message: string, retryable: bool)

  const LEASE_EXPIRED := JobError("lease_expired", "Worker job lease expired", false)

  /** The columns that never change. */
  datatype JobIdentity = JobIdentity(cacheKey: string, op: string, opVersion: string, params: StoredJson,
                                     inputVersion: string, capabilityName: string, capabilityVersion: string,
                                     inputCount: int)

  type Token = seq<Byte>

  /** A row of the job table; the nullable columns are as independent as they are there. */
  datatype Job = Job(
    identity: JobIdentity,
    status: Status,
    attempt: nat,
    leaseOwner: Option<string>,
    leaseToken: Option<Token>,
    leaseExpiresAt: Option<int>,
    progress: Option<Progress>,
    inputKey: Option<string>,
    outputKey: Option<string>,
    outputCount: Option<int>,
    outputVersion: Option<string>,
    refNamespace: Option<string>,
    refName: Option<string>,
    refStatus: Option<RefStatus>,
    refVersion: Option<string>,
    cacheHit: bool,
    error: Option<JobError>,
    createdAt: int,
    startedAt: Option<int>,
    finishedAt: Option<int>)

  datatype RefKey = RefKey(namespaceId: string, name: string)

  datatype RefRow = RefRow(version: string, deleted: bool)

  /** Times are microseconds. */
  datatype Db = Db(tables: Tables, namespaces: set<string>, refs: map<RefKey, RefRow>, jobs: map<string, Job>, clock: int)

  datatype Lease = Lease(id: string, attempt: int, token: Token)

  datatype CreateJob = CreateJob(id: string, identity: JobIdentity, refNamespace: Option<string>, refName: Option<string>)

  datatype Completion = Completion(lease: Lease, layout: LayoutInput, run: RunInput, outputCount: int)

  datatype Call =
    | CreateOrRead(create: CreateJob, appNow: int)
    | Claim(owner: string, durationMs: int, token: Token)
    | Renew(lease: Lease, durationMs: int)
    | MarkRunning(lease: Lease)
    | UpdateProgress(lease: Lease, progress: Progress)
    | SetStagingKeys(lease: Lease, inputKey: string, outputKey: string)
    | MarkFinalizing(lease: Lease)
    | MarkFailed(lease: Lease, error: JobError)
    | MarkCancelled(lease: Lease)
    | RequestCancellation(id: string)
    | ClearFence(lease: Lease)
    | ClearStaging(lease: Lease)
    | ClearCompletedStaging(id: string, attempt: int, outputVersion: string, inputKey: string, outputKey: string)
    | FailExpired
    | Retry(id: string)
      // `elapsed` is how long the registration takes between its two looks at the clock.
    | Complete(completion: Completion, elapsed: nat)
    | Register(registration: Registration)
      // Compare-and-set, deletion and restoration of refs, as far as jobs can tell.
    | WriteRef(key: RefKey, row: RefRow)

  datatype Error = InputError | DeterminismConflict | ConsistencyError | LeaseError | RegistrationError | ConstraintViolation

  datatype Result<+T> = Ok(value: T) | Throws(error: Error)

  // ---- Row shapes ----

  predicate Active(status: Status) {
    status.Leased? || status.Running? || status.Finalizing?
  }

  predicate Stopped(status: Status) {
    status.Failed? || status.Cancelled?
  }

  function StagingKey(id: string, attempt: int, file: string): string {
    "staging/worker/v1/" + id + "/" + Decimal(attempt) + file
  }

  function InputKeyOf(id: string, attempt: int): string {
    StagingKey(id, attempt, "/input.jsonl")
  }

  function OutputKeyOf(id: string, attempt: int): string {
    StagingKey(id, attempt, "/output.jsonl")
  }

  function JobId(cacheKey: string): string {
    "job_" + cacheKey
  }

  predicate ExactKeys(id: string, job: Job) {
    job.inputKey == Some(InputKeyOf(id, job.attempt)) && job.outputKey == Some(OutputKeyOf(id, job.attempt))
  }

  predicate NoKeys(job: Job) {
    job.inputKey.None? && job.outputKey.None?
  }

  predicate NoLease(job: Job) {
    job.leaseOwner.None? && job.leaseToken.None? && job.leaseExpiresAt.None?
  }

  predicate NoRef(job: Job) {
    job.refNamespace.None? && job.refName.None? && job.refStatus.None? && job.refVersion.None?
  }

  predicate LeaseShape(job: Job) {
    NoLease(job) ||
    (job.leaseOwner.Some? && job.leaseToken.Some? && |job.leaseToken.value| == 32 && job.leaseExpiresAt.Some?)
  }

  predicate RefShape(job: Job) {
    NoRef(job) ||
    (job.refNamespace.Some? && job.refName.Some? && job.refStatus.Some? &&
     (job.refStatus.value.Pending? <==> job.refVersion.None?))
  }

  /** The CHECK constraints of the job table. */
  predicate ChecksHold(id: string, job: Job) {
    && id == JobId(job.identity.cacheKey)
    && 0 <= job.identity.inputCount
    && (job.outputCount.Some? ==> 0 <= job.outputCount.value <= job.identity.inputCount)
    && job.attempt <= POSTGRES_INTEGER_MAX
    && LeaseShape(job)
    && ((Active(job.status) <==> job.leaseToken.Some?) || Stopped(job.status))
    && (if job.status.Completed? then job.outputVersion.Some? && job.finishedAt.Some? else job.outputVersion.None?)
    && (job.status.Completed? || Stopped(job.status) <==> job.finishedAt.Some?)
    && (job.status.Failed? <==> job.error.Some?)
    && (job.cacheHit ==> job.status.Completed?)
    && (NoKeys(job) || ExactKeys(id, job))
    && RefShape(job)
  }

  predicate ValidProgress(p: Progress) {
    && 0 <= p.completedUnits <= POSTGRES_BIGINT_MAX
    && (p.totalUnits.Some? ==> p.completedUnits <= p.totalUnits.value <= POSTGRES_BIGINT_MAX)
  }

  /** `prismaRowToTransformJob` accepts the row. */
  predicate Decodes(job: Job) {
    && RefShape(job)
    && LeaseShape(job)
    && (job.status.Completed? <==> job.outputVersion.Some?)
    && (job.refStatus.Some? ==>
          && (job.status.Completed? <==> !job.refStatus.value.Pending?)
          && (job.refStatus.value.Updated? ==> job.refVersion == job.outputVersion))
    && (job.progress.Some? ==> ValidProgress(job.progress.value))
  }

  // ---- Guarded updates of one row ----

  predicate Unexpired(job: Job, now: int) {
    job.leaseExpiresAt.Some? && job.leaseExpiresAt.value > now
  }

  predicate Matches(job: Job, lease: Lease) {
    job.attempt == lease.attempt && job.leaseToken == Some(lease.token)
  }

  predicate Holds(job: Job, lease: Lease, now: int) {
    Matches(job, lease) && Unexpired(job, now)
  }

  predicate ValidLease(lease: Lease) {
    lease.attempt >= 1 && |lease.token| == 32
  }

  predicate ValidDuration(durationMs: int) {
    0 < durationMs <= MAX_JOB_LEASE_MS
  }

  function Stop(job: Job, status: Status, error: Option<JobError>, now: int): Job {
    job.(status := status, error := error, finishedAt := Some(now))
  }

  /** The row a single-row UPDATE writes, or None if its WHERE clause rejects the row. */
  function Written(job: Job, now: int, call: Call): Option<Job> {
    match call
    case Renew(lease, durationMs) =>
      if Holds(job, lease, now) && Active(job.status) then Some(job.(leaseExpiresAt := Some(now + durationMs * 1000)))
      else None
    case MarkRunning(lease) =>
      if Holds(job, lease, now) && job.status.Leased?
      then Some(job.(status := Running, startedAt := if job.startedAt.Some? then job.startedAt else Some(now)))
      else None
    case UpdateProgress(lease, progress) =>
      if Holds(job, lease, now) && job.status.Running? then Some(job.(progress := Some(progress))) else None
    case SetStagingKeys(lease, inputKey, outputKey) =>
      if Holds(job, lease, now) && job.status.Leased? &&
         (NoKeys(job) || (job.inputKey == Some(inputKey) && job.outputKey == Some(outputKey)))
      then Some(job.(inputKey := Some(inputKey), outputKey := Some(outputKey)))
      else None
    case MarkFinalizing(lease) =>
      if Holds(job, lease, now) && job.status.Running? then Some(job.(status := Finalizing)) else None
    case MarkFailed(lease, error) =>
      if Holds(job, lease, now) && Active(job.status) then Some(Stop(job, Failed, Some(error), now)) else None
    case MarkCancelled(lease) =>
      if Holds(job, lease, now) && Active(job.status) then Some(Stop(job, Cancelled, job.error, now)) else None
    case RequestCancellation(_) =>
      if job.status.Queued? || Active(job.status) then Some(Stop(job, Cancelled, job.error, now)) else None
    case ClearFence(lease) =>
      if Matches(job, lease) && NoKeys(job) && Stopped(job.status)
      then Some(job.(leaseOwner := None, leaseToken := None, leaseExpiresAt := None))
      else None
    case ClearStaging(lease) =>
      if Matches(job, lease) && Stopped(job.status) then Some(job.(inputKey := None, outputKey := None)) else None
    case ClearCompletedStaging(_, attempt, outputVersion, inputKey, outputKey) =>
      if job.attempt == attempt && job.status.Completed? && job.outputVersion == Some(outputVersion) &&
         (NoKeys(job) || (job.inputKey == Some(inputKey) && job.outputKey == Some(outputKey)))
      then Some(job.(inputKey := None, outputKey := None))
      else None
    case Retry(_) =>
      if Stopped(job.status) && job.leaseToken.None? && NoKeys(job)
      then Some(job.(status := Queued, progress := None, error := None, outputCount := None, startedAt := None, finishedAt := None))
      else None
    case _ => None
  }

  predicate IsLeaseCall(call: Call) {
    call.Renew? || call.MarkRunning? || call.UpdateProgress? || call.SetStagingKeys? || call.MarkFinalizing? ||
    call.MarkFailed? || call.MarkCancelled? || call.ClearFence? || call.ClearStaging?
  }

  predicate IsRowCall(call: Call) {
    IsLeaseCall(call) || call.RequestCancellation? || call.ClearCompletedStaging? || call.Retry?
  }

  function TargetOf(call: Call): string
    requires IsRowCall(call)
  {
    if IsLeaseCall(call) then call.lease.id else call.id
  }

  /** What the catalog validates before it touches the database. */
  predicate ValidRowCall(call: Call)
    requires IsRowCall(call)
  {
    && (IsLeaseCall(call) ==> ValidLease(call.lease))
    && match call
       case Renew(_, durationMs) => ValidDuration(durationMs)
       case UpdateProgress(_, progress) => ValidProgress(progress)
       case SetStagingKeys(lease, inputKey, outputKey) =>
         inputKey == InputKeyOf(lease.id, lease.attempt) && outputKey == OutputKeyOf(lease.id, lease.attempt)
       case ClearCompletedStaging(id, attempt, _, inputKey, outputKey) =>
         attempt >= 1 && inputKey == InputKeyOf(id, attempt) && outputKey == OutputKeyOf(id, attempt)
       case _ => true
  }

  function UpdatedJobs(jobs: map<string, Job>, now: int, call: Call): map<string, Job>
    requires IsRowCall(call)
  {
    var id := TargetOf(call);
    if !ValidRowCall(call) || id !in jobs then jobs
    else
      match Written(jobs[id], now, call)
      case None => jobs
      case Some(job) => jobs[id := job]
  }

  function AfterRowCall(db: Db, call: Call): Db
    requires IsRowCall(call)
  {
    db.(jobs := UpdatedJobs(db.jobs, db.clock, call))
  }

  // ---- Claims and expiry ----

  predicate FenceHeld(jobs: map<string, Job>) {
    exists id | id in jobs :: jobs[id].leaseToken.Some?
  }

  function QueueKeys(jobs: map<string, Job>): set<Keyset.TimedKey> {
    set id | id in jobs && jobs[id].status.Queued? :: Keyset.TimedKey(jobs[id].createdAt, id)
  }

  /** The least queued job by creation time and id. */
  ghost predicate IsNext(jobs: map<string, Job>, id: string) {
    id in jobs && jobs[id].status.Queued? &&
    Keyset.IsLeast(Keyset.TimedKey(jobs[id].createdAt, id), QueueKeys(jobs), Keyset.OldestFirst())
  }

  function Claimed(job: Job, owner: string, durationMs: int, token: Token, now: int): Job {
    job.(status := Leased, attempt := job.attempt + 1, leaseOwner := Some(owner), leaseToken := Some(token),
         leaseExpiresAt := Some(now + durationMs * 1000))
  }

  /** There is exactly one. */
  ghost function NextJob(jobs: map<string, Job>): (id: string)
    requires QueueKeys(jobs) != {}
    ensures IsNext(jobs, id)
    ensures forall other | IsNext(jobs, other) :: other == id
  {
    Keyset.TimedKeysAreTotallyOrdered();
    Keyset.Least(QueueKeys(jobs), Keyset.OldestFirst()).id
  }

  /** A claim takes nothing while any row is fenced; an exhausted attempt counter makes it throw. */
  ghost function AfterClaim(db: Db, owner: string, durationMs: int, token: Token): Db {
    if !ValidDuration(durationMs) || FenceHeld(db.jobs) || QueueKeys(db.jobs) == {} then db
    else
      var id := NextJob(db.jobs);
      if db.jobs[id].attempt >= POSTGRES_INTEGER_MAX then db
      else db.(jobs := db.jobs[id := Claimed(db.jobs[id], owner, durationMs, token, db.clock)])
  }

  predicate HasExpired(job: Job, now: int) {
    job.leaseToken.Some? && job.leaseExpiresAt.Some? && job.leaseExpiresAt.value <= now && Active(job.status)
  }

  function Expire(job: Job, now: int): Job {
    if HasExpired(job, now) then Stop(job, Failed, Some(LEASE_EXPIRED), now) else job
  }

  function AfterFailExpired(db: Db): Db {
    db.(jobs := map id | id in db.jobs :: Expire(db.jobs[id], db.clock))
  }

  // ---- Result refs ----

  datatype Adoption = Adoption(refs: map<RefKey, RefRow>, status: RefStatus, version: string)

  /** `adoptTransformJobResultRefInTransaction`: take the name if it is free, otherwise say whether it
      already points at the output.  Taking it needs a known namespace. */
  function Adopt(namespaces: set<string>, refs: map<RefKey, RefRow>, key: RefKey, version: string): Result<Adoption> {
    if key !in refs then
      if key.namespaceId in namespaces then Ok(Adoption(refs[key := RefRow(version, false)], Updated, version))
      else Throws(ConstraintViolation)
    else if !refs[key].deleted && refs[key].version == version then Ok(Adoption(refs, Updated, version))
    else Ok(Adoption(refs, Conflict, refs[key].version))
  }

  // ---- Creation ----

  /** A row and the refs, as a transaction has them before it commits. */
  datatype Draft = Draft(refs: map<RefKey, RefRow>, row: Job)

  predicate ValidCreate(create: CreateJob) {
    && create.id == JobId(create.identity.cacheKey)
    && 0 <= create.identity.inputCount <= POSTGRES_BIGINT_MAX
    && (create.refNamespace.None? <==> create.refName.None?)
  }

  /** The run that already computed what the job asks for, if any. */
  function CachedRun(t: Tables, identity: JobIdentity): Option<Run> {
    if identity.cacheKey in t.runs then Some(t.runs[identity.cacheKey]) else None
  }

  predicate RunAnswers(run: Run, identity: JobIdentity) {
    && run.id == "run_" + identity.cacheKey
    && run.op == identity.op && run.opVersion == identity.opVersion
    && SameJson(run.params, identity.params)
    && run.inputVersions == [identity.inputVersion]
  }

  function NewRow(create: CreateJob, run: Option<Run>, count: Option<int>, adoption: Option<Adoption>, now: int, appNow: int): Job {
    Job(create.identity, if run.Some? then Completed else Queued, 0, None, None, None, None, None, None,
        count, if run.Some? then Some(run.value.outputVersion) else None,
        create.refNamespace, create.refName,
        if create.refName.None? then None else Some(if adoption.Some? then adoption.value.status else Pending),
        if adoption.Some? then Some(adoption.value.version) else None,
        run.Some?, None, now, None, if run.Some? then Some(appNow) else None)
  }

  /** Adopts the ref that the input or the row names, if it names one. */
  function AdoptNamed(namespaces: set<string>, refs: map<RefKey, RefRow>, namespaceId: Option<string>, name: Option<string>, version: string)
    : Result<(map<RefKey, RefRow>, Option<Adoption>)>
  {
    if namespaceId.None? || name.None? then Ok((refs, None))
    else
      match Adopt(namespaces, refs, RefKey(namespaceId.value, name.value), version)
      case Throws(error) => Throws(error)
      case Ok(adoption) => Ok((adoption.refs, Some(adoption)))
  }

  /** The insert: an existing row wins, but the new row must satisfy the table's checks either way. */
  function Insert(db: Db, create: CreateJob, appNow: int): Result<Draft> {
    var run := CachedRun(db.tables, create.identity);
    if create.identity.inputVersion !in db.tables.snapshots then Throws(InputError)
    else if db.tables.snapshots[create.identity.inputVersion].numRecords != create.identity.inputCount then Throws(InputError)
    else if run.Some? && !RunAnswers(run.value, create.identity) then Throws(DeterminismConflict)
    else if run.Some? && run.value.outputVersion !in db.tables.snapshots then Throws(ConsistencyError)
    else
      var adopted := if run.Some? then AdoptNamed(db.namespaces, db.refs, create.refNamespace, create.refName, run.value.outputVersion)
                     else Ok((db.refs, None));
      match adopted
      case Throws(error) => Throws(error)
      case Ok((refs, adoption)) =>
        var count := if run.Some? then Some(db.tables.snapshots[run.value.outputVersion].numRecords) else None;
        var row := NewRow(create, run, count, adoption, db.clock, appNow);
        if !ChecksHold(create.id, row) then Throws(ConstraintViolation)
        else if create.id in db.jobs then Ok(Draft(refs, db.jobs[create.id]))
        else if create.refNamespace.Some? && create.refNamespace.value !in db.namespaces then Throws(ConstraintViolation)
        else Ok(Draft(refs, row))
  }

  /** `assertTransformJobIdentity` */
  predicate SameJob(row: Job, create: CreateJob) {
    && row.identity.(params := Null) == create.identity.(params := Null)
    && SameJson(row.identity.params, create.identity.params)
    && (create.refName.Some? && row.refNamespace.Some? ==>
          row.refNamespace == create.refNamespace && row.refName == create.refName)
  }

  /** A later caller may name a result ref for a row that has none. */
  function Attach(db: Db, draft: Draft, create: CreateJob): Result<Draft> {
    var row := draft.row;
    if row.refName.Some? || create.refNamespace.None? || create.refName.None? then Ok(draft)
    else if create.refNamespace.value !in db.namespaces then Throws(ConstraintViolation)
    else if row.status.Completed? && row.outputVersion.Some? then
      match Adopt(db.namespaces, draft.refs, RefKey(create.refNamespace.value, create.refName.value), row.outputVersion.value)
      case Throws(error) => Throws(error)
      case Ok(adoption) =>
        Ok(Draft(adoption.refs,
                 row.(refNamespace := create.refNamespace, refName := create.refName,
                      refStatus := Some(adoption.status), refVersion := Some(adoption.version))))
    else
      Ok(draft.(row := row.(refNamespace := create.refNamespace, refName := create.refName,
                            refStatus := Some(Pending), refVersion := None)))
  }

  /** A run that appeared before the first claim completes the queued row. */
  function Settle(db: Db, draft: Draft, now: int): Result<Draft> {
    var row := draft.row;
    var run := CachedRun(db.tables, row.identity);
    if row.status.Completed? then
      if run.None? || run.value.outputVersion !in db.tables.snapshots ||
         row.outputVersion != Some(run.value.outputVersion) ||
         row.outputCount != Some(db.tables.snapshots[run.value.outputVersion].numRecords)
      then Throws(ConsistencyError)
      else Ok(draft)
    else if run.Some? && run.value.outputVersion in db.tables.snapshots && row.status.Queued? && row.attempt == 0 then
      match AdoptNamed(db.namespaces, draft.refs, row.refNamespace, row.refName, run.value.outputVersion)
      case Throws(error) => Throws(error)
      case Ok((refs, adoption)) =>
        if row.leaseToken.Some? then Ok(Draft(refs, row))
        else
          var settled := row.(status := Completed, outputVersion := Some(run.value.outputVersion),
                              outputCount := Some(db.tables.snapshots[run.value.outputVersion].numRecords),
                              refStatus := if adoption.Some? then Some(adoption.value.status) else None,
                              refVersion := if adoption.Some? then Some(adoption.value.version) else None,
                              cacheHit := true, finishedAt := Some(now));
          if ChecksHold(JobId(row.identity.cacheKey), settled) then Ok(Draft(refs, settled)) else Throws(ConstraintViolation)
    else Ok(draft)
  }

  /** `createOrReadTransformJob` */
  function Created(db: Db, create: CreateJob, appNow: int): Result<Draft> {
    if !ValidCreate(create) then Throws(InputError)
    else
      match Insert(db, create, appNow)
      case Throws(error) => Throws(error)
      case Ok(inserted) =>
        if !SameJob(inserted.row, create) then Throws(DeterminismConflict)
        else
          match Attach(db, inserted, create)
          case Throws(error) => Throws(error)
          case Ok(attached) =>
            match Settle(db, attached, db.clock)
            case Throws(error) => Throws(error)
            case Ok(settled) => if Decodes(settled.row) then Ok(settled) else Throws(ConsistencyError)
  }

  function AfterCreate(db: Db, create: CreateJob, appNow: int): Db {
    match Created(db, create, appNow)
    case Throws(_) => db
    case Ok(draft) => db.(refs := draft.refs, jobs := db.jobs[create.id := draft.row])
  }

  // ---- Completion ----

  /** The validations before the transaction. */
  ghost predicate ValidCompletion(c: Completion) {
    && ValidLayoutInput(c.layout) && ValidRunInput(c.layout, c.run) && ValidLease(c.lease)
    && 0 <= c.outputCount <= POSTGRES_BIGINT_MAX && c.outputCount == c.layout.snapshot.numRecords
    && c.lease.id == JobId(c.run.cacheKey) && |c.run.inputVersions| == 1
  }

  /** `assertTransformJobCompletionIdentity` */
  predicate CompletionMatches(row: Job, c: Completion)
    requires |c.run.inputVersions| == 1
  {
    && row.identity.cacheKey == c.run.cacheKey
    && row.identity.op == c.run.op && row.identity.opVersion == c.run.opVersion
    && SameJson(row.identity.params, c.run.params)
    && row.identity.inputVersion == c.run.inputVersions[0]
    && c.outputCount <= row.identity.inputCount
  }

  /** Reading back a row that is already completed. */
  function Readback(db: Db, row: Job, c: Completion): Result<Job> {
    if row.attempt != c.lease.attempt || row.outputVersion != Some(c.run.outputVersion) || row.outputCount != Some(c.outputCount)
    then Throws(LeaseError)
    else if c.run.cacheKey !in db.tables.runs || !SameRun(db.tables.runs[c.run.cacheKey], c.run) then Throws(DeterminismConflict)
    else if Decodes(row) then Ok(row)
    else Throws(ConsistencyError)
  }

  /** Everything that must hold before the registration starts. */
  function Admitted(db: Db, row: Job, c: Completion): Result<Job> {
    if !row.status.Finalizing? || !Holds(row, c.lease, db.clock) then Throws(LeaseError)
    else if row.inputKey != Some(InputKeyOf(c.lease.id, c.lease.attempt)) ||
            row.outputKey != Some(OutputKeyOf(c.lease.id, c.lease.attempt)) then Throws(InputError)
    else if row.identity.inputVersion !in db.tables.snapshots ||
            db.tables.snapshots[row.identity.inputVersion].numRecords != row.identity.inputCount then Throws(ConsistencyError)
    else Ok(row)
  }

  function Finished(row: Job, c: Completion, adoption: Option<Adoption>, cacheHit: bool, now: int): Job {
    row.(status := Completed, outputCount := Some(c.outputCount), outputVersion := Some(c.run.outputVersion),
         refStatus := if adoption.Some? then Some(adoption.value.status) else None,
         refVersion := if adoption.Some? then Some(adoption.value.version) else None,
         cacheHit := cacheHit, error := None, finishedAt := Some(now),
         leaseOwner := None, leaseToken := None, leaseExpiresAt := None)
  }

  /** After the registration: adopt the ref, then the UPDATE, whose guard looks at the clock again. */
  function Finish(db: Db, row: Job, c: Completion, cacheHit: bool, later: int): Result<Draft> {
    match AdoptNamed(db.namespaces, db.refs, row.refNamespace, row.refName, c.run.outputVersion)
    case Throws(error) => Throws(error)
    case Ok((refs, adoption)) =>
      if !row.status.Finalizing? || !Holds(row, c.lease, later) then Throws(LeaseError)
      else
        var finished := Finished(row, c, adoption, cacheHit, later);
        if !ChecksHold(c.lease.id, finished) then Throws(ConstraintViolation)
        else if Decodes(finished) then Ok(Draft(refs, finished))
        else Throws(ConsistencyError)
  }

  /** What a completion leaves, and what it returns or throws.  A completion that gets as far as the run
      keeps the sequence number it drew. */
  ghost function Completing(db: Db, c: Completion, elapsed: nat): (Db, Result<Job>) {
    var waited := db.(clock := db.clock + elapsed);
    if !ValidCompletion(c) then (waited, Throws(InputError))
    else if c.lease.id !in db.jobs then (waited, Throws(LeaseError))
    else if !CompletionMatches(db.jobs[c.lease.id], c) then (waited, Throws(DeterminismConflict))
    else if db.jobs[c.lease.id].status.Completed? then (waited, Readback(db, db.jobs[c.lease.id], c))
    else
      match Admitted(db, db.jobs[c.lease.id], c)
      case Throws(error) => (waited, Throws(error))
      case Ok(row) =>
        if !LayoutRegisters(db.tables, c.layout) then (waited, Throws(RegistrationError))
        else FinishRegistered(waited, WithLayout(db.tables, c.layout), row, c)
  }

  function FinishRegistered(db: Db, t: Tables, row: Job, c: Completion): (Db, Result<Job>) {
    var drawn := db.(tables := db.tables.(sequence := db.tables.sequence + 1));
    if !RunRegisters(t, c.run) then (drawn, Throws(RegistrationError))
    else
      match Finish(db, row, c, c.run.cacheKey in t.runs, db.clock)
      case Throws(error) => (drawn, Throws(error))
      case Ok(draft) =>
        (db.(tables := WithRun(t, c.run), refs := draft.refs, jobs := db.jobs[c.lease.id := draft.row]), Ok(draft.row))
  }

  // ---- Steps and runs ----

  ghost function Apply(db: Db, call: Call): Db {
    match call
    case CreateOrRead(create, appNow) => AfterCreate(db, create, appNow)
    case Claim(owner, durationMs, token) => AfterClaim(db, owner, durationMs, token)
    case FailExpired => AfterFailExpired(db)
    case Complete(completion, elapsed) => Completing(db, completion, elapsed).0
    case Register(registration) => db.(tables := Registry.After(db.tables, registration))
    case WriteRef(key, row) =>
      if key.namespaceId in db.namespaces && row.version in db.tables.snapshots then db.(refs := db.refs[key := row]) else db
    case _ => AfterRowCall(db, call)
  }

  /** Some time passes, then one transaction commits or rolls back. */
  datatype Step = Step(wait: nat, call: Call)

  ghost function Next(db: Db, step: Step): Db {
    Apply(db.(clock := db.clock + step.wait), step.call)
  }

  ghost function AfterSteps(db: Db, steps: seq<Step>): Db
    decreases |steps|
  {
    if steps == [] then db else AfterSteps(Next(db, steps[0]), steps[1..])
  }
}
