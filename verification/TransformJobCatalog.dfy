/** The catalog's job methods, in place over its tables.  Each public method keeps the invariant and takes exactly
    one call of the runs that the protocol's theorems are about; the others are parts of a transaction. */
module TransformJobCatalog {
  import opened Text
  import opened Json
  import opened Registry
  import opened RegistryCatalog
  import opened TransformJobs
  import opened TransformJobInvariant
  import opened TransformJobTheorems
  import Keyset

  class V2Catalog {
    const registry: RegistryTables
    const namespaces: set<string>
    var refs: map<RefKey, RefRow>
    var jobs: map<string, Job>
    var clock: int

    function State(): Db
      reads this, registry, registry.lineage
    {
      Db(registry.Contents(), namespaces, refs, jobs, clock)
    }

    ghost predicate Valid()
      reads this, registry, registry.lineage
    {
      Inv(State())
    }

    constructor (namespaces: set<string>, clock: int)
      ensures Valid() && fresh(registry) && fresh(registry.lineage) && State() == Initial(namespaces, clock)
    {
      registry := new RegistryTables();
      this.namespaces, this.clock := namespaces, clock;
      refs, jobs := map[], map[];
    }

    method Wait(microseconds: nat)
      requires Valid()
      modifies this`clock
      ensures Valid() && State() == old(State()).(clock := old(clock) + microseconds)
    {
      hide Inv;
      TimeMayPass(State(), clock + microseconds);
      clock := clock + microseconds;
    }

    // ---- Registrations ----

    method RegisterCommittedLayout(input: LayoutInput) returns (ok: bool)
      requires Valid()
      modifies registry, registry.lineage
      ensures ok <==> ValidLayoutInput(input) && LayoutRegisters(old(registry.Contents()), input)
      ensures Valid() && State() == Apply(old(State()), Register(RegisterLayout(input)))
    {
      hide Inv, Apply, Consistent, ValidLayoutInput, LayoutRegisters, Evolves, AfterLayout;
      RegistrationStep(State(), RegisterLayout(input));
      ok := registry.RegisterCommittedLayout(input);
    }

    method RegisterTransformResult(input: LayoutInput, run: RunInput) returns (ok: bool)
      requires Valid()
      modifies registry, registry.lineage
      ensures ok <==> ResultRegisters(old(registry.Contents()), input, run)
      ensures Valid() && State() == Apply(old(State()), Register(RegisterResult(input, run)))
    {
      hide Inv, Apply, Consistent, ResultRegisters, Evolves, AfterResult;
      RegistrationStep(State(), RegisterResult(input, run));
      ok := registry.RegisterTransformResult(input, run);
    }

    // ---- Guarded updates of one row ----

    /** The shared UPDATE of the status transitions. */
    method TransitionTransformJob(lease: Lease, from: set<Status>, assignments: Job -> Job) returns (row: Option<Job>)
      modifies this`jobs
      ensures var hit := lease.id in old(jobs) && Holds(old(jobs)[lease.id], lease, clock) && old(jobs)[lease.id].status in from;
              && row == (if hit then Some(assignments(old(jobs)[lease.id])) else None)
              && jobs == (if hit then old(jobs)[lease.id := assignments(old(jobs)[lease.id])] else old(jobs))
    {
      row := None;
      if lease.id in jobs && Holds(jobs[lease.id], lease, clock) && jobs[lease.id].status in from {
        row := Some(assignments(jobs[lease.id]));
        jobs := jobs[lease.id := row.value];
      }
    }

    method RenewTransformJobLease(lease: Lease, durationMs: int) returns (r: Result<bool>)
      requires Valid()
      modifies this`jobs
      ensures r == Changes(old(jobs), clock, Renew(lease, durationMs))
      ensures Valid() && State() == Apply(old(State()), Renew(lease, durationMs))
    {
      hide Inv, Apply;
      RowStep(State(), Renew(lease, durationMs));
      if !ValidLease(lease) || !ValidDuration(durationMs) {
        return Throws(InputError);
      }
      r := Ok(false);
      if lease.id in jobs {
        var job := jobs[lease.id];
        if Holds(job, lease, clock) && Active(job.status) {
          jobs := jobs[lease.id := job.(leaseExpiresAt := Some(clock + durationMs * 1000))];
          r := Ok(true);
        }
      }
    }

    method MarkTransformJobRunning(lease: Lease) returns (r: Result<Option<Job>>)
      requires Valid()
      modifies this`jobs
      ensures r == Returned(old(jobs), clock, MarkRunning(lease))
      ensures Valid() && State() == Apply(old(State()), MarkRunning(lease))
    {
      hide Inv, Apply;
      RowStep(State(), MarkRunning(lease));
      if !ValidLease(lease) {
        return Throws(InputError);
      }
      var now := clock;
      var row := TransitionTransformJob(lease, {Leased}, (job: Job) =>
        job.(status := Running, startedAt := if job.startedAt.Some? then job.startedAt else Some(now)));
      r := Ok(row);
    }

    method UpdateTransformJobProgress(lease: Lease, progress: Progress) returns (r: Result<bool>)
      requires Valid()
      modifies this`jobs
      ensures r == Changes(old(jobs), clock, UpdateProgress(lease, progress))
      ensures Valid() && State() == Apply(old(State()), UpdateProgress(lease, progress))
    {
      hide Inv, Apply;
      RowStep(State(), UpdateProgress(lease, progress));
      if !ValidLease(lease) || !ValidProgress(progress) {
        return Throws(InputError);
      }
      r := Ok(false);
      if lease.id in jobs {
        var job := jobs[lease.id];
        if Holds(job, lease, clock) && job.status.Running? {
          jobs := jobs[lease.id := job.(progress := Some(progress))];
          r := Ok(true);
        }
      }
    }

    method SetTransformJobStagingKeys(lease: Lease, inputKey: string, outputKey: string) returns (r: Result<bool>)
      requires Valid()
      modifies this`jobs
      ensures r == Changes(old(jobs), clock, SetStagingKeys(lease, inputKey, outputKey))
      ensures Valid() && State() == Apply(old(State()), SetStagingKeys(lease, inputKey, outputKey))
    {
      hide Inv, Apply, StagingKey;
      RowStep(State(), SetStagingKeys(lease, inputKey, outputKey));
      if !ValidLease(lease) || inputKey != InputKeyOf(lease.id, lease.attempt) || outputKey != OutputKeyOf(lease.id, lease.attempt) {
        return Throws(InputError);
      }
      r := Ok(false);
      if lease.id in jobs {
        var job := jobs[lease.id];
        if Holds(job, lease, clock) && job.status.Leased? &&
           (NoKeys(job) || (job.inputKey == Some(inputKey) && job.outputKey == Some(outputKey))) {
          jobs := jobs[lease.id := job.(inputKey := Some(inputKey), outputKey := Some(outputKey))];
          r := Ok(true);
        }
      }
    }

    method MarkTransformJobFinalizing(lease: Lease) returns (r: Result<Option<Job>>)
      requires Valid()
      modifies this`jobs
      ensures r == Returned(old(jobs), clock, MarkFinalizing(lease))
      ensures Valid() && State() == Apply(old(State()), MarkFinalizing(lease))
    {
      hide Inv, Apply;
      RowStep(State(), MarkFinalizing(lease));
      if !ValidLease(lease) {
        return Throws(InputError);
      }
      var row := TransitionTransformJob(lease, {Running}, (job: Job) => job.(status := Finalizing));
      r := Ok(row);
    }

    method MarkTransformJobFailed(lease: Lease, error: JobError) returns (r: Result<Option<Job>>)
      requires Valid()
      modifies this`jobs
      ensures r == Returned(old(jobs), clock, MarkFailed(lease, error))
      ensures Valid() && State() == Apply(old(State()), MarkFailed(lease, error))
    {
      hide Inv, Apply;
      RowStep(State(), MarkFailed(lease, error));
      if !ValidLease(lease) {
        return Throws(InputError);
      }
      var now := clock;
      var row := TransitionTransformJob(lease, {Leased, Running, Finalizing}, (job: Job) =>
        job.(status := Failed, error := Some(error), finishedAt := Some(now)));
      r := Ok(row);
    }

    method MarkTransformJobCancelled(lease: Lease) returns (r: Result<Option<Job>>)
      requires Valid()
      modifies this`jobs
      ensures r == Returned(old(jobs), clock, MarkCancelled(lease))
      ensures Valid() && State() == Apply(old(State()), MarkCancelled(lease))
    {
      hide Inv, Apply;
      RowStep(State(), MarkCancelled(lease));
      if !ValidLease(lease) {
        return Throws(InputError);
      }
      var now := clock;
      var row := TransitionTransformJob(lease, {Leased, Running, Finalizing}, (job: Job) =>
        job.(status := Cancelled, finishedAt := Some(now)));
      r := Ok(row);
    }

    /** A row that cannot be cancelled any more is read back as it is. */
    method RequestTransformJobCancellation(id: string) returns (row: Option<Job>)
      requires Valid()
      modifies this`jobs
      ensures row == if id in jobs then Some(jobs[id]) else None
      ensures Valid() && State() == Apply(old(State()), RequestCancellation(id))
    {
      hide Inv, Apply;
      RowStep(State(), RequestCancellation(id));
      if id !in jobs {
        return None;
      }
      var job := jobs[id];
      if job.status.Queued? || Active(job.status) {
        jobs := jobs[id := job.(status := Cancelled, finishedAt := Some(clock))];
      }
      row := Some(jobs[id]);
    }

    method ClearTransformJobLeaseFence(lease: Lease) returns (r: Result<bool>)
      requires Valid()
      modifies this`jobs
      ensures r == Changes(old(jobs), clock, ClearFence(lease))
      ensures Valid() && State() == Apply(old(State()), ClearFence(lease))
    {
      hide Inv, Apply;
      RowStep(State(), ClearFence(lease));
      if !ValidLease(lease) {
        return Throws(InputError);
      }
      r := Ok(false);
      if lease.id in jobs {
        var job := jobs[lease.id];
        if Matches(job, lease) && NoKeys(job) && Stopped(job.status) {
          jobs := jobs[lease.id := job.(leaseOwner := None, leaseToken := None, leaseExpiresAt := None)];
          r := Ok(true);
        }
      }
    }

    method ClearTransformJobStagingKeys(lease: Lease) returns (r: Result<bool>)
      requires Valid()
      modifies this`jobs
      ensures r == Changes(old(jobs), clock, ClearStaging(lease))
      ensures Valid() && State() == Apply(old(State()), ClearStaging(lease))
    {
      hide Inv, Apply;
      RowStep(State(), ClearStaging(lease));
      if !ValidLease(lease) {
        return Throws(InputError);
      }
      r := Ok(false);
      if lease.id in jobs {
        var job := jobs[lease.id];
        if Matches(job, lease) && Stopped(job.status) {
          jobs := jobs[lease.id := job.(inputKey := None, outputKey := None)];
          r := Ok(true);
        }
      }
    }

    method ClearCompletedTransformJobStagingKeys(id: string, attempt: int, outputVersion: string, inputKey: string, outputKey: string)
      returns (r: Result<bool>)
      requires Valid()
      modifies this`jobs
      ensures r == Changes(old(jobs), clock, ClearCompletedStaging(id, attempt, outputVersion, inputKey, outputKey))
      ensures Valid() && State() == Apply(old(State()), ClearCompletedStaging(id, attempt, outputVersion, inputKey, outputKey))
    {
      hide Inv, Apply, StagingKey;
      RowStep(State(), ClearCompletedStaging(id, attempt, outputVersion, inputKey, outputKey));
      if attempt < 1 || inputKey != InputKeyOf(id, attempt) || outputKey != OutputKeyOf(id, attempt) {
        return Throws(InputError);
      }
      r := Ok(false);
      if id in jobs {
        var job := jobs[id];
        if job.attempt == attempt && job.status.Completed? && job.outputVersion == Some(outputVersion) &&
           (NoKeys(job) || (job.inputKey == Some(inputKey) && job.outputKey == Some(outputKey))) {
          jobs := jobs[id := job.(inputKey := None, outputKey := None)];
          r := Ok(true);
        }
      }
    }

    method RetryTransformJob(id: string) returns (r: Result<Option<Job>>)
      requires Valid()
      modifies this`jobs
      ensures r == Returned(old(jobs), clock, Retry(id))
      ensures Valid() && State() == Apply(old(State()), Retry(id))
    {
      hide Inv, Apply;
      RowStep(State(), Retry(id));
      r := Ok(None);
      if id in jobs {
        var job := jobs[id];
        if Stopped(job.status) && job.leaseToken.None? && NoKeys(job) {
          var queued := job.(status := Queued, progress := None, error := None, outputCount := None,
                             startedAt := None, finishedAt := None);
          jobs := jobs[id := queued];
          r := Ok(Some(queued));
        }
      }
    }

    // ---- Claims and expiry ----

    method ClaimNextTransformJob(owner: string, durationMs: int, token: Token) returns (r: Result<Option<Job>>)
      requires Valid() && |token| == 32
      modifies this`jobs
      ensures r == ClaimAnswer(old(State()), owner, durationMs, token)
      ensures Valid() && State() == Apply(old(State()), Claim(owner, durationMs, token))
    {
      hide Inv, Apply, QueueKeys;
      ClaimStep(State(), owner, durationMs, token);
      if !ValidDuration(durationMs) {
        return Throws(InputError);
      }
      if FenceHeld(jobs) || forall id | id in jobs :: !jobs[id].status.Queued? {
        NoQueue(jobs);
        return Ok(None);
      }
      SomeQueue(jobs);
      // The candidate subquery: the least queued row.
      var id :| id in jobs && jobs[id].status.Queued? && IsOldest(jobs, id);
      OldestIsNext(jobs, id);
      var job := jobs[id];
      if job.attempt >= POSTGRES_INTEGER_MAX {
        return Throws(ConstraintViolation);
      }
      var claimed := job.(status := Leased, attempt := job.attempt + 1, leaseOwner := Some(owner),
                          leaseToken := Some(token), leaseExpiresAt := Some(clock + durationMs * 1000));
      jobs := jobs[id := claimed];
      r := Ok(Some(claimed));
    }

    method FailExpiredTransformJobLeases() returns (count: nat)
      requires Valid()
      modifies this`jobs
      ensures count == |set id | id in old(jobs) && HasExpired(old(jobs)[id], clock)|
      ensures Valid() && State() == Apply(old(State()), FailExpired)
    {
      hide Inv, Apply;
      ExpiryStep(State());
      var expired := set id | id in jobs && HasExpired(jobs[id], clock);
      jobs := map id | id in jobs :: if id in expired then Stop(jobs[id], Failed, Some(LEASE_EXPIRED), clock) else jobs[id];
      assert jobs == map id | id in old(jobs) :: Expire(old(jobs)[id], clock);
      count := |expired|;
    }

    /** The stopped row whose cleanup the queue is waiting for; there is never more than one. */
    method FindTransformJobCleanupFence() returns (row: Option<Job>)
      requires Valid()
      ensures row.None? ==> forall id | id in jobs && jobs[id].leaseToken.Some? :: !Stopped(jobs[id].status)
      ensures row.Some? ==>
        exists id :: id in jobs && jobs[id] == row.value && row.value.leaseToken.Some? && Stopped(row.value.status) &&
          forall other | other in jobs && jobs[other].leaseToken.Some? :: other == id
    {
      var fences := set id | id in jobs && jobs[id].leaseToken.Some? && Stopped(jobs[id].status);
      if fences == {} {
        assert forall id | id in jobs && jobs[id].leaseToken.Some? && Stopped(jobs[id].status) :: id in fences;
        return None;
      }
      var id :| id in fences;
      row := Some(jobs[id]);
    }

    // ---- Creation ----

    /** Takes the ref if its name is free; otherwise reports what it points at. */
    method AdoptTransformJobResultRef(namespaceId: string, name: string, version: string) returns (r: Result<(RefStatus, string)>)
      modifies this`refs
      ensures match Adopt(namespaces, old(refs), RefKey(namespaceId, name), version)
              case Throws(error) => r == Throws(error) && refs == old(refs)
              case Ok(adoption) => r == Ok((adoption.status, adoption.version)) && refs == adoption.refs
    {
      var key := RefKey(namespaceId, name);
      if key !in refs {
        if namespaceId !in namespaces {
          return Throws(ConstraintViolation);
        }
        refs := refs[key := RefRow(version, false)];
        return Ok((Updated, version));
      }
      var row := refs[key];
      if !row.deleted && row.version == version {
        return Ok((Updated, version));
      }
      r := Ok((Conflict, row.version));
    }

    /** The transaction, statement by statement.  What it has written when it throws is rolled back. */
    method InsertTransformJob(create: CreateJob, appNow: int) returns (r: Result<Job>)
      requires ValidCreate(create)
      modifies this`refs, this`jobs
      ensures match Insert(old(State()), create, appNow)
              case Throws(error) => r == Throws(error)
              case Ok(draft) => r == Ok(draft.row) && refs == draft.refs && jobs == old(jobs)[create.id := draft.row]
    {
      hide SameJson, ChecksHold, RunAnswers;
      var tables := registry.Contents();
      var run := CachedRun(tables, create.identity);
      if create.identity.inputVersion !in tables.snapshots ||
         tables.snapshots[create.identity.inputVersion].numRecords != create.identity.inputCount {
        return Throws(InputError);
      }
      if run.Some? && !RunAnswers(run.value, create.identity) {
        return Throws(DeterminismConflict);
      }
      if run.Some? && run.value.outputVersion !in tables.snapshots {
        return Throws(ConsistencyError);
      }
      var adoption := None;
      if run.Some? && create.refNamespace.Some? && create.refName.Some? {
        var adopted := AdoptTransformJobResultRef(create.refNamespace.value, create.refName.value, run.value.outputVersion);
        if adopted.Throws? {
          return Throws(adopted.error);
        }
        adoption := Some(Adoption(refs, adopted.value.0, adopted.value.1));
      }
      var count := if run.Some? then Some(tables.snapshots[run.value.outputVersion].numRecords) else None;
      var row := NewRow(create, run, count, adoption, clock, appNow);
      if !ChecksHold(create.id, row) {
        return Throws(ConstraintViolation);
      }
      if create.id !in jobs {
        if create.refNamespace.Some? && create.refNamespace.value !in namespaces {
          return Throws(ConstraintViolation);
        }
        jobs := jobs[create.id := row];
      }
      r := Ok(jobs[create.id]);
      assert jobs == old(jobs)[create.id := r.value];
    }

    method AttachResultRef(create: CreateJob, row: Job) returns (r: Result<Job>)
      requires create.id in jobs && jobs[create.id] == row
      modifies this`refs, this`jobs
      ensures match Attach(old(State()), Draft(old(refs), row), create)
              case Throws(error) => r == Throws(error)
              case Ok(draft) => r == Ok(draft.row) && refs == draft.refs && jobs == old(jobs)[create.id := draft.row]
    {
      assert jobs == jobs[create.id := row];
      if row.refName.Some? || create.refNamespace.None? || create.refName.None? {
        return Ok(row);
      }
      if create.refNamespace.value !in namespaces {
        return Throws(ConstraintViolation);
      }
      var status, version := Pending, None;
      if row.status.Completed? && row.outputVersion.Some? {
        var adopted := AdoptTransformJobResultRef(create.refNamespace.value, create.refName.value, row.outputVersion.value);
        if adopted.Throws? {
          return Throws(adopted.error);
        }
        status, version := adopted.value.0, Some(adopted.value.1);
      }
      var attached := row.(refNamespace := create.refNamespace, refName := create.refName,
                           refStatus := Some(status), refVersion := version);
      jobs := jobs[create.id := attached];
      r := Ok(attached);
    }

    method SettleFromRun(id: string, row: Job) returns (r: Result<Job>)
      requires id in jobs && jobs[id] == row
      modifies this`refs, this`jobs
      ensures match Settle(old(State()), Draft(old(refs), row), clock)
              case Throws(error) => r == Throws(error)
              case Ok(draft) => r == Ok(draft.row) && refs == draft.refs && jobs == old(jobs)[id := draft.row]
    {
      hide ChecksHold;
      assert jobs == jobs[id := row];
      var tables := registry.Contents();
      var run := CachedRun(tables, row.identity);
      if row.status.Completed? {
        if run.None? || run.value.outputVersion !in tables.snapshots || row.outputVersion != Some(run.value.outputVersion) ||
           row.outputCount != Some(tables.snapshots[run.value.outputVersion].numRecords) {
          return Throws(ConsistencyError);
        }
        return Ok(row);
      }
      if run.None? || run.value.outputVersion !in tables.snapshots || !row.status.Queued? || row.attempt != 0 {
        return Ok(row);
      }
      var status, version := None, None;
      if row.refNamespace.Some? && row.refName.Some? {
        var adopted := AdoptTransformJobResultRef(row.refNamespace.value, row.refName.value, run.value.outputVersion);
        if adopted.Throws? {
          return Throws(adopted.error);
        }
        status, version := Some(adopted.value.0), Some(adopted.value.1);
      }
      if row.leaseToken.Some? {
        return Ok(row);
      }
      var settled := row.(status := Completed, outputVersion := Some(run.value.outputVersion),
                          outputCount := Some(tables.snapshots[run.value.outputVersion].numRecords),
                          refStatus := status, refVersion := version, cacheHit := true, finishedAt := Some(clock));
      if !ChecksHold(JobId(row.identity.cacheKey), settled) {
        return Throws(ConstraintViolation);
      }
      jobs := jobs[id := settled];
      r := Ok(settled);
    }

    method CreateInTransaction(create: CreateJob, appNow: int) returns (r: Result<Job>)
      modifies this`refs, this`jobs
      ensures match Created(old(State()), create, appNow)
              case Throws(error) => r == Throws(error)
              case Ok(draft) => r == Ok(draft.row) && refs == draft.refs && jobs == old(jobs)[create.id := draft.row]
    {
      hide Insert, Attach, Settle, SameJob, Decodes;
      if !ValidCreate(create) {
        return Throws(InputError);
      }
      ghost var db := State();
      r := InsertTransformJob(create, appNow);
      if r.Throws? {
        return;
      }
      if !SameJob(r.value, create) {
        return Throws(DeterminismConflict);
      }
      StagesSeeTables(db, State(), refs, r.value, create);
      r := AttachResultRef(create, r.value);
      if r.Throws? {
        return;
      }
      StagesSeeTables(db, State(), refs, r.value, create);
      r := SettleFromRun(create.id, r.value);
      if r.Ok? && !Decodes(r.value) {
        return Throws(ConsistencyError);
      }
    }

    method CreateOrReadTransformJob(create: CreateJob, appNow: int) returns (r: Result<Job>)
      requires Valid()
      modifies this`refs, this`jobs
      ensures match Created(old(State()), create, appNow) case Throws(error) => r == Throws(error) case Ok(draft) => r == Ok(draft.row)
      ensures Valid() && State() == Apply(old(State()), CreateOrRead(create, appNow))
    {
      hide Created, Inv;
      CallKeepsInv(State(), CreateOrRead(create, appNow));
      var savedRefs, savedJobs := refs, jobs;
      r := CreateInTransaction(create, appNow);
      if r.Throws? {
        refs, jobs := savedRefs, savedJobs;
      }
    }

    // ---- Completion ----

    method ValidateCompletion(c: Completion) returns (ok: bool)
      ensures ok <==> ValidCompletion(c)
    {
      ok := registry.ValidateRegistrationInput(c.layout);
      ok := ok && ValidRunInput(c.layout, c.run) && ValidLease(c.lease) &&
            0 <= c.outputCount <= TransformJobs.POSTGRES_BIGINT_MAX && c.outputCount == c.layout.snapshot.numRecords &&
            c.lease.id == JobId(c.run.cacheKey) && |c.run.inputVersions| == 1;
    }

    /** The adoption and the final UPDATE, in the transaction that has registered the run. */
    method FinishTransformJob(c: Completion, row: Job, cacheHit: bool) returns (r: Result<Job>)
      requires c.lease.id in jobs && jobs[c.lease.id] == row
      modifies this`refs, this`jobs
      ensures match Finish(old(State()), row, c, cacheHit, clock)
              case Throws(error) => r == Throws(error)
              case Ok(draft) => r == Ok(draft.row) && refs == draft.refs && jobs == old(jobs)[c.lease.id := draft.row]
    {
      hide ChecksHold, Decodes, StagingKey;
      var status, version := None, None;
      if row.refNamespace.Some? && row.refName.Some? {
        var adopted := AdoptTransformJobResultRef(row.refNamespace.value, row.refName.value, c.run.outputVersion);
        if adopted.Throws? {
          return Throws(adopted.error);
        }
        status, version := Some(adopted.value.0), Some(adopted.value.1);
      }
      if !row.status.Finalizing? || !Holds(row, c.lease, clock) {
        return Throws(LeaseError);
      }
      var finished := row.(status := Completed, outputCount := Some(c.outputCount), outputVersion := Some(c.run.outputVersion),
                           refStatus := status, refVersion := version, cacheHit := cacheHit, error := None,
                           finishedAt := Some(clock), leaseOwner := None, leaseToken := None, leaseExpiresAt := None);
      if !ChecksHold(c.lease.id, finished) {
        return Throws(ConstraintViolation);
      }
      jobs := jobs[c.lease.id := finished];
      if !Decodes(finished) {
        return Throws(ConsistencyError);
      }
      r := Ok(finished);
    }

    /** Registers the layout and the run, then finishes; undoes everything unless all three succeed. */
    method RegisterAndFinish(c: Completion, row: Job) returns (r: Result<Job>)
      requires Consistent(registry.Contents()) && ValidCompletion(c) && c.lease.id in jobs && jobs[c.lease.id] == row
      modifies this`refs, this`jobs, registry, registry.lineage
      ensures var t := old(registry.Contents());
              if !LayoutRegisters(t, c.layout) then State() == old(State()) && r == Throws(RegistrationError)
              else (State(), r) == FinishRegistered(old(State()), WithLayout(t, c.layout), row, c)
    {
      hide Consistent, LayoutRegisters, WithLayout, RunRegisters, WithRun, Finish, ValidLayoutInput;
      var saved, savedRefs, savedJobs := registry.Contents(), refs, jobs;
      ghost var db := State();
      var ok := registry.RegisterLayoutInTransaction(c.layout);
      if !ok {
        registry.Rollback(saved);
        return Throws(RegistrationError);
      }
      var run := registry.RegisterRunInTransaction(c.run);
      if run.RunConflict? || run.UnknownSnapshot? {
        registry.Rollback(saved);
        return Throws(RegistrationError);
      }
      FinishLooksAtRow(db, State(), row, c, run.ExistingRun?);
      r := FinishTransformJob(c, row, run.ExistingRun?);
      if r.Throws? {
        registry.Rollback(saved);
        refs, jobs := savedRefs, savedJobs;
      }
    }

    method CompleteTransformJob(c: Completion, elapsed: nat) returns (r: Result<Job>)
      requires Valid()
      modifies this`refs, this`jobs, this`clock, registry, registry.lineage
      ensures r == Completing(old(State()), c, elapsed).1
      ensures Valid() && State() == Apply(old(State()), Complete(c, elapsed))
    {
      hide Inv, Apply, Consistent, LayoutRegisters, WithLayout, FinishRegistered, ValidLayoutInput, SameJson, Decodes, StagingKey;
      CompletionStep(State(), c, elapsed);
      var now := clock;
      clock := clock + elapsed;
      var valid := ValidateCompletion(c);
      if !valid {
        return Throws(InputError);
      }
      if c.lease.id !in jobs {
        return Throws(LeaseError);
      }
      var row := jobs[c.lease.id];
      if !CompletionMatches(row, c) {
        return Throws(DeterminismConflict);
      }
      if row.status.Completed? {
        if row.attempt != c.lease.attempt || row.outputVersion != Some(c.run.outputVersion) || row.outputCount != Some(c.outputCount) {
          return Throws(LeaseError);
        }
        if c.run.cacheKey !in registry.runs || !SameRun(registry.runs[c.run.cacheKey], c.run) {
          return Throws(DeterminismConflict);
        }
        return if Decodes(row) then Ok(row) else Throws(ConsistencyError);
      }
      if !row.status.Finalizing? || !Holds(row, c.lease, now) {
        return Throws(LeaseError);
      }
      if row.inputKey != Some(InputKeyOf(c.lease.id, c.lease.attempt)) || row.outputKey != Some(OutputKeyOf(c.lease.id, c.lease.attempt)) {
        return Throws(InputError);
      }
      if row.identity.inputVersion !in registry.snapshots ||
         registry.snapshots[row.identity.inputVersion].numRecords != row.identity.inputCount {
        return Throws(ConsistencyError);
      }
      r := RegisterAndFinish(c, row);
    }
  }

  /** The later stages of a creation look only at the tables and the clock, and at their own draft. */
  lemma StagesSeeTables(a: Db, b: Db, refs: map<RefKey, RefRow>, row: Job, create: CreateJob)
    requires a.tables == b.tables && a.namespaces == b.namespaces && a.clock == b.clock
    ensures Attach(a, Draft(refs, row), create) == Attach(b, Draft(refs, row), create)
    ensures Settle(a, Draft(refs, row), a.clock) == Settle(b, Draft(refs, row), b.clock)
  {
    hide Adopt, AdoptNamed, ChecksHold;
  }

  /** No queued row comes before this one. */
  predicate IsOldest(jobs: map<string, Job>, id: string)
    requires id in jobs
  {
    forall other | other in jobs && jobs[other].status.Queued? ::
      Keyset.OldestFirst()(Keyset.TimedKey(jobs[id].createdAt, id), Keyset.TimedKey(jobs[other].createdAt, other))
  }

  lemma NoQueue(jobs: map<string, Job>)
    ensures (forall id | id in jobs :: !jobs[id].status.Queued?) ==> QueueKeys(jobs) == {}
  {
  }

  lemma SomeQueue(jobs: map<string, Job>)
    requires exists id :: id in jobs && jobs[id].status.Queued?
    ensures QueueKeys(jobs) != {}
    ensures NextJob(jobs) in jobs && jobs[NextJob(jobs)].status.Queued? && IsOldest(jobs, NextJob(jobs))
  {
    var some :| some in jobs && jobs[some].status.Queued?;
    assert Keyset.TimedKey(jobs[some].createdAt, some) in QueueKeys(jobs);
    var id := NextJob(jobs);
    forall other | other in jobs && jobs[other].status.Queued?
      ensures Keyset.OldestFirst()(Keyset.TimedKey(jobs[id].createdAt, id), Keyset.TimedKey(jobs[other].createdAt, other))
    {
      assert Keyset.TimedKey(jobs[other].createdAt, other) in QueueKeys(jobs);
    }
  }

  lemma OldestIsNext(jobs: map<string, Job>, id: string)
    requires QueueKeys(jobs) != {} && id in jobs && jobs[id].status.Queued? && IsOldest(jobs, id)
    ensures NextJob(jobs) == id
  {
    Keyset.TimedKeysAreTotallyOrdered();
    var a, b := Keyset.TimedKey(jobs[id].createdAt, id), Keyset.TimedKey(jobs[NextJob(jobs)].createdAt, NextJob(jobs));
    assert a in QueueKeys(jobs);
    assert Keyset.OldestFirst()(a, b) && Keyset.OldestFirst()(b, a);
  }

  /** What a claim answers: the row it leased, None while it must wait, or why it throws. */
  ghost function ClaimAnswer(db: Db, owner: string, durationMs: int, token: Token): Result<Option<Job>> {
    if !ValidDuration(durationMs) then Throws(InputError)
    else if FenceHeld(db.jobs) || QueueKeys(db.jobs) == {} then Ok(None)
    else if db.jobs[NextJob(db.jobs)].attempt >= POSTGRES_INTEGER_MAX then Throws(ConstraintViolation)
    else Ok(Some(Claimed(db.jobs[NextJob(db.jobs)], owner, durationMs, token, db.clock)))
  }

  lemma RowStep(db: Db, call: Call)
    requires Inv(db) && IsRowCall(call)
    ensures Apply(db, call) == db.(jobs := UpdatedJobs(db.jobs, db.clock, call)) && Inv(Apply(db, call))
  {
    hide Inv, UpdatedJobs;
    RowCallIsApplied(db, call);
    CallKeepsInv(db, call);
  }

  lemma ClaimStep(db: Db, owner: string, durationMs: int, token: Token)
    requires Inv(db) && |token| == 32
    ensures Apply(db, Claim(owner, durationMs, token)) == AfterClaim(db, owner, durationMs, token)
    ensures Inv(AfterClaim(db, owner, durationMs, token))
  {
    hide Inv, AfterClaim;
    CallKeepsInv(db, Claim(owner, durationMs, token));
  }

  lemma ExpiryStep(db: Db)
    requires Inv(db)
    ensures Apply(db, FailExpired) == AfterFailExpired(db) && Inv(AfterFailExpired(db))
  {
    hide Inv, AfterFailExpired;
    CallKeepsInv(db, FailExpired);
  }

  lemma CompletionStep(db: Db, c: Completion, elapsed: nat)
    requires Inv(db)
    ensures Consistent(db.tables)
    ensures Apply(db, Complete(c, elapsed)) == Completing(db, c, elapsed).0 && Inv(Completing(db, c, elapsed).0)
  {
    InvIsConsistent(db);
    hide Inv, Completing;
    CallKeepsInv(db, Complete(c, elapsed));
  }

  lemma RegistrationStep(db: Db, registration: Registration)
    requires Inv(db)
    ensures Consistent(db.tables)
    ensures var after := db.(tables := Registry.After(db.tables, registration));
            Apply(db, Register(registration)) == after && Inv(after)
  {
    InvIsConsistent(db);
    hide Inv, Consistent, Registry.After;
    CallKeepsInv(db, Register(registration));
  }

  lemma RowCallIsApplied(db: Db, call: Call)
    requires IsRowCall(call)
    ensures Apply(db, call) == db.(jobs := UpdatedJobs(db.jobs, db.clock, call))
    ensures ValidStep(Step(0, call))
  {
    hide UpdatedJobs;
  }

  /** What a call on one row answers: whether its UPDATE found the row it wanted. */
  function Changes(jobs: map<string, Job>, now: int, call: Call): Result<bool>
    requires IsRowCall(call)
  {
    if !ValidRowCall(call) then Throws(InputError)
    else Ok(TargetOf(call) in jobs && Written(jobs[TargetOf(call)], now, call).Some?)
  }

  /** The row that a call on one row returns. */
  function Returned(jobs: map<string, Job>, now: int, call: Call): Result<Option<Job>>
    requires IsRowCall(call)
  {
    if !ValidRowCall(call) then Throws(InputError)
    else if TargetOf(call) !in jobs then Ok(None)
    else Ok(Written(jobs[TargetOf(call)], now, call))
  }
}
