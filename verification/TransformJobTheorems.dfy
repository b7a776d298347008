/** The guarantees of the job protocol, stated on reachable states and on single calls. */
module TransformJobTheorems {
  import opened Text
  import opened Json
  import opened Registry
  import opened TransformJobs
  import opened TransformJobInvariant
  import opened TransformJobHistory
  import Keyset
  import Lineage

  const NO_TABLES := Tables(map[], map[], Lineage.Store(map[], map[]), map[], 0)

  function Initial(namespaces: set<string>, clock: int): Db {
    Db(NO_TABLES, namespaces, map[], map[], clock)
  }

  lemma InitialIsOk(namespaces: set<string>, clock: int)
    ensures Inv(Initial(namespaces, clock))
  {
    Lineage.NoEdgesNoCycle();
  }

  // ---- Reachable states ----

  /** Leased, running and finalizing rows hold a whole lease; queued and completed rows hold none. */
  ghost predicate FenceMatchesStatus(job: Job) {
    && (Active(job.status) ==> job.leaseToken.Some? && job.leaseOwner.Some? && job.leaseExpiresAt.Some? && job.attempt >= 1)
    && (job.status.Queued? || job.status.Completed? ==> NoLease(job))
  }

  /** The staging keys are both null or both the paths of the current attempt, and then the row is fenced
      or completed. */
  ghost predicate StagingIsOwned(id: string, job: Job) {
    NoKeys(job) || (ExactKeys(id, job) && (job.leaseToken.Some? || job.status.Completed?))
  }

  /** A completed row's result ref is decided; a ref it took points at its output. */
  ghost predicate ResultIsDecided(job: Job) {
    job.status.Completed? && job.refName.Some? ==>
      && job.refStatus.Some? && !job.refStatus.value.Pending? && job.refVersion.Some?
      && (job.refStatus.value.Updated? ==> job.refVersion == job.outputVersion)
  }

  /** Whatever calls are made, in whatever order, from an empty catalog. */
  lemma ReachableStates(namespaces: set<string>, clock: int, steps: seq<Step>)
    requires forall step | step in steps :: ValidStep(step)
    ensures var db := AfterSteps(Initial(namespaces, clock), steps);
            && Consistent(db.tables)
            && SingleFence(db.jobs)
            && forall id | id in db.jobs ::
                 var job := db.jobs[id];
                 && ChecksHold(id, job) && Decodes(job)
                 && FenceMatchesStatus(job)
                 && StagingIsOwned(id, job)
                 && ResultIsDecided(job)
                 && (job.status.Completed? ==> Answered(db.tables, job))
  {
    InitialIsOk(namespaces, clock);
    RunKeepsInv(Initial(namespaces, clock), steps);
    var db := AfterSteps(Initial(namespaces, clock), steps);
    forall id | id in db.jobs
      ensures FenceMatchesStatus(db.jobs[id]) && StagingIsOwned(id, db.jobs[id]) && ResultIsDecided(db.jobs[id])
    {
      RowOfInv(db, id);
      RowIsSafe(id, db.jobs[id]);
    }
    hide Consistent, RefsOk, Answered, ChecksHold, Decodes, FenceMatchesStatus, StagingIsOwned, ResultIsDecided;
  }

  lemma RowIsSafe(id: string, job: Job)
    requires RowOk(id, job)
    ensures FenceMatchesStatus(job) && StagingIsOwned(id, job) && ResultIsDecided(job)
  {
    hide StagingKey, JobId;
  }

  // ---- Staged objects ----

  ghost predicate KeysKept(before: Job, after: Job, cleaned: bool) {
    && after.attempt == before.attempt
    && ((after.inputKey, after.outputKey) == (before.inputKey, before.outputKey) || (cleaned && NoKeys(after)))
  }

  predicate ClearsKeys(call: Call) {
    call.ClearStaging? || call.ClearCompletedStaging?
  }

  /** While a row names staged objects its attempt does not change, and only the two cleanup calls make it
      forget them: no retry or claim can orphan them. */
  lemma StagedObjectsAreNotOrphaned(db: Db, step: Step, id: string)
    requires Inv(db) && ValidStep(step) && id in db.jobs && !NoKeys(db.jobs[id])
    ensures id in Next(db, step).jobs
    ensures KeysKept(db.jobs[id], Next(db, step).jobs[id], ClearsKeys(step.call))
  {
    hide Inv, RowOk, NoKeys, Apply, KeysKept, ClearsKeys;
    RowOfInv(db, id);
    CallKeepsKeys(db.(clock := db.clock + step.wait), step.call, id);
  }

  lemma CallKeepsKeys(db: Db, call: Call, id: string)
    requires id in db.jobs && RowOk(id, db.jobs[id]) && !NoKeys(db.jobs[id])
    ensures id in Apply(db, call).jobs
    ensures KeysKept(db.jobs[id], Apply(db, call).jobs[id], ClearsKeys(call))
  {
    hide RowOk, NoKeys, Apply, KeysKept, ClearsKeys, IsRowCall;
    if IsRowCall(call) {
      RowCallKeepsKeys(db, call, id);
    } else {
      OtherCallKeepsKeys(db, call, id);
      KeptEitherWay(db.jobs[id], Apply(db, call).jobs[id], ClearsKeys(call));
    }
  }

  lemma KeptEitherWay(before: Job, after: Job, cleaned: bool)
    requires KeysKept(before, after, false)
    ensures KeysKept(before, after, cleaned)
  {
  }

  lemma RowCallKeepsKeys(db: Db, call: Call, id: string)
    requires IsRowCall(call) && id in db.jobs && RowOk(id, db.jobs[id]) && !NoKeys(db.jobs[id])
    ensures id in Apply(db, call).jobs
    ensures KeysKept(db.jobs[id], Apply(db, call).jobs[id], ClearsKeys(call))
  {
    hide ValidRowCall, Written, RowOk, KeysKept, ClearsKeys;
    assert Apply(db, call) == AfterRowCall(db, call);
    KeysAreKept(db.jobs[id], ClearsKeys(call));
    if id == TargetOf(call) && Written(db.jobs[id], db.clock, call).Some? {
      WrittenKeepsKeys(id, db.jobs[id], db.clock, call);
    }
  }

  lemma KeysAreKept(job: Job, cleaned: bool)
    ensures KeysKept(job, job, cleaned)
  {
  }

  lemma WrittenKeepsKeys(id: string, job: Job, now: int, call: Call)
    requires IsRowCall(call) && RowOk(id, job) && !NoKeys(job) && Written(job, now, call).Some?
    ensures KeysKept(job, Written(job, now, call).value, ClearsKeys(call))
  {
    hide ChecksHold, Decodes;
  }

  lemma OtherCallKeepsKeys(db: Db, call: Call, id: string)
    requires !IsRowCall(call) && id in db.jobs && RowOk(id, db.jobs[id]) && !NoKeys(db.jobs[id])
    ensures id in Apply(db, call).jobs
    ensures KeysKept(db.jobs[id], Apply(db, call).jobs[id], false)
  {
    OnlyUnqueuedRowsHaveKeys(id, db.jobs[id]);
    hide RowOk, AfterCreate, AfterClaim, Completing, AfterFailExpired;
    match call {
      case CreateOrRead(create, appNow) => CreationKeepsKeys(db, create, appNow, id);
      case Claim(owner, durationMs, token) => ClaimLeavesOthers(db, owner, durationMs, token, id);
      case FailExpired => ExpiryKeepsKeys(db, id);
      case Complete(completion, elapsed) => CompletionKeepsKeys(db, completion, elapsed, id);
      case Register(_) =>
      case WriteRef(_, _) =>
    }
  }

  lemma OnlyUnqueuedRowsHaveKeys(id: string, job: Job)
    requires RowOk(id, job) && !NoKeys(job)
    ensures !job.status.Queued?
  {
    hide StagingKey, JobId, Decodes;
  }

  lemma ClaimLeavesOthers(db: Db, owner: string, durationMs: int, token: Token, id: string)
    requires id in db.jobs && !db.jobs[id].status.Queued?
    ensures id in AfterClaim(db, owner, durationMs, token).jobs
    ensures AfterClaim(db, owner, durationMs, token).jobs[id] == db.jobs[id]
  {
    hide QueueKeys;
  }

  lemma ExpiryKeepsKeys(db: Db, id: string)
    requires id in db.jobs
    ensures KeysKept(db.jobs[id], AfterFailExpired(db).jobs[id], false)
  {
  }

  lemma CreationKeepsKeys(db: Db, create: CreateJob, appNow: int, id: string)
    requires id in db.jobs
    ensures id in AfterCreate(db, create, appNow).jobs
    ensures KeysKept(db.jobs[id], AfterCreate(db, create, appNow).jobs[id], false)
  {
    hide Insert, SameJob, ValidCreate, Decodes, ChecksHold, Adopt, AdoptNamed;
    if create.id == id && Created(db, create, appNow).Ok? {
      ExistingRowWins(db, create, appNow);
    }
  }

  lemma CompletionKeepsKeys(db: Db, c: Completion, elapsed: nat, id: string)
    requires id in db.jobs
    ensures id in Completing(db, c, elapsed).0.jobs
    ensures KeysKept(db.jobs[id], Completing(db, c, elapsed).0.jobs[id], false)
  {
    hide ValidCompletion, LayoutRegisters, WithLayout, CompletionMatches, Readback, RunRegisters, WithRun, ValidLease, AdoptNamed, ChecksHold, Decodes;
  }


  // ---- Completion is atomic and final ----

  /** Exactly when a completion succeeds: a matching completed row reads back; otherwise the lease must hold
      at both looks at the clock, the staging keys must be those of the attempt, and the layout and the run
      must register. */
  ghost predicate Completes(db: Db, c: Completion, elapsed: nat) {
    && ValidCompletion(c) && c.lease.id in db.jobs
    && var row := db.jobs[c.lease.id];
    && CompletionMatches(row, c)
    && if row.status.Completed? then
         row.attempt == c.lease.attempt && row.outputVersion == Some(c.run.outputVersion) && row.outputCount == Some(c.outputCount)
       else
         CompletesNow(db, row, c, elapsed)
  }

  ghost predicate CompletesNow(db: Db, row: Job, c: Completion, elapsed: nat) {
    && row.status.Finalizing? && Holds(row, c.lease, db.clock + elapsed)
    && !NoKeys(row)
    && LayoutRegisters(db.tables, c.layout)
    && RunRegisters(WithLayout(db.tables, c.layout), c.run)
  }

  /** At most time has passed and a number of the run sequence has been skipped. */
  ghost predicate LeavesNothing(before: Db, after: Db, elapsed: nat) {
    var waited := before.(clock := before.clock + elapsed);
    after == waited || after == waited.(tables := before.tables.(sequence := before.tables.sequence + 1))
  }

  /** The row is completed with the output of the completion, and nothing refers to its lease any more. */
  ghost predicate HasCompleted(db: Db, row: Job, c: Completion) {
    && row.status.Completed? && NoLease(row) && row.attempt == c.lease.attempt
    && row.outputVersion == Some(c.run.outputVersion) && row.outputCount == Some(c.outputCount)
    && Answered(db.tables, row)
  }

  /** The ref that a completed row names, if it names one: taken when the name was free, and otherwise left as
      it was and reported. */
  ghost predicate DecidesRef(before: map<RefKey, RefRow>, after: map<RefKey, RefRow>, row: Job, version: string) {
    if row.refNamespace.None? || row.refName.None? then
      after == before && row.refStatus.None? && row.refVersion.None?
    else
      var key := RefKey(row.refNamespace.value, row.refName.value);
      && key in after && row.refVersion == Some(after[key].version)
      && after == (if key in before then before else before[key := RefRow(version, false)])
      && row.refStatus == Some(if after[key] == RefRow(version, false) then Updated else Conflict)
  }

  /** The layout with its snapshot and lineage, the run and the ref are all written, and nothing else. */
  ghost predicate CommitsTogether(before: Db, after: Db, row: Job, c: Completion) {
    && after.tables == WithRun(WithLayout(before.tables, c.layout), c.run)
    && DecidesRef(before.refs, after.refs, row, c.run.outputVersion)
    && after.namespaces == before.namespaces
  }

  /** A completion either throws and leaves nothing behind, or completes its row.  The first time it commits
      row, layout, run and ref together; afterwards it only reads the row back. */
  lemma CompletionIsAtomic(db: Db, c: Completion, elapsed: nat)
    requires Inv(db)
    ensures var (after, result) := Completing(db, c, elapsed);
            && (result.Ok? <==> Completes(db, c, elapsed))
            && (result.Throws? ==> LeavesNothing(db, after, elapsed))
            && (result.Ok? ==>
                  && after.jobs == db.jobs[c.lease.id := result.value] && HasCompleted(after, result.value, c)
                  && after.clock == db.clock + elapsed
                  && if db.jobs[c.lease.id].status.Completed? then after == db.(clock := db.clock + elapsed)
                     else CommitsTogether(db, after, result.value, c))
  {
    var waited := db.(clock := db.clock + elapsed);
    WaitingLeavesNothing(db, elapsed);
    hide Inv, ValidLayoutInput, ValidRunInput, ValidLease, LayoutRegisters, CompletionMatches, Readback, Admitted, FinishRegistered;
    hide LeavesNothing, HasCompleted, CompletesNow, CommitsTogether;
    if ValidCompletion(c) && c.lease.id in db.jobs && CompletionMatches(db.jobs[c.lease.id], c) {
      var row := db.jobs[c.lease.id];
      if row.status.Completed? {
        ReadbackIsOk(db, row, c);
        assert waited.jobs == db.jobs[c.lease.id := row];
        RowOfInv(db, c.lease.id);
        GroundOfInv(db, c.lease.id);
        if Completes(db, c, elapsed) {
          CompletedStays(waited, row, c);
        }
      } else {
        AdmissionIsNeeded(db, row, c, elapsed);
        if Admitted(db, row, c).Ok? && LayoutRegisters(db.tables, c.layout) {
          FinishRegisteredIsAtomic(db, row, c, elapsed);
        }
      }
    }
  }

  lemma WaitingLeavesNothing(db: Db, elapsed: nat)
    ensures LeavesNothing(db, db.(clock := db.clock + elapsed), elapsed)
  {
  }

  lemma CompletedStays(db: Db, row: Job, c: Completion)
    requires RowOk(c.lease.id, row) && RowGrounded(db.tables, db.namespaces, row) && row.status.Completed?
    requires row.attempt == c.lease.attempt && row.outputVersion == Some(c.run.outputVersion)
    requires row.outputCount == Some(c.outputCount)
    ensures HasCompleted(db, row, c)
  {
    hide StagingKey, JobId, Decodes, Answered;
  }

  lemma GroundOfInv(db: Db, id: string)
    requires Inv(db) && id in db.jobs
    ensures RowGrounded(db.tables, db.namespaces, db.jobs[id])
  {
  }

  lemma AdmissionIsNeeded(db: Db, row: Job, c: Completion, elapsed: nat)
    requires Inv(db) && c.lease.id in db.jobs && db.jobs[c.lease.id] == row
    ensures CompletesNow(db, row, c, elapsed) ==> Admitted(db, row, c).Ok? && LayoutRegisters(db.tables, c.layout)
    ensures Admitted(db, row, c).Ok? ==> Admitted(db, row, c).value == row && !NoKeys(row)
  {
    hide Inv, LayoutRegisters, RunRegisters, WithLayout, Answered, JobId, StagingKey, Decodes;
    AdmittedIsOk(db, c.lease.id, row, c);
    RowOfInv(db, c.lease.id);
    GroundOfInv(db, c.lease.id);
  }

  lemma FinishRegisteredIsAtomic(db: Db, row: Job, c: Completion, elapsed: nat)
    requires Inv(db) && c.lease.id in db.jobs && db.jobs[c.lease.id] == row
    requires ValidCompletion(c) && CompletionMatches(row, c)
    requires Admitted(db, row, c).Ok? && LayoutRegisters(db.tables, c.layout)
    ensures var (after, result) := FinishRegistered(db.(clock := db.clock + elapsed), WithLayout(db.tables, c.layout), row, c);
            && (result.Ok? <==> CompletesNow(db, row, c, elapsed))
            && (result.Throws? ==> LeavesNothing(db, after, elapsed))
            && (result.Ok? ==>
                  && after.jobs == db.jobs[c.lease.id := result.value] && HasCompleted(after, result.value, c)
                  && after.clock == db.clock + elapsed && CommitsTogether(db, after, result.value, c))
  {
    hide Inv, LayoutRegisters, CompletionMatches, Admitted, RunRegisters, WithRun, WithLayout, Answered, NoKeys, NoLease;
    hide Finish, Holds, HasCompleted, ValidCompletion, DecidesRef;
    ValidCompletionParts(c);
    var waited := db.(clock := db.clock + elapsed);
    var t := WithLayout(db.tables, c.layout);
    TimeMayPass(db, waited.clock);
    AdmissionIsNeeded(db, row, c, elapsed);
    FinishRegisteredKeepsInv(waited, row, c);
    FinishesWithLease(waited, row, c, c.run.cacheKey in t.runs, waited.clock);
    var (after, result) := FinishRegistered(waited, t, row, c);
    if result.Ok? {
      FinishedIsGrounded(after, result.value, c);
      FinishDecidesRef(waited, row, c, c.run.cacheKey in t.runs, waited.clock);
    }
  }

  lemma FinishDecidesRef(db: Db, row: Job, c: Completion, cacheHit: bool, later: int)
    requires Finish(db, row, c, cacheHit, later).Ok?
    ensures var draft := Finish(db, row, c, cacheHit, later).value;
            DecidesRef(db.refs, draft.refs, draft.row, c.run.outputVersion)
  {
    hide ChecksHold, Decodes, Holds;
  }

  lemma FinishedIsGrounded(db: Db, row: Job, c: Completion)
    requires Inv(db) && c.lease.id in db.jobs && db.jobs[c.lease.id] == row
    requires row.status.Completed? && NoLease(row) && row.attempt == c.lease.attempt
    requires row.outputVersion == Some(c.run.outputVersion) && row.outputCount == Some(c.outputCount)
    ensures HasCompleted(db, row, c)
  {
    GroundOfInv(db, c.lease.id);
    hide Inv, Answered;
  }

  lemma FinishesWithLease(db: Db, row: Job, c: Completion, cacheHit: bool, later: int)
    ensures match Finish(db, row, c, cacheHit, later)
            case Throws(error) =>
              !error.RegistrationError? && (error.LeaseError? ==> !row.status.Finalizing? || !Holds(row, c.lease, later))
            case Ok(draft) =>
              && row.status.Finalizing? && Holds(row, c.lease, later)
              && draft.row.status.Completed? && NoLease(draft.row) && draft.row.attempt == c.lease.attempt
              && draft.row.outputVersion == Some(c.run.outputVersion) && draft.row.outputCount == Some(c.outputCount)
  {
    hide ChecksHold, Decodes;
  }

  // ---- Progress ----

  /** From any reachable state without a fence, a worker that claims the next job and keeps within its lease
      completes it: claim, staging keys, running, finalizing, completion.  The row is completed under the new
      attempt, the result is committed with it, and no other job has changed. */
  lemma ClaimedJobCompletes(db: Db, owner: string, durationMs: int, token: Token, c: Completion,
                            w1: nat, w2: nat, w3: nat, w4: nat, elapsed: nat)
    requires Inv(db) && !FenceHeld(db.jobs) && QueueKeys(db.jobs) != {} && ValidDuration(durationMs) && |token| == 32
    requires w1 + w2 + w3 + w4 + elapsed < durationMs * 1000
    requires Deliverable(db, c, token)
    ensures var id, lease := NextJob(db.jobs), c.lease;
            var claimed := Apply(db, Claim(owner, durationMs, token));
            var keyed := Next(claimed, Step(w1, SetStagingKeys(lease, InputKeyOf(id, lease.attempt), OutputKeyOf(id, lease.attempt))));
            var running := Next(keyed, Step(w2, MarkRunning(lease)));
            var finalizing := Next(running, Step(w3, MarkFinalizing(lease)));
            var after := Next(finalizing, Step(w4, Complete(c, elapsed)));
            && id in after.jobs && after.jobs == db.jobs[id := after.jobs[id]]
            && HasCompleted(after, after.jobs[id], c) && CommitsTogether(db, after, after.jobs[id], c)
  {
    hide Inv, Apply, Next, HasCompleted, CommitsTogether, ValidCompletion, CompletionMatches, FenceHeld, ExactKeys, Holds, Deliverable;
    var id := NextJob(db.jobs);
    DeliverableParts(db, c, token);
    var row := ClaimedJobFinalizes(db, owner, durationMs, token, w1, w2, w3);
    var finalizing := db.(jobs := db.jobs[id := row], clock := db.clock + w1 + w2 + w3);
    MatchesByIdentity(db.jobs[id], row, c);
    FinalizingJobCompletes(finalizing, id, row, c, w4, elapsed);
    var after := Next(finalizing, Step(w4, Complete(c, elapsed)));
    CommitsLooksAtTables(finalizing, db, after, after.jobs[id], c);
  }

  lemma DeliverableParts(db: Db, c: Completion, token: Token)
    requires QueueKeys(db.jobs) != {} && Deliverable(db, c, token)
    ensures var job := db.jobs[NextJob(db.jobs)];
            && job.attempt < POSTGRES_INTEGER_MAX && c.lease == Lease(NextJob(db.jobs), job.attempt + 1, token)
            && ValidCompletion(c) && CompletionMatches(job, c)
            && LayoutRegisters(db.tables, c.layout) && RunRegisters(WithLayout(db.tables, c.layout), c.run)
  {
  }

  lemma MatchesByIdentity(job: Job, row: Job, c: Completion)
    requires ValidCompletion(c) && CompletionMatches(job, c) && row.identity == job.identity
    ensures CompletionMatches(row, c)
  {
    hide SameJson;
  }

  lemma CommitsLooksAtTables(a: Db, b: Db, after: Db, row: Job, c: Completion)
    requires CommitsTogether(a, after, row, c)
    requires a.tables == b.tables && a.refs == b.refs && a.namespaces == b.namespaces
    ensures CommitsTogether(b, after, row, c)
  {
    hide DecidesRef, WithLayout, WithRun;
  }

  lemma ClaimedJobFinalizes(db: Db, owner: string, durationMs: int, token: Token, w1: nat, w2: nat, w3: nat)
    returns (row: Job)
    requires Inv(db) && !FenceHeld(db.jobs) && QueueKeys(db.jobs) != {} && ValidDuration(durationMs) && |token| == 32
    requires db.jobs[NextJob(db.jobs)].attempt < POSTGRES_INTEGER_MAX && w1 + w2 + w3 < durationMs * 1000
    ensures var id := NextJob(db.jobs);
            var lease := Lease(id, db.jobs[id].attempt + 1, token);
            var claimed := Apply(db, Claim(owner, durationMs, token));
            var keyed := Next(claimed, Step(w1, SetStagingKeys(lease, InputKeyOf(id, lease.attempt), OutputKeyOf(id, lease.attempt))));
            var running := Next(keyed, Step(w2, MarkRunning(lease)));
            var finalizing := Next(running, Step(w3, MarkFinalizing(lease)));
            && finalizing == db.(jobs := db.jobs[id := row], clock := db.clock + w1 + w2 + w3) && Inv(finalizing)
            && row.status.Finalizing? && row.identity == db.jobs[id].identity && ExactKeys(id, row)
            && (forall t :: Holds(row, lease, t) <==> t < db.clock + durationMs * 1000)
  {
    hide Inv, RowOk, Apply, Next, Written, Claimed, FenceHeld, QueueKeys, StagingKey, ExactKeys, Holds;
    var id, job := NextJob(db.jobs), db.jobs[NextJob(db.jobs)];
    var lease := Lease(id, job.attempt + 1, token);
    var keys := SetStagingKeys(lease, InputKeyOf(id, lease.attempt), OutputKeyOf(id, lease.attempt));
    var t1, t2, t3 := db.clock + w1, db.clock + w1 + w2, db.clock + w1 + w2 + w3;
    RowOfInv(db, id);
    FreedClaim(db, owner, durationMs, token);
    CallKeepsInv(db, Claim(owner, durationMs, token));
    ClaimedJobProceeds(id, job, owner, durationMs, token, db.clock, t1, t2, t3);
    var claimed := Apply(db, Claim(owner, durationMs, token));
    var r1 := Written(claimed.jobs[id], t1, keys).value;
    RowCallWrites(claimed, w1, keys, r1);
    StepKeepsInv(claimed, Step(w1, keys));
    var keyed := db.(jobs := db.jobs[id := r1], clock := t1);
    assert claimed.jobs[id := r1] == keyed.jobs;
    var r2 := Written(r1, t2, MarkRunning(lease)).value;
    RowCallWrites(keyed, w2, MarkRunning(lease), r2);
    StepKeepsInv(keyed, Step(w2, MarkRunning(lease)));
    var running := db.(jobs := db.jobs[id := r2], clock := t2);
    assert keyed.jobs[id := r2] == running.jobs;
    row := Written(r2, t3, MarkFinalizing(lease)).value;
    RowCallWrites(running, w3, MarkFinalizing(lease), row);
    StepKeepsInv(running, Step(w3, MarkFinalizing(lease)));
    assert running.jobs[id := row] == db.jobs[id := row];
  }

  lemma FinalizingJobCompletes(db: Db, id: string, row: Job, c: Completion, wait: nat, elapsed: nat)
    requires Inv(db) && id in db.jobs && db.jobs[id] == row && c.lease.id == id && row.status.Finalizing?
    requires ExactKeys(id, row) && Holds(row, c.lease, db.clock + wait + elapsed)
    requires ValidCompletion(c) && CompletionMatches(row, c)
    requires LayoutRegisters(db.tables, c.layout) && RunRegisters(WithLayout(db.tables, c.layout), c.run)
    ensures var after := Next(db, Step(wait, Complete(c, elapsed)));
            && id in after.jobs && after.jobs == db.jobs[id := after.jobs[id]]
            && HasCompleted(after, after.jobs[id], c) && CommitsTogether(db, after, after.jobs[id], c)
  {
    hide Inv, HasCompleted, CommitsTogether, ValidCompletion, CompletionMatches, LayoutRegisters, RunRegisters, WithLayout;
    hide Completing, StagingKey, Holds, LeavesNothing;
    var waited := db.(clock := db.clock + wait);
    TimeMayPass(db, waited.clock);
    CompletionIsAtomic(waited, c, elapsed);
    var (after, result) := Completing(waited, c, elapsed);
    assert Completes(waited, c, elapsed);
    CommitsLooksAtTables(waited, db, after, result.value, c);
  }

  /** A completion of the next job under its next attempt, which the tables admit. */
  ghost predicate Deliverable(db: Db, c: Completion, token: Token)
    requires QueueKeys(db.jobs) != {}
  {
    var job := db.jobs[NextJob(db.jobs)];
    && job.attempt < POSTGRES_INTEGER_MAX
    && c.lease == Lease(NextJob(db.jobs), job.attempt + 1, token)
    && ValidCompletion(c) && CompletionMatches(job, c)
    && LayoutRegisters(db.tables, c.layout) && RunRegisters(WithLayout(db.tables, c.layout), c.run)
  }

  /** A completed job answers the same way for good: over every run its output, its run and its snapshot stay
      what they are. */
  lemma CompletionIsFinal(db: Db, steps: seq<Step>, id: string)
    requires Inv(db) && forall step | step in steps :: ValidStep(step)
    requires id in db.jobs && db.jobs[id].status.Completed?
    ensures var after := AfterSteps(db, steps);
            && id in after.jobs && SameResult(db.jobs[id], after.jobs[id])
            && Answered(db.tables, db.jobs[id]) && Answered(after.tables, after.jobs[id])
            && after.jobs[id].identity == db.jobs[id].identity
            && after.tables.runs[db.jobs[id].identity.cacheKey] == db.tables.runs[db.jobs[id].identity.cacheKey]
  {
    hide Inv, RunAnswers, AfterSteps, LineageKept;
    RunFollows(db, steps);
    RunKeepsInv(db, steps);
    RunEvolves(db, steps);
    var after := AfterSteps(db, steps);
    assert id in after.jobs && Follows(db.jobs[id], after.jobs[id]);
    GroundOfInv(db, id);
    GroundOfInv(after, id);
  }

  lemma CallEvolves(db: Db, call: Call)
    requires Inv(db)
    ensures Evolves(db.tables, Apply(db, call).tables)
  {
    hide Inv, Evolves, Consistent, AfterRowCall, AfterCreate, AfterClaim, AfterFailExpired, Completing, Registry.After;
    InvIsConsistent(db);
    SkippedNumbersAreHarmless(db.tables);
    match call {
      case CreateOrRead(create, appNow) => CreationKeepsTables(db, create, appNow);
      case Claim(owner, durationMs, token) => ClaimKeepsTables(db, owner, durationMs, token);
      case FailExpired => ExpiryKeepsTables(db);
      case Complete(completion, elapsed) => CompletionEvolves(db, completion, elapsed);
      case Register(registration) => RegistrationKeepsTables(db.tables, registration);
      case WriteRef(_, _) =>
      case _ => RowCallKeepsTables(db, call);
    }
  }

  lemma CreationKeepsTables(db: Db, create: CreateJob, appNow: int)
    ensures AfterCreate(db, create, appNow).tables == db.tables
  {
    hide Created;
  }

  lemma ClaimKeepsTables(db: Db, owner: string, durationMs: int, token: Token)
    ensures AfterClaim(db, owner, durationMs, token).tables == db.tables
  {
    hide QueueKeys;
  }

  lemma ExpiryKeepsTables(db: Db)
    ensures AfterFailExpired(db).tables == db.tables
  {
  }

  lemma RowCallKeepsTables(db: Db, call: Call)
    requires IsRowCall(call)
    ensures AfterRowCall(db, call).tables == db.tables
  {
    hide Written, ValidRowCall;
  }

  lemma CompletionEvolves(db: Db, c: Completion, elapsed: nat)
    requires Inv(db)
    ensures Evolves(db.tables, Completing(db, c, elapsed).0.tables)
  {
    hide Inv, Evolves, Consistent, ValidCompletion, LayoutRegisters, WithLayout, CompletionMatches, Readback, Admitted, FinishRegistered;
    InvIsConsistent(db);
    SkippedNumbersAreHarmless(db.tables);
    if ValidCompletion(c) && LayoutRegisters(db.tables, c.layout) && c.lease.id in db.jobs {
      ValidCompletionParts(c);
      LayoutKeepsTables(db.tables, c.layout);
      if Admitted(db, db.jobs[c.lease.id], c).Ok? {
        var row := Admitted(db, db.jobs[c.lease.id], c).value;
        FinishingEvolves(db.(clock := db.clock + elapsed), WithLayout(db.tables, c.layout), row, c);
      }
    }
  }

  lemma ValidCompletionParts(c: Completion)
    requires ValidCompletion(c)
    ensures ValidLayoutInput(c.layout) && c.run.id == "run_" + c.run.cacheKey && |c.run.inputVersions| == 1
  {
  }

  lemma FinishingEvolves(db: Db, t: Tables, row: Job, c: Completion)
    requires Consistent(db.tables) && Consistent(t) && Evolves(db.tables, t) && c.run.id == "run_" + c.run.cacheKey
    ensures Evolves(db.tables, FinishRegistered(db, t, row, c).0.tables)
  {
    SkippedNumbersAreHarmless(db.tables);
    hide Evolves, Consistent, WithRun, RunRegisters, Finish;
    if RunRegisters(t, c.run) {
      RunKeepsTables(t, c.run);
      EvolvesOnwards(db.tables, t, WithRun(t, c.run));
    }
  }

  lemma {:induction false} RunEvolves(db: Db, steps: seq<Step>)
    requires Inv(db) && forall step | step in steps :: ValidStep(step)
    ensures Evolves(db.tables, AfterSteps(db, steps).tables)
    decreases |steps|
  {
    hide Inv, Evolves, Apply;
    if steps == [] {
      InvIsConsistent(db);
      SkippedNumbersAreHarmless(db.tables);
    } else {
      var step := steps[0];
      assert ValidStep(step);
      var waited := db.(clock := db.clock + step.wait);
      TimeMayPass(db, waited.clock);
      CallEvolves(waited, step.call);
      StepKeepsInv(db, step);
      RunEvolves(Next(db, step), steps[1..]);
      EvolvesOnwards(db.tables, Next(db, step).tables, AfterSteps(db, steps).tables);
    }
  }

  // ---- Creation ----

  /** The run that answers a job, with its output larger than the input: PostgreSQL checks the new row before
      it looks for an existing one, so the cache hit cannot be stored. */
  ghost predicate AnswerTooLarge(t: Tables, identity: JobIdentity) {
    CachedRun(t, identity).Some? &&
    var version := CachedRun(t, identity).value.outputVersion;
    version in t.snapshots && t.snapshots[version].numRecords > identity.inputCount
  }

  /** A creation that the catalog's own checks admit succeeds if and only if its cached answer, if there is
      one, is no larger than its input. */
  lemma CreationSucceeds(db: Db, create: CreateJob, appNow: int)
    requires Inv(db) && ValidCreate(create)
    requires create.identity.inputVersion in db.tables.snapshots
    requires db.tables.snapshots[create.identity.inputVersion].numRecords == create.identity.inputCount
    requires CachedRun(db.tables, create.identity).Some? ==> RunAnswers(CachedRun(db.tables, create.identity).value, create.identity)
    requires create.refNamespace.Some? ==> create.refNamespace.value in db.namespaces
    requires create.id in db.jobs ==> SameJob(db.jobs[create.id], create)
    ensures Created(db, create, appNow).Ok? <==> !AnswerTooLarge(db.tables, create.identity)
    ensures AnswerTooLarge(db.tables, create.identity) ==> Created(db, create, appNow) == Throws(ConstraintViolation)
  {
    InsertSucceeds(db, create, appNow);
    CreatedIsOk(db, create, appNow);
    hide Inv, Insert, Attach, Settle, AnswerTooLarge, DraftOk, AnswerFits, Decodes, RunAnswers;
    if Insert(db, create, appNow).Ok? {
      var inserted := Insert(db, create, appNow).value;
      InsertIsOk(db, create, appNow);
      SameJobSameAnswer(db.tables, inserted.row, create);
      AttachIsOk(db, inserted, create);
      SettleIsOk(db, create.id, Attach(db, inserted, create).value);
    }
  }

  lemma InsertSucceeds(db: Db, create: CreateJob, appNow: int)
    requires Inv(db) && ValidCreate(create)
    requires create.identity.inputVersion in db.tables.snapshots
    requires db.tables.snapshots[create.identity.inputVersion].numRecords == create.identity.inputCount
    requires CachedRun(db.tables, create.identity).Some? ==> RunAnswers(CachedRun(db.tables, create.identity).value, create.identity)
    requires create.refNamespace.Some? ==> create.refNamespace.value in db.namespaces
    ensures Insert(db, create, appNow) == Throws(ConstraintViolation) <==> AnswerTooLarge(db.tables, create.identity)
    ensures !AnswerTooLarge(db.tables, create.identity) ==>
              var inserted := Insert(db, create, appNow);
              inserted.Ok? && if create.id in db.jobs then inserted.value.row == db.jobs[create.id] else SameJob(inserted.value.row, create)
  {
    CountsAreNatural(db);
    SameJsonIsEquivalence(create.identity.params, create.identity.params, create.identity.params);
    hide Inv, RunAnswers, SameJson, ChecksHold, NewRow, AdoptNamed;
    var run := CachedRun(db.tables, create.identity);
    if run.None? {
      NewRowChecks(create, run, None, None, db.clock, appNow);
    } else if run.value.outputVersion in db.tables.snapshots {
      NamedAdoptionIsOk(db.tables, db.namespaces, db.refs, create.refNamespace, create.refName, run.value.outputVersion);
      match AdoptNamed(db.namespaces, db.refs, create.refNamespace, create.refName, run.value.outputVersion) {
        case Throws(_) =>
        case Ok((_, adoption)) =>
          NewRowChecks(create, run, Some(db.tables.snapshots[run.value.outputVersion].numRecords), adoption, db.clock, appNow);
      }
    }
  }

  lemma CountsAreNatural(db: Db)
    requires Inv(db)
    ensures RefsOk(db.tables, db.namespaces, db.refs)
    ensures forall version | version in db.tables.snapshots :: db.tables.snapshots[version].numRecords >= 0
    ensures forall key | key in db.tables.runs :: db.tables.runs[key].outputVersion in db.tables.snapshots
  {
    OutputsAreSnapshots(db.tables);
  }

  /** The only check that a new row can fail is the one on its counts. */
  lemma NewRowChecks(create: CreateJob, run: Option<Run>, count: Option<int>, adoption: Option<Adoption>, now: int, appNow: int)
    requires ValidCreate(create) && (count.Some? <==> run.Some?)
    requires adoption.Some? <==> run.Some? && create.refName.Some?
    requires adoption.Some? ==> !adoption.value.status.Pending?
    ensures var row := NewRow(create, run, count, adoption, now, appNow);
            && row.identity == create.identity && row.refNamespace == create.refNamespace && row.refName == create.refName
            && (ChecksHold(create.id, row) <==> (count.Some? ==> 0 <= count.value <= create.identity.inputCount))
  {
    hide JobId, StagingKey;
  }

  // ---- A cache hit that cannot be stored ----

  /** Records without parents. */
  function Parentless(ids: seq<string>): (revisions: seq<Lineage.RecordRevision>)
    ensures |revisions| == |ids|
    ensures forall i | 0 <= i < |ids| :: revisions[i] == Lineage.RecordRevision(Lineage.Revision(ids[i], "digest"), [])
  {
    seq(|ids|, i requires 0 <= i < |ids| => Lineage.RecordRevision(Lineage.Revision(ids[i], "digest"), []))
  }

  function LayoutOf(version: string, ids: seq<string>): LayoutInput {
    LayoutInput(version, Snapshot("identity", "2.0.0", |ids|), LayoutKey(version, "layout"), Layout("digest", 1, version, []),
                Parentless(ids))
  }

  const ONE_RECORD := LayoutOf("in", ["a"])
  const TWO_RECORDS := LayoutOf("out", ["b", "c"])
  const SPLIT := RunInput("run_" + "k", "k", "split", "1", Obj([], []), "out", ["in"])
  const ASK_AGAIN :=
    CreateJob(JobId("k"), JobIdentity("k", "split", "1", Obj([], []), "in", "worker", "1", 1), None, None)

  lemma {:induction false} NoParentsNoEdges(created: set<Lineage.Revision>, revisions: seq<Lineage.RecordRevision>)
    requires forall r | r in revisions :: r.parents == []
    ensures Lineage.Graft(map[], created, revisions) == map[]
  {
    if revisions != [] {
      NoParentsNoEdges(created, revisions[..|revisions| - 1]);
    }
  }

  lemma ParentlessRegisters(t: Tables, version: string, ids: seq<string>)
    requires t.lineage.edges == map[] && version !in t.snapshots
    requires forall key | key in t.layouts :: key.datasetVersion != version && t.layouts[key].manifestKey != version
    requires forall i, j | 0 <= i < j < |ids| :: ids[i] != ids[j]
    ensures var input := LayoutOf(version, ids);
            && ValidLayoutInput(input) && LayoutRegisters(t, input) && WithLayout(t, input).lineage.edges == map[]
  {
    var revisions := Parentless(ids);
    NoParentsNoEdges(Lineage.CreatedBy(t.lineage.located, revisions), revisions);
    Lineage.NoEdgesNoCycle();
    assert forall r | r in revisions :: r.parents == [];
    assert forall i | 0 <= i < |ids| :: Lineage.Selves(revisions)[i].recordId == ids[i];
  }

  /** Two registrations: an input of one record, and a run that split it in two. */
  const REGISTER_INPUT := Step(0, Register(RegisterLayout(ONE_RECORD)))
  const REGISTER_SPLIT := Step(0, Register(RegisterResult(TWO_RECORDS, SPLIT)))

  lemma TwoSteps(db: Db, first: Step, second: Step)
    ensures AfterSteps(db, [first, second]) == Next(Next(db, first), second)
  {
    hide Next;
    var rest := [second];
    assert [first, second][1..] == rest && rest[1..] == [];
    assert AfterSteps(Next(db, first), rest) == AfterSteps(Next(Next(db, first), second), []);
  }

  lemma LayoutIsRegistered(db: Db, input: LayoutInput)
    requires ValidLayoutInput(input) && LayoutRegisters(db.tables, input)
    ensures Next(db, Step(0, Register(RegisterLayout(input)))) == db.(tables := WithLayout(db.tables, input))
  {
    hide ValidLayoutInput, LayoutRegisters, WithLayout;
  }

  lemma ResultIsRegistered(db: Db, input: LayoutInput, run: RunInput)
    requires ResultRegisters(db.tables, input, run)
    ensures Next(db, Step(0, Register(RegisterResult(input, run)))) == db.(tables := WithRun(WithLayout(db.tables, input), run))
  {
    hide ValidLayoutInput, LayoutRegisters, WithLayout, WithRun, RunRegisters, ValidRunInput;
  }

  lemma SplitTables(t: Tables, u: Tables)
    requires t == WithLayout(NO_TABLES, ONE_RECORD) && u == WithRun(WithLayout(t, TWO_RECORDS), SPLIT)
    ensures ValidLayoutInput(ONE_RECORD) && LayoutRegisters(NO_TABLES, ONE_RECORD) && ResultRegisters(t, TWO_RECORDS, SPLIT)
    ensures u.snapshots == map["in" := ONE_RECORD.snapshot, "out" := TWO_RECORDS.snapshot]
    ensures u.runs == map["k" := Registry.Run("run_" + "k", "split", "1", Obj([], []), "out", ["in"], 1)]
  {
    hide ValidLayoutInput, LayoutRegisters, Lineage.Committed;
    assert "in" != "out" by { assert |"in"| != |"out"|; }
    ParentlessRegisters(NO_TABLES, "in", ["a"]);
    ParentlessRegisters(t, "out", ["b", "c"]);
  }

  lemma SplitIsRegistered(clock: int)
    ensures var db := AfterSteps(Initial({}, clock), [REGISTER_INPUT, REGISTER_SPLIT]);
            && db.jobs == map[]
            && db.tables.snapshots == map["in" := ONE_RECORD.snapshot, "out" := TWO_RECORDS.snapshot]
            && db.tables.runs == map["k" := Registry.Run("run_" + "k", "split", "1", Obj([], []), "out", ["in"], 1)]
  {
    hide Next, WithLayout, WithRun, ValidLayoutInput, LayoutRegisters, ResultRegisters, AfterSteps;
    var t := WithLayout(NO_TABLES, ONE_RECORD);
    SplitTables(t, WithRun(WithLayout(t, TWO_RECORDS), SPLIT));
    TwoSteps(Initial({}, clock), REGISTER_INPUT, REGISTER_SPLIT);
    LayoutIsRegistered(Initial({}, clock), ONE_RECORD);
    ResultIsRegistered(Initial({}, clock).(tables := t), TWO_RECORDS, SPLIT);
  }

  /** The failing case is reached: after those two registrations, asking for the same split throws. */
  lemma CacheHitMayFail(clock: int, appNow: int)
    ensures var db := AfterSteps(Initial({}, clock), [REGISTER_INPUT, REGISTER_SPLIT]);
            ValidCreate(ASK_AGAIN) && Created(db, ASK_AGAIN, appNow) == Throws(ConstraintViolation)
  {
    hide Inv, SameJson, JobId, AfterSteps, Next, Created;
    var steps := [REGISTER_INPUT, REGISTER_SPLIT];
    InitialIsOk({}, clock);
    RunKeepsInv(Initial({}, clock), steps);
    SplitIsRegistered(clock);
    SameJsonIsEquivalence(Obj([], []), Obj([], []), Obj([], []));
    CreationSucceeds(AfterSteps(Initial({}, clock), steps), ASK_AGAIN, appNow);
  }
}
