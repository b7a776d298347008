/** What the job protocol promises over whole runs: completion is final, attempts only grow, stale
    leases are powerless, and the single fence can always be cleared. */
module TransformJobHistory {
  import opened Text
  import opened Json
  import opened Registry
  import opened TransformJobs
  import opened TransformJobInvariant
  import Keyset

  // ---- Rows only move forward ----

  /** What a completed row never loses. */
  ghost predicate SameResult(before: Job, after: Job) {
    && after.status.Completed?
    && (after.attempt, after.outputVersion, after.outputCount, after.cacheHit) ==
       (before.attempt, before.outputVersion, before.outputCount, before.cacheHit)
    && (after.progress, after.error, after.startedAt, after.finishedAt) ==
       (before.progress, before.error, before.startedAt, before.finishedAt)
    && (before.refName.Some? ==> (after.refStatus, after.refVersion) == (before.refStatus, before.refVersion))
  }

  ghost predicate Follows(before: Job, after: Job) {
    && after.identity == before.identity && after.createdAt == before.createdAt
    && before.attempt <= after.attempt
    && (after.attempt == before.attempt && after.leaseToken.Some? ==>
          after.leaseToken == before.leaseToken && (Active(after.status) ==> Active(before.status)))
    && (before.refName.Some? ==> (after.refNamespace, after.refName) == (before.refNamespace, before.refName))
    && (before.status.Completed? ==> SameResult(before, after))
  }

  ghost predicate JobsFollow(before: map<string, Job>, after: map<string, Job>) {
    forall id | id in before :: id in after && Follows(before[id], after[id])
  }

  lemma JobsFollowOnwards(a: map<string, Job>, b: map<string, Job>, c: map<string, Job>)
    requires JobsFollow(a, b) && JobsFollow(b, c)
    ensures JobsFollow(a, c)
  {
    forall id | id in a ensures id in c && Follows(a[id], c[id]) {
      assert Follows(a[id], b[id]) && Follows(b[id], c[id]);
    }
  }

  lemma OneRowFollows(jobs: map<string, Job>, id: string, row: Job)
    requires id in jobs ==> Follows(jobs[id], row)
    ensures JobsFollow(jobs, jobs[id := row])
  {
  }

  lemma WrittenFollows(id: string, job: Job, now: int, call: Call)
    requires RowOk(id, job) && IsRowCall(call) && Written(job, now, call).Some?
    ensures Follows(job, Written(job, now, call).value)
  {
    hide ChecksHold, Decodes;
  }

  lemma RowCallFollows(db: Db, call: Call)
    requires Inv(db) && IsRowCall(call)
    ensures JobsFollow(db.jobs, AfterRowCall(db, call).jobs)
  {
    hide Consistent, RowOk, RowGrounded, RefsOk, Written, ValidRowCall, Follows;
    var id := TargetOf(call);
    NothingFollows(db.jobs);
    if ValidRowCall(call) && id in db.jobs && Written(db.jobs[id], db.clock, call).Some? {
      WrittenFollows(id, db.jobs[id], db.clock, call);
      OneRowFollows(db.jobs, id, Written(db.jobs[id], db.clock, call).value);
    }
  }

  lemma NothingFollows(jobs: map<string, Job>)
    ensures JobsFollow(jobs, jobs)
  {
  }

  lemma ClaimFollows(db: Db, owner: string, durationMs: int, token: Token)
    requires Inv(db)
    ensures JobsFollow(db.jobs, AfterClaim(db, owner, durationMs, token).jobs)
  {
    NothingFollows(db.jobs);
    if ValidDuration(durationMs) && !FenceHeld(db.jobs) && QueueKeys(db.jobs) != {} {
      var id := NextJob(db.jobs);
      OneRowFollows(db.jobs, id, Claimed(db.jobs[id], owner, durationMs, token, db.clock));
    }
  }

  lemma ExpiryFollows(db: Db)
    ensures JobsFollow(db.jobs, AfterFailExpired(db).jobs)
  {
  }

  lemma CreatedFollows(db: Db, create: CreateJob, appNow: int)
    requires Inv(db)
    ensures JobsFollow(db.jobs, AfterCreate(db, create, appNow).jobs)
  {
    NothingFollows(db.jobs);
    hide Inv, Insert, Attach, Settle, Follows, JobsFollow, SameJob, ValidCreate, Decodes;
    match Created(db, create, appNow) {
      case Throws(_) =>
      case Ok(draft) =>
        if create.id in db.jobs {
          var inserted := Insert(db, create, appNow).value;
          ExistingRowWins(db, create, appNow);
          AttachFollows(db, create.id, inserted, create);
          var attached := Attach(db, inserted, create).value;
          SettleFollows(db, attached);
          RowFollowsOnwards(inserted.row, attached.row, draft.row);
        }
        OneRowFollows(db.jobs, create.id, draft.row);
    }
  }

  lemma RowFollowsOnwards(a: Job, b: Job, c: Job)
    requires Follows(a, b) && Follows(b, c)
    ensures Follows(a, c)
  {
  }

  lemma ExistingRowWins(db: Db, create: CreateJob, appNow: int)
    requires create.id in db.jobs && Insert(db, create, appNow).Ok?
    ensures Insert(db, create, appNow).value.row == db.jobs[create.id]
  {
    hide NewRow, ChecksHold, RunAnswers, AdoptNamed;
  }

  lemma AttachFollows(db: Db, id: string, draft: Draft, create: CreateJob)
    requires Inv(db) && id in db.jobs && db.jobs[id] == draft.row && Attach(db, draft, create).Ok?
    ensures Follows(draft.row, Attach(db, draft, create).value.row)
  {
    hide Adopt, Consistent, RowOk, RowGrounded, RefsOk;
  }

  lemma SettleFollows(db: Db, draft: Draft)
    requires Settle(db, draft, db.clock).Ok?
    ensures Follows(draft.row, Settle(db, draft, db.clock).value.row)
  {
    hide AdoptNamed, ChecksHold;
  }

  lemma CompletionFollows(db: Db, c: Completion, elapsed: nat)
    requires Inv(db)
    ensures JobsFollow(db.jobs, Completing(db, c, elapsed).0.jobs)
  {
    NothingFollows(db.jobs);
    hide ValidLayoutInput, ValidRunInput, LayoutRegisters, WithLayout, CompletionMatches, Readback, Finish, RunRegisters;
    hide WithRun, Follows, Inv, ValidLease;
    if ValidCompletion(c) && c.lease.id in db.jobs && CompletionMatches(db.jobs[c.lease.id], c) {
      var row := db.jobs[c.lease.id];
      if !row.status.Completed? && Admitted(db, row, c).Ok? {
        var waited := db.(clock := db.clock + elapsed);
        var drawn := waited.(tables := waited.tables.(sequence := waited.tables.sequence + 1));
        var t := WithLayout(db.tables, c.layout);
        var finish := Finish(drawn, row, c, c.run.cacheKey in t.runs, drawn.clock);
        FinishFollows(drawn, row, c, c.run.cacheKey in t.runs, drawn.clock);
        FinishLooksAtRow(waited, drawn, row, c, c.run.cacheKey in t.runs);
        if finish.Ok? {
          OneRowFollows(db.jobs, c.lease.id, finish.value.row);
        }
      }
    }
  }

  lemma FinishFollows(db: Db, row: Job, c: Completion, cacheHit: bool, later: int)
    ensures Finish(db, row, c, cacheHit, later).Ok? ==> Follows(row, Finish(db, row, c, cacheHit, later).value.row)
  {
    hide AdoptNamed, ChecksHold, Decodes;
  }

  lemma CallFollows(db: Db, call: Call)
    requires Inv(db) && ValidStep(Step(0, call))
    ensures JobsFollow(db.jobs, Apply(db, call).jobs)
  {
    NothingFollows(db.jobs);
    hide Inv, AfterCreate, AfterClaim, AfterFailExpired, Completing, AfterRowCall, JobsFollow;
    match call {
      case CreateOrRead(create, appNow) => CreatedFollows(db, create, appNow);
      case Claim(owner, durationMs, token) => ClaimFollows(db, owner, durationMs, token);
      case FailExpired => ExpiryFollows(db);
      case Complete(completion, elapsed) => CompletionFollows(db, completion, elapsed);
      case Register(_) =>
      case WriteRef(_, _) =>
      case _ => RowCallFollows(db, call);
    }
  }

  /** Over every run no job disappears, attempts never decrease, no token returns, and a completed job
      keeps its attempt, output and decided ref for good. */
  lemma {:induction false} RunFollows(db: Db, steps: seq<Step>)
    requires Inv(db) && forall step | step in steps :: ValidStep(step)
    ensures JobsFollow(db.jobs, AfterSteps(db, steps).jobs)
    decreases |steps|
  {
    NothingFollows(db.jobs);
    hide Inv, Apply, JobsFollow;
    if steps != [] {
      var step := steps[0];
      assert ValidStep(step);
      var waited := db.(clock := db.clock + step.wait);
      TimeMayPass(db, waited.clock);
      CallKeepsInv(waited, step.call);
      CallFollows(waited, step.call);
      RunFollows(Next(db, step), steps[1..]);
      JobsFollowOnwards(db.jobs, Next(db, step).jobs, AfterSteps(db, steps).jobs);
    }
  }

  /** A claim takes a queued job, the least by creation time and id, under a new attempt; nothing else changes. */
  lemma ClaimTakesNext(db: Db, owner: string, durationMs: int, token: Token)
    requires Inv(db) && ValidDuration(durationMs)
    ensures var after := AfterClaim(db, owner, durationMs, token);
            if FenceHeld(db.jobs) || QueueKeys(db.jobs) == {} then after == db
            else
              var id := NextJob(db.jobs);
              && IsNext(db.jobs, id)
              && if db.jobs[id].attempt == POSTGRES_INTEGER_MAX then after == db
                 else after == db.(jobs := db.jobs[id := after.jobs[id]]) &&
                      NewlyClaimed(db.jobs[id], after.jobs[id], Lease(id, db.jobs[id].attempt + 1, token), db.clock)
  {
    if !FenceHeld(db.jobs) && QueueKeys(db.jobs) != {} {
      var id := NextJob(db.jobs);
      assert RowOk(id, db.jobs[id]);
      hide Consistent, Decodes, RefsOk, RowGrounded, QueueKeys, FenceHeld, RowsOk;
    }
  }

  ghost predicate NewlyClaimed(before: Job, after: Job, lease: Lease, now: int) {
    after.status.Leased? && Holds(after, lease, now) && lease.attempt == before.attempt + 1
  }

  /** A claimed job whose holder keeps within the lease gets to finalizing under the claimed attempt, with that
      attempt's staging keys; renewing moves the end of the lease to a full duration from now. */
  lemma ClaimedJobProceeds(id: string, job: Job, owner: string, durationMs: int, token: Token, now: int, t1: int, t2: int, t3: int)
    requires RowOk(id, job) && job.status.Queued?
    requires now <= t1 <= t2 <= t3 < now + durationMs * 1000
    ensures var lease := Lease(id, job.attempt + 1, token);
            var keyed := Written(Claimed(job, owner, durationMs, token, now), t1,
                                 SetStagingKeys(lease, InputKeyOf(id, lease.attempt), OutputKeyOf(id, lease.attempt)));
            keyed.Some? &&
            var running := Written(keyed.value, t2, MarkRunning(lease));
            running.Some? &&
            var finalizing := Written(running.value, t3, MarkFinalizing(lease));
            finalizing.Some? &&
            var row := finalizing.value;
            && row.status.Finalizing? && row.attempt == job.attempt + 1 && row.startedAt.Some?
            && row.identity == job.identity && ExactKeys(id, row)
            && (forall t :: Holds(row, lease, t) <==> t < now + durationMs * 1000)
            && (forall d, t | d > 0 :: Renews(row, lease, d, t3, t))
  {
    hide StagingKey, JobId;
  }

  /** A renewal for d milliseconds made at one time still holds at another exactly if that is within d. */
  ghost predicate Renews(row: Job, lease: Lease, d: int, now: int, later: int) {
    var renewed := Written(row, now, Renew(lease, d));
    renewed.Some? && (Holds(renewed.value, lease, later) <==> later < now + d * 1000)
  }

  // ---- Stale leases ----

  /** A lease whose attempt is superseded, or that has expired, been revoked, or whose job has stopped. */
  ghost predicate Powerless(job: Job, attempt: int, token: Token, now: int) {
    || attempt < job.attempt
    || (attempt == job.attempt && (job.leaseToken != Some(token) || !Unexpired(job, now) || !Active(job.status)))
  }

  ghost predicate JobIsPowerless(db: Db, id: string, attempt: int, token: Token) {
    id in db.jobs && Powerless(db.jobs[id], attempt, token, db.clock)
  }

  lemma WrittenStaysPowerless(job: Job, now: int, call: Call, attempt: int, token: Token)
    requires IsRowCall(call) && Written(job, now, call).Some? && Powerless(job, attempt, token, now)
    ensures Powerless(Written(job, now, call).value, attempt, token, now)
  {
  }

  /** Only renewals move the expiry of a lease. */
  ghost predicate ExpiryKept(before: Job, after: Job) {
    after.attempt == before.attempt && after.leaseToken.Some? ==> after.leaseExpiresAt == before.leaseExpiresAt
  }

  lemma FollowerStaysPowerless(before: Job, after: Job, attempt: int, token: Token, now: int)
    requires Powerless(before, attempt, token, now) && Follows(before, after) && ExpiryKept(before, after)
    ensures Powerless(after, attempt, token, now)
  {
  }

  lemma CreationKeepsExpiry(db: Db, create: CreateJob, appNow: int, id: string)
    requires id in db.jobs
    ensures id in AfterCreate(db, create, appNow).jobs && ExpiryKept(db.jobs[id], AfterCreate(db, create, appNow).jobs[id])
  {
    hide Insert, SameJob, ValidCreate, Decodes, ChecksHold, Adopt, AdoptNamed;
    if create.id == id && Created(db, create, appNow).Ok? {
      ExistingRowWins(db, create, appNow);
    }
  }

  lemma CompletionKeepsExpiry(db: Db, c: Completion, elapsed: nat, id: string)
    requires id in db.jobs
    ensures id in Completing(db, c, elapsed).0.jobs && ExpiryKept(db.jobs[id], Completing(db, c, elapsed).0.jobs[id])
  {
    hide ValidCompletion, LayoutRegisters, WithLayout, CompletionMatches, Readback, RunRegisters, WithRun, ValidLease, AdoptNamed, ChecksHold, Decodes;
  }

  lemma ExpiryIsKept(db: Db, call: Call, id: string)
    requires !IsRowCall(call) && id in db.jobs
    ensures id in Apply(db, call).jobs && ExpiryKept(db.jobs[id], Apply(db, call).jobs[id])
    ensures db.clock <= Apply(db, call).clock
  {
    match call {
      case CreateOrRead(create, appNow) =>
        hide AfterCreate;
        CreationKeepsExpiry(db, create, appNow, id);
        CreationKeepsClock(db, create, appNow);
      case Claim(owner, durationMs, token) => hide QueueKeys;
      case FailExpired =>
      case Complete(completion, elapsed) =>
        hide Completing;
        CompletionKeepsExpiry(db, completion, elapsed, id);
        CompletionTakesTime(db, completion, elapsed);
      case Register(_) =>
      case WriteRef(_, _) =>
    }
  }

  lemma CreationKeepsClock(db: Db, create: CreateJob, appNow: int)
    ensures AfterCreate(db, create, appNow).clock == db.clock
  {
    hide Created;
  }

  lemma CompletionTakesTime(db: Db, c: Completion, elapsed: nat)
    ensures Completing(db, c, elapsed).0.clock == db.clock + elapsed
  {
    hide ValidCompletion, LayoutRegisters, CompletionMatches, Readback, RunRegisters, WithRun, WithLayout, Finish, Admitted;
  }

  lemma PowerlessLater(job: Job, attempt: int, token: Token, now: int, later: int)
    requires Powerless(job, attempt, token, now) && now <= later
    ensures Powerless(job, attempt, token, later)
  {
  }

  lemma CallLeavesPowerless(db: Db, call: Call, id: string, attempt: int, token: Token)
    requires Inv(db) && ValidStep(Step(0, call)) && JobIsPowerless(db, id, attempt, token)
    ensures JobIsPowerless(Apply(db, call), id, attempt, token)
  {
    hide Inv, Follows, Powerless, ExpiryKept, Apply, AfterRowCall;
    if IsRowCall(call) {
      RowCallLeavesPowerless(db, call, id, attempt, token);
    } else {
      CallFollows(db, call);
      ExpiryIsKept(db, call, id);
      var after := Apply(db, call);
      assert id in after.jobs && Follows(db.jobs[id], after.jobs[id]);
      FollowerStaysPowerless(db.jobs[id], after.jobs[id], attempt, token, db.clock);
      PowerlessLater(after.jobs[id], attempt, token, db.clock, after.clock);
    }
  }

  lemma RowCallLeavesPowerless(db: Db, call: Call, id: string, attempt: int, token: Token)
    requires IsRowCall(call) && JobIsPowerless(db, id, attempt, token)
    ensures Apply(db, call) == AfterRowCall(db, call)
    ensures JobIsPowerless(AfterRowCall(db, call), id, attempt, token)
  {
    hide Written, ValidRowCall, Powerless;
    if id == TargetOf(call) && Written(db.jobs[id], db.clock, call).Some? {
      WrittenStaysPowerless(db.jobs[id], db.clock, call, attempt, token);
    }
  }

  /** Once powerless, a lease stays so whatever happens. */
  lemma {:induction false} PowerlessForever(db: Db, steps: seq<Step>, id: string, attempt: int, token: Token)
    requires Inv(db) && JobIsPowerless(db, id, attempt, token)
    requires forall step | step in steps :: ValidStep(step)
    ensures JobIsPowerless(AfterSteps(db, steps), id, attempt, token)
    decreases |steps|
  {
    hide Inv, Apply, Powerless;
    if steps != [] {
      var step := steps[0];
      assert ValidStep(step);
      var waited := db.(clock := db.clock + step.wait);
      TimeMayPass(db, waited.clock);
      PowerlessLater(db.jobs[id], attempt, token, db.clock, waited.clock);
      CallKeepsInv(waited, step.call);
      CallLeavesPowerless(waited, step.call, id, attempt, token);
      PowerlessForever(Next(db, step), steps[1..], id, attempt, token);
    }
  }

  /** The call is made under the lease (id, attempt, token). */
  predicate CarriesLease(call: Call, lease: Lease) {
    if call.Complete? then call.completion.lease == lease else IsLeaseCall(call) && call.lease == lease
  }

  /** Cleanup of a stopped row: staging keys or the fence are dropped, and nothing else is touched. */
  ghost predicate OnlyCleansUp(before: Job, after: Job) {
    after == before ||
    (Stopped(before.status) &&
     (after == before.(inputKey := None, outputKey := None) ||
      (NoKeys(before) && after == before.(leaseOwner := None, leaseToken := None, leaseExpiresAt := None))))
  }

  lemma PowerlessCallOnlyCleansUp(db: Db, call: Call, lease: Lease)
    requires JobIsPowerless(db, lease.id, lease.attempt, lease.token) && CarriesLease(call, lease)
    ensures var after := Apply(db, call);
            && lease.id in after.jobs
            && OnlyCleansUp(db.jobs[lease.id], after.jobs[lease.id])
            && after == db.(jobs := db.jobs[lease.id := after.jobs[lease.id]], clock := after.clock)
  {
    hide OnlyCleansUp, Written, Completing, Powerless, ValidRowCall;
    var job := db.jobs[lease.id];
    assert db.jobs[lease.id := job] == db.jobs;
    DoingNothingIsCleanup(job);
    if call.Complete? {
      PowerlessCompletion(db, call.completion, call.elapsed);
    } else {
      assert Apply(db, call) == AfterRowCall(db, call);
      PowerlessWrite(job, db.clock, call);
    }
  }

  lemma DoingNothingIsCleanup(job: Job)
    ensures OnlyCleansUp(job, job)
  {
  }

  lemma PowerlessWrite(job: Job, now: int, call: Call)
    requires IsLeaseCall(call) && Powerless(job, call.lease.attempt, call.lease.token, now)
    ensures Written(job, now, call).Some? ==> OnlyCleansUp(job, Written(job, now, call).value)
  {
  }

  lemma PowerlessCompletion(db: Db, c: Completion, elapsed: nat)
    requires JobIsPowerless(db, c.lease.id, c.lease.attempt, c.lease.token)
    ensures Completing(db, c, elapsed).0 == db.(clock := db.clock + elapsed)
  {
    hide ValidCompletion, LayoutRegisters, CompletionMatches, Readback, FinishRegistered, WithLayout;
  }

  /** Stale leases are powerless: after any run from a state where the lease is stale, a call made under it
      leaves the status, progress, output and expiry of the job, and everything else in the database, as
      they are, unless it is the cleanup of a failed or cancelled row. */
  lemma StaleLeasesArePowerless(db: Db, steps: seq<Step>, call: Call, lease: Lease)
    requires Inv(db) && JobIsPowerless(db, lease.id, lease.attempt, lease.token)
    requires forall step | step in steps :: ValidStep(step)
    requires CarriesLease(call, lease)
    ensures var before := AfterSteps(db, steps);
            var after := Apply(before, call);
            && JobIsPowerless(before, lease.id, lease.attempt, lease.token)
            && JobIsPowerless(after, lease.id, lease.attempt, lease.token)
            && OnlyCleansUp(before.jobs[lease.id], after.jobs[lease.id])
            && after == before.(jobs := before.jobs[lease.id := after.jobs[lease.id]], clock := after.clock)
  {
    hide Inv, AfterSteps, Apply, Powerless, OnlyCleansUp;
    PowerlessForever(db, steps, lease.id, lease.attempt, lease.token);
    RunKeepsInv(db, steps);
    var before := AfterSteps(db, steps);
    PowerlessCallOnlyCleansUp(before, call, lease);
    assert ValidStep(Step(0, call));
    CallLeavesPowerless(before, call, lease.id, lease.attempt, lease.token);
  }

  // ---- The queue cannot wedge ----

  /** How far the fenced row, if any, is from losing its fence. */
  ghost function FenceDistance(job: Job): nat {
    if job.leaseToken.None? then 0
    else if Active(job.status) then 3
    else if !NoKeys(job) then 2
    else 1
  }

  /** Wait for the lease to expire and sweep; then clear the staging keys; then clear the fence. */
  function CleanupStep(db: Db, id: string): Step
    requires id in db.jobs && db.jobs[id].leaseToken.Some?
  {
    var job := db.jobs[id];
    var lease := Lease(id, job.attempt, job.leaseToken.value);
    if Active(job.status) then
      var expiry := if job.leaseExpiresAt.Some? then job.leaseExpiresAt.value else db.clock;
      Step(if expiry <= db.clock then 0 else expiry - db.clock, FailExpired)
    else if !NoKeys(job) then Step(0, ClearStaging(lease))
    else Step(0, ClearFence(lease))
  }

  /** Every cleanup step brings the fence closer to its end, adds no other, and leaves the queue as it is. */
  ghost predicate Advances(before: Db, id: string, after: Db)
    requires id in before.jobs
  {
    && id in after.jobs && FenceDistance(after.jobs[id]) < FenceDistance(before.jobs[id])
    && OnlyFence(after.jobs, id)
    && QueueIsSame(before.jobs, after.jobs)
  }

  ghost predicate OnlyFence(jobs: map<string, Job>, id: string) {
    forall other | other in jobs && jobs[other].leaseToken.Some? :: other == id
  }

  lemma CleanupStepAdvances(db: Db, id: string)
    requires Inv(db) && id in db.jobs && db.jobs[id].leaseToken.Some?
    ensures Advances(db, id, Next(db, CleanupStep(db, id)))
    ensures Inv(Next(db, CleanupStep(db, id)))
  {
    var job := db.jobs[id];
    RowOfInv(db, id);
    CleanupIsValid(db, id);
    OnlyOneFence(db, id);
    StepKeepsInv(db, CleanupStep(db, id));
    hide Inv, RowOk, OnlyFence, Next, CleanupStep, Advances;
    if Active(job.status) {
      SweepAdvances(db, id);
    } else if !NoKeys(job) {
      ClearingKeysAdvances(db, id);
    } else {
      ClearingFenceAdvances(db, id);
    }
  }

  lemma RowOfInv(db: Db, id: string)
    requires Inv(db) && id in db.jobs
    ensures RowOk(id, db.jobs[id])
  {
  }

  lemma CleanupIsValid(db: Db, id: string)
    requires id in db.jobs && db.jobs[id].leaseToken.Some?
    ensures ValidStep(CleanupStep(db, id))
  {
  }

  /** A row call whose UPDATE finds its row writes that row and nothing else. */
  lemma RowCallWrites(db: Db, wait: nat, call: Call, row: Job)
    requires IsRowCall(call) && ValidRowCall(call) && TargetOf(call) in db.jobs
    requires Written(db.jobs[TargetOf(call)], db.clock + wait, call) == Some(row)
    ensures Next(db, Step(wait, call)) == db.(jobs := db.jobs[TargetOf(call) := row], clock := db.clock + wait)
  {
    hide Written, ValidRowCall;
  }

  lemma RowChangeAdvances(db: Db, id: string, row: Job, later: int)
    requires id in db.jobs && OnlyFence(db.jobs, id) && FenceDistance(row) < FenceDistance(db.jobs[id])
    requires !db.jobs[id].status.Queued? && !row.status.Queued?
    ensures Advances(db, id, db.(jobs := db.jobs[id := row], clock := later))
  {
    hide FenceDistance;
  }

  lemma SweepAdvances(db: Db, id: string)
    requires id in db.jobs && RowOk(id, db.jobs[id]) && OnlyFence(db.jobs, id) && Active(db.jobs[id].status)
    requires db.jobs[id].leaseToken.Some?
    ensures Advances(db, id, Next(db, CleanupStep(db, id)))
  {
    hide Decodes, StagingKey, JobId, Advances, ChecksHold, OnlyFence;
    var after := Next(db, CleanupStep(db, id));
    FencedShape(id, db.jobs[id]);
    var row := Stop(db.jobs[id], Failed, Some(LEASE_EXPIRED), after.clock);
    assert after.jobs[id] == row;
    forall other | other in db.jobs && other != id ensures after.jobs[other] == db.jobs[other] {
      NoOtherFence(db.jobs, id, other);
    }
    assert after.jobs == db.jobs[id := row];
    RowChangeAdvances(db, id, row, after.clock);
  }

  lemma NoOtherFence(jobs: map<string, Job>, id: string, other: string)
    requires OnlyFence(jobs, id) && other in jobs && other != id
    ensures jobs[other].leaseToken.None?
  {
  }

  /** A fenced row is claimed and holds a whole lease. */
  lemma FencedShape(id: string, job: Job)
    requires RowOk(id, job) && job.leaseToken.Some?
    ensures job.attempt >= 1 && |job.leaseToken.value| == 32 && job.leaseExpiresAt.Some?
    ensures Active(job.status) || Stopped(job.status)
  {
    hide Decodes, StagingKey, JobId;
  }

  lemma ClearingKeysAdvances(db: Db, id: string)
    requires id in db.jobs && RowOk(id, db.jobs[id]) && OnlyFence(db.jobs, id)
    requires db.jobs[id].leaseToken.Some? && !Active(db.jobs[id].status) && !NoKeys(db.jobs[id])
    ensures Advances(db, id, Next(db, CleanupStep(db, id)))
  {
    hide RowOk, Advances, OnlyFence, Next;
    FencedShape(id, db.jobs[id]);
    var lease := Lease(id, db.jobs[id].attempt, db.jobs[id].leaseToken.value);
    var row := db.jobs[id].(inputKey := None, outputKey := None);
    RowCallWrites(db, 0, ClearStaging(lease), row);
    RowChangeAdvances(db, id, row, db.clock);
  }

  lemma ClearingFenceAdvances(db: Db, id: string)
    requires id in db.jobs && RowOk(id, db.jobs[id]) && OnlyFence(db.jobs, id)
    requires db.jobs[id].leaseToken.Some? && !Active(db.jobs[id].status) && NoKeys(db.jobs[id])
    ensures Advances(db, id, Next(db, CleanupStep(db, id)))
  {
    hide RowOk, Advances, OnlyFence, Next;
    FencedShape(id, db.jobs[id]);
    var lease := Lease(id, db.jobs[id].attempt, db.jobs[id].leaseToken.value);
    var row := db.jobs[id].(leaseOwner := None, leaseToken := None, leaseExpiresAt := None);
    RowCallWrites(db, 0, ClearFence(lease), row);
    RowChangeAdvances(db, id, row, db.clock);
  }

  /** The same queued rows, unchanged. */
  ghost predicate QueueIsSame(before: map<string, Job>, after: map<string, Job>) {
    && before.Keys == after.Keys
    && forall id | id in before :: (before[id].status.Queued? || after[id].status.Queued?) ==> after[id] == before[id]
  }

  lemma QueueStaysSame(a: map<string, Job>, b: map<string, Job>, c: map<string, Job>)
    requires QueueIsSame(a, b) && QueueIsSame(b, c)
    ensures QueueIsSame(a, c)
  {
  }

  lemma NoFenceLeft(jobs: map<string, Job>, id: string)
    requires id in jobs && jobs[id].leaseToken.None? && OnlyFence(jobs, id)
    ensures !FenceHeld(jobs) && QueueIsSame(jobs, jobs)
  {
  }

  /** The cleanup of a fence: at most three steps. */
  ghost function Cleanup(db: Db, id: string): (steps: seq<Step>)
    requires Inv(db) && id in db.jobs
    ensures |steps| <= FenceDistance(db.jobs[id]) <= 3
    ensures forall step | step in steps :: step.call.FailExpired? || step.call.ClearStaging? || step.call.ClearFence?
    decreases FenceDistance(db.jobs[id])
  {
    if db.jobs[id].leaseToken.None? then []
    else
      CleanupStepAdvances(db, id);
      [CleanupStep(db, id)] + Cleanup(Next(db, CleanupStep(db, id)), id)
  }

  lemma {:induction false} CleanupClears(db: Db, id: string)
    requires Inv(db) && id in db.jobs && OnlyFence(db.jobs, id)
    ensures var after := AfterSteps(db, Cleanup(db, id));
            Inv(after) && !FenceHeld(after.jobs) && QueueIsSame(db.jobs, after.jobs)
    decreases FenceDistance(db.jobs[id])
  {
    hide Inv, Next, CleanupStep, FenceHeld, QueueIsSame, OnlyFence, FenceDistance;
    if db.jobs[id].leaseToken.None? {
      NoFenceLeft(db.jobs, id);
    } else {
      CleanupStepAdvances(db, id);
      var next := Next(db, CleanupStep(db, id));
      CleanupClears(next, id);
      assert Cleanup(db, id)[1..] == Cleanup(next, id);
      QueueStaysSame(db.jobs, next.jobs, AfterSteps(next, Cleanup(next, id)).jobs);
    }
  }

  lemma SameQueueSameNext(before: map<string, Job>, after: map<string, Job>)
    requires QueueIsSame(before, after)
    ensures QueueKeys(after) == QueueKeys(before)
    ensures QueueKeys(before) != {} ==> NextJob(after) == NextJob(before) && after[NextJob(after)] == before[NextJob(before)]
  {
    assert QueueKeys(after) == QueueKeys(before);
  }

  /** The queue cannot wedge: from every reachable state with a fence, waiting, sweeping and cleaning up takes
      at most three steps, each closer to the end, after which a claim takes the least of the jobs that were
      queued to begin with. */
  lemma QueueCannotWedge(db: Db, id: string, owner: string, durationMs: int, token: Token)
    requires Inv(db) && id in db.jobs && db.jobs[id].leaseToken.Some?
    requires ValidDuration(durationMs) && |token| == 32
    requires QueueKeys(db.jobs) != {} && db.jobs[NextJob(db.jobs)].attempt < POSTGRES_INTEGER_MAX
    ensures |Cleanup(db, id)| <= 3
    ensures var freed := AfterSteps(db, Cleanup(db, id));
            var next := NextJob(db.jobs);
            var after := Apply(freed, Claim(owner, durationMs, token));
            && !FenceHeld(freed.jobs) && next in freed.jobs && freed.jobs[next] == db.jobs[next]
            && after == freed.(jobs := freed.jobs[next := Claimed(db.jobs[next], owner, durationMs, token, freed.clock)])
  {
    hide Inv, AfterSteps, Cleanup, QueueIsSame, FenceHeld, QueueKeys, OnlyFence, Apply, Claimed, FenceDistance;
    OnlyOneFence(db, id);
    CleanupClears(db, id);
    var freed := AfterSteps(db, Cleanup(db, id));
    SameQueueSameNext(db.jobs, freed.jobs);
    FreedClaim(freed, owner, durationMs, token);
  }

  lemma FreedClaim(db: Db, owner: string, durationMs: int, token: Token)
    requires !FenceHeld(db.jobs) && ValidDuration(durationMs) && QueueKeys(db.jobs) != {}
    requires db.jobs[NextJob(db.jobs)].attempt < POSTGRES_INTEGER_MAX
    ensures var next := NextJob(db.jobs);
            Apply(db, Claim(owner, durationMs, token)) ==
            db.(jobs := db.jobs[next := Claimed(db.jobs[next], owner, durationMs, token, db.clock)])
  {
    hide FenceHeld, QueueKeys, Claimed;
  }

  lemma OnlyOneFence(db: Db, id: string)
    requires Inv(db) && id in db.jobs && db.jobs[id].leaseToken.Some?
    ensures OnlyFence(db.jobs, id)
  {
  }
}
