/** What each call on one job does, from the row and the clock alone: exactly when it writes, every column it
    writes, and what it answers. */
module TransformJobTransitions {
  import opened Text
  import opened TransformJobs
  import opened TransformJobInvariant
  import opened TransformJobHistory
  import opened TransformJobTheorems
  import opened TransformJobCatalog
  import Keyset
  import Ordering

  /** The call writes this row and nothing else, and answers with it. */
  ghost predicate Writes(db: Db, call: Call, id: string, row: Job)
    requires IsRowCall(call)
  {
    && Apply(db, call) == db.(jobs := db.jobs[id := row])
    && Returned(db.jobs, db.clock, call) == Ok(Some(row))
    && Changes(db.jobs, db.clock, call) == Ok(true)
  }

  /** The call writes nothing and answers so. */
  ghost predicate Refuses(db: Db, call: Call)
    requires IsRowCall(call)
  {
    && Apply(db, call) == db
    && Returned(db.jobs, db.clock, call) == Ok(None)
    && Changes(db.jobs, db.clock, call) == Ok(false)
  }

  lemma RowCallMoves(db: Db, call: Call)
    requires IsRowCall(call) && ValidRowCall(call)
    ensures var id := TargetOf(call);
            if id in db.jobs && Written(db.jobs[id], db.clock, call).Some?
            then Writes(db, call, id, Written(db.jobs[id], db.clock, call).value)
            else Refuses(db, call)
  {
    hide Written, ValidRowCall, IsRowCall;
    RowCallIsApplied(db, call);
  }

  /** Malformed arguments throw, and nothing else does: a lease without an attempt or of another length, a duration
      of no time or more than a day, progress beyond its total or its column, keys of another attempt. */
  lemma MalformedCallsThrow(db: Db, call: Call)
    requires IsRowCall(call)
    ensures var malformed :=
              match call
              case Renew(lease, durationMs) => IsMalformed(lease) || durationMs <= 0 || durationMs > 24 * 60 * 60 * 1000
              case UpdateProgress(lease, p) =>
                || IsMalformed(lease) || p.completedUnits < 0 || p.completedUnits >= 0x8000_0000_0000_0000
                || (p.totalUnits.Some? && (p.totalUnits.value < p.completedUnits || p.totalUnits.value >= 0x8000_0000_0000_0000))
              case SetStagingKeys(lease, input, output) => IsMalformed(lease) || !AreKeysOf(lease.id, lease.attempt, input, output)
              case ClearCompletedStaging(id, attempt, _, input, output) => attempt < 1 || !AreKeysOf(id, attempt, input, output)
              case RequestCancellation(_) => false
              case Retry(_) => false
              case _ => IsMalformed(call.lease);
            && (malformed ==> Apply(db, call) == db)
            && (malformed <==> Returned(db.jobs, db.clock, call) == Throws(InputError))
            && (malformed <==> Changes(db.jobs, db.clock, call) == Throws(InputError))
  {
    hide Written, Apply;
    RowCallIsApplied(db, call);
    if call.SetStagingKeys? {
      KeysAre(call.lease.id, call.lease.attempt);
    }
    if call.ClearCompletedStaging? {
      KeysAre(call.id, call.attempt);
    }
    hide StagingKey;
  }

  ghost predicate IsMalformed(lease: Lease) {
    lease.attempt < 1 || |lease.token| != 32
  }

  ghost predicate AreKeysOf(id: string, attempt: int, input: string, output: string) {
    var prefix := "staging/worker/v1/" + id + "/" + Decimal(attempt);
    input == prefix + "/input.jsonl" && output == prefix + "/output.jsonl"
  }

  // ---- Under a lease ----

  /** The row is there, under this attempt and token. */
  ghost predicate Fenced(db: Db, lease: Lease) {
    && lease.id in db.jobs
    && db.jobs[lease.id].attempt == lease.attempt && db.jobs[lease.id].leaseToken == Some(lease.token)
  }

  /** And the lease has time left: it ends strictly after now. */
  ghost predicate InForce(db: Db, lease: Lease) {
    Fenced(db, lease) && exists expiry :: db.jobs[lease.id].leaseExpiresAt == Some(expiry) && db.clock < expiry
  }

  ghost predicate HasStatus(db: Db, id: string, statuses: set<Status>) {
    id in db.jobs && db.jobs[id].status in statuses
  }

  lemma RenewalMoves(db: Db, lease: Lease, durationMs: int)
    requires lease.attempt >= 1 && |lease.token| == 32 && 0 < durationMs <= 86400000
    ensures var call := Renew(lease, durationMs);
            if InForce(db, lease) && HasStatus(db, lease.id, {Leased, Running, Finalizing})
            then Writes(db, call, lease.id, db.jobs[lease.id].(leaseExpiresAt := Some(db.clock + 1000 * durationMs)))
            else Refuses(db, call)
  {
    hide Writes, Refuses, Apply;
    RowCallMoves(db, Renew(lease, durationMs));
  }

  lemma StartMoves(db: Db, lease: Lease)
    requires lease.attempt >= 1 && |lease.token| == 32
    ensures var call := MarkRunning(lease);
            if InForce(db, lease) && HasStatus(db, lease.id, {Leased})
            then var job := db.jobs[lease.id];
                 && (job.startedAt.Some? ==> Writes(db, call, lease.id, job.(status := Running)))
                 && (job.startedAt.None? ==> Writes(db, call, lease.id, job.(status := Running, startedAt := Some(db.clock))))
            else Refuses(db, call)
  {
    hide Writes, Refuses, Apply;
    RowCallMoves(db, MarkRunning(lease));
    if lease.id in db.jobs && db.jobs[lease.id].startedAt.Some? {
      assert db.jobs[lease.id].(status := Running, startedAt := db.jobs[lease.id].startedAt) == db.jobs[lease.id].(status := Running);
    }
  }

  lemma ProgressMoves(db: Db, lease: Lease, progress: Progress)
    requires lease.attempt >= 1 && |lease.token| == 32
    requires 0 <= progress.completedUnits <= 9223372036854775807
    requires progress.totalUnits.Some? ==> progress.completedUnits <= progress.totalUnits.value <= 9223372036854775807
    ensures var call := UpdateProgress(lease, progress);
            if InForce(db, lease) && HasStatus(db, lease.id, {Running})
            then Writes(db, call, lease.id, db.jobs[lease.id].(progress := Some(progress)))
            else Refuses(db, call)
  {
    hide Writes, Refuses, Apply;
    RowCallMoves(db, UpdateProgress(lease, progress));
  }

  lemma KeysAre(id: string, attempt: int)
    ensures var prefix := "staging/worker/v1/" + id + "/" + Decimal(attempt);
            InputKeyOf(id, attempt) == prefix + "/input.jsonl" && OutputKeyOf(id, attempt) == prefix + "/output.jsonl"
  {
  }

  /** The keys of the attempt, and no others, are set once; setting them again changes nothing. */
  lemma KeyingMoves(db: Db, lease: Lease)
    requires lease.attempt >= 1 && |lease.token| == 32
    ensures var prefix := "staging/worker/v1/" + lease.id + "/" + Decimal(lease.attempt);
            var input, output := prefix + "/input.jsonl", prefix + "/output.jsonl";
            var call := SetStagingKeys(lease, input, output);
            if InForce(db, lease) && HasStatus(db, lease.id, {Leased}) &&
               (db.jobs[lease.id].inputKey, db.jobs[lease.id].outputKey) in {(None, None), (Some(input), Some(output))}
            then Writes(db, call, lease.id, db.jobs[lease.id].(inputKey := Some(input), outputKey := Some(output)))
            else Refuses(db, call)
  {
    hide Writes, Refuses, Apply, StagingKey;
    KeysAre(lease.id, lease.attempt);
    RowCallMoves(db, SetStagingKeys(lease, InputKeyOf(lease.id, lease.attempt), OutputKeyOf(lease.id, lease.attempt)));
  }

  lemma FinalizingMoves(db: Db, lease: Lease)
    requires lease.attempt >= 1 && |lease.token| == 32
    ensures if InForce(db, lease) && HasStatus(db, lease.id, {Running})
            then Writes(db, MarkFinalizing(lease), lease.id, db.jobs[lease.id].(status := Finalizing))
            else Refuses(db, MarkFinalizing(lease))
  {
    hide Writes, Refuses, Apply;
    RowCallMoves(db, MarkFinalizing(lease));
  }

  /** A failure or cancellation ends the work and nothing else: fence and keys stay for the cleanup. */
  lemma StopMoves(db: Db, lease: Lease, error: JobError)
    requires lease.attempt >= 1 && |lease.token| == 32
    ensures if InForce(db, lease) && HasStatus(db, lease.id, {Leased, Running, Finalizing})
            then
              var job := db.jobs[lease.id];
              && Writes(db, MarkFailed(lease, error), lease.id, job.(status := Failed, error := Some(error), finishedAt := Some(db.clock)))
              && Writes(db, MarkCancelled(lease), lease.id, job.(status := Cancelled, finishedAt := Some(db.clock)))
            else Refuses(db, MarkFailed(lease, error)) && Refuses(db, MarkCancelled(lease))
  {
    hide Writes, Refuses, Apply;
    RowCallMoves(db, MarkFailed(lease, error));
    RowCallMoves(db, MarkCancelled(lease));
  }

  /** Cleaning up asks for attempt and token, but not for time left on the lease. */
  lemma CleanupMoves(db: Db, lease: Lease)
    requires lease.attempt >= 1 && |lease.token| == 32
    ensures if Fenced(db, lease) && HasStatus(db, lease.id, {Failed, Cancelled})
            then
              var job := db.jobs[lease.id];
              && Writes(db, ClearStaging(lease), lease.id, job.(inputKey := None, outputKey := None))
              && if job.inputKey == None && job.outputKey == None
                 then Writes(db, ClearFence(lease), lease.id, job.(leaseOwner := None, leaseToken := None, leaseExpiresAt := None))
                 else Refuses(db, ClearFence(lease))
            else Refuses(db, ClearStaging(lease)) && Refuses(db, ClearFence(lease))
  {
    hide Writes, Refuses, Apply;
    RowCallMoves(db, ClearStaging(lease));
    RowCallMoves(db, ClearFence(lease));
  }

  // ---- Without a lease ----

  /** A cancellation request stops whatever is queued or being worked on. */
  lemma CancellationRequestMoves(db: Db, id: string)
    ensures if HasStatus(db, id, {Queued, Leased, Running, Finalizing})
            then Writes(db, RequestCancellation(id), id, db.jobs[id].(status := Cancelled, finishedAt := Some(db.clock)))
            else Refuses(db, RequestCancellation(id))
  {
    hide Writes, Refuses, Apply;
    RowCallMoves(db, RequestCancellation(id));
  }

  lemma CompletedCleanupMoves(db: Db, id: string, attempt: int, outputVersion: string)
    requires attempt >= 1
    ensures var prefix := "staging/worker/v1/" + id + "/" + Decimal(attempt);
            var input, output := prefix + "/input.jsonl", prefix + "/output.jsonl";
            var call := ClearCompletedStaging(id, attempt, outputVersion, input, output);
            if HasStatus(db, id, {Completed}) && db.jobs[id].attempt == attempt && db.jobs[id].outputVersion == Some(outputVersion) &&
               (db.jobs[id].inputKey, db.jobs[id].outputKey) in {(None, None), (Some(input), Some(output))}
            then Writes(db, call, id, db.jobs[id].(inputKey := None, outputKey := None))
            else Refuses(db, call)
  {
    hide Writes, Refuses, Apply, StagingKey;
    KeysAre(id, attempt);
    RowCallMoves(db, ClearCompletedStaging(id, attempt, outputVersion, InputKeyOf(id, attempt), OutputKeyOf(id, attempt)));
  }

  /** A stopped row that has been cleaned up, and no other, can be retried.  It is then a queued row like a new one,
      but for its attempt number: no lease, keys, progress, output, error or times are left. */
  lemma RetryMoves(db: Db, id: string)
    requires Inv(db)
    ensures if HasStatus(db, id, {Failed, Cancelled}) && db.jobs[id].leaseToken == None &&
               db.jobs[id].inputKey == None && db.jobs[id].outputKey == None
            then
              var job := db.jobs[id];
              Writes(db, Retry(id), id,
                     Job(job.identity, Queued, job.attempt, None, None, None, None, None, None, None, None,
                         job.refNamespace, job.refName, job.refStatus, None, false, None, job.createdAt, None, None))
            else Refuses(db, Retry(id))
  {
    hide Writes, Refuses, Apply, Inv, RowOk;
    RowCallMoves(db, Retry(id));
    if id in db.jobs {
      RowOfInv(db, id);
      if Stopped(db.jobs[id].status) {
        StoppedShape(id, db.jobs[id]);
      }
    }
  }

  lemma StoppedShape(id: string, job: Job)
    requires RowOk(id, job) && Stopped(job.status)
    ensures !job.cacheHit && job.outputVersion.None? && job.outputCount.None? && job.refVersion.None?
    ensures job.leaseToken.None? ==> NoKeys(job) && job.leaseOwner.None? && job.leaseExpiresAt.None?
  {
    hide StagingKey, JobId;
  }

  // ---- The queue ----

  /** Queued earlier, or at the same moment under the smaller id. */
  ghost predicate QueuedBefore(jobs: map<string, Job>, a: string, b: string)
    requires a in jobs && b in jobs
  {
    || jobs[a].createdAt < jobs[b].createdAt
    || (jobs[a].createdAt == jobs[b].createdAt && Ordering.Precedes(Keyset.CodeUnits(a), Keyset.CodeUnits(b)))
  }

  /** First come, first served. */
  ghost predicate HeadsQueue(jobs: map<string, Job>, id: string) {
    && id in jobs && jobs[id].status == Queued
    && forall other | other in jobs && jobs[other].status == Queued && other != id :: QueuedBefore(jobs, id, other)
  }

  lemma NextHeadsQueue(jobs: map<string, Job>, id: string)
    ensures HeadsQueue(jobs, id) <==> IsNext(jobs, id)
    ensures HeadsQueue(jobs, id) ==> QueueKeys(jobs) != {} && NextJob(jobs) == id
  {
    hide Keyset.CollatesBefore, Ordering.Precedes, Keyset.CodeUnits;
    forall a, b ensures Keyset.CollatesBefore(a, b) <==> a == b || Ordering.Precedes(Keyset.CodeUnits(a), Keyset.CodeUnits(b)) {
      Keyset.CollationIsLexicographic(a, b);
    }
    if HeadsQueue(jobs, id) {
      var key := Keyset.TimedKey(jobs[id].createdAt, id);
      assert key in QueueKeys(jobs);
      forall other | other in QueueKeys(jobs) ensures Keyset.OldestFirst()(key, other) {
        assert other.id == id || QueuedBefore(jobs, id, other.id);
      }
      assert IsNext(jobs, id);
    }
    if IsNext(jobs, id) {
      forall other | other in jobs && jobs[other].status == Queued && other != id ensures QueuedBefore(jobs, id, other) {
        assert Keyset.TimedKey(jobs[other].createdAt, other) in QueueKeys(jobs);
      }
    }
  }

  /** A claim leases the head of the queue under its next attempt, for as long as asked from now, unless some
      row holds a token. */
  lemma ClaimMoves(db: Db, id: string, owner: string, durationMs: int, token: Token)
    requires 0 < durationMs <= 86400000
    requires HeadsQueue(db.jobs, id) && db.jobs[id].attempt < 2147483647
    ensures var job := db.jobs[id];
            var row := job.(status := Leased, attempt := job.attempt + 1, leaseOwner := Some(owner),
                            leaseToken := Some(token), leaseExpiresAt := Some(db.clock + 1000 * durationMs));
            if exists other :: other in db.jobs && db.jobs[other].leaseToken != None
            then Apply(db, Claim(owner, durationMs, token)) == db && ClaimAnswer(db, owner, durationMs, token) == Ok(None)
            else Apply(db, Claim(owner, durationMs, token)) == db.(jobs := db.jobs[id := row]) &&
                 ClaimAnswer(db, owner, durationMs, token) == Ok(Some(row))
  {
    hide HeadsQueue, QueueKeys, AfterCreate, AfterRowCall, AfterFailExpired, Completing;
    NextHeadsQueue(db.jobs, id);
  }

  /** A claim that leases nothing: for a duration out of range, or from an empty queue. */
  lemma ClaimRefusals(db: Db, owner: string, durationMs: int, token: Token)
    ensures durationMs <= 0 || durationMs > 86400000 ==>
              Apply(db, Claim(owner, durationMs, token)) == db && ClaimAnswer(db, owner, durationMs, token) == Throws(InputError)
    ensures 0 < durationMs <= 86400000 && (forall id | id in db.jobs :: db.jobs[id].status != Queued) ==>
              Apply(db, Claim(owner, durationMs, token)) == db && ClaimAnswer(db, owner, durationMs, token) == Ok(None)
  {
    hide QueueKeys, AfterCreate, AfterRowCall, AfterFailExpired, Completing;
    NoQueue(db.jobs);
  }

  /** At the last attempt number the counter's column overflows, and the claim throws. */
  lemma ExhaustedClaim(db: Db, id: string, owner: string, durationMs: int, token: Token)
    requires 0 < durationMs <= 86400000
    requires HeadsQueue(db.jobs, id) && db.jobs[id].attempt >= 0x7FFF_FFFF
    requires forall other | other in db.jobs :: db.jobs[other].leaseToken == None
    ensures Apply(db, Claim(owner, durationMs, token)) == db
    ensures ClaimAnswer(db, owner, durationMs, token) == Throws(ConstraintViolation)
  {
    hide HeadsQueue, QueueKeys, AfterCreate, AfterRowCall, AfterFailExpired, Completing;
    NextHeadsQueue(db.jobs, id);
  }

  /** The sweep fails exactly the rows that are still being worked on when their lease has ended. */
  lemma SweepMoves(db: Db, id: string)
    requires id in db.jobs
    ensures var after := Apply(db, FailExpired);
            && after == db.(jobs := after.jobs) && after.jobs.Keys == db.jobs.Keys
            && if HasStatus(db, id, {Leased, Running, Finalizing}) && db.jobs[id].leaseToken != None &&
                  db.jobs[id].leaseExpiresAt != None && db.jobs[id].leaseExpiresAt.value <= db.clock
               then after.jobs[id] == db.jobs[id].(status := Failed, finishedAt := Some(db.clock),
                                                   error := Some(JobError("lease_expired", "Worker job lease expired", false)))
               else after.jobs[id] == db.jobs[id]
  {
  }

  // ---- Stopped jobs run again ----

  ghost predicate StaysStopped(before: Job, after: Job) {
    Stopped(before.status) ==>
      after == before.(inputKey := after.inputKey, outputKey := after.outputKey, leaseOwner := after.leaseOwner,
                       leaseToken := after.leaseToken, leaseExpiresAt := after.leaseExpiresAt)
  }

  lemma CleanupStepKeepsStopped(db: Db, fenced: string, id: string)
    requires fenced in db.jobs && db.jobs[fenced].leaseToken.Some? && id in db.jobs
    ensures var after := Next(db, CleanupStep(db, fenced)); id in after.jobs && StaysStopped(db.jobs[id], after.jobs[id])
  {
    hide Apply;
    var step := CleanupStep(db, fenced);
    var waited := db.(clock := db.clock + step.wait);
    if step.call.FailExpired? {
      SweepMoves(waited, id);
    } else {
      CleanupCallKeepsStopped(waited, step.call, id);
    }
  }

  lemma CleanupCallKeepsStopped(db: Db, call: Call, id: string)
    requires id in db.jobs && (call.ClearStaging? || call.ClearFence?)
    ensures id in Apply(db, call).jobs && StaysStopped(db.jobs[id], Apply(db, call).jobs[id])
  {
    hide Apply, Matches;
    RowCallIsApplied(db, call);
  }

  lemma {:induction false} CleanupKeepsStopped(db: Db, fenced: string, id: string)
    requires Inv(db) && fenced in db.jobs && id in db.jobs
    ensures var after := AfterSteps(db, Cleanup(db, fenced)); id in after.jobs && StaysStopped(db.jobs[id], after.jobs[id])
    decreases FenceDistance(db.jobs[fenced])
  {
    hide Inv, Next, CleanupStep, FenceDistance;
    if db.jobs[fenced].leaseToken.Some? {
      CleanupStepAdvances(db, fenced);
      CleanupStepKeepsStopped(db, fenced, id);
      var next := Next(db, CleanupStep(db, fenced));
      CleanupKeepsStopped(next, fenced, id);
      assert Cleanup(db, fenced)[1..] == Cleanup(next, fenced);
    }
  }

  /** No job is stopped for good.  Whatever fence a reachable state has, after its cleanup a failed or cancelled job
      can be retried, and a claim then takes it once it heads the queue, under the next attempt. */
  lemma StoppedJobsRunAgain(db: Db, fenced: string, id: string, owner: string, durationMs: int, token: Token)
    requires Inv(db) && fenced in db.jobs && OnlyFence(db.jobs, fenced)
    requires HasStatus(db, id, {Failed, Cancelled})
    requires 0 < durationMs <= 86400000
    ensures var freed := AfterSteps(db, Cleanup(db, fenced));
            var queued := Apply(freed, Retry(id));
            && HasStatus(queued, id, {Queued}) && queued == freed.(jobs := freed.jobs[id := queued.jobs[id]])
            && (queued.jobs[id].identity, queued.jobs[id].createdAt, queued.jobs[id].attempt)
               == (db.jobs[id].identity, db.jobs[id].createdAt, db.jobs[id].attempt)
            && (HeadsQueue(queued.jobs, id) && db.jobs[id].attempt < 2147483647 ==>
                  var claimed := Apply(queued, Claim(owner, durationMs, token));
                  && HasStatus(claimed, id, {Leased}) && claimed == queued.(jobs := queued.jobs[id := claimed.jobs[id]])
                  && claimed.jobs[id].attempt == db.jobs[id].attempt + 1 && InForce(claimed, Lease(id, db.jobs[id].attempt + 1, token)))
  {
    hide Inv, AfterSteps, Cleanup, FenceHeld, OnlyFence, Apply, QueueIsSame, HeadsQueue, RowOk, ClaimAnswer, Returned, Changes;
    CleanupClears(db, fenced);
    CleanupKeepsStopped(db, fenced, id);
    var freed := AfterSteps(db, Cleanup(db, fenced));
    NoTokens(freed.jobs, id);
    RowOfInv(freed, id);
    StoppedShape(id, freed.jobs[id]);
    RetryMoves(freed, id);
    var queued := Apply(freed, Retry(id));
    forall other | other in queued.jobs ensures queued.jobs[other].leaseToken == None {
      NoTokens(freed.jobs, if other == id then id else other);
    }
    if HeadsQueue(queued.jobs, id) && db.jobs[id].attempt < 2147483647 {
      ClaimMoves(queued, id, owner, durationMs, token);
    }
  }

  lemma NoTokens(jobs: map<string, Job>, id: string)
    requires id in jobs && !FenceHeld(jobs)
    ensures jobs[id].leaseToken == None
  {
  }

  // ---- What the rows say ----

  /** Output with completion, an error with failure, an end with stopping or completion, and counts within bounds. */
  ghost predicate JobSays(id: string, job: Job) {
    && id == "job_" + job.identity.cacheKey && job.attempt <= 0x7FFF_FFFF
    && (job.outputVersion.Some? <==> job.status == Completed)
    && (job.outputCount.Some? <==> job.status == Completed)
    && (job.outputCount.Some? ==> 0 <= job.outputCount.value <= job.identity.inputCount)
    && (job.error.Some? <==> job.status == Failed)
    && (job.finishedAt.Some? <==> job.status in {Completed, Failed, Cancelled})
    && (job.cacheHit ==> job.status == Completed)
    && (job.leaseToken.Some? <==> job.leaseOwner.Some?) && (job.leaseToken.Some? <==> job.leaseExpiresAt.Some?)
    && (job.leaseToken.Some? ==> |job.leaseToken.value| == 32 && job.status !in {Queued, Completed})
    && (job.refName.Some? <==> job.refNamespace.Some?) && (job.refName.Some? <==> job.refStatus.Some?)
    && (job.refName.Some? && job.status != Completed ==> job.refStatus == Some(Pending) && job.refVersion.None?)
    && (job.progress.Some? && job.progress.value.totalUnits.Some? ==>
          0 <= job.progress.value.completedUnits <= job.progress.value.totalUnits.value < 0x8000_0000_0000_0000)
  }

  /** Whatever calls are made, in whatever order, from an empty catalog. */
  lemma ReachableJobsSay(namespaces: set<string>, clock: int, steps: seq<Step>, id: string)
    requires forall step | step in steps :: ValidStep(step)
    requires id in AfterSteps(Initial(namespaces, clock), steps).jobs
    ensures JobSays(id, AfterSteps(Initial(namespaces, clock), steps).jobs[id])
  {
    hide AfterSteps, Inv, RowOk, JobSays, ValidStep;
    InitialIsOk(namespaces, clock);
    RunKeepsInv(Initial(namespaces, clock), steps);
    RowOfInv(AfterSteps(Initial(namespaces, clock), steps), id);
    OkRowSays(id, AfterSteps(Initial(namespaces, clock), steps).jobs[id]);
  }

  lemma OkRowSays(id: string, job: Job)
    requires RowOk(id, job)
    ensures JobSays(id, job)
  {
    hide StagingKey;
  }
}
