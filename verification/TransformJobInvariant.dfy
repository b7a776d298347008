/** What holds of the jobs, refs and tables in every reachable state. */
module TransformJobInvariant {
  import opened Text
  import opened Json
  import opened Registry
  import opened TransformJobs
  import JsonSameness
  import Keyset

  // ---- The invariant ----

  /** A row alone: the table's checks hold, it decodes, fenced rows have been claimed, staging keys belong
      to fenced or completed rows, and only completed rows have an output. */
  ghost predicate RowOk(id: string, job: Job) {
    && ChecksHold(id, job)
    && Decodes(job)
    && (job.leaseToken.Some? ==> job.attempt >= 1)
    && (!NoKeys(job) ==> job.leaseToken.Some? || job.status.Completed?)
    && (job.outputCount.Some? <==> job.status.Completed?)
  }

  /** The run that a completed row answers to: the same computation, the same output, the same count. */
  ghost predicate Answered(t: Tables, job: Job) {
    && job.identity.cacheKey in t.runs
    && RunAnswers(t.runs[job.identity.cacheKey], job.identity)
    && job.outputVersion == Some(t.runs[job.identity.cacheKey].outputVersion)
    && job.outputVersion.value in t.snapshots
    && job.outputCount == Some(t.snapshots[job.outputVersion.value].numRecords)
  }

  /** A row among the other tables. */
  ghost predicate RowGrounded(t: Tables, namespaces: set<string>, job: Job) {
    && job.identity.inputVersion in t.snapshots
    && t.snapshots[job.identity.inputVersion].numRecords == job.identity.inputCount
    && (job.refNamespace.Some? ==> job.refNamespace.value in namespaces)
    && (job.refVersion.Some? ==> job.refVersion.value in t.snapshots)
    && (job.status.Completed? ==> Answered(t, job))
  }

  ghost predicate RefsOk(t: Tables, namespaces: set<string>, refs: map<RefKey, RefRow>) {
    forall key | key in refs :: key.namespaceId in namespaces && refs[key].version in t.snapshots
  }

  /** At most one row holds a lease token. */
  ghost predicate SingleFence(jobs: map<string, Job>) {
    forall a, b | a in jobs && b in jobs && jobs[a].leaseToken.Some? && jobs[b].leaseToken.Some? :: a == b
  }

  ghost predicate RowsOk(t: Tables, namespaces: set<string>, jobs: map<string, Job>) {
    forall id | id in jobs :: RowOk(id, jobs[id]) && RowGrounded(t, namespaces, jobs[id])
  }

  ghost predicate Inv(db: Db) {
    && Consistent(db.tables)
    && RefsOk(db.tables, db.namespaces, db.refs)
    && RowsOk(db.tables, db.namespaces, db.jobs)
    && SingleFence(db.jobs)
  }

  // ---- Same JSON is an equivalence ----

  lemma SameJsonIsEquivalence(a: StoredJson, b: StoredJson, c: StoredJson)
    ensures SameJson(a, a)
    ensures SameJson(a, b) ==> SameJson(b, a)
    ensures SameJson(a, b) && SameJson(b, c) ==> SameJson(a, c)
  {
    hide SameJson, WellFormed, Normal;
    JsonSameness.SameJsonIsNormalEquality(a, a);
    JsonSameness.SameJsonIsNormalEquality(a, b);
    JsonSameness.SameJsonIsNormalEquality(b, a);
    JsonSameness.SameJsonIsNormalEquality(b, c);
    JsonSameness.SameJsonIsNormalEquality(a, c);
  }

  // ---- Moving the parts of the state ----

  lemma RowsStayGrounded(t: Tables, u: Tables, namespaces: set<string>, job: Job)
    requires RowGrounded(t, namespaces, job) && Evolves(t, u)
    ensures RowGrounded(u, namespaces, job)
  {
    assert Kept(t.snapshots, u.snapshots) && Kept(t.runs, u.runs);
    hide Evolves, RunAnswers;
  }

  lemma TablesMayEvolve(db: Db, u: Tables)
    requires Inv(db) && Consistent(u) && Evolves(db.tables, u)
    ensures Inv(db.(tables := u))
  {
    assert Kept(db.tables.snapshots, u.snapshots);
    hide Consistent, RowGrounded, RowOk;
    forall id | id in db.jobs ensures RowGrounded(u, db.namespaces, db.jobs[id]) {
      RowsStayGrounded(db.tables, u, db.namespaces, db.jobs[id]);
    }
    hide Evolves;
  }

  lemma TimeMayPass(db: Db, clock: int)
    requires Inv(db)
    ensures Inv(db.(clock := clock))
  {
  }

  /** A row may be replaced by another good one that does not add a fence. */
  lemma RowMayChange(db: Db, id: string, job: Job)
    requires Inv(db) && RowOk(id, job) && RowGrounded(db.tables, db.namespaces, job)
    requires job.leaseToken.Some? ==> forall other | other in db.jobs && db.jobs[other].leaseToken.Some? :: other == id
    ensures Inv(db.(jobs := db.jobs[id := job]))
  {
    hide Consistent, RowGrounded, RowOk, RefsOk;
  }

  lemma RefsMayChange(db: Db, refs: map<RefKey, RefRow>)
    requires Inv(db) && RefsOk(db.tables, db.namespaces, refs)
    ensures Inv(db.(refs := refs))
  {
  }

  // ---- Calls on one row ----

  /** What a guarded update may do to a row. */
  lemma WrittenIsOk(id: string, job: Job, now: int, call: Call)
    requires RowOk(id, job) && IsRowCall(call) && TargetOf(call) == id && ValidRowCall(call)
    requires Written(job, now, call).Some?
    ensures var row := Written(job, now, call).value;
            && RowOk(id, row)
            && row.identity == job.identity
            && (row.leaseToken.Some? ==> job.leaseToken.Some?)
            && (row.status.Completed? <==> job.status.Completed?)
            && (row.outputVersion, row.outputCount, row.refNamespace, row.refVersion)
               == (job.outputVersion, job.outputCount, job.refNamespace, job.refVersion)
  {
    hide StagingKey, JobId;
  }

  lemma SameOutputsStayGrounded(t: Tables, namespaces: set<string>, job: Job, row: Job)
    requires RowGrounded(t, namespaces, job)
    requires row.identity == job.identity && (row.status.Completed? <==> job.status.Completed?)
    requires (row.outputVersion, row.outputCount, row.refNamespace, row.refVersion)
          == (job.outputVersion, job.outputCount, job.refNamespace, job.refVersion)
    ensures RowGrounded(t, namespaces, row)
  {
    hide RunAnswers;
  }

  lemma RowCallKeepsInv(db: Db, call: Call)
    requires Inv(db) && IsRowCall(call)
    ensures Inv(AfterRowCall(db, call))
  {
    hide Consistent, RowGrounded, RowOk, RefsOk, Written, ValidRowCall;
    var id := TargetOf(call);
    if ValidRowCall(call) && id in db.jobs {
      var job := db.jobs[id];
      match Written(job, db.clock, call) {
        case None =>
        case Some(row) =>
          WrittenIsOk(id, job, db.clock, call);
          SameOutputsStayGrounded(db.tables, db.namespaces, job, row);
          RowMayChange(db, id, row);
      }
    }
  }

  // ---- Claims and expiry ----

  lemma ClaimKeepsInv(db: Db, owner: string, durationMs: int, token: Token)
    requires Inv(db) && |token| == 32
    ensures Inv(AfterClaim(db, owner, durationMs, token))
  {
    if ValidDuration(durationMs) && !FenceHeld(db.jobs) && QueueKeys(db.jobs) != {} {
      var id := NextJob(db.jobs);
      var job := db.jobs[id];
      if job.attempt < POSTGRES_INTEGER_MAX {
        var row := Claimed(job, owner, durationMs, token, db.clock);
        ClaimedIsOk(id, job, owner, durationMs, token, db.clock);
        hide Consistent, RowOk, RefsOk, Claimed, QueueKeys, RunAnswers;
        SameOutputsStayGrounded(db.tables, db.namespaces, job, row);
        RowMayChange(db, id, row);
      }
    }
  }

  lemma ClaimedIsOk(id: string, job: Job, owner: string, durationMs: int, token: Token, now: int)
    requires RowOk(id, job) && job.status.Queued? && job.attempt < POSTGRES_INTEGER_MAX && |token| == 32
    ensures RowOk(id, Claimed(job, owner, durationMs, token, now))
  {
    hide StagingKey, JobId;
  }

  lemma ExpiryKeepsInv(db: Db)
    requires Inv(db)
    ensures Inv(AfterFailExpired(db))
  {
    hide Consistent, RowOk, RowGrounded, RefsOk;
    var jobs := AfterFailExpired(db).jobs;
    forall id | id in jobs ensures RowOk(id, jobs[id]) && RowGrounded(db.tables, db.namespaces, jobs[id]) {
      ExpiredIsOk(id, db.jobs[id], db.clock);
      SameOutputsStayGrounded(db.tables, db.namespaces, db.jobs[id], jobs[id]);
    }
  }

  lemma ExpiredIsOk(id: string, job: Job, now: int)
    requires RowOk(id, job)
    ensures RowOk(id, Expire(job, now))
  {
    hide StagingKey, JobId;
  }

  // ---- Refs ----

  lemma AdoptionIsOk(t: Tables, namespaces: set<string>, refs: map<RefKey, RefRow>, key: RefKey, version: string)
    requires RefsOk(t, namespaces, refs) && version in t.snapshots
    ensures match Adopt(namespaces, refs, key, version)
            case Throws(error) => error == ConstraintViolation && key.namespaceId !in namespaces
            case Ok(adoption) =>
              && RefsOk(t, namespaces, adoption.refs)
              && !adoption.status.Pending?
              && (adoption.status.Updated? ==> adoption.version == version)
              && adoption.version in t.snapshots
  {
  }

  ghost predicate NamedOk(t: Tables, namespaces: set<string>, named: (map<RefKey, RefRow>, Option<Adoption>), wanted: bool, version: string) {
    && RefsOk(t, namespaces, named.0)
    && (named.1.Some? <==> wanted)
    && (named.1.Some? ==>
          && !named.1.value.status.Pending?
          && (named.1.value.status.Updated? ==> named.1.value.version == version)
          && named.1.value.version in t.snapshots)
  }

  lemma NamedAdoptionIsOk(t: Tables, namespaces: set<string>, refs: map<RefKey, RefRow>, namespaceId: Option<string>,
                          name: Option<string>, version: string)
    requires RefsOk(t, namespaces, refs) && version in t.snapshots
    ensures match AdoptNamed(namespaces, refs, namespaceId, name, version)
            case Throws(error) => error == ConstraintViolation && namespaceId.Some? && namespaceId.value !in namespaces
            case Ok(named) => NamedOk(t, namespaces, named, namespaceId.Some? && name.Some?, version)
  {
    hide RefsOk, Adopt;
    if namespaceId.Some? && name.Some? {
      AdoptionIsOk(t, namespaces, refs, RefKey(namespaceId.value, name.value), version);
    }
  }

  // ---- Creation ----

  ghost predicate DraftOk(db: Db, id: string, draft: Draft) {
    && RefsOk(db.tables, db.namespaces, draft.refs)
    && RowOk(id, draft.row)
    && RowGrounded(db.tables, db.namespaces, draft.row)
    && (draft.row.leaseToken.Some? ==> id in db.jobs && db.jobs[id].leaseToken.Some?)
  }

  lemma NewRowIsOk(db: Db, create: CreateJob, run: Option<Run>, named: (map<RefKey, RefRow>, Option<Adoption>), appNow: int)
    requires Inv(db) && ValidCreate(create)
    requires run == CachedRun(db.tables, create.identity)
    requires create.identity.inputVersion in db.tables.snapshots
    requires db.tables.snapshots[create.identity.inputVersion].numRecords == create.identity.inputCount
    requires run.Some? ==> RunAnswers(run.value, create.identity) && run.value.outputVersion in db.tables.snapshots
    requires if run.Some? then NamedOk(db.tables, db.namespaces, named, create.refName.Some?, run.value.outputVersion)
             else named == (db.refs, None)
    requires create.refNamespace.Some? ==> create.refNamespace.value in db.namespaces
    ensures var count := if run.Some? then Some(db.tables.snapshots[run.value.outputVersion].numRecords) else None;
            var row := NewRow(create, run, count, named.1, db.clock, appNow);
            ChecksHold(create.id, row) ==> DraftOk(db, create.id, Draft(named.0, row))
  {
    hide Consistent, RowOk, RefsOk, StagingKey, JobId, RunAnswers, RowsOk;
    var count := if run.Some? then Some(db.tables.snapshots[run.value.outputVersion].numRecords) else None;
    var row := NewRow(create, run, count, named.1, db.clock, appNow);
    if ChecksHold(create.id, row) {
      assert Decodes(row);
      NewRowIsRowOk(create.id, row);
    }
  }

  lemma NewRowIsRowOk(id: string, row: Job)
    requires ChecksHold(id, row) && Decodes(row) && NoKeys(row) && NoLease(row)
    requires row.outputCount.Some? <==> row.status.Completed?
    ensures RowOk(id, row)
  {
    hide ChecksHold, Decodes;
  }

  /** If the computation has already run, its run answers the job and its output is no larger than the input. */
  ghost predicate AnswerFits(t: Tables, identity: JobIdentity) {
    CachedRun(t, identity).Some? ==>
      var run := CachedRun(t, identity).value;
      && RunAnswers(run, identity)
      && run.outputVersion in t.snapshots
      && 0 <= t.snapshots[run.outputVersion].numRecords <= identity.inputCount
  }

  lemma InsertIsOk(db: Db, create: CreateJob, appNow: int)
    requires Inv(db) && ValidCreate(create)
    ensures match Insert(db, create, appNow)
            case Throws(error) => !error.ConsistencyError?
            case Ok(draft) => DraftOk(db, create.id, draft) && AnswerFits(db.tables, create.identity)
  {
    hide RowOk, RowGrounded, NewRow, RunAnswers, ChecksHold, RefsOk, AdoptNamed, DraftOk;
    var run := CachedRun(db.tables, create.identity);
    OutputsAreSnapshots(db.tables);
    hide Consistent;
    if Insert(db, create, appNow).Ok? {
      if run.Some? {
        NamedAdoptionIsOk(db.tables, db.namespaces, db.refs, create.refNamespace, create.refName, run.value.outputVersion);
        var named := AdoptNamed(db.namespaces, db.refs, create.refNamespace, create.refName, run.value.outputVersion).value;
        InsertedIsOk(db, create, run, named, appNow);
        var count := Some(db.tables.snapshots[run.value.outputVersion].numRecords);
        NewRowCounts(create, run, count, named.1, db.clock, appNow);
        CheckedCountFits(create.id, NewRow(create, run, count, named.1, db.clock, appNow));
      } else {
        InsertedIsOk(db, create, run, (db.refs, None), appNow);
      }
    } else if run.Some? && run.value.outputVersion in db.tables.snapshots {
      NamedAdoptionIsOk(db.tables, db.namespaces, db.refs, create.refNamespace, create.refName, run.value.outputVersion);
    }
  }

  lemma OutputsAreSnapshots(t: Tables)
    requires Consistent(t)
    ensures forall key | key in t.runs :: t.runs[key].outputVersion in t.snapshots
  {
    assert forall key | key in t.runs :: RunIsGrounded(key, t.runs[key], t.snapshots, t.sequence);
  }

  lemma InsertedIsOk(db: Db, create: CreateJob, run: Option<Run>, named: (map<RefKey, RefRow>, Option<Adoption>), appNow: int)
    requires Inv(db) && ValidCreate(create)
    requires run == CachedRun(db.tables, create.identity)
    requires create.identity.inputVersion in db.tables.snapshots
    requires db.tables.snapshots[create.identity.inputVersion].numRecords == create.identity.inputCount
    requires run.Some? ==> RunAnswers(run.value, create.identity) && run.value.outputVersion in db.tables.snapshots
    requires if run.Some? then NamedOk(db.tables, db.namespaces, named, create.refName.Some?, run.value.outputVersion)
             else named == (db.refs, None)
    ensures var count := if run.Some? then Some(db.tables.snapshots[run.value.outputVersion].numRecords) else None;
            var row := NewRow(create, run, count, named.1, db.clock, appNow);
            && (create.id in db.jobs ==> DraftOk(db, create.id, Draft(named.0, db.jobs[create.id])))
            && (create.id !in db.jobs && ChecksHold(create.id, row) &&
                (create.refNamespace.Some? ==> create.refNamespace.value in db.namespaces) ==>
                  DraftOk(db, create.id, Draft(named.0, row)))
  {
    hide RowOk, RowGrounded, NewRow, RunAnswers, ChecksHold, RefsOk, Consistent;
    if create.refNamespace.Some? ==> create.refNamespace.value in db.namespaces {
      NewRowIsOk(db, create, run, named, appNow);
    }
  }

  lemma CheckedCountFits(id: string, row: Job)
    requires ChecksHold(id, row) && row.outputCount.Some?
    ensures 0 <= row.outputCount.value <= row.identity.inputCount
  {
  }

  lemma NewRowCounts(create: CreateJob, run: Option<Run>, count: Option<int>, adoption: Option<Adoption>, now: int, appNow: int)
    ensures NewRow(create, run, count, adoption, now, appNow).outputCount == count
    ensures NewRow(create, run, count, adoption, now, appNow).identity == create.identity
  {
  }

  lemma SameJobSameAnswer(t: Tables, row: Job, create: CreateJob)
    requires SameJob(row, create) && AnswerFits(t, create.identity)
    ensures AnswerFits(t, row.identity)
  {
    var key := create.identity.cacheKey;
    assert row.identity.cacheKey == row.identity.(params := Null).cacheKey == create.identity.(params := Null).cacheKey == key;
    if key in t.runs {
      SameJsonIsEquivalence(t.runs[key].params, create.identity.params, row.identity.params);
      SameJsonIsEquivalence(row.identity.params, create.identity.params, row.identity.params);
      hide SameJson;
      var a, b := row.identity.(params := Null), create.identity.(params := Null);
      assert (a.op, a.opVersion, a.inputVersion, a.inputCount) == (b.op, b.opVersion, b.inputVersion, b.inputCount);
    }
  }

  lemma AttachIsOk(db: Db, draft: Draft, create: CreateJob)
    requires Inv(db) && DraftOk(db, create.id, draft) && ValidCreate(create)
    ensures match Attach(db, draft, create)
            case Throws(error) => error == ConstraintViolation && create.refNamespace.Some? && create.refNamespace.value !in db.namespaces
            case Ok(attached) =>
              && DraftOk(db, create.id, attached)
              && attached.row.identity == draft.row.identity
  {
    hide RefsOk, Adopt, RunAnswers, Consistent, RowsOk, StagingKey, JobId;
    var row := draft.row;
    if row.status.Completed? && create.refNamespace.Some? && create.refName.Some? {
      AdoptionIsOk(db.tables, db.namespaces, draft.refs, RefKey(create.refNamespace.value, create.refName.value), row.outputVersion.value);
    }
  }

  lemma SettleIsOk(db: Db, id: string, draft: Draft)
    requires Inv(db) && DraftOk(db, id, draft) && AnswerFits(db.tables, draft.row.identity)
    ensures Settle(db, draft, db.clock).Ok?
    ensures DraftOk(db, id, Settle(db, draft, db.clock).value) && Decodes(Settle(db, draft, db.clock).value.row)
  {
    var row := draft.row;
    var run := CachedRun(db.tables, row.identity);
    if run.Some? && row.status.Queued? && row.attempt == 0 {
      hide RefsOk, AdoptNamed, RunAnswers, Consistent, RowsOk, StagingKey;
      NamedAdoptionIsOk(db.tables, db.namespaces, draft.refs, row.refNamespace, row.refName, run.value.outputVersion);
    } else {
      hide RefsOk, AdoptNamed, RunAnswers, Consistent, RowsOk, ChecksHold;
    }
  }

  /** Creation keeps the draft good, never meets the inconsistencies it guards against, and violates a
      constraint only for an unknown namespace or a cached output larger than its input. */
  lemma CreatedIsOk(db: Db, create: CreateJob, appNow: int)
    requires Inv(db)
    ensures match Created(db, create, appNow)
            case Throws(error) => !error.ConsistencyError? && !error.LeaseError? && !error.RegistrationError?
            case Ok(draft) => DraftOk(db, create.id, draft)
  {
    hide Inv, DraftOk, Insert, Attach, Settle, SameJob, AnswerFits, Decodes;
    if ValidCreate(create) {
      InsertIsOk(db, create, appNow);
      InsertErrors(db, create, appNow);
      match Insert(db, create, appNow) {
        case Throws(_) =>
        case Ok(inserted) =>
          if SameJob(inserted.row, create) {
            AttachIsOk(db, inserted, create);
            SameJobSameAnswer(db.tables, inserted.row, create);
            match Attach(db, inserted, create) {
              case Throws(_) =>
              case Ok(attached) => SettleIsOk(db, create.id, attached);
            }
          }
      }
    }
  }

  lemma InsertErrors(db: Db, create: CreateJob, appNow: int)
    ensures Insert(db, create, appNow).Throws? ==>
              !Insert(db, create, appNow).error.LeaseError? && !Insert(db, create, appNow).error.RegistrationError?
  {
    hide NewRow, ChecksHold, RunAnswers;
  }

  lemma CreateKeepsInv(db: Db, create: CreateJob, appNow: int)
    requires Inv(db)
    ensures Inv(AfterCreate(db, create, appNow))
  {
    hide Created, Consistent, RowOk, RowGrounded, RefsOk;
    CreatedIsOk(db, create, appNow);
    match Created(db, create, appNow) {
      case Throws(_) =>
      case Ok(draft) =>
        RefsMayChange(db, draft.refs);
        RowMayChange(db.(refs := draft.refs), create.id, draft.row);
    }
  }

  // ---- Completion ----

  /** After its run is registered, a completion's row is answered by it. */
  lemma RegisteredAnswers(t: Tables, row: Job, c: Completion)
    requires |c.run.inputVersions| == 1 && RunRegisters(t, c.run) && CompletionMatches(row, c)
    requires c.run.id == "run_" + c.run.cacheKey
    ensures var u := WithRun(t, c.run);
            && c.run.cacheKey in u.runs
            && RunAnswers(u.runs[c.run.cacheKey], row.identity)
            && u.runs[c.run.cacheKey].outputVersion == c.run.outputVersion
  {
    assert c.run.inputVersions == [c.run.inputVersions[0]];
    if c.run.cacheKey in t.runs {
      SameJsonIsEquivalence(t.runs[c.run.cacheKey].params, c.run.params, row.identity.params);
    }
    SameJsonIsEquivalence(row.identity.params, c.run.params, row.identity.params);
    hide SameJson;
  }

  lemma FinishedIsOk(db: Db, row: Job, c: Completion, named: (map<RefKey, RefRow>, Option<Adoption>), cacheHit: bool, later: int)
    requires RowOk(c.lease.id, row) && RowGrounded(db.tables, db.namespaces, row)
    requires row.status.Finalizing? && Matches(row, c.lease)
    requires |c.run.inputVersions| == 1 && CompletionMatches(row, c) && 0 <= c.outputCount
    requires c.run.outputVersion in db.tables.snapshots
    requires db.tables.snapshots[c.run.outputVersion].numRecords == c.outputCount
    requires NamedOk(db.tables, db.namespaces, named, row.refNamespace.Some? && row.refName.Some?, c.run.outputVersion)
    requires c.run.cacheKey in db.tables.runs && RunAnswers(db.tables.runs[c.run.cacheKey], row.identity)
    requires db.tables.runs[c.run.cacheKey].outputVersion == c.run.outputVersion
    ensures var finished := Finished(row, c, named.1, cacheHit, later);
            RowOk(c.lease.id, finished) && RowGrounded(db.tables, db.namespaces, finished)
  {
    hide RunAnswers, StagingKey, JobId, SameJson, RefsOk;
  }

  lemma FinishIsOk(db: Db, u: Tables, row: Job, c: Completion, cacheHit: bool, later: int)
    requires Inv(db) && c.lease.id in db.jobs && db.jobs[c.lease.id] == row
    requires |c.run.inputVersions| == 1 && CompletionMatches(row, c) && 0 <= c.outputCount
    requires c.run.outputVersion in u.snapshots && u.snapshots[c.run.outputVersion].numRecords == c.outputCount
    requires Consistent(u) && Evolves(db.tables, u)
    requires c.run.cacheKey in u.runs && RunAnswers(u.runs[c.run.cacheKey], row.identity)
    requires u.runs[c.run.cacheKey].outputVersion == c.run.outputVersion
    ensures match Finish(db, row, c, cacheHit, later)
            case Throws(error) => error == LeaseError
            case Ok(draft) =>
              Inv(db.(tables := u, refs := draft.refs, jobs := db.jobs[c.lease.id := draft.row]))
  {
    TablesMayEvolve(db, u);
    var moved := db.(tables := u);
    hide Consistent, Evolves, RunAnswers, AdoptNamed, RowsOk, RefsOk, Finished;
    NamedAdoptionIsOk(moved.tables, moved.namespaces, db.refs, row.refNamespace, row.refName, c.run.outputVersion);
    match AdoptNamed(db.namespaces, db.refs, row.refNamespace, row.refName, c.run.outputVersion) {
      case Throws(_) =>
      case Ok((refs, adoption)) =>
        if row.status.Finalizing? && Holds(row, c.lease, later) {
          var finished := Finished(row, c, adoption, cacheHit, later);
          FinishedIsOk(moved, row, c, (refs, adoption), cacheHit, later);
          RefsMayChange(moved, refs);
          RowMayChange(moved.(refs := refs), c.lease.id, finished);
        }
    }
  }

  lemma CompletionKeepsInv(db: Db, c: Completion, elapsed: nat)
    requires Inv(db)
    ensures Inv(Completing(db, c, elapsed).0)
    ensures Completing(db, c, elapsed).1.Throws? ==> !Completing(db, c, elapsed).1.error.ConsistencyError?
    ensures Completing(db, c, elapsed).1.Throws? ==> !Completing(db, c, elapsed).1.error.ConstraintViolation?
  {
    hide Inv, ValidLayoutInput, LayoutRegisters, WithLayout, CompletionMatches, Readback, Admitted, FinishRegistered, ValidLease;
    var waited := db.(clock := db.clock + elapsed);
    TimeMayPass(db, db.clock + elapsed);
    if ValidCompletion(c) && c.lease.id in db.jobs && CompletionMatches(db.jobs[c.lease.id], c) {
      var row := db.jobs[c.lease.id];
      if row.status.Completed? {
        ReadbackIsOk(db, row, c);
      } else {
        AdmittedIsOk(db, c.lease.id, row, c);
        if Admitted(db, row, c).Ok? && LayoutRegisters(db.tables, c.layout) {
          FinishRegisteredKeepsInv(waited, row, c);
        }
      }
    }
  }

  /** A completed row always reads back to a repeated completion with the same output. */
  lemma ReadbackIsOk(db: Db, row: Job, c: Completion)
    requires Inv(db) && c.lease.id in db.jobs && db.jobs[c.lease.id] == row && row.status.Completed?
    requires ValidCompletion(c) && CompletionMatches(row, c)
    ensures Readback(db, row, c) ==
            if row.attempt == c.lease.attempt && row.outputVersion == Some(c.run.outputVersion) && row.outputCount == Some(c.outputCount)
            then Ok(row) else Throws(LeaseError)
  {
    hide Consistent, RefsOk, ChecksHold, ValidLayoutInput, StagingKey;
    assert RowOk(c.lease.id, row) && RowGrounded(db.tables, db.namespaces, row);
    var run := db.tables.runs[row.identity.cacheKey];
    SameJsonIsEquivalence(run.params, row.identity.params, c.run.params);
    assert c.run.inputVersions == [c.run.inputVersions[0]];
    hide SameJson;
  }

  lemma AdmittedIsOk(db: Db, id: string, row: Job, c: Completion)
    requires Inv(db) && id in db.jobs && db.jobs[id] == row
    ensures match Admitted(db, row, c)
            case Throws(error) => error.LeaseError? || error.InputError?
            case Ok(admitted) => admitted == row
  {
    hide Consistent, RefsOk, RowOk, StagingKey, Answered;
    assert RowGrounded(db.tables, db.namespaces, row);
  }

  lemma FinishRegisteredKeepsInv(db: Db, row: Job, c: Completion)
    requires Inv(db) && c.lease.id in db.jobs && db.jobs[c.lease.id] == row
    requires ValidCompletion(c) && CompletionMatches(row, c) && LayoutRegisters(db.tables, c.layout)
    ensures var (after, result) := FinishRegistered(db, WithLayout(db.tables, c.layout), row, c);
            && Inv(after)
            && (result.Throws? ==> result.error.RegistrationError? || result.error.LeaseError?)
  {
    hide Inv, ValidLayoutInput, LayoutRegisters, Consistent, Evolves, CompletionMatches, Finish, RunRegisters, WithRun, RunAnswers, WithLayout, ValidLease;
    var t := WithLayout(db.tables, c.layout);
    InvIsConsistent(db);
    SkippedNumbersAreHarmless(db.tables);
    TablesMayEvolve(db, db.tables.(sequence := db.tables.sequence + 1));
    LayoutKeepsTables(db.tables, c.layout);
    if RunRegisters(t, c.run) {
      var u := WithRun(t, c.run);
      RunKeepsTables(t, c.run);
      EvolvesOnwards(db.tables, t, u);
      RegisteredAnswers(t, row, c);
      OutputIsRegistered(db.tables, c);
      FinishIsOk(db, u, row, c, c.run.cacheKey in t.runs, db.clock);
      var drawn := db.(tables := db.tables.(sequence := db.tables.sequence + 1));
      FinishLooksAtRow(db, drawn, row, c, c.run.cacheKey in t.runs);
    }
  }

  lemma InvIsConsistent(db: Db)
    requires Inv(db)
    ensures Consistent(db.tables)
  {
  }

  lemma OutputIsRegistered(t: Tables, c: Completion)
    requires ValidCompletion(c)
    ensures var u := WithRun(WithLayout(t, c.layout), c.run);
            && c.run.outputVersion in u.snapshots
            && u.snapshots[c.run.outputVersion].numRecords == c.outputCount
  {
    hide ValidLayoutInput, Lineage.Committed;
  }

  lemma FinishLooksAtRow(a: Db, b: Db, row: Job, c: Completion, cacheHit: bool)
    requires a.namespaces == b.namespaces && a.refs == b.refs && a.clock == b.clock
    ensures Finish(a, row, c, cacheHit, a.clock) == Finish(b, row, c, cacheHit, b.clock)
  {
    hide AdoptNamed, ChecksHold, Decodes, Finished;
  }

  // ---- Every step, every run ----

  ghost predicate ValidStep(step: Step) {
    // The claim draws 32 random bytes.
    step.call.Claim? ==> |step.call.token| == 32
  }

  lemma RegistrationStepKeepsInv(db: Db, registration: Registration)
    requires Inv(db)
    ensures Inv(db.(tables := Registry.After(db.tables, registration)))
  {
    RegistrationKeepsTables(db.tables, registration);
    TablesMayEvolve(db, Registry.After(db.tables, registration));
  }

  lemma WrittenRefKeepsInv(db: Db, key: RefKey, row: RefRow)
    requires Inv(db) && key.namespaceId in db.namespaces && row.version in db.tables.snapshots
    ensures Inv(db.(refs := db.refs[key := row]))
  {
    hide Consistent, RowsOk;
    RefsMayChange(db, db.refs[key := row]);
  }

  lemma CallKeepsInv(db: Db, call: Call)
    requires Inv(db) && ValidStep(Step(0, call))
    ensures Inv(Apply(db, call))
  {
    hide Inv, AfterCreate, AfterClaim, AfterFailExpired, Completing, AfterRowCall;
    match call {
      case CreateOrRead(create, appNow) => CreateKeepsInv(db, create, appNow);
      case Claim(owner, durationMs, token) => ClaimKeepsInv(db, owner, durationMs, token);
      case FailExpired => ExpiryKeepsInv(db);
      case Complete(completion, elapsed) => CompletionKeepsInv(db, completion, elapsed);
      case Register(registration) => RegistrationStepKeepsInv(db, registration);
      case WriteRef(key, row) =>
        if key.namespaceId in db.namespaces && row.version in db.tables.snapshots {
          WrittenRefKeepsInv(db, key, row);
        }
      case _ => RowCallKeepsInv(db, call);
    }
  }

  lemma StepKeepsInv(db: Db, step: Step)
    requires Inv(db) && ValidStep(step)
    ensures Inv(Next(db, step))
  {
    hide Inv, Apply;
    TimeMayPass(db, db.clock + step.wait);
    CallKeepsInv(db.(clock := db.clock + step.wait), step.call);
  }

  /** Every step keeps the invariant, and so every reachable state has it. */
  lemma {:induction false} RunKeepsInv(db: Db, steps: seq<Step>)
    requires Inv(db) && forall step | step in steps :: ValidStep(step)
    ensures Inv(AfterSteps(db, steps))
    decreases |steps|
  {
    hide Inv, Apply;
    if steps != [] {
      var step := steps[0];
      assert ValidStep(step);
      StepKeepsInv(db, step);
      RunKeepsInv(Next(db, step), steps[1..]);
    }
  }
}
