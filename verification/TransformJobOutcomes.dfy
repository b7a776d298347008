/** What creating and completing a job commits, from the request and the tables alone: the row in every column,
    the ref, and when each is refused. */
module TransformJobOutcomes {
  import opened Text
  import opened Json
  import opened Registry
  import opened TransformJobs
  import opened TransformJobInvariant
  import opened TransformJobTheorems
  import JsonSameness
  import Lineage

  // ---- Creation ----

  /** A well-formed request whose input and namespace are known. */
  ghost predicate Sound(db: Db, create: CreateJob) {
    && create.id == "job_" + create.identity.cacheKey
    && create.identity.inputVersion in db.tables.snapshots
    && db.tables.snapshots[create.identity.inputVersion].numRecords == create.identity.inputCount <= 9223372036854775807
    && (create.refNamespace == None <==> create.refName == None)
    && (create.refNamespace == None || create.refNamespace.value in db.namespaces)
  }

  /** The run registered for the computation is that computation, and its output of `count` records fits. */
  ghost predicate Answers(t: Tables, identity: JobIdentity, run: Run, count: int) {
    && identity.cacheKey in t.runs && t.runs[identity.cacheKey] == run
    && (run.op, run.opVersion) == (identity.op, identity.opVersion)
    && CanonicalJsonV2(run.params) == CanonicalJsonV2(identity.params)
    && run.inputVersions == [identity.inputVersion]
    && run.outputVersion in t.snapshots && t.snapshots[run.outputVersion].numRecords == count <= identity.inputCount
  }

  /** The creation commits this row and these refs, and answers with the row. */
  ghost predicate Commits(db: Db, create: CreateJob, appNow: int, refs: map<RefKey, RefRow>, row: Job) {
    && Apply(db, CreateOrRead(create, appNow)) == db.(refs := refs, jobs := db.jobs[create.id := row])
    && Created(db, create, appNow) == Ok(Draft(refs, row))
  }

  lemma AnswersAgree(t: Tables, identity: JobIdentity, run: Run, count: int)
    requires Consistent(t) && Answers(t, identity, run, count)
    ensures CachedRun(t, identity) == Some(run) && RunAnswers(run, identity) && count >= 0
  {
    assert RunIsGrounded(identity.cacheKey, run, t.snapshots, t.sequence);
    JsonSameness.SameJsonIsSameText(run.params, identity.params);
    hide SameJson, CanonicalJsonV2;
  }

  lemma SoundIsValid(db: Db, create: CreateJob)
    requires Inv(db) && Sound(db, create)
    ensures Consistent(db.tables) && ValidCreate(create)
  {
  }

  // ---- The stages of a creation ----

  lemma CreatedStages(db: Db, create: CreateJob, appNow: int)
    requires Created(db, create, appNow).Ok?
    ensures Insert(db, create, appNow).Ok? && Attach(db, Insert(db, create, appNow).value, create).Ok?
    ensures Created(db, create, appNow) == Settle(db, Attach(db, Insert(db, create, appNow).value, create).value, db.clock)
    ensures var draft := Created(db, create, appNow).value;
            Apply(db, CreateOrRead(create, appNow)) == db.(refs := draft.refs, jobs := db.jobs[create.id := draft.row])
  {
    hide Insert, Attach, Settle, SameJob, Decodes, ValidCreate;
  }

  lemma NothingToAttach(db: Db, draft: Draft, create: CreateJob)
    requires draft.row.refName != None || create.refName == None
    ensures Attach(db, draft, create) == Ok(draft)
  {
    hide Adopt;
  }

  lemma NothingToSettle(db: Db, draft: Draft)
    requires Settle(db, draft, db.clock).Ok?
    requires draft.row.identity.cacheKey !in db.tables.runs || draft.row.status != Queued || draft.row.attempt > 0
    ensures Settle(db, draft, db.clock) == Ok(draft)
  {
    hide AdoptNamed, ChecksHold;
  }

  /** The row under the name that the request gives it, if it has none. */
  function Named(row: Job, create: CreateJob): Job {
    if row.refName != None || create.refName == None then row
    else row.(refNamespace := create.refNamespace, refName := create.refName, refStatus := Some(Pending), refVersion := None)
  }

  lemma QueuedRowIsNamed(db: Db, draft: Draft, create: CreateJob)
    requires draft.row.status != Completed && Attach(db, draft, create).Ok? && (create.refNamespace == None <==> create.refName == None)
    ensures Attach(db, draft, create) == Ok(Draft(draft.refs, Named(draft.row, create)))
  {
    hide Adopt;
  }

  /** Adopting a name twice is adopting it once. */
  lemma NamedAgain(namespaces: set<string>, refs: map<RefKey, RefRow>, namespaceId: Option<string>, name: Option<string>, version: string)
    requires AdoptNamed(namespaces, refs, namespaceId, name, version).Ok?
    ensures var named := AdoptNamed(namespaces, refs, namespaceId, name, version);
            AdoptNamed(namespaces, named.value.0, namespaceId, name, version) == named
  {
  }

  lemma NamedAdoptionDecides(namespaces: set<string>, refs: map<RefKey, RefRow>, row: Job, version: string)
    requires row.refNamespace == None <==> row.refName == None
    requires row.refNamespace == None || row.refNamespace.value in namespaces
    requires AdoptNamed(namespaces, refs, row.refNamespace, row.refName, version).Ok? ==>
               var adoption := AdoptNamed(namespaces, refs, row.refNamespace, row.refName, version).value.1;
               && row.refStatus == (if adoption.Some? then Some(adoption.value.status) else None)
               && row.refVersion == (if adoption.Some? then Some(adoption.value.version) else None)
    ensures AdoptNamed(namespaces, refs, row.refNamespace, row.refName, version).Ok?
    ensures DecidesRef(refs, AdoptNamed(namespaces, refs, row.refNamespace, row.refName, version).value.0, row, version)
  {
  }

  function WithRef(row: Job, adoption: Option<Adoption>): Job {
    row.(refStatus := if adoption.Some? then Some(adoption.value.status) else None,
         refVersion := if adoption.Some? then Some(adoption.value.version) else None)
  }

  lemma CompletedRowIsNamed(db: Db, draft: Draft, create: CreateJob)
    requires draft.row.status == Completed && draft.row.outputVersion != None && Attach(db, draft, create).Ok?
    requires draft.row.refName == None && create.refName != None && create.refNamespace != None
    ensures var named := AdoptNamed(db.namespaces, draft.refs, create.refNamespace, create.refName, draft.row.outputVersion.value);
            named.Ok? &&
            Attach(db, draft, create) == Ok(Draft(named.value.0, WithRef(Named(draft.row, create), named.value.1)))
  {
    hide Adopt;
  }

  lemma RowIsSettled(db: Db, draft: Draft, run: Run, count: int)
    requires Settle(db, draft, db.clock).Ok? && CachedRun(db.tables, draft.row.identity) == Some(run)
    requires draft.row.status == Queued && draft.row.attempt == 0 && draft.row.leaseToken == None
    requires run.outputVersion in db.tables.snapshots && db.tables.snapshots[run.outputVersion].numRecords == count
    ensures var row := draft.row;
            var named := AdoptNamed(db.namespaces, draft.refs, row.refNamespace, row.refName, run.outputVersion);
            named.Ok? &&
            Settle(db, draft, db.clock) ==
            Ok(Draft(named.value.0,
                     WithRef(row.(status := Completed, outputVersion := Some(run.outputVersion), outputCount := Some(count),
                                  cacheHit := true, finishedAt := Some(db.clock)), named.value.1)))
  {
    hide AdoptNamed, ChecksHold;
  }

  // ---- New jobs ----

  /** A job nobody has asked for or computed before is queued, with nothing but its request filled in. */
  lemma NewJobIsQueued(db: Db, create: CreateJob, appNow: int)
    requires Inv(db) && Sound(db, create)
    requires create.id !in db.jobs && create.identity.cacheKey !in db.tables.runs
    ensures Commits(db, create, appNow, db.refs,
                    Job(create.identity, Queued, 0, None, None, None, None, None, None, None, None,
                        create.refNamespace, create.refName, if create.refName == None then None else Some(Pending), None,
                        false, None, db.clock, None, None))
  {
    hide Inv, Insert, Attach, Settle, Created, Apply, Sound, ValidCreate, SameJob;
    SoundRequestSucceeds(db, create, appNow);
    CreatedStages(db, create, appNow);
    InsertedUncached(db, create, appNow);
    var draft := Insert(db, create, appNow).value;
    NothingToAttach(db, draft, create);
    NothingToSettle(db, draft);
  }

  lemma SoundRequestSucceeds(db: Db, create: CreateJob, appNow: int)
    requires Inv(db) && Sound(db, create)
    requires create.id in db.jobs ==> Agrees(db.jobs[create.id], create)
    requires create.identity.cacheKey in db.tables.runs ==>
               exists count :: Answers(db.tables, create.identity, db.tables.runs[create.identity.cacheKey], count)
    ensures Created(db, create, appNow).Ok? && ValidCreate(create)
  {
    hide Agrees, Answers, AnswerTooLarge, RunAnswers, SameJob;
    SoundIsValid(db, create);
    hide Inv, Consistent, Created, ValidCreate;
    if create.id in db.jobs {
      AgreementIsSameJob(db.jobs[create.id], create);
    }
    if create.identity.cacheKey in db.tables.runs {
      var run := db.tables.runs[create.identity.cacheKey];
      var count :| Answers(db.tables, create.identity, run, count);
      AnswersAgree(db.tables, create.identity, run, count);
      AnswerIsSmall(db.tables, create.identity, run, count);
    } else {
      NoRunIsSmall(db.tables, create.identity);
    }
    CreationSucceeds(db, create, appNow);
  }

  lemma NoRunIsSmall(t: Tables, identity: JobIdentity)
    requires identity.cacheKey !in t.runs
    ensures CachedRun(t, identity).None? && !AnswerTooLarge(t, identity)
  {
  }

  lemma InsertedUncached(db: Db, create: CreateJob, appNow: int)
    requires Insert(db, create, appNow).Ok? && create.identity.cacheKey !in db.tables.runs
    ensures var draft := Insert(db, create, appNow).value;
            && draft.refs == db.refs
            && draft.row ==
               if create.id in db.jobs then db.jobs[create.id]
               else Job(create.identity, Queued, 0, None, None, None, None, None, None, None, None,
                        create.refNamespace, create.refName, if create.refName == None then None else Some(Pending), None,
                        false, None, db.clock, None, None)
  {
    hide ChecksHold, RunAnswers;
  }

  lemma InsertedCached(db: Db, create: CreateJob, appNow: int, run: Run)
    requires Insert(db, create, appNow).Ok? && CachedRun(db.tables, create.identity) == Some(run)
    ensures run.outputVersion in db.tables.snapshots
    ensures var named := AdoptNamed(db.namespaces, db.refs, create.refNamespace, create.refName, run.outputVersion);
            && named.Ok?
            && var draft := Insert(db, create, appNow).value;
            && draft.refs == named.value.0
            && draft.row ==
               if create.id in db.jobs then db.jobs[create.id]
               else NewRow(create, Some(run), Some(db.tables.snapshots[run.outputVersion].numRecords), named.value.1, db.clock, appNow)
  {
    hide ChecksHold, RunAnswers, NewRow, AdoptNamed;
  }

  /** The creation commits a completed row, these columns and its decided ref, and nothing else. */
  ghost predicate CommitsAnswer(db: Db, create: CreateJob, appNow: int, row: Job, version: string) {
    && Created(db, create, appNow).Ok?
    && var draft := Created(db, create, appNow).value;
    && draft.row == row.(refStatus := draft.row.refStatus, refVersion := draft.row.refVersion)
    && DecidesRef(db.refs, draft.refs, draft.row, version)
    && Apply(db, CreateOrRead(create, appNow)) == db.(refs := draft.refs, jobs := db.jobs[create.id := draft.row])
  }

  lemma AnswerIsSmall(t: Tables, identity: JobIdentity, run: Run, count: int)
    requires Answers(t, identity, run, count)
    ensures !AnswerTooLarge(t, identity) && t.runs[identity.cacheKey] == run && t.snapshots[run.outputVersion].numRecords == count
  {
  }

  /** A job computed before is completed on the spot, as a cache hit. */
  lemma NewJobIsAnswered(db: Db, create: CreateJob, appNow: int, run: Run, count: int)
    requires Inv(db) && Sound(db, create)
    requires create.id !in db.jobs && Answers(db.tables, create.identity, run, count)
    ensures CommitsAnswer(db, create, appNow,
                          Job(create.identity, Completed, 0, None, None, None, None, None, None, Some(count), Some(run.outputVersion),
                              create.refNamespace, create.refName, None, None, true, None, db.clock, None, Some(appNow)),
                          run.outputVersion)
  {
    hide Insert, Attach, Settle, Created, Apply, ValidCreate, SameJob, Answers, AdoptNamed, DecidesRef, Inv, RunAnswers, AnswerTooLarge;
    CachedIsKnown(db, create, run, count);
    SoundRequestSucceeds(db, create, appNow);
    CreatedStages(db, create, appNow);
    InsertedCached(db, create, appNow, run);
    var draft := Insert(db, create, appNow).value;
    NothingToAttach(db, draft, create);
    NothingToSettle(db, draft);
    OnlyNamesAreAdopted(db.namespaces, db.refs, create.refNamespace, create.refName, run.outputVersion);
    NamedAdoptionDecides(db.namespaces, db.refs, draft.row, run.outputVersion);
  }

  lemma CachedIsKnown(db: Db, create: CreateJob, run: Run, count: int)
    requires Inv(db) && Answers(db.tables, create.identity, run, count)
    ensures CachedRun(db.tables, create.identity) == Some(run)
    ensures run.outputVersion in db.tables.snapshots && db.tables.snapshots[run.outputVersion].numRecords == count
  {
    hide Inv;
  }

  // ---- Refusals ----

  ghost predicate Refused(db: Db, create: CreateJob, appNow: int, error: Error) {
    Created(db, create, appNow) == Throws(error) && Apply(db, CreateOrRead(create, appNow)) == db
  }

  /** The stored job is the one asked for: the same computation, and no other name for its result. */
  ghost predicate Agrees(row: Job, create: CreateJob) {
    var stored, asked := row.identity, create.identity;
    && (stored.cacheKey, stored.op, stored.opVersion, stored.inputVersion) == (asked.cacheKey, asked.op, asked.opVersion, asked.inputVersion)
    && (stored.capabilityName, stored.capabilityVersion, stored.inputCount)
       == (asked.capabilityName, asked.capabilityVersion, asked.inputCount)
    && CanonicalJsonV2(stored.params) == CanonicalJsonV2(asked.params)
    && (create.refName == None || row.refNamespace == None ||
        (row.refNamespace, row.refName) == (create.refNamespace, create.refName))
  }

  lemma AgreementIsSameJob(row: Job, create: CreateJob)
    ensures Agrees(row, create) <==> SameJob(row, create)
  {
    hide CanonicalJsonV2, SameJson;
    JsonSameness.SameJsonIsSameText(row.identity.params, create.identity.params);
    var a, b := row.identity.(params := Null), create.identity.(params := Null);
    assert a == b <==>
      && (a.cacheKey, a.op, a.opVersion, a.inputVersion) == (b.cacheKey, b.op, b.opVersion, b.inputVersion)
      && (a.capabilityName, a.capabilityVersion, a.inputCount) == (b.capabilityName, b.capabilityVersion, b.inputCount);
  }

  /** A request that disagrees with the stored job throws. */
  lemma DisagreementThrows(db: Db, create: CreateJob, appNow: int, run: Run, count: int)
    requires Inv(db) && Sound(db, create) && create.id in db.jobs && !Agrees(db.jobs[create.id], create)
    requires create.identity.cacheKey !in db.tables.runs || Answers(db.tables, create.identity, run, count)
    ensures Refused(db, create, appNow, DeterminismConflict)
  {
    hide Inv, Insert, Attach, Settle, SameJob, Agrees, Sound, Answers, ValidCreate;
    SoundIsValid(db, create);
    AgreementIsSameJob(db.jobs[create.id], create);
    ExistingRowIsInserted(db, create, appNow, run, count);
  }

  lemma ExistingRowIsInserted(db: Db, create: CreateJob, appNow: int, run: Run, count: int)
    requires Inv(db) && Sound(db, create) && create.id in db.jobs
    requires create.identity.cacheKey !in db.tables.runs || Answers(db.tables, create.identity, run, count)
    ensures Insert(db, create, appNow).Ok? && Insert(db, create, appNow).value.row == db.jobs[create.id]
  {
    hide Inv, Answers, Insert, RunAnswers, AnswerTooLarge, ValidCreate;
    SoundIsValid(db, create);
    if create.identity.cacheKey in db.tables.runs {
      AnswersAgree(db.tables, create.identity, run, count);
      AnswerIsSmall(db.tables, create.identity, run, count);
    } else {
      NoRunIsSmall(db.tables, create.identity);
    }
    InsertSucceeds(db, create, appNow);
  }

  /** A misnamed job, half a ref, and an input that is not registered with that many records, are refused. */
  lemma UnsoundRequestsThrow(db: Db, create: CreateJob, appNow: int)
    requires || create.id != "job_" + create.identity.cacheKey
             || (create.refNamespace == None) != (create.refName == None)
             || create.identity.inputVersion !in db.tables.snapshots
             || db.tables.snapshots[create.identity.inputVersion].numRecords != create.identity.inputCount
    ensures Refused(db, create, appNow, InputError)
  {
    hide RunAnswers, AdoptNamed, ChecksHold, SameJob, Attach, Settle, NewRow;
  }

  /** So is a run registered for the computation that is another computation. */
  lemma ForeignRunThrows(db: Db, create: CreateJob, appNow: int, run: Run)
    requires Inv(db) && Sound(db, create)
    requires create.identity.cacheKey in db.tables.runs && db.tables.runs[create.identity.cacheKey] == run
    requires || (run.op, run.opVersion) != (create.identity.op, create.identity.opVersion)
             || run.inputVersions != [create.identity.inputVersion]
             || CanonicalJsonV2(run.params) != CanonicalJsonV2(create.identity.params)
    ensures Refused(db, create, appNow, DeterminismConflict)
  {
    hide Inv, ValidCreate, AdoptNamed, ChecksHold, SameJob, Attach, Settle, NewRow, CanonicalJsonV2, SameJson;
    SoundIsValid(db, create);
    JsonSameness.SameJsonIsSameText(run.params, create.identity.params);
  }

  // ---- Existing jobs ----

  /** A request for a stored job that agrees with it, and with the run registered for it, if any. */
  ghost predicate AsksAgain(db: Db, create: CreateJob, run: Run, count: int) {
    && Sound(db, create) && create.id in db.jobs && Agrees(db.jobs[create.id], create)
    && (create.identity.cacheKey in db.tables.runs ==> Answers(db.tables, create.identity, run, count))
  }

  lemma AskingAgainSucceeds(db: Db, create: CreateJob, appNow: int, run: Run, count: int)
    requires Inv(db) && AsksAgain(db, create, run, count)
    ensures Created(db, create, appNow).Ok? && Insert(db, create, appNow).Ok?
    ensures var draft := Insert(db, create, appNow).value;
            && draft.row == db.jobs[create.id] && draft.row.identity.cacheKey == create.identity.cacheKey
            && Attach(db, draft, create).Ok?
            && Created(db, create, appNow) == Settle(db, Attach(db, draft, create).value, db.clock)
  {
    hide Inv, Insert, Attach, Settle, Created, Answers, Sound, Apply;
    if create.identity.cacheKey in db.tables.runs {
      CachedIsKnown(db, create, run, count);
    }
    SoundRequestSucceeds(db, create, appNow);
    CreatedStages(db, create, appNow);
    ExistingRowIsInserted(db, create, appNow, run, count);
  }

  lemma AppliedCreation(db: Db, create: CreateJob, appNow: int)
    requires Created(db, create, appNow).Ok?
    ensures var draft := Created(db, create, appNow).value;
            Apply(db, CreateOrRead(create, appNow)) == db.(refs := draft.refs, jobs := db.jobs[create.id := draft.row])
  {
    hide Created;
  }

  /** Asking again for a job that is done, or on its way, only reads it back. */
  lemma ExistingJobIsRead(db: Db, create: CreateJob, appNow: int, run: Run, count: int)
    requires Inv(db) && AsksAgain(db, create, run, count)
    requires create.refName == None || db.jobs[create.id].refName != None
    requires create.identity.cacheKey !in db.tables.runs || db.jobs[create.id].status != Queued || db.jobs[create.id].attempt > 0
    ensures var refs := Apply(db, CreateOrRead(create, appNow)).refs;
            && Commits(db, create, appNow, refs, db.jobs[create.id])
            && (create.identity.cacheKey !in db.tables.runs ==> refs == db.refs)
  {
    hide Inv, Insert, Attach, Settle, Created, AsksAgain, Apply;
    AskingAgainSucceeds(db, create, appNow, run, count);
    var draft := Insert(db, create, appNow).value;
    NothingToAttach(db, draft, create);
    NothingToSettle(db, draft);
    AppliedCreation(db, create, appNow);
    if create.identity.cacheKey !in db.tables.runs {
      InsertedUncached(db, create, appNow);
    }
  }

  /** A caller may name the result of a job on its way that has no name yet: the name is noted. */
  lemma ExistingJobIsNamed(db: Db, create: CreateJob, appNow: int, run: Run, count: int)
    requires Inv(db) && AsksAgain(db, create, run, count)
    requires create.refName != None && db.jobs[create.id].refName == None && db.jobs[create.id].status != Completed
    requires create.identity.cacheKey !in db.tables.runs || db.jobs[create.id].status != Queued || db.jobs[create.id].attempt > 0
    ensures var refs := Apply(db, CreateOrRead(create, appNow)).refs;
            Commits(db, create, appNow, refs,
                    db.jobs[create.id].(refNamespace := create.refNamespace, refName := create.refName,
                                        refStatus := Some(Pending), refVersion := None))
  {
    hide Inv, Insert, Attach, Settle, Created, Answers, Agrees, Apply;
    AskingAgainSucceeds(db, create, appNow, run, count);
    var draft := Insert(db, create, appNow).value;
    QueuedRowIsNamed(db, draft, create);
    NothingToSettle(db, Attach(db, draft, create).value);
    AppliedCreation(db, create, appNow);
  }

  /** If the job is done, the name is decided at once. */
  lemma CompletedJobIsNamed(db: Db, create: CreateJob, appNow: int, run: Run, count: int)
    requires Inv(db) && AsksAgain(db, create, run, count)
    requires create.refName != None && db.jobs[create.id].refName == None && db.jobs[create.id].status == Completed
    ensures CommitsAnswer(db, create, appNow, db.jobs[create.id].(refNamespace := create.refNamespace, refName := create.refName),
                          run.outputVersion)
  {
    hide Inv, Insert, Attach, Settle, Created, Answers, Agrees, Apply, AdoptNamed, DecidesRef;
    AskingAgainSucceeds(db, create, appNow, run, count);
    CompletedIsCached(db, create, run, count);
    CachedIsKnown(db, create, run, count);
    InsertedCached(db, create, appNow, run);
    var draft := Insert(db, create, appNow).value;
    CompletedRowIsNamed(db, draft, create);
    NothingToSettle(db, Attach(db, draft, create).value);
    AppliedCreation(db, create, appNow);
    NamedAgain(db.namespaces, db.refs, create.refNamespace, create.refName, run.outputVersion);
    NamedAdoptionDecides(db.namespaces, db.refs, Attach(db, draft, create).value.row, run.outputVersion);
  }

  lemma CompletedIsCached(db: Db, create: CreateJob, run: Run, count: int)
    requires Inv(db) && AsksAgain(db, create, run, count) && db.jobs[create.id].status == Completed
    ensures Answers(db.tables, create.identity, run, count) && db.jobs[create.id].outputVersion == Some(run.outputVersion)
  {
    hide Consistent, RunAnswers, CanonicalJsonV2, RowOk;
    assert RowGrounded(db.tables, db.namespaces, db.jobs[create.id]);
  }

  /** A queued job that was never claimed is completed from a run that has appeared since, under the name it has
      or is now given. */
  lemma QueuedJobIsSettled(db: Db, create: CreateJob, appNow: int, run: Run, count: int)
    requires Inv(db) && AsksAgain(db, create, run, count) && create.identity.cacheKey in db.tables.runs
    requires db.jobs[create.id].status == Queued && db.jobs[create.id].attempt == 0
    ensures var row := db.jobs[create.id];
            CommitsAnswer(db, create, appNow,
                          row.(status := Completed, outputVersion := Some(run.outputVersion), outputCount := Some(count),
                               cacheHit := true, finishedAt := Some(db.clock),
                               refNamespace := if row.refName == None then create.refNamespace else row.refNamespace,
                               refName := if row.refName == None then create.refName else row.refName),
                          run.outputVersion)
  {
    hide Inv, Insert, Attach, Settle, Created, Answers, Apply, AdoptNamed, DecidesRef, CanonicalJsonV2;
    AskingAgainSucceeds(db, create, appNow, run, count);
    CachedIsKnown(db, create, run, count);
    InsertedCached(db, create, appNow, run);
    var draft := Insert(db, create, appNow).value;
    QueuedShape(db, create.id);
    QueuedRowIsNamed(db, draft, create);
    var row := Attach(db, draft, create).value.row;
    RowIsSettled(db, Attach(db, draft, create).value, run, count);
    AppliedCreation(db, create, appNow);
    if create.refName == None {
      OnlyNamesAreAdopted(db.namespaces, db.refs, create.refNamespace, create.refName, run.outputVersion);
    } else {
      NamedAgain(db.namespaces, db.refs, create.refNamespace, create.refName, run.outputVersion);
    }
    NamedAdoptionDecides(db.namespaces, db.refs, Created(db, create, appNow).value.row, run.outputVersion);
  }

  lemma OnlyNamesAreAdopted(namespaces: set<string>, refs: map<RefKey, RefRow>, namespaceId: Option<string>, name: Option<string>, version: string)
    ensures name == None ==> AdoptNamed(namespaces, refs, namespaceId, name, version) == Ok((refs, None))
    ensures var named := AdoptNamed(namespaces, refs, namespaceId, name, version);
            named.Ok? ==> (named.value.1.Some? <==> namespaceId.Some? && name.Some?)
  {
  }

  lemma QueuedShape(db: Db, id: string)
    requires Inv(db) && id in db.jobs && db.jobs[id].status == Queued
    ensures var row := db.jobs[id];
            && row.leaseToken == None && (row.refNamespace == None <==> row.refName == None)
            && (row.refNamespace != None ==> row.refNamespace.value in db.namespaces)
            && (row.refName == None ==> row.refStatus == None && row.refVersion == None)
  {
    hide Consistent, StagingKey, JobId;
    assert RowGrounded(db.tables, db.namespaces, db.jobs[id]) && RowOk(id, db.jobs[id]);
  }

  // ---- Completion ----

  /** What the catalog checks before it starts: a result of one input, named after its computation and counted
      by its own records. */
  ghost predicate Deliverable(c: Completion) {
    && c.lease.attempt >= 1 && |c.lease.token| == 32
    && c.layout.layoutKey.datasetVersion == c.layout.version == c.run.outputVersion
    && c.outputCount == c.layout.snapshot.numRecords == |c.layout.revisions| <= 9223372036854775807
    && c.run.id == "run_" + c.run.cacheKey && c.lease.id == "job_" + c.run.cacheKey
    && |c.run.inputVersions| == 1
  }

  /** The row is the computation that was run, on that input, and the output is not larger. */
  ghost predicate Computes(row: Job, c: Completion)
    requires |c.run.inputVersions| == 1
  {
    && (row.identity.cacheKey, row.identity.op, row.identity.opVersion, row.identity.inputVersion)
       == (c.run.cacheKey, c.run.op, c.run.opVersion, c.run.inputVersions[0])
    && CanonicalJsonV2(row.identity.params) == CanonicalJsonV2(c.run.params)
    && c.outputCount <= row.identity.inputCount
  }

  lemma DeliverableIsValid(c: Completion)
    ensures ValidCompletion(c) <==> Deliverable(c) && Lineage.ValidRevisions(c.layout.revisions)
  {
  }

  lemma ComputesIsMatching(row: Job, c: Completion)
    requires |c.run.inputVersions| == 1
    ensures Computes(row, c) <==> CompletionMatches(row, c)
  {
    JsonSameness.SameJsonIsSameText(row.identity.params, c.run.params);
    hide CanonicalJsonV2, SameJson;
  }

  /** Why a completion throws, in the order in which it looks. */
  lemma CompletionErrors(db: Db, c: Completion, elapsed: nat)
    ensures var result := Completing(db, c, elapsed).1;
            && (!Deliverable(c) || !Lineage.ValidRevisions(c.layout.revisions) ==> result == Throws(InputError))
            && (Deliverable(c) && Lineage.ValidRevisions(c.layout.revisions) ==>
                  if c.lease.id !in db.jobs then result == Throws(LeaseError)
                  else if !Computes(db.jobs[c.lease.id], c) then result == Throws(DeterminismConflict)
                  else
                    var row := db.jobs[c.lease.id];
                    && (row.status == Completed && (row.attempt, row.outputVersion, row.outputCount)
                                                   != (c.lease.attempt, Some(c.run.outputVersion), Some(c.outputCount)) ==>
                          result == Throws(LeaseError))
                    && (row.status !in {Completed, Finalizing} ==> result == Throws(LeaseError))
                    && (row.status == Finalizing ==>
                          if row.attempt != c.lease.attempt || row.leaseToken != Some(c.lease.token) || row.leaseExpiresAt == None ||
                             row.leaseExpiresAt.value <= db.clock
                          then result == Throws(LeaseError)
                          else NoKeys(row) ==> result == Throws(InputError)))
  {
    hide LayoutRegisters, FinishRegistered, CompletionMatches, Computes, Deliverable, ValidCompletion, StagingKey;
    DeliverableIsValid(c);
    if Deliverable(c) {
      assert |c.run.inputVersions| == 1 by {
        DeliverableHasOneInput(c);
      }
      if c.lease.id in db.jobs {
        ComputesIsMatching(db.jobs[c.lease.id], c);
      }
    }
  }

  lemma DeliverableHasOneInput(c: Completion)
    requires Deliverable(c)
    ensures |c.run.inputVersions| == 1
  {
  }

  /** A first completion fills in the output and ends the lease; every other column stays as it was. */
  lemma CompletionFillsIn(db: Db, c: Completion, elapsed: nat)
    requires Inv(db) && Completing(db, c, elapsed).1.Ok? && c.lease.id in db.jobs && db.jobs[c.lease.id].status != Completed
    ensures Deliverable(c) && Computes(db.jobs[c.lease.id], c)
    ensures FilledIn(db.jobs[c.lease.id], Completing(db, c, elapsed).1.value, c, c.run.cacheKey in db.tables.runs, db.clock + elapsed)
  {
    hide Inv, Completing, ValidCompletion, CompletionMatches, Finish, Deliverable, Computes, FilledIn;
    CompletionFinishes(db, c, elapsed);
    DeliverableIsValid(c);
    assert |c.run.inputVersions| == 1 by {
      OneInput(c);
    }
    ComputesIsMatching(db.jobs[c.lease.id], c);
    FinishFillsIn(db.(clock := db.clock + elapsed), db.jobs[c.lease.id], c, c.run.cacheKey in db.tables.runs, db.clock + elapsed);
  }

  lemma OneInput(c: Completion)
    requires ValidCompletion(c)
    ensures |c.run.inputVersions| == 1
  {
  }

  lemma CompletionFinishes(db: Db, c: Completion, elapsed: nat)
    requires Completing(db, c, elapsed).1.Ok? && c.lease.id in db.jobs && db.jobs[c.lease.id].status != Completed
    ensures ValidCompletion(c) && CompletionMatches(db.jobs[c.lease.id], c)
    ensures var finish := Finish(db.(clock := db.clock + elapsed), db.jobs[c.lease.id], c, c.run.cacheKey in db.tables.runs, db.clock + elapsed);
            finish.Ok? && Completing(db, c, elapsed).1.value == finish.value.row
  {
    hide LayoutRegisters, CompletionMatches, Readback, RunRegisters, Finish, ValidLayoutInput, ValidRunInput, ValidLease;
    FinishLooksAtRefs(db.(clock := db.clock + elapsed, tables := db.tables.(sequence := db.tables.sequence + 1)),
                      db.(clock := db.clock + elapsed), db.jobs[c.lease.id], c, c.run.cacheKey in db.tables.runs, db.clock + elapsed);
  }

  /** The lease held to the end, and these columns changed. */
  ghost predicate FilledIn(before: Job, after: Job, c: Completion, cacheHit: bool, now: int) {
    && before.status == Finalizing && before.attempt == c.lease.attempt && before.leaseToken == Some(c.lease.token)
    && before.leaseExpiresAt != None && now < before.leaseExpiresAt.value
    && after == before.(status := Completed, outputCount := Some(c.outputCount), outputVersion := Some(c.run.outputVersion),
                        refStatus := after.refStatus, refVersion := after.refVersion, error := None,
                        cacheHit := cacheHit, finishedAt := Some(now),
                        leaseOwner := None, leaseToken := None, leaseExpiresAt := None)
  }

  lemma FinishFillsIn(db: Db, row: Job, c: Completion, cacheHit: bool, later: int)
    ensures Finish(db, row, c, cacheHit, later).Ok? ==> FilledIn(row, Finish(db, row, c, cacheHit, later).value.row, c, cacheHit, later)
  {
    hide ChecksHold, Decodes, AdoptNamed;
  }

  lemma FinishLooksAtRefs(a: Db, b: Db, row: Job, c: Completion, cacheHit: bool, later: int)
    requires a.refs == b.refs && a.namespaces == b.namespaces
    ensures Finish(a, row, c, cacheHit, later) == Finish(b, row, c, cacheHit, later)
  {
    hide ChecksHold, Decodes, AdoptNamed;
  }
}
