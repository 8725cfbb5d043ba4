/** The report export use case: what enqueues an export, and the worker that runs it. Both
    are written over the registries themselves, and each is one run of the steps whose
    interleavings `ExportHolds` covers. */
module ReportExportJobs {
  import opened Wrappers
  import opened SessionRegistry
  import opened JobRegistry
  import opened ReportExport
  import SessionRuns
  import JobRuns
  import opened ExportHolds

  datatype ReportResult = ReportResult(id: string)

  datatype Report = Report(id: string)

  /** An export request with what the backend answers to it: the finished artifact, or
      the report, its pages of results, and how these become an artifact. */
  datatype Request =
    | GvmdReportFormat(answer: Result<JobArtifact, string>)
    | Json(report: Result<Report, string>,
           backend: U32 -> Result<Page<ReportResult>, string>,
           encode: (Report, seq<ReportResult>) -> Result<JobArtifact, string>)

  datatype EnqueueError = NoReport(message: string) | NoHold(sessionError: SessionError) | NoJob(jobError: JobError)

  function Outcome(request: Request): Result<JobArtifact, string> {
    match request
    case GvmdReportFormat(answer) => answer
    case Json(report, backend, encode) =>
      match report
      case Err(error) => Err(error)
      case Ok(header) =>
        match PagesFrom(backend, 1)
        case Err(error) => Err(error)
        case Ok(results) => encode(header, results)
  }

  function Finish(id: JobId, outcome: Result<JobArtifact, string>, now: nat): Event {
    JobStep(if outcome.Ok? then JobRuns.WorkerSucceeds(id, outcome.value, now)
            else JobRuns.WorkerFails(id, outcome.error, now))
  }

  function MarkedFinished(jobs: Jobs, id: JobId, outcome: Result<JobArtifact, string>, now: nat, retention: nat): Jobs {
    if outcome.Ok? then MarkedSucceeded(jobs, id, outcome.value, now, retention)
    else MarkedFailed(jobs, id, outcome.error, now, retention)
  }

  /** The jobs after a worker that ran undisturbed: a job cancelled before the worker
      started stays as it is. */
  function Worked(jobs: Jobs, id: JobId, startedAt: nat, outcome: Result<JobArtifact, string>,
                  endedAt: nat, retention: nat): Jobs
  {
    if Live(jobs, id) then MarkedFinished(MarkedRunning(jobs, id, startedAt), id, outcome, endedAt, retention) else jobs
  }

  /** What the worker does for a request, between marking its job and finishing it. */
  method Export(request: Request) returns (outcome: Result<JobArtifact, string>)
    ensures outcome == Outcome(request)
  {
    match request {
      case GvmdReportFormat(answer) =>
        return answer;
      case Json(report, backend, encode) =>
        if report.Err? {
          return Err(report.error);
        }
        var results := ExportResults(backend);
        match results {
          case Err(error) =>
            return Err(error);
          case Ok(all) =>
            return encode(report.value, all);
        }
    }
  }

  /** What the caller is told: the error of the first step that failed, or the new job. */
  function Enqueued(user: string, token: string, report: Result<Report, string>,
                    id: JobId, holdAt: U64, createdAt: nat, insertedAt: nat,
                    sessions: Sessions, jobs: Jobs, idleTimeoutSecs: U64, policy: Policy): Result<Job, EnqueueError>
  {
    var refusal := UseError(sessions, Digest(token), holdAt, idleTimeoutSecs);
    if report.Err? then Err(NoReport(report.error))
    else if refusal.Some? then Err(NoHold(refusal.value))
    else if |Purged(jobs, insertedAt)| >= policy.maxJobsTotal then Err(NoJob(TooManyRequests))
    else Ok(QueuedJob(id, createdAt))
  }

  /** Taking the hold of a new export. */
  lemma HoldStep(c: ExportHolds.Config, s: System, id: JobId, token: string, now: U64)
    requires Linked(s) && id !in s.sessionOf && |s.sessions.guards| < U64_MAX
    ensures var s', d := ExportHolds.Next(c, s, TakeHold(id, token, now)), Digest(token);
            && s'.sessions.sessions == UsedIn(s.sessions.sessions, d, now, c.session.idleTimeoutSecs, 1)
            && s'.jobs == s.jobs
            && if UseError(s.sessions.sessions, d, now, c.session.idleTimeoutSecs) == None then
                 && Holding(s', id) && s'.sessionOf[id] == d && id in s'.pending
                 && s'.sessions.guards - {GuardOf(id)} == s.sessions.guards
               else
                 s'.pending == s.pending && s'.sessions.guards == s.sessions.guards
  {
    GuardsAreDistinct();
    assert GuardOf(id) !in s.sessions.guards;
  }

  /** The export part of the gateway service, over both registries. `steps` are the steps
      taken so far and `system` the state they lead to; neither is part of the program. */
  class ExportService {
    const sessions: SessionManager
    const jobs: JobRegistry
    ghost var steps: seq<Event>
    ghost var system: System

    ghost function Limits(): ExportHolds.Config {
      ExportHolds.Config(SessionRuns.Config(sessions.idleTimeoutSecs, sessions.limits), jobs.policy)
    }

    ghost predicate Traced()
      reads this
    {
      system == ExportHolds.Run(Limits(), ExportHolds.START, steps)
    }

    /** The registries hold what the steps lead to. */
    ghost predicate Valid()
      reads this, sessions, jobs
    {
      Traced() && Shown()
    }

    ghost predicate Shown()
      reads this, sessions, jobs
    {
      && system.sessions.sessions == sessions.sessions
      && system.jobs.jobs == jobs.jobs
      && system.jobs.aborted == jobs.aborted
    }

    constructor (sessions: SessionManager, jobs: JobRegistry)
      requires sessions.sessions == map[] && jobs.jobs == map[] && jobs.aborted == {}
      ensures this.sessions == sessions && this.jobs == jobs
      ensures Valid() && steps == []
    {
      this.sessions := sessions;
      this.jobs := jobs;
      steps := [];
      system := ExportHolds.START;
    }

    /** A report that cannot be read, a hold that finds its session refused, or a job that
        finds no room leaves the export without a guard and without a job; otherwise the
        job is queued, its worker is spawned, and its handle is stored. The job id is
        random, so it is new. */
    method EnqueueReportExportJob(user: string, token: string, report: Result<Report, string>,
                                  id: JobId, holdAt: U64, createdAt: nat, insertedAt: nat)
      returns (r: Result<Job, EnqueueError>)
      requires Valid() && id !in system.sessionOf && |system.sessions.guards| < U64_MAX
      modifies this`steps, this`system, sessions`sessions, jobs
      ensures Valid()
      ensures steps == old(steps) + if report.Err? then [] else [
                         TakeHold(id, token, holdAt),
                         Insert(id, user, createdAt, insertedAt),
                         JobStep(JobRuns.Spawn(id)),
                         JobStep(JobRuns.OfferHandle(id))]
      ensures r == Enqueued(user, token, report, id, holdAt, createdAt, insertedAt,
                            old(sessions.sessions), old(jobs.jobs), sessions.idleTimeoutSecs, jobs.policy)
      ensures match r
              case Ok(job) =>
                && id in jobs.jobs && Holding(system, id) && system.sessionOf[id] == Digest(token)
                && jobs.jobs[id] == NewRecord(user, Digest(token), job).(hasAbortHandle := true)
                && jobs.jobs[id].ownerUser == user && jobs.jobs[id].session == Digest(token) && jobs.jobs[id].job == job
                && job.id == id && job.status == Queued && job.createdAt == Timestamp(createdAt)
                && JobRuns.At(system.jobs, id, JobRuns.Starting)
              case Err(_) =>
                && id !in jobs.jobs && NoExport(system, id)
                && system.sessions.guards == old(system.sessions.guards)
    {
      if report.Err? {
        NotStarted(Limits(), steps, id);
        return Err(NoReport(report.error));
      }
      FourSteps(steps, TakeHold(id, token, holdAt), Insert(id, user, createdAt, insertedAt),
                JobStep(JobRuns.Spawn(id)), JobStep(JobRuns.OfferHandle(id)));
      RecordHold(id, token, holdAt);
      var hold := sessions.Hold(token, holdAt);
      if hold.Err? {
        RecordNothing(id, user, createdAt, insertedAt);
        return Err(NoHold(hold.error));
      }
      r := InsertHeldJob(user, hold.value, id, createdAt, insertedAt);
    }

    /** The rest of it, once the hold is taken. */
    method InsertHeldJob(user: string, hold: Digest, id: JobId, createdAt: nat, insertedAt: nat)
      returns (r: Result<Job, EnqueueError>)
      requires Valid() && NotInserted(system, id)
      requires id in system.pending && Holding(system, id) && system.sessionOf[id] == hold
      modifies this`steps, this`system, sessions`sessions, jobs
      ensures Valid()
      ensures steps == old(steps) + [
                         Insert(id, user, createdAt, insertedAt),
                         JobStep(JobRuns.Spawn(id)),
                         JobStep(JobRuns.OfferHandle(id))]
      ensures r == if |Purged(old(jobs.jobs), insertedAt)| >= jobs.policy.maxJobsTotal then Err(NoJob(TooManyRequests))
                   else Ok(QueuedJob(id, createdAt))
      ensures match r
              case Ok(job) =>
                && id in jobs.jobs && Holding(system, id) && system.sessionOf[id] == hold
                && jobs.jobs[id] == NewRecord(user, hold, job).(hasAbortHandle := true)
                && JobRuns.At(system.jobs, id, JobRuns.Starting)
              case Err(_) =>
                && id !in jobs.jobs && NoExport(system, id)
                && system.sessions.guards == old(system.sessions.guards) - {GuardOf(id)}
    {
      var job := QueuedJob(id, createdAt);
      TwoMoreSteps(steps, Insert(id, user, createdAt, insertedAt),
                   JobStep(JobRuns.Spawn(id)), JobStep(JobRuns.OfferHandle(id)));
      RecordInsert(id, user, createdAt, insertedAt);
      var inserted := jobs.InsertJob(user, hold, job, insertedAt);
      if inserted.Err? {
        sessions.ReleaseHold(hold);
        RecordSkipped(id);
        return Err(NoJob(inserted.error));
      }
      RecordSpawn(id);
      var _ := jobs.SetJobAbortHandle(id);
      return Ok(job);
    }

    /** The worker, running undisturbed: whatever the backend answers, the hold is given
        back, and a job still in the registry has ended, as the outcome says unless it
        was cancelled before. */
    method RunReportExportJob(id: JobId, hold: Digest, request: Request, startedAt: nat, endedAt: nat)
      requires Valid() && JobRuns.At(system.jobs, id, JobRuns.Starting)
      requires id in system.sessionOf && hold == system.sessionOf[id]
      modifies this`steps, this`system, sessions`sessions, jobs`jobs
      ensures Valid()
      ensures steps == old(steps) + [
                         JobStep(JobRuns.WorkerStarts(id, startedAt)),
                         Finish(id, Outcome(request), endedAt),
                         WorkerReturned(id)]
      ensures GuardOf(id) !in system.sessions.guards
      ensures sessions.sessions == Released(old(sessions.sessions), hold)
      ensures jobs.jobs ==
              Worked(old(jobs.jobs), id, startedAt, Outcome(request), endedAt, jobs.policy.terminalRetentionSecs)
      ensures Live(old(jobs.jobs), id) ==>
                && id in jobs.jobs && jobs.jobs[id].ownerUser == old(jobs.jobs)[id].ownerUser
                && ShowsOutcome(jobs.jobs[id], request)
    {
      ghost var before := jobs.jobs;
      ThreeSteps(steps, JobStep(JobRuns.WorkerStarts(id, startedAt)), Finish(id, Outcome(request), endedAt),
                 WorkerReturned(id));
      RecordStart(id, startedAt);
      var started := jobs.MarkJobRunning(id, startedAt);
      if started.Ok? {
        var outcome := Export(request);
        match outcome {
          case Ok(artifact) =>
            var _ := jobs.MarkJobSucceeded(id, artifact, endedAt);
          case Err(error) =>
            var _ := jobs.MarkJobFailed(id, error, endedAt);
        }
      }
      RecordFinish(id, Outcome(request), endedAt);
      sessions.ReleaseHold(hold);
      RecordReturn(id);
      if Live(before, id) {
        RecordShowsOutcome(before, id, startedAt, request, endedAt, jobs.policy.terminalRetentionSecs);
      }
    }

    // -------------------------------------------------------------------------
    // What each step does to the system
    // -------------------------------------------------------------------------

    /** One more step of the exports. */
    ghost method Record(e: Event)
      requires Traced()
      modifies this`steps, this`system
      ensures Traced() && steps == old(steps) + [e]
      ensures system == ExportHolds.Next(Limits(), old(system), e)
    {
      RunAppend(Limits(), ExportHolds.START, steps, e);
      steps, system := steps + [e], ExportHolds.Next(Limits(), system, e);
    }

    ghost method RecordHold(id: JobId, token: string, now: U64)
      requires Traced() && id !in system.sessionOf && |system.sessions.guards| < U64_MAX
      modifies this`steps, this`system
      ensures Traced() && steps == old(steps) + [TakeHold(id, token, now)]
      ensures system.sessions.sessions ==
              UsedIn(old(system.sessions.sessions), Digest(token), now, sessions.idleTimeoutSecs, 1)
      ensures system.jobs == old(system.jobs) && NotInserted(system, id)
      ensures if UseError(old(system.sessions.sessions), Digest(token), now, sessions.idleTimeoutSecs) == None then
                && Holding(system, id) && system.sessionOf[id] == Digest(token) && id in system.pending
                && system.sessions.guards - {GuardOf(id)} == old(system.sessions.guards)
              else
                id !in system.pending && system.sessions.guards == old(system.sessions.guards)
    {
      Reachable(Limits(), steps);
      HoldStep(Limits(), system, id, token, now);
      NotStarted(Limits(), steps, id);
      Record(TakeHold(id, token, now));
    }

    ghost method RecordInsert(id: JobId, owner: string, createdAt: nat, now: nat)
      requires Traced() && id in system.pending && Holding(system, id)
      modifies this`steps, this`system
      ensures Traced() && steps == old(steps) + [Insert(id, owner, createdAt, now)]
      ensures system.sessionOf == old(system.sessionOf) && id !in system.pending
      ensures system.jobs.aborted == old(system.jobs.aborted)
      ensures var d := old(system).sessionOf[id];
              var (after, inserted) :=
                Inserted(old(system.jobs.jobs), jobs.policy, NewRecord(owner, d, QueuedJob(id, createdAt)), now);
              && system.jobs.jobs == after
              && if inserted then
                   && system.sessions == old(system.sessions)
                   && id in system.jobs.tasks && system.jobs.tasks[id] == JobRuns.Task(JobRuns.NotSpawned, false)
                 else
                   && system.sessions.sessions == Released(old(system.sessions.sessions), d)
                   && system.sessions.guards == old(system.sessions.guards) - {GuardOf(id)}
                   && NotInserted(system, id)
    {
      Reachable(Limits(), steps);
      assert JobRuns.Good(Limits().job, system.jobs, id);
      Record(Insert(id, owner, createdAt, now));
    }

    /** Spawning the worker and offering its handle. */
    ghost method RecordSpawn(id: JobId)
      requires Traced() && Holding(system, id)
      requires id in system.jobs.tasks && system.jobs.tasks[id] == JobRuns.Task(JobRuns.NotSpawned, false)
      requires Live(system.jobs.jobs, id)
      modifies this`steps, this`system
      ensures Traced() && steps == old(steps) + [JobStep(JobRuns.Spawn(id)), JobStep(JobRuns.OfferHandle(id))]
      ensures system.sessions == old(system.sessions) && system.sessionOf == old(system.sessionOf)
      ensures system.jobs.jobs == HandleStored(old(system.jobs.jobs), id)
      ensures system.jobs.aborted == old(system.jobs.aborted)
      ensures JobRuns.At(system.jobs, id, JobRuns.Starting)
    {
      Record(JobStep(JobRuns.Spawn(id)));
      Record(JobStep(JobRuns.OfferHandle(id)));
    }

    /** A worker marks its job as running, and goes on if that succeeds. */
    ghost method RecordStart(id: JobId, now: nat)
      requires Traced() && JobRuns.At(system.jobs, id, JobRuns.Starting)
      modifies this`steps, this`system
      ensures Traced() && steps == old(steps) + [JobStep(JobRuns.WorkerStarts(id, now))]
      ensures Holding(old(system), id)
      ensures system.sessions == old(system.sessions) && system.sessionOf == old(system.sessionOf)
      ensures system.jobs.aborted == old(system.jobs.aborted)
      ensures system.jobs.jobs == MarkedRunning(old(system.jobs.jobs), id, now)
      ensures Overwritable(old(system.jobs.jobs), id) == Live(old(system.jobs.jobs), id)
      ensures JobRuns.At(system.jobs, id, if Live(old(system.jobs.jobs), id) then JobRuns.Working else JobRuns.Done)
    {
      Reachable(Limits(), steps);
      assert JobRuns.Good(Limits().job, system.jobs, id) && Unfinished(system, id);
      Record(JobStep(JobRuns.WorkerStarts(id, now)));
    }

    /** A worker that has marked its job finishes it. */
    ghost method RecordFinish(id: JobId, outcome: Result<JobArtifact, string>, now: nat)
      requires Traced() && (JobRuns.At(system.jobs, id, JobRuns.Working) || JobRuns.At(system.jobs, id, JobRuns.Done))
      modifies this`steps, this`system
      ensures Traced() && steps == old(steps) + [Finish(id, outcome, now)]
      ensures system.sessions == old(system.sessions) && system.sessionOf == old(system.sessionOf)
      ensures system.jobs.aborted == old(system.jobs.aborted)
      ensures system.jobs.jobs ==
              if JobRuns.At(old(system.jobs), id, JobRuns.Working) then
                MarkedFinished(old(system.jobs.jobs), id, outcome, now, jobs.policy.terminalRetentionSecs)
              else old(system.jobs.jobs)
      ensures JobRuns.At(system.jobs, id, JobRuns.Done)
    {
      Record(Finish(id, outcome, now));
    }

    /** The worker returns and its hold is dropped. */
    ghost method RecordReturn(id: JobId)
      requires Traced() && JobRuns.At(system.jobs, id, JobRuns.Done) && Holding(system, id)
      modifies this`steps, this`system
      ensures Traced() && steps == old(steps) + [WorkerReturned(id)]
      ensures system.jobs == old(system.jobs) && system.sessionOf == old(system.sessionOf)
      ensures system.sessions.sessions == Released(old(system.sessions.sessions), old(system).sessionOf[id])
      ensures GuardOf(id) !in system.sessions.guards
    {
      Record(WorkerReturned(id));
    }

    /** An export without a job has nothing to spawn. */
    ghost method RecordSkipped(id: JobId)
      requires Traced() && NoExport(system, id)
      modifies this`steps, this`system
      ensures Traced() && steps == old(steps) + [JobStep(JobRuns.Spawn(id)), JobStep(JobRuns.OfferHandle(id))]
      ensures system == old(system)
    {
      Record(JobStep(JobRuns.Spawn(id)));
      Record(JobStep(JobRuns.OfferHandle(id)));
    }

    /** And one without a hold nothing to insert. */
    ghost method RecordNothing(id: JobId, owner: string, createdAt: nat, now: nat)
      requires Traced() && NoExport(system, id)
      modifies this`steps, this`system
      ensures Traced()
      ensures steps == old(steps) + [
                         Insert(id, owner, createdAt, now),
                         JobStep(JobRuns.Spawn(id)),
                         JobStep(JobRuns.OfferHandle(id))]
      ensures system == old(system)
    {
      Record(Insert(id, owner, createdAt, now));
      RecordSkipped(id);
    }
  }

  predicate NotInserted(s: System, id: JobId) {
    id !in s.jobs.tasks && id !in s.jobs.jobs
  }

  /** The export holds nothing and has no job. */
  predicate NoExport(s: System, id: JobId) {
    id !in s.pending && NotInserted(s, id)
  }

  lemma FourSteps(steps: seq<Event>, a: Event, b: Event, c: Event, d: Event)
    ensures steps + [a] + [b, c, d] == steps + [a, b, c, d]
  {
  }

  lemma TwoMoreSteps(steps: seq<Event>, a: Event, b: Event, c: Event)
    ensures steps + [a] + [b, c] == steps + [a, b, c]
  {
  }

  lemma NotStarted(c: ExportHolds.Config, events: seq<Event>, id: JobId)
    requires id !in ExportHolds.Run(c, ExportHolds.START, events).sessionOf
    ensures NoExport(ExportHolds.Run(c, ExportHolds.START, events), id)
  {
    Reachable(c, events);
    var s := ExportHolds.Run(c, ExportHolds.START, events);
    assert !Unfinished(s, id) && JobRuns.Good(c.job, s.jobs, id);
  }

  lemma ThreeSteps(steps: seq<Event>, a: Event, b: Event, c: Event)
    ensures steps + [a] + [b] + [c] == steps + [a, b, c]
  {
  }

  lemma Reachable(c: ExportHolds.Config, events: seq<Event>)
    ensures ExportHolds.Invariant(c, ExportHolds.Run(c, ExportHolds.START, events))
  {
    SessionRuns.StartInvariant(c.session);
    ExportHolds.RunKeepsInvariant(c, ExportHolds.START, events);
  }

  lemma {:induction false} RunAppend(c: ExportHolds.Config, s: System, events: seq<Event>, e: Event)
    ensures ExportHolds.Run(c, s, events + [e]) == ExportHolds.Next(c, ExportHolds.Run(c, s, events), e)
    decreases |events|
  {
    if events == [] {
      assert [e][1..] == [];
    } else {
      assert (events + [e])[1..] == events[1..] + [e];
      RunAppend(c, ExportHolds.Next(c, s, events[0]), events[1..], e);
    }
  }

  // ---------------------------------------------------------------------------
  // What an undisturbed worker delivers
  // ---------------------------------------------------------------------------

  /** A live job ends as the export did: a download then gives the artifact of a success,
      a failure shows its error, and the record stays until the retention is over. */
  lemma WorkerDelivers(jobs: Jobs, id: JobId, startedAt: nat, outcome: Result<JobArtifact, string>,
                       endedAt: nat, retention: nat)
    requires Live(jobs, id)
    ensures var after := Worked(jobs, id, startedAt, outcome, endedAt, retention);
            && after.Keys == jobs.Keys
            && (outcome.Ok? ==> Download(after[id]) == Ok(outcome.value))
            && (outcome.Err? ==> after[id].job.status == Failed && after[id].job.error == Some(outcome.error))
            && forall now: nat :: id in Purged(after, now) <==> now < endedAt + retention
  {
    var after := Worked(jobs, id, startedAt, outcome, endedAt, retention);
    assert after[id].purgeAfter == Some(endedAt + retention);
  }

  /** The owner can download the artifact. */
  predicate Downloadable(r: JobRecord, artifact: JobArtifact) {
    r.job.status == Succeeded && Download(r) == Ok(artifact)
  }

  /** The job shows a failure with this error, and nothing to download. */
  predicate ShowsFailure(r: JobRecord, error: string) {
    r.job.status == Failed && r.job.error == Some(error) && Download(r) == Err(Conflict)
  }

  predicate Shows(r: JobRecord, answer: Result<JobArtifact, string>) {
    match answer
    case Ok(artifact) => Downloadable(r, artifact)
    case Err(error) => ShowsFailure(r, error)
  }

  /** What the record of a finished export shows: for a report format what the backend
      answered; for JSON the first error among the report, the pages and the encoding, or
      the encoding of the report with all its pages. */
  ghost predicate ShowsOutcome(r: JobRecord, request: Request) {
    match request
    case GvmdReportFormat(answer) => Shows(r, answer)
    case Json(report, backend, encode) =>
      match report
      case Err(error) => ShowsFailure(r, error)
      case Ok(header) =>
        && (forall n: U32 :: FailsAt(backend, 1, n) ==> ShowsFailure(r, backend(n).error))
        && (forall n: U32 :: EndsAt(backend, 1, n) ==> Shows(r, encode(header, Joined(backend, 1, n))))
        && exists n: U32 :: FailsAt(backend, 1, n) || EndsAt(backend, 1, n)
  }

  /** The record of a live job after its worker: still its owner's, and showing that. */
  lemma RecordShowsOutcome(jobs: Jobs, id: JobId, startedAt: nat, request: Request, endedAt: nat, retention: nat)
    requires Live(jobs, id)
    ensures var after := Worked(jobs, id, startedAt, Outcome(request), endedAt, retention);
            && id in after && after[id].ownerUser == jobs[id].ownerUser
            && ShowsOutcome(after[id], request)
  {
    var r := Worked(jobs, id, startedAt, Outcome(request), endedAt, retention)[id];
    assert Shows(r, Outcome(request));
    if request.Json? && request.report.Ok? {
      var backend := request.backend;
      forall n: U32 | FailsAt(backend, 1, n)
        ensures ShowsFailure(r, backend(n).error)
      {
        ExportFails(backend, 1, n);
      }
      forall n: U32 | EndsAt(backend, 1, n)
        ensures Shows(r, request.encode(request.report.value, Joined(backend, 1, n)))
      {
        ExportSucceeds(backend, 1, n);
      }
      var _ := SomePageDecides(backend, 1);
    }
  }

  /** A JSON export of a report whose results the backend serves in pages delivers every
      result, once and in order. */
  lemma JsonExportDelivers(jobs: Jobs, id: JobId, startedAt: nat, endedAt: nat, retention: nat,
                           request: Request, all: seq<ReportResult>, artifact: JobArtifact)
    requires Live(jobs, id) && request.Json? && request.report.Ok? && Serves(request.backend, all)
    requires request.encode(request.report.value, all) == Ok(artifact)
    ensures var after := Worked(jobs, id, startedAt, Outcome(request), endedAt, retention);
            id in after && Download(after[id]) == Ok(artifact)
  {
    CompleteExport(request.backend, all);
    WorkerDelivers(jobs, id, startedAt, Outcome(request), endedAt, retention);
  }
}
