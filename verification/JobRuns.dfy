/** Every interleaving of enqueuers, workers, cancellations, aborts and purges over one
    job registry. */
module JobRuns {
  import opened Wrappers
  import opened JobRegistry

  /** How far the worker of a job is: not yet spawned, spawned, past `mark_job_running`,
      or returned. */
  datatype Stage = NotSpawned | Starting | Working | Done

  /** `handleOffered` says that the enqueuer has run `set_job_abort_handle`. */
  datatype Task = Task(stage: Stage, handleOffered: bool)

  /** The registry, one task for every job ever inserted, the jobs whose handles a session
      cancellation has gathered but not yet used, and the jobs whose workers were told to
      abort. */
  datatype World = World(jobs: Jobs, tasks: map<JobId, Task>, aborting: set<JobId>, aborted: set<JobId>)

  datatype Event =
    | Enqueue(id: JobId, owner: string, session: Digest, createdAt: nat, now: nat)
    | Spawn(id: JobId)
    | OfferHandle(id: JobId)
    | WorkerStarts(id: JobId, now: nat)
    | WorkerSucceeds(id: JobId, artifact: JobArtifact, now: nat)
    | WorkerFails(id: JobId, error: string, now: nat)
    | WorkerAborts(id: JobId)
    | Cancel(owner: string, id: JobId, purgeNow: nat, now: nat)
    | CancelSession(session: Digest, purgeNow: nat, now: nat)
    | AbortGathered(id: JobId)
    | Purge(now: nat)

  const START := World(map[], map[], {}, {})

  predicate At(w: World, id: JobId, stage: Stage) {
    id in w.tasks && w.tasks[id].stage == stage
  }

  function Moved(w: World, id: JobId, stage: Stage): map<JobId, Task>
    requires id in w.tasks
  {
    w.tasks[id := w.tasks[id].(stage := stage)]
  }

  /** One locked section, spawn or abort. Job ids are random, so none is used twice. A
      worker told to abort may stop at any moment, or run on. */
  function Next(p: Policy, w: World, e: Event): World {
    match e
    case Enqueue(id, owner, session, createdAt, now) =>
      if id in w.tasks then w
      else
        var (jobs, inserted) := Inserted(w.jobs, p, NewRecord(owner, session, QueuedJob(id, createdAt)), now);
        w.(jobs := jobs, tasks := if inserted then w.tasks[id := Task(NotSpawned, false)] else w.tasks)
    case Spawn(id) =>
      if At(w, id, NotSpawned) then w.(tasks := Moved(w, id, Starting)) else w
    case OfferHandle(id) =>
      if id !in w.tasks || w.tasks[id].stage == NotSpawned || w.tasks[id].handleOffered then w
      else
        w.(jobs := HandleStored(w.jobs, id),
           tasks := w.tasks[id := w.tasks[id].(handleOffered := true)],
           aborted := if id in w.jobs && !Live(w.jobs, id) then w.aborted + {id} else w.aborted)
    case WorkerStarts(id, now) =>
      if !At(w, id, Starting) then w
      else
        w.(jobs := MarkedRunning(w.jobs, id, now),
           tasks := Moved(w, id, if Overwritable(w.jobs, id) then Working else Done))
    case WorkerSucceeds(id, artifact, now) =>
      if !At(w, id, Working) then w
      else
        w.(jobs := MarkedSucceeded(w.jobs, id, artifact, now, p.terminalRetentionSecs), tasks := Moved(w, id, Done))
    case WorkerFails(id, error, now) =>
      if !At(w, id, Working) then w
      else
        w.(jobs := MarkedFailed(w.jobs, id, error, now, p.terminalRetentionSecs), tasks := Moved(w, id, Done))
    case WorkerAborts(id) =>
      if id in w.aborted && (At(w, id, Starting) || At(w, id, Working)) then w.(tasks := Moved(w, id, Done)) else w
    case Cancel(owner, id, purgeNow, now) =>
      var kept := Purged(w.jobs, purgeNow);
      w.(jobs := UserCancelled(kept, owner, id, now, p.terminalRetentionSecs),
         aborted := if Cancellable(kept, owner, id) then w.aborted + WithHandle(kept, {id}) else w.aborted)
    case CancelSession(session, purgeNow, now) =>
      var kept := Purged(w.jobs, purgeNow);
      w.(jobs := SessionCancelled(kept, session, now, p.terminalRetentionSecs),
         aborting := w.aborting + WithHandle(kept, LiveJobsOf(kept, session)))
    case AbortGathered(id) =>
      if id in w.aborting then w.(aborting := w.aborting - {id}, aborted := w.aborted + {id}) else w
    case Purge(now) =>
      w.(jobs := Purged(w.jobs, now))
  }

  function Run(p: Policy, w: World, events: seq<Event>): World
    decreases |events|
  {
    if events == [] then w else Run(p, Next(p, w, events[0]), events[1..])
  }

  // ---------------------------------------------------------------------------
  // What a record looks like
  // ---------------------------------------------------------------------------

  function ProgressOf(status: JobStatus): JobProgress {
    match status
    case Queued => JobProgress(0, "queued")
    case Running => JobProgress(0, "running")
    case Succeeded => JobProgress(100, "succeeded")
    case Failed => JobProgress(100, "failed")
    case _ => JobProgress(100, "cancelled")
  }

  /** The times of a record: the three that end a job are set together, and the expiry
      shown is the moment of the purge, one retention period after completion. */
  predicate TimesCoherent(r: JobRecord, retention: nat) {
    var terminal := r.job.status.IsTerminal();
    && r.job.completedAt.Some? == terminal
    && r.job.expiresAt.Some? == terminal
    && r.purgeAfter.Some? == terminal
    && (terminal ==> r.job.expiresAt.value == Timestamp(r.purgeAfter.value))
    && (terminal ==> r.purgeAfter.value == r.job.completedAt.value.epochSecs + retention)
    && (r.job.status == Queued ==> r.job.startedAt == None)
    && (r.job.status == Running || r.job.status == Succeeded || r.job.status == Failed ==> r.job.startedAt.Some?)
  }

  /** Artifact, result and location exist exactly for a success, and describe it; an
      error exists exactly for a failure. */
  predicate ResultCoherent(id: JobId, r: JobRecord) {
    && r.artifact.Some? == (r.job.status == Succeeded)
    && r.job.result.Some? == (r.job.status == Succeeded)
    && r.job.resultLocation.Some? == (r.job.status == Succeeded)
    && r.job.error.Some? == (r.job.status == Failed)
    && (r.job.status == Succeeded ==>
          var a := r.artifact.value;
          && r.job.resultLocation.value == "/api/v1/jobs/" + id.uuid + "/result"
          && r.job.result.value == JobResult(a.contentType, a.filename, |a.bytes|, r.job.resultLocation.value))
  }

  predicate Coherent(id: JobId, r: JobRecord, retention: nat) {
    && r.job.id == id
    && r.job.status != Cancelling && r.job.status != Expired
    && r.job.progress == ProgressOf(r.job.status)
    && TimesCoherent(r, retention)
    && ResultCoherent(id, r)
  }

  /** Where its worker is tells what a record can show. */
  predicate StageFits(status: JobStatus, stage: Stage) {
    match stage
    case NotSpawned => status == Queued || status == Cancelled
    case Starting => status == Queued || status == Cancelled
    case Working => status == Running || status == Cancelled
    case Done => status.IsTerminal()
  }

  /** A live record has a handle as soon as one was offered; once it is terminal the
      handle is gone, used if the job was cancelled. */
  predicate HandleFits(w: World, id: JobId)
    requires id in w.jobs && id in w.tasks
  {
    var status, offered := w.jobs[id].job.status, w.tasks[id].handleOffered;
    && w.jobs[id].hasAbortHandle == (offered && !status.IsTerminal())
    && (status == Cancelled && offered ==> id in w.aborting || id in w.aborted)
    && (id in w.aborting || id in w.aborted ==> status.IsTerminal())
  }

  predicate Good(p: Policy, w: World, id: JobId) {
    id in w.jobs ==>
      && id in w.tasks
      && Coherent(id, w.jobs[id], p.terminalRetentionSecs)
      && StageFits(w.jobs[id].job.status, w.tasks[id].stage)
      && HandleFits(w, id)
  }

  predicate AbortsKnown(w: World, id: JobId) {
    id in w.aborting || id in w.aborted ==> id in w.tasks
  }

  ghost predicate Invariant(p: Policy, w: World) {
    && |w.jobs| <= p.maxJobsTotal
    && (forall id :: AbortsKnown(w, id))
    && (forall id :: Good(p, w, id))
  }

  // ---------------------------------------------------------------------------
  // Every step keeps it
  // ---------------------------------------------------------------------------

  lemma EnqueueKeepsGood(p: Policy, w: World, e: Event, id: JobId)
    requires Good(p, w, id) && AbortsKnown(w, id) && e.Enqueue?
    ensures Good(p, Next(p, w, e), id)
  {
  }

  lemma TaskKeepsGood(p: Policy, w: World, e: Event, id: JobId)
    requires Good(p, w, id) && AbortsKnown(w, id) && (e.Spawn? || e.OfferHandle? || e.WorkerAborts? || e.AbortGathered? || e.Purge?)
    ensures Good(p, Next(p, w, e), id)
  {
  }

  lemma StartKeepsGood(p: Policy, w: World, e: Event, id: JobId)
    requires Good(p, w, id) && AbortsKnown(w, id) && e.WorkerStarts?
    ensures Good(p, Next(p, w, e), id)
  {
  }

  lemma SuccessKeepsGood(p: Policy, w: World, e: Event, id: JobId)
    requires Good(p, w, id) && AbortsKnown(w, id) && e.WorkerSucceeds?
    ensures Good(p, Next(p, w, e), id)
  {
  }

  lemma FailureKeepsGood(p: Policy, w: World, e: Event, id: JobId)
    requires Good(p, w, id) && AbortsKnown(w, id) && e.WorkerFails?
    ensures Good(p, Next(p, w, e), id)
  {
  }

  lemma CancelKeepsGood(p: Policy, w: World, e: Event, id: JobId)
    requires Good(p, w, id) && AbortsKnown(w, id) && e.Cancel?
    ensures Good(p, Next(p, w, e), id)
  {
  }

  lemma CancelSessionKeepsGood(p: Policy, w: World, e: Event, id: JobId)
    requires Good(p, w, id) && AbortsKnown(w, id) && e.CancelSession?
    ensures Good(p, Next(p, w, e), id)
  {
  }

  lemma NextKeepsAbortsKnown(p: Policy, w: World, e: Event, id: JobId)
    requires AbortsKnown(w, id) && (id in w.jobs ==> id in w.tasks)
    ensures AbortsKnown(Next(p, w, e), id)
  {
  }

  lemma NextKeepsSize(p: Policy, w: World, e: Event)
    requires |w.jobs| <= p.maxJobsTotal
    ensures |Next(p, w, e).jobs| <= p.maxJobsTotal
  {
    match e
    case Enqueue(_, _, _, _, now) => SizeAfterPurge(w.jobs, now);
    case Cancel(_, _, purgeNow, _) => SizeAfterPurge(w.jobs, purgeNow);
    case CancelSession(session, purgeNow, now) =>
      SizeAfterPurge(w.jobs, purgeNow);
      var kept := Purged(w.jobs, purgeNow);
      var after := SessionCancelled(kept, session, now, p.terminalRetentionSecs);
      assert after.Keys == kept.Keys;
      assert |after| == |after.Keys| && |kept| == |kept.Keys|;
    case Purge(now) => SizeAfterPurge(w.jobs, now);
    case _ =>
  }

  lemma NextKeepsInvariant(p: Policy, w: World, e: Event)
    requires Invariant(p, w)
    ensures Invariant(p, Next(p, w, e))
  {
    NextKeepsSize(p, w, e);
    forall id
      ensures Good(p, Next(p, w, e), id) && AbortsKnown(Next(p, w, e), id)
    {
      assert Good(p, w, id) && AbortsKnown(w, id);
      NextKeepsAbortsKnown(p, w, e, id);
      if e.Enqueue? {
        EnqueueKeepsGood(p, w, e, id);
      } else if e.Cancel? {
        CancelKeepsGood(p, w, e, id);
      } else if e.CancelSession? {
        CancelSessionKeepsGood(p, w, e, id);
      } else if e.WorkerStarts? {
        StartKeepsGood(p, w, e, id);
      } else if e.WorkerSucceeds? {
        SuccessKeepsGood(p, w, e, id);
      } else if e.WorkerFails? {
        FailureKeepsGood(p, w, e, id);
      } else {
        TaskKeepsGood(p, w, e, id);
      }
    }
  }

  lemma {:induction false} RunKeepsInvariant(p: Policy, w: World, events: seq<Event>)
    requires Invariant(p, w)
    ensures Invariant(p, Run(p, w, events))
    decreases |events|
  {
    if events != [] {
      NextKeepsInvariant(p, w, events[0]);
      RunKeepsInvariant(p, Next(p, w, events[0]), events[1..]);
    }
  }

  lemma Reachable(p: Policy, events: seq<Event>, id: JobId)
    ensures Invariant(p, Run(p, START, events)) && Good(p, Run(p, START, events), id)
  {
    RunKeepsInvariant(p, START, events);
  }

  // ---------------------------------------------------------------------------
  // Results
  // ---------------------------------------------------------------------------

  /** Record coherence, in every reachable state. */
  lemma RecordsCoherent(p: Policy, events: seq<Event>, id: JobId)
    requires id in Run(p, START, events).jobs
    ensures Coherent(id, Run(p, START, events).jobs[id], p.terminalRetentionSecs)
    ensures |Run(p, START, events).jobs| <= p.maxJobsTotal
  {
    Reachable(p, events, id);
  }

  /** The error for a missing artifact cannot occur: a download succeeds exactly when the
      job did. */
  lemma DownloadNeverMissesArtifact(p: Policy, events: seq<Event>, id: JobId)
    requires id in Run(p, START, events).jobs
    ensures var r := Run(p, START, events).jobs[id];
            && Download(r) != Err(ArtifactMissing)
            && (Download(r).Ok? <==> r.job.status == Succeeded)
  {
    Reachable(p, events, id);
  }

  /** A user's cancellation ends a live job of that user and no other job of anyone; the
      worker is told to abort if its handle is known. */
  lemma CancelNeedsOwner(p: Policy, w: World, owner: string, id: JobId, purgeNow: nat, now: nat)
    ensures var w', kept := Next(p, w, Cancel(owner, id, purgeNow, now)), Purged(w.jobs, purgeNow);
            && w'.jobs.Keys == kept.Keys && w'.tasks == w.tasks && w'.aborting == w.aborting
            && (forall other :: other in kept && other != id ==> w'.jobs[other] == kept[other])
            && if id in kept && kept[id].ownerUser == owner && !kept[id].job.status.IsTerminal() then
                 && w'.jobs[id].job.status == Cancelled
                 && w'.aborted == if kept[id].hasAbortHandle then w.aborted + {id} else w.aborted
               else
                 w'.jobs == kept && w'.aborted == w.aborted
  {
    OnlyOwnersCancel(Purged(w.jobs, purgeNow), owner, id, now, p.terminalRetentionSecs);
  }

  /** The end of a session ends its own live jobs, and gathers their handles. */
  lemma CancelSessionNeedsSession(p: Policy, w: World, session: Digest, purgeNow: nat, now: nat)
    ensures var w', kept := Next(p, w, CancelSession(session, purgeNow, now)), Purged(w.jobs, purgeNow);
            && EndedWithSession(kept, w'.jobs, session)
            && forall id :: id in w'.aborting <==>
                 id in w.aborting
                 || (id in kept && kept[id].session == session && !kept[id].job.status.IsTerminal()
                     && kept[id].hasAbortHandle)
  {
    SessionEnds(Purged(w.jobs, purgeNow), session, now, p.terminalRetentionSecs);
  }

  /** No job is orphaned: a live record has a worker that has not returned. */
  lemma LiveJobsHaveWorkers(p: Policy, events: seq<Event>, id: JobId)
    requires Live(Run(p, START, events).jobs, id)
    ensures id in Run(p, START, events).tasks && Run(p, START, events).tasks[id].stage != Done
  {
    Reachable(p, events, id);
  }

  /** Abort hand-off: for every order of offering the handle and ending the job, a job
      that was cancelled has had its worker told to abort once the handle was offered and
      the gathered handles were used, and no terminal record keeps a handle. */
  lemma AbortHandOff(p: Policy, events: seq<Event>, id: JobId)
    requires id in Run(p, START, events).jobs && Run(p, START, events).jobs[id].job.status.IsTerminal()
    ensures var w := Run(p, START, events);
            && id in w.tasks && !w.jobs[id].hasAbortHandle
            && (w.jobs[id].job.status == Cancelled && w.tasks[id].handleOffered && id !in w.aborting
                ==> id in w.aborted)
  {
    Reachable(p, events, id);
  }

  /** A worker is told to abort only after its job has ended. */
  lemma OnlyEndedJobsAborted(p: Policy, events: seq<Event>, id: JobId)
    requires id in Run(p, START, events).aborted && id in Run(p, START, events).jobs
    ensures Run(p, START, events).jobs[id].job.status.IsTerminal()
  {
    Reachable(p, events, id);
  }

  /** No step takes a live job out of the registry. */
  lemma LiveJobsStay(p: Policy, w: World, e: Event, id: JobId)
    requires Invariant(p, w) && Live(w.jobs, id)
    ensures id in Next(p, w, e).jobs
  {
    assert Good(p, w, id);
  }

  lemma StepKeepsTerminalRecord(p: Policy, w: World, e: Event, id: JobId)
    requires Invariant(p, w) && id in w.jobs && w.jobs[id].job.status.IsTerminal()
    requires id in Next(p, w, e).jobs
    ensures Next(p, w, e).jobs[id] == w.jobs[id]
  {
    assert Good(p, w, id);
  }

  lemma StepKeepsGone(p: Policy, w: World, e: Event, id: JobId)
    requires id in w.tasks && id !in w.jobs
    ensures id in Next(p, w, e).tasks && id !in Next(p, w, e).jobs
  {
  }

  lemma {:induction false} GoneStaysGone(p: Policy, w: World, events: seq<Event>, id: JobId)
    requires id in w.tasks && id !in w.jobs
    ensures id !in Run(p, w, events).jobs
    decreases |events|
  {
    if events != [] {
      StepKeepsGone(p, w, events[0], id);
      GoneStaysGone(p, Next(p, w, events[0]), events[1..], id);
    }
  }

  /** Terminal finality: a job that has succeeded, failed or been cancelled keeps its
      whole record unchanged for as long as the registry retains it. */
  lemma {:induction false} TerminalIsFinal(p: Policy, w: World, events: seq<Event>, id: JobId)
    requires Invariant(p, w) && id in w.jobs && w.jobs[id].job.status.IsTerminal()
    requires id in Run(p, w, events).jobs
    ensures Run(p, w, events).jobs[id] == w.jobs[id]
    decreases |events|
  {
    if events != [] {
      var w' := Next(p, w, events[0]);
      NextKeepsInvariant(p, w, events[0]);
      assert Good(p, w, id);
      if id in w'.jobs {
        StepKeepsTerminalRecord(p, w, events[0], id);
        TerminalIsFinal(p, w', events[1..], id);
      } else {
        GoneStaysGone(p, w', events[1..], id);
      }
    }
  }

  lemma StepKeepsProgress(p: Policy, w: World, e: Event, id: JobId)
    requires Invariant(p, w) && id in w.jobs && id in Next(p, w, e).jobs
    ensures w.jobs[id].job.progress.percent <= Next(p, w, e).jobs[id].job.progress.percent
  {
    NextKeepsInvariant(p, w, e);
    assert Good(p, w, id) && Good(p, Next(p, w, e), id);
    if w.jobs[id].job.status.IsTerminal() {
      StepKeepsTerminalRecord(p, w, e, id);
    }
  }

  /** The progress shown for a job never goes back. */
  lemma {:induction false} ProgressNeverDecreases(p: Policy, w: World, events: seq<Event>, id: JobId)
    requires Invariant(p, w) && id in w.jobs && id in Run(p, w, events).jobs
    ensures w.jobs[id].job.progress.percent <= Run(p, w, events).jobs[id].job.progress.percent
    decreases |events|
  {
    if events != [] {
      var w' := Next(p, w, events[0]);
      NextKeepsInvariant(p, w, events[0]);
      assert Good(p, w, id);
      if id in w'.jobs {
        StepKeepsProgress(p, w, events[0], id);
        ProgressNeverDecreases(p, w', events[1..], id);
      } else {
        GoneStaysGone(p, w', events[1..], id);
      }
    }
  }
}
