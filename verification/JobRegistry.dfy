/** The registry of asynchronous report exports. Every operation is one locked section;
    clock readings are arguments. */
module JobRegistry {
  import opened Sets
  import opened Wrappers
  import SessionRegistry
  import Rfc3339

  type Digest = SessionRegistry.Digest

  datatype JobId = JobId(uuid: string)

  datatype JobStatus = Queued | Running | Succeeded | Failed | Cancelling | Cancelled | Expired {
    predicate IsTerminal() {
      this == Succeeded || this == Failed || this == Cancelled || this == Expired
    }
  }

  /** A moment, kept as the second it renders. */
  datatype Timestamp = Timestamp(epochSecs: nat) {
    function Text(): string { Rfc3339.FormatRfc3339(epochSecs) }
  }

  datatype JobProgress = JobProgress(percent: nat, message: string)

  datatype JobArtifact = JobArtifact(bytes: seq<bv8>, contentType: string, filename: string)

  datatype JobResult = JobResult(contentType: string, filename: string, size: nat, location: string)

  /** The public view of a job. The fields that no operation changes are left out. */
  datatype Job = Job(
    id: JobId,
    status: JobStatus,
    progress: JobProgress,
    createdAt: Timestamp,
    startedAt: Option<Timestamp>,
    completedAt: Option<Timestamp>,
    expiresAt: Option<Timestamp>,
    resultLocation: Option<string>,
    error: Option<string>,
    result: Option<JobResult>)

  /** `hasAbortHandle` says that the record holds the handle of the job's own worker. */
  datatype JobRecord = JobRecord(
    ownerUser: string,
    session: Digest,
    job: Job,
    artifact: Option<JobArtifact>,
    hasAbortHandle: bool,
    purgeAfter: Option<nat>)

  type Jobs = map<JobId, JobRecord>

  datatype Policy = Policy(maxJobsTotal: nat, terminalRetentionSecs: nat)

  datatype JobError = NotFound | Conflict | TooManyRequests | ArtifactMissing

  datatype CancelOutcome = CancellationRequested | AlreadyTerminal

  function QueuedJob(id: JobId, now: nat): Job {
    Job(id, Queued, JobProgress(0, "queued"), Timestamp(now), None, None, None, None, None, None)
  }

  function NewRecord(owner: string, session: Digest, job: Job): JobRecord {
    JobRecord(owner, session, job, None, false, None)
  }

  function Purged(jobs: Jobs, now: nat): Jobs {
    map id | id in jobs && !(jobs[id].purgeAfter.Some? && jobs[id].purgeAfter.value <= now) :: jobs[id]
  }

  function Inserted(jobs: Jobs, policy: Policy, record: JobRecord, now: nat): (Jobs, bool) {
    var kept := Purged(jobs, now);
    if |kept| >= policy.maxJobsTotal then (kept, false) else (kept[record.job.id := record], true)
  }

  function RunningRecord(r: JobRecord, now: nat): JobRecord {
    r.(job := r.job.(status := Running, startedAt := Some(Timestamp(now)), progress := JobProgress(0, "running")))
  }

  function ResultLocation(id: JobId): string {
    "/api/v1/jobs/" + id.uuid + "/result"
  }

  function SucceededRecord(id: JobId, r: JobRecord, artifact: JobArtifact, now: nat, retention: nat): JobRecord {
    var location := ResultLocation(id);
    r.(job := r.job.(
         status := Succeeded,
         completedAt := Some(Timestamp(now)),
         expiresAt := Some(Timestamp(now + retention)),
         resultLocation := Some(location),
         progress := JobProgress(100, "succeeded"),
         result := Some(JobResult(artifact.contentType, artifact.filename, |artifact.bytes|, location))),
       artifact := Some(artifact),
       hasAbortHandle := false,
       purgeAfter := Some(now + retention))
  }

  function FailedRecord(r: JobRecord, error: string, now: nat, retention: nat): JobRecord {
    r.(job := r.job.(
         status := Failed,
         completedAt := Some(Timestamp(now)),
         expiresAt := Some(Timestamp(now + retention)),
         progress := JobProgress(100, "failed"),
         error := Some(error)),
       hasAbortHandle := false,
       purgeAfter := Some(now + retention))
  }

  /** Cancelled by its user: an artifact would stay, but a live job has none. */
  function CancelledByUser(r: JobRecord, now: nat, retention: nat): JobRecord {
    r.(job := r.job.(
         status := Cancelled,
         completedAt := Some(Timestamp(now)),
         expiresAt := Some(Timestamp(now + retention)),
         progress := JobProgress(100, "cancelled")),
       hasAbortHandle := false,
       purgeAfter := Some(now + retention))
  }

  /** Cancelled with its session. */
  function CancelledInPlace(r: JobRecord, now: nat, retention: nat): JobRecord {
    CancelledByUser(r, now, retention).(artifact := None)
  }

  /** What `mark_job_running` and the finishers check: only a cancelled record is safe
      from them, a finished one is not. */
  predicate Overwritable(jobs: Jobs, id: JobId) {
    id in jobs && jobs[id].job.status != Cancelled
  }

  function MarkedRunning(jobs: Jobs, id: JobId, now: nat): Jobs {
    if Overwritable(jobs, id) then jobs[id := RunningRecord(jobs[id], now)] else jobs
  }

  function MarkedSucceeded(jobs: Jobs, id: JobId, artifact: JobArtifact, now: nat, retention: nat): Jobs {
    if Overwritable(jobs, id) then jobs[id := SucceededRecord(id, jobs[id], artifact, now, retention)] else jobs
  }

  function MarkedFailed(jobs: Jobs, id: JobId, error: string, now: nat, retention: nat): Jobs {
    if Overwritable(jobs, id) then jobs[id := FailedRecord(jobs[id], error, now, retention)] else jobs
  }

  predicate Live(jobs: Jobs, id: JobId) {
    id in jobs && !jobs[id].job.status.IsTerminal()
  }

  function HandleStored(jobs: Jobs, id: JobId): Jobs {
    if Live(jobs, id) then jobs[id := jobs[id].(hasAbortHandle := true)] else jobs
  }

  /** A user may cancel a live job of their own. */
  predicate Cancellable(jobs: Jobs, owner: string, id: JobId) {
    Live(jobs, id) && jobs[id].ownerUser == owner
  }

  function UserCancelled(jobs: Jobs, owner: string, id: JobId, now: nat, retention: nat): Jobs {
    if Cancellable(jobs, owner, id) then jobs[id := CancelledByUser(jobs[id], now, retention)] else jobs
  }

  predicate BoundTo(r: JobRecord, session: Digest) {
    r.session == session && !r.job.status.IsTerminal()
  }

  /** The live jobs of a session. */
  function LiveJobsOf(jobs: Jobs, session: Digest): set<JobId> {
    set id | id in jobs && BoundTo(jobs[id], session)
  }

  function CancelledIfBound(r: JobRecord, session: Digest, now: nat, retention: nat): JobRecord {
    if BoundTo(r, session) then CancelledInPlace(r, now, retention) else r
  }

  function SessionCancelled(jobs: Jobs, session: Digest, now: nat, retention: nat): Jobs {
    map id | id in jobs :: CancelledIfBound(jobs[id], session, now, retention)
  }

  /** Those of the jobs whose records hold the handle of their worker. */
  function WithHandle(jobs: Jobs, ids: set<JobId>): set<JobId> {
    set id | id in ids && id in jobs && jobs[id].hasAbortHandle
  }

  lemma AllCounted(jobs: Jobs, counted: set<JobId>, session: Digest)
    requires forall id :: id in counted <==> id in jobs && BoundTo(jobs[id], session)
    ensures counted == LiveJobsOf(jobs, session)
  {
  }

  lemma AllGathered(jobs: Jobs, counted: set<JobId>, handles: set<JobId>)
    requires forall id :: id in handles <==> id in counted && id in jobs && jobs[id].hasAbortHandle
    ensures handles == WithHandle(jobs, counted)
  {
  }

  lemma AllCancelled(jobs: Jobs, after: Jobs, session: Digest, now: nat, retention: nat)
    requires forall id :: id in after <==> id in jobs
    requires forall id :: id in jobs ==> after[id] == CancelledIfBound(jobs[id], session, now, retention)
    ensures after == SessionCancelled(jobs, session, now, retention)
    ensures LiveJobsOf(after, session) == {}
  {
  }

  /** Exactly the live jobs of the session became cancelled, and no other job changed. */
  ghost predicate EndedWithSession(jobs: Jobs, after: Jobs, session: Digest) {
    && after.Keys == jobs.Keys
    && forall id :: id in jobs ==>
         if jobs[id].session == session && !jobs[id].job.status.IsTerminal() then
           after[id].job.status == Cancelled && after[id].artifact == None
         else
           after[id] == jobs[id]
  }

  lemma SessionEnds(jobs: Jobs, session: Digest, now: nat, retention: nat)
    ensures EndedWithSession(jobs, SessionCancelled(jobs, session, now, retention), session)
    ensures LiveJobsOf(jobs, session) ==
            set id | id in jobs && jobs[id].session == session && !jobs[id].job.status.IsTerminal()
  {
  }

  /** A cancellation by a user touches a live job of that user and nothing else: whoever
      asks for another's job leaves all as it was. */
  lemma OnlyOwnersCancel(jobs: Jobs, owner: string, id: JobId, now: nat, retention: nat)
    ensures var after := UserCancelled(jobs, owner, id, now, retention);
            && after.Keys == jobs.Keys
            && (forall other :: other in jobs && other != id ==> after[other] == jobs[other])
            && (id in jobs && (jobs[id].ownerUser != owner || jobs[id].job.status.IsTerminal()) ==> after == jobs)
            && (id in jobs && jobs[id].ownerUser == owner && !jobs[id].job.status.IsTerminal() ==>
                  after[id].job.status == Cancelled)
  {
  }

  /** A cancelled job shows when that was, and stays exactly until its retention is over. */
  lemma CancelledIsRetained(jobs: Jobs, id: JobId, now: nat, retention: nat)
    requires id in jobs && !jobs[id].job.status.IsTerminal()
    ensures var byUser := UserCancelled(jobs, jobs[id].ownerUser, id, now, retention);
            var bySession := SessionCancelled(jobs, jobs[id].session, now, retention);
            && RetainedFrom(byUser, id, now, retention) && RetainedFrom(bySession, id, now, retention)
  {
    var byUser := UserCancelled(jobs, jobs[id].ownerUser, id, now, retention);
    var bySession := SessionCancelled(jobs, jobs[id].session, now, retention);
    assert byUser[id].purgeAfter == Some(now + retention) && bySession[id].purgeAfter == Some(now + retention);
  }

  ghost predicate RetainedFrom(jobs: Jobs, id: JobId, now: nat, retention: nat) {
    && id in jobs && jobs[id].job.completedAt == Some(Timestamp(now))
    && forall later: nat :: id in Purged(jobs, later) <==> later < now + retention
  }

  /** The user who enqueued a job sees it, queued since then, whenever a purge comes. */
  lemma InsertedIsSeen(jobs: Jobs, policy: Policy, owner: string, session: Digest, id: JobId,
                       createdAt: nat, now: nat, later: nat)
    requires Inserted(jobs, policy, NewRecord(owner, session, QueuedJob(id, createdAt)), now).1
    ensures var seen := Purged(Inserted(jobs, policy, NewRecord(owner, session, QueuedJob(id, createdAt)), now).0, later);
            && id in seen && seen[id].ownerUser == owner && seen[id].session == session
            && seen[id].job.id == id && seen[id].job.status == Queued
            && seen[id].job.createdAt == Timestamp(createdAt) && seen[id].job.startedAt == None
  {
  }

  /** A job marked as running shows since when, and keeps its owner. */
  lemma RunningIsSeen(jobs: Jobs, id: JobId, now: nat)
    requires id in jobs && !jobs[id].job.status.IsTerminal()
    ensures var after := MarkedRunning(jobs, id, now);
            && after.Keys == jobs.Keys && (forall other :: other in jobs && other != id ==> after[other] == jobs[other])
            && after[id].ownerUser == jobs[id].ownerUser && after[id].session == jobs[id].session
            && after[id].job.status == Running && after[id].job.startedAt == Some(Timestamp(now))
            && after[id].job.createdAt == jobs[id].job.createdAt
  {
  }

  class JobRegistry {
    const policy: Policy
    var jobs: Jobs
    /** The jobs whose workers were told to abort. */
    var aborted: set<JobId>

    constructor (policy: Policy)
      ensures this.policy == policy && jobs == map[] && aborted == {}
    {
      this.policy := policy;
      jobs := map[];
      aborted := {};
    }

    method PurgeExpiredJobs(now: nat) returns (removed: nat)
      modifies this`jobs
      ensures jobs == Purged(old(jobs), now)
      ensures removed == |old(jobs)| - |jobs|
    {
      var before := |jobs|;
      SizeAfterPurge(jobs, now);
      jobs := map id | id in jobs && !(jobs[id].purgeAfter.Some? && jobs[id].purgeAfter.value <= now) :: jobs[id];
      removed := before - |jobs|;
    }

    method InsertJob(owner: string, session: Digest, job: Job, now: nat) returns (r: Result<(), JobError>)
      modifies this`jobs
      ensures var (after, inserted) := Inserted(old(jobs), policy, NewRecord(owner, session, job), now);
              jobs == after && r == if inserted then Ok(()) else Err(TooManyRequests)
    {
      var _ := PurgeExpiredJobs(now);
      if |jobs| >= policy.maxJobsTotal {
        return Err(TooManyRequests);
      }
      jobs := jobs[job.id := NewRecord(owner, session, job)];
      return Ok(());
    }

    method SetJobAbortHandle(id: JobId) returns (r: Result<(), JobError>)
      modifies this
      ensures r == if id in old(jobs) then Ok(()) else Err(NotFound)
      ensures jobs == HandleStored(old(jobs), id)
      ensures aborted == if id in old(jobs) && !Live(old(jobs), id) then old(aborted) + {id} else old(aborted)
    {
      if id !in jobs {
        return Err(NotFound);
      }
      if jobs[id].job.status.IsTerminal() {
        aborted := aborted + {id};
        return Ok(());
      }
      jobs := jobs[id := jobs[id].(hasAbortHandle := true)];
      return Ok(());
    }

    method MarkJobRunning(id: JobId, now: nat) returns (r: Result<(), JobError>)
      modifies this`jobs
      ensures jobs == MarkedRunning(old(jobs), id, now)
      ensures r == if id !in old(jobs) then Err(NotFound)
                   else if Overwritable(old(jobs), id) then Ok(()) else Err(Conflict)
    {
      if id !in jobs {
        return Err(NotFound);
      }
      var record := jobs[id];
      if record.job.status == Cancelled {
        return Err(Conflict);
      }
      record := record.(job := record.job.(status := Running));
      record := record.(job := record.job.(startedAt := Some(Timestamp(now))));
      record := record.(job := record.job.(progress := JobProgress(0, "running")));
      jobs := jobs[id := record];
      return Ok(());
    }

    method MarkJobSucceeded(id: JobId, artifact: JobArtifact, now: nat) returns (r: Result<(), JobError>)
      modifies this`jobs
      ensures r == if id in old(jobs) then Ok(()) else Err(NotFound)
      ensures jobs == MarkedSucceeded(old(jobs), id, artifact, now, policy.terminalRetentionSecs)
    {
      if id !in jobs {
        return Err(NotFound);
      }
      var record := jobs[id];
      if record.job.status == Cancelled {
        return Ok(());
      }
      var location := ResultLocation(id);
      var job := record.job.(status := Succeeded);
      job := job.(completedAt := Some(Timestamp(now)));
      job := job.(expiresAt := Some(Timestamp(now + policy.terminalRetentionSecs)));
      job := job.(resultLocation := Some(location));
      job := job.(progress := JobProgress(100, "succeeded"));
      job := job.(result := Some(JobResult(artifact.contentType, artifact.filename, |artifact.bytes|, location)));
      record := record.(job := job);
      record := record.(artifact := Some(artifact));
      record := record.(hasAbortHandle := false);
      record := record.(purgeAfter := Some(now + policy.terminalRetentionSecs));
      jobs := jobs[id := record];
      return Ok(());
    }

    method MarkJobFailed(id: JobId, error: string, now: nat) returns (r: Result<(), JobError>)
      modifies this`jobs
      ensures r == if id in old(jobs) then Ok(()) else Err(NotFound)
      ensures jobs == MarkedFailed(old(jobs), id, error, now, policy.terminalRetentionSecs)
    {
      if id !in jobs {
        return Err(NotFound);
      }
      var record := jobs[id];
      if record.job.status == Cancelled {
        return Ok(());
      }
      var job := record.job.(status := Failed);
      job := job.(completedAt := Some(Timestamp(now)));
      job := job.(expiresAt := Some(Timestamp(now + policy.terminalRetentionSecs)));
      job := job.(progress := JobProgress(100, "failed"));
      job := job.(error := Some(error));
      record := record.(job := job);
      record := record.(hasAbortHandle := false);
      record := record.(purgeAfter := Some(now + policy.terminalRetentionSecs));
      jobs := jobs[id := record];
      return Ok(());
    }

    method JobSnapshot(owner: string, id: JobId, now: nat) returns (r: Result<Job, JobError>)
      modifies this`jobs
      ensures jobs == Purged(old(jobs), now)
      ensures r == if id in jobs && jobs[id].ownerUser == owner then Ok(jobs[id].job) else Err(NotFound)
    {
      var _ := PurgeExpiredJobs(now);
      if id !in jobs || jobs[id].ownerUser != owner {
        return Err(NotFound);
      }
      return Ok(jobs[id].job);
    }

    /** Reads the clock for the purge and again for the cancellation. */
    method CancelJobRecord(owner: string, id: JobId, purgeNow: nat, now: nat)
      returns (r: Result<CancelOutcome, JobError>)
      modifies this
      ensures var kept := Purged(old(jobs), purgeNow);
              && jobs == UserCancelled(kept, owner, id, now, policy.terminalRetentionSecs)
              && aborted == (if Cancellable(kept, owner, id) then old(aborted) + WithHandle(kept, {id}) else old(aborted))
              && r == if Cancellable(kept, owner, id) then Ok(CancellationRequested)
                      else if id in kept && kept[id].ownerUser == owner then Ok(AlreadyTerminal)
                      else Err(NotFound)
      ensures var kept := Purged(old(jobs), purgeNow);
              if id !in kept || kept[id].ownerUser != owner then
                r == Err(NotFound) && jobs == kept && aborted == old(aborted)
              else if kept[id].job.status.IsTerminal() then
                r == Ok(AlreadyTerminal) && jobs == kept && aborted == old(aborted)
              else
                && r == Ok(CancellationRequested) && id in jobs && jobs[id].job.status == Cancelled
                && aborted == (if kept[id].hasAbortHandle then old(aborted) + {id} else old(aborted))
    {
      var _ := PurgeExpiredJobs(purgeNow);
      if id !in jobs || jobs[id].ownerUser != owner {
        return Err(NotFound);
      }
      var record := jobs[id];
      if record.job.status.IsTerminal() {
        return Ok(AlreadyTerminal);
      }
      var job := record.job.(status := Cancelled);
      job := job.(completedAt := Some(Timestamp(now)));
      job := job.(expiresAt := Some(Timestamp(now + policy.terminalRetentionSecs)));
      job := job.(progress := JobProgress(100, "cancelled"));
      record := record.(job := job);
      if record.hasAbortHandle {
        aborted := aborted + {id};
        record := record.(hasAbortHandle := false);
      }
      record := record.(purgeAfter := Some(now + policy.terminalRetentionSecs));
      jobs := jobs[id := record];
      return Ok(CancellationRequested);
    }

    /** Cancels exactly the live jobs bound to the session, tells how many there were,
        and aborts those workers whose handle is known. */
    method CancelJobsForSession(session: Digest, purgeNow: nat, now: nat) returns (cancelled: nat)
      modifies this
      ensures var kept := Purged(old(jobs), purgeNow);
              && cancelled == |LiveJobsOf(kept, session)|
              && jobs == SessionCancelled(kept, session, now, policy.terminalRetentionSecs)
              && aborted == old(aborted) + WithHandle(kept, LiveJobsOf(kept, session))
      ensures LiveJobsOf(jobs, session) == {}
      ensures EndedWithSession(Purged(old(jobs), purgeNow), jobs, session)
      ensures var kept := Purged(old(jobs), purgeNow);
              && cancelled == |set id | id in kept && kept[id].session == session && !kept[id].job.status.IsTerminal()|
              && forall id :: id in aborted <==>
                   id in old(aborted)
                   || (id in kept && kept[id].session == session && !kept[id].job.status.IsTerminal()
                       && kept[id].hasAbortHandle)
    {
      var _ := PurgeExpiredJobs(purgeNow);
      ghost var kept := jobs;
      var handles;
      cancelled, handles := CancelLiveJobs(session, now);
      aborted := aborted + handles;
      SessionEnds(kept, session, now, policy.terminalRetentionSecs);
    }

    /** The loop over all records, under the lock. */
    method CancelLiveJobs(session: Digest, now: nat) returns (cancelled: nat, handles: set<JobId>)
      modifies this`jobs
      ensures cancelled == |LiveJobsOf(old(jobs), session)|
      ensures jobs == SessionCancelled(old(jobs), session, now, policy.terminalRetentionSecs)
      ensures handles == WithHandle(old(jobs), LiveJobsOf(old(jobs), session))
    {
      handles := {};
      cancelled := 0;
      var rest := jobs.Keys;
      ghost var before := jobs;
      ghost var counted: set<JobId> := {};
      while rest != {}
        invariant forall id :: id in jobs <==> id in before
        invariant forall id :: id in rest ==> id in jobs && jobs[id] == before[id]
        invariant forall id :: id in counted <==> id in before && id !in rest && BoundTo(before[id], session)
        invariant forall id :: id in before && id !in rest ==>
                    jobs[id] == CancelledIfBound(before[id], session, now, policy.terminalRetentionSecs)
        invariant cancelled == |counted|
        invariant forall id :: id in handles <==> id in counted && id in before && before[id].hasAbortHandle
      {
        var id :| id in rest;
        rest := rest - {id};
        var record := jobs[id];
        if record.session != session || record.job.status.IsTerminal() {
          continue;
        }
        var hadHandle := CancelJobRecordInPlace(id, now);
        if hadHandle {
          handles := handles + {id};
        }
        cancelled := cancelled + 1;
        counted := counted + {id};
      }
      AllCounted(before, counted, session);
      AllGathered(before, counted, handles);
      AllCancelled(before, jobs, session, now, policy.terminalRetentionSecs);
    }

    method CancelJobRecordInPlace(id: JobId, now: nat) returns (hadHandle: bool)
      requires id in jobs
      modifies this`jobs
      ensures jobs == old(jobs)[id := CancelledInPlace(old(jobs)[id], now, policy.terminalRetentionSecs)]
      ensures hadHandle == old(jobs)[id].hasAbortHandle
    {
      var record := jobs[id];
      var job := record.job.(status := Cancelled);
      job := job.(completedAt := Some(Timestamp(now)));
      job := job.(expiresAt := Some(Timestamp(now + policy.terminalRetentionSecs)));
      job := job.(progress := JobProgress(100, "cancelled"));
      record := record.(job := job);
      record := record.(artifact := None);
      record := record.(purgeAfter := Some(now + policy.terminalRetentionSecs));
      hadHandle := record.hasAbortHandle;
      record := record.(hasAbortHandle := false);
      jobs := jobs[id := record];
    }

    method JobArtifact(owner: string, id: JobId, now: nat) returns (r: Result<JobArtifact, JobError>)
      modifies this`jobs
      ensures jobs == Purged(old(jobs), now)
      ensures r == if id !in jobs || jobs[id].ownerUser != owner then Err(NotFound) else Download(jobs[id])
    {
      var _ := PurgeExpiredJobs(now);
      if id !in jobs || jobs[id].ownerUser != owner {
        return Err(NotFound);
      }
      return Download(jobs[id]);
    }
  }

  function Download(r: JobRecord): Result<JobArtifact, JobError> {
    if r.job.status != Succeeded then Err(Conflict)
    else if r.artifact.Some? then Ok(r.artifact.value)
    else Err(ArtifactMissing)
  }

  lemma SizeAfterPurge(jobs: Jobs, now: nat)
    ensures |Purged(jobs, now)| <= |jobs|
  {
    SubsetSize(Purged(jobs, now).Keys, jobs.Keys);
    assert |Purged(jobs, now)| == |Purged(jobs, now).Keys| && |jobs| == |jobs.Keys|;
  }
}
