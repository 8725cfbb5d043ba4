/** Report exports over both registries: every export holds its session from before its
    job is inserted until its worker has returned. Steps of all exports interleave with
    each other and with every other use of the sessions. */
module ExportHolds {
  import opened Wrappers
  import opened SessionRegistry
  import opened JobRegistry
  import SessionRuns
  import JobRuns

  /** The two registries, the session each export was started under, and the exports
      that hold their session but have not inserted their job yet. */
  datatype System = System(
    sessions: SessionRuns.World,
    jobs: JobRuns.World,
    sessionOf: map<JobId, Digest>,
    pending: set<JobId>)

  datatype Event =
    | TakeHold(id: JobId, token: string, now: U64)
    | Insert(id: JobId, owner: string, createdAt: nat, insertedAt: nat)
    | JobStep(jobEvent: JobRuns.Event)
    | WorkerReturned(id: JobId)
    | SessionStep(sessionEvent: SessionRuns.Event)

  datatype Config = Config(session: SessionRuns.Config, job: Policy)

  const START := System(SessionRuns.START, JobRuns.START, map[], {})

  function GuardOf(id: JobId): SessionRuns.GuardId {
    SessionRuns.GuardId(id.uuid)
  }

  function SessionNext(c: Config, s: System, e: SessionRuns.Event): SessionRuns.World {
    SessionRuns.Next(c.session, s.sessions, e)
  }

  /** One step. Exports are the only holders of guards; a failed insertion drops the
      hold, and so does the end of the worker. */
  function Next(c: Config, s: System, e: Event): System {
    match e
    case TakeHold(id, token, now) =>
      if id in s.sessionOf then s
      else
        var held := SessionNext(c, s, SessionRuns.Hold(GuardOf(id), token, now));
        if GuardOf(id) in held.guards then
          s.(sessions := held, sessionOf := s.sessionOf[id := Digest(token)], pending := s.pending + {id})
        else s.(sessions := held)
    case Insert(id, owner, createdAt, now) =>
      if id !in s.pending || id !in s.sessionOf then s
      else
        var jobs := JobRuns.Next(c.job, s.jobs, JobRuns.Enqueue(id, owner, s.sessionOf[id], createdAt, now));
        s.(jobs := jobs, pending := s.pending - {id},
           sessions := if id in jobs.tasks then s.sessions else SessionNext(c, s, SessionRuns.Drop(GuardOf(id))))
    case JobStep(jobEvent) =>
      if jobEvent.Enqueue? then s else s.(jobs := JobRuns.Next(c.job, s.jobs, jobEvent))
    case WorkerReturned(id) =>
      if JobRuns.At(s.jobs, id, JobRuns.Done) then s.(sessions := SessionNext(c, s, SessionRuns.Drop(GuardOf(id)))) else s
    case SessionStep(sessionEvent) =>
      if sessionEvent.Hold? || sessionEvent.Drop? then s else s.(sessions := SessionNext(c, s, sessionEvent))
  }

  function Run(c: Config, s: System, events: seq<Event>): System
    decreases |events|
  {
    if events == [] then s else Run(c, Next(c, s, events[0]), events[1..])
  }

  /** The export holds a guard for its session. */
  predicate Holding(s: System, id: JobId) {
    && id in s.sessionOf
    && GuardOf(id) in s.sessions.guards
    && s.sessions.guards[GuardOf(id)] == s.sessionOf[id]
  }

  predicate Unfinished(s: System, id: JobId) {
    id in s.pending || (id in s.jobs.tasks && s.jobs.tasks[id].stage != JobRuns.Done)
  }

  ghost predicate Linked(s: System) {
    && (forall g :: g in s.sessions.guards ==> JobId(g.holder) in s.sessionOf)
    && (forall id :: id in s.pending ==> id !in s.jobs.tasks)
    && (forall id :: id in s.jobs.tasks ==> id in s.sessionOf)
    && (forall id :: Unfinished(s, id) ==> Holding(s, id))
    && (forall id :: id in s.jobs.jobs ==> id in s.sessionOf && s.jobs.jobs[id].session == s.sessionOf[id])
  }

  ghost predicate Invariant(c: Config, s: System) {
    SessionRuns.Invariant(c.session, s.sessions) && JobRuns.Invariant(c.job, s.jobs) && Linked(s)
  }

  /** No step of the job registry changes the session a record is bound to, and none
      wakes a worker that has returned. */
  lemma JobStepFrame(p: Policy, w: JobRuns.World, e: JobRuns.Event, id: JobId)
    requires !e.Enqueue?
    ensures var w' := JobRuns.Next(p, w, e);
            && (id in w'.tasks <==> id in w.tasks)
            && (id in w.tasks && w.tasks[id].stage == JobRuns.Done ==> w'.tasks[id].stage == JobRuns.Done)
            && (id in w'.jobs ==> id in w.jobs && w'.jobs[id].session == w.jobs[id].session)
  {
  }

  lemma EnqueueFrame(p: Policy, w: JobRuns.World, e: JobRuns.Event, id: JobId)
    requires e.Enqueue? && (id in w.jobs ==> id in w.tasks)
    ensures var w' := JobRuns.Next(p, w, e);
            && (id in w.tasks ==> id in w'.tasks && w'.tasks[id] == w.tasks[id])
            && (id in w'.tasks ==> id in w.tasks || id == e.id)
            && (id in w'.jobs ==> if id in w.jobs then w'.jobs[id].session == w.jobs[id].session
                                  else id == e.id && w'.jobs[id].session == e.session && id in w'.tasks)
  {
  }

  /** Operations that neither take nor drop a guard leave the guards alone. */
  lemma GuardsFrame(c: SessionRuns.Config, w: SessionRuns.World, e: SessionRuns.Event)
    ensures var w' := SessionRuns.Next(c, w, e);
            && (!e.Hold? && !e.Drop? ==> w'.guards == w.guards)
            && (e.Hold? ==> w'.guards == w.guards
                            || (e.guard !in w.guards && w'.guards == w.guards[e.guard := Digest(e.token)]))
            && (e.Drop? ==> w'.guards == w.guards - {e.guard})
  {
    if e.Drop? && e.guard !in w.guards {
      assert w.guards - {e.guard} == w.guards;
    }
  }

  /** Guards of different exports have different names. */
  lemma GuardsAreDistinct()
    ensures forall a: JobId :: JobId(GuardOf(a).holder) == a
    ensures forall a: JobId, b: JobId :: GuardOf(a) == GuardOf(b) ==> a == b
  {
    forall a: JobId
      ensures JobId(GuardOf(a).holder) == a
    {
    }
  }

  lemma TakeHoldKeepsLinked(c: Config, s: System, e: Event)
    requires Linked(s) && e.TakeHold?
    ensures Linked(Next(c, s, e))
  {
    GuardsAreDistinct();
    GuardsFrame(c.session, s.sessions, SessionRuns.Hold(GuardOf(e.id), e.token, e.now));
    var s' := Next(c, s, e);
    forall id | Unfinished(s', id)
      ensures Holding(s', id)
    {
      if !Unfinished(s, id) {
        assert id == e.id && id in s'.pending;
      }
    }
  }

  lemma InsertKeepsLinked(c: Config, s: System, e: Event)
    requires Invariant(c, s) && e.Insert?
    ensures Linked(Next(c, s, e))
  {
    if e.id in s.pending && e.id in s.sessionOf {
      var s' := Next(c, s, e);
      forall id
        ensures Unfinished(s', id) ==> Unfinished(s, id) && (id == e.id ==> id in s'.jobs.tasks)
        ensures id in s'.jobs.tasks ==> id in s.jobs.tasks || id == e.id
        ensures id in s'.jobs.jobs ==> id in s.sessionOf && s'.jobs.jobs[id].session == s.sessionOf[id]
      {
        InsertFrame(c, s, e, id);
      }
      GuardsAfterInsert(c, s, e);
    }
  }

  /** Only an export that found no room loses its guard. */
  lemma GuardsAfterInsert(c: Config, s: System, e: Event)
    requires Linked(s) && e.Insert? && e.id in s.pending && e.id in s.sessionOf
    ensures var s' := Next(c, s, e);
            && (forall g :: g in s'.sessions.guards ==> g in s.sessions.guards)
            && (forall id :: Holding(s, id) && (id == e.id ==> id in s'.jobs.tasks) ==> Holding(s', id))
  {
    GuardsAreDistinct();
    GuardsFrame(c.session, s.sessions, SessionRuns.Drop(GuardOf(e.id)));
  }

  /** What inserting a job changes about any one export. */
  lemma InsertFrame(c: Config, s: System, e: Event, id: JobId)
    requires Invariant(c, s) && e.Insert? && e.id in s.pending && e.id in s.sessionOf
    ensures var s' := Next(c, s, e);
            && (Unfinished(s', id) ==> Unfinished(s, id) && (id == e.id ==> id in s'.jobs.tasks))
            && (id in s'.jobs.tasks ==> id in s.jobs.tasks || id == e.id)
            && (id in s'.jobs.jobs ==> id in s.sessionOf && s'.jobs.jobs[id].session == s.sessionOf[id])
  {
    assert JobRuns.Good(c.job, s.jobs, id);
    EnqueueFrame(c.job, s.jobs, JobRuns.Enqueue(e.id, e.owner, s.sessionOf[e.id], e.createdAt, e.insertedAt), id);
  }

  lemma JobStepKeepsLinked(c: Config, s: System, e: Event)
    requires Linked(s) && e.JobStep?
    ensures Linked(Next(c, s, e))
  {
    if !e.jobEvent.Enqueue? {
      var s' := Next(c, s, e);
      forall id
        ensures id in s'.jobs.tasks <==> id in s.jobs.tasks
        ensures Unfinished(s', id) ==> Unfinished(s, id)
        ensures id in s'.jobs.jobs ==> id in s.jobs.jobs && s'.jobs.jobs[id].session == s.jobs.jobs[id].session
      {
        JobStepFrame(c.job, s.jobs, e.jobEvent, id);
      }
    }
  }

  lemma GuardStepKeepsLinked(c: Config, s: System, e: Event)
    requires Linked(s) && (e.WorkerReturned? || e.SessionStep?)
    ensures Linked(Next(c, s, e))
  {
    GuardsAreDistinct();
    GuardsFrame(c.session, s.sessions,
                if e.SessionStep? then e.sessionEvent else SessionRuns.Drop(GuardOf(e.id)));
    var s' := Next(c, s, e);
    forall id | Unfinished(s', id)
      ensures Holding(s', id)
    {
      assert Unfinished(s, id);
    }
  }

  lemma TakeHoldKeepsInvariant(c: Config, s: System, e: Event)
    requires Invariant(c, s) && e.TakeHold?
    ensures Invariant(c, Next(c, s, e))
  {
    SessionRuns.NextKeepsInvariant(c.session, s.sessions, SessionRuns.Hold(GuardOf(e.id), e.token, e.now));
    TakeHoldKeepsLinked(c, s, e);
  }

  lemma InsertKeepsInvariant(c: Config, s: System, e: Event)
    requires Invariant(c, s) && e.Insert?
    ensures Invariant(c, Next(c, s, e))
  {
    if e.id in s.pending && e.id in s.sessionOf {
      JobRuns.NextKeepsInvariant(c.job, s.jobs, JobRuns.Enqueue(e.id, e.owner, s.sessionOf[e.id], e.createdAt, e.insertedAt));
      SessionRuns.NextKeepsInvariant(c.session, s.sessions, SessionRuns.Drop(GuardOf(e.id)));
    }
    InsertKeepsLinked(c, s, e);
  }

  lemma NextKeepsInvariant(c: Config, s: System, e: Event)
    requires Invariant(c, s)
    ensures Invariant(c, Next(c, s, e))
  {
    match e
    case TakeHold(id, token, now) =>
      TakeHoldKeepsInvariant(c, s, e);
    case Insert(id, owner, createdAt, now) =>
      InsertKeepsInvariant(c, s, e);
    case JobStep(jobEvent) =>
      JobRuns.NextKeepsInvariant(c.job, s.jobs, jobEvent);
      JobStepKeepsLinked(c, s, e);
    case WorkerReturned(id) =>
      SessionRuns.NextKeepsInvariant(c.session, s.sessions, SessionRuns.Drop(GuardOf(id)));
      GuardStepKeepsLinked(c, s, e);
    case SessionStep(sessionEvent) =>
      SessionRuns.NextKeepsInvariant(c.session, s.sessions, sessionEvent);
      GuardStepKeepsLinked(c, s, e);
  }

  lemma {:induction false} RunKeepsInvariant(c: Config, s: System, events: seq<Event>)
    requires Invariant(c, s)
    ensures Invariant(c, Run(c, s, events))
    decreases |events|
  {
    if events != [] {
      NextKeepsInvariant(c, s, events[0]);
      RunKeepsInvariant(c, Next(c, s, events[0]), events[1..]);
    }
  }

  /** No session is pulled from under a running export: while its worker has not returned
      the session it was started under is registered and active, survives every drain and
      create, and can be used at any clock reading, unless it was expired or removed by
      name. */
  lemma RunningExportKeepsSession(c: Config, events: seq<Event>, id: JobId, now: U64)
    requires var s := Run(c, START, events);
             Unfinished(s, id) && id in s.sessionOf && s.sessionOf[id] !in s.sessions.ended
    ensures var s := Run(c, START, events); var d := s.sessionOf[id];
            && d in s.sessions.sessions && s.sessions.sessions[d].state == Active
            && d !in ExpiredDigests(s.sessions.sessions, now, c.session.idleTimeoutSecs)
            && UseError(s.sessions.sessions, d, now, c.session.idleTimeoutSecs) == None
  {
    SessionRuns.StartInvariant(c.session);
    RunKeepsInvariant(c, START, events);
    var s := Run(c, START, events);
    assert Holding(s, id);
    SessionRuns.GuardMeansHeld(s.sessions, GuardOf(id));
  }

  /** The same for every job the registry shows as live. */
  lemma LiveJobKeepsSession(c: Config, events: seq<Event>, id: JobId, now: U64)
    requires var s := Run(c, START, events);
             Live(s.jobs.jobs, id) && s.jobs.jobs[id].session !in s.sessions.ended
    ensures var s := Run(c, START, events); var d := s.jobs.jobs[id].session;
            d in s.sessions.sessions && UseError(s.sessions.sessions, d, now, c.session.idleTimeoutSecs) == None
  {
    SessionRuns.StartInvariant(c.session);
    RunKeepsInvariant(c, START, events);
    var s := Run(c, START, events);
    assert JobRuns.Good(c.job, s.jobs, id);
    assert Unfinished(s, id);
    RunningExportKeepsSession(c, events, id, now);
  }

  /** An export whose job finds no room loses exactly its own guard, and its session one
      hold, whatever steps came in between. */
  lemma FailedInsertReleasesHold(c: Config, s: System, insert: Event)
    requires Invariant(c, s) && insert.Insert? && insert.id in s.pending
    requires insert.id !in Next(c, s, insert).jobs.tasks
    ensures Holding(s, insert.id)
    ensures var s', d := Next(c, s, insert), s.sessionOf[insert.id];
            && s'.sessions.guards == s.sessions.guards - {GuardOf(insert.id)}
            && s'.sessions.sessions == Released(s.sessions.sessions, d)
            && (forall other :: other in s.sessions.sessions ==>
                  && other in s'.sessions.sessions
                  && s'.sessions.sessions[other].holdCount
                     == s.sessions.sessions[other].holdCount - (if other == d then 1 else 0))
  {
    assert Unfinished(s, insert.id) && Holding(s, insert.id);
    SessionRuns.GuardIsCounted(s.sessions, GuardOf(insert.id));
  }

  /** Taken back to back, all guards and all hold counts are as they were. */
  lemma FailedInsertRestoresHolds(c: Config, s: System, take: Event, insert: Event)
    requires Invariant(c, s) && take.TakeHold? && insert.Insert? && take.id == insert.id
    requires take.id !in s.sessionOf && take.id !in Next(c, Next(c, s, take), insert).jobs.tasks
    ensures var s' := Next(c, Next(c, s, take), insert);
            && s'.sessions.guards == s.sessions.guards
            && s'.sessions.sessions.Keys == s.sessions.sessions.Keys
            && forall d :: d in s.sessions.sessions ==>
                 s'.sessions.sessions[d].holdCount == s.sessions.sessions[d].holdCount
  {
    GuardsAreDistinct();
    var guard := GuardOf(take.id);
    assert guard !in s.sessions.guards;
    TakeThenFail(c, s, take, insert);
    SessionRuns.TriedHoldThenDrop(c.session, s.sessions, guard, take.token, take.now);
  }

  /** On the sessions the two steps are a hold, and its drop if it was taken. */
  lemma TakeThenFail(c: Config, s: System, take: Event, insert: Event)
    requires Linked(s) && take.TakeHold? && insert.Insert? && take.id == insert.id
    requires take.id !in s.sessionOf && take.id !in Next(c, Next(c, s, take), insert).jobs.tasks
    ensures Next(c, Next(c, s, take), insert).sessions ==
            SessionRuns.HeldThenDropped(c.session, s.sessions, GuardOf(take.id), take.token, take.now)
  {
    PendingStarted(s, take.id);
  }

  lemma PendingStarted(s: System, id: JobId)
    requires Linked(s)
    ensures id in s.pending ==> id in s.sessionOf
  {
    if id in s.pending {
      assert Unfinished(s, id);
    }
  }
}
