/** The session use cases and the session reaper, as ordered effects on the session
    registry, the job registry and the backend connections. The outcome of an
    authentication, and the disconnects that fail, are arguments. */
module SessionUseCases {
  import opened Wrappers
  import opened SessionRegistry
  import SessionRuns
  import JobRegistry

  /** The registry and the backend. `leaked` keeps the digests whose disconnect failed
      after their session had gone; it is not part of the program. */
  datatype Held = Held(sessions: Sessions, connections: set<Digest>, leaked: set<Digest>)

  /** Disconnecting some digests closes each connection unless its disconnect fails. */
  function Disconnected(h: Held, digests: set<Digest>, failing: set<Digest>): Held {
    h.(connections := h.connections - (digests - failing),
       leaked := h.leaked + (h.connections * digests * failing))
  }

  function AfterCreate(h: Held, user: string, token: string, now: U64, timeout: U64, limits: SessionLimits,
                       authenticated: bool, failing: set<Digest>): Held
  {
    if LimitReached(h.sessions, user, limits, now, timeout).Some? then h
    else
      var expired := ExpiredDigests(h.sessions, now, timeout);
      var drained := Disconnected(h.(sessions := Drained(h.sessions, now, timeout)), expired, failing);
      if authenticated then
        drained.(sessions := drained.sessions[Digest(token) := NewSession(user, now)],
                 connections := drained.connections + {Digest(token)})
      else
        drained.(sessions := drained.sessions - {Digest(token)})
  }

  function AfterDelete(h: Held, token: string, failing: set<Digest>): Held {
    if Digest(token) !in h.sessions then h
    else Disconnected(h.(sessions := h.sessions - {Digest(token)}), {Digest(token)}, failing)
  }

  function AfterSweep(h: Held, now: U64, timeout: U64, failing: set<Digest>): Held {
    var expired := ExpiredDigests(h.sessions, now, timeout);
    Disconnected(h.(sessions := Drained(h.sessions, now, timeout)), expired, failing)
  }

  datatype UseCaseError = Registry(error: SessionError) | Authentication(message: string)

  /** The session part of the gateway service. */
  class SessionService {
    const sessions: SessionManager
    const jobs: JobRegistry.JobRegistry
    var connections: set<Digest>
    ghost var leaked: set<Digest>

    constructor (sessions: SessionManager, jobs: JobRegistry.JobRegistry)
      ensures this.sessions == sessions && this.jobs == jobs
      ensures connections == {} && leaked == {}
    {
      this.sessions := sessions;
      this.jobs := jobs;
      connections := {};
      leaked := {};
    }

    ghost function Contents(): Held
      reads this, sessions
    {
      Held(sessions.sessions, connections, leaked)
    }

    method CreateSession(user: string, token: string, now: U64,
                         authenticated: Result<string, string>, failing: set<Digest>)
      returns (r: Result<string, UseCaseError>)
      modifies this`connections, this`leaked, sessions`sessions
      ensures Contents() == AfterCreate(old(Contents()), user, token, now, sessions.idleTimeoutSecs, sessions.limits,
                                        authenticated.Ok?, failing)
      ensures var reached := LimitReached(old(sessions.sessions), user, sessions.limits, now, sessions.idleTimeoutSecs);
              r == if reached.Some? then Err(Registry(reached.value))
                   else if authenticated.Err? then Err(Authentication(authenticated.error))
                   else Ok(token)
    {
      var created := sessions.CreateDrainingExpired(user, token, now);
      if created.Err? {
        return Err(Registry(created.error));
      }
      ghost var drained := old(sessions.sessions) - created.value.1;
      DisconnectExpiredSessions(created.value.1, failing);
      if authenticated.Err? {
        var _ := sessions.Remove(token);
        assert drained[Digest(token) := NewSession(user, now)] - {Digest(token)} == drained - {Digest(token)};
        return Err(Authentication(authenticated.error));
      }
      connections := connections + {Digest(token)};
      return Ok(token);
    }

    method DeleteSession(token: string, purgeNow: nat, now: nat, failing: set<Digest>)
      returns (r: Result<nat, UseCaseError>)
      modifies this`connections, this`leaked, sessions`sessions, jobs
      ensures Contents() == AfterDelete(old(Contents()), token, failing)
      ensures sessions.sessions == old(sessions.sessions) - {Digest(token)}
      ensures Digest(token) in old(sessions.sessions) && Digest(token) !in failing ==> Digest(token) !in connections
      ensures if Digest(token) in old(sessions.sessions) then
                var kept := JobRegistry.Purged(old(jobs.jobs), purgeNow);
                var live := JobRegistry.LiveJobsOf(kept, Digest(token));
                && r == Ok(|live|)
                && jobs.jobs == JobRegistry.SessionCancelled(kept, Digest(token), now, jobs.policy.terminalRetentionSecs)
                && jobs.aborted == old(jobs.aborted) + JobRegistry.WithHandle(kept, live)
                && JobRegistry.EndedWithSession(kept, jobs.jobs, Digest(token))
                && JobRegistry.LiveJobsOf(jobs.jobs, Digest(token)) == {}
              else
                r == Err(Registry(NotFound)) && jobs.jobs == old(jobs.jobs) && jobs.aborted == old(jobs.aborted)
    {
      var removed := sessions.Remove(token);
      if removed == None {
        assert old(sessions.sessions) - {Digest(token)} == old(sessions.sessions);
        return Err(Registry(NotFound));
      }
      var cancelled := jobs.CancelJobsForSession(Digest(token), purgeNow, now);
      Disconnect(Digest(token), failing);
      return Ok(cancelled);
    }

    /** One round of the session reaper. */
    method SweepOnce(now: U64, failing: set<Digest>) returns (cleaned: nat)
      modifies this`connections, this`leaked, sessions`sessions
      ensures Contents() == AfterSweep(old(Contents()), now, sessions.idleTimeoutSecs, failing)
      ensures cleaned == |ExpiredDigests(old(sessions.sessions), now, sessions.idleTimeoutSecs)|
    {
      var digests := sessions.DrainExpired(now);
      cleaned := |digests|;
      DisconnectExpiredSessions(digests, failing);
    }

    method DisconnectExpiredSessions(digests: set<Digest>, failing: set<Digest>)
      modifies this`connections, this`leaked
      ensures Contents() == Disconnected(old(Contents()), digests, failing)
    {
      var rest := digests;
      while rest != {}
        invariant rest <= digests
        invariant connections == old(connections) - ((digests - rest) - failing)
        invariant leaked == old(leaked) + (old(connections) * (digests - rest) * failing)
      {
        var d :| d in rest;
        Disconnect(d, failing);
        rest := rest - {d};
      }
    }

    method Disconnect(d: Digest, failing: set<Digest>)
      modifies this`connections, this`leaked
      ensures Contents() == Disconnected(old(Contents()), {d}, failing)
    {
      if d !in failing {
        connections := connections - {d};
      } else if d in connections {
        leaked := leaked + {d};
      }
    }
  }

  // ---------------------------------------------------------------------------
  // Runs of whole use cases
  // ---------------------------------------------------------------------------

  /** The registry with everything its callers know, and the backend. */
  datatype World = World(registry: SessionRuns.World, connections: set<Digest>, leaked: set<Digest>) {
    function Holds(): Held { Held(registry.sessions, connections, leaked) }
  }

  datatype UseCase =
    | CreateSession(user: string, token: string, now: U64, authenticated: bool, failing: set<Digest>)
    | DeleteSession(token: string, failing: set<Digest>)
    | Sweep(now: U64, failing: set<Digest>)
    | Use(step: SessionRuns.Event)

  const START := World(SessionRuns.START, {}, {})

  /** What requests and exports do to a session in between: nothing that adds or removes
      one. */
  predicate KeepsRegistered(e: SessionRuns.Event) {
    e.Touch? || e.Hold? || e.Drop? || e.Expire?
  }

  /** The registry steps of a login. The token of a new session is random. */
  function CreateSteps(c: SessionRuns.Config, w: SessionRuns.World, user: string, token: string, now: U64,
                       authenticated: bool): SessionRuns.World
  {
    var created := SessionRuns.Next(c, w, SessionRuns.Create(token, user, now));
    if authenticated || Digest(token) !in created.sessions then created
    else SessionRuns.Next(c, created, SessionRuns.Remove(token))
  }

  /** One use case: its steps on the registry, and its effect on the connections. */
  function Next(c: SessionRuns.Config, w: World, u: UseCase): World {
    match u
    case CreateSession(user, token, now, authenticated, failing) =>
      if Digest(token) in w.registry.issued then w
      else
        var h := AfterCreate(w.Holds(), user, token, now, c.idleTimeoutSecs, c.limits, authenticated, failing);
        World(CreateSteps(c, w.registry, user, token, now, authenticated), h.connections, h.leaked)
    case DeleteSession(token, failing) =>
      var h := AfterDelete(w.Holds(), token, failing);
      World(SessionRuns.Next(c, w.registry, SessionRuns.Remove(token)), h.connections, h.leaked)
    case Sweep(now, failing) =>
      var h := AfterSweep(w.Holds(), now, c.idleTimeoutSecs, failing);
      World(SessionRuns.Next(c, w.registry, SessionRuns.Drain(now)), h.connections, h.leaked)
    case Use(step) =>
      if KeepsRegistered(step) then w.(registry := SessionRuns.Next(c, w.registry, step)) else w
  }

  function Run(c: SessionRuns.Config, w: World, useCases: seq<UseCase>): World
    decreases |useCases|
  {
    if useCases == [] then w else Run(c, Next(c, w, useCases[0]), useCases[1..])
  }

  /** Every connection belongs to a registered session or was leaked by a failed
      disconnect, and every registered session has its connection. */
  predicate Balanced(h: Held) {
    h.connections == h.sessions.Keys + h.leaked && h.sessions.Keys !! h.leaked
  }

  ghost predicate Invariant(c: SessionRuns.Config, w: World) {
    SessionRuns.Invariant(c, w.registry) && Balanced(w.Holds()) && w.connections <= w.registry.issued
  }

  /** Closing the connections of sessions that have just left the registry. */
  lemma DisconnectBalances(h: Held, gone: set<Digest>, failing: set<Digest>)
    requires Balanced(h) && gone <= h.sessions.Keys
    ensures Balanced(Disconnected(h.(sessions := h.sessions - gone), gone, failing))
    ensures gone * failing == {} ==> Disconnected(h.(sessions := h.sessions - gone), gone, failing).leaked == h.leaked
    ensures Disconnected(h.(sessions := h.sessions - gone), gone, failing).connections <= h.connections
  {
    if gone * failing == {} {
      assert h.connections * gone * failing <= gone * failing;
      assert h.leaked + h.connections * gone * failing == h.leaked;
    }
  }

  /** The sessions a login leaves, from those that were there. */
  function AfterLogin(s: Sessions, user: string, token: string, now: U64, timeout: U64, limits: SessionLimits,
                      authenticated: bool): Sessions
  {
    if LimitReached(s, user, limits, now, timeout).Some? then s
    else if authenticated then Created(s, user, token, now, timeout)
    else Drained(s, now, timeout) - {Digest(token)}
  }

  lemma CreateLeaves(h: Held, user: string, token: string, now: U64, timeout: U64, limits: SessionLimits,
                     authenticated: bool, failing: set<Digest>)
    ensures AfterCreate(h, user, token, now, timeout, limits, authenticated, failing).sessions ==
            AfterLogin(h.sessions, user, token, now, timeout, limits, authenticated)
  {
  }

  lemma CreateStepLeaves(c: SessionRuns.Config, w: SessionRuns.World, user: string, token: string, now: U64)
    requires Digest(token) !in w.issued
    ensures var w' := SessionRuns.Next(c, w, SessionRuns.Create(token, user, now));
            && w'.sessions == AfterLogin(w.sessions, user, token, now, c.idleTimeoutSecs, c.limits, true)
            && w.issued <= w'.issued
            && (w'.sessions == w.sessions || Digest(token) in w'.sessions)
            && (LimitReached(w.sessions, user, c.limits, now, c.idleTimeoutSecs) == None ==> Digest(token) in w'.issued)
  {
  }

  lemma RemoveStepLeaves(c: SessionRuns.Config, w: SessionRuns.World, token: string)
    ensures var w' := SessionRuns.Next(c, w, SessionRuns.Remove(token));
            w'.sessions == w.sessions - {Digest(token)} && w'.issued == w.issued
  {
  }

  /** The registry steps of a login leave the same. */
  lemma CreateStepsLeave(c: SessionRuns.Config, w: SessionRuns.World, user: string, token: string, now: U64,
                         authenticated: bool)
    requires Digest(token) !in w.issued && SessionRuns.OnlyIssued(w)
    ensures var w' := CreateSteps(c, w, user, token, now, authenticated);
            && w'.sessions == AfterLogin(w.sessions, user, token, now, c.idleTimeoutSecs, c.limits, authenticated)
            && w.issued <= w'.issued
            && (LimitReached(w.sessions, user, c.limits, now, c.idleTimeoutSecs) == None ==> Digest(token) in w'.issued)
  {
    assert Digest(token) !in w.sessions;
    CreateStepLeaves(c, w, user, token, now);
    RemoveStepLeaves(c, SessionRuns.Next(c, w, SessionRuns.Create(token, user, now)), token);
    CreatedThenRemoved(w.sessions, user, token, now, c.idleTimeoutSecs);
  }

  lemma CreatedThenRemoved(s: Sessions, user: string, token: string, now: U64, timeout: U64)
    ensures Created(s, user, token, now, timeout) - {Digest(token)} == Drained(s, now, timeout) - {Digest(token)}
  {
  }

  lemma CreateKeepsBalance(c: SessionRuns.Config, h: Held, user: string, token: string, now: U64,
                           authenticated: bool, failing: set<Digest>)
    requires Balanced(h) && Digest(token) !in h.connections
    ensures var h' := AfterCreate(h, user, token, now, c.idleTimeoutSecs, c.limits, authenticated, failing);
            && Balanced(h')
            && (failing == {} ==> h'.leaked == h.leaked)
            && h'.connections <= h.connections + {Digest(token)}
            && (LimitReached(h.sessions, user, c.limits, now, c.idleTimeoutSecs).Some? ==> h'.connections == h.connections)
  {
    DisconnectBalances(h, ExpiredDigests(h.sessions, now, c.idleTimeoutSecs), failing);
    var drained := Drained(h.sessions, now, c.idleTimeoutSecs);
    assert drained - {Digest(token)} == drained;
  }

  /** Steps in between keep the set of registered sessions. */
  lemma UseKeepsRegistered(c: SessionRuns.Config, w: SessionRuns.World, e: SessionRuns.Event)
    requires KeepsRegistered(e)
    ensures SessionRuns.Next(c, w, e).sessions.Keys == w.sessions.Keys
    ensures SessionRuns.Next(c, w, e).issued == w.issued
  {
  }

  predicate Succeeds(u: UseCase) {
    u.CreateSession? || u.DeleteSession? || u.Sweep? ==> u.failing == {}
  }

  lemma StepsKeepRegistry(c: SessionRuns.Config, w: World, u: UseCase)
    requires SessionRuns.Invariant(c, w.registry)
    ensures SessionRuns.Invariant(c, Next(c, w, u).registry)
  {
    match u
    case CreateSession(user, token, now, authenticated, failing) =>
      var created := SessionRuns.Next(c, w.registry, SessionRuns.Create(token, user, now));
      SessionRuns.NextKeepsInvariant(c, w.registry, SessionRuns.Create(token, user, now));
      SessionRuns.NextKeepsInvariant(c, created, SessionRuns.Remove(token));
    case DeleteSession(token, failing) =>
      SessionRuns.NextKeepsInvariant(c, w.registry, SessionRuns.Remove(token));
    case Sweep(now, failing) =>
      SessionRuns.NextKeepsInvariant(c, w.registry, SessionRuns.Drain(now));
    case Use(step) =>
      SessionRuns.NextKeepsInvariant(c, w.registry, step);
  }

  lemma LoginKeepsBalance(c: SessionRuns.Config, w: World, user: string, token: string, now: U64,
                          authenticated: bool, failing: set<Digest>)
    requires Invariant(c, w) && Digest(token) !in w.registry.issued
    ensures var w' := Next(c, w, CreateSession(user, token, now, authenticated, failing));
            Balanced(w'.Holds()) && w'.connections <= w'.registry.issued && (failing == {} ==> w'.leaked == w.leaked)
  {
    CreateLeaves(w.Holds(), user, token, now, c.idleTimeoutSecs, c.limits, authenticated, failing);
    CreateStepsLeave(c, w.registry, user, token, now, authenticated);
    CreateKeepsBalance(c, w.Holds(), user, token, now, authenticated, failing);
  }

  /** The registry steps of a deletion and a sweep leave what these leave. */
  lemma OtherStepsLeave(c: SessionRuns.Config, w: World, token: string, now: U64, failing: set<Digest>)
    ensures Next(c, w, DeleteSession(token, failing)).registry.sessions == AfterDelete(w.Holds(), token, failing).sessions
    ensures Next(c, w, Sweep(now, failing)).registry.sessions == AfterSweep(w.Holds(), now, c.idleTimeoutSecs, failing).sessions
  {
    RemoveStepLeaves(c, w.registry, token);
    if Digest(token) !in w.registry.sessions {
      assert w.registry.sessions - {Digest(token)} == w.registry.sessions;
    }
  }

  lemma DeletionKeepsBalance(c: SessionRuns.Config, w: World, token: string, failing: set<Digest>)
    requires Balanced(w.Holds()) && w.connections <= w.registry.issued
    ensures var w' := Next(c, w, DeleteSession(token, failing));
            Balanced(w'.Holds()) && w'.connections <= w'.registry.issued && (failing == {} ==> w'.leaked == w.leaked)
  {
    RemoveStepLeaves(c, w.registry, token);
    if Digest(token) in w.registry.sessions {
      DisconnectBalances(w.Holds(), {Digest(token)}, failing);
    } else {
      assert w.registry.sessions - {Digest(token)} == w.registry.sessions;
    }
  }

  lemma SweepKeepsBalance(c: SessionRuns.Config, w: World, now: U64, failing: set<Digest>)
    requires Balanced(w.Holds()) && w.connections <= w.registry.issued
    ensures var w' := Next(c, w, Sweep(now, failing));
            Balanced(w'.Holds()) && w'.connections <= w'.registry.issued && (failing == {} ==> w'.leaked == w.leaked)
  {
    DisconnectBalances(w.Holds(), ExpiredDigests(w.registry.sessions, now, c.idleTimeoutSecs), failing);
  }

  lemma UseKeepsBalance(c: SessionRuns.Config, w: World, step: SessionRuns.Event)
    requires Balanced(w.Holds()) && w.connections <= w.registry.issued
    ensures var w' := Next(c, w, Use(step));
            Balanced(w'.Holds()) && w'.connections <= w'.registry.issued && w'.leaked == w.leaked
  {
    if KeepsRegistered(step) {
      UseKeepsRegistered(c, w.registry, step);
    }
  }

  lemma NextKeepsBalance(c: SessionRuns.Config, w: World, u: UseCase)
    requires Invariant(c, w)
    ensures Balanced(Next(c, w, u).Holds()) && Next(c, w, u).connections <= Next(c, w, u).registry.issued
    ensures Succeeds(u) ==> Next(c, w, u).leaked == w.leaked
  {
    if u.CreateSession? {
      if Digest(u.token) !in w.registry.issued {
        LoginKeepsBalance(c, w, u.user, u.token, u.now, u.authenticated, u.failing);
      }
    } else if u.DeleteSession? {
      DeletionKeepsBalance(c, w, u.token, u.failing);
    } else if u.Sweep? {
      SweepKeepsBalance(c, w, u.now, u.failing);
    } else {
      UseKeepsBalance(c, w, u.step);
    }
  }

  predicate DisconnectsSucceed(useCases: seq<UseCase>) {
    forall i :: 0 <= i < |useCases| ==> Succeeds(useCases[i])
  }

  lemma {:induction false} RunKeepsBalance(c: SessionRuns.Config, w: World, useCases: seq<UseCase>)
    requires Invariant(c, w)
    ensures Invariant(c, Run(c, w, useCases))
    ensures DisconnectsSucceed(useCases) ==> Run(c, w, useCases).leaked == w.leaked
    decreases |useCases|
  {
    if useCases != [] {
      StepsKeepRegistry(c, w, useCases[0]);
      NextKeepsBalance(c, w, useCases[0]);
      RunKeepsBalance(c, Next(c, w, useCases[0]), useCases[1..]);
    }
  }

  /** Connection conservation: while disconnects succeed, the digests with a backend
      connection are exactly the registered ones, through failed logins, drains, deletes
      and sweeps. */
  lemma ConnectionsMatchRegistry(c: SessionRuns.Config, useCases: seq<UseCase>)
    requires DisconnectsSucceed(useCases)
    ensures Run(c, START, useCases).connections == Run(c, START, useCases).registry.sessions.Keys
  {
    SessionRuns.StartInvariant(c);
    RunKeepsBalance(c, START, useCases);
  }

  /** With failing disconnects a registered session still has its connection, and the
      sets agree exactly when nothing was leaked. */
  lemma OnlyLeaksRemain(c: SessionRuns.Config, useCases: seq<UseCase>)
    ensures var w := Run(c, START, useCases);
            && w.registry.sessions.Keys <= w.connections
            && w.connections - w.registry.sessions.Keys == w.leaked
            && (w.connections == w.registry.sessions.Keys <==> w.leaked == {})
  {
    SessionRuns.StartInvariant(c);
    RunKeepsBalance(c, START, useCases);
  }

  /** And the registry keeps everything that its own runs keep: its limits, its hold
      counts, its guarded sessions, its refusals. */
  lemma RegistryInvariantHolds(c: SessionRuns.Config, useCases: seq<UseCase>)
    ensures SessionRuns.Invariant(c, Run(c, START, useCases).registry)
  {
    SessionRuns.StartInvariant(c);
    RunKeepsBalance(c, START, useCases);
  }
}
