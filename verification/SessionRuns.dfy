/** Every run of a session registry, with the guards that callers hold. Clock readings
    are arbitrary: the clock may go back between two steps. */
module SessionRuns {
  import opened Sets
  import opened Wrappers
  import opened SessionRegistry

  /** A guard, named after whoever holds it. */
  datatype GuardId = GuardId(holder: string)

  datatype Config = Config(idleTimeoutSecs: U64, limits: SessionLimits)

  /** The registry and what its callers know: the guards they own, every digest issued so
      far, the digests that were expired or removed by name, and those for which `touch`
      or `hold` has answered that the session expired. */
  datatype World = World(
    sessions: Sessions,
    guards: map<GuardId, Digest>,
    issued: set<Digest>,
    ended: set<Digest>,
    refused: set<Digest>)

  datatype Event =
    | Create(token: string, user: string, now: U64)
    | Touch(token: string, now: U64)
    | Hold(guard: GuardId, token: string, now: U64)
    | Drop(guard: GuardId)
    | Expire(token: string)
    | Drain(now: U64)
    | Remove(token: string)

  const START := World(map[], map[], {}, {}, {})

  function RefusedBy(w: World, d: Digest, now: U64, timeout: U64): set<Digest> {
    if UseError(w.sessions, d, now, timeout) == Some(SessionExpired) then w.refused + {d} else w.refused
  }

  /** One operation. Tokens are random, so one is never issued twice; a guard gets an
      unused name, and there are never more guards than a 64-bit counter can count. */
  function Next(c: Config, w: World, e: Event): World {
    match e
    case Create(token, user, now) =>
      if Digest(token) in w.issued || LimitReached(w.sessions, user, c.limits, now, c.idleTimeoutSecs).Some? then w
      else
        w.(sessions := Created(w.sessions, user, token, now, c.idleTimeoutSecs),
           issued := w.issued + {Digest(token)})
    case Touch(token, now) =>
      w.(sessions := UsedIn(w.sessions, Digest(token), now, c.idleTimeoutSecs, 0),
         refused := RefusedBy(w, Digest(token), now, c.idleTimeoutSecs))
    case Hold(guard, token, now) =>
      if guard in w.guards || |w.guards| >= U64_MAX then w
      else
        w.(sessions := UsedIn(w.sessions, Digest(token), now, c.idleTimeoutSecs, 1),
           refused := RefusedBy(w, Digest(token), now, c.idleTimeoutSecs),
           guards := if UseError(w.sessions, Digest(token), now, c.idleTimeoutSecs) == None
                     then w.guards[guard := Digest(token)] else w.guards)
    case Drop(guard) =>
      if guard in w.guards then
        w.(sessions := Released(w.sessions, w.guards[guard]), guards := w.guards - {guard})
      else w
    case Expire(token) =>
      w.(sessions := ExpiredIn(w.sessions, Digest(token)),
         ended := if Digest(token) in w.sessions then w.ended + {Digest(token)} else w.ended)
    case Drain(now) =>
      w.(sessions := Drained(w.sessions, now, c.idleTimeoutSecs))
    case Remove(token) =>
      w.(sessions := w.sessions - {Digest(token)}, ended := w.ended + {Digest(token)})
  }

  function Run(c: Config, w: World, events: seq<Event>): World
    decreases |events|
  {
    if events == [] then w else Run(c, Next(c, w, events[0]), events[1..])
  }

  function HoldersOf(guards: map<GuardId, Digest>, d: Digest): set<GuardId> {
    set g | g in guards && guards[g] == d
  }

  function SessionsOf(s: Sessions, user: string): set<Digest> {
    set d | d in s && s[d].user == user
  }

  /** Every stored session counts its guards. */
  ghost predicate HoldsCounted(w: World) {
    forall d :: d in w.sessions ==> w.sessions[d].holdCount == |HoldersOf(w.guards, d)|
  }

  /** A guarded session is registered and active unless it was ended by name. */
  predicate GuardsProtect(w: World) {
    forall g :: g in w.guards && w.guards[g] !in w.ended ==>
      w.guards[g] in w.sessions && w.sessions[w.guards[g]].state == Active
  }

  predicate OnlyIssued(w: World) {
    && (forall d :: d in w.sessions ==> d in w.issued)
    && (forall g :: g in w.guards ==> w.guards[g] in w.issued)
    && (forall d :: d in w.refused ==> d in w.issued)
  }

  /** A session once refused as expired stays expired for as long as it is stored. */
  predicate RefusedStayExpired(w: World) {
    forall d :: d in w.refused && d in w.sessions ==> w.sessions[d].state == Expired
  }

  ghost predicate WithinLimits(c: Config, w: World) {
    && (c.limits.maxGlobal.Some? ==> |w.sessions| <= c.limits.maxGlobal.value)
    && (c.limits.maxPerUser.Some? ==> forall user :: |SessionsOf(w.sessions, user)| <= c.limits.maxPerUser.value)
  }

  ghost predicate Invariant(c: Config, w: World) {
    HoldsCounted(w) && GuardsProtect(w) && OnlyIssued(w) && RefusedStayExpired(w) && WithinLimits(c, w)
  }

  // ---------------------------------------------------------------------------
  // Guards
  // ---------------------------------------------------------------------------

  lemma GuardGained(guards: map<GuardId, Digest>, g: GuardId, d: Digest, other: Digest)
    requires g !in guards
    ensures |HoldersOf(guards[g := d], other)| == |HoldersOf(guards, other)| + (if other == d then 1 else 0)
  {
    if other == d {
      assert HoldersOf(guards[g := d], d) == HoldersOf(guards, d) + {g};
    } else {
      assert HoldersOf(guards[g := d], other) == HoldersOf(guards, other);
    }
  }

  lemma GuardLost(guards: map<GuardId, Digest>, g: GuardId, other: Digest)
    requires g in guards
    ensures |HoldersOf(guards - {g}, other)| == |HoldersOf(guards, other)| - (if other == guards[g] then 1 else 0)
  {
    if other == guards[g] {
      assert HoldersOf(guards - {g}, other) == HoldersOf(guards, other) - {g};
    } else {
      assert HoldersOf(guards - {g}, other) == HoldersOf(guards, other);
    }
  }

  lemma HoldersAtMostGuards(guards: map<GuardId, Digest>, d: Digest)
    ensures |HoldersOf(guards, d)| <= |guards|
  {
    SubsetSize(HoldersOf(guards, d), guards.Keys);
  }

  lemma GuardMeansHeld(w: World, g: GuardId)
    requires HoldsCounted(w) && g in w.guards && w.guards[g] in w.sessions
    ensures w.sessions[w.guards[g]].holdCount > 0
  {
    assert g in HoldersOf(w.guards, w.guards[g]);
  }

  lemma GuardIsCounted(w: World, g: GuardId)
    requires HoldsCounted(w) && g in w.guards
    ensures w.guards[g] in w.sessions ==> w.sessions[w.guards[g]].holdCount > 0
  {
    if w.guards[g] in w.sessions {
      GuardMeansHeld(w, g);
    }
  }

  lemma NoGuardsBeforeIssue(w: World, d: Digest)
    requires OnlyIssued(w) && d !in w.issued
    ensures HoldersOf(w.guards, d) == {}
  {
  }

  lemma NextKeepsHoldsCounted(c: Config, w: World, e: Event)
    requires HoldsCounted(w) && OnlyIssued(w)
    ensures HoldsCounted(Next(c, w, e))
  {
    var w' := Next(c, w, e);
    forall d | d in w'.sessions
      ensures w'.sessions[d].holdCount == |HoldersOf(w'.guards, d)|
    {
      HoldersAtMostGuards(w.guards, d);
      match e
      case Create(token, _, _) =>
        if d == Digest(token) && d !in w.issued {
          NoGuardsBeforeIssue(w, d);
        }
      case Hold(guard, token, _) =>
        if guard !in w.guards {
          GuardGained(w.guards, guard, Digest(token), d);
        }
      case Drop(guard) =>
        if guard in w.guards {
          GuardLost(w.guards, guard, d);
          assert w.guards[guard] == d ==> guard in HoldersOf(w.guards, d);
        }
      case _ =>
    }
  }

  lemma NextKeepsIssued(c: Config, w: World, e: Event)
    requires OnlyIssued(w)
    ensures OnlyIssued(Next(c, w, e))
  {
  }

  lemma NextKeepsGuards(c: Config, w: World, e: Event)
    requires HoldsCounted(w) && GuardsProtect(w) && OnlyIssued(w)
    ensures GuardsProtect(Next(c, w, e))
  {
    forall g | g in w.guards && w.guards[g] in w.sessions
      ensures w.sessions[w.guards[g]].holdCount > 0
    {
      GuardMeansHeld(w, g);
    }
  }

  lemma NextKeepsRefused(c: Config, w: World, e: Event)
    requires OnlyIssued(w) && RefusedStayExpired(w)
    ensures RefusedStayExpired(Next(c, w, e))
  {
  }

  // ---------------------------------------------------------------------------
  // Capacity
  // ---------------------------------------------------------------------------

  lemma LiveAreTheRest(s: Sessions, now: U64, timeout: U64)
    ensures Drained(s, now, timeout).Keys == LiveDigests(s, now, timeout)
  {
  }

  /** After the drain only live sessions are left, and one is added to them. */
  lemma CreatedKeys(s: Sessions, token: string, user: string, now: U64, timeout: U64) returns (s': Sessions)
    ensures s' == Created(s, user, token, now, timeout)
    ensures |s'| <= |LiveDigests(s, now, timeout)| + 1
    ensures |SessionsOf(s', user)| <= |LiveDigestsOf(s, user, now, timeout)| + 1
    ensures forall other :: other != user ==> |SessionsOf(s', other)| <= |SessionsOf(s, other)|
  {
    var d := Digest(token);
    s' := Created(s, user, token, now, timeout);
    LiveAreTheRest(s, now, timeout);
    assert s'.Keys == LiveDigests(s, now, timeout) + {d};
    assert |s'| == |s'.Keys|;
    SubsetSize(SessionsOf(s', user), LiveDigestsOf(s, user, now, timeout) + {d});
    forall other | other != user
      ensures |SessionsOf(s', other)| <= |SessionsOf(s, other)|
    {
      SubsetSize(SessionsOf(s', other), SessionsOf(s, other));
    }
  }

  lemma CreateKeepsLimits(c: Config, w: World, e: Event)
    requires WithinLimits(c, w) && e.Create?
    ensures WithinLimits(c, Next(c, w, e))
  {
    var reached := LimitReached(w.sessions, e.user, c.limits, e.now, c.idleTimeoutSecs);
    if Digest(e.token) !in w.issued && reached == None {
      var s' := CreatedKeys(w.sessions, e.token, e.user, e.now, c.idleTimeoutSecs);
      assert Next(c, w, e).sessions == s';
    }
  }

  /** Every other operation keeps or shrinks the set of stored sessions, and no session
      changes its user. */
  lemma OthersKeepLimits(c: Config, w: World, e: Event)
    requires WithinLimits(c, w) && !e.Create?
    ensures WithinLimits(c, Next(c, w, e))
  {
    var w' := Next(c, w, e);
    assert w'.sessions.Keys <= w.sessions.Keys;
    SubsetSize(w'.sessions.Keys, w.sessions.Keys);
    assert |w.sessions| == |w.sessions.Keys| && |w'.sessions| == |w'.sessions.Keys|;
    forall user
      ensures |SessionsOf(w'.sessions, user)| <= |SessionsOf(w.sessions, user)|
    {
      SubsetSize(SessionsOf(w'.sessions, user), SessionsOf(w.sessions, user));
    }
  }

  // ---------------------------------------------------------------------------
  // Whole runs
  // ---------------------------------------------------------------------------

  lemma NextKeepsInvariant(c: Config, w: World, e: Event)
    requires Invariant(c, w)
    ensures Invariant(c, Next(c, w, e))
  {
    NextKeepsHoldsCounted(c, w, e);
    NextKeepsIssued(c, w, e);
    NextKeepsGuards(c, w, e);
    NextKeepsRefused(c, w, e);
    if e.Create? {
      CreateKeepsLimits(c, w, e);
    } else {
      OthersKeepLimits(c, w, e);
    }
  }

  lemma {:induction false} RunKeepsInvariant(c: Config, w: World, events: seq<Event>)
    requires Invariant(c, w)
    ensures Invariant(c, Run(c, w, events))
    decreases |events|
  {
    if events != [] {
      NextKeepsInvariant(c, w, events[0]);
      RunKeepsInvariant(c, Next(c, w, events[0]), events[1..]);
    }
  }

  lemma StartInvariant(c: Config)
    ensures Invariant(c, START)
  {
    forall user
      ensures SessionsOf(START.sessions, user) == {}
    {
    }
  }

  /** Session capacity: over any run and any clock readings, the registry never stores
      more sessions than the limits allow, expired ones included. */
  lemma CapacityHolds(c: Config, events: seq<Event>, user: string)
    ensures var s := Run(c, START, events).sessions;
            && (c.limits.maxGlobal.Some? ==> |s| <= c.limits.maxGlobal.value)
            && (c.limits.maxPerUser.Some? ==> |SessionsOf(s, user)| <= c.limits.maxPerUser.value)
  {
    StartInvariant(c);
    RunKeepsInvariant(c, START, events);
  }

  /** The hold count of a stored session is the number of its guards. */
  lemma HoldCountExact(c: Config, events: seq<Event>, d: Digest)
    requires d in Run(c, START, events).sessions
    ensures Run(c, START, events).sessions[d].holdCount == |HoldersOf(Run(c, START, events).guards, d)|
  {
    StartInvariant(c);
    RunKeepsInvariant(c, START, events);
  }

  /** Hold protection: while a guard is outstanding and its session was not expired or
      removed by name, the session is registered and active, `touch` succeeds at any
      clock reading, and no drain or create takes it away. */
  lemma GuardProtects(c: Config, events: seq<Event>, g: GuardId, now: U64)
    requires var w := Run(c, START, events); g in w.guards && w.guards[g] !in w.ended
    ensures var w := Run(c, START, events); var d := w.guards[g];
            && d in w.sessions && w.sessions[d].state == Active
            && UseError(w.sessions, d, now, c.idleTimeoutSecs) == None
            && d !in ExpiredDigests(w.sessions, now, c.idleTimeoutSecs)
  {
    StartInvariant(c);
    RunKeepsInvariant(c, START, events);
    GuardMeansHeld(Run(c, START, events), g);
  }

  /** Expiry is permanent: after one refusal for expiry every later `touch` or `hold`
      fails, even at an earlier clock reading. */
  lemma RefusalIsPermanent(c: Config, events: seq<Event>, d: Digest, now: U64)
    requires d in Run(c, START, events).refused
    ensures UseError(Run(c, START, events).sessions, d, now, c.idleTimeoutSecs).Some?
  {
    StartInvariant(c);
    RunKeepsInvariant(c, START, events);
  }

  // ---------------------------------------------------------------------------
  // Renewal
  // ---------------------------------------------------------------------------

  /** The session is active and was last used at `now`. */
  predicate LastUsed(w: World, d: Digest, now: U64) {
    d in w.issued && d in w.sessions && w.sessions[d].state == Active && w.sessions[d].lastUsedAt == now
  }

  /** The timeout has not passed since `now`; a timeout of zero has always passed. */
  predicate InTime(c: Config, now: U64, later: U64) {
    c.idleTimeoutSecs > 0 && later < now + c.idleTimeoutSecs
  }

  /** A step that neither uses nor ends the session, and at whose clock reading it has not
      expired if it was last used at `now`. */
  predicate Spares(e: Event, d: Digest, now: U64, timeout: U64) {
    match e
    case Create(_, _, at) => timeout > 0 && at < now + timeout
    case Touch(token, _) => Digest(token) != d
    case Hold(_, token, _) => Digest(token) != d
    case Drop(_) => true
    case Expire(token) => Digest(token) != d
    case Drain(at) => timeout > 0 && at < now + timeout
    case Remove(token) => Digest(token) != d
  }

  lemma SparedStep(c: Config, w: World, e: Event, d: Digest, now: U64)
    requires LastUsed(w, d, now) && Spares(e, d, now, c.idleTimeoutSecs)
    ensures LastUsed(Next(c, w, e), d, now)
  {
  }

  lemma {:induction false} SparedRun(c: Config, w: World, events: seq<Event>, d: Digest, now: U64)
    requires LastUsed(w, d, now)
    requires forall i :: 0 <= i < |events| ==> Spares(events[i], d, now, c.idleTimeoutSecs)
    ensures LastUsed(Run(c, w, events), d, now)
    decreases |events|
  {
    if events != [] {
      SparedStep(c, w, events[0], d, now);
      SparedRun(c, Next(c, w, events[0]), events[1..], d, now);
    }
  }

  /** Whether `touch` succeeds: while the session is held, and otherwise until the timeout
      after its last use has passed. */
  lemma UsableUntil(c: Config, w: World, d: Digest, now: U64, later: U64)
    requires LastUsed(w, d, now)
    ensures UseError(w.sessions, d, later, c.idleTimeoutSecs) ==
            if w.sessions[d].holdCount > 0 || InTime(c, now, later) then None else Some(SessionExpired)
  {
  }

  /** The use of a session: a `touch`, or a `hold` for which there is a free guard. */
  predicate IsUse(w: World, e: Event, d: Digest, now: U64) {
    || (e.Touch? && Digest(e.token) == d && e.now == now)
    || (e.Hold? && Digest(e.token) == d && e.now == now && e.guard !in w.guards && |w.guards| < U64_MAX)
  }

  lemma UseIsRemembered(c: Config, w: World, use: Event, d: Digest, now: U64)
    requires OnlyIssued(w) && IsUse(w, use, d, now) && UseError(w.sessions, d, now, c.idleTimeoutSecs) == None
    ensures LastUsed(Next(c, w, use), d, now)
  {
  }

  /** Renewal: after a use answered at `now`, and any steps that spare the session, it can
      be used at every `later` as long as it is held, and otherwise exactly until the
      timeout has passed since `now`. */
  lemma UseRenews(c: Config, before: seq<Event>, use: Event, events: seq<Event>, d: Digest, now: U64, later: U64)
    requires var w := Run(c, START, before);
             IsUse(w, use, d, now) && UseError(w.sessions, d, now, c.idleTimeoutSecs) == None
    requires forall i :: 0 <= i < |events| ==> Spares(events[i], d, now, c.idleTimeoutSecs)
    ensures var s := Run(c, Next(c, Run(c, START, before), use), events).sessions;
            && d in s
            && UseError(s, d, later, c.idleTimeoutSecs) ==
               if s[d].holdCount > 0 || InTime(c, now, later) then None else Some(SessionExpired)
  {
    StartInvariant(c);
    RunKeepsInvariant(c, START, before);
    var w := Next(c, Run(c, START, before), use);
    UseIsRemembered(c, Run(c, START, before), use, d, now);
    SparedRun(c, w, events, d, now);
    UsableUntil(c, Run(c, w, events), d, now, later);
  }

  /** The same for a new session, from its creation on. */
  lemma NewSessionLasts(c: Config, before: seq<Event>, user: string, token: string, now: U64,
                        events: seq<Event>, later: U64)
    requires var w := Run(c, START, before);
             && Digest(token) !in w.issued
             && LimitReached(w.sessions, user, c.limits, now, c.idleTimeoutSecs) == None
    requires forall i :: 0 <= i < |events| ==> Spares(events[i], Digest(token), now, c.idleTimeoutSecs)
    ensures var s := Run(c, Next(c, Run(c, START, before), Create(token, user, now)), events).sessions;
            && Digest(token) in s
            && UseError(s, Digest(token), later, c.idleTimeoutSecs) ==
               if s[Digest(token)].holdCount > 0 || InTime(c, now, later) then None else Some(SessionExpired)
  {
    var w := Next(c, Run(c, START, before), Create(token, user, now));
    SparedRun(c, w, events, Digest(token), now);
    UsableUntil(c, Run(c, w, events), Digest(token), now, later);
  }

  /** A session that has left the registry does not come back. */
  lemma {:induction false} GoneStaysGone(c: Config, w: World, events: seq<Event>, d: Digest)
    requires d in w.issued && d !in w.sessions
    ensures d in Run(c, w, events).issued && d !in Run(c, w, events).sessions
    decreases |events|
  {
    if events != [] {
      GoneStaysGone(c, Next(c, w, events[0]), events[1..], d);
    }
  }

  /** Every guard and every hold count is as it was. */
  predicate SameHolds(w: World, w': World) {
    && w'.guards == w.guards && w'.sessions.Keys == w.sessions.Keys
    && forall d :: d in w.sessions ==> w'.sessions[d].holdCount == w.sessions[d].holdCount
  }

  /** A hold that is dropped at once leaves the counts and guards as they were. */
  lemma HoldThenDrop(c: Config, w: World, g: GuardId, token: string, now: U64)
    requires Invariant(c, w) && g !in w.guards && |w.guards| < U64_MAX
    ensures SameHolds(w, Next(c, Next(c, w, Hold(g, token, now)), Drop(g)))
  {
    var d, held := Digest(token), Next(c, w, Hold(g, token, now));
    if UseError(w.sessions, d, now, c.idleTimeoutSecs) == None {
      HoldersAtMostGuards(w.guards, d);
      HoldTaken(c, w, g, token, now);
      DropGivesBack(c, w, held, g, d);
    } else {
      HoldRefused(c, w, g, token, now);
      assert g !in held.guards;
    }
  }

  lemma HoldTaken(c: Config, w: World, g: GuardId, token: string, now: U64)
    requires g !in w.guards && |w.guards| < U64_MAX
    requires UseError(w.sessions, Digest(token), now, c.idleTimeoutSecs) == None
    requires w.sessions[Digest(token)].holdCount < U64_MAX
    ensures var d, held := Digest(token), Next(c, w, Hold(g, token, now));
            && held.guards == w.guards[g := d]
            && held.sessions.Keys == w.sessions.Keys
            && forall other :: other in w.sessions ==>
                 held.sessions[other].holdCount == w.sessions[other].holdCount + (if other == d then 1 else 0)
  {
  }

  lemma HoldRefused(c: Config, w: World, g: GuardId, token: string, now: U64)
    requires g in w.guards || |w.guards| >= U64_MAX || UseError(w.sessions, Digest(token), now, c.idleTimeoutSecs).Some?
    ensures SameHolds(w, Next(c, w, Hold(g, token, now)))
  {
  }

  lemma DropGivesBack(c: Config, w: World, held: World, g: GuardId, d: Digest)
    requires g !in w.guards && d in w.sessions
    requires held.guards == w.guards[g := d] && held.sessions.Keys == w.sessions.Keys
    requires forall other :: other in w.sessions ==>
               held.sessions[other].holdCount == w.sessions[other].holdCount + (if other == d then 1 else 0)
    ensures SameHolds(w, Next(c, held, Drop(g)))
  {
    assert w.guards[g := d] - {g} == w.guards;
  }

  /** A hold, and its drop if it was taken. */
  function HeldThenDropped(c: Config, w: World, g: GuardId, token: string, now: U64): World {
    var held := Next(c, w, Hold(g, token, now));
    if g in held.guards then Next(c, held, Drop(g)) else held
  }

  lemma TriedHoldThenDrop(c: Config, w: World, g: GuardId, token: string, now: U64)
    requires Invariant(c, w) && g !in w.guards
    ensures SameHolds(w, HeldThenDropped(c, w, g, token, now))
  {
    if |w.guards| >= U64_MAX || UseError(w.sessions, Digest(token), now, c.idleTimeoutSecs).Some? {
      HoldRefused(c, w, g, token, now);
    } else {
      HoldThenDrop(c, w, g, token, now);
    }
  }
}
