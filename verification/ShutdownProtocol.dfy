/** Every interleaving of the threads that use one shutdown runtime. */
module ShutdownProtocol {
  import opened ShutdownRuntime

  type ThreadId = nat

  /** All threads over one memory. `mark` remembers the value of `notified` when the
      memory last became quiet; no thread reads it. */
  datatype Gateway = Gateway(mem: Memory, mark: nat, threads: map<ThreadId, Position>)

  datatype Event = Arrive(thread: ThreadId, entry: Position) | Step(thread: ThreadId)

  const START := Gateway(Memory(Running, 0, 0), 0, map[])

  /** The four entry points of the runtime. */
  predicate EntryPoint(p: Position) {
    p == TrackCheck || p == BeginExchange || p == StopStore || p == WaitCheck
  }

  /** Shutdown has begun and no request is counted. */
  predicate Quiet(m: Memory) {
    m.phase != Running && m.inFlight == 0
  }

  /** One event. A call may arrive on any unused thread, and any thread may take its
      next step; everything else changes nothing. */
  function Next(g: Gateway, e: Event): Gateway {
    match e
    case Arrive(t, entry) =>
      if t !in g.threads && EntryPoint(entry) then g.(threads := g.threads[t := entry]) else g
    case Step(t) =>
      if t in g.threads then
        var (m, p) := Execute(g.mem, g.threads[t]);
        Stepped(g, t, m, p)
      else g
  }

  /** Thread `t` has taken its step to `p` and left the memory at `m`. */
  function Stepped(g: Gateway, t: ThreadId, m: Memory, p: Position): Gateway {
    Gateway(m, if Quiet(m) && !Quiet(g.mem) then m.notified else g.mark, g.threads[t := p])
  }

  function Run(g: Gateway, events: seq<Event>): Gateway
    decreases |events|
  {
    if events == [] then g else Run(Next(g, events[0]), events[1..])
  }

  /** The thread is between its increment and its decrement of the counter. */
  predicate Counted(p: Position) {
    p == TrackRecheck || p == Admitted || p == FinishDecrement
  }

  function CountedThreads(threads: map<ThreadId, Position>): set<ThreadId> {
    set t | t in threads && Counted(threads[t])
  }

  /** The thread will still call `notify_waiters`, or will check whether it must. */
  predicate Notifying(p: Position) {
    p == FinishCheck || p == FinishNotify || p == BeginCheck || p == BeginNotify || p == StopNotify
  }

  ghost predicate NotifyPending(g: Gateway) {
    exists t :: t in g.threads && Notifying(g.threads[t])
  }

  /** Won the exchange of the phase from Running to Draining. */
  predicate Won(p: Position) {
    p == BeginCheck || p == BeginNotify || p == BeginReturned(true)
  }

  /** Positions only reached after the phase has left Running. */
  predicate AfterRunning(p: Position) {
    Won(p) || p == FinishNotify || p == StopNotify || p == WaitReturned(true)
  }

  predicate ReadBeforeNotify(p: Position, notified: nat) {
    (p.WaitRegister? ==> p.seen < notified) && (p.WaitParked? ==> p.seen < notified)
  }

  predicate WaiterInOrder(p: Position, notified: nat) {
    (p.WaitRegister? ==> p.seen <= notified) && (p.WaitParked? ==> p.seen <= p.since <= notified)
  }

  predicate NoneAdmitted(g: Gateway) {
    forall t :: t in g.threads ==> g.threads[t] != Admitted
  }

  /** What every step keeps. */
  ghost predicate Invariant(g: Gateway) {
    && g.mem.inFlight == |CountedThreads(g.threads)|
    && g.mark <= g.mem.notified
    && (forall t :: t in g.threads && AfterRunning(g.threads[t]) ==> g.mem.phase != Running)
    && (forall t :: t in g.threads && g.threads[t] == WaitReturned(true) ==> NoneAdmitted(g))
    && (forall t :: t in g.threads ==> WaiterInOrder(g.threads[t], g.mem.notified))
    && (forall t, u :: t in g.threads && u in g.threads && Won(g.threads[t]) && Won(g.threads[u]) ==> t == u)
    && (Quiet(g.mem) ==> NotifyPending(g) || Announced(g))
  }

  /** A notification went out after the memory became quiet, and no waiter has seen a
      positive counter since. */
  predicate Announced(g: Gateway) {
    g.mark < g.mem.notified && forall t :: t in g.threads ==> ReadBeforeNotify(g.threads[t], g.mem.notified)
  }

  lemma CountAfterUpdate(threads: map<ThreadId, Position>, t: ThreadId, p: Position)
    ensures |CountedThreads(threads[t := p])| ==
            |CountedThreads(threads)|
            - (if t in threads && Counted(threads[t]) then 1 else 0)
            + (if Counted(p) then 1 else 0)
  {
    var before, after := CountedThreads(threads), CountedThreads(threads[t := p]);
    CountedAfterUpdate(threads, t, p);
    assert t in before <==> t in threads && Counted(threads[t]);
  }

  lemma CountedAfterUpdate(threads: map<ThreadId, Position>, t: ThreadId, p: Position)
    ensures CountedThreads(threads[t := p]) == CountedThreads(threads) - {t} + (if Counted(p) then {t} else {})
  {
  }

  /** The counter covers every counted thread, so it is positive whenever a thread is
      about to decrement it. */
  lemma CounterPositive(g: Gateway, t: ThreadId)
    requires Invariant(g) && t in g.threads && Counted(g.threads[t])
    ensures g.mem.inFlight >= 1
  {
    assert t in CountedThreads(g.threads);
  }

  /** A zero counter means that no thread is counted, admitted requests included. */
  lemma ZeroMeansNoneAdmitted(g: Gateway)
    requires Invariant(g) && g.mem.inFlight == 0
    ensures NoneAdmitted(g)
  {
    forall t | t in g.threads
      ensures g.threads[t] != Admitted
    {
      if g.threads[t] == Admitted {
        CounterPositive(g, t);
      }
    }
  }

  // ---------------------------------------------------------------------------
  // One step of one thread
  // ---------------------------------------------------------------------------

  /** What a step does, seen from where it leads. */
  predicate StepsTo(m: Memory, p: Position, m': Memory, p': Position) {
    ChangesMemory(m, p, m', p') && ReachesPosition(m, p, m', p')
  }

  predicate ChangesMemory(m: Memory, p: Position, m': Memory, p': Position) {
    && m'.notified >= m.notified
    && (m.phase != Running ==> m'.phase != Running)
    && m'.inFlight == m.inFlight - (if Counted(p) then 1 else 0) + (if Counted(p') then 1 else 0)
    && (AfterRunning(p') ==> m'.phase != Running)
  }

  predicate ReachesPosition(m: Memory, p: Position, m': Memory, p': Position) {
    && (p' == Admitted && p != Admitted ==> m.phase == Running)
    && (p' == WaitReturned(true) && p != p' ==> m.inFlight == 0)
    && (Won(p') ==> Won(p) || m.phase == Running)
    && (p'.WaitRegister? ==> p' == WaitRegister(m.notified) && m'.inFlight != 0)
    && (p'.WaitParked? ==> p' == p || (p.WaitRegister? && p' == WaitParked(p.seen, m.notified)))
  }

  lemma ExecuteChangesMemory(m: Memory, p: Position)
    requires AfterRunning(p) ==> m.phase != Running
    ensures ChangesMemory(m, p, Execute(m, p).0, Execute(m, p).1)
  {
  }

  lemma ExecuteReachesPosition(m: Memory, p: Position)
    ensures ReachesPosition(m, p, Execute(m, p).0, Execute(m, p).1)
  {
  }

  /** A step that leaves the memory quiet: it has just become so and the thread owes the
      notification, or it was quiet, and the thread has notified or owed nothing. */
  predicate StepsQuietly(m: Memory, p: Position, m': Memory, p': Position) {
    Quiet(m') && !Notifying(p') ==>
      && (Counted(p) ==> m.inFlight <= 0)
      && (!Counted(p) ==> Quiet(m))
      && (Notifying(p) ==> m'.notified > m.notified)
  }

  lemma ExecuteStepsQuietly(m: Memory, p: Position)
    requires m.inFlight >= 0
    ensures StepsQuietly(m, p, Execute(m, p).0, Execute(m, p).1)
  {
  }

  lemma StepKeepsCounter(g: Gateway, t: ThreadId, m: Memory, p: Position)
    requires Invariant(g) && t in g.threads && StepsTo(g.mem, g.threads[t], m, p)
    ensures var g' := Stepped(g, t, m, p); g'.mem.inFlight == |CountedThreads(g'.threads)| && g'.mark <= g'.mem.notified
  {
    CountAfterUpdate(g.threads, t, p);
  }

  lemma StepKeepsDrain(g: Gateway, t: ThreadId, m: Memory, p: Position)
    requires Invariant(g) && t in g.threads && StepsTo(g.mem, g.threads[t], m, p)
    ensures var g' := Stepped(g, t, m, p);
            forall u :: u in g'.threads && g'.threads[u] == WaitReturned(true) ==> NoneAdmitted(g')
  {
    if g.mem.inFlight == 0 {
      ZeroMeansNoneAdmitted(g);
    }
  }

  lemma StepKeepsThreads(g: Gateway, t: ThreadId, m: Memory, p: Position)
    requires Invariant(g) && t in g.threads && StepsTo(g.mem, g.threads[t], m, p)
    ensures var g' := Stepped(g, t, m, p);
            && (forall u :: u in g'.threads && AfterRunning(g'.threads[u]) ==> g'.mem.phase != Running)
            && (forall u :: u in g'.threads ==> WaiterInOrder(g'.threads[u], g'.mem.notified))
  {
  }

  lemma StepKeepsWinner(g: Gateway, t: ThreadId, m: Memory, p: Position)
    requires Invariant(g) && t in g.threads && StepsTo(g.mem, g.threads[t], m, p)
    ensures var g' := Stepped(g, t, m, p);
            forall u, v :: u in g'.threads && v in g'.threads && Won(g'.threads[u]) && Won(g'.threads[v]) ==> u == v
  {
  }

  lemma StepKeepsHandshake(g: Gateway, t: ThreadId, m: Memory, p: Position)
    requires Invariant(g) && t in g.threads
    requires StepsTo(g.mem, g.threads[t], m, p) && StepsQuietly(g.mem, g.threads[t], m, p)
    ensures var g' := Stepped(g, t, m, p); Quiet(g'.mem) ==> NotifyPending(g') || Announced(g')
  {
    var g' := Stepped(g, t, m, p);
    assert g'.threads[t] == p;
    if Quiet(m) && !Notifying(p) {
      if Counted(g.threads[t]) {
        CounterPositive(g, t);
      }
      if NotifyPending(g) && !Notifying(g.threads[t]) {
        var u :| u in g.threads && Notifying(g.threads[u]);
        assert g'.threads[u] == g.threads[u];
      } else {
        QuietStaysAnnounced(g, t, m, p);
      }
    }
  }

  /** The thread has just notified, or the memory was announced already. */
  lemma QuietStaysAnnounced(g: Gateway, t: ThreadId, m: Memory, p: Position)
    requires Invariant(g) && t in g.threads && Quiet(g.mem) && Quiet(m)
    requires StepsTo(g.mem, g.threads[t], m, p)
    requires Announced(g) || m.notified > g.mem.notified
    ensures Announced(Stepped(g, t, m, p))
  {
    var g' := Stepped(g, t, m, p);
    forall u | u in g'.threads
      ensures ReadBeforeNotify(g'.threads[u], m.notified)
    {
      if u != t {
        assert WaiterInOrder(g.threads[u], g.mem.notified);
        assert Announced(g) ==> ReadBeforeNotify(g.threads[u], g.mem.notified);
      } else {
        assert WaiterInOrder(g.threads[t], g.mem.notified);
        assert Announced(g) ==> ReadBeforeNotify(g.threads[t], g.mem.notified);
      }
    }
  }

  lemma StepKeepsInvariant(g: Gateway, t: ThreadId, m: Memory, p: Position)
    requires Invariant(g) && t in g.threads
    requires StepsTo(g.mem, g.threads[t], m, p) && StepsQuietly(g.mem, g.threads[t], m, p)
    ensures Invariant(Stepped(g, t, m, p))
  {
    StepKeepsCounter(g, t, m, p);
    StepKeepsDrain(g, t, m, p);
    StepKeepsThreads(g, t, m, p);
    StepKeepsWinner(g, t, m, p);
    StepKeepsHandshake(g, t, m, p);
  }

  /** A position that says nothing about what has happened. */
  predicate Fresh(p: Position) {
    !Counted(p) && !AfterRunning(p) && !p.WaitRegister? && !p.WaitParked?
  }

  lemma ArrivalKeepsThreads(g: Gateway, t: ThreadId, entry: Position)
    requires Invariant(g) && t !in g.threads && Fresh(entry)
    ensures var threads := g.threads[t := entry];
            && (forall u :: u in threads && AfterRunning(threads[u]) ==> g.mem.phase != Running)
            && (forall u :: u in threads ==> WaiterInOrder(threads[u], g.mem.notified))
            && (forall u, v :: u in threads && v in threads && Won(threads[u]) && Won(threads[v]) ==> u == v)
  {
  }

  lemma ArrivalKeepsDrain(g: Gateway, t: ThreadId, entry: Position)
    requires Invariant(g) && t !in g.threads && Fresh(entry)
    ensures var g' := g.(threads := g.threads[t := entry]);
            && (forall u :: u in g'.threads && g'.threads[u] == WaitReturned(true) ==> NoneAdmitted(g'))
            && g'.mem.inFlight == |CountedThreads(g'.threads)|
  {
    CountAfterUpdate(g.threads, t, entry);
  }

  lemma ArrivalKeepsHandshake(g: Gateway, t: ThreadId, entry: Position)
    requires Invariant(g) && t !in g.threads && Fresh(entry)
    ensures var g' := g.(threads := g.threads[t := entry]); Quiet(g'.mem) ==> NotifyPending(g') || Announced(g')
  {
    var g' := g.(threads := g.threads[t := entry]);
    if NotifyPending(g) {
      var u :| u in g.threads && Notifying(g.threads[u]);
      assert u in g'.threads && Notifying(g'.threads[u]);
    }
  }

  lemma ArrivalKeepsInvariant(g: Gateway, t: ThreadId, entry: Position)
    requires Invariant(g) && t !in g.threads && Fresh(entry)
    ensures Invariant(g.(threads := g.threads[t := entry]))
  {
    ArrivalKeepsThreads(g, t, entry);
    ArrivalKeepsDrain(g, t, entry);
    ArrivalKeepsHandshake(g, t, entry);
  }

  lemma NextKeepsInvariant(g: Gateway, e: Event)
    requires Invariant(g)
    ensures Invariant(Next(g, e))
  {
    match e
    case Arrive(t, entry) =>
      if t !in g.threads && EntryPoint(entry) {
        assert Fresh(entry);
        ArrivalKeepsInvariant(g, t, entry);
      }
    case Step(t) =>
      if t in g.threads {
        var (m, p) := Execute(g.mem, g.threads[t]);
        ExecuteChangesMemory(g.mem, g.threads[t]);
        ExecuteReachesPosition(g.mem, g.threads[t]);
        ExecuteStepsQuietly(g.mem, g.threads[t]);
        StepKeepsInvariant(g, t, m, p);
      }
  }

  lemma {:induction false} RunKeepsInvariant(g: Gateway, events: seq<Event>)
    requires Invariant(g)
    ensures Invariant(Run(g, events))
    decreases |events|
  {
    if events != [] {
      NextKeepsInvariant(g, events[0]);
      RunKeepsInvariant(Next(g, events[0]), events[1..]);
    }
  }

  lemma StartInvariant()
    ensures Invariant(START)
  {
    assert CountedThreads(START.threads) == {};
  }

  /** In every interleaving the counter is the number of threads between their
      increment and their decrement, and it never underflows. */
  lemma CounterExact(events: seq<Event>)
    ensures var g := Run(START, events);
            && g.mem.inFlight == |CountedThreads(g.threads)| >= 0
            && forall t :: t in g.threads && Counted(g.threads[t]) ==> g.mem.inFlight > 0
  {
    StartInvariant();
    RunKeepsInvariant(START, events);
    var g := Run(START, events);
    forall t | t in g.threads && Counted(g.threads[t])
      ensures g.mem.inFlight > 0
    {
      CounterPositive(g, t);
    }
  }

  function AdmittedThreads(g: Gateway): set<ThreadId> {
    set t | t in g.threads && g.threads[t] == Admitted
  }

  /** Once the phase has left Running no request is admitted any more: the set of live
      guards only shrinks. */
  lemma {:induction false} NoAdmissionAfterRunning(g: Gateway, events: seq<Event>)
    requires g.mem.phase != Running
    ensures Run(g, events).mem.phase != Running
    ensures AdmittedThreads(Run(g, events)) <= AdmittedThreads(g)
    decreases |events|
  {
    if events != [] {
      NoAdmissionAfterRunning(Next(g, events[0]), events[1..]);
    }
  }

  /** Drain safety: once shutdown has begun and the counter has been zero, no admitted
      request is live then or at any later moment, whatever the counter does. */
  lemma DrainSafety(before: seq<Event>, after: seq<Event>)
    requires Quiet(Run(START, before).mem)
    ensures AdmittedThreads(Run(START, before)) == {}
    ensures AdmittedThreads(Run(Run(START, before), after)) == {}
  {
    StartInvariant();
    RunKeepsInvariant(START, before);
    ZeroMeansNoneAdmitted(Run(START, before));
    NoAdmissionAfterRunning(Run(START, before), after);
  }

  /** A waiter that came back after shutdown began has outlived every admitted request. */
  lemma WaiterReturnsAfterDrain(events: seq<Event>, t: ThreadId)
    requires t in Run(START, events).threads && Run(START, events).threads[t] == WaitReturned(true)
    ensures AdmittedThreads(Run(START, events)) == {}
  {
    StartInvariant();
    RunKeepsInvariant(START, events);
  }

  predicate Returned(g: Gateway, t: ThreadId) {
    t in g.threads && g.threads[t].WaitReturned?
  }

  /** A waiter returns when, and only when, it reads the counter at zero. */
  lemma ReturnsExactlyAtZero(g: Gateway, e: Event, t: ThreadId)
    requires !Returned(g, t)
    ensures Returned(Next(g, e), t) <==>
            e == Step(t) && t in g.threads && g.threads[t] == WaitCheck && g.mem.inFlight == 0
    ensures Returned(Next(g, e), t) ==> Next(g, e).mem == g.mem
  {
  }

  /** And if shutdown has begun when it returns, no admitted request is live then or at
      any later moment. */
  lemma NobodyLeftAtReturn(before: seq<Event>, e: Event, t: ThreadId, after: seq<Event>)
    requires var g := Run(START, before); !Returned(g, t) && Returned(Next(g, e), t) && g.mem.phase != Running
    ensures var g := Run(START, before);
            AdmittedThreads(g) == {} && AdmittedThreads(Run(Next(g, e), after)) == {}
  {
    var g := Run(START, before);
    ReturnsExactlyAtZero(g, e, t);
    DrainSafety(before, []);
    NoAdmissionAfterRunning(g, [e]);
    assert [e][1..] == [];
    NoAdmissionAfterRunning(Next(g, e), after);
  }

  /** Notify handshake: whenever shutdown has begun and nothing is counted, a
      notification has gone out since that became so, or a thread still owes one. */
  lemma NotifyHandshake(events: seq<Event>)
    requires Quiet(Run(START, events).mem)
    ensures Run(START, events).mem.notified > Run(START, events).mark || NotifyPending(Run(START, events))
  {
    StartInvariant();
    RunKeepsInvariant(START, events);
  }

  /** A waiter parked over a drained gateway is woken or will be, unless a notification
      fell between its read of the counter and its registration. */
  lemma WakeupLostOnlyInGap(events: seq<Event>, t: ThreadId)
    requires t in Run(START, events).threads && Run(START, events).threads[t].WaitParked?
    requires Quiet(Run(START, events).mem)
    ensures var g := Run(START, events); var p := g.threads[t];
            g.mem.notified > p.since || NotifyPending(g) || p.seen < p.since
  {
    StartInvariant();
    RunKeepsInvariant(START, events);
    var g := Run(START, events);
    assert WaiterInOrder(g.threads[t], g.mem.notified);
  }

  // ---------------------------------------------------------------------------
  // Exactly when the wake-up is lost
  // ---------------------------------------------------------------------------

  /** Threads that are already there take steps; no call arrives. */
  predicate OnlySteps(events: seq<Event>) {
    forall i :: 0 <= i < |events| ==> events[i].Step?
  }

  predicate Awake(g: Gateway, t: ThreadId) {
    t in g.threads && !g.threads[t].WaitParked?
  }

  ghost predicate CanBeWoken(g: Gateway, t: ThreadId) {
    exists steps :: OnlySteps(steps) && Awake(Run(g, steps), t)
  }

  /** A thread that will notify over a drained gateway: one that owes a notification, a
      late request about to be counted and turned away, or the end of the shutdown. */
  predicate Rescuing(p: Position) {
    Notifying(p) || p == TrackIncrement || p == StopStore
  }

  ghost predicate RescueComing(g: Gateway) {
    exists u :: u in g.threads && Rescuing(g.threads[u])
  }

  lemma OneStepFurther(m: Memory, p: Position)
    requires Remaining(p) > 0
    ensures Uninterrupted(m, p) == Uninterrupted(Execute(m, p).0, Execute(m, p).1)
  {
  }

  /** On its way to a notification, over a drained gateway but for itself. */
  predicate OnItsWay(m: Memory, p: Position) {
    && m.phase != Running
    && ((Rescuing(p) && m.inFlight == 0) || ((p == TrackRecheck || p == FinishDecrement) && m.inFlight == 1))
  }

  lemma StaysOnItsWay(m: Memory, p: Position)
    requires OnItsWay(m, p)
    ensures Remaining(p) > 0
    ensures var (m', p') := Execute(m, p);
            m'.notified >= m.notified && (OnItsWay(m', p') || m'.notified > m.notified)
  {
  }

  /** Left alone, such a thread notifies. */
  lemma {:induction false} RescuerNotifies(m: Memory, p: Position)
    requires OnItsWay(m, p)
    ensures Uninterrupted(m, p).0.notified > m.notified
    decreases Remaining(p)
  {
    OneStepFurther(m, p);
    StaysOnItsWay(m, p);
    var (m', p') := Execute(m, p);
    NotifiedGrows(m', p');
    if m'.notified == m.notified {
      RescuerNotifies(m', p');
    }
  }

  lemma {:induction false} NotifiedGrows(m: Memory, p: Position)
    ensures Uninterrupted(m, p).0.notified >= m.notified
    decreases Remaining(p)
  {
    if Remaining(p) > 0 {
      OneStepFurther(m, p);
      NotifiedGrows(Execute(m, p).0, Execute(m, p).1);
    }
  }

  /** No thread is left that could notify. */
  predicate Settled(g: Gateway) {
    Quiet(g.mem) && forall u :: u in g.threads ==> Harmless(g.threads[u])
  }

  predicate Harmless(p: Position) {
    !Rescuing(p) && !Counted(p)
  }

  lemma SettledStep(m: Memory, p: Position)
    requires Quiet(m) && Harmless(p)
    ensures Execute(m, p).0 == m && Harmless(Execute(m, p).1)
    ensures p.WaitParked? && m.notified <= p.since ==> Execute(m, p).1 == p
  {
  }

  /** Then the memory does not change any more, and a parked waiter stays parked. */
  lemma {:induction false} StaysAsleep(g: Gateway, steps: seq<Event>, t: ThreadId)
    requires Settled(g) && OnlySteps(steps)
    requires t in g.threads && g.threads[t].WaitParked? && g.mem.notified <= g.threads[t].since
    ensures !Awake(Run(g, steps), t)
    decreases |steps|
  {
    if steps != [] {
      var u := steps[0].thread;
      if u in g.threads {
        var (m, p) := Execute(g.mem, g.threads[u]);
        SettledStep(g.mem, g.threads[u]);
        StaysAsleep(Stepped(g, u, m, p), steps[1..], t);
      } else {
        StaysAsleep(g, steps[1..], t);
      }
    }
  }

  lemma WokenByRescuer(g: Gateway, t: ThreadId, u: ThreadId) returns (steps: seq<Event>)
    requires Quiet(g.mem) && t in g.threads && u in g.threads
    requires g.threads[t].WaitParked? && g.threads[t].since <= g.mem.notified && Rescuing(g.threads[u])
    ensures OnlySteps(steps) && Awake(Run(g, steps), t)
  {
    var before := UninterruptedIsARun(g, u);
    RescuerNotifies(g.mem, g.threads[u]);
    steps := before + [Step(t)];
    RunAppend(g, before, Step(t));
  }

  /** A waiter parked over a drained gateway can still be woken by the threads there are
      exactly when it has a notification to see or a thread will yet notify. */
  lemma WakeupExactly(events: seq<Event>, t: ThreadId)
    requires t in Run(START, events).threads && Run(START, events).threads[t].WaitParked?
    requires Quiet(Run(START, events).mem)
    ensures var g := Run(START, events);
            CanBeWoken(g, t) <==> g.mem.notified > g.threads[t].since || RescueComing(g)
  {
    StartInvariant();
    RunKeepsInvariant(START, events);
    var g := Run(START, events);
    assert WaiterInOrder(g.threads[t], g.mem.notified);
    if g.mem.notified > g.threads[t].since {
      assert [Step(t)][1..] == [] && Run(g, [Step(t)]) == Next(g, Step(t));
      assert OnlySteps([Step(t)]) && Awake(Run(g, [Step(t)]), t);
    } else if RescueComing(g) {
      var u :| u in g.threads && Rescuing(g.threads[u]);
      var _ := WokenByRescuer(g, t, u);
    } else {
      NoneCounted(g);
      forall steps | OnlySteps(steps)
        ensures !Awake(Run(g, steps), t)
      {
        StaysAsleep(g, steps, t);
      }
    }
  }

  lemma NoneCounted(g: Gateway)
    requires Invariant(g) && g.mem.inFlight == 0
    ensures forall u :: u in g.threads ==> !Counted(g.threads[u])
  {
    forall u | u in g.threads
      ensures !Counted(g.threads[u])
    {
      if Counted(g.threads[u]) {
        CounterPositive(g, u);
      }
    }
  }

  lemma OneAdmitted() returns (events: seq<Event>, g: Gateway)
    ensures g == Run(START, events) == Gateway(Memory(Running, 1, 0), 0, map[0 := Admitted])
  {
    events, g := Append([], START, Arrive(0, TrackCheck));
    events, g := Append(events, g, Step(0));
    events, g := Append(events, g, Step(0));
    events, g := Append(events, g, Step(0));
    assert g.threads == map[0 := Admitted];
  }

  lemma WaiterChecking() returns (events: seq<Event>, g: Gateway)
    ensures g == Run(START, events)
    ensures g.mem == Memory(Running, 1, 0) && g.mark == 0
    ensures g.threads == map[0 := Admitted, 1 := WaitCheck, 2 := BeginExchange]
  {
    events, g := OneAdmitted();
    events, g := Append(events, g, Arrive(1, WaitCheck));
    events, g := Append(events, g, Arrive(2, BeginExchange));
    assert g.threads == map[0 := Admitted, 1 := WaitCheck, 2 := BeginExchange];
  }

  lemma WaiterInGap() returns (events: seq<Event>, g: Gateway)
    ensures g == Run(START, events)
    ensures g.mem == Memory(Draining, 1, 0) && g.mark == 0
    ensures g.threads == map[0 := Admitted, 1 := WaitRegister(0), 2 := BeginReturned(true)]
  {
    events, g := WaiterChecking();
    events, g := Append(events, g, Step(2));
    events, g := Append(events, g, Step(2));
    events, g := Append(events, g, Step(1));
    assert g.threads == map[0 := Admitted, 1 := WaitRegister(0), 2 := BeginReturned(true)];
  }

  lemma WaiterAsleep() returns (events: seq<Event>, g: Gateway)
    ensures g == Run(START, events)
    ensures g.mem == Memory(Draining, 0, 1)
    ensures g.threads == map[0 := Finished, 1 := WaitParked(0, 1), 2 := BeginReturned(true)]
  {
    events, g := WaiterInGap();
    events, g := Append(events, g, Step(0));
    events, g := Append(events, g, Step(0));
    events, g := Append(events, g, Step(0));
    events, g := Append(events, g, Step(1));
    assert g.threads == map[0 := Finished, 1 := WaitParked(0, 1), 2 := BeginReturned(true)];
  }

  /** That gap is real: in this run the drain completes, yet no further step of any
      thread wakes the waiter. */
  lemma WakeupCanBeLost() returns (events: seq<Event>)
    ensures var g := Run(START, events);
            && Quiet(g.mem) && !NotifyPending(g)
            && 1 in g.threads && g.threads[1] == WaitParked(0, 1)
            && forall t :: Next(g, Step(t)) == g
  {
    ghost var g;
    events, g := WaiterAsleep();
    forall t
      ensures Next(g, Step(t)) == g
    {
      if t in g.threads {
        assert Execute(g.mem, g.threads[t]) == (g.mem, g.threads[t]);
        assert g.threads[t := g.threads[t]] == g.threads;
      }
    }
  }

  /** The counter may rise again after the drain: a late request that passed its first
      check is counted for a moment, and turned away. */
  lemma CounterMayRiseAfterDrain() returns (events: seq<Event>, g: Gateway)
    ensures g == Run(START, events) && Quiet(g.mem)
    ensures Next(g, Step(0)).mem.inFlight == 1
    ensures Next(Next(g, Step(0)), Step(0)).threads == map[0 := FinishDecrement, 1 := BeginCheck]
  {
    events, g := Append([], START, Arrive(0, TrackCheck));
    events, g := Append(events, g, Step(0));
    events, g := Append(events, g, Arrive(1, BeginExchange));
    events, g := Append(events, g, Step(1));
    assert g.threads == map[0 := TrackIncrement, 1 := BeginCheck];
  }

  lemma Append(events: seq<Event>, g: Gateway, e: Event) returns (events': seq<Event>, g': Gateway)
    requires g == Run(START, events)
    ensures events' == events + [e] && g' == Run(START, events') == Next(g, e)
  {
    events', g' := events + [e], Next(g, e);
    RunAppend(START, events, e);
  }

  lemma {:induction false} RunAppend(g: Gateway, events: seq<Event>, e: Event)
    ensures Run(g, events + [e]) == Next(Run(g, events), e)
    decreases |events|
  {
    if events == [] {
      assert [e][1..] == [];
    } else {
      assert (events + [e])[1..] == events[1..] + [e];
      RunAppend(Next(g, events[0]), events[1..], e);
    }
  }

  /** Over a whole run `begin_shutdown` returns true on at most one thread, and when it
      has, the phase has left Running. */
  lemma BeginShutdownWinsOnce(events: seq<Event>, t: ThreadId, u: ThreadId)
    requires var g := Run(START, events);
             && t in g.threads && u in g.threads
             && g.threads[t] == BeginReturned(true) && g.threads[u] == BeginReturned(true)
    ensures t == u && Run(START, events).mem.phase != Running
  {
    StartInvariant();
    RunKeepsInvariant(START, events);
  }

  /** A call that nobody interrupts is one of the interleavings: stepping its thread
      alone ends where the uninterrupted call ends. */
  lemma {:induction false} UninterruptedIsARun(g: Gateway, t: ThreadId) returns (events: seq<Event>)
    requires t in g.threads
    ensures forall i :: 0 <= i < |events| ==> events[i] == Step(t)
    ensures var (m, p) := Uninterrupted(g.mem, g.threads[t]);
            Run(g, events).mem == m && Run(g, events).threads == g.threads[t := p]
    decreases Remaining(g.threads[t])
  {
    if Remaining(g.threads[t]) == 0 {
      events := [];
      assert g.threads[t := g.threads[t]] == g.threads;
    } else {
      var rest := UninterruptedIsARun(Next(g, Step(t)), t);
      events := [Step(t)] + rest;
      assert events[1..] == rest;
    }
  }

  function Rank(p: Phase): nat {
    match p
    case Running => 0
    case Draining => 1
    case Stopped => 2
  }

  /** The phase only moves forward. */
  lemma {:induction false} PhaseMovesForward(g: Gateway, events: seq<Event>)
    ensures Rank(g.mem.phase) <= Rank(Run(g, events).mem.phase)
    decreases |events|
  {
    if events != [] {
      PhaseMovesForward(Next(g, events[0]), events[1..]);
    }
  }
}
