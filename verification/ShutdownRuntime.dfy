/** The graceful-shutdown runtime of the REST gateway: one atomic phase, one atomic
    counter of requests in flight, and a wake-up channel. Memory is sequentially
    consistent: every load, store and read-modify-write is one indivisible step. */
module ShutdownRuntime {
  datatype Phase = Running | Draining | Stopped

  /** The shared memory. `notified` counts the calls of `notify_waiters` so far. */
  datatype Memory = Memory(phase: Phase, inFlight: int, notified: nat)

  /** Where a thread stands: the atomic operation it performs next, or how it ended. */
  datatype Position =
    // try_track_request, and the guard it returns
    | TrackCheck | TrackIncrement | TrackRecheck | Admitted
    // finish_request, for a request turned away after it was counted
    | FinishDecrement
    // finish_request, after the counter was decremented from one
    | FinishCheck | FinishNotify
    // begin_shutdown
    | BeginExchange | BeginCheck | BeginNotify | BeginReturned(won: bool)
    // mark_stopped
    | StopStore | StopNotify
    // wait_for_zero_in_flight: `seen` and `since` are the values of `notified` when the
    // counter was last read and when the thread registered for the next wake-up;
    // `leaving` says whether the phase had left Running when the counter read zero
    | WaitCheck | WaitRegister(seen: nat) | WaitParked(seen: nat, since: nat) | WaitReturned(leaving: bool)
    | Finished

  /** One atomic operation of a thread. */
  function Execute(m: Memory, p: Position): (Memory, Position) {
    match p
    case TrackCheck => (m, if m.phase != Running then Finished else TrackIncrement)
    case TrackIncrement => (m.(inFlight := m.inFlight + 1), TrackRecheck)
    case TrackRecheck => (m, if m.phase != Running then FinishDecrement else Admitted)
    case Admitted => (m.(inFlight := m.inFlight - 1), if m.inFlight == 1 then FinishCheck else Finished)
    case FinishDecrement => (m.(inFlight := m.inFlight - 1), if m.inFlight == 1 then FinishCheck else Finished)
    case FinishCheck => (m, if m.phase != Running then FinishNotify else Finished)
    case FinishNotify => (m.(notified := m.notified + 1), Finished)
    case BeginExchange =>
      if m.phase == Running then (m.(phase := Draining), BeginCheck) else (m, BeginReturned(false))
    case BeginCheck => (m, if m.inFlight == 0 then BeginNotify else BeginReturned(true))
    case BeginNotify => (m.(notified := m.notified + 1), BeginReturned(true))
    case StopStore => (m.(phase := Stopped), StopNotify)
    case StopNotify => (m.(notified := m.notified + 1), Finished)
    case WaitCheck =>
      (m, if m.inFlight == 0 then WaitReturned(m.phase != Running) else WaitRegister(m.notified))
    case WaitRegister(seen) => (m, WaitParked(seen, m.notified))
    case WaitParked(_, since) => (m, if m.notified > since then WaitCheck else p)
    case BeginReturned(_) => (m, p)
    case WaitReturned(_) => (m, p)
    case Finished => (m, p)
  }

  /** A thread that nobody interrupts, from an entry point to where its call ends. A
      guard rests until it is dropped, and a waiter until it is woken. */
  function Uninterrupted(m: Memory, p: Position): (Memory, Position)
    decreases Remaining(p)
  {
    if Remaining(p) == 0 then (m, p)
    else
      var (m', p') := Execute(m, p);
      Uninterrupted(m', p')
  }

  function Remaining(p: Position): nat {
    match p
    case TrackCheck => 6
    case TrackIncrement => 5
    case TrackRecheck => 4
    case FinishDecrement => 3
    case FinishCheck => 2
    case FinishNotify => 1
    case BeginExchange => 3
    case BeginCheck => 2
    case BeginNotify => 1
    case StopStore => 2
    case StopNotify => 1
    case WaitCheck => 2
    case WaitRegister(_) => 1
    case _ => 0
  }

  /** The runtime object. Each method is written with the source's own operations; run
      without interruption it does what its thread's steps do. */
  class ShutdownRuntime {
    var phase: Phase
    var inFlight: int
    var notified: nat

    constructor ()
      ensures Contents() == Memory(Running, 0, 0)
    {
      phase := Running;
      inFlight := 0;
      notified := 0;
    }

    function Contents(): Memory
      reads this
    {
      Memory(phase, inFlight, notified)
    }

    predicate IsShuttingDown()
      reads this
    {
      phase != Running
    }

    method BeginShutdown() returns (won: bool)
      modifies this
      ensures (Contents(), BeginReturned(won)) == Uninterrupted(old(Contents()), BeginExchange)
      ensures won <==> old(phase) == Running
      ensures IsShuttingDown() && inFlight == old(inFlight)
      ensures phase == if won then Draining else old(phase)
      ensures notified == old(notified) + (if won && inFlight == 0 then 1 else 0)
    {
      if phase == Running {
        phase := Draining;
        if inFlight == 0 {
          notified := notified + 1;
        }
        won := true;
      } else {
        won := false;
      }
    }

    method MarkStopped()
      modifies this
      ensures (Contents(), Finished) == Uninterrupted(old(Contents()), StopStore)
      ensures phase == Stopped && inFlight == old(inFlight) && notified == old(notified) + 1
    {
      phase := Stopped;
      notified := notified + 1;
    }

    method TryTrackRequest() returns (admitted: bool)
      modifies this
      ensures (Contents(), if admitted then Admitted else Finished) == Uninterrupted(old(Contents()), TrackCheck)
      ensures admitted <==> old(phase) == Running
      ensures inFlight == old(inFlight) + (if admitted then 1 else 0)
      ensures phase == old(phase) && notified == old(notified)
    {
      if IsShuttingDown() {
        return false;
      }
      inFlight := inFlight + 1;
      if IsShuttingDown() {
        FinishRequest();
        return false;
      }
      return true;
    }

    method FinishRequest()
      modifies this
      ensures (Contents(), Finished) == Uninterrupted(old(Contents()), FinishDecrement)
      ensures phase == old(phase) && inFlight == old(inFlight) - 1
      ensures notified == old(notified) + (if inFlight == 0 && phase != Running then 1 else 0)
    {
      var previous := inFlight;
      inFlight := inFlight - 1;
      if previous == 1 && IsShuttingDown() {
        notified := notified + 1;
      }
    }
  }
}
