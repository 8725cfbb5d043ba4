/** What the pruned and capped limiter promises over whole runs of calls: it decides as
    a counter that forgets nothing, and it bounds what each key is admitted. */
module FixedWindows {
  import opened Sets
  import opened Wrappers
  import opened RateLimiter

  /** The limits of a limiter: each key has one, and all windows have one length. */
  datatype Policy = Policy(windowSecs: nat, limitOf: Key -> nat) {
    function Window(): nat { Max(windowSecs, 1) }
  }

  datatype Call = Call(key: Key, now: nat)

  predicate Nondecreasing(calls: seq<Call>) {
    forall i, j :: 0 <= i <= j < |calls| ==> calls[i].now <= calls[j].now
  }

  /** The limiter after a run of calls. */
  function After(p: Policy, calls: seq<Call>): State {
    if calls == [] then EMPTY
    else
      var last := calls[|calls| - 1];
      Checked(After(p, calls[..|calls| - 1]), last.key, p.limitOf(last.key), last.now, p.windowSecs).0
  }

  /** The answer to the last call of a run. */
  function Answer(p: Policy, calls: seq<Call>): Option<nat>
    requires calls != []
  {
    var last := calls[|calls| - 1];
    Checked(After(p, calls[..|calls| - 1]), last.key, p.limitOf(last.key), last.now, p.windowSecs).1
  }

  /** The last call of the run is denied because there is no room for its bucket. */
  predicate Capped(p: Policy, calls: seq<Call>)
    requires calls != []
  {
    var last := calls[|calls| - 1];
    p.limitOf(last.key) > 0 &&
    Full(Prepared(After(p, calls[..|calls| - 1]), last.key, last.now, p.Window()), last.key)
  }

  predicate NeverCapped(p: Policy, calls: seq<Call>) {
    calls != [] ==> !Capped(p, calls) && NeverCapped(p, calls[..|calls| - 1])
  }

  // ---------------------------------------------------------------------------
  // The reference: one fixed-window counter for each key, never pruned, no cap
  // ---------------------------------------------------------------------------

  type Counters = map<Key, Bucket>

  function Counter(c: Counters, key: Key, now: nat, window: nat): Bucket {
    if key in c && now < c[key].windowStartedAt + window then c[key] else Bucket(now, 0)
  }

  function Count(c: Counters, key: Key, limit: nat, now: nat, window: nat): (Counters, Option<nat>) {
    if limit == 0 then (c, Some(window))
    else
      var b := Counter(c, key, now, window);
      if b.count < limit then (c[key := Bucket(b.windowStartedAt, b.count + 1)], None)
      else (c, Some(b.windowStartedAt + window - now))
  }

  /** The reference counters after a run, calls that the limiter turns away for lack of
      room left out. */
  function Counted(p: Policy, calls: seq<Call>): Counters {
    if calls == [] then map[]
    else
      var last, before := calls[|calls| - 1], Counted(p, calls[..|calls| - 1]);
      if Capped(p, calls) then before
      else Count(before, last.key, p.limitOf(last.key), last.now, p.Window()).0
  }

  /** The same run on the reference alone. */
  function Reference(p: Policy, calls: seq<Call>): Counters {
    if calls == [] then map[]
    else
      var last := calls[|calls| - 1];
      Count(Reference(p, calls[..|calls| - 1]), last.key, p.limitOf(last.key), last.now, p.Window()).0
  }

  function ReferenceAnswer(p: Policy, calls: seq<Call>): Option<nat>
    requires calls != []
  {
    var last := calls[|calls| - 1];
    Count(Reference(p, calls[..|calls| - 1]), last.key, p.limitOf(last.key), last.now, p.Window()).1
  }

  // ---------------------------------------------------------------------------
  // Refinement
  // ---------------------------------------------------------------------------

  /** At time `clock` the limiter holds every counter whose window is still open, and
      nothing but counters. */
  predicate Agree(s: State, c: Counters, clock: nat, window: nat) {
    && s.lastPrunedAt <= clock
    && (forall k :: k in s.buckets ==> k in c && c[k] == s.buckets[k])
    && (forall k :: k in c && clock < c[k].windowStartedAt + window ==> k in s.buckets)
    && (forall k :: k in c ==> c[k].windowStartedAt <= clock)
    && (forall k :: k in s.buckets ==> s.lastPrunedAt < s.buckets[k].windowStartedAt + window)
  }

  /** Looking for a bucket removes exactly the closed windows. */
  lemma PreparedAgrees(s: State, c: Counters, clock: nat, key: Key, now: nat, window: nat)
    requires Agree(s, c, clock, window) && clock <= now && window > 0
    ensures Agree(Prepared(s, key, now, window), c, now, window)
    ensures forall k :: k in Prepared(s, key, now, window).buckets <==> k in c && now < c[k].windowStartedAt + window
  {
  }

  /** Both sides may store the same bucket of an open window. */
  lemma StoredAgrees(s: State, c: Counters, now: nat, key: Key, b: Bucket, window: nat)
    requires Agree(s, c, now, window) && b.windowStartedAt <= now < b.windowStartedAt + window
    ensures Agree(s.(buckets := s.buckets[key := b]), c[key := b], now, window)
  {
  }

  /** One call keeps the agreement, and is answered as the reference answers it unless
      there is no room. */
  lemma CheckedAgrees(s: State, c: Counters, clock: nat, key: Key, limit: nat, now: nat, windowSecs: nat)
    requires Agree(s, c, clock, Max(windowSecs, 1)) && clock <= now
    ensures var window := Max(windowSecs, 1);
            var (s', answer) := Checked(s, key, limit, now, windowSecs);
            if limit > 0 && Full(Prepared(s, key, now, window), key) then
              Agree(s', c, now, window) && answer == Some(window)
            else
              var (c', answer') := Count(c, key, limit, now, window);
              answer == answer' && Agree(s', c', now, window)
  {
    var window := Max(windowSecs, 1);
    if limit > 0 {
      PreparedAgrees(s, c, clock, key, now, window);
      var s2 := Prepared(s, key, now, window);
      if !Full(s2, key) {
        DecidedAgrees(s2, c, key, limit, now, window);
      }
    }
  }

  lemma DecidedAgrees(s: State, c: Counters, key: Key, limit: nat, now: nat, window: nat)
    requires Agree(s, c, now, window) && limit > 0 && window > 0
    requires key in s.buckets ==> now < s.buckets[key].windowStartedAt + window
    ensures var (s', answer) := Decided(s, key, limit, now, window);
            var (c', answer') := Count(c, key, limit, now, window);
            answer == answer' && Agree(s', c', now, window)
  {
    var b := BucketFor(s, key, now, window);
    assert b == Counter(c, key, now, window);
    StoredAgrees(s, c, now, key, Bucket(b.windowStartedAt, b.count + 1), window);
    if key in s.buckets {
      assert s.buckets[key := b] == s.buckets;
    }
  }

  function Clock(calls: seq<Call>): nat {
    if calls == [] then 0 else calls[|calls| - 1].now
  }

  lemma {:induction false} RunAgrees(p: Policy, calls: seq<Call>)
    requires Nondecreasing(calls)
    ensures Agree(After(p, calls), Counted(p, calls), Clock(calls), p.Window())
    ensures calls != [] && !Capped(p, calls) ==>
              var last := calls[|calls| - 1];
              Answer(p, calls) ==
              Count(Counted(p, calls[..|calls| - 1]), last.key, p.limitOf(last.key), last.now, p.Window()).1
    ensures calls != [] && Capped(p, calls) ==> Answer(p, calls) == Some(p.Window())
  {
    if calls != [] {
      var front, last := calls[..|calls| - 1], calls[|calls| - 1];
      RunAgrees(p, front);
      assert Clock(front) <= last.now;
      CheckedAgrees(After(p, front), Counted(p, front), Clock(front),
                    last.key, p.limitOf(last.key), last.now, p.windowSecs);
    }
  }

  lemma {:induction false} CountedIsReference(p: Policy, calls: seq<Call>)
    requires NeverCapped(p, calls)
    ensures Counted(p, calls) == Reference(p, calls)
  {
    if calls != [] {
      CountedIsReference(p, calls[..|calls| - 1]);
    }
  }

  /** Limiter refinement: as long as the clock does not go back and the cap is never
      reached, every answer is the answer of counters that are never pruned. */
  lemma LimiterRefinesCounters(p: Policy, calls: seq<Call>)
    requires calls != [] && Nondecreasing(calls) && NeverCapped(p, calls)
    ensures Answer(p, calls) == ReferenceAnswer(p, calls)
  {
    RunAgrees(p, calls);
    CountedIsReference(p, calls[..|calls| - 1]);
  }

  /** The bucket a call finds is never past its window: with a clock that does not go
      back, the reset in the source has nothing to do. */
  lemma ResetNeverTaken(p: Policy, calls: seq<Call>, key: Key, now: nat)
    requires Nondecreasing(calls) && Clock(calls) <= now
    ensures var prepared := Prepared(After(p, calls), key, now, p.Window());
            key in prepared.buckets ==> InWindow(prepared.buckets[key], now, p.Window())
  {
    RunAgrees(p, calls);
    PreparedAgrees(After(p, calls), Counted(p, calls), Clock(calls), key, now, p.Window());
  }

  lemma PrunedShrinks(s: State, now: nat, window: nat)
    ensures |Pruned(s, now, window).buckets| <= |s.buckets|
    ensures Pruned(s, now, window).buckets.Keys <= s.buckets.Keys
  {
    SubsetSize(Pruned(s, now, window).buckets.Keys, s.buckets.Keys);
  }

  /** The map never holds more buckets than the cap, whatever the clock does. */
  lemma {:induction false} BucketCap(p: Policy, calls: seq<Call>)
    ensures |After(p, calls).buckets| <= MAX_RATE_LIMIT_BUCKETS
  {
    if calls != [] {
      var s, last := After(p, calls[..|calls| - 1]), calls[|calls| - 1];
      BucketCap(p, calls[..|calls| - 1]);
      PrunedShrinks(s, last.now, p.Window());
      PrunedShrinks(Pruned(s, last.now, p.Window()), last.now, p.Window());
    }
  }

  // ---------------------------------------------------------------------------
  // Retry-After
  // ---------------------------------------------------------------------------

  /** The seconds named in a denial by count are exact: with no other call in between,
      the key is denied before they have passed, with the seconds left, and admitted once
      they have. */
  lemma ExactRetryAfter(p: Policy, calls: seq<Call>, later: nat)
    requires calls != [] && Nondecreasing(calls) && !Capped(p, calls) && Answer(p, calls).Some?
    requires var last := calls[|calls| - 1]; p.limitOf(last.key) > 0 && last.now <= later
    ensures 1 <= Answer(p, calls).value <= p.Window()
    ensures var last := calls[|calls| - 1];
            var again := Answer(p, calls + [Call(last.key, later)]);
            var reopens := last.now + Answer(p, calls).value;
            again == if later < reopens then Some(reopens - later) else None
  {
    var last := calls[|calls| - 1];
    var limit := p.limitOf(last.key);
    var c, answer, again := AnswersByCount(p, calls, later);
    DeniedUntilReopened(c, last.key, limit, last.now, later, p.Window(), answer, again);
  }

  /** The denial and the next answer, both read off the same counters. */
  lemma AnswersByCount(p: Policy, calls: seq<Call>, later: nat)
    returns (c: Counters, answer: Option<nat>, again: Option<nat>)
    requires calls != [] && Nondecreasing(calls) && !Capped(p, calls) && Answer(p, calls).Some?
    requires var last := calls[|calls| - 1]; p.limitOf(last.key) > 0 && last.now <= later
    ensures answer == Answer(p, calls) && answer.Some?
    ensures again == Answer(p, calls + [Call(calls[|calls| - 1].key, later)])
    ensures var last := calls[|calls| - 1]; var limit := p.limitOf(last.key);
            && (last.key in c ==> c[last.key].windowStartedAt <= last.now)
            && answer == Count(c, last.key, limit, last.now, p.Window()).1
            && again == Count(c, last.key, limit, later, p.Window()).1
  {
    answer, again := Answer(p, calls), Answer(p, calls + [Call(calls[|calls| - 1].key, later)]);
    c := DenialByCount(p, calls);
    LaterAnswer(p, calls, later);
  }

  lemma DenialByCount(p: Policy, calls: seq<Call>) returns (c: Counters)
    requires calls != [] && Nondecreasing(calls) && !Capped(p, calls) && Answer(p, calls).Some?
    ensures c == Counted(p, calls)
    ensures var last := calls[|calls| - 1];
            && (last.key in c ==> c[last.key].windowStartedAt <= last.now)
            && Answer(p, calls) == Count(c, last.key, p.limitOf(last.key), last.now, p.Window()).1
  {
    RunAgrees(p, calls);
    RunAgrees(p, calls[..|calls| - 1]);
    c := Counted(p, calls[..|calls| - 1]);
  }

  lemma LaterAnswer(p: Policy, calls: seq<Call>, later: nat)
    requires calls != [] && Nondecreasing(calls) && !Capped(p, calls) && Answer(p, calls).Some?
    requires var last := calls[|calls| - 1]; p.limitOf(last.key) > 0 && last.now <= later
    ensures var key := calls[|calls| - 1].key;
            Answer(p, calls + [Call(key, later)]) ==
            Count(Counted(p, calls), key, p.limitOf(key), later, p.Window()).1
  {
    var more := calls + [Call(calls[|calls| - 1].key, later)];
    assert more[..|more| - 1] == calls;
    NoCapAfterDenial(p, calls, later);
    RunAgrees(p, more);
  }

  lemma DeniedUntilReopened(c: Counters, key: Key, limit: nat, now: nat, later: nat, window: nat,
                            answer: Option<nat>, again: Option<nat>)
    requires limit > 0 && now <= later && (key in c ==> c[key].windowStartedAt <= now)
    requires answer == Count(c, key, limit, now, window).1 && answer.Some?
    requires again == Count(c, key, limit, later, window).1
    ensures 1 <= answer.value <= window
    ensures again == if later < now + answer.value then Some(now + answer.value - later) else None
  {
  }

  /** The limiter is within its cap and holds nothing that it would have pruned. */
  predicate Sound(s: State, clock: nat, window: nat) {
    Agree(s, s.buckets, clock, window) && |s.buckets| <= MAX_RATE_LIMIT_BUCKETS
  }

  lemma RunSound(p: Policy, calls: seq<Call>)
    requires Nondecreasing(calls)
    ensures Sound(After(p, calls), Clock(calls), p.Window())
  {
    RunAgrees(p, calls);
    BucketCap(p, calls);
  }

  /** A key finds its own bucket, or the room that the bucket has left. */
  lemma RoomForKnownKey(s: State, clock: nat, key: Key, now: nat, window: nat)
    requires Sound(s, clock, window) && clock <= now && window > 0 && key in s.buckets
    ensures !Full(Prepared(s, key, now, window), key)
  {
    var prepared := Prepared(s, key, now, window);
    PreparedAgrees(s, s.buckets, clock, key, now, window);
    if key !in prepared.buckets {
      assert prepared.buckets.Keys <= s.buckets.Keys - {key};
      SubsetSize(prepared.buckets.Keys, s.buckets.Keys - {key});
    }
  }

  lemma NoCapAfterDenial(p: Policy, calls: seq<Call>, later: nat)
    requires calls != [] && Nondecreasing(calls) && !Capped(p, calls) && Answer(p, calls).Some?
    requires var last := calls[|calls| - 1]; p.limitOf(last.key) > 0 && last.now <= later
    ensures !Capped(p, calls + [Call(calls[|calls| - 1].key, later)])
  {
    var key := calls[|calls| - 1].key;
    var more := calls + [Call(key, later)];
    assert more[..|more| - 1] == calls;
    RunSound(p, calls);
    RoomForKnownKey(After(p, calls), Clock(calls), key, later, p.Window());
  }

  /** A call is denied for lack of room exactly when its key has no open window and 16384
      other windows are open. */
  lemma CappedExactly(p: Policy, calls: seq<Call>)
    requires calls != [] && Nondecreasing(calls)
    ensures var last, c := calls[|calls| - 1], Counted(p, calls[..|calls| - 1]);
            var open := set k | k in c && last.now < c[k].windowStartedAt + p.Window();
            Capped(p, calls) <==> p.limitOf(last.key) > 0 && last.key !in open && |open| >= 16_384
  {
    var front, last := calls[..|calls| - 1], calls[|calls| - 1];
    var c := Counted(p, front);
    var prepared := Prepared(After(p, front), last.key, last.now, p.Window());
    RunAgrees(p, front);
    PreparedAgrees(After(p, front), c, Clock(front), last.key, last.now, p.Window());
    assert prepared.buckets.Keys == set k | k in c && last.now < c[k].windowStartedAt + p.Window();
    assert |prepared.buckets| == |prepared.buckets.Keys|;
  }

  /** A denial for lack of room names a whole window; once it has passed, with no other
      call in between, every window has closed and the key is admitted. */
  lemma RoomAfterWindow(p: Policy, calls: seq<Call>, later: nat)
    requires calls != [] && Nondecreasing(calls) && Capped(p, calls)
    requires calls[|calls| - 1].now + p.Window() <= later
    ensures Answer(p, calls) == Some(p.Window())
    ensures Answer(p, calls + [Call(calls[|calls| - 1].key, later)]) == None
  {
    var key := calls[|calls| - 1].key;
    var more := calls + [Call(key, later)];
    assert more[..|more| - 1] == calls;
    RunAgrees(p, calls);
    PreparedAgrees(After(p, calls), Counted(p, calls), Clock(calls), key, later, p.Window());
    assert Prepared(After(p, calls), key, later, p.Window()).buckets == map[];
    RunAgrees(p, more);
  }

  // ---------------------------------------------------------------------------
  // Bounds on admissions
  // ---------------------------------------------------------------------------

  /** The times at which a run admitted calls with a key. */
  function AdmittedAt(p: Policy, calls: seq<Call>, key: Key): seq<nat> {
    if calls == [] then []
    else
      var last := calls[|calls| - 1];
      var before := AdmittedAt(p, calls[..|calls| - 1], key);
      if last.key == key && Answer(p, calls) == None then before + [last.now] else before
  }

  /** How many of the times lie in the half-open interval from `from` to `to`. */
  function Within(times: seq<nat>, from: nat, to: nat): nat {
    if times == [] then 0
    else Within(times[..|times| - 1], from, to) + if from <= times[|times| - 1] < to then 1 else 0
  }

  lemma WithinAppend(times: seq<nat>, t: nat, from: nat, to: nat)
    ensures Within(times + [t], from, to) == Within(times, from, to) + if from <= t < to then 1 else 0
  {
    assert (times + [t])[..|times|] == times;
  }

  lemma {:induction false} WithinSplit(times: seq<nat>, from: nat, mid: nat, to: nat)
    requires from <= mid <= to
    ensures Within(times, from, to) == Within(times, from, mid) + Within(times, mid, to)
  {
    if times != [] {
      WithinSplit(times[..|times| - 1], from, mid, to);
    }
  }

  lemma {:induction false} WithinNone(times: seq<nat>, from: nat, to: nat)
    requires forall i :: 0 <= i < |times| ==> times[i] < from || to <= times[i]
    ensures Within(times, from, to) == 0
  {
    if times != [] {
      WithinNone(times[..|times| - 1], from, to);
    }
  }

  lemma {:induction false} WithinNarrower(times: seq<nat>, from: nat, to: nat, from': nat, to': nat)
    requires from <= from' && to' <= to
    ensures Within(times, from', to') <= Within(times, from, to)
  {
    if times != [] {
      WithinNarrower(times[..|times| - 1], from, to, from', to');
    }
  }

  /** No times are later than the clock. */
  predicate UpTo(times: seq<nat>, clock: nat) {
    forall i :: 0 <= i < |times| ==> times[i] <= clock
  }

  /** The most admissions in an interval as long as a window: what is left of one window
      next to all of the next, unless the interval is a single second. */
  function SlidingBound(limit: nat, window: nat): nat {
    if limit == 0 || window == 1 then limit else 2 * limit - 1
  }

  ghost predicate SlidingBounded(times: seq<nat>, limit: nat, window: nat) {
    forall from: nat, to: nat :: to <= from + window ==> Within(times, from, to) <= SlidingBound(limit, window)
  }

  /** Of the `window` seconds before `start`, fewer than `limit` admissions are left. */
  ghost predicate FewBefore(times: seq<nat>, start: nat, limit: nat, window: nat) {
    forall from: nat :: start < from + window && from <= start ==> Within(times, from, start) < limit
  }

  /** The open window holds its count of admissions, the first of them at its start. */
  ghost predicate WindowHolds(times: seq<nat>, b: Bucket, limit: nat, clock: nat, window: nat) {
    && b.windowStartedAt <= clock
    && Within(times, b.windowStartedAt, clock + 1) == b.count <= limit
    && Within(times, b.windowStartedAt, b.windowStartedAt + 1) >= 1
    && (forall i :: 0 <= i < |times| ==> times[i] < b.windowStartedAt + window)
    && FewBefore(times, b.windowStartedAt, limit, window)
  }

  /** What a run keeps about the admissions of one key. */
  ghost predicate Bounded(times: seq<nat>, c: Counters, key: Key, limit: nat, clock: nat, window: nat) {
    && UpTo(times, clock)
    && (key !in c ==> times == [])
    && (key in c ==> WindowHolds(times, c[key], limit, clock, window))
    && SlidingBounded(times, limit, window)
  }

  lemma ClockMoves(times: seq<nat>, from: nat, clock: nat, now: nat)
    requires UpTo(times, clock) && from <= clock <= now
    ensures Within(times, from, now + 1) == Within(times, from, clock + 1)
  {
    WithinSplit(times, from, clock + 1, now + 1);
    WithinNone(times, clock + 1, now + 1);
  }

  /** Time passing without an admission keeps the bounds. */
  lemma TimePasses(times: seq<nat>, c: Counters, key: Key, limit: nat, clock: nat, now: nat, window: nat)
    requires Bounded(times, c, key, limit, clock, window) && clock <= now
    ensures Bounded(times, c, key, limit, now, window)
  {
    if key in c {
      ClockMoves(times, c[key].windowStartedAt, clock, now);
    }
  }

  /** One more admission in the open window: an interval that holds it overlaps this
      window and the last seconds before it, and nothing older. */
  lemma AdmitInWindow(times: seq<nat>, b: Bucket, limit: nat, now: nat, window: nat)
    requires UpTo(times, now) && WindowHolds(times, b, limit, now, window) && SlidingBounded(times, limit, window)
    requires b.count < limit && now < b.windowStartedAt + window
    ensures WindowHolds(times + [now], b.(count := b.count + 1), limit, now, window)
    ensures SlidingBounded(times + [now], limit, window)
  {
    var start, times' := b.windowStartedAt, times + [now];
    WithinAppend(times, now, start, now + 1);
    WithinAppend(times, now, start, start + 1);
    forall from: nat | start < from + window && from <= start
      ensures Within(times', from, start) < limit
    {
      WithinAppend(times, now, from, start);
    }
    forall from: nat, to: nat | to <= from + window
      ensures Within(times', from, to) <= SlidingBound(limit, window)
    {
      WithinAppend(times, now, from, to);
      if from <= now < to {
        ClockMoves(times', start, now, to - 1);
        if from < start {
          WithinSplit(times', from, start, to);
          WithinAppend(times, now, from, start);
          assert Within(times, from, start) < limit;
        } else {
          WithinNarrower(times', start, to, from, to);
        }
      } else {
        assert Within(times, from, to) <= SlidingBound(limit, window);
      }
    }
  }

  /** The first admission of a new window: what is left of the last window is short of
      its first admission. */
  lemma AdmitNewWindow(times: seq<nat>, limit: nat, now: nat, window: nat)
    requires limit > 0 && window > 0 && SlidingBounded(times, limit, window)
    requires forall i :: 0 <= i < |times| ==> times[i] < now
    requires FewBefore(times, now, limit, window)
    ensures WindowHolds(times + [now], Bucket(now, 1), limit, now, window)
    ensures SlidingBounded(times + [now], limit, window)
  {
    WithinAppend(times, now, now, now + 1);
    WithinNone(times, now, now + 1);
    forall from: nat | now < from + window && from <= now
      ensures Within(times + [now], from, now) < limit
    {
      WithinAppend(times, now, from, now);
    }
    forall from: nat, to: nat | to <= from + window
      ensures Within(times + [now], from, to) <= SlidingBound(limit, window)
    {
      AdmittedFirst(times, limit, now, window, from, to);
    }
  }

  /** An interval with that admission in it holds besides only what is left before it. */
  lemma AdmittedFirst(times: seq<nat>, limit: nat, now: nat, window: nat, from: nat, to: nat)
    requires limit > 0 && window > 0 && to <= from + window
    requires Within(times, from, to) <= SlidingBound(limit, window)
    requires forall i :: 0 <= i < |times| ==> times[i] < now
    requires from <= now < to ==> Within(times, from, now) < limit
    ensures Within(times + [now], from, to) <= SlidingBound(limit, window)
  {
    WithinAppend(times, now, from, to);
    if from <= now < to {
      WithinSplit(times, from, now, to);
      WithinNone(times, now, to);
      if from == now {
        WithinEmpty(times, now);
      }
    }
  }

  lemma {:induction false} WithinEmpty(times: seq<nat>, at: nat)
    ensures Within(times, at, at) == 0
  {
    if times != [] {
      WithinEmpty(times[..|times| - 1], at);
    }
  }

  lemma FewLeftOfClosedWindow(times: seq<nat>, b: Bucket, limit: nat, now: nat, window: nat)
    requires UpTo(times, now) && WindowHolds(times, b, limit, now, window) && b.windowStartedAt + window <= now
    ensures FewBefore(times, now, limit, window)
  {
    var start := b.windowStartedAt;
    WithinSplit(times, start, start + 1, now + 1);
    forall from: nat | now < from + window && from <= now
      ensures Within(times, from, now) < limit
    {
      WithinNarrower(times, start + 1, now + 1, from, now);
    }
  }

  /** An admission, in the open window or opening a new one. */
  lemma AdmissionKeepsBounded(times: seq<nat>, c: Counters, key: Key, limit: nat, now: nat, window: nat) returns (b: Bucket)
    requires Bounded(times, c, key, limit, now, window) && window > 0
    requires Counter(c, key, now, window).count < limit
    ensures b == Counter(c, key, now, window)
    ensures WindowHolds(times + [now], Bucket(b.windowStartedAt, b.count + 1), limit, now, window)
    ensures SlidingBounded(times + [now], limit, window)
  {
    b := Counter(c, key, now, window);
    if key in c && now < c[key].windowStartedAt + window {
      AdmitInWindow(times, b, limit, now, window);
    } else {
      if key in c {
        FewLeftOfClosedWindow(times, c[key], limit, now, window);
      }
      AdmitNewWindow(times, limit, now, window);
    }
  }

  lemma CountKeepsBounded(times: seq<nat>, c: Counters, key: Key, limit: nat, clock: nat, now: nat, window: nat)
    requires Bounded(times, c, key, limit, clock, window) && clock <= now && window > 0
    ensures var (c', answer) := Count(c, key, limit, now, window);
            Bounded(if answer == None then times + [now] else times, c', key, limit, now, window)
  {
    TimePasses(times, c, key, limit, clock, now, window);
    if Count(c, key, limit, now, window).1 == None {
      var b := AdmissionKeepsBounded(times, c, key, limit, now, window);
      assert Count(c, key, limit, now, window).0 == c[key := Bucket(b.windowStartedAt, b.count + 1)];
    }
  }

  /** One more call, on the counters. */
  lemma LastCallCounts(p: Policy, calls: seq<Call>)
    requires calls != [] && Nondecreasing(calls)
    ensures var last, c := calls[|calls| - 1], Counted(p, calls[..|calls| - 1]);
            if Capped(p, calls) then Counted(p, calls) == c && Answer(p, calls) == Some(p.Window())
            else (Counted(p, calls), Answer(p, calls)) == Count(c, last.key, p.limitOf(last.key), last.now, p.Window())
  {
    RunAgrees(p, calls);
  }

  lemma CountOtherKey(times: seq<nat>, c: Counters, key: Key, limit: nat, clock: nat, now: nat, window: nat,
                      other: Key, otherLimit: nat)
    requires Bounded(times, c, key, limit, clock, window) && clock <= now && other != key
    ensures Bounded(times, Count(c, other, otherLimit, now, window).0, key, limit, now, window)
  {
    TimePasses(times, c, key, limit, clock, now, window);
  }

  lemma {:induction false} RunBounded(p: Policy, calls: seq<Call>, key: Key)
    requires Nondecreasing(calls)
    ensures Bounded(AdmittedAt(p, calls, key), Counted(p, calls), key, p.limitOf(key), Clock(calls), p.Window())
  {
    if calls != [] {
      var front, last := calls[..|calls| - 1], calls[|calls| - 1];
      RunBounded(p, front, key);
      LastCallCounts(p, calls);
      assert Clock(front) <= last.now;
      var times, c := AdmittedAt(p, front, key), Counted(p, front);
      if Capped(p, calls) {
        TimePasses(times, c, key, p.limitOf(key), Clock(front), last.now, p.Window());
      } else if last.key == key {
        CountKeepsBounded(times, c, key, p.limitOf(key), Clock(front), last.now, p.Window());
      } else {
        CountOtherKey(times, c, key, p.limitOf(key), Clock(front), last.now, p.Window(),
                      last.key, p.limitOf(last.key));
      }
    } else {
      forall from: nat, to: nat
        ensures Within([], from, to) == 0
      {
      }
    }
  }

  /** Sliding bound: with a clock that does not go back, a key is admitted at most
      `2 * limit - 1` times in any interval as long as a window, through pruning and
      through denials for lack of room; at most `limit` times if windows last one second;
      and a key with limit zero never. */
  lemma SlidingWindowBound(p: Policy, calls: seq<Call>, key: Key, from: nat, to: nat)
    requires Nondecreasing(calls) && to <= from + p.Window()
    ensures Within(AdmittedAt(p, calls, key), from, to) <= SlidingBound(p.limitOf(key), p.Window())
  {
    RunBounded(p, calls, key);
  }

  lemma BucketIsCounter(p: Policy, calls: seq<Call>, key: Key)
    requires Nondecreasing(calls) && key in After(p, calls).buckets
    ensures key in Counted(p, calls) && Counted(p, calls)[key] == After(p, calls).buckets[key]
  {
    RunAgrees(p, calls);
  }

  lemma WindowHoldsAtMost(times: seq<nat>, b: Bucket, limit: nat, clock: nat, window: nat)
    requires UpTo(times, clock) && WindowHolds(times, b, limit, clock, window)
    ensures Within(times, b.windowStartedAt, b.windowStartedAt + window) <= limit
  {
    var end := b.windowStartedAt + window;
    if clock < end {
      ClockMoves(times, b.windowStartedAt, clock, end - 1);
    } else {
      WithinNarrower(times, b.windowStartedAt, clock + 1, b.windowStartedAt, end);
    }
  }

  /** A bucket of the limiter counts the admissions of its window, at most `limit`. */
  lemma BucketCountsWindow(p: Policy, calls: seq<Call>, key: Key) returns (times: seq<nat>, b: Bucket)
    requires Nondecreasing(calls) && key in After(p, calls).buckets
    ensures times == AdmittedAt(p, calls, key) && b == After(p, calls).buckets[key]
    ensures Within(times, b.windowStartedAt, Clock(calls) + 1) == b.count <= p.limitOf(key)
    ensures Within(times, b.windowStartedAt, b.windowStartedAt + p.Window()) <= p.limitOf(key)
  {
    RunBounded(p, calls, key);
    BucketIsCounter(p, calls, key);
    times, b := AdmittedAt(p, calls, key), Counted(p, calls)[key];
    WindowHoldsAtMost(times, b, p.limitOf(key), Clock(calls), p.Window());
  }

  /** Calls with one key never meet the cap. */
  lemma OneKeyNotCapped(p: Policy, calls: seq<Call>, key: Key)
    requires calls != [] && Nondecreasing(calls) && calls[|calls| - 1].key == key
    requires Counted(p, calls[..|calls| - 1]).Keys <= {key}
    ensures !Capped(p, calls)
  {
    var front, last := calls[..|calls| - 1], calls[|calls| - 1];
    RunAgrees(p, front);
    PreparedAgrees(After(p, front), Counted(p, front), Clock(front), key, last.now, p.Window());
    var prepared := Prepared(After(p, front), key, last.now, p.Window());
    assert prepared.buckets.Keys <= {key};
    if key !in prepared.buckets {
      assert prepared.buckets.Keys == {};
    }
  }

  // ---------------------------------------------------------------------------
  // The bound is reached
  // ---------------------------------------------------------------------------

  /** `n` times the same moment. */
  function Repeated(now: nat, n: nat): seq<nat> {
    if n == 0 then [] else Repeated(now, n - 1) + [now]
  }

  lemma {:induction false} WithinRepeated(times: seq<nat>, now: nat, n: nat, from: nat, to: nat)
    ensures Within(times + Repeated(now, n), from, to) == Within(times, from, to) + if from <= now < to then n else 0
  {
    if n == 0 {
      assert times + [] == times;
    } else {
      WithinRepeated(times, now, n - 1, from, to);
      assert times + Repeated(now, n) == times + Repeated(now, n - 1) + [now];
      WithinAppend(times + Repeated(now, n - 1), now, from, to);
    }
  }

  /** A run of admitted calls with one key: the calls, the bucket they have filled, if
      any, and the times at which they were admitted. */
  datatype Filling = Filling(calls: seq<Call>, bucket: Option<Bucket>, times: seq<nat>)

  predicate Filled(counted: seq<Call> -> Counters, admitted: seq<Call> -> seq<nat>, key: Key, f: Filling) {
    && Nondecreasing(f.calls)
    && counted(f.calls) == (if f.bucket.Some? then map[key := f.bucket.value] else map[])
    && f.times == admitted(f.calls)
  }

  /** The window that a call at `now` falls in. */
  function WindowAt(f: Filling, now: nat, window: nat): Bucket {
    if f.bucket.Some? && now < f.bucket.value.windowStartedAt + window then f.bucket.value else Bucket(now, 0)
  }

  /** One more call. */
  function FilledMore(f: Filling, key: Key, now: nat, window: nat): Filling {
    var b := WindowAt(f, now, window);
    Filling(f.calls + [Call(key, now)], Some(b.(count := b.count + 1)), f.times + [now])
  }

  lemma AdmittedCall(counted: seq<Call> -> Counters, admitted: seq<Call> -> seq<nat>,
                     f: Filling, key: Key, limit: nat, window: nat, now: nat)
    requires Filled(counted, admitted, key, f) && WindowAt(f, now, window).count < limit
    requires var more := f.calls + [Call(key, now)];
             && Nondecreasing(more)
             && counted(more) == Count(counted(f.calls), key, limit, now, window).0
             && admitted(more) == admitted(f.calls) + [now]
    ensures Filled(counted, admitted, key, FilledMore(f, key, now, window))
  {
    assert Counter(counted(f.calls), key, now, window) == WindowAt(f, now, window);
  }

  lemma CallAdmitted(p: Policy, calls: seq<Call>, c: Counters, key: Key, now: nat)
    requires Nondecreasing(calls) && c == Counted(p, calls) && c.Keys <= {key} && Clock(calls) <= now
    requires Counter(c, key, now, p.Window()).count < p.limitOf(key)
    ensures var more := calls + [Call(key, now)];
            && Nondecreasing(more)
            && Counted(p, more) == Count(c, key, p.limitOf(key), now, p.Window()).0
            && AdmittedAt(p, more, key) == AdmittedAt(p, calls, key) + [now]
  {
    var more := calls + [Call(key, now)];
    assert more[..|more| - 1] == calls;
    OneKeyNotCapped(p, more, key);
    LastCallCounts(p, more);
  }

  /** Calls with a key keep a run filled as long as its window has room. */
  ghost predicate FillsUp(filled: Filling -> bool, key: Key, limit: nat, window: nat) {
    forall f: Filling, now: nat ::
      filled(f) && Clock(f.calls) <= now && WindowAt(f, now, window).count < limit ==>
        filled(FilledMore(f, key, now, window))
  }

  /** The same call again, `n` times in an open window. */
  lemma {:induction false} AdmittedCalls(filled: Filling -> bool, f: Filling, key: Key, limit: nat, window: nat,
                                         now: nat, n: nat) returns (f': Filling)
    requires FillsUp(filled, key, limit, window) && filled(f) && Clock(f.calls) <= now && f.bucket.Some?
    requires now < f.bucket.value.windowStartedAt + window && f.bucket.value.count + n <= limit
    ensures filled(f') && Clock(f'.calls) <= now
    ensures f'.bucket == Some(f.bucket.value.(count := f.bucket.value.count + n))
    ensures f'.times == f.times + Repeated(now, n)
  {
    if n == 0 {
      f' := f;
    } else {
      var before := AdmittedCalls(filled, f, key, limit, window, now, n - 1);
      f' := FilledMore(before, key, now, window);
      assert filled(f');
    }
  }

  /** A call that opens a window, and `n` more at the same moment. */
  lemma OpenedWindow(filled: Filling -> bool, f: Filling, key: Key, limit: nat, window: nat,
                     now: nat, n: nat) returns (f': Filling)
    requires FillsUp(filled, key, limit, window) && filled(f) && Clock(f.calls) <= now && n < limit && window > 0
    requires f.bucket.Some? ==> f.bucket.value.windowStartedAt + window <= now
    ensures filled(f') && Clock(f'.calls) <= now && f'.bucket == Some(Bucket(now, n + 1))
    ensures f'.times == f.times + [now] + Repeated(now, n)
  {
    var first := FilledMore(f, key, now, window);
    assert filled(first);
    f' := AdmittedCalls(filled, first, key, limit, window, now, n);
  }

  /** One call opens a window, `limit - 1` more come in its last second, and `limit` as
      soon as it is over. */
  lemma TwoWindows(filled: Filling -> bool, f: Filling, key: Key, limit: nat, window: nat) returns (f': Filling)
    requires FillsUp(filled, key, limit, window) && filled(f) && f == Filling([], None, []) && limit > 0 && window > 1
    ensures filled(f') && Within(f'.times, 1, window + 1) == 2 * limit - 1
  {
    var first := OpenedWindow(filled, f, key, limit, window, 0, 0);
    var second := AdmittedCalls(filled, first, key, limit, window, window - 1, limit - 1);
    f' := OpenedWindow(filled, second, key, limit, window, window, limit - 1);
    OpeningCounted([], 0, 0, 1, window + 1);
    WithinRepeated(first.times, window - 1, limit - 1, 1, window + 1);
    OpeningCounted(second.times, window, limit - 1, 1, window + 1);
  }

  lemma OneSecond(filled: Filling -> bool, f: Filling, key: Key, limit: nat) returns (f': Filling)
    requires FillsUp(filled, key, limit, 1) && filled(f) && f == Filling([], None, []) && limit > 0
    ensures filled(f') && Within(f'.times, 0, 1) == limit
  {
    f' := OpenedWindow(filled, f, key, limit, 1, 0, limit - 1);
    OpeningCounted([], 0, limit - 1, 0, 1);
  }

  lemma OpeningCounted(times: seq<nat>, now: nat, n: nat, from: nat, to: nat)
    ensures Within(times + [now] + Repeated(now, n), from, to) ==
            Within(times, from, to) + if from <= now < to then n + 1 else 0
  {
    WithinRepeated(times + [now], now, n, from, to);
    WithinAppend(times, now, from, to);
  }

  /** Every key and every policy has a run that reaches the bound. */
  lemma SlidingBoundReached(p: Policy, key: Key) returns (calls: seq<Call>, from: nat, to: nat)
    ensures Nondecreasing(calls) && to <= from + p.Window()
    ensures Within(AdmittedAt(p, calls, key), from, to) == SlidingBound(p.limitOf(key), p.Window())
  {
    var counted := (calls: seq<Call>) => Counted(p, calls);
    var admitted := (calls: seq<Call>) => AdmittedAt(p, calls, key);
    var filled := (f: Filling) => Filled(counted, admitted, key, f);
    forall f: Filling, now: nat | filled(f) && Clock(f.calls) <= now && WindowAt(f, now, p.Window()).count < p.limitOf(key)
      ensures filled(FilledMore(f, key, now, p.Window()))
    {
      CallAdmitted(p, f.calls, counted(f.calls), key, now);
      AdmittedCall(counted, admitted, f, key, p.limitOf(key), p.Window(), now);
    }
    var f := Filling([], None, []);
    assert filled(f);
    from, to := 0, 0;
    if p.limitOf(key) > 0 {
      if p.Window() == 1 {
        f := OneSecond(filled, f, key, p.limitOf(key));
        to := 1;
      } else {
        f := TwoWindows(filled, f, key, p.limitOf(key), p.Window());
        from, to := 1, p.Window() + 1;
      }
    }
    calls := f.calls;
  }

  /** No interval as long as a window ever holds more than `limit` admissions of the key. */
  ghost predicate LimitSlides(p: Policy, key: Key) {
    forall calls: seq<Call>, from: nat, to: nat :: Nondecreasing(calls) && to <= from + p.Window() ==>
      Within(AdmittedAt(p, calls, key), from, to) <= p.limitOf(key)
  }

  /** That is so exactly for limits up to one and for windows of one second. */
  lemma LimitSlidesExactly(p: Policy, key: Key)
    ensures LimitSlides(p, key) <==> p.limitOf(key) <= 1 || p.Window() == 1
  {
    if p.limitOf(key) <= 1 || p.Window() == 1 {
      forall calls: seq<Call>, from: nat, to: nat | Nondecreasing(calls) && to <= from + p.Window()
        ensures Within(AdmittedAt(p, calls, key), from, to) <= p.limitOf(key)
      {
        SlidingWindowBound(p, calls, key, from, to);
      }
    } else {
      var calls, from, to := SlidingBoundReached(p, key);
      assert Within(AdmittedAt(p, calls, key), from, to) > p.limitOf(key);
    }
  }
}
