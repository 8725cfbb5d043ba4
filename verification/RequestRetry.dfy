/** How far the seconds named to a denied request can be relied on. A request is checked
    against two buckets, and the seconds come from the one that denied it. */
module RequestRetry {
  import opened Sets
  import opened Wrappers
  import opened RateLimiter
  import opened FixedWindows
  import opened RequestLimits

  // ---------------------------------------------------------------------------
  // One call on a sound state
  // ---------------------------------------------------------------------------

  /** One call, denied or admitted by the count of its bucket, decides as a counter does
      that starts from the buckets held. */
  lemma CheckedByCount(s: State, clock: nat, key: Key, limit: nat, now: nat, windowSecs: nat)
    requires Sound(s, clock, Max(windowSecs, 1)) && clock <= now && limit > 0
    requires !Full(Prepared(s, key, now, Max(windowSecs, 1)), key)
    ensures var window := Max(windowSecs, 1);
            var (s', answer) := Checked(s, key, limit, now, windowSecs);
            && answer == Count(s.buckets, key, limit, now, window).1
            && Sound(s', now, window)
            && key in s'.buckets
            && (answer.Some? ==> s'.buckets[key] == Counter(s.buckets, key, now, window))
            && forall k :: k != key ==>
                 (k in s'.buckets <==> k in s.buckets && now < s.buckets[k].windowStartedAt + window)
                 && (k in s'.buckets ==> s'.buckets[k] == s.buckets[k])
  {
    var window := Max(windowSecs, 1);
    CheckedAgrees(s, s.buckets, clock, key, limit, now, windowSecs);
    PreparedAgrees(s, s.buckets, clock, key, now, window);
    CheckedWithinCap(s, key, limit, now, windowSecs);
  }

  lemma CheckedWithinCap(s: State, key: Key, limit: nat, now: nat, windowSecs: nat)
    requires |s.buckets| <= MAX_RATE_LIMIT_BUCKETS
    ensures |Checked(s, key, limit, now, windowSecs).0.buckets| <= MAX_RATE_LIMIT_BUCKETS
  {
    var window := Max(windowSecs, 1);
    PrunedShrinks(s, now, window);
    PrunedShrinks(Pruned(s, now, window), now, window);
  }

  /** The bucket that has just denied a call for `wait` seconds. */
  predicate Denying(s: State, key: Key, limit: nat, now: nat, wait: nat, window: nat) {
    && 1 <= wait <= window && limit > 0
    && key in s.buckets && s.buckets[key].count >= limit
    && s.buckets[key].windowStartedAt + window == now + wait
  }

  lemma DenialByCount(s: State, clock: nat, key: Key, limit: nat, now: nat, windowSecs: nat)
    requires Sound(s, clock, Max(windowSecs, 1)) && clock <= now && limit > 0
    requires !Full(Prepared(s, key, now, Max(windowSecs, 1)), key)
    requires Checked(s, key, limit, now, windowSecs).1.Some?
    ensures var (s', answer) := Checked(s, key, limit, now, windowSecs);
            Denying(s', key, limit, now, answer.value, Max(windowSecs, 1))
  {
    CheckedByCount(s, clock, key, limit, now, windowSecs);
  }

  /** The denied key again: the seconds left, and then an admission. */
  lemma CheckedAgain(s: State, clock: nat, key: Key, limit: nat, now: nat, wait: nat, later: nat, windowSecs: nat)
    requires Sound(s, clock, Max(windowSecs, 1)) && Denying(s, key, limit, now, wait, Max(windowSecs, 1))
    requires clock <= later
    ensures var window := Max(windowSecs, 1);
            var (s', answer) := Checked(s, key, limit, later, windowSecs);
            && answer == (if later < now + wait then Some(now + wait - later) else None)
            && Sound(s', later, window) && key in s'.buckets
            && forall k :: k != key ==>
                 (k in s'.buckets <==> OpenAt(s, k, later, window)) && (k in s'.buckets ==> s'.buckets[k] == s.buckets[k])
  {
    RoomForKnownKey(s, clock, key, later, Max(windowSecs, 1));
    CheckedByCount(s, clock, key, limit, later, windowSecs);
  }

  predicate OpenAt(s: State, key: Key, now: nat, window: nat) {
    key in s.buckets && now < s.buckets[key].windowStartedAt + window
  }

  function OpenKeys(s: State, now: nat, window: nat): set<Key> {
    set k | k in s.buckets && OpenAt(s, k, now, window)
  }

  // ---------------------------------------------------------------------------
  // The other bucket
  // ---------------------------------------------------------------------------

  predicate GlobalAdmits(config: Config, s: State, now: nat) {
    config.globalPerWindow.Some? ==>
      Counter(s.buckets, Global, now, Max(config.windowSecs, 1)).count < config.globalPerWindow.value
  }

  /** The bucket of the subject has room left, and there is room for the bucket beside the
      open ones and the shared one. */
  predicate SubjectAdmits(config: Config, s: State, subject: string, now: nat) {
    config.subjectPerWindow.Some? ==>
      var window := Max(config.windowSecs, 1);
      && Counter(s.buckets, Subject(subject), now, window).count < config.subjectPerWindow.value
      && (OpenAt(s, Subject(subject), now, window) || |OpenKeys(s, now, window) + {Global}| < MAX_RATE_LIMIT_BUCKETS)
  }

  predicate AllOpen(s: State, now: nat, window: nat) {
    forall k :: k in s.buckets ==> OpenAt(s, k, now, window)
  }

  /** Nothing is pruned from a state whose buckets are all open. */
  lemma NothingPruned(s: State, key: Key, now: nat, window: nat)
    requires Sound(s, now, window) && window > 0 && AllOpen(s, now, window)
    ensures Full(Prepared(s, key, now, window), key) <==> Full(s, key)
  {
    PreparedAgrees(s, s.buckets, now, key, now, window);
    var prepared := Prepared(s, key, now, window);
    assert prepared.buckets.Keys == s.buckets.Keys;
    assert |prepared.buckets| == |prepared.buckets.Keys| && |s.buckets| == |s.buckets.Keys|;
  }

  /** So a call is admitted if there is room for its bucket, and in its bucket. */
  lemma AdmittedIfRoom(s: State, key: Key, limit: nat, now: nat, windowSecs: nat)
    requires Sound(s, now, Max(windowSecs, 1)) && AllOpen(s, now, Max(windowSecs, 1))
    ensures Checked(s, key, limit, now, windowSecs).1 == None <==>
            Counter(s.buckets, key, now, Max(windowSecs, 1)).count < limit && !Full(s, key)
  {
    NothingPruned(s, key, now, Max(windowSecs, 1));
    if limit > 0 && !Full(s, key) {
      CheckedByCount(s, now, key, limit, now, windowSecs);
    }
  }

  /** The buckets held are those still open and the shared one, just started. */
  predicate ReopenedGlobal(s: State, s1: State, now: nat, window: nat) {
    && s1.buckets.Keys == OpenKeys(s, now, window) + {Global}
    && (forall k :: k != Global && k in s1.buckets ==> k in s.buckets && s1.buckets[k] == s.buckets[k])
  }

  lemma SubjectDecides(config: Config, s: State, s1: State, subject: string, now: nat)
    requires ReopenedGlobal(s, s1, now, Max(config.windowSecs, 1))
    requires Sound(s1, now, Max(config.windowSecs, 1)) && AllOpen(s1, now, Max(config.windowSecs, 1))
    requires config.subjectPerWindow.Some?
    ensures Checked(s1, Subject(subject), config.subjectPerWindow.value, now, config.windowSecs).1 == None
            <==> SubjectAdmits(config, s, subject, now)
  {
    var window, key := Max(config.windowSecs, 1), Subject(subject);
    AdmittedIfRoom(s1, key, config.subjectPerWindow.value, now, config.windowSecs);
    assert |s1.buckets| == |s1.buckets.Keys|;
    assert key in s1.buckets <==> key in OpenKeys(s, now, window);
    assert Counter(s1.buckets, key, now, window) == Counter(s.buckets, key, now, window);
  }

  /** A request denied by the shared bucket, again: denied with the seconds left, and from
      then on as its subject's bucket decides. */
  lemma GlobalRetry(config: Config, s: State, subject: string, now: nat, wait: nat, later: nat)
    requires Sound(s, now, Max(config.windowSecs, 1)) && now <= later && config.globalPerWindow.Some?
    requires Denying(s, Global, config.globalPerWindow.value, now, wait, Max(config.windowSecs, 1))
    ensures var again := RequestChecked(config, s, subject, later).1;
            if later < now + wait then again == Some(now + wait - later)
            else again == None <==> SubjectAdmits(config, s, subject, later)
  {
    var window, limit := Max(config.windowSecs, 1), config.globalPerWindow.value;
    CheckedAgain(s, now, Global, limit, now, wait, later, config.windowSecs);
    if now + wait <= later && config.subjectPerWindow.Some? {
      var s1 := Checked(s, Global, limit, later, config.windowSecs).0;
      assert s1.buckets.Keys == OpenKeys(s, later, window) + {Global};
      SubjectDecides(config, s, s1, subject, later);
    }
  }

  /** A request denied by the bucket of its subject, again: denied before the seconds have
      passed, by one bucket or the other, and from then on as the shared bucket decides. */
  lemma SubjectRetry(config: Config, s: State, subject: string, now: nat, wait: nat, later: nat)
    requires Sound(s, now, Max(config.windowSecs, 1)) && now <= later && config.subjectPerWindow.Some?
    requires Denying(s, Subject(subject), config.subjectPerWindow.value, now, wait, Max(config.windowSecs, 1))
    requires config.globalPerWindow.Some? ==> config.globalPerWindow.value > 0 && Global in s.buckets
    ensures var again := RequestChecked(config, s, subject, later).1;
            if later < now + wait then again.Some?
            else again == None <==> GlobalAdmits(config, s, later)
  {
    var window, limit := Max(config.windowSecs, 1), config.subjectPerWindow.value;
    if config.globalPerWindow.Some? {
      var globalLimit := config.globalPerWindow.value;
      RoomForKnownKey(s, now, Global, later, window);
      CheckedByCount(s, now, Global, globalLimit, later, config.windowSecs);
      var s1 := Checked(s, Global, globalLimit, later, config.windowSecs).0;
      SubjectAfterGlobal(config, s, s1, subject, now, wait, later);
    } else {
      CheckedAgain(s, now, Subject(subject), limit, now, wait, later, config.windowSecs);
    }
  }

  /** The bucket of the subject after the shared one was consulted. */
  lemma SubjectAfterGlobal(config: Config, s: State, s1: State, subject: string, now: nat, wait: nat, later: nat)
    requires Sound(s, now, Max(config.windowSecs, 1)) && now <= later && config.subjectPerWindow.Some?
    requires Denying(s, Subject(subject), config.subjectPerWindow.value, now, wait, Max(config.windowSecs, 1))
    requires Sound(s1, later, Max(config.windowSecs, 1)) && Global in s.buckets
    requires forall k :: k != Global ==>
               (k in s1.buckets <==> OpenAt(s, k, later, Max(config.windowSecs, 1)))
               && (k in s1.buckets ==> s1.buckets[k] == s.buckets[k])
    ensures Checked(s1, Subject(subject), config.subjectPerWindow.value, later, config.windowSecs).1 == None
            <==> now + wait <= later
  {
    var window, key := Max(config.windowSecs, 1), Subject(subject);
    if later < now + wait {
      RoomForKnownKey(s1, later, key, later, window);
    } else {
      assert s1.buckets.Keys <= s.buckets.Keys - {key};
      SubsetSize(s1.buckets.Keys, s.buckets.Keys - {key});
      PreparedWithin(s1, key, later, window);
    }
    CheckedByCount(s1, later, key, config.subjectPerWindow.value, later, config.windowSecs);
  }

  lemma PreparedWithin(s: State, key: Key, now: nat, window: nat)
    requires Sound(s, now, window) && window > 0 && |s.buckets| < MAX_RATE_LIMIT_BUCKETS
    ensures !Full(Prepared(s, key, now, window), key)
  {
    PrunedShrinks(s, now, window);
  }

  /** A request is admitted exactly when every bucket configured admits it, the shared one
      asked first; a request that the shared bucket denies does not reach the other. */
  lemma EveryBucketAdmits(config: Config, s: State, subject: string, now: nat)
    ensures var (s', answer) := RequestChecked(config, s, subject, now);
            match (config.globalPerWindow, config.subjectPerWindow)
            case (None, None) => s' == s && answer == None
            case (Some(limit), None) => (s', answer) == Checked(s, Global, limit, now, config.windowSecs)
            case (None, Some(limit)) => (s', answer) == Checked(s, Subject(subject), limit, now, config.windowSecs)
            case (Some(globalLimit), Some(limit)) =>
              var (s1, first) := Checked(s, Global, globalLimit, now, config.windowSecs);
              var (s2, second) := Checked(s1, Subject(subject), limit, now, config.windowSecs);
              && (answer == None <==> first == None && second == None)
              && (first.Some? ==> s' == s1 && answer == first)
              && (first == None ==> s' == s2 && answer == second)
  {
  }

  // ---------------------------------------------------------------------------
  // Whole runs
  // ---------------------------------------------------------------------------

  function Before(config: Config, requests: seq<Request>): State
    requires requests != []
  {
    AfterRequests(config, requests[..|requests| - 1])
  }

  function RequestAnswer(config: Config, requests: seq<Request>): Option<nat>
    requires requests != []
  {
    var last := requests[|requests| - 1];
    RequestChecked(config, Before(config, requests), last.subject, last.now).1
  }

  /** The call for the shared bucket that the last request makes. */
  function GlobalCheck(config: Config, requests: seq<Request>): (State, Option<nat>)
    requires requests != []
  {
    var now := requests[|requests| - 1].now;
    if config.globalPerWindow.Some? then
      Checked(Before(config, requests), Global, config.globalPerWindow.value, now, config.windowSecs)
    else (Before(config, requests), None)
  }

  /** The last request was denied, by the count of a bucket and not for a limit of zero or
      for lack of room. */
  predicate DeniedByCount(config: Config, requests: seq<Request>)
    requires requests != []
  {
    var last, window := requests[|requests| - 1], Max(config.windowSecs, 1);
    && RequestAnswer(config, requests).Some?
    && if GlobalCheck(config, requests).1.Some? then
         && config.globalPerWindow.value > 0
         && !Full(Prepared(Before(config, requests), Global, last.now, window), Global)
       else
         && config.subjectPerWindow.value > 0
         && !Full(Prepared(GlobalCheck(config, requests).0, Subject(last.subject), last.now, window), Subject(last.subject))
  }

  /** The bucket that did not deny the last request would admit it at `now`. */
  predicate OtherAdmits(config: Config, requests: seq<Request>, now: nat)
    requires requests != []
  {
    var s, subject := AfterRequests(config, requests), requests[|requests| - 1].subject;
    if GlobalCheck(config, requests).1.Some? then SubjectAdmits(config, s, subject, now) else GlobalAdmits(config, s, now)
  }

  lemma RequestsSound(config: Config, requests: seq<Request>, now: nat)
    requires ClockForward(requests) && (requests != [] ==> requests[|requests| - 1].now <= now)
    ensures Sound(AfterRequests(config, requests), now, Max(config.windowSecs, 1))
  {
    var calls := RequestsAreCalls(config, requests);
    RunSound(PolicyOf(config), calls);
  }

  /** The seconds named to a request denied by count are a lower bound: with no request in
      between it is denied at every earlier moment. From that moment on it is admitted
      exactly when the other bucket admits it. */
  lemma RequestRetryExactly(config: Config, requests: seq<Request>, later: nat)
    requires requests != [] && ClockForward(requests) && DeniedByCount(config, requests)
    requires requests[|requests| - 1].now <= later
    ensures var last, wait := requests[|requests| - 1], RequestAnswer(config, requests).value;
            var again := RequestAnswer(config, requests + [Request(last.subject, later)]);
            && 1 <= wait <= Max(config.windowSecs, 1)
            && if later < last.now + wait then again.Some?
               else again == None <==> OtherAdmits(config, requests, later)
  {
    var last, window := requests[|requests| - 1], Max(config.windowSecs, 1);
    var more := requests + [Request(last.subject, later)];
    assert more[..|more| - 1] == requests;
    var s, wait := AfterRequests(config, requests), RequestAnswer(config, requests).value;
    RequestsSound(config, requests[..|requests| - 1], last.now);
    RequestsSound(config, requests, last.now);
    if GlobalCheck(config, requests).1.Some? {
      DenialByCount(Before(config, requests), last.now, Global, config.globalPerWindow.value, last.now, config.windowSecs);
      GlobalRetry(config, s, last.subject, last.now, wait, later);
    } else {
      GlobalAdmitted(config, requests);
      DenialByCount(GlobalCheck(config, requests).0, last.now, Subject(last.subject), config.subjectPerWindow.value,
                    last.now, config.windowSecs);
      SubjectRetry(config, s, last.subject, last.now, wait, later);
    }
  }

  /** A request that passed the shared bucket has left its count there. */
  lemma GlobalAdmitted(config: Config, requests: seq<Request>)
    requires requests != [] && ClockForward(requests) && DeniedByCount(config, requests)
    requires GlobalCheck(config, requests).1 == None
    ensures Sound(GlobalCheck(config, requests).0, requests[|requests| - 1].now, Max(config.windowSecs, 1))
    ensures config.globalPerWindow.Some? ==>
              config.globalPerWindow.value > 0 && Global in AfterRequests(config, requests).buckets
  {
    var last, window := requests[|requests| - 1], Max(config.windowSecs, 1);
    var s0, s1 := Before(config, requests), GlobalCheck(config, requests).0;
    RequestsSound(config, requests[..|requests| - 1], last.now);
    if config.globalPerWindow.Some? {
      CheckedByCount(s0, last.now, Global, config.globalPerWindow.value, last.now, config.windowSecs);
      CheckedByCount(s1, last.now, Subject(last.subject), config.subjectPerWindow.value, last.now, config.windowSecs);
    }
  }
}
