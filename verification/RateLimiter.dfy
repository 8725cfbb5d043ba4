/** The fixed-window rate limiter of the REST gateway: a pruned map of buckets with a
    cap on their number. The clock is an argument of every call. */
module RateLimiter {
  import opened Wrappers

  const MAX_RATE_LIMIT_BUCKETS: nat := 16_384

  /** The bucket shared by all requests, or the bucket of one subject. */
  datatype Key = Global | Subject(name: string)

  datatype Bucket = Bucket(windowStartedAt: nat, count: nat)

  datatype Config = Config(windowSecs: nat, globalPerWindow: Option<nat>, subjectPerWindow: Option<nat>)

  datatype State = State(buckets: map<Key, Bucket>, lastPrunedAt: nat)

  const EMPTY := State(map[], 0)

  function Max(a: nat, b: nat): nat {
    if a >= b then a else b
  }

  /** Subtraction that stops at zero. */
  function SaturatingSub(a: nat, b: nat): nat {
    if a >= b then a - b else 0
  }

  predicate InWindow(b: Bucket, now: nat, window: nat) {
    SaturatingSub(now, b.windowStartedAt) < window
  }

  function Pruned(s: State, now: nat, window: nat): State {
    State(map k | k in s.buckets && InWindow(s.buckets[k], now, window) :: s.buckets[k], now)
  }

  predicate Full(s: State, key: Key) {
    key !in s.buckets && |s.buckets| >= MAX_RATE_LIMIT_BUCKETS
  }

  /** The state in which a call looks for its bucket. */
  function Prepared(s: State, key: Key, now: nat, window: nat): State {
    var s1 := if SaturatingSub(now, s.lastPrunedAt) >= 1 then Pruned(s, now, window) else s;
    if Full(s1, key) then Pruned(s1, now, window) else s1
  }

  /** What one call does: the new state, and the seconds to wait if it is denied. */
  function Checked(s: State, key: Key, limit: nat, now: nat, windowSecs: nat): (State, Option<nat>) {
    var window := Max(windowSecs, 1);
    if limit == 0 then (s, Some(window))
    else
      var s2 := Prepared(s, key, now, window);
      if Full(s2, key) then (s2, Some(window)) else Decided(s2, key, limit, now, window)
  }

  /** The bucket of a key, started or restarted at `now` when there is none or its window
      has passed. */
  function BucketFor(s: State, key: Key, now: nat, window: nat): Bucket {
    if key in s.buckets && InWindow(s.buckets[key], now, window) then s.buckets[key] else Bucket(now, 0)
  }

  function Decided(s: State, key: Key, limit: nat, now: nat, window: nat): (State, Option<nat>) {
    var bucket := BucketFor(s, key, now, window);
    if bucket.count >= limit then
      (s.(buckets := s.buckets[key := bucket]),
       Some(Max(SaturatingSub(window, SaturatingSub(now, bucket.windowStartedAt)), 1)))
    else
      (s.(buckets := s.buckets[key := bucket.(count := bucket.count + 1)]), None)
  }

  lemma StoredTwice(buckets: map<Key, Bucket>, key: Key, first: Bucket, second: Bucket)
    ensures buckets[key := first][key := second] == buckets[key := second]
  {
  }

  class RateLimiter {
    const config: Config
    var buckets: map<Key, Bucket>
    var lastPrunedAt: nat

    constructor (config: Config)
      ensures this.config == config && Contents() == EMPTY
    {
      this.config := config;
      buckets := map[];
      lastPrunedAt := 0;
    }

    function Contents(): State
      reads this
    {
      State(buckets, lastPrunedAt)
    }

    method CheckRequest(subject: string, now: nat) returns (retryAfter: Option<nat>)
      modifies this`buckets, this`lastPrunedAt
      ensures (Contents(), retryAfter) == RequestChecked(config, old(Contents()), subject, now)
    {
      if config.globalPerWindow.Some? {
        retryAfter := CheckKey(Global, config.globalPerWindow.value, now);
        if retryAfter.Some? {
          return;
        }
      }
      if config.subjectPerWindow.Some? {
        retryAfter := CheckKey(Subject(subject), config.subjectPerWindow.value, now);
        return;
      }
      return None;
    }

    method CheckKey(key: Key, limit: nat, now: nat) returns (retryAfter: Option<nat>)
      modifies this`buckets, this`lastPrunedAt
      ensures (Contents(), retryAfter) == Checked(old(Contents()), key, limit, now, config.windowSecs)
    {
      if limit == 0 {
        return Some(Max(config.windowSecs, 1));
      }
      var window := Max(config.windowSecs, 1);
      if SaturatingSub(now, lastPrunedAt) >= 1 {
        PruneExpiredBuckets(now, window);
      }
      if key !in buckets && |buckets| >= MAX_RATE_LIMIT_BUCKETS {
        PruneExpiredBuckets(now, window);
        if |buckets| >= MAX_RATE_LIMIT_BUCKETS {
          return Some(window);
        }
      }
      ghost var prepared := Contents();
      assert prepared == Prepared(old(Contents()), key, now, window) && !Full(prepared, key);
      if key !in buckets {
        buckets := buckets[key := Bucket(now, 0)];
      }
      if SaturatingSub(now, buckets[key].windowStartedAt) >= window {
        buckets := buckets[key := Bucket(now, 0)];
      }
      var bucket := buckets[key];
      assert bucket == BucketFor(prepared, key, now, window);
      assert buckets == prepared.buckets[key := bucket];
      StoredTwice(prepared.buckets, key, bucket, bucket.(count := bucket.count + 1));
      if bucket.count >= limit {
        return Some(Max(SaturatingSub(window, SaturatingSub(now, bucket.windowStartedAt)), 1));
      }
      buckets := buckets[key := bucket.(count := bucket.count + 1)];
      return None;
    }

    method PruneExpiredBuckets(now: nat, window: nat)
      modifies this`buckets, this`lastPrunedAt
      ensures Contents() == Pruned(old(Contents()), now, window)
    {
      buckets := map k | k in buckets && SaturatingSub(now, buckets[k].windowStartedAt) < window :: buckets[k];
      lastPrunedAt := now;
    }
  }

  /** A request is one call for all requests, and if that admits it one for its subject. */
  function RequestChecked(config: Config, s: State, subject: string, now: nat): (State, Option<nat>) {
    var (s1, first) :=
      if config.globalPerWindow.Some? then Checked(s, Global, config.globalPerWindow.value, now, config.windowSecs)
      else (s, None);
    if first.Some? then (s1, first)
    else if config.subjectPerWindow.Some? then
      Checked(s1, Subject(subject), config.subjectPerWindow.value, now, config.windowSecs)
    else (s1, None)
  }
}
