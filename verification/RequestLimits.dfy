/** Whole requests over the limiter: each is one call for the shared bucket and, if that
    admits it, one call for the bucket of its subject. */
module RequestLimits {
  import opened Wrappers
  import opened RateLimiter
  import opened FixedWindows

  datatype Request = Request(subject: string, now: nat)

  function LimitOf(config: Config, key: Key): nat {
    var limit := if key == Global then config.globalPerWindow else config.subjectPerWindow;
    if limit.Some? then limit.value else 0
  }

  function PolicyOf(config: Config): Policy {
    Policy(config.windowSecs, key => LimitOf(config, key))
  }

  function AfterRequests(config: Config, requests: seq<Request>): State {
    if requests == [] then EMPTY
    else
      var last := requests[|requests| - 1];
      RequestChecked(config, AfterRequests(config, requests[..|requests| - 1]), last.subject, last.now).0
  }

  predicate LastAdmitted(config: Config, requests: seq<Request>)
    requires requests != []
  {
    var last := requests[|requests| - 1];
    RequestChecked(config, AfterRequests(config, requests[..|requests| - 1]), last.subject, last.now).1 == None
  }

  predicate ClockForward(requests: seq<Request>) {
    forall i, j :: 0 <= i <= j < |requests| ==> requests[i].now <= requests[j].now
  }

  /** The times at which requests were admitted, of one subject or of all. */
  function AdmittedTimes(config: Config, requests: seq<Request>, subject: Option<string>): seq<nat> {
    if requests == [] then []
    else
      var last := requests[|requests| - 1];
      var before := AdmittedTimes(config, requests[..|requests| - 1], subject);
      if LastAdmitted(config, requests) && (subject == None || subject == Some(last.subject)) then before + [last.now]
      else before
  }

  /** No interval holds more of the first times than of the second. */
  ghost predicate Covers(few: seq<nat>, many: seq<nat>) {
    forall from, to :: Within(few, from, to) <= Within(many, from, to)
  }

  /** A run of calls that does to the limiter what a run of requests does. */
  ghost predicate Performs(config: Config, requests: seq<Request>, calls: seq<Call>) {
    var p := PolicyOf(config);
    && After(p, calls) == AfterRequests(config, requests)
    && Nondecreasing(calls)
    && (calls != [] ==> requests != [] && Clock(calls) <= requests[|requests| - 1].now)
    && (config.globalPerWindow.Some? ==>
          Covers(AdmittedTimes(config, requests, None), AdmittedAt(p, calls, Global)))
    && (config.subjectPerWindow.Some? ==>
          forall subject :: AdmittedTimes(config, requests, Some(subject)) == AdmittedAt(p, calls, Subject(subject)))
  }

  lemma OneMoreCall(p: Policy, calls: seq<Call>, c: Call)
    requires Nondecreasing(calls) && Clock(calls) <= c.now
    ensures Nondecreasing(calls + [c]) && Clock(calls + [c]) == c.now
    ensures (After(p, calls + [c]), Answer(p, calls + [c])) ==
            Checked(After(p, calls), c.key, p.limitOf(c.key), c.now, p.windowSecs)
    ensures forall key :: AdmittedAt(p, calls + [c], key) ==
                          AdmittedAt(p, calls, key) + if c.key == key && Answer(p, calls + [c]) == None then [c.now] else []
  {
    assert (calls + [c])[..|calls|] == calls;
  }

  /** The calls made for one request after the calls made for the others. */
  lemma CallsOfRequest(config: Config, calls: seq<Call>, r: Request) returns (calls': seq<Call>)
    requires Nondecreasing(calls) && Clock(calls) <= r.now
    ensures var p := PolicyOf(config);
            var (s, answer) := RequestChecked(config, After(p, calls), r.subject, r.now);
            && After(p, calls') == s
            && Nondecreasing(calls') && (calls' != [] ==> Clock(calls') <= r.now)
            && (config.globalPerWindow.Some? && answer == None ==>
                  AdmittedAt(p, calls', Global) == AdmittedAt(p, calls, Global) + [r.now])
            && (AdmittedAt(p, calls', Global) == AdmittedAt(p, calls, Global) + [r.now]
                || AdmittedAt(p, calls', Global) == AdmittedAt(p, calls, Global))
            && (config.subjectPerWindow.Some? ==>
                  forall subject :: AdmittedAt(p, calls', Subject(subject)) ==
                                    AdmittedAt(p, calls, Subject(subject))
                                    + if answer == None && subject == r.subject then [r.now] else [])
  {
    var p := PolicyOf(config);
    calls' := calls;
    if config.globalPerWindow.Some? {
      OneMoreCall(p, calls', Call(Global, r.now));
      calls' := calls' + [Call(Global, r.now)];
    }
    if config.subjectPerWindow.Some? && (config.globalPerWindow.Some? ==> Answer(p, calls') == None) {
      OneMoreCall(p, calls', Call(Subject(r.subject), r.now));
      calls' := calls' + [Call(Subject(r.subject), r.now)];
    }
  }

  lemma {:induction false} RequestsAreCalls(config: Config, requests: seq<Request>) returns (calls: seq<Call>)
    requires ClockForward(requests)
    ensures Performs(config, requests, calls)
  {
    if requests == [] {
      calls := [];
    } else {
      var front, last := requests[..|requests| - 1], requests[|requests| - 1];
      var before := RequestsAreCalls(config, front);
      calls := CallsOfRequest(config, before, last);
      var p := PolicyOf(config);
      if config.globalPerWindow.Some? {
        CoversMore(AdmittedTimes(config, front, None), AdmittedTimes(config, requests, None),
                   AdmittedAt(p, before, Global), AdmittedAt(p, calls, Global), last.now);
      }
    }
  }

  /** Two histories grow by the same moment, the smaller one only along with the larger. */
  lemma CoversMore(few: seq<nat>, few': seq<nat>, many: seq<nat>, many': seq<nat>, now: nat)
    requires Covers(few, many)
    requires few' == few || (few' == few + [now] && many' == many + [now])
    requires many' == many || many' == many + [now]
    ensures Covers(few', many')
  {
    forall from, to
      ensures Within(few', from, to) <= Within(many', from, to)
    {
      WithinAppend(few, now, from, to);
      WithinAppend(many, now, from, to);
    }
  }

  /** Over any run of requests with a clock that does not go back, no interval as long
      as a window admits more than `2 * limit - 1` requests of one subject, or of all
      subjects together, for the limit configured. */
  lemma RequestSlidingBound(config: Config, requests: seq<Request>, subject: string, from: nat, to: nat)
    requires ClockForward(requests) && to <= from + Max(config.windowSecs, 1)
    ensures config.subjectPerWindow.Some? ==>
              Within(AdmittedTimes(config, requests, Some(subject)), from, to)
              <= SlidingBound(config.subjectPerWindow.value, Max(config.windowSecs, 1))
    ensures config.globalPerWindow.Some? ==>
              Within(AdmittedTimes(config, requests, None), from, to)
              <= SlidingBound(config.globalPerWindow.value, Max(config.windowSecs, 1))
  {
    var calls := RequestsAreCalls(config, requests);
    var p := PolicyOf(config);
    assert config.globalPerWindow.Some? ==>
        Within(AdmittedTimes(config, requests, None), from, to) <= Within(AdmittedAt(p, calls, Global), from, to);
    SlidingWindowBound(p, calls, Global, from, to);
    SlidingWindowBound(p, calls, Subject(subject), from, to);
  }
}
