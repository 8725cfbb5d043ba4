/** The in-memory session registry. The clock is an argument of every operation, and so
    is the token a new session gets; each operation is one locked section. */
module SessionRegistry {
  import opened Wrappers

  const U64_MAX: int := 0xFFFF_FFFF_FFFF_FFFF
  type U64 = n: int | 0 <= n <= U64_MAX

  /** The key derived from a token. Different tokens have different digests. */
  datatype Digest = Digest(token: string)

  datatype SessionState = Active | Expired

  datatype Session = Session(token: string, user: string, state: SessionState)

  datatype SessionInfo = SessionInfo(
    token: string, user: string, state: SessionState, createdAt: U64, lastUsedAt: U64, expiresIn: int)

  datatype SessionLimits = SessionLimits(maxGlobal: Option<U64>, maxPerUser: Option<U64>)

  datatype SessionError = NotFound | SessionInvalidated | SessionExpired | GlobalLimitExceeded | UserLimitExceeded

  datatype StoredSession = StoredSession(
    user: string, state: SessionState, createdAt: U64, lastUsedAt: U64, holdCount: U64)
  {
    predicate IsExpiredAt(now: U64, idleTimeoutSecs: U64) {
      match state
      case Active => if holdCount > 0 then false else SaturatingSub(now, lastUsedAt) >= idleTimeoutSecs
      case Expired => true
    }
  }

  type Sessions = map<Digest, StoredSession>

  function SaturatingSub(a: U64, b: U64): U64 {
    if a >= b then a - b else 0
  }

  function SaturatingAdd(a: U64, b: U64): U64 {
    if a + b <= U64_MAX then a + b else U64_MAX
  }

  /** The cast of an unsigned to a signed 64-bit number. */
  function AsI64(n: U64): int {
    if n < 0x8000_0000_0000_0000 then n else n - 0x1_0000_0000_0000_0000
  }

  function ExpiredDigests(s: Sessions, now: U64, idleTimeoutSecs: U64): set<Digest> {
    set d | d in s && s[d].IsExpiredAt(now, idleTimeoutSecs)
  }

  function LiveDigests(s: Sessions, now: U64, idleTimeoutSecs: U64): set<Digest> {
    set d | d in s && !s[d].IsExpiredAt(now, idleTimeoutSecs)
  }

  function LiveDigestsOf(s: Sessions, user: string, now: U64, idleTimeoutSecs: U64): set<Digest> {
    set d | d in s && s[d].user == user && !s[d].IsExpiredAt(now, idleTimeoutSecs)
  }

  /** The limit a new session of `user` would break, if any. */
  function LimitReached(s: Sessions, user: string, limits: SessionLimits, now: U64, idleTimeoutSecs: U64)
    : Option<SessionError>
  {
    if limits.maxGlobal.Some? && |LiveDigests(s, now, idleTimeoutSecs)| >= limits.maxGlobal.value then
      Some(GlobalLimitExceeded)
    else if limits.maxPerUser.Some? && |LiveDigestsOf(s, user, now, idleTimeoutSecs)| >= limits.maxPerUser.value then
      Some(UserLimitExceeded)
    else
      None
  }

  function NewSession(user: string, now: U64): StoredSession {
    StoredSession(user, Active, now, now, 0)
  }

  /** What `touch` and `hold` do to the session they find. */
  function Used(stored: StoredSession, now: U64, idleTimeoutSecs: U64, holds: U64): StoredSession {
    if stored.IsExpiredAt(now, idleTimeoutSecs) then stored.(state := Expired)
    else stored.(lastUsedAt := now, holdCount := SaturatingAdd(stored.holdCount, holds))
  }

  function UsedIn(s: Sessions, d: Digest, now: U64, idleTimeoutSecs: U64, holds: U64): Sessions {
    if d in s then s[d := Used(s[d], now, idleTimeoutSecs, holds)] else s
  }

  function UseError(s: Sessions, d: Digest, now: U64, idleTimeoutSecs: U64): Option<SessionError> {
    if d !in s then Some(SessionInvalidated)
    else if s[d].IsExpiredAt(now, idleTimeoutSecs) then Some(SessionExpired)
    else None
  }

  function Drained(s: Sessions, now: U64, idleTimeoutSecs: U64): Sessions {
    s - ExpiredDigests(s, now, idleTimeoutSecs)
  }

  /** The registry after a session was created: every expired one has gone. */
  function Created(s: Sessions, user: string, token: string, now: U64, idleTimeoutSecs: U64): Sessions {
    Drained(s, now, idleTimeoutSecs)[Digest(token) := NewSession(user, now)]
  }

  function ExpiredIn(s: Sessions, d: Digest): Sessions {
    if d in s then s[d := s[d].(state := Expired)] else s
  }

  /** The registry after a guard was dropped. */
  function Released(s: Sessions, d: Digest): Sessions {
    if d in s then s[d := s[d].(holdCount := SaturatingSub(s[d].holdCount, 1))] else s
  }

  function InfoOf(s: Sessions, token: string, now: U64, idleTimeoutSecs: U64): Result<SessionInfo, SessionError> {
    if Digest(token) !in s then Err(NotFound)
    else
      var stored := s[Digest(token)];
      var (state, expiresIn) :=
        if stored.IsExpiredAt(now, idleTimeoutSecs) then (Expired, 0)
        else if stored.holdCount > 0 then (Active, AsI64(if idleTimeoutSecs >= 1 then idleTimeoutSecs else 1))
        else (Active, AsI64(SaturatingSub(idleTimeoutSecs, SaturatingSub(now, stored.lastUsedAt))));
      Ok(SessionInfo(token, stored.user, state, stored.createdAt, stored.lastUsedAt, expiresIn))
  }

  /** A login is refused by the global limit exactly when as many sessions have not expired
      as it allows, and by the user's limit exactly when only that is used up. */
  lemma LimitsExactly(s: Sessions, user: string, limits: SessionLimits, now: U64, idleTimeoutSecs: U64)
    ensures var all := |set d | d in s && !s[d].IsExpiredAt(now, idleTimeoutSecs)|;
            var own := |set d | d in s && s[d].user == user && !s[d].IsExpiredAt(now, idleTimeoutSecs)|;
            var globalFull := limits.maxGlobal.Some? && all >= limits.maxGlobal.value;
            var userFull := limits.maxPerUser.Some? && own >= limits.maxPerUser.value;
            var reached := LimitReached(s, user, limits, now, idleTimeoutSecs);
            && (reached == Some(GlobalLimitExceeded) <==> globalFull)
            && (reached == Some(UserLimitExceeded) <==> !globalFull && userFull)
            && (reached == None <==> !globalFull && !userFull)
  {
    assert LiveDigests(s, now, idleTimeoutSecs) == set d | d in s && !s[d].IsExpiredAt(now, idleTimeoutSecs);
    assert LiveDigestsOf(s, user, now, idleTimeoutSecs)
        == set d | d in s && s[d].user == user && !s[d].IsExpiredAt(now, idleTimeoutSecs);
  }

  /** However many sessions are stored, expired ones alone never refuse a login. */
  lemma ExpiredNeverRefuse(s: Sessions, user: string, limits: SessionLimits, now: U64, idleTimeoutSecs: U64)
    requires forall d :: d in s ==> s[d].IsExpiredAt(now, idleTimeoutSecs)
    requires limits.maxGlobal != Some(0) && limits.maxPerUser != Some(0)
    ensures LimitReached(s, user, limits, now, idleTimeoutSecs) == None
  {
    assert LiveDigests(s, now, idleTimeoutSecs) == {} && LiveDigestsOf(s, user, now, idleTimeoutSecs) == {};
  }

  /** A login leaves the sessions that have not expired as they are, and an active one of
      the user, created and last used now, without holds. */
  lemma CreatedExactly(s: Sessions, user: string, token: string, now: U64, idleTimeoutSecs: U64)
    ensures var after := Created(s, user, token, now, idleTimeoutSecs); var created := Digest(token);
            && created in after && after[created].user == user && after[created].state == Active
            && after[created].createdAt == now && after[created].lastUsedAt == now && after[created].holdCount == 0
            && forall d :: d != created ==>
                 (d in after <==> d in s && !s[d].IsExpiredAt(now, idleTimeoutSecs))
                 && (d in after ==> after[d] == s[d])
  {
  }

  lemma DrainedExactly(s: Sessions, now: U64, idleTimeoutSecs: U64)
    ensures var after := Drained(s, now, idleTimeoutSecs);
            forall d ::
              (d in after <==> d in s && !s[d].IsExpiredAt(now, idleTimeoutSecs))
              && (d in after ==> after[d] == s[d])
  {
  }

  /** A use finds the session expired and marks it, or renews it; nothing else changes. */
  lemma UsedExactly(s: Sessions, d: Digest, now: U64, idleTimeoutSecs: U64, holds: U64)
    requires d in s
    ensures var after := UsedIn(s, d, now, idleTimeoutSecs, holds);
            && after.Keys == s.Keys && (forall other :: other in s && other != d ==> after[other] == s[other])
            && after[d].user == s[d].user && after[d].createdAt == s[d].createdAt
            && if s[d].IsExpiredAt(now, idleTimeoutSecs) then
                 after[d].state == Expired && after[d].lastUsedAt == s[d].lastUsedAt && after[d].holdCount == s[d].holdCount
               else
                 after[d].state == Active && after[d].lastUsedAt == now
  {
  }

  /** An expiry by name refuses every use from then on, and touches no other session. */
  lemma ExpiredByName(s: Sessions, d: Digest, now: U64, idleTimeoutSecs: U64)
    requires d in s
    ensures var after := ExpiredIn(s, d);
            && after.Keys == s.Keys && (forall other :: other in s && other != d ==> after[other] == s[other])
            && after[d].user == s[d].user
            && UseError(after, d, now, idleTimeoutSecs) == Some(SessionExpired)
  {
  }

  class SessionManager {
    const idleTimeoutSecs: U64
    const limits: SessionLimits
    var sessions: Sessions

    constructor (idleTimeoutSecs: U64, limits: SessionLimits)
      ensures this.idleTimeoutSecs == idleTimeoutSecs && this.limits == limits && sessions == map[]
    {
      this.idleTimeoutSecs := idleTimeoutSecs;
      this.limits := limits;
      sessions := map[];
    }

    method CreateDrainingExpired(user: string, token: string, now: U64)
      returns (r: Result<(Session, set<Digest>), SessionError>)
      modifies this`sessions
      ensures var reached := LimitReached(old(sessions), user, limits, now, idleTimeoutSecs);
              if reached.Some? then r == Err(reached.value) && sessions == old(sessions)
              else
                && r == Ok((Session(token, user, Active), ExpiredDigests(old(sessions), now, idleTimeoutSecs)))
                && sessions == Created(old(sessions), user, token, now, idleTimeoutSecs)
      ensures var all := |set d | d in old(sessions) && !old(sessions)[d].IsExpiredAt(now, idleTimeoutSecs)|;
              var own := |set d | d in old(sessions) && old(sessions)[d].user == user
                                  && !old(sessions)[d].IsExpiredAt(now, idleTimeoutSecs)|;
              && (r == Err(GlobalLimitExceeded) <==> limits.maxGlobal.Some? && all >= limits.maxGlobal.value)
              && (r.Ok? <==> (limits.maxGlobal.Some? ==> all < limits.maxGlobal.value)
                             && (limits.maxPerUser.Some? ==> own < limits.maxPerUser.value))
              && (r.Err? ==> r == Err(GlobalLimitExceeded) || r == Err(UserLimitExceeded))
    {
      LimitsExactly(sessions, user, limits, now, idleTimeoutSecs);
      var reached := LimitReached(sessions, user, limits, now, idleTimeoutSecs);
      if reached.Some? {
        return Err(reached.value);
      }
      var expired := ExpiredDigests(sessions, now, idleTimeoutSecs);
      RemoveAll(expired);
      sessions := sessions[Digest(token) := NewSession(user, now)];
      return Ok((Session(token, user, Active), expired));
    }

    method DrainExpired(now: U64) returns (expired: set<Digest>)
      modifies this`sessions
      ensures expired == ExpiredDigests(old(sessions), now, idleTimeoutSecs)
      ensures sessions == Drained(old(sessions), now, idleTimeoutSecs)
    {
      expired := ExpiredDigests(sessions, now, idleTimeoutSecs);
      RemoveAll(expired);
    }

    method RemoveAll(digests: set<Digest>)
      modifies this`sessions
      ensures sessions == old(sessions) - digests
    {
      var rest := digests;
      while rest != {}
        invariant rest <= digests
        invariant sessions == old(sessions) - (digests - rest)
      {
        var d :| d in rest;
        sessions := sessions - {d};
        rest := rest - {d};
      }
    }

    method Touch(token: string, now: U64) returns (r: Result<Session, SessionError>)
      modifies this`sessions
      ensures var d := Digest(token); var error := UseError(old(sessions), d, now, idleTimeoutSecs);
              && sessions == UsedIn(old(sessions), d, now, idleTimeoutSecs, 0)
              && r == if error.Some? then Err(error.value) else Ok(Session(token, old(sessions)[d].user, Active))
    {
      var d := Digest(token);
      if d !in sessions {
        return Err(SessionInvalidated);
      }
      var stored := sessions[d];
      if stored.IsExpiredAt(now, idleTimeoutSecs) {
        sessions := sessions[d := stored.(state := Expired)];
        return Err(SessionExpired);
      }
      sessions := sessions[d := stored.(lastUsedAt := now)];
      return Ok(Session(token, stored.user, Active));
    }

    /** On success the caller owns a guard, and gives it back with `ReleaseHold`. */
    method Hold(token: string, now: U64) returns (r: Result<Digest, SessionError>)
      modifies this`sessions
      ensures var d := Digest(token); var error := UseError(old(sessions), d, now, idleTimeoutSecs);
              && sessions == UsedIn(old(sessions), d, now, idleTimeoutSecs, 1)
              && r == if error.Some? then Err(error.value) else Ok(d)
    {
      var d := Digest(token);
      if d !in sessions {
        return Err(SessionInvalidated);
      }
      var stored := sessions[d];
      if stored.IsExpiredAt(now, idleTimeoutSecs) {
        sessions := sessions[d := stored.(state := Expired)];
        return Err(SessionExpired);
      }
      sessions := sessions[d := stored.(lastUsedAt := now, holdCount := SaturatingAdd(stored.holdCount, 1))];
      return Ok(d);
    }

    /** The drop of a guard. */
    method ReleaseHold(d: Digest)
      modifies this`sessions
      ensures sessions == Released(old(sessions), d)
    {
      if d in sessions {
        sessions := sessions[d := sessions[d].(holdCount := SaturatingSub(sessions[d].holdCount, 1))];
      }
    }

    method Expire(token: string) returns (r: Result<(), SessionError>)
      modifies this`sessions
      ensures sessions == ExpiredIn(old(sessions), Digest(token))
      ensures r == if Digest(token) in old(sessions) then Ok(()) else Err(SessionInvalidated)
    {
      var d := Digest(token);
      if d !in sessions {
        return Err(SessionInvalidated);
      }
      sessions := sessions[d := sessions[d].(state := Expired)];
      return Ok(());
    }

    method Remove(token: string) returns (removed: Option<Session>)
      modifies this`sessions
      ensures var d := Digest(token);
              && sessions == old(sessions) - {d}
              && removed == if d in old(sessions) then
                              Some(Session(token, old(sessions)[d].user, old(sessions)[d].state))
                            else None
    {
      var d := Digest(token);
      removed := if d in sessions then Some(Session(token, sessions[d].user, sessions[d].state)) else None;
      sessions := sessions - {d};
    }

    method GetInfo(token: string, now: U64) returns (r: Result<SessionInfo, SessionError>)
      ensures r == InfoOf(sessions, token, now, idleTimeoutSecs)
    {
      if Digest(token) !in sessions {
        return Err(NotFound);
      }
      var stored := sessions[Digest(token)];
      var state, expiresIn := Expired, 0;
      if !stored.IsExpiredAt(now, idleTimeoutSecs) {
        state := Active;
        if stored.holdCount > 0 {
          expiresIn := AsI64(if idleTimeoutSecs >= 1 then idleTimeoutSecs else 1);
        } else {
          var elapsed := SaturatingSub(now, stored.lastUsedAt);
          expiresIn := AsI64(SaturatingSub(idleTimeoutSecs, elapsed));
        }
      }
      return Ok(SessionInfo(token, stored.user, state, stored.createdAt, stored.lastUsedAt, expiresIn));
    }
  }

  /** `get_info` reports Expired exactly when `touch` at that moment would fail. */
  lemma InfoAgreesWithTouch(s: Sessions, token: string, now: U64, idleTimeoutSecs: U64)
    ensures var info := InfoOf(s, token, now, idleTimeoutSecs);
            && (info.Err? <==> UseError(s, Digest(token), now, idleTimeoutSecs) == Some(SessionInvalidated))
            && (info.Ok? && info.value.state == Expired
                <==> UseError(s, Digest(token), now, idleTimeoutSecs) == Some(SessionExpired))
  {
  }

  /** The other fields that `get_info` reports; a held session shows its whole timeout, at
      least a second, and an expired one nothing. */
  lemma InfoShowsSession(s: Sessions, token: string, now: U64, idleTimeoutSecs: U64)
    requires Digest(token) in s && idleTimeoutSecs < 0x8000_0000_0000_0000
    ensures var stored, info := s[Digest(token)], InfoOf(s, token, now, idleTimeoutSecs);
            && info.Ok? && info.value.token == token && info.value.user == stored.user
            && info.value.createdAt == stored.createdAt && info.value.lastUsedAt == stored.lastUsedAt
            && (stored.state == Expired ==> info.value.state == Expired && info.value.expiresIn == 0)
            && (stored.state == Active && stored.holdCount > 0 ==>
                  info.value.state == Active && info.value.expiresIn == if idleTimeoutSecs == 0 then 1 else idleTimeoutSecs)
  {
  }

  /** `offset` seconds after `now` is the first moment at which the session has expired. */
  ghost predicate FirstFailingOffset(stored: StoredSession, now: U64, idleTimeoutSecs: U64, offset: int) {
    && 0 <= offset
    && forall k: nat :: ExpiredAfter(stored, now, idleTimeoutSecs, k) <==> offset <= k
  }

  /** The test of `IsExpiredAt`, `k` seconds after `now`. */
  predicate ExpiredAfter(stored: StoredSession, now: U64, idleTimeoutSecs: U64, k: nat) {
    match stored.state
    case Active => stored.holdCount == 0 && (idleTimeoutSecs == 0 || now + k - stored.lastUsedAt >= idleTimeoutSecs)
    case Expired => true
  }

  /** The reported time to live of an active session without holds is the exact first
      failing offset if and only if the clock is not behind the last use and the number
      still fits a signed 64-bit integer. */
  lemma ExpiresInExact(s: Sessions, token: string, now: U64, idleTimeoutSecs: U64)
    requires Digest(token) in s && s[Digest(token)].holdCount == 0
    requires !s[Digest(token)].IsExpiredAt(now, idleTimeoutSecs)
    ensures var stored, info := s[Digest(token)], InfoOf(s, token, now, idleTimeoutSecs).value;
            FirstFailingOffset(stored, now, idleTimeoutSecs, info.expiresIn) <==>
            now >= stored.lastUsedAt && idleTimeoutSecs - (now - stored.lastUsedAt) < 0x8000_0000_0000_0000
  {
    var stored, info := s[Digest(token)], InfoOf(s, token, now, idleTimeoutSecs).value;
    var first: nat := stored.lastUsedAt + idleTimeoutSecs - now;
    assert FirstFailingOffset(stored, now, idleTimeoutSecs, first);
    if FirstFailingOffset(stored, now, idleTimeoutSecs, info.expiresIn) {
      assert ExpiredAfter(stored, now, idleTimeoutSecs, first);
      assert ExpiredAfter(stored, now, idleTimeoutSecs, info.expiresIn);
      assert info.expiresIn == first;
    }
  }

  lemma ExpiredAfterIsExpiredAt(stored: StoredSession, now: U64, idleTimeoutSecs: U64, k: nat)
    requires now + k <= U64_MAX
    ensures ExpiredAfter(stored, now, idleTimeoutSecs, k) <==> stored.IsExpiredAt(now + k, idleTimeoutSecs)
  {
  }
}
