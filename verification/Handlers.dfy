/**
 * The four protocol handlers, challenge issue, bindSession and the state route, as
 * functions from a store to a store and an answer, each with one clock reading per call.
 * MemoryStorage.dfy holds the imperative code proved equal to them; Awaits.dfy cuts them
 * at every await.
 */
module Handlers {
  import opened Basics
  import opened Model
  import opened Crypto
  import Text

  const TIMESTAMP_WINDOW_MS := 5 * 60 * 1000
  const CHALLENGE_TTL_MS := 5 * 60 * 1000

  datatype TokenRequest = TokenRequest(sessionId: string, response: string, expectedJti: string)

  datatype BoundRegistrationRequest = BoundRegistrationRequest(
    sessionId: string, publicKey: Option<Jwk>, signature: string, expectedJti: string)

  datatype BoundRefreshRequest = BoundRefreshRequest(
    sessionId: string, signature: string, expectedJti: string, timestamp: int)

  datatype RefreshProof = RefreshProof(sessionId: string, jti: string, verified: bool)

  type RegistrationAnswer = Result<BoundKey, ErrorCode>
  type RefreshAnswer = Result<RefreshProof, ErrorCode>

  // ---------------------------------------------------------------- shared steps

  /** The checks every handler makes on the challenge it read, before anything else about it. */
  function ChallengeError(ch: Option<Challenge>, now: int): Option<ErrorCode> {
    if ch.None? then Some(ChallengeNotFound)
    else if ch.value.consumed then Some(ChallengeConsumed)
    else if now > ch.value.expiresAt then Some(ChallengeExpired)
    else None
  }

  /** Rewrite the live row of a session, if there is one. */
  function Rewrite(st: Store, id: string, now: int, update: Session -> Session): Store {
    var (st1, session) := GetSession(st, id, now);
    if session.None? then st1 else SetSession(st1, update(session.value))
  }

  function Demote(st: Store, id: string, now: int): Store {
    Rewrite(st, id, now, (s: Session) => s.(tier := TierNone))
  }

  function Promote(st: Store, id: string, now: int): Store {
    Rewrite(st, id, now, (s: Session) => s.(tier := TierDbsc, lastRefreshAt := now))
  }

  /** The polyfill paths raise the tier only where no native key is present. */
  function PromoteBound(st: Store, id: string, now: int): Store {
    var hasNative := Slot(id, Native) in st.slots;
    Rewrite(st, id, now, (s: Session) => s.(tier := if hasNative then s.tier else TierBound, lastRefreshAt := now))
  }

  // ---------------------------------------------------------------- native protocol

  function Registration(c: Primitives, st: Store, req: TokenRequest, now: int): (Store, RegistrationAnswer) {
    if req.response == "" then (st, Failure(MissingResponseHeader))
    else
      match ParseRegistrationJws(c, Text.Trim(req.response))
      case Failure(e) => (st, Failure(e))
      case Success(jws) =>
        var (st1, ch) := GetChallenge(st, req.expectedJti, now);
        var bad := ChallengeError(ch, now);
        if bad.Some? then (st1, Failure(bad.value))
        else if jws.jti != Some(req.expectedJti) then (st1, Failure(JtiMismatch))
        else if ch.value.sessionId != req.sessionId then (st1, Failure(JtiMismatch))
        else if GetBoundKey(st1, Slot(req.sessionId, Native)).Some? then (st1, Failure(SessionAlreadyRegistered))
        else
          var (st2, consumed) := ConsumeChallenge(st1, req.expectedJti);
          if !consumed then (st2, Failure(ChallengeConsumed))
          else
            var key := BoundKey(req.sessionId, Native, jws.jwk, now, jws.algorithm);
            (Promote(SetBoundKey(st2, key), req.sessionId, now), Success(key))
  }

  function Refresh(c: Primitives, st: Store, req: TokenRequest, now: int): (Store, RefreshAnswer) {
    if req.response == "" then (st, Failure(MissingResponseHeader))
    else
      match GetBoundKey(st, Slot(req.sessionId, Native))
      case None => (st, Failure(KeyNotFoundNative))
      case Some(key) =>
        var (st1, ch) := GetChallenge(st, req.expectedJti, now);
        var bad := ChallengeError(ch, now);
        if bad.Some? then (st1, Failure(bad.value))
        else if ch.value.sessionId != req.sessionId then (st1, Failure(JtiMismatch))
        else
          var invalid := VerifyDbscJws(c, Text.Trim(req.response), key.jwk, req.expectedJti);
          if invalid == Some(SignatureInvalid) then
            (Demote(ConsumeChallenge(st1, req.expectedJti).0, req.sessionId, now), Failure(SignatureInvalid))
          else if invalid.Some? then (st1, Failure(invalid.value))
          else
            var (st2, consumed) := ConsumeChallenge(st1, req.expectedJti);
            if !consumed then (st2, Failure(ChallengeConsumed))
            else (Promote(st2, req.sessionId, now), Success(RefreshProof(req.sessionId, req.expectedJti, true)))
  }

  // ---------------------------------------------------------------- polyfill protocol

  /** The text a polyfill refresh signs. */
  function RefreshMessage(jti: string, timestamp: int): string {
    jti + "." + Text.PrintInt(timestamp)
  }

  function BoundRegistration(c: Primitives, st: Store, req: BoundRegistrationRequest, now: int)
    : (Store, RegistrationAnswer)
  {
    if req.publicKey.None? || req.signature == "" then (st, Failure(MissingResponseHeader))
    else if !JwkAcceptable(req.publicKey.value) then (st, Failure(InvalidJwk))
    else if DetectAlgorithm(req.publicKey.value) != Some(ES256) then (st, Failure(UnknownAlgorithm))
    else
      var (st1, ch) := GetChallenge(st, req.expectedJti, now);
      var bad := ChallengeError(ch, now);
      if bad.Some? then (st1, Failure(bad.value))
      else if ch.value.sessionId != req.sessionId then (st1, Failure(JtiMismatch))
      else
        match VerifyP256(c, req.publicKey.value, req.signature, req.expectedJti)
        case Failure(e) => (st1, Failure(e))
        case Success(ok) =>
          if !ok then (st1, Failure(SignatureInvalid))
          else if GetBoundKey(st1, Slot(req.sessionId, Bound)).Some? then (st1, Failure(SessionAlreadyRegistered))
          else
            var (st2, consumed) := ConsumeChallenge(st1, req.expectedJti);
            if !consumed then (st2, Failure(ChallengeConsumed))
            else
              var key := BoundKey(req.sessionId, Bound, req.publicKey.value, now, ES256);
              (PromoteBound(SetBoundKey(st2, key), req.sessionId, now), Success(key))
  }

  function BoundRefresh(c: Primitives, st: Store, req: BoundRefreshRequest, now: int): (Store, RefreshAnswer) {
    if req.signature == "" then (st, Failure(MissingResponseHeader))
    else if Abs(now - req.timestamp) > TIMESTAMP_WINDOW_MS then (st, Failure(SignatureInvalid))
    else
      match GetBoundKey(st, Slot(req.sessionId, Bound))
      case None => (st, Failure(KeyNotFoundBound))
      case Some(key) =>
        var (st1, ch) := GetChallenge(st, req.expectedJti, now);
        var bad := ChallengeError(ch, now);
        if bad.Some? then (st1, Failure(bad.value))
        else if ch.value.sessionId != req.sessionId then (st1, Failure(JtiMismatch))
        else
          match VerifyP256(c, key.jwk, req.signature, RefreshMessage(req.expectedJti, req.timestamp))
          case Failure(e) => (st1, Failure(e))
          case Success(ok) =>
            if !ok then
              (Demote(ConsumeChallenge(st1, req.expectedJti).0, req.sessionId, now), Failure(SignatureInvalid))
            else
              var (st2, consumed) := ConsumeChallenge(st1, req.expectedJti);
              if !consumed then (st2, Failure(ChallengeConsumed))
              else (PromoteBound(st2, req.sessionId, now), Success(RefreshProof(req.sessionId, req.expectedJti, true)))
  }

  // ---------------------------------------------------------------- issuing and binding

  function NewChallenge(sessionId: string, jti: string, ttl: int, now: int): Challenge {
    Challenge(jti, sessionId, now, now + ttl, false)
  }

  function IssueChallenge(st: Store, sessionId: string, jti: string, ttl: int, now: int): Store {
    SetChallenge(st, NewChallenge(sessionId, jti, ttl, now))
  }

  function NewSession(sessionId: string, userId: string, ttl: int, now: int): Session {
    Session(sessionId, userId, TierNone, now, now + ttl, 0)
  }

  /** bindSession: a fresh row unless a live one exists, then a challenge for the session. */
  function BindSession(st: Store, sessionId: string, userId: string, sessionTtl: int, jti: string, now: int): Store {
    var (st1, existing) := GetSession(st, sessionId, now);
    var st2 := if existing.None? then SetSession(st1, NewSession(sessionId, userId, sessionTtl, now)) else st1;
    IssueChallenge(st2, sessionId, jti, CHALLENGE_TTL_MS, now)
  }

  // ---------------------------------------------------------------- state route and middleware

  datatype StateAnswer =
    | Unbound
    | NeedsRegistration(challenge: string)
    | NeedsBoundRegistration(tier: Tier, challenge: string)
    | StateBound(tier: Tier)

  /** handleBoundStateRoute: what the session still has to register, with a challenge for it. */
  function StateRoute(st: Store, sessionId: string, jti: string, now: int): (Store, StateAnswer) {
    var (st1, session) := GetSession(st, sessionId, now);
    if session.None? then (st1, Unbound)
    else
      var native, bound := GetBoundKey(st1, Slot(sessionId, Native)), GetBoundKey(st1, Slot(sessionId, Bound));
      if native.None? && bound.None? then
        (IssueChallenge(st1, sessionId, jti, CHALLENGE_TTL_MS, now), NeedsRegistration(jti))
      else if bound.None? then
        (IssueChallenge(st1, sessionId, jti, CHALLENGE_TTL_MS, now), NeedsBoundRegistration(session.value.tier, jti))
      else (st1, StateBound(if native.Some? then TierDbsc else session.value.tier))
  }

  /** The tier the middleware reports: the stored one, unless its last refresh is too old. */
  function ResolveTier(session: Option<Session>, boundCookieTtl: int, refreshGraceMs: int, now: int): Tier {
    if session.None? then TierNone
    else
      var s := session.value;
      if (s.tier == TierDbsc || s.tier == TierBound) && now > s.lastRefreshAt + boundCookieTtl + refreshGraceMs
      then TierNone
      else s.tier
  }
}
