/**
 * The handlers cut at every await: a call is a program counter with the locals it has
 * captured, and one step runs the code up to and including the next storage operation.
 * Run alone with one clock reading, the steps add up to the functions of Handlers.
 */
module Awaits {
  import opened Basics
  import opened Model
  import opened Crypto
  import opened Handlers
  import Text

  datatype Request =
    | Register(token: TokenRequest)
    | NativeRefresh(token: TokenRequest)
    | RegisterBound(registration: BoundRegistrationRequest)
    | RefreshBound(refresh: BoundRefreshRequest)
    | Bind(id: string, userId: string, sessionTtl: int, jti: string)
    | AskState(id: string, jti: string)
    | Issue(id: string, jti: string, ttl: int)
    | AskTier(id: string, boundCookieTtl: int, refreshGraceMs: int)

  /** What a finished call returned; the state route's answer also records the native key it read. */
  datatype Output =
    | KeyOut(key: RegistrationAnswer)
    | ProofOut(proof: RefreshAnswer)
    | StateOut(native: Option<BoundKey>, state: StateAnswer)
    | TierOut(tier: Tier)
    | Done

  /** Where a call waits, and what it has read so far. */
  datatype Pc =
    | Start
    | GotKey(key: Option<BoundKey>)
    | GotChallenge(jwk: Jwk, challenge: Option<Challenge>)
    | Checked(verdict: Option<ErrorCode>)
    | GotExisting(existing: Option<BoundKey>)
    | GotConsumed(consumed: bool)
    | KeyStored(stored: BoundKey)
    | GotSession(made: Option<BoundKey>, session: Option<Session>)
    | GotNative(made: Option<BoundKey>, row: Session, native: Option<BoundKey>)
    | GotBoth(row: Session, native: Option<BoundKey>, bound: Option<BoundKey>)
    | Burnt
    | BurntSession(session: Option<Session>)
    | Saved
    | Finished(output: Output)

  datatype Call = Call(req: Request, pc: Pc)

  const NO_JWK := Jwk("", "", "", "", "")

  /**
   * The consumed flag as a resumed call sees it. MemoryStorage hands out the stored object, so
   * the call sees later updates; a store that hands out copies shows the flag as it was read.
   */
  function ConsumedFlag(st: Store, ch: Challenge, shared: bool): bool {
    if shared && ch.jti in st.challenges then st.challenges[ch.jti].consumed else ch.consumed
  }

  function ChallengeRejected(st: Store, ch: Option<Challenge>, id: string, now: int, shared: bool): Option<ErrorCode> {
    if ch.None? then Some(ChallengeNotFound)
    else if ConsumedFlag(st, ch.value, shared) then Some(ChallengeConsumed)
    else if now > ch.value.expiresAt then Some(ChallengeExpired)
    else if ch.value.sessionId != id then Some(JtiMismatch)
    else None
  }

  function FailKey(e: ErrorCode): Pc { Finished(KeyOut(Failure(e))) }

  function FailProof(e: ErrorCode): Pc { Finished(ProofOut(Failure(e))) }

  // ---------------------------------------------------------------- native protocol

  // The parsed token is a captured local in the source; parsing is a function of the token, so
  // the steps below parse it again instead of carrying it.
  function RegistrationStep(c: Primitives, st: Store, req: TokenRequest, pc: Pc, now: int, shared: bool): (Store, Pc) {
    match pc
    case Start =>
      if req.response == "" then (st, FailKey(MissingResponseHeader))
      else
        (match ParseRegistrationJws(c, Text.Trim(req.response))
         case Failure(e) => (st, FailKey(e))
         case Success(jws) =>
           var (st', ch) := GetChallenge(st, req.expectedJti, now);
           (st', GotChallenge(jws.jwk, ch)))
    case GotChallenge(_, ch) =>
      var bad := ChallengeRejected(st, ch, req.sessionId, now, shared);
      var jws := ParseRegistrationJws(c, Text.Trim(req.response));
      if bad.Some? && bad.value != JtiMismatch then (st, FailKey(bad.value))
      else if bad.Some? || jws.Failure? || jws.value.jti != Some(req.expectedJti) then (st, FailKey(JtiMismatch))
      else (st, GotExisting(GetBoundKey(st, Slot(req.sessionId, Native))))
    case GotExisting(existing) =>
      if existing.Some? then (st, FailKey(SessionAlreadyRegistered))
      else var (st', ok) := ConsumeChallenge(st, req.expectedJti); (st', GotConsumed(ok))
    case GotConsumed(ok) =>
      var jws := ParseRegistrationJws(c, Text.Trim(req.response));
      if !ok then (st, FailKey(ChallengeConsumed))
      else if jws.Failure? then (st, FailKey(jws.error))
      else
        var key := BoundKey(req.sessionId, Native, jws.value.jwk, now, jws.value.algorithm);
        (SetBoundKey(st, key), KeyStored(key))
    case KeyStored(key) =>
      var (st', s) := GetSession(st, req.sessionId, now); (st', GotSession(Some(key), s))
    case GotSession(Some(key), s) =>
      (if s.Some? then SetSession(st, s.value.(tier := TierDbsc, lastRefreshAt := key.createdAt)) else st,
       Finished(KeyOut(Success(key))))
    case _ => (st, pc)
  }

  function RefreshStep(c: Primitives, st: Store, req: TokenRequest, pc: Pc, now: int, shared: bool): (Store, Pc) {
    match pc
    case Start =>
      if req.response == "" then (st, FailProof(MissingResponseHeader))
      else (st, GotKey(GetBoundKey(st, Slot(req.sessionId, Native))))
    case GotKey(key) =>
      if key.None? then (st, FailProof(KeyNotFoundNative))
      else
        var (st', ch) := GetChallenge(st, req.expectedJti, now);
        (st', GotChallenge(key.value.jwk, ch))
    case GotChallenge(jwk, ch) =>
      var bad := ChallengeRejected(st, ch, req.sessionId, now, shared);
      if bad.Some? then (st, FailProof(bad.value))
      else (st, Checked(VerifyDbscJws(c, Text.Trim(req.response), jwk, req.expectedJti)))
    case Checked(verdict) => AfterVerdict(st, req.expectedJti, verdict)
    case Burnt => var (st', s) := GetSession(st, req.sessionId, now); (st', BurntSession(s))
    case BurntSession(s) => (SaveDemoted(st, s), FailProof(SignatureInvalid))
    case GotConsumed(ok) =>
      if !ok then (st, FailProof(ChallengeConsumed))
      else var (st', s) := GetSession(st, req.sessionId, now); (st', GotSession(None, s))
    case GotSession(_, s) =>
      (if s.Some? then SetSession(st, s.value.(tier := TierDbsc, lastRefreshAt := now)) else st,
       Finished(ProofOut(Success(RefreshProof(req.sessionId, req.expectedJti, true)))))
    case _ => (st, pc)
  }

  /** The two refreshes after verification: consume on success, burn on a bad signature. */
  function AfterVerdict(st: Store, jti: string, verdict: Option<ErrorCode>): (Store, Pc) {
    if verdict == Some(SignatureInvalid) then (ConsumeChallenge(st, jti).0, Burnt)
    else if verdict.Some? then (st, FailProof(verdict.value))
    else var (st', ok) := ConsumeChallenge(st, jti); (st', GotConsumed(ok))
  }

  function SaveDemoted(st: Store, s: Option<Session>): Store {
    if s.Some? then SetSession(st, s.value.(tier := TierNone)) else st
  }

  // ---------------------------------------------------------------- polyfill protocol

  function BoundRegistrationStep(c: Primitives, st: Store, req: BoundRegistrationRequest, pc: Pc, now: int,
                                 shared: bool)
    : (Store, Pc)
  {
    match pc
    case Start =>
      if req.publicKey.None? || req.signature == "" then (st, FailKey(MissingResponseHeader))
      else if !JwkAcceptable(req.publicKey.value) then (st, FailKey(InvalidJwk))
      else if DetectAlgorithm(req.publicKey.value) != Some(ES256) then (st, FailKey(UnknownAlgorithm))
      else
        var (st', ch) := GetChallenge(st, req.expectedJti, now);
        (st', GotChallenge(req.publicKey.value, ch))
    case GotChallenge(jwk, ch) =>
      var bad := ChallengeRejected(st, ch, req.sessionId, now, shared);
      if bad.Some? then (st, FailKey(bad.value))
      else (st, Checked(SignatureError(VerifyP256(c, jwk, req.signature, req.expectedJti))))
    case Checked(verdict) =>
      if verdict.Some? then (st, FailKey(verdict.value))
      else (st, GotExisting(GetBoundKey(st, Slot(req.sessionId, Bound))))
    case GotExisting(existing) =>
      if existing.Some? then (st, FailKey(SessionAlreadyRegistered))
      else var (st', ok) := ConsumeChallenge(st, req.expectedJti); (st', GotConsumed(ok))
    case GotConsumed(ok) =>
      if !ok then (st, FailKey(ChallengeConsumed))
      else
        var jwk := if req.publicKey.Some? then req.publicKey.value else NO_JWK;
        var key := BoundKey(req.sessionId, Bound, jwk, now, ES256);
        (SetBoundKey(st, key), KeyStored(key))
    case KeyStored(key) =>
      var (st', s) := GetSession(st, req.sessionId, now); (st', GotSession(Some(key), s))
    case GotSession(Some(key), s) =>
      if s.None? then (st, Finished(KeyOut(Success(key))))
      else (st, GotNative(Some(key), s.value, GetBoundKey(st, Slot(req.sessionId, Native))))
    case GotNative(Some(key), row, native) =>
      (SetSession(st, row.(tier := if native.Some? then row.tier else TierBound, lastRefreshAt := key.createdAt)),
       Finished(KeyOut(Success(key))))
    case _ => (st, pc)
  }

  function BoundRefreshStep(c: Primitives, st: Store, req: BoundRefreshRequest, pc: Pc, now: int, shared: bool)
    : (Store, Pc)
  {
    match pc
    case Start =>
      if req.signature == "" then (st, FailProof(MissingResponseHeader))
      else if Abs(now - req.timestamp) > TIMESTAMP_WINDOW_MS then (st, FailProof(SignatureInvalid))
      else (st, GotKey(GetBoundKey(st, Slot(req.sessionId, Bound))))
    case GotKey(key) =>
      if key.None? then (st, FailProof(KeyNotFoundBound))
      else
        var (st', ch) := GetChallenge(st, req.expectedJti, now);
        (st', GotChallenge(key.value.jwk, ch))
    case GotChallenge(jwk, ch) =>
      var bad := ChallengeRejected(st, ch, req.sessionId, now, shared);
      if bad.Some? then (st, FailProof(bad.value))
      else
        (st, Checked(SignatureError(VerifyP256(c, jwk, req.signature, RefreshMessage(req.expectedJti, req.timestamp)))))
    case Checked(verdict) => AfterVerdict(st, req.expectedJti, verdict)
    case Burnt => var (st', s) := GetSession(st, req.sessionId, now); (st', BurntSession(s))
    case BurntSession(s) => (SaveDemoted(st, s), FailProof(SignatureInvalid))
    case GotConsumed(ok) =>
      if !ok then (st, FailProof(ChallengeConsumed))
      else var (st', s) := GetSession(st, req.sessionId, now); (st', GotSession(None, s))
    case GotSession(_, s) =>
      if s.None? then (st, Finished(ProofOut(Success(RefreshProof(req.sessionId, req.expectedJti, true)))))
      else (st, GotNative(None, s.value, GetBoundKey(st, Slot(req.sessionId, Native))))
    case GotNative(_, row, native) =>
      (SetSession(st, row.(tier := if native.Some? then row.tier else TierBound, lastRefreshAt := now)),
       Finished(ProofOut(Success(RefreshProof(req.sessionId, req.expectedJti, true)))))
    case _ => (st, pc)
  }

  // ---------------------------------------------------------------- routes

  function BindStep(st: Store, id: string, userId: string, ttl: int, jti: string, pc: Pc, now: int): (Store, Pc) {
    match pc
    case Start => var (st', s) := GetSession(st, id, now); (st', GotSession(None, s))
    case GotSession(_, s) =>
      if s.None? then (SetSession(st, NewSession(id, userId, ttl, now)), Saved)
      else (IssueChallenge(st, id, jti, CHALLENGE_TTL_MS, now), Finished(Done))
    case Saved => (IssueChallenge(st, id, jti, CHALLENGE_TTL_MS, now), Finished(Done))
    case _ => (st, pc)
  }

  function StateStep(st: Store, id: string, jti: string, pc: Pc, now: int): (Store, Pc) {
    match pc
    case Start => var (st', s) := GetSession(st, id, now); (st', GotSession(None, s))
    case GotSession(_, s) =>
      if s.None? then (st, Finished(StateOut(None, Unbound)))
      else (st, GotNative(None, s.value, GetBoundKey(st, Slot(id, Native))))
    case GotNative(_, row, native) => (st, GotBoth(row, native, GetBoundKey(st, Slot(id, Bound))))
    case GotBoth(row, native, bound) =>
      if native.None? && bound.None? then
        (IssueChallenge(st, id, jti, CHALLENGE_TTL_MS, now), Finished(StateOut(native, NeedsRegistration(jti))))
      else if bound.None? then
        (IssueChallenge(st, id, jti, CHALLENGE_TTL_MS, now),
         Finished(StateOut(native, NeedsBoundRegistration(row.tier, jti))))
      else (st, Finished(StateOut(native, StateBound(if native.Some? then TierDbsc else row.tier))))
    case _ => (st, pc)
  }

  function TierStep(st: Store, id: string, boundCookieTtl: int, refreshGraceMs: int, pc: Pc, now: int): (Store, Pc) {
    match pc
    case Start => var (st', s) := GetSession(st, id, now); (st', GotSession(None, s))
    case GotSession(_, s) => (st, Finished(TierOut(ResolveTier(s, boundCookieTtl, refreshGraceMs, now))))
    case _ => (st, pc)
  }

  /** One step of one call. */
  function Micro(c: Primitives, st: Store, call: Call, now: int, shared: bool): (Store, Call) {
    var (st', pc') :=
      match call.req
      case Register(req) => RegistrationStep(c, st, req, call.pc, now, shared)
      case NativeRefresh(req) => RefreshStep(c, st, req, call.pc, now, shared)
      case RegisterBound(req) => BoundRegistrationStep(c, st, req, call.pc, now, shared)
      case RefreshBound(req) => BoundRefreshStep(c, st, req, call.pc, now, shared)
      case Bind(id, user, ttl, jti) => BindStep(st, id, user, ttl, jti, call.pc, now)
      case AskState(id, jti) => StateStep(st, id, jti, call.pc, now)
      case Issue(id, jti, ttl) =>
        if call.pc.Start? then (IssueChallenge(st, id, jti, ttl, now), Finished(Done)) else (st, call.pc)
      case AskTier(id, ttl, grace) => TierStep(st, id, ttl, grace, call.pc, now);
    (st', Call(call.req, pc'))
  }

  // ---------------------------------------------------------------- alone, a call is atomic

  /** A call that takes n steps with nothing in between and the clock standing still. */
  function Alone(c: Primitives, st: Store, call: Call, now: int, shared: bool, n: nat): (Store, Call)
    decreases n
  {
    if n == 0 then (st, call)
    else var (st', call') := Micro(c, st, call, now, shared); Alone(c, st', call', now, shared, n - 1)
  }

  function Atomic(c: Primitives, st: Store, req: Request, now: int): (Store, Output) {
    match req
    case Register(r) => var (st', a) := Registration(c, st, r, now); (st', KeyOut(a))
    case NativeRefresh(r) => var (st', a) := Refresh(c, st, r, now); (st', ProofOut(a))
    case RegisterBound(r) => var (st', a) := BoundRegistration(c, st, r, now); (st', KeyOut(a))
    case RefreshBound(r) => var (st', a) := BoundRefresh(c, st, r, now); (st', ProofOut(a))
    case Bind(id, user, ttl, jti) => (BindSession(st, id, user, ttl, jti, now), Done)
    case AskState(id, jti) =>
      var (st', a) := StateRoute(st, id, jti, now);
      (st', StateOut(if a.Unbound? then None else GetBoundKey(st, Slot(id, Native)), a))
    case Issue(id, jti, ttl) => (IssueChallenge(st, id, jti, ttl, now), Done)
    case AskTier(id, ttl, grace) =>
      var (st', s) := GetSession(st, id, now); (st', TierOut(ResolveTier(s, ttl, grace, now)))
  }

  lemma {:induction false} AloneFinished(c: Primitives, st: Store, call: Call, now: int, shared: bool, n: nat)
    requires call.pc.Finished?
    ensures Alone(c, st, call, now, shared, n) == (st, call)
  {
    if n > 0 {
      AloneFinished(c, st, call, now, shared, n - 1);
    }
  }

  ghost predicate Ends(c: Primitives, st: Store, call: Call, now: int, shared: bool, n: nat, end: (Store, Output)) {
    Alone(c, st, call, now, shared, n) == (end.0, Call(call.req, Finished(end.1)))
  }

  lemma EndsStep(c: Primitives, st: Store, call: Call, now: int, shared: bool, n: nat, end: (Store, Output))
    requires var (st', call') := Micro(c, st, call, now, shared); Ends(c, st', call', now, shared, n, end)
    ensures Ends(c, st, call, now, shared, n + 1, end)
  {}

  lemma EndsNow(c: Primitives, st: Store, req: Request, now: int, shared: bool, n: nat, out: Output)
    ensures Ends(c, st, Call(req, Finished(out)), now, shared, n, (st, out))
  {
    AloneFinished(c, st, Call(req, Finished(out)), now, shared, n);
  }

  // Each lemma below follows one call from a program counter to its end.

  /** What a refresh does once its token or signature has been judged. */
  function RefreshEnd(st: Store, jti: string, id: string, verdict: Option<ErrorCode>, now: int, raise: Store -> Store)
    : (Store, Output)
  {
    if verdict == Some(SignatureInvalid) then
      (Demote(ConsumeChallenge(st, jti).0, id, now), ProofOut(Failure(SignatureInvalid)))
    else if verdict.Some? then (st, ProofOut(Failure(verdict.value)))
    else
      var (st', ok) := ConsumeChallenge(st, jti);
      if !ok then (st', ProofOut(Failure(ChallengeConsumed)))
      else (raise(st'), ProofOut(Success(RefreshProof(id, jti, true))))
  }

  lemma RefreshJudgedAlone(c: Primitives, st: Store, r: TokenRequest, v: Option<ErrorCode>, now: int, shared: bool)
    ensures Ends(c, st, Call(NativeRefresh(r), Checked(v)), now, shared, 4,
                 RefreshEnd(st, r.expectedJti, r.sessionId, v, now, s => Promote(s, r.sessionId, now)))
  {}

  lemma RefreshReadAlone(c: Primitives, st: Store, r: TokenRequest, key: BoundKey, now: int, shared: bool)
    requires Named(st) && GetBoundKey(st, Slot(r.sessionId, Native)) == Some(key) && r.response != ""
    ensures Ends(c, st, Call(NativeRefresh(r), GotKey(Some(key))), now, shared, 6, Atomic(c, st, NativeRefresh(r), now))
  {
    var req, end := NativeRefresh(r), Atomic(c, st, NativeRefresh(r), now);
    var (st', ch) := GetChallenge(st, r.expectedJti, now);
    var bad := ChallengeRejected(st', ch, r.sessionId, now, shared);
    if bad.Some? {
      EndsNow(c, st', req, now, shared, 4, end.1);
    } else {
      RefreshJudgedAlone(c, st', r, VerifyDbscJws(c, Text.Trim(r.response), key.jwk, r.expectedJti), now, shared);
    }
    EndsStep(c, st', Call(req, GotChallenge(key.jwk, ch)), now, shared, 4, end);
    EndsStep(c, st, Call(req, GotKey(Some(key))), now, shared, 5, end);
  }

  lemma RefreshAlone(c: Primitives, st: Store, r: TokenRequest, now: int, shared: bool)
    requires Named(st)
    ensures Ends(c, st, Call(NativeRefresh(r), Start), now, shared, 7, Atomic(c, st, NativeRefresh(r), now))
  {
    var req, end := NativeRefresh(r), Atomic(c, st, NativeRefresh(r), now);
    var key := GetBoundKey(st, Slot(r.sessionId, Native));
    if r.response == "" {
      EndsNow(c, st, req, now, shared, 6, end.1);
    } else if key.None? {
      EndsNow(c, st, req, now, shared, 5, end.1);
      EndsStep(c, st, Call(req, GotKey(key)), now, shared, 5, end);
    } else {
      RefreshReadAlone(c, st, r, key.value, now, shared);
    }
    EndsStep(c, st, Call(req, Start), now, shared, 6, end);
  }

  lemma BoundRefreshJudgedAlone(c: Primitives, st: Store, r: BoundRefreshRequest, v: Option<ErrorCode>, now: int,
                                shared: bool)
    ensures Ends(c, st, Call(RefreshBound(r), Checked(v)), now, shared, 4,
                 RefreshEnd(st, r.expectedJti, r.sessionId, v, now, s => PromoteBound(s, r.sessionId, now)))
  {}

  lemma BoundRefreshReadAlone(c: Primitives, st: Store, r: BoundRefreshRequest, key: BoundKey, now: int, shared: bool)
    requires Named(st) && GetBoundKey(st, Slot(r.sessionId, Bound)) == Some(key)
    requires r.signature != "" && Abs(now - r.timestamp) <= TIMESTAMP_WINDOW_MS
    ensures Ends(c, st, Call(RefreshBound(r), GotKey(Some(key))), now, shared, 6, Atomic(c, st, RefreshBound(r), now))
  {
    var req, end := RefreshBound(r), Atomic(c, st, RefreshBound(r), now);
    var (st', ch) := GetChallenge(st, r.expectedJti, now);
    var bad := ChallengeRejected(st', ch, r.sessionId, now, shared);
    if bad.Some? {
      EndsNow(c, st', req, now, shared, 4, end.1);
    } else {
      var v := SignatureError(VerifyP256(c, key.jwk, r.signature, RefreshMessage(r.expectedJti, r.timestamp)));
      BoundRefreshJudgedAlone(c, st', r, v, now, shared);
    }
    EndsStep(c, st', Call(req, GotChallenge(key.jwk, ch)), now, shared, 4, end);
    EndsStep(c, st, Call(req, GotKey(Some(key))), now, shared, 5, end);
  }

  lemma BoundRefreshAlone(c: Primitives, st: Store, r: BoundRefreshRequest, now: int, shared: bool)
    requires Named(st)
    ensures Ends(c, st, Call(RefreshBound(r), Start), now, shared, 7, Atomic(c, st, RefreshBound(r), now))
  {
    var req, end := RefreshBound(r), Atomic(c, st, RefreshBound(r), now);
    var key := GetBoundKey(st, Slot(r.sessionId, Bound));
    if r.signature == "" || Abs(now - r.timestamp) > TIMESTAMP_WINDOW_MS {
      EndsNow(c, st, req, now, shared, 6, end.1);
    } else if key.None? {
      EndsNow(c, st, req, now, shared, 5, end.1);
      EndsStep(c, st, Call(req, GotKey(key)), now, shared, 5, end);
    } else {
      BoundRefreshReadAlone(c, st, r, key.value, now, shared);
    }
    EndsStep(c, st, Call(req, Start), now, shared, 6, end);
  }

  lemma RegistrationWonAlone(c: Primitives, st: Store, r: TokenRequest, jws: RegistrationJws, now: int, shared: bool)
    requires ParseRegistrationJws(c, Text.Trim(r.response)) == Success(jws)
    ensures var key := BoundKey(r.sessionId, Native, jws.jwk, now, jws.algorithm);
      Ends(c, st, Call(Register(r), GotConsumed(true)), now, shared, 3,
           (Promote(SetBoundKey(st, key), r.sessionId, now), KeyOut(Success(key))))
  {}

  lemma RegistrationReadAlone(c: Primitives, st: Store, r: TokenRequest, jws: RegistrationJws, now: int, shared: bool)
    requires Named(st) && r.response != "" && ParseRegistrationJws(c, Text.Trim(r.response)) == Success(jws)
    ensures var (st', ch) := GetChallenge(st, r.expectedJti, now);
      Ends(c, st', Call(Register(r), GotChallenge(jws.jwk, ch)), now, shared, 5, Atomic(c, st, Register(r), now))
  {
    var req, end := Register(r), Atomic(c, st, Register(r), now);
    var (st', ch) := GetChallenge(st, r.expectedJti, now);
    var bad := ChallengeRejected(st', ch, r.sessionId, now, shared);
    var existing := GetBoundKey(st', Slot(r.sessionId, Native));
    if bad.Some? || jws.jti != Some(r.expectedJti) {
      EndsNow(c, st', req, now, shared, 4, end.1);
    } else {
      if existing.Some? {
        EndsNow(c, st', req, now, shared, 3, end.1);
      } else {
        assert ConsumeChallenge(st', r.expectedJti).1;
        RegistrationWonAlone(c, ConsumeChallenge(st', r.expectedJti).0, r, jws, now, shared);
      }
      EndsStep(c, st', Call(req, GotExisting(existing)), now, shared, 3, end);
    }
    EndsStep(c, st', Call(req, GotChallenge(jws.jwk, ch)), now, shared, 4, end);
  }

  lemma RegistrationAlone(c: Primitives, st: Store, r: TokenRequest, now: int, shared: bool)
    requires Named(st)
    ensures Ends(c, st, Call(Register(r), Start), now, shared, 6, Atomic(c, st, Register(r), now))
  {
    var req, end := Register(r), Atomic(c, st, Register(r), now);
    var parsed := ParseRegistrationJws(c, Text.Trim(r.response));
    if r.response == "" || parsed.Failure? {
      EndsNow(c, st, req, now, shared, 5, end.1);
    } else {
      RegistrationReadAlone(c, st, r, parsed.value, now, shared);
    }
    EndsStep(c, st, Call(req, Start), now, shared, 5, end);
  }

  lemma BoundRegistrationWonAlone(c: Primitives, st: Store, r: BoundRegistrationRequest, now: int, shared: bool)
    requires r.publicKey.Some?
    ensures var key := BoundKey(r.sessionId, Bound, r.publicKey.value, now, ES256);
      Ends(c, st, Call(RegisterBound(r), GotConsumed(true)), now, shared, 4,
           (PromoteBound(SetBoundKey(st, key), r.sessionId, now), KeyOut(Success(key))))
  {}

  ghost predicate BoundRegistrationWellFormed(r: BoundRegistrationRequest) {
    && r.publicKey.Some? && r.signature != ""
    && JwkAcceptable(r.publicKey.value) && DetectAlgorithm(r.publicKey.value) == Some(ES256)
  }

  lemma BoundRegistrationJudgedAlone(c: Primitives, st: Store, r: BoundRegistrationRequest, now: int, shared: bool)
    requires Named(st) && BoundRegistrationWellFormed(r)
    requires var (st', ch) := GetChallenge(st, r.expectedJti, now);
      ChallengeRejected(st', ch, r.sessionId, now, shared).None?
    ensures var st' := GetChallenge(st, r.expectedJti, now).0;
      var verdict := SignatureError(VerifyP256(c, r.publicKey.value, r.signature, r.expectedJti));
      Ends(c, st', Call(RegisterBound(r), Checked(verdict)),
           now, shared, 6, Atomic(c, st, RegisterBound(r), now))
  {
    var req, end := RegisterBound(r), Atomic(c, st, RegisterBound(r), now);
    var st' := GetChallenge(st, r.expectedJti, now).0;
    var v := SignatureError(VerifyP256(c, r.publicKey.value, r.signature, r.expectedJti));
    var existing := GetBoundKey(st', Slot(r.sessionId, Bound));
    if v.Some? {
      EndsNow(c, st', req, now, shared, 5, end.1);
    } else {
      if existing.Some? {
        EndsNow(c, st', req, now, shared, 4, end.1);
      } else {
        assert ConsumeChallenge(st', r.expectedJti).1;
        BoundRegistrationWonAlone(c, ConsumeChallenge(st', r.expectedJti).0, r, now, shared);
      }
      EndsStep(c, st', Call(req, GotExisting(existing)), now, shared, 4, end);
    }
    EndsStep(c, st', Call(req, Checked(v)), now, shared, 5, end);
  }

  lemma BoundRegistrationAlone(c: Primitives, st: Store, r: BoundRegistrationRequest, now: int, shared: bool)
    requires Named(st)
    ensures Ends(c, st, Call(RegisterBound(r), Start), now, shared, 8, Atomic(c, st, RegisterBound(r), now))
  {
    var req, end := RegisterBound(r), Atomic(c, st, RegisterBound(r), now);
    var (st', ch) := GetChallenge(st, r.expectedJti, now);
    if !BoundRegistrationWellFormed(r) {
      EndsNow(c, st, req, now, shared, 7, end.1);
    } else {
      if ChallengeRejected(st', ch, r.sessionId, now, shared).Some? {
        EndsNow(c, st', req, now, shared, 6, end.1);
      } else {
        BoundRegistrationJudgedAlone(c, st, r, now, shared);
      }
      EndsStep(c, st', Call(req, GotChallenge(r.publicKey.value, ch)), now, shared, 6, end);
    }
    EndsStep(c, st, Call(req, Start), now, shared, 7, end);
  }

  lemma BindAlone(c: Primitives, st: Store, req: Request, now: int, shared: bool)
    requires req.Bind?
    ensures Ends(c, st, Call(req, Start), now, shared, 3, Atomic(c, st, req, now))
  {}

  lemma StateAlone(c: Primitives, st: Store, req: Request, now: int, shared: bool)
    requires req.AskState?
    ensures Ends(c, st, Call(req, Start), now, shared, 4, Atomic(c, st, req, now))
  {}

  lemma ShortAlone(c: Primitives, st: Store, req: Request, now: int, shared: bool)
    requires req.Issue? || req.AskTier?
    ensures Ends(c, st, Call(req, Start), now, shared, 2, Atomic(c, st, req, now))
  {}

  /** How many steps a request takes at most. */
  function Steps(req: Request): nat {
    match req
    case Register(_) => 6
    case NativeRefresh(_) => 7
    case RegisterBound(_) => 8
    case RefreshBound(_) => 7
    case Bind(_, _, _, _) => 3
    case AskState(_, _) => 4
    case _ => 2
  }

  /**
   * The two granularities agree: a call that runs alone, with one clock reading, ends with
   * exactly the store and the answer of its atomic function, on every store and request.
   */
  lemma AloneIsAtomic(c: Primitives, st: Store, req: Request, now: int, shared: bool)
    requires Named(st)
    ensures var (st', out) := Atomic(c, st, req, now);
      Alone(c, st, Call(req, Start), now, shared, Steps(req)) == (st', Call(req, Finished(out)))
  {
    match req
    case Register(r) => RegistrationAlone(c, st, r, now, shared);
    case NativeRefresh(r) => RefreshAlone(c, st, r, now, shared);
    case RegisterBound(r) => BoundRegistrationAlone(c, st, r, now, shared);
    case RefreshBound(r) => BoundRefreshAlone(c, st, r, now, shared);
    case Bind(_, _, _, _) => BindAlone(c, st, req, now, shared);
    case AskState(_, _) => StateAlone(c, st, req, now, shared);
    case _ => ShortAlone(c, st, req, now, shared);
  }
}
