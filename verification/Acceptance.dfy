/**
 * What the answer of a handler says, stated without the order of its checks: when it succeeds,
 * when it burns the challenge, what key it registers, and what each refusal reveals about the
 * request and the store.
 */
module Acceptance {
  import opened Basics
  import opened Model
  import opened Crypto
  import opened Handlers
  import opened AtomicRuns
  import Base64Url
  import Text

  // ---------------------------------------------------------------- proof of possession

  /** The token as it is checked. */
  function TokenOf(req: TokenRequest): string {
    Text.Trim(req.response)
  }

  /** The key that a refresh is checked under. */
  function StoredKey(st: Store, e: Event): Jwk
    requires IsHandler(e) && SlotOf(e) in st.slots
  {
    st.slots[SlotOf(e)].jwk
  }

  /**
   * The call proves possession of the key it has to prove it of: a token by the key it carries, or
   * by the stored one, that says the challenge; or a signature of the challenge, in a refresh
   * followed by the timestamp.
   */
  predicate Possessed(c: Primitives, st: Store, e: Event)
    requires IsHandler(e)
  {
    match e
    case Register(req) =>
      CarriesKey(c, TokenOf(req)) && Says(c, TokenOf(req), CarriedKey(c, TokenOf(req)), req.expectedJti)
    case NativeRefresh(req) =>
      && SlotOf(e) in st.slots
      && Checkable(c, TokenOf(req), StoredKey(st, e)) && Says(c, TokenOf(req), StoredKey(st, e), req.expectedJti)
    case RegisterBound(req) => req.publicKey.Some? && Signed(c, req.publicKey.value, req.signature, req.expectedJti)
    case RefreshBound(req) =>
      && SlotOf(e) in st.slots
      && Signed(c, StoredKey(st, e), req.signature, req.expectedJti + "." + Text.PrintInt(req.timestamp))
  }

  /** A refresh with nothing wrong but its signature. */
  predicate BadlySigned(c: Primitives, st: Store, e: Event)
    requires IsHandler(e)
  {
    match e
    case NativeRefresh(req) =>
      && SlotOf(e) in st.slots
      && Checkable(c, TokenOf(req), StoredKey(st, e)) && c.jwtVerify(TokenOf(req), StoredKey(st, e)) == None
    case RefreshBound(req) =>
      && SlotOf(e) in st.slots
      && Missigned(c, StoredKey(st, e), req.signature, req.expectedJti + "." + Text.PrintInt(req.timestamp))
    case _ => false
  }

  /** The request carries what its handler needs, an acceptable P-256 key and a timely timestamp included. */
  predicate WellFormed(e: Event, now: int)
    requires IsHandler(e)
  {
    match e
    case Register(req) => req.response != ""
    case NativeRefresh(req) => req.response != ""
    case RegisterBound(req) =>
      req.signature != "" && req.publicKey.Some? && FitsAlgorithm(req.publicKey.value, "ES256")
    case RefreshBound(req) => req.signature != "" && -300_000 <= now - req.timestamp <= 300_000
  }

  /** Nothing but the proof of possession stands between the call and its success. */
  predicate Ready(st: Store, e: Event, now: int)
    requires IsHandler(e)
  {
    WellFormed(e, now) && Usable(st, JtiOf(e), SessionOf(e), now) && SlotReady(st, e)
  }

  /**
   * A registration token parses if and only if it carries a key it verifies under; the answer is that key
   * and its claim.
   */
  lemma ParsesExactly(c: Primitives, token: string)
    ensures var parsed := ParseRegistrationJws(c, token);
      && (parsed.Success? <==> CarriesKey(c, token) && c.jwtVerify(token, CarriedKey(c, token)).Some?)
      && (parsed.Success? ==>
            && parsed.value.jwk == CarriedKey(c, token) && Some(parsed.value.jti) == c.jwtVerify(token, parsed.value.jwk)
            && parsed.value.algorithm == if parsed.value.jwk.kty == "EC" then ES256 else RS256)
      && (parsed.Failure? ==> parsed.error != JtiMismatch)
  {}

  lemma RegistrationSucceeds(c: Primitives, st: Store, e: Event, now: int)
    requires e.Register?
    ensures Registration(c, st, e.token, now).1.Success? <==> Ready(st, e, now) && Possessed(c, st, e)
  {
    ParsesExactly(c, TokenOf(e.token));
  }

  lemma BoundRegistrationSucceeds(c: Primitives, st: Store, e: Event, now: int)
    requires e.RegisterBound?
    ensures BoundRegistration(c, st, e.registration, now).1.Success? <==> Ready(st, e, now) && Possessed(c, st, e)
  {}

  lemma RefreshSucceeds(c: Primitives, st: Store, e: Event, now: int)
    requires e.NativeRefresh?
    ensures Refresh(c, st, e.token, now).1.Success? <==> Ready(st, e, now) && Possessed(c, st, e)
  {}

  lemma BoundRefreshSucceeds(c: Primitives, st: Store, e: Event, now: int)
    requires e.RefreshBound?
    ensures BoundRefresh(c, st, e.refresh, now).1.Success? <==> Ready(st, e, now) && Possessed(c, st, e)
  {}

  /**
   * A handler succeeds if and only if the request is well formed, the challenge is live, unused and
   * the session's own, the slot is as the handler needs it, and possession of the key is proved.
   */
  lemma SucceedsExactly(c: Primitives, cfg: Config, st: Store, e: Event, now: int)
    requires IsHandler(e)
    ensures Succeeded(Step(c, cfg, st, e, now).1) <==> Ready(st, e, now) && Possessed(c, st, e)
  {
    match e
    case Register(_) => RegistrationSucceeds(c, st, e, now);
    case RegisterBound(_) => BoundRegistrationSucceeds(c, st, e, now);
    case NativeRefresh(_) => RefreshSucceeds(c, st, e, now);
    case RefreshBound(_) => BoundRefreshSucceeds(c, st, e, now);
  }

  /** A refresh burns if and only if all is ready and exactly the signature is bad. */
  lemma BurnsExactly(c: Primitives, cfg: Config, st: Store, e: Event, now: int)
    requires e.NativeRefresh? || e.RefreshBound?
    ensures Burned(e, Step(c, cfg, st, e, now).1, now) <==> Ready(st, e, now) && BadlySigned(c, st, e)
  {}

  /** The key a registration proved possession of: the one in its token, with the token's algorithm, or the one sent. */
  function PresentedKey(c: Primitives, e: Event, now: int): Option<BoundKey>
    requires IsHandler(e)
  {
    match e
    case Register(req) =>
      if CarriesKey(c, TokenOf(req)) then
        var jwk := CarriedKey(c, TokenOf(req));
        Some(BoundKey(req.sessionId, Native, jwk, now, if jwk.kty == "EC" then ES256 else RS256))
      else None
    case RegisterBound(req) =>
      if req.publicKey.None? then None else Some(BoundKey(req.sessionId, Bound, req.publicKey.value, now, ES256))
    case _ => None
  }

  lemma PresentsKey(c: Primitives, cfg: Config, st: Store, e: Event, now: int)
    requires e.Register? || e.RegisterBound?
    ensures var a := Step(c, cfg, st, e, now).1; Succeeded(a) ==> Some(a.key.value) == PresentedKey(c, e, now)
  {
    if e.Register? {
      ParsesExactly(c, TokenOf(e.token));
    }
  }

  /** After a registration the slot holds the presented key, and the row the tier its keys allow. */
  lemma RegistersPresented(c: Primitives, cfg: Config, st: Store, e: Event, now: int)
    requires IsHandler(e) && Named(st) && (e.Register? || e.RegisterBound?) && Succeeded(Step(c, cfg, st, e, now).1)
    ensures var (st', a) := Step(c, cfg, st, e, now);
      && Some(a.key.value) == PresentedKey(c, e, now)
      && SlotOf(e) in st'.slots && st'.slots[SlotOf(e)] == a.key.value
    ensures RowAfter(st, e, now, Step(c, cfg, st, e, now).0)
  {
    PresentsKey(c, cfg, st, e, now);
    HandlerEffect(c, cfg, st, e, now);
    SuccessSets(st, e, now, Step(c, cfg, st, e, now).0, Step(c, cfg, st, e, now).1);
  }

  lemma SuccessSets(st: Store, e: Event, now: int, st': Store, a: Answer)
    requires Named(st) && IsHandler(e) && Effect(st, e, now, st', a) && Succeeded(a)
    ensures RowAfter(st, e, now, st')
    ensures st'.slots == if a.KeyAnswer? then st.slots[SlotOf(e) := a.key.value] else st.slots
  {}

  /** After a refresh no slot has changed, and the row has the tier its keys allow. */
  lemma RefreshesRow(c: Primitives, cfg: Config, st: Store, e: Event, now: int)
    requires IsHandler(e) && Named(st) && (e.NativeRefresh? || e.RefreshBound?) && Succeeded(Step(c, cfg, st, e, now).1)
    ensures Step(c, cfg, st, e, now).0.slots == st.slots
    ensures RowAfter(st, e, now, Step(c, cfg, st, e, now).0)
  {
    HandlerEffect(c, cfg, st, e, now);
  }

  /**
   * The row after a success: live exactly as before; the native path sets dbsc, the polyfill path
   * sets bound unless the session holds a native key, and then the tier stays.
   */
  predicate RowAfter(st: Store, e: Event, now: int, st': Store)
    requires IsHandler(e)
  {
    var id := SessionOf(e);
    if id in st.sessions && now <= st.sessions[id].expiresAt then
      id in st'.sessions
      && st'.sessions[id] == st.sessions[id].(
           tier := if e.Register? || e.NativeRefresh? then TierDbsc
                   else if Slot(id, Native) in st.slots then st.sessions[id].tier
                   else TierBound,
           lastRefreshAt := now)
    else id !in st'.sessions
  }

  // ---------------------------------------------------------------- refusals

  predicate Live(st: Store, jti: string, now: int) {
    jti in st.challenges && now <= st.challenges[jti].expiresAt
  }

  function Refusal(a: Answer): Option<ErrorCode> {
    match a
    case KeyAnswer(Failure(code)) => Some(code)
    case ProofAnswer(Failure(code)) => Some(code)
    case _ => None
  }

  predicate FitsNone(jwk: Jwk) {
    !FitsAlgorithm(jwk, "ES256") && !FitsAlgorithm(jwk, "RS256")
  }

  /** What is wrong with a registration token, for each code. */
  predicate BlamesOwnToken(c: Primitives, token: string, jti: string, code: ErrorCode) {
    var header := c.decodeHeader(token);
    match code
    case MalformedJws => header.None? || header.value.typ != "dbsc+jwt" || header.value.jwk.None?
    case UnknownAlgorithm =>
      && header.Some?
      && ((header.value.alg != "ES256" && header.value.alg != "RS256")
          || (header.value.jwk.Some? && !FitsNone(header.value.jwk.value)
              && !FitsAlgorithm(header.value.jwk.value, header.value.alg)))
    case InvalidJwk =>
      && TokenHeader(c, token) && header.value.jwk.Some?
      && (FitsNone(header.value.jwk.value) || !Checkable(c, token, header.value.jwk.value))
    case SignatureInvalid => CarriesKey(c, token) && c.jwtVerify(token, CarriedKey(c, token)) == None
    case JtiMismatch =>
      && CarriesKey(c, token) && c.jwtVerify(token, CarriedKey(c, token)).Some?
      && !Says(c, token, CarriedKey(c, token), jti)
    case _ => false
  }

  /** What is wrong with a refresh token that is checked under a stored key, for each code. */
  predicate BlamesToken(c: Primitives, token: string, jwk: Jwk, jti: string, code: ErrorCode) {
    var header := c.decodeHeader(token);
    match code
    case MalformedJws => header.None? || header.value.typ != "dbsc+jwt" || c.jwtVerify(token, jwk) == Some(None)
    case UnknownAlgorithm => header.Some? && header.value.alg != "ES256" && header.value.alg != "RS256"
    case InvalidJwk => TokenHeader(c, token) && !Checkable(c, token, jwk)
    case SignatureInvalid => Checkable(c, token, jwk) && c.jwtVerify(token, jwk) == None
    case JtiMismatch =>
      && Checkable(c, token, jwk) && c.jwtVerify(token, jwk).Some? && c.jwtVerify(token, jwk).value.Some?
      && !Says(c, token, jwk, jti)
    case _ => false
  }

  /** What is wrong with a signature that is checked under a key, for each code. */
  predicate BlamesSignature(c: Primitives, jwk: Jwk, signature: string, text: string, code: ErrorCode) {
    match code
    case InvalidJwk => !c.importable(jwk)
    case InvalidCharacter => Base64Url.Decode(signature) == None
    case SignatureInvalid => Missigned(c, jwk, signature, text)
    case _ => false
  }

  /** What is wrong with the key, the token, the signature or the timestamp of a call, for each code. */
  predicate Blames(c: Primitives, st: Store, e: Event, now: int, code: ErrorCode)
    requires IsHandler(e)
  {
    match e
    case Register(req) => BlamesOwnToken(c, TokenOf(req), req.expectedJti, code)
    case NativeRefresh(req) =>
      SlotOf(e) in st.slots && BlamesToken(c, TokenOf(req), StoredKey(st, e), req.expectedJti, code)
    case RegisterBound(req) =>
      && req.publicKey.Some?
      && ((code == InvalidJwk && FitsNone(req.publicKey.value))
          || (code == UnknownAlgorithm && FitsAlgorithm(req.publicKey.value, "RS256"))
          || BlamesSignature(c, req.publicKey.value, req.signature, req.expectedJti, code))
    case RefreshBound(req) =>
      || (code == SignatureInvalid && !(-300_000 <= now - req.timestamp <= 300_000))
      || (SlotOf(e) in st.slots
          && BlamesSignature(c, StoredKey(st, e), req.signature,
                             req.expectedJti + "." + Text.PrintInt(req.timestamp), code))
  }

  /** The call brings no token, no signature or no key. */
  predicate Lacking(e: Event)
    requires IsHandler(e)
  {
    match e
    case Register(req) => req.response == ""
    case NativeRefresh(req) => req.response == ""
    case RegisterBound(req) => req.publicKey.None? || req.signature == ""
    case RefreshBound(req) => req.signature == ""
  }

  /** The cause of a refusal, for each code. */
  predicate Reveals(c: Primitives, st: Store, e: Event, now: int, code: ErrorCode)
    requires IsHandler(e)
  {
    match code
    case MissingResponseHeader => Lacking(e)
    case ChallengeNotFound => !Live(st, JtiOf(e), now)
    case ChallengeConsumed => Live(st, JtiOf(e), now) && st.challenges[JtiOf(e)].consumed
    case JtiMismatch =>
      && Live(st, JtiOf(e), now) && !st.challenges[JtiOf(e)].consumed
      && (st.challenges[JtiOf(e)].sessionId != SessionOf(e) || Blames(c, st, e, now, JtiMismatch))
    case SessionAlreadyRegistered =>
      && (e.Register? || e.RegisterBound?) && SlotOf(e) in st.slots
      && Usable(st, JtiOf(e), SessionOf(e), now) && Possessed(c, st, e)
    case KeyNotFoundNative => e.NativeRefresh? && SlotOf(e) !in st.slots
    case KeyNotFoundBound => e.RefreshBound? && WellFormed(e, now) && SlotOf(e) !in st.slots
    case _ => Blames(c, st, e, now, code)
  }

  lemma TokenRefusals(c: Primitives, token: string, jti: string)
    ensures var parsed := ParseRegistrationJws(c, token);
      && (parsed.Failure? ==> BlamesOwnToken(c, token, jti, parsed.error))
      && (parsed.Success? && parsed.value.jti != Some(jti) ==> BlamesOwnToken(c, token, jti, JtiMismatch))
  {
    ParsesExactly(c, token);
  }

  lemma RegistrationRefusals(c: Primitives, cfg: Config, st: Store, e: Event, now: int)
    requires IsHandler(e) && e.Register?
    ensures var r := Refusal(Step(c, cfg, st, e, now).1); r.Some? ==> Reveals(c, st, e, now, r.value)
  {
    ParsesExactly(c, TokenOf(e.token));
    TokenRefusals(c, TokenOf(e.token), e.token.expectedJti);
    match ParseRegistrationJws(c, Text.Trim(e.token.response))
    case Failure(_) =>
    case Success(_) =>
  }

  lemma BoundRegistrationRefusals(c: Primitives, cfg: Config, st: Store, e: Event, now: int)
    requires IsHandler(e) && e.RegisterBound?
    ensures var r := Refusal(Step(c, cfg, st, e, now).1); r.Some? ==> Reveals(c, st, e, now, r.value)
  {}

  lemma RefreshRefusals(c: Primitives, cfg: Config, st: Store, e: Event, now: int)
    requires IsHandler(e) && e.NativeRefresh?
    ensures var r := Refusal(Step(c, cfg, st, e, now).1); r.Some? ==> Reveals(c, st, e, now, r.value)
  {}

  lemma BoundRefreshRefusals(c: Primitives, cfg: Config, st: Store, e: Event, now: int)
    requires IsHandler(e) && e.RefreshBound?
    ensures var r := Refusal(Step(c, cfg, st, e, now).1); r.Some? ==> Reveals(c, st, e, now, r.value)
  {}

  /** Every call succeeds or is refused, and each refusal reveals its cause. */
  lemma RefusalMeans(c: Primitives, cfg: Config, st: Store, e: Event, now: int)
    requires IsHandler(e)
    ensures var a := Step(c, cfg, st, e, now).1;
      Succeeded(a) || (Refusal(a).Some? && Reveals(c, st, e, now, Refusal(a).value))
  {
    match e
    case Register(_) => RegistrationRefusals(c, cfg, st, e, now);
    case RegisterBound(_) => BoundRegistrationRefusals(c, cfg, st, e, now);
    case NativeRefresh(_) => RefreshRefusals(c, cfg, st, e, now);
    case RefreshBound(_) => BoundRefreshRefusals(c, cfg, st, e, now);
  }

  // ---------------------------------------------------------------- what the routes hand out

  /** The call is for the session and brings the challenge. */
  predicate Brings(e: Event, id: string, jti: string) {
    IsHandler(e) && SessionOf(e) == id && JtiOf(e) == jti
  }

  /**
   * The state route asks for what will work: a call with the challenge it hands out is ready exactly
   * when it comes within five minutes and is a registration the answer asks for, or a refresh by a
   * key that is there. An answer "bound" hands out nothing and a polyfill refresh finds its key.
   */
  lemma StateInvites(st: Store, id: string, jti: string, now: int, e: Event, later: int)
    requires Brings(e, id, jti) && WellFormed(e, later) && now <= later
    ensures var (st', a) := StateRoute(st, id, jti, now);
      match a
      case Unbound =>
        LiveSession(st, id, now).None? && LiveSession(st', id, now).None? && st'.challenges == st.challenges
      case NeedsRegistration(handed) =>
        handed == jti && (Ready(st', e, later) <==> later <= now + 300_000 && (e.Register? || e.RegisterBound?))
      case NeedsBoundRegistration(_, handed) =>
        handed == jti && (Ready(st', e, later) <==> later <= now + 300_000 && (e.RegisterBound? || e.NativeRefresh?))
      case StateBound(_) => st'.challenges == st.challenges && Slot(id, Bound) in st'.slots
  {}

  function LiveSession(st: Store, id: string, now: int): Option<Session> {
    GetSession(st, id, now).1
  }

  /**
   * Binding leaves a live row, the old one if there was one, and a challenge that any call of the session
   * may use for five minutes.
   */
  lemma BindInvites(st: Store, id: string, user: string, sessionTtl: nat, jti: string, now: int, e: Event, later: int)
    requires Brings(e, id, jti) && WellFormed(e, later) && now <= later
    ensures var st' := BindSession(st, id, user, sessionTtl, jti, now);
      && LiveSession(st', id, now)
           == Some(if LiveSession(st, id, now).Some? then LiveSession(st, id, now).value
                   else Session(id, user, TierNone, now, now + sessionTtl, 0))
      && (Ready(st', e, later) <==> later <= now + 300_000 && SlotReady(st, e))
  {}
}
