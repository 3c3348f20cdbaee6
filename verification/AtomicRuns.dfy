/**
 * Whole runs in which every call is one step with one clock reading, over any mix of
 * sessions. What each step may do to a store, and what follows for every run.
 */
module AtomicRuns {
  import opened Basics
  import opened Model
  import opened Crypto
  import opened Handlers

  datatype Config = Config(boundCookieTtl: int, refreshGraceMs: int)

  datatype Event =
    | Bind(sessionId: string, userId: string, sessionTtl: int, jti: string)
    | Issue(sessionId: string, jti: string, ttl: int)
    | Register(token: TokenRequest)
    | NativeRefresh(token: TokenRequest)
    | RegisterBound(registration: BoundRegistrationRequest)
    | RefreshBound(refresh: BoundRefreshRequest)
    | AskState(sessionId: string, jti: string)
    | AskTier(sessionId: string)
    | ReadSession(sessionId: string)
    | ReadKey(slot: Slot)
    | ReadChallenge(jti: string)
    | Revoke(sessionId: string)
    | Delete(sessionId: string)
    | RevokeAll(userId: string)
    | Sweep

  datatype Answer =
    | Done
    | KeyAnswer(key: RegistrationAnswer)
    | ProofAnswer(proof: RefreshAnswer)
    | StateReply(state: StateAnswer)
    | TierReply(tier: Tier)
    | SessionReply(session: Option<Session>)
    | KeyReply(found: Option<BoundKey>)
    | ChallengeReply(challenge: Option<Challenge>)

  function Step(c: Primitives, cfg: Config, st: Store, e: Event, now: int): (Store, Answer) {
    match e
    case Bind(id, user, ttl, jti) => (BindSession(st, id, user, ttl, jti, now), Done)
    case Issue(id, jti, ttl) => (IssueChallenge(st, id, jti, ttl, now), Done)
    case Register(req) => var (st', a) := Registration(c, st, req, now); (st', KeyAnswer(a))
    case NativeRefresh(req) => var (st', a) := Refresh(c, st, req, now); (st', ProofAnswer(a))
    case RegisterBound(req) => var (st', a) := BoundRegistration(c, st, req, now); (st', KeyAnswer(a))
    case RefreshBound(req) => var (st', a) := BoundRefresh(c, st, req, now); (st', ProofAnswer(a))
    case AskState(id, jti) => var (st', a) := StateRoute(st, id, jti, now); (st', StateReply(a))
    case AskTier(id) =>
      var (st', s) := GetSession(st, id, now);
      (st', TierReply(ResolveTier(s, cfg.boundCookieTtl, cfg.refreshGraceMs, now)))
    case ReadSession(id) => var (st', s) := GetSession(st, id, now); (st', SessionReply(s))
    case ReadKey(slot) => (st, KeyReply(GetBoundKey(st, slot)))
    case ReadChallenge(jti) => var (st', ch) := GetChallenge(st, jti, now); (st', ChallengeReply(ch))
    case Revoke(id) => (RevokeSession(st, id), Done)
    case Delete(id) => (DeleteSession(st, id), Done)
    case RevokeAll(user) => (RevokeAllForUser(st, user), Done)
    case Sweep => (Gc(st, now), Done)
  }

  // ---------------------------------------------------------------- what one handler call does

  predicate IsHandler(e: Event) {
    e.Register? || e.NativeRefresh? || e.RegisterBound? || e.RefreshBound?
  }

  function SessionOf(e: Event): string
    requires IsHandler(e)
  {
    match e
    case Register(req) => req.sessionId
    case NativeRefresh(req) => req.sessionId
    case RegisterBound(req) => req.sessionId
    case RefreshBound(req) => req.sessionId
  }

  function JtiOf(e: Event): string
    requires IsHandler(e)
  {
    match e
    case Register(req) => req.expectedJti
    case NativeRefresh(req) => req.expectedJti
    case RegisterBound(req) => req.expectedJti
    case RefreshBound(req) => req.expectedJti
  }

  predicate Succeeded(a: Answer) {
    (a.KeyAnswer? && a.key.Success?) || (a.ProofAnswer? && a.proof.Success?)
  }

  /** A refresh whose signature was checked and found bad. A stale timestamp carries the same code but burns nothing. */
  predicate Burned(e: Event, a: Answer, now: int) {
    && a == ProofAnswer(Failure(SignatureInvalid))
    && (e.RefreshBound? ==> Abs(now - e.refresh.timestamp) <= TIMESTAMP_WINDOW_MS)
  }

  /** The stored challenge that a call may consume. */
  predicate Usable(st: Store, jti: string, id: string, now: int) {
    && jti in st.challenges
    && var ch := st.challenges[jti];
    !ch.consumed && now <= ch.expiresAt && ch.sessionId == id
  }

  function Spend(st: Store, jti: string): Store {
    ConsumeChallenge(st, jti).0
  }

  /** At most one expired challenge row is gone. */
  predicate EvictsOnly(st: Store, st': Store, jti: string, now: int) {
    || st' == st
    || (jti in st.challenges && now > st.challenges[jti].expiresAt && st' == st.(challenges := st.challenges - {jti}))
  }

  /** The store after a success, from the key it registered (if any) and the path it took. */
  function AfterSuccess(st: Store, e: Event, a: Answer, now: int): Store
    requires IsHandler(e) && Succeeded(a)
  {
    var spent := Spend(st, JtiOf(e));
    var keyed := if a.KeyAnswer? then SetBoundKey(spent, a.key.value) else spent;
    if e.Register? || e.NativeRefresh? then Promote(keyed, SessionOf(e), now)
    else PromoteBound(keyed, SessionOf(e), now)
  }

  /** The slot a handler needs: registrations need theirs empty, refreshes need theirs filled. */
  function SlotOf(e: Event): Slot
    requires IsHandler(e)
  {
    Slot(SessionOf(e), if e.Register? || e.NativeRefresh? then Native else Bound)
  }

  predicate SlotReady(st: Store, e: Event)
    requires IsHandler(e)
  {
    (e.Register? || e.RegisterBound?) <==> SlotOf(e) !in st.slots
  }

  ghost predicate Effect(st: Store, e: Event, now: int, st': Store, a: Answer)
    requires IsHandler(e)
  {
    if Succeeded(a) then
      && Usable(st, JtiOf(e), SessionOf(e), now) && SlotReady(st, e)
      && (a.KeyAnswer? ==> Slot(a.key.value.sessionId, a.key.value.kind) == SlotOf(e))
      && (a.KeyAnswer? <==> e.Register? || e.RegisterBound?)
      && st' == AfterSuccess(st, e, a, now)
    else if Burned(e, a, now) then
      && Usable(st, JtiOf(e), SessionOf(e), now) && SlotReady(st, e) && (e.NativeRefresh? || e.RefreshBound?)
      && st' == Demote(Spend(st, JtiOf(e)), SessionOf(e), now)
    else
      EvictsOnly(st, st', JtiOf(e), now)
  }

  /**
   * The whole effect of a handler call: a success or a burn uses up the one challenge that was
   * issued to its session, and every other rejection leaves the store as it was, up to evicting
   * that challenge when it had expired.
   */
  lemma HandlerEffect(c: Primitives, cfg: Config, st: Store, e: Event, now: int)
    requires IsHandler(e)
    ensures var (st', a) := Step(c, cfg, st, e, now); Effect(st, e, now, st', a)
  {}

  /** MemoryStorage never lets a handler see an expired challenge, so that code is never reported. */
  lemma ExpiredReadsAsMissing(c: Primitives, cfg: Config, st: Store, e: Event, now: int)
    requires IsHandler(e)
    ensures var a := Step(c, cfg, st, e, now).1;
      a != KeyAnswer(Failure(ChallengeExpired)) && a != ProofAnswer(Failure(ChallengeExpired))
  {}

  function IssuedJti(e: Event): Option<string> {
    match e
    case Bind(_, _, _, jti) => Some(jti)
    case Issue(_, jti, _) => Some(jti)
    case AskState(_, jti) => Some(jti)
    case _ => None
  }

  // ---------------------------------------------------------------- one-step invariants

  /** Tier bound: the polyfill key alone. Tier dbsc: the native key. */
  ghost predicate TiersBacked(st: Store) {
    forall id <- st.sessions ::
      && (st.sessions[id].tier == TierBound ==> Slot(id, Bound) in st.slots && Slot(id, Native) !in st.slots)
      && (st.sessions[id].tier == TierDbsc ==> Slot(id, Native) in st.slots)
  }

  ghost predicate Inv(st: Store) {
    Named(st) && TiersBacked(st)
  }

  lemma KeyedInv(st: Store, e: Event, a: Answer, now: int)
    requires Inv(st) && IsHandler(e) && a.KeyAnswer? && Succeeded(a)
    requires Effect(st, e, now, AfterSuccess(st, e, a, now), a)
    ensures Inv(AfterSuccess(st, e, a, now))
  {
    var keyed := SetBoundKey(Spend(st, JtiOf(e)), a.key.value);
    assert Named(keyed);
    assert keyed.sessions == st.sessions && keyed.slots == st.slots[SlotOf(e) := a.key.value];
  }

  lemma RefreshedInv(st: Store, e: Event, a: Answer, now: int)
    requires Inv(st) && IsHandler(e) && a.ProofAnswer? && Succeeded(a)
    requires Effect(st, e, now, AfterSuccess(st, e, a, now), a)
    ensures Inv(AfterSuccess(st, e, a, now))
  {}

  lemma DemoteInv(st: Store, jti: string, id: string, now: int)
    requires Inv(st)
    ensures Inv(Demote(Spend(st, jti), id, now))
  {}

  lemma EffectInv(st: Store, e: Event, now: int, st': Store, a: Answer)
    requires Inv(st) && IsHandler(e) && Effect(st, e, now, st', a)
    ensures Inv(st')
  {
    if Succeeded(a) {
      if a.KeyAnswer? {
        KeyedInv(st, e, a, now);
      } else {
        RefreshedInv(st, e, a, now);
      }
    } else if Burned(e, a, now) {
      DemoteInv(st, JtiOf(e), SessionOf(e), now);
    }
  }

  lemma IssueInv(st: Store, id: string, jti: string, ttl: int, now: int)
    requires Inv(st)
    ensures Inv(IssueChallenge(st, id, jti, ttl, now))
  {}

  lemma BindInv(st: Store, id: string, user: string, ttl: int, jti: string, now: int)
    requires Inv(st)
    ensures Inv(BindSession(st, id, user, ttl, jti, now))
  {}

  lemma StateInv(st: Store, id: string, jti: string, now: int)
    requires Inv(st)
    ensures Inv(StateRoute(st, id, jti, now).0)
  {}

  lemma IssuingInv(c: Primitives, cfg: Config, st: Store, e: Event, now: int)
    requires Inv(st) && IssuedJti(e).Some?
    ensures Inv(Step(c, cfg, st, e, now).0)
  {
    match e
    case Bind(id, user, ttl, jti) => BindInv(st, id, user, ttl, jti, now);
    case Issue(id, jti, ttl) => IssueInv(st, id, jti, ttl, now);
    case AskState(id, jti) => StateInv(st, id, jti, now);
    case _ => assert false;
  }

  lemma RemovingInv(c: Primitives, cfg: Config, st: Store, e: Event, now: int)
    requires Inv(st) && (e.Revoke? || e.Delete? || e.RevokeAll? || e.Sweep?)
    ensures Inv(Step(c, cfg, st, e, now).0)
  {}

  lemma ReadingInv(c: Primitives, cfg: Config, st: Store, e: Event, now: int)
    requires Inv(st) && (e.AskTier? || e.ReadSession? || e.ReadKey? || e.ReadChallenge?)
    ensures Inv(Step(c, cfg, st, e, now).0)
  {}

  lemma StepInv(c: Primitives, cfg: Config, st: Store, e: Event, now: int)
    requires Inv(st)
    ensures Inv(Step(c, cfg, st, e, now).0)
  {
    if IsHandler(e) {
      HandlerEffect(c, cfg, st, e, now);
      var (st', a) := Step(c, cfg, st, e, now);
      EffectInv(st, e, now, st', a);
    } else {
      if IssuedJti(e).Some? {
        IssuingInv(c, cfg, st, e, now);
      } else if e.AskTier? || e.ReadSession? || e.ReadKey? || e.ReadChallenge? {
        ReadingInv(c, cfg, st, e, now);
      } else {
        RemovingInv(c, cfg, st, e, now);
      }
    }
  }

  /** The events that take a session's keys away. */
  predicate Removes(st: Store, e: Event, id: string) {
    || (e.Revoke? && e.sessionId == id)
    || (e.Delete? && e.sessionId == id)
    || (e.RevokeAll? && id in SessionsOf(st, e.userId))
  }

  lemma EffectKeepsKeys(st: Store, e: Event, now: int, st': Store, a: Answer, slot: Slot)
    requires IsHandler(e) && Effect(st, e, now, st', a) && slot in st.slots
    ensures slot in st'.slots && st'.slots[slot] == st.slots[slot]
  {}

  /** A filled slot keeps its key through every event that does not remove the session. */
  lemma StepKeepsKeys(c: Primitives, cfg: Config, st: Store, e: Event, now: int, slot: Slot)
    requires slot in st.slots && !Removes(st, e, slot.sessionId)
    ensures var st' := Step(c, cfg, st, e, now).0; slot in st'.slots && st'.slots[slot] == st.slots[slot]
  {
    if IsHandler(e) {
      HandlerEffect(c, cfg, st, e, now);
      var (st', a) := Step(c, cfg, st, e, now);
      EffectKeepsKeys(st, e, now, st', a, slot);
    }
  }

  predicate NativeRestores(e: Event, a: Answer, id: string) {
    e.NativeRefresh? && e.token.sessionId == id && Succeeded(a)
  }

  lemma EffectKeepsDemoted(st: Store, e: Event, now: int, st': Store, a: Answer, id: string)
    requires Inv(st) && Demoted(st, id) && IsHandler(e) && Effect(st, e, now, st', a)
    requires !NativeRestores(e, a, id)
    ensures id in st'.sessions ==> st'.sessions[id].tier == TierNone
  {}

  /** A demoted session that holds a native key stays demoted, except by a native refresh. */
  lemma StepKeepsDemoted(c: Primitives, cfg: Config, st: Store, e: Event, now: int, id: string)
    requires Inv(st) && Demoted(st, id) && !Removes(st, e, id)
    requires !NativeRestores(e, Step(c, cfg, st, e, now).1, id)
    ensures Demoted(Step(c, cfg, st, e, now).0, id)
  {
    StepKeepsKeys(c, cfg, st, e, now, Slot(id, Native));
    if IsHandler(e) {
      HandlerEffect(c, cfg, st, e, now);
      var (st', a) := Step(c, cfg, st, e, now);
      EffectKeepsDemoted(st, e, now, st', a, id);
    }
  }

  // ---------------------------------------------------------------- isolation

  /** The session an event works for, where it works for one. */
  function Owner(e: Event): Option<string> {
    match e
    case Bind(id, _, _, _) => Some(id)
    case Issue(id, _, _) => Some(id)
    case AskState(id, _) => Some(id)
    case AskTier(id) => Some(id)
    case ReadSession(id) => Some(id)
    case Revoke(id) => Some(id)
    case Delete(id) => Some(id)
    case Register(_) => Some(SessionOf(e))
    case NativeRefresh(_) => Some(SessionOf(e))
    case RegisterBound(_) => Some(SessionOf(e))
    case RefreshBound(_) => Some(SessionOf(e))
    case _ => None
  }

  ghost predicate SameRowsBut(st: Store, st': Store, id: string) {
    && st'.sessions - {id} == st.sessions - {id}
    && st'.revoked - {id} == st.revoked - {id}
  }

  ghost predicate SameSlotsBut(st: Store, st': Store, id: string) {
    st'.slots - {Slot(id, Native), Slot(id, Bound)} == st.slots - {Slot(id, Native), Slot(id, Bound)}
  }

  ghost predicate SameChallengesBut(st: Store, st': Store, id: string, now: int) {
    && (forall jti <- st.challenges | st.challenges[jti].sessionId != id ::
          if jti in st'.challenges then st'.challenges[jti] == st.challenges[jti]
          else now > st.challenges[jti].expiresAt)
    && (forall jti <- st'.challenges | jti !in st.challenges :: st'.challenges[jti].sessionId == id)
  }

  /** Nothing but one session's row, slots and challenges differs, up to evicting expired challenges. */
  ghost predicate OnlyTouches(st: Store, st': Store, id: string, now: int) {
    SameRowsBut(st, st', id) && SameSlotsBut(st, st', id) && SameChallengesBut(st, st', id, now)
  }

  lemma SpendTouches(st: Store, jti: string, id: string, now: int)
    requires Named(st) && Usable(st, jti, id, now)
    ensures Named(Spend(st, jti)) && OnlyTouches(st, Spend(st, jti), id, now)
  {}

  lemma RewriteTouches(st: Store, id: string, now: int)
    requires Named(st)
    ensures SameRowsBut(st, Promote(st, id, now), id) && Promote(st, id, now).(sessions := st.sessions) == st
    ensures SameRowsBut(st, PromoteBound(st, id, now), id) && PromoteBound(st, id, now).(sessions := st.sessions) == st
    ensures SameRowsBut(st, Demote(st, id, now), id) && Demote(st, id, now).(sessions := st.sessions) == st
  {}

  lemma EvictionIsolated(st: Store, st': Store, jti: string, id: string, now: int)
    requires EvictsOnly(st, st', jti, now)
    ensures OnlyTouches(st, st', id, now)
  {}

  lemma SetKeyTouches(st: Store, key: BoundKey)
    requires Named(st)
    ensures Named(SetBoundKey(st, key)) && SameSlotsBut(st, SetBoundKey(st, key), key.sessionId)
  {
    assert key.kind == Native || key.kind == Bound;
  }

  /** A chain of a challenge spent, perhaps a key set, and the row rewritten. */
  lemma ChainTouches(st: Store, spent: Store, keyed: Store, last: Store, id: string, now: int)
    requires OnlyTouches(st, spent, id, now)
    requires SameSlotsBut(spent, keyed, id) && keyed.(slots := spent.slots) == spent
    requires SameRowsBut(keyed, last, id) && last.(sessions := keyed.sessions) == keyed
    ensures OnlyTouches(st, last, id, now)
  {}

  lemma EffectIsolated(st: Store, e: Event, now: int, st': Store, a: Answer)
    requires Named(st) && IsHandler(e) && Effect(st, e, now, st', a)
    ensures OnlyTouches(st, st', SessionOf(e), now)
  {
    var id, spent := SessionOf(e), Spend(st, JtiOf(e));
    if Succeeded(a) && a.KeyAnswer? {
      SpendTouches(st, JtiOf(e), id, now);
      SetKeyTouches(spent, a.key.value);
      RewriteTouches(SetBoundKey(spent, a.key.value), id, now);
      ChainTouches(st, spent, SetBoundKey(spent, a.key.value), st', id, now);
    } else if Succeeded(a) || Burned(e, a, now) {
      SpendTouches(st, JtiOf(e), id, now);
      RewriteTouches(spent, id, now);
      ChainTouches(st, spent, spent, st', id, now);
    } else {
      EvictionIsolated(st, st', JtiOf(e), id, now);
    }
  }

  lemma IssuingIsolated(c: Primitives, cfg: Config, st: Store, e: Event, now: int, id: string)
    requires Named(st) && Owner(e) == Some(id) && IssuedJti(e).Some? && IssuedJti(e).value !in st.challenges
    ensures OnlyTouches(st, Step(c, cfg, st, e, now).0, id, now)
  {}

  lemma PlainIsolated(c: Primitives, cfg: Config, st: Store, e: Event, now: int, id: string)
    requires Named(st) && Owner(e) == Some(id) && !IsHandler(e) && IssuedJti(e).None?
    ensures OnlyTouches(st, Step(c, cfg, st, e, now).0, id, now)
  {}

  lemma StepIsolated(c: Primitives, cfg: Config, st: Store, e: Event, now: int, id: string)
    requires Named(st) && Owner(e) == Some(id)
    requires IssuedJti(e).Some? ==> IssuedJti(e).value !in st.challenges
    ensures OnlyTouches(st, Step(c, cfg, st, e, now).0, id, now)
  {
    if IsHandler(e) {
      HandlerEffect(c, cfg, st, e, now);
      var (st', a) := Step(c, cfg, st, e, now);
      EffectIsolated(st, e, now, st', a);
    } else {
      if IssuedJti(e).Some? {
        IssuingIsolated(c, cfg, st, e, now, id);
      } else {
        PlainIsolated(c, cfg, st, e, now, id);
      }
    }
  }

  /** Revoking a user removes exactly that user's stored sessions and their slots, and nothing else. */
  lemma RevokeAllExact(st: Store, user: string)
    ensures var st' := RevokeAllForUser(st, user);
      && (forall id :: id in st'.sessions <==> id in st.sessions && st.sessions[id].userId != user)
      && (forall id <- st'.sessions :: st'.sessions[id] == st.sessions[id])
      && (forall slot :: slot in st'.slots <==>
            slot in st.slots && !(slot.sessionId in st.sessions && st.sessions[slot.sessionId].userId == user))
      && (forall slot <- st'.slots :: st'.slots[slot] == st.slots[slot])
      && st'.challenges == st.challenges
      && (forall id :: id in st'.revoked <==>
            id in st.revoked || (id in st.sessions && st.sessions[id].userId == user))
  {}

  /** Revoking or deleting a session removes its row and both its keys, nothing else; only the revoked are recorded. */
  lemma RemovesExactly(c: Primitives, cfg: Config, st: Store, e: Event, now: int, id: string)
    requires e == Revoke(id) || e == Delete(id)
    ensures var st' := Step(c, cfg, st, e, now).0;
      && (forall other :: other in st'.sessions <==> other in st.sessions && other != id)
      && (forall other <- st'.sessions :: st'.sessions[other] == st.sessions[other])
      && (forall slot :: slot in st'.slots <==> slot in st.slots && slot.sessionId != id)
      && (forall slot <- st'.slots :: st'.slots[slot] == st.slots[slot])
      && st'.challenges == st.challenges
      && (forall other :: other in st'.revoked <==> other in st.revoked || (other == id && e.Revoke?))
  {
    forall slot: Slot | slot.sessionId == id
      ensures slot == Slot(id, Native) || slot == Slot(id, Bound)
    {
      assert slot.kind == Native || slot.kind == Bound;
    }
  }

  /** A sweep removes exactly the rows and the challenges whose time is over. */
  lemma SweepsExactly(c: Primitives, cfg: Config, st: Store, now: int)
    ensures var st' := Step(c, cfg, st, Sweep, now).0;
      && (forall id :: id in st'.sessions <==> id in st.sessions && st.sessions[id].expiresAt >= now)
      && (forall id <- st'.sessions :: st'.sessions[id] == st.sessions[id])
      && (forall jti :: jti in st'.challenges <==> jti in st.challenges && st.challenges[jti].expiresAt >= now)
      && (forall jti <- st'.challenges :: st'.challenges[jti] == st.challenges[jti])
      && st'.slots == st.slots && st'.revoked == st.revoked
  {}

  // ---------------------------------------------------------------- runs

  datatype Timed = Timed(event: Event, now: int)

  type Run = seq<Timed>

  /** The store after a run from the empty store. */
  function After(c: Primitives, cfg: Config, run: Run): Store {
    if run == [] then EMPTY
    else
      var last := run[|run| - 1];
      Step(c, cfg, After(c, cfg, run[..|run| - 1]), last.event, last.now).0
  }

  /** The answer to the last call of a run. */
  function LastAnswer(c: Primitives, cfg: Config, run: Run): Answer
    requires run != []
  {
    var last := run[|run| - 1];
    Step(c, cfg, After(c, cfg, run[..|run| - 1]), last.event, last.now).1
  }

  /** The answer to call i of a run. */
  function AnswerAt(c: Primitives, cfg: Config, run: Run, i: nat): Answer
    requires i < |run|
  {
    LastAnswer(c, cfg, run[..i + 1])
  }

  ghost predicate ClockNondecreasing(run: Run) {
    forall i, j :: 0 <= i < j < |run| ==> run[i].now <= run[j].now
  }

  /** Every issued challenge has a name of its own: 32 random bytes never repeat. */
  ghost predicate FreshJtis(run: Run) {
    forall i, j :: 0 <= i < j < |run| && IssuedJti(run[i].event).Some? ==>
      IssuedJti(run[i].event) != IssuedJti(run[j].event)
  }

  /** Strong tier invariant, for every run. */
  lemma {:induction false} TierInvariant(c: Primitives, cfg: Config, run: Run)
    ensures Inv(After(c, cfg, run))
  {
    if run != [] {
      var prefix, last := run[..|run| - 1], run[|run| - 1];
      TierInvariant(c, cfg, prefix);
      StepInv(c, cfg, After(c, cfg, prefix), last.event, last.now);
    }
  }

  /** Write-once: from a point where a slot is filled, no later event but a removal changes it. */
  lemma {:induction false} KeysWriteOnce(c: Primitives, cfg: Config, run: Run, from: nat, slot: Slot)
    requires from <= |run| && slot in After(c, cfg, run[..from]).slots
    requires forall i :: from <= i < |run| ==> !Removes(After(c, cfg, run[..i]), run[i].event, slot.sessionId)
    ensures slot in After(c, cfg, run).slots
    ensures After(c, cfg, run).slots[slot] == After(c, cfg, run[..from]).slots[slot]
  {
    if from == |run| {
      assert run[..from] == run;
    } else {
      var prefix, last := run[..|run| - 1], run[|run| - 1];
      assert forall i | 0 <= i <= |prefix| :: prefix[..i] == run[..i];
      KeysWriteOnce(c, cfg, prefix, from, slot);
      StepKeepsKeys(c, cfg, After(c, cfg, prefix), last.event, last.now, slot);
    }
  }

  /** The session holds a native key and its row, where there is one, reads none. */
  ghost predicate Demoted(st: Store, id: string) {
    Slot(id, Native) in st.slots && (id in st.sessions ==> st.sessions[id].tier == TierNone)
  }

  /** Call i of a run neither removes the session nor restores it natively. */
  ghost predicate Quiet(c: Primitives, cfg: Config, run: Run, i: nat, id: string)
    requires i < |run|
  {
    && !Removes(After(c, cfg, run[..i]), run[i].event, id)
    && !NativeRestores(run[i].event, AnswerAt(c, cfg, run, i), id)
  }

  lemma QuietPrefix(c: Primitives, cfg: Config, run: Run, i: nat, id: string)
    requires i < |run| - 1 && Quiet(c, cfg, run, i, id)
    ensures Quiet(c, cfg, run[..|run| - 1], i, id)
  {
    assert run[..|run| - 1][..i] == run[..i] && run[..|run| - 1][..i + 1] == run[..i + 1];
  }

  lemma QuietLast(c: Primitives, cfg: Config, run: Run, id: string)
    requires run != [] && Quiet(c, cfg, run, |run| - 1, id) && Demoted(After(c, cfg, run[..|run| - 1]), id)
    ensures Demoted(After(c, cfg, run), id)
  {
    var prefix, last := run[..|run| - 1], run[|run| - 1];
    TierInvariant(c, cfg, prefix);
    assert run[..|run|] == run;
    StepKeepsDemoted(c, cfg, After(c, cfg, prefix), last.event, last.now, id);
  }

  /** A session demoted while it holds a native key stays at none until a native refresh succeeds. */
  lemma {:induction false} DemotionSticks(c: Primitives, cfg: Config, run: Run, from: nat, id: string)
    requires from <= |run| && Demoted(After(c, cfg, run[..from]), id)
    requires forall i :: from <= i < |run| ==> Quiet(c, cfg, run, i, id)
    ensures Demoted(After(c, cfg, run), id)
  {
    if from == |run| {
      assert run[..from] == run;
    } else {
      var prefix := run[..|run| - 1];
      assert prefix[..from] == run[..from];
      forall i | from <= i < |prefix|
        ensures Quiet(c, cfg, prefix, i, id)
      {
        QuietPrefix(c, cfg, run, i, id);
      }
      DemotionSticks(c, cfg, prefix, from, id);
      QuietLast(c, cfg, run, id);
    }
  }
}
