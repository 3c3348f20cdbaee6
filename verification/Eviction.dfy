/**
 * Eviction is invisible: sweeping expired rows at any points of a handler-atomic run changes
 * no answer, as long as no revocation by user meets a key whose session row has expired.
 */
module Eviction {
  import opened Basics
  import opened Model
  import opened Crypto
  import opened Handlers
  import opened AtomicRuns
  import Acceptance

  function LiveRow(rows: map<string, Session>, id: string, now: int): Option<Session> {
    if id in rows && now <= rows[id].expiresAt then Some(rows[id]) else None
  }

  function LiveNonce(rows: map<string, Challenge>, jti: string, now: int): Option<Challenge> {
    if jti in rows && now <= rows[jti].expiresAt then Some(rows[jti]) else None
  }

  /** Every read gives the same answer on both stores. The revoked set is never read. */
  ghost predicate Alike(a: Store, b: Store, now: int) {
    && (forall id :: LiveRow(a.sessions, id, now) == LiveRow(b.sessions, id, now))
    && (forall jti :: LiveNonce(a.challenges, jti, now) == LiveNonce(b.challenges, jti, now))
    && a.slots == b.slots
  }

  /** Alike means what the storage reads say: the same sessions, challenges and keys. */
  lemma AlikeReads(a: Store, b: Store, now: int)
    ensures Alike(a, b, now) <==>
      && (forall id :: GetSession(a, id, now).1 == GetSession(b, id, now).1)
      && (forall jti :: GetChallenge(a, jti, now).1 == GetChallenge(b, jti, now).1)
      && (forall slot :: GetBoundKey(a, slot) == GetBoundKey(b, slot))
  {
    assert forall st, id :: GetSession(st, id, now).1 == LiveRow(st.sessions, id, now);
    assert forall st, jti :: GetChallenge(st, jti, now).1 == LiveNonce(st.challenges, jti, now);
    if forall slot :: GetBoundKey(a, slot) == GetBoundKey(b, slot) {
      assert forall slot :: slot in a.slots <==> GetBoundKey(a, slot).Some?;
      assert forall slot :: slot in b.slots <==> GetBoundKey(b, slot).Some?;
      assert a.slots == b.slots;
    }
  }

  lemma LiveSession(a: Store, b: Store, id: string, now: int)
    requires Alike(a, b, now)
    ensures GetSession(a, id, now).1 == GetSession(b, id, now).1
    ensures Alike(GetSession(a, id, now).0, GetSession(b, id, now).0, now)
  {
    assert GetSession(a, id, now).1 == LiveRow(a.sessions, id, now) == LiveRow(b.sessions, id, now);
    assert forall x :: LiveRow(GetSession(a, id, now).0.sessions, x, now) == LiveRow(a.sessions, x, now);
    assert forall x :: LiveRow(GetSession(b, id, now).0.sessions, x, now) == LiveRow(b.sessions, x, now);
  }

  lemma LiveChallenge(a: Store, b: Store, jti: string, now: int)
    requires Alike(a, b, now)
    ensures GetChallenge(a, jti, now).1 == GetChallenge(b, jti, now).1 == LiveNonce(a.challenges, jti, now)
    ensures Alike(GetChallenge(a, jti, now).0, GetChallenge(b, jti, now).0, now)
  {
    assert GetChallenge(a, jti, now).1 == LiveNonce(a.challenges, jti, now) == LiveNonce(b.challenges, jti, now);
    assert forall x :: LiveNonce(GetChallenge(a, jti, now).0.challenges, x, now) == LiveNonce(a.challenges, x, now);
    assert forall x :: LiveNonce(GetChallenge(b, jti, now).0.challenges, x, now) == LiveNonce(b.challenges, x, now);
  }

  /** After the read that found it, consuming a challenge works alike on both stores. */
  lemma LiveConsume(a: Store, b: Store, jti: string, now: int)
    requires Alike(a, b, now) && LiveNonce(a.challenges, jti, now).Some?
    ensures ConsumeChallenge(a, jti).1 == ConsumeChallenge(b, jti).1
    ensures Alike(ConsumeChallenge(a, jti).0, ConsumeChallenge(b, jti).0, now)
  {
    assert LiveNonce(a.challenges, jti, now) == LiveNonce(b.challenges, jti, now);
    var a', b' := ConsumeChallenge(a, jti).0, ConsumeChallenge(b, jti).0;
    assert forall x | x != jti :: LiveNonce(a'.challenges, x, now) == LiveNonce(a.challenges, x, now);
    assert forall x | x != jti :: LiveNonce(b'.challenges, x, now) == LiveNonce(b.challenges, x, now);
    assert LiveNonce(a'.challenges, jti, now) == LiveNonce(b'.challenges, jti, now);
  }

  lemma LiveSetSession(a: Store, b: Store, s: Session, now: int)
    requires Alike(a, b, now)
    ensures Alike(SetSession(a, s), SetSession(b, s), now)
  {
    var a', b' := SetSession(a, s), SetSession(b, s);
    assert forall x | x != s.id :: LiveRow(a'.sessions, x, now) == LiveRow(a.sessions, x, now);
    assert forall x | x != s.id :: LiveRow(b'.sessions, x, now) == LiveRow(b.sessions, x, now);
    assert LiveRow(a'.sessions, s.id, now) == LiveRow(b'.sessions, s.id, now);
  }

  lemma LiveSetChallenge(a: Store, b: Store, ch: Challenge, now: int)
    requires Alike(a, b, now)
    ensures Alike(SetChallenge(a, ch), SetChallenge(b, ch), now)
  {
    var a', b' := SetChallenge(a, ch), SetChallenge(b, ch);
    assert forall x | x != ch.jti :: LiveNonce(a'.challenges, x, now) == LiveNonce(a.challenges, x, now);
    assert forall x | x != ch.jti :: LiveNonce(b'.challenges, x, now) == LiveNonce(b.challenges, x, now);
    assert LiveNonce(a'.challenges, ch.jti, now) == LiveNonce(b'.challenges, ch.jti, now);
  }

  lemma LiveSetKey(a: Store, b: Store, key: BoundKey, now: int)
    requires Alike(a, b, now)
    ensures Alike(SetBoundKey(a, key), SetBoundKey(b, key), now)
  {}

  lemma LiveRewrite(a: Store, b: Store, id: string, now: int, update: Session -> Session)
    requires Alike(a, b, now)
    ensures Alike(Rewrite(a, id, now, update), Rewrite(b, id, now, update), now)
  {
    LiveSession(a, b, id, now);
    var sa, sb := GetSession(a, id, now), GetSession(b, id, now);
    if sa.1.Some? {
      LiveSetSession(sa.0, sb.0, update(sa.1.value), now);
    }
  }

  lemma LiveTiers(a: Store, b: Store, id: string, now: int)
    requires Alike(a, b, now)
    ensures Alike(Promote(a, id, now), Promote(b, id, now), now)
    ensures Alike(PromoteBound(a, id, now), PromoteBound(b, id, now), now)
    ensures Alike(Demote(a, id, now), Demote(b, id, now), now)
  {
    var hasNative := Slot(id, Native) in a.slots;
    LiveRewrite(a, b, id, now, (s: Session) => s.(tier := TierDbsc, lastRefreshAt := now));
    LiveRewrite(a, b, id, now, (s: Session) => s.(tier := TierNone));
    LiveRewrite(a, b, id, now,
                (s: Session) => s.(tier := if hasNative then s.tier else TierBound, lastRefreshAt := now));
  }

  /** The shared tail of the handlers: the challenge read, spent, and the tiers rewritten. */
  lemma LiveTail(a: Store, b: Store, jti: string, id: string, now: int)
    requires Alike(a, b, now)
    ensures var (a1, cha) := GetChallenge(a, jti, now); var (b1, chb) := GetChallenge(b, jti, now);
      && cha == chb && Alike(a1, b1, now) && a1.slots == b1.slots
      && (cha.Some? ==>
            var (a2, oka) := ConsumeChallenge(a1, jti); var (b2, okb) := ConsumeChallenge(b1, jti);
            && oka == okb && Alike(a2, b2, now)
            && Alike(Promote(a2, id, now), Promote(b2, id, now), now)
            && Alike(PromoteBound(a2, id, now), PromoteBound(b2, id, now), now)
            && Alike(Demote(a2, id, now), Demote(b2, id, now), now))
  {
    LiveChallenge(a, b, jti, now);
    var (a1, cha) := GetChallenge(a, jti, now);
    var (b1, chb) := GetChallenge(b, jti, now);
    if cha.Some? {
      LiveConsume(a1, b1, jti, now);
      LiveTiers(ConsumeChallenge(a1, jti).0, ConsumeChallenge(b1, jti).0, id, now);
    }
  }

  lemma LiveKeyed(a: Store, b: Store, key: BoundKey, id: string, now: int)
    requires Alike(a, b, now)
    ensures Alike(Promote(SetBoundKey(a, key), id, now), Promote(SetBoundKey(b, key), id, now), now)
    ensures Alike(PromoteBound(SetBoundKey(a, key), id, now), PromoteBound(SetBoundKey(b, key), id, now), now)
  {
    LiveSetKey(a, b, key, now);
    LiveTiers(SetBoundKey(a, key), SetBoundKey(b, key), id, now);
  }

  lemma RegistrationBlind(c: Primitives, a: Store, b: Store, req: TokenRequest, now: int)
    requires Alike(a, b, now)
    ensures Registration(c, a, req, now).1 == Registration(c, b, req, now).1
    ensures Alike(Registration(c, a, req, now).0, Registration(c, b, req, now).0, now)
  {
    LiveTail(a, b, req.expectedJti, req.sessionId, now);
    var answer := Registration(c, a, req, now).1;
    if answer.Success? {
      var a2 := ConsumeChallenge(GetChallenge(a, req.expectedJti, now).0, req.expectedJti).0;
      var b2 := ConsumeChallenge(GetChallenge(b, req.expectedJti, now).0, req.expectedJti).0;
      LiveKeyed(a2, b2, answer.value, req.sessionId, now);
    }
  }

  lemma BoundRegistrationBlind(c: Primitives, a: Store, b: Store, req: BoundRegistrationRequest, now: int)
    requires Alike(a, b, now)
    ensures BoundRegistration(c, a, req, now).1 == BoundRegistration(c, b, req, now).1
    ensures Alike(BoundRegistration(c, a, req, now).0, BoundRegistration(c, b, req, now).0, now)
  {
    LiveTail(a, b, req.expectedJti, req.sessionId, now);
    var answer := BoundRegistration(c, a, req, now).1;
    if answer.Success? {
      var a2 := ConsumeChallenge(GetChallenge(a, req.expectedJti, now).0, req.expectedJti).0;
      var b2 := ConsumeChallenge(GetChallenge(b, req.expectedJti, now).0, req.expectedJti).0;
      LiveKeyed(a2, b2, answer.value, req.sessionId, now);
    }
  }

  lemma RefreshBlind(c: Primitives, a: Store, b: Store, req: TokenRequest, now: int)
    requires Alike(a, b, now)
    ensures Refresh(c, a, req, now).1 == Refresh(c, b, req, now).1
    ensures Alike(Refresh(c, a, req, now).0, Refresh(c, b, req, now).0, now)
  {
    LiveTail(a, b, req.expectedJti, req.sessionId, now);
  }

  lemma BoundRefreshBlind(c: Primitives, a: Store, b: Store, req: BoundRefreshRequest, now: int)
    requires Alike(a, b, now)
    ensures BoundRefresh(c, a, req, now).1 == BoundRefresh(c, b, req, now).1
    ensures Alike(BoundRefresh(c, a, req, now).0, BoundRefresh(c, b, req, now).0, now)
  {
    LiveTail(a, b, req.expectedJti, req.sessionId, now);
    if a.slots == b.slots && Slot(req.sessionId, Bound) in a.slots {
      LiveChallenge(a, b, req.expectedJti, now);
    }
  }

  lemma BindBlind(a: Store, b: Store, id: string, user: string, ttl: int, jti: string, now: int)
    requires Alike(a, b, now)
    ensures Alike(BindSession(a, id, user, ttl, jti, now), BindSession(b, id, user, ttl, jti, now), now)
  {
    LiveSession(a, b, id, now);
    var a1, b1 := GetSession(a, id, now), GetSession(b, id, now);
    var s := NewSession(id, user, ttl, now);
    LiveSetSession(a1.0, b1.0, s, now);
    var ch := NewChallenge(id, jti, CHALLENGE_TTL_MS, now);
    var a2 := if a1.1.None? then SetSession(a1.0, s) else a1.0;
    var b2 := if b1.1.None? then SetSession(b1.0, s) else b1.0;
    LiveSetChallenge(a2, b2, ch, now);
  }

  lemma StateBlind(a: Store, b: Store, id: string, jti: string, now: int)
    requires Alike(a, b, now)
    ensures StateRoute(a, id, jti, now).1 == StateRoute(b, id, jti, now).1
    ensures Alike(StateRoute(a, id, jti, now).0, StateRoute(b, id, jti, now).0, now)
  {
    LiveSession(a, b, id, now);
    var a1, b1 := GetSession(a, id, now).0, GetSession(b, id, now).0;
    LiveSetChallenge(a1, b1, NewChallenge(id, jti, CHALLENGE_TTL_MS, now), now);
  }

  lemma DeleteBlind(a: Store, b: Store, id: string, now: int)
    requires Alike(a, b, now)
    ensures Alike(DeleteSession(a, id), DeleteSession(b, id), now)
    ensures Alike(RevokeSession(a, id), RevokeSession(b, id), now)
  {
    forall x
      ensures LiveRow(DeleteSession(a, id).sessions, x, now) == if x == id then None else LiveRow(a.sessions, x, now)
      ensures LiveRow(DeleteSession(b, id).sessions, x, now) == if x == id then None else LiveRow(b.sessions, x, now)
    {}
  }

  lemma SweepBlind(st: Store, now: int)
    ensures Alike(Gc(st, now), st, now)
  {}

  /** Stores that look alike answer alike, and still look alike afterwards. */
  lemma StepBlind(c: Primitives, cfg: Config, a: Store, b: Store, e: Event, now: int)
    requires Alike(a, b, now) && !e.RevokeAll?
    ensures Step(c, cfg, a, e, now).1 == Step(c, cfg, b, e, now).1
    ensures Alike(Step(c, cfg, a, e, now).0, Step(c, cfg, b, e, now).0, now)
  {
    match e
    case Bind(id, user, ttl, jti) => BindBlind(a, b, id, user, ttl, jti, now);
    case Issue(id, jti, ttl) => LiveSetChallenge(a, b, NewChallenge(id, jti, ttl, now), now);
    case Register(req) => RegistrationBlind(c, a, b, req, now);
    case NativeRefresh(req) => RefreshBlind(c, a, b, req, now);
    case RegisterBound(req) => BoundRegistrationBlind(c, a, b, req, now);
    case RefreshBound(req) => BoundRefreshBlind(c, a, b, req, now);
    case AskState(id, jti) => StateBlind(a, b, id, jti, now);
    case AskTier(id) => LiveSession(a, b, id, now);
    case ReadSession(id) => LiveSession(a, b, id, now);
    case ReadKey(_) =>
    case ReadChallenge(jti) => LiveChallenge(a, b, jti, now);
    case Revoke(id) => DeleteBlind(a, b, id, now);
    case Delete(id) => DeleteBlind(a, b, id, now);
    case Sweep => SweepBlind(a, now); SweepBlind(b, now);
  }

  lemma AlikeLater(a: Store, b: Store, now: int, later: int)
    requires Alike(a, b, now) && now <= later
    ensures Alike(a, b, later)
  {
    forall id
      ensures LiveRow(a.sessions, id, later) == LiveRow(b.sessions, id, later)
    {
      assert LiveRow(a.sessions, id, now) == LiveRow(b.sessions, id, now);
    }
    forall jti
      ensures LiveNonce(a.challenges, jti, later) == LiveNonce(b.challenges, jti, later)
    {
      assert LiveNonce(a.challenges, jti, now) == LiveNonce(b.challenges, jti, now);
    }
  }

  // ---------------------------------------------------------------- revoking by user

  /** An expired row of the user is still stored, and its session still holds a key. */
  ghost predicate StaleKeyOf(st: Store, user: string, now: int) {
    exists slot <- st.slots ::
      && slot.sessionId in st.sessions
      && st.sessions[slot.sessionId].userId == user
      && now > st.sessions[slot.sessionId].expiresAt
  }

  /**
   * A sweep just before revokeAllForUser can be noticed exactly when an expired row of that user
   * is still stored with a key: the revocation finds the key by the row, and the sweep drops the row.
   */
  lemma RevokeAllSeesEviction(st: Store, user: string, now: int)
    ensures Alike(RevokeAllForUser(Gc(st, now), user), RevokeAllForUser(st, user), now) <==> !StaleKeyOf(st, user, now)
  {
    var a, b := RevokeAllForUser(Gc(st, now), user), RevokeAllForUser(st, user);
    assert forall id :: LiveRow(a.sessions, id, now) == LiveRow(b.sessions, id, now);
    assert forall jti :: LiveNonce(a.challenges, jti, now) == LiveNonce(b.challenges, jti, now);
    if StaleKeyOf(st, user, now) {
      var slot :| slot in st.slots && slot.sessionId in st.sessions
        && st.sessions[slot.sessionId].userId == user && now > st.sessions[slot.sessionId].expiresAt;
      assert slot in a.slots && slot !in b.slots;
    } else {
      assert a.slots == b.slots;
    }
  }

  /** Without such a key on either side, the revocation itself is blind. */
  lemma RevokeAllBlind(a: Store, b: Store, user: string, now: int)
    requires Alike(a, b, now) && !StaleKeyOf(a, user, now) && !StaleKeyOf(b, user, now)
    ensures Alike(RevokeAllForUser(a, user), RevokeAllForUser(b, user), now)
  {
    RevokeAllRows(a, user, now);
    RevokeAllRows(b, user, now);
    forall slot | slot in a.slots
      ensures slot in RevokeAllForUser(a, user).slots <==> slot in RevokeAllForUser(b, user).slots
    {
      var id := slot.sessionId;
      assert LiveRow(a.sessions, id, now) == LiveRow(b.sessions, id, now);
      assert id in a.sessions && a.sessions[id].userId == user ==> LiveRow(a.sessions, id, now).Some?;
      assert id in b.sessions && b.sessions[id].userId == user ==> LiveRow(b.sessions, id, now).Some?;
    }
  }

  function NotOf(row: Option<Session>, user: string): Option<Session> {
    if row.Some? && row.value.userId == user then None else row
  }

  lemma RevokeAllRows(st: Store, user: string, now: int)
    ensures forall id ::
      LiveRow(RevokeAllForUser(st, user).sessions, id, now) == NotOf(LiveRow(st.sessions, id, now), user)
  {}

  // ---------------------------------------------------------------- runs

  function WithoutSweeps(run: Run): Run {
    if run == [] then []
    else WithoutSweeps(run[..|run| - 1]) + if run[|run| - 1].event.Sweep? then [] else [run[|run| - 1]]
  }

  /** The answers of a run in order, sweeps aside. */
  function Answers(c: Primitives, cfg: Config, run: Run): seq<Answer> {
    if run == [] then []
    else Answers(c, cfg, run[..|run| - 1]) + if run[|run| - 1].event.Sweep? then [] else [LastAnswer(c, cfg, run)]
  }

  /** No revocation by user meets a stale key of that user, neither in the run nor in the run without its sweeps. */
  ghost predicate NoStaleRevocation(c: Primitives, cfg: Config, run: Run) {
    run != [] ==>
      var prefix, last := run[..|run| - 1], run[|run| - 1];
      && NoStaleRevocation(c, cfg, prefix)
      && (last.event.RevokeAll? ==>
            && !StaleKeyOf(After(c, cfg, prefix), last.event.userId, last.now)
            && !StaleKeyOf(After(c, cfg, WithoutSweeps(prefix)), last.event.userId, last.now))
  }

  /** Any event, where a revocation by user meets no stale key. */
  lemma EventBlind(c: Primitives, cfg: Config, a: Store, b: Store, e: Event, now: int)
    requires Alike(a, b, now)
    requires e.RevokeAll? ==> !StaleKeyOf(a, e.userId, now) && !StaleKeyOf(b, e.userId, now)
    ensures Step(c, cfg, a, e, now).1 == Step(c, cfg, b, e, now).1
    ensures Alike(Step(c, cfg, a, e, now).0, Step(c, cfg, b, e, now).0, now)
  {
    if e.RevokeAll? {
      RevokeAllBlind(a, b, e.userId, now);
    } else {
      StepBlind(c, cfg, a, b, e, now);
    }
  }

  /** An event that is no sweep ends the run without sweeps as it ends the run. */
  lemma LastKept(c: Primitives, cfg: Config, prefix: Run, last: Timed)
    requires !last.event.Sweep?
    ensures var kept, whole := WithoutSweeps(prefix), WithoutSweeps(prefix + [last]);
      var (st, answer) := Step(c, cfg, After(c, cfg, kept), last.event, last.now);
      After(c, cfg, whole) == st && Answers(c, cfg, whole) == Answers(c, cfg, kept) + [answer]
  {
    var run, kept := prefix + [last], WithoutSweeps(prefix);
    assert run[..|run| - 1] == prefix;
    assert (kept + [last])[..|kept + [last]| - 1] == kept;
  }

  lemma LastSwept(prefix: Run, last: Timed)
    requires last.event.Sweep?
    ensures WithoutSweeps(prefix + [last]) == WithoutSweeps(prefix)
  {
    assert (prefix + [last])[..|prefix|] == prefix;
  }

  /** Deleting every sweep from the run leaves all answers, and all later reads, as they were. */
  ghost predicate Invisible(c: Primitives, cfg: Config, run: Run, now: int) {
    && Answers(c, cfg, WithoutSweeps(run)) == Answers(c, cfg, run)
    && Alike(After(c, cfg, run), After(c, cfg, WithoutSweeps(run)), now)
  }

  lemma SweepStep(c: Primitives, cfg: Config, prefix: Run, last: Timed)
    requires last.event.Sweep?
    ensures After(c, cfg, prefix + [last]) == Gc(After(c, cfg, prefix), last.now)
    ensures Answers(c, cfg, prefix + [last]) == Answers(c, cfg, prefix)
  {
    assert (prefix + [last])[..|prefix|] == prefix;
  }

  lemma SweepInvisible(c: Primitives, cfg: Config, prefix: Run, last: Timed)
    requires last.event.Sweep? && Invisible(c, cfg, prefix, last.now)
    ensures Invisible(c, cfg, prefix + [last], last.now)
  {
    SweepBlind(After(c, cfg, prefix), last.now);
    SweepStep(c, cfg, prefix, last);
    LastSwept(prefix, last);
  }

  lemma OtherInvisible(c: Primitives, cfg: Config, prefix: Run, last: Timed)
    requires !last.event.Sweep? && Invisible(c, cfg, prefix, last.now)
    requires last.event.RevokeAll? ==>
      && !StaleKeyOf(After(c, cfg, prefix), last.event.userId, last.now)
      && !StaleKeyOf(After(c, cfg, WithoutSweeps(prefix)), last.event.userId, last.now)
    ensures Invisible(c, cfg, prefix + [last], last.now)
  {
    var run := prefix + [last];
    assert run[..|run| - 1] == prefix && run[|run| - 1] == last;
    EventBlind(c, cfg, After(c, cfg, prefix), After(c, cfg, WithoutSweeps(prefix)), last.event, last.now);
    LastKept(c, cfg, prefix, last);
  }

  lemma InvisibleLater(c: Primitives, cfg: Config, run: Run, now: int, later: int)
    requires Invisible(c, cfg, run, now) && now <= later
    ensures Invisible(c, cfg, run, later)
  {
    AlikeLater(After(c, cfg, run), After(c, cfg, WithoutSweeps(run)), now, later);
  }

  lemma EventInvisible(c: Primitives, cfg: Config, prefix: Run, last: Timed)
    requires Invisible(c, cfg, prefix, last.now) && NoStaleRevocation(c, cfg, prefix + [last])
    ensures Invisible(c, cfg, prefix + [last], last.now)
  {
    assert (prefix + [last])[..|prefix|] == prefix;
    if last.event.Sweep? {
      SweepInvisible(c, cfg, prefix, last);
    } else {
      OtherInvisible(c, cfg, prefix, last);
    }
  }

  lemma PrefixFits(c: Primitives, cfg: Config, run: Run)
    requires run != [] && ClockNondecreasing(run) && NoStaleRevocation(c, cfg, run)
    ensures var prefix, last := run[..|run| - 1], run[|run| - 1];
      && ClockNondecreasing(prefix) && NoStaleRevocation(c, cfg, prefix) && run == prefix + [last]
      && (prefix != [] ==> prefix[|prefix| - 1].now <= last.now)
  {}

  lemma NothingInvisible(c: Primitives, cfg: Config, now: int)
    ensures Invisible(c, cfg, [], now)
  {}

  lemma {:induction false} EvictionInvisible(c: Primitives, cfg: Config, run: Run, now: int)
    requires ClockNondecreasing(run) && (run != [] ==> run[|run| - 1].now <= now)
    requires NoStaleRevocation(c, cfg, run)
    ensures Invisible(c, cfg, run, now)
  {
    if run == [] {
      NothingInvisible(c, cfg, now);
    } else {
      var prefix, last := run[..|run| - 1], run[|run| - 1];
      PrefixFits(c, cfg, run);
      EvictionInvisible(c, cfg, prefix, last.now);
      EventInvisible(c, cfg, prefix, last);
      InvisibleLater(c, cfg, run, last.now, now);
    }
  }

  /** Two runs that differ only in where they sweep give the same answers. */
  lemma {:induction false} SweepsAnywhere(c: Primitives, cfg: Config, run: Run, other: Run)
    requires WithoutSweeps(run) == WithoutSweeps(other)
    requires ClockNondecreasing(run) && ClockNondecreasing(other)
    requires NoStaleRevocation(c, cfg, run) && NoStaleRevocation(c, cfg, other)
    ensures Answers(c, cfg, run) == Answers(c, cfg, other)
  {
    EvictionInvisible(c, cfg, run, if run == [] then 0 else run[|run| - 1].now);
    EvictionInvisible(c, cfg, other, if other == [] then 0 else other[|other| - 1].now);
  }

  /** A session that is bound, and then registers a polyfill key. */
  function RegisteredRun(reg: BoundRegistrationRequest, user: string, ttl: nat, t: int): Run {
    [Timed(Bind(reg.sessionId, user, ttl, reg.expectedJti), t), Timed(RegisterBound(reg), t)]
  }

  lemma RegisteredRunEnds(c: Primitives, cfg: Config, reg: BoundRegistrationRequest, user: string, ttl: nat, t: int)
    ensures var bound := BindSession(EMPTY, reg.sessionId, user, ttl, reg.expectedJti, t);
      After(c, cfg, RegisteredRun(reg, user, ttl, t)) == Step(c, cfg, bound, RegisterBound(reg), t).0
  {
    var run := RegisteredRun(reg, user, ttl, t);
    assert run[..1][..0] == [];
    assert After(c, cfg, run[..1]) == Step(c, cfg, EMPTY, run[0].event, t).0;
  }

  lemma RegisteredKeyIsStale(c: Primitives, cfg: Config, reg: BoundRegistrationRequest, user: string, ttl: nat, t: int,
                             now: int)
    requires Acceptance.WellFormed(RegisterBound(reg), t) && Acceptance.Possessed(c, EMPTY, RegisterBound(reg))
    requires now > t + ttl
    ensures var bound := BindSession(EMPTY, reg.sessionId, user, ttl, reg.expectedJti, t);
      StaleKeyOf(Step(c, cfg, bound, RegisterBound(reg), t).0, user, now)
  {
    var e, bound := RegisterBound(reg), BindSession(EMPTY, reg.sessionId, user, ttl, reg.expectedJti, t);
    BindInv(EMPTY, reg.sessionId, user, ttl, reg.expectedJti, t);
    Acceptance.SucceedsExactly(c, cfg, bound, e, t);
    Acceptance.RegistersPresented(c, cfg, bound, e, t);
    var st := Step(c, cfg, bound, e, t).0;
    assert Slot(reg.sessionId, Bound) in st.slots && st.sessions[reg.sessionId].userId == user;
  }

  /** Stale keys do come about: bind, register a polyfill key, and let the session row expire. */
  lemma StaleKeyReached(c: Primitives, cfg: Config, reg: BoundRegistrationRequest, user: string, ttl: nat, t: int,
                        now: int)
    requires Acceptance.WellFormed(RegisterBound(reg), t) && Acceptance.Possessed(c, EMPTY, RegisterBound(reg))
    requires now > t + ttl
    ensures ClockNondecreasing(RegisteredRun(reg, user, ttl, t))
    ensures var st := After(c, cfg, RegisteredRun(reg, user, ttl, t));
      && StaleKeyOf(st, user, now)
      && !Alike(RevokeAllForUser(Gc(st, now), user), RevokeAllForUser(st, user), now)
  {
    RegisteredKeyIsStale(c, cfg, reg, user, ttl, t, now);
    RegisteredRunEnds(c, cfg, reg, user, ttl, t);
    RevokeAllSeesEviction(After(c, cfg, RegisteredRun(reg, user, ttl, t)), user, now);
  }
}
