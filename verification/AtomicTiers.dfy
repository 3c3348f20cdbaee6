/**
 * What the middleware and the state route answer at the end of any run, both ways: which tier and
 * which phase, from the slots and the past alone, and how long a raised session keeps its answer.
 */
module AtomicTiers {
  import opened Model
  import opened Crypto
  import opened Handlers
  import opened AtomicRuns
  import opened AtomicHistory

  predicate LiveRow(st: Store, id: string, now: int) {
    id in st.sessions && now <= st.sessions[id].expiresAt
  }

  /** The last call of the run asks; before it the server is in this state. */
  function Before(c: Primitives, cfg: Config, run: Run): Store
    requires run != []
  {
    After(c, cfg, run[..|run| - 1])
  }

  // ---------------------------------------------------------------- the tier decision

  /**
   * The tier decision, exactly: none if and only if there is no live row, the stored tier is none or
   * its time is up; else dbsc if and only if the native slot is filled, and bound otherwise.
   */
  lemma TierExactly(c: Primitives, cfg: Config, run: Run, id: string)
    requires run != [] && run[|run| - 1].event == AskTier(id)
    ensures var st, now := Before(c, cfg, run), run[|run| - 1].now;
      LastAnswer(c, cfg, run) == TierReply(
        if !LiveRow(st, id, now) || st.sessions[id].tier == TierNone
           || now > st.sessions[id].lastRefreshAt + cfg.boundCookieTtl + cfg.refreshGraceMs
        then TierNone
        else if Slot(id, Native) in st.slots then TierDbsc
        else TierBound)
  {
    TierInvariant(c, cfg, run[..|run| - 1]);
  }

  /**
   * The same from the past: a tier is reported if and only if the row is live, the session was
   * raised after its row was started and after its last burn, and its last success is at most
   * the cookie lifetime plus the grace period old.
   */
  lemma TierByHistory(c: Primitives, cfg: Config, run: Run, id: string)
    requires run != [] && run[|run| - 1].event == AskTier(id)
    ensures var prefix, now := run[..|run| - 1], run[|run| - 1].now;
      var i := LastIndex(c, cfg, prefix, id, AnySuccess);
      LastAnswer(c, cfg, run) != TierReply(TierNone) <==>
        && LiveRow(After(c, cfg, prefix), id, now) && Raised(c, cfg, prefix, id)
        && i >= 0 && now <= run[i].now + cfg.boundCookieTtl + cfg.refreshGraceMs
  {
    TierExactly(c, cfg, run, id);
    RowsExact(c, cfg, run[..|run| - 1], id);
    RaisesSucceed(c, cfg, run[..|run| - 1], id);
  }

  // ---------------------------------------------------------------- the state route

  /**
   * The state route, exactly: the phase from the live row and the two slots, and the tier from the
   * past. A session with a native key reads dbsc unless it is to register its polyfill key and was
   * demoted; one without reads bound, unless it was demoted or never raised.
   */
  lemma StateExactly(c: Primitives, cfg: Config, run: Run, id: string, jti: string)
    requires run != [] && run[|run| - 1].event == AskState(id, jti)
    ensures var prefix, st, now := run[..|run| - 1], Before(c, cfg, run), run[|run| - 1].now;
      var native, bound := Slot(id, Native) in st.slots, Slot(id, Bound) in st.slots;
      LastAnswer(c, cfg, run) == StateReply(
        if !LiveRow(st, id, now) then Unbound
        else if bound then
          StateBound(if native then TierDbsc else if Raised(c, cfg, prefix, id) then TierBound else TierNone)
        else if native then NeedsBoundRegistration(if Raised(c, cfg, prefix, id) then TierDbsc else TierNone, jti)
        else NeedsRegistration(jti))
  {
    TierInvariant(c, cfg, run[..|run| - 1]);
    RowsExact(c, cfg, run[..|run| - 1], id);
  }

  // ---------------------------------------------------------------- how long an answer lasts

  lemma EffectKeepsRow(st: Store, e: Event, now: int, st': Store, a: Answer, id: string)
    requires Named(st) && IsHandler(e) && Effect(st, e, now, st', a) && LiveRow(st, id, now)
    ensures id in st'.sessions
  {}

  /** A live row stays through every event that does not remove the session. */
  lemma StepKeepsRow(c: Primitives, cfg: Config, st: Store, e: Event, now: int, id: string)
    requires Named(st) && LiveRow(st, id, now) && !Removes(st, e, id)
    ensures id in Step(c, cfg, st, e, now).0.sessions
  {
    if IsHandler(e) {
      HandlerEffect(c, cfg, st, e, now);
      var (st', a) := Step(c, cfg, st, e, now);
      EffectKeepsRow(st, e, now, st', a, id);
    }
  }

  /** The row is there with a tier, for the same time, and was refreshed no earlier than then. */
  ghost predicate Standing(st: Store, id: string, expiresAt: int, since: int) {
    && id in st.sessions && st.sessions[id].tier != TierNone
    && st.sessions[id].expiresAt == expiresAt && st.sessions[id].lastRefreshAt >= since
  }

  /** Event k neither removes the session nor burns one of its refreshes. */
  ghost predicate Harmless(c: Primitives, cfg: Config, run: Run, k: nat, id: string)
    requires k < |run|
  {
    !Removes(After(c, cfg, run[..k]), run[k].event, id) && !MarkedAt(c, cfg, run, k, id, TierBurn)
  }

  lemma HarmlessPrefix(c: Primitives, cfg: Config, run: Run, k: nat, id: string)
    requires k < |run| - 1 && Harmless(c, cfg, run, k, id)
    ensures Harmless(c, cfg, run[..|run| - 1], k, id)
  {
    MarkedPrefix(c, cfg, run, k, id, TierBurn);
    assert run[..|run| - 1][..k] == run[..k];
  }

  lemma StandingNext(c: Primitives, cfg: Config, run: Run, id: string, expiresAt: int, since: int)
    requires run != [] && Standing(Before(c, cfg, run), id, expiresAt, since)
    requires Harmless(c, cfg, run, |run| - 1, id) && since <= run[|run| - 1].now <= expiresAt
    ensures Standing(After(c, cfg, run), id, expiresAt, since)
  {
    var st, last := Before(c, cfg, run), run[|run| - 1];
    assert run[..|run|] == run;
    TierInvariant(c, cfg, run[..|run| - 1]);
    StepKeepsRow(c, cfg, st, last.event, last.now, id);
    StepRow(c, cfg, st, last.event, last.now, id);
  }

  lemma {:induction false} StandingOn(c: Primitives, cfg: Config, run: Run, from: nat, id: string, expiresAt: int,
                                      since: int)
    requires from <= |run| && Standing(After(c, cfg, run[..from]), id, expiresAt, since)
    requires forall k: nat :: from <= k < |run| ==> Harmless(c, cfg, run, k, id) && since <= run[k].now <= expiresAt
    ensures Standing(After(c, cfg, run), id, expiresAt, since)
  {
    if from == |run| {
      assert run[..from] == run;
    } else {
      var prefix := run[..|run| - 1];
      assert prefix[..from] == run[..from];
      forall k: nat | from <= k < |prefix|
        ensures Harmless(c, cfg, prefix, k, id) && prefix[k] == run[k]
      {
        HarmlessPrefix(c, cfg, run, k, id);
      }
      StandingOn(c, cfg, prefix, from, id, expiresAt, since);
      assert Harmless(c, cfg, run, |run| - 1, id);
      StandingNext(c, cfg, run, id, expiresAt, since);
    }
  }

  /** Call i of the run raises the tier of a live session, whose row expires then. */
  ghost predicate RaisesLive(c: Primitives, cfg: Config, run: Run, i: nat, id: string, expiresAt: int)
    requires i < |run|
  {
    && MarkedAt(c, cfg, run, i, id, TierRaise)
    && LiveRow(After(c, cfg, run[..i]), id, run[i].now)
    && After(c, cfg, run[..i]).sessions[id].expiresAt == expiresAt
  }

  lemma RaisedStands(c: Primitives, cfg: Config, run: Run, i: nat, id: string, expiresAt: int)
    requires i < |run| && RaisesLive(c, cfg, run, i, id, expiresAt)
    ensures Standing(After(c, cfg, run[..i + 1]), id, expiresAt, run[i].now)
  {
    var st := After(c, cfg, run[..i]);
    assert run[..i + 1][..i] == run[..i] && run[..i + 1][i] == run[i];
    TierInvariant(c, cfg, run[..i]);
    StepKeepsRow(c, cfg, st, run[i].event, run[i].now, id);
    StepRow(c, cfg, st, run[i].event, run[i].now, id);
  }

  /**
   * A session that was raised keeps its tier: until the row expires or the cookie lifetime plus the
   * grace period is over, and as long as nothing removes the session or burns a refresh of it, the
   * middleware answers dbsc if the native slot is filled and bound if it is not.
   */
  lemma AnswerLasts(c: Primitives, cfg: Config, run: Run, i: nat, id: string, expiresAt: int)
    requires i < |run| - 1 && ClockNondecreasing(run) && RaisesLive(c, cfg, run, i, id, expiresAt)
    requires forall k: nat :: i < k < |run| - 1 ==> Harmless(c, cfg, run, k, id)
    requires run[|run| - 1].event == AskTier(id) && run[|run| - 1].now <= expiresAt
    requires run[|run| - 1].now <= run[i].now + cfg.boundCookieTtl + cfg.refreshGraceMs
    ensures LastAnswer(c, cfg, run)
         == TierReply(if Slot(id, Native) in Before(c, cfg, run).slots then TierDbsc else TierBound)
  {
    var prefix := run[..|run| - 1];
    assert prefix[..i + 1] == run[..i + 1];
    RaisedStands(c, cfg, run, i, id, expiresAt);
    forall k: nat | i + 1 <= k < |prefix|
      ensures Harmless(c, cfg, prefix, k, id) && prefix[k] == run[k]
    {
      HarmlessPrefix(c, cfg, run, k, id);
    }
    StandingOn(c, cfg, prefix, i + 1, id, expiresAt, run[i].now);
    TierExactly(c, cfg, run, id);
  }

  /** After a native registration or refresh of a live session, that answer is dbsc. */
  lemma NativeAnswerLasts(c: Primitives, cfg: Config, run: Run, i: nat, id: string, expiresAt: int)
    requires i < |run| - 1 && ClockNondecreasing(run)
    requires (run[i].event.Register? || run[i].event.NativeRefresh?) && run[i].event.token.sessionId == id
    requires Succeeded(AnswerAt(c, cfg, run, i)) && LiveRow(After(c, cfg, run[..i]), id, run[i].now)
    requires After(c, cfg, run[..i]).sessions[id].expiresAt == expiresAt
    requires forall k: nat :: i < k < |run| - 1 ==> Harmless(c, cfg, run, k, id)
    requires run[|run| - 1].event == AskTier(id) && run[|run| - 1].now <= expiresAt
    requires run[|run| - 1].now <= run[i].now + cfg.boundCookieTtl + cfg.refreshGraceMs
    ensures LastAnswer(c, cfg, run) == TierReply(TierDbsc)
  {
    NativeRaises(c, cfg, run, i, id);
    AnswerLasts(c, cfg, run, i, id, expiresAt);
    NativeKeyThere(c, cfg, run, i, id);
    NativeKeyStays(c, cfg, run, i, id);
  }

  lemma NativeRaises(c: Primitives, cfg: Config, run: Run, i: nat, id: string)
    requires i < |run| && Succeeded(AnswerAt(c, cfg, run, i))
    requires (run[i].event.Register? || run[i].event.NativeRefresh?) && run[i].event.token.sessionId == id
    ensures MarkedAt(c, cfg, run, i, id, TierRaise)
  {}

  lemma NativeKeyStays(c: Primitives, cfg: Config, run: Run, i: nat, id: string)
    requires i < |run| - 1 && Slot(id, Native) in After(c, cfg, run[..i + 1]).slots
    requires forall k: nat :: i < k < |run| - 1 ==> Harmless(c, cfg, run, k, id)
    ensures Slot(id, Native) in Before(c, cfg, run).slots
  {
    var prefix := run[..|run| - 1];
    assert prefix[..i + 1] == run[..i + 1];
    forall k | i + 1 <= k < |prefix|
      ensures !Removes(After(c, cfg, prefix[..k]), prefix[k].event, id)
    {
      assert prefix[..k] == run[..k] && Harmless(c, cfg, run, k, id);
    }
    KeysWriteOnce(c, cfg, prefix, i + 1, Slot(id, Native));
  }

  lemma NativeKeyThere(c: Primitives, cfg: Config, run: Run, i: nat, id: string)
    requires i < |run|
    requires (run[i].event.Register? || run[i].event.NativeRefresh?) && run[i].event.token.sessionId == id
    requires Succeeded(AnswerAt(c, cfg, run, i))
    ensures Slot(id, Native) in After(c, cfg, run[..i + 1]).slots
  {
    assert run[..i + 1][..i] == run[..i] && run[..i + 1][i] == run[i];
    HandlerEffect(c, cfg, After(c, cfg, run[..i]), run[i].event, run[i].now);
  }
}
