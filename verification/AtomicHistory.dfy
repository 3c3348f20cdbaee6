/**
 * Properties of handler-atomic runs that speak of the past: how often challenges are
 * consumed, and how recent the last success behind a reported tier is.
 */
module AtomicHistory {
  import opened Model
  import opened Crypto
  import opened AtomicRuns

  // ---------------------------------------------------------------- conservation

  function Consumed(st: Store): set<string> {
    set jti | jti in st.challenges && st.challenges[jti].consumed
  }

  function Unconsumed(st: Store): set<string> {
    set jti | jti in st.challenges && !st.challenges[jti].consumed
  }

  /** The challenges that some store along the run shows as consumed. */
  ghost function EverConsumed(c: Primitives, cfg: Config, run: Run): set<string> {
    Consumed(After(c, cfg, run)) + if run == [] then {} else EverConsumed(c, cfg, run[..|run| - 1])
  }

  ghost function Issued(run: Run): set<string> {
    set i | 0 <= i < |run| && IssuedJti(run[i].event).Some? :: IssuedJti(run[i].event).value
  }

  predicate Uses(e: Event, a: Answer, now: int) {
    IsHandler(e) && (Succeeded(a) || Burned(e, a, now))
  }

  /** Successful handler calls and bad-signature refresh burns. */
  function CountUses(c: Primitives, cfg: Config, run: Run): nat {
    if run == [] then 0
    else
      var last := run[|run| - 1];
      CountUses(c, cfg, run[..|run| - 1]) + if Uses(last.event, LastAnswer(c, cfg, run), last.now) then 1 else 0
  }

  ghost predicate ConsumesOnly(st: Store, st': Store, jtis: set<string>, issued: set<string>) {
    && Consumed(st') <= Consumed(st) + jtis
    && jtis <= Unconsumed(st) && jtis <= Consumed(st')
    && Unconsumed(st') <= (Unconsumed(st) - jtis) + issued
  }

  lemma SpendConsumes(st: Store, jti: string)
    requires Named(st) && jti in st.challenges && !st.challenges[jti].consumed
    ensures ConsumesOnly(st, Spend(st, jti), {jti}, {})
  {}

  lemma EffectConsumes(st: Store, e: Event, now: int, st': Store, a: Answer)
    requires Named(st) && IsHandler(e) && Effect(st, e, now, st', a)
    ensures ConsumesOnly(st, st', if Uses(e, a, now) then {JtiOf(e)} else {}, {})
  {
    if Uses(e, a, now) {
      SpendConsumes(st, JtiOf(e));
      assert st'.challenges == Spend(st, JtiOf(e)).challenges;
    }
  }

  lemma OtherConsumes(c: Primitives, cfg: Config, st: Store, e: Event, now: int)
    requires Named(st) && !IsHandler(e)
    requires IssuedJti(e).Some? ==> IssuedJti(e).value !in st.challenges
    ensures ConsumesOnly(st, Step(c, cfg, st, e, now).0, {}, if IssuedJti(e).Some? then {IssuedJti(e).value} else {})
  {}

  lemma StepConsumes(c: Primitives, cfg: Config, st: Store, e: Event, now: int)
    requires Named(st)
    requires IssuedJti(e).Some? ==> IssuedJti(e).value !in st.challenges
    ensures var (st', a) := Step(c, cfg, st, e, now);
      ConsumesOnly(st, st', if Uses(e, a, now) then {JtiOf(e)} else {},
                   if IssuedJti(e).Some? then {IssuedJti(e).value} else {})
  {
    if IsHandler(e) {
      HandlerEffect(c, cfg, st, e, now);
      var (st', a) := Step(c, cfg, st, e, now);
      EffectConsumes(st, e, now, st', a);
    } else {
      OtherConsumes(c, cfg, st, e, now);
    }
  }

  /** A consumed challenge is never seen unconsumed again, and only issued challenges exist. */
  ghost predicate Ledger(c: Primitives, cfg: Config, run: Run) {
    var st := After(c, cfg, run);
    && Unconsumed(st) !! EverConsumed(c, cfg, run)
    && EverConsumed(c, cfg, run) + st.challenges.Keys <= Issued(run)
    && |EverConsumed(c, cfg, run)| == CountUses(c, cfg, run)
  }

  lemma IssuedPrefix(run: Run)
    requires run != []
    ensures var e := run[|run| - 1].event;
      Issued(run) == Issued(run[..|run| - 1]) + if IssuedJti(e).Some? then {IssuedJti(e).value} else {}
  {}

  lemma FreshIsUnissued(run: Run)
    requires run != [] && FreshJtis(run) && IssuedJti(run[|run| - 1].event).Some?
    ensures IssuedJti(run[|run| - 1].event).value !in Issued(run[..|run| - 1])
  {}

  lemma AddOne(s: set<string>, x: string)
    requires x !in s
    ensures |s + {x}| == |s| + 1
  {}

  /** The ledger's step on sets alone: `was` and `known` are the consumed and issued names so far. */
  lemma LedgerStep(st: Store, st': Store, was: set<string>, known: set<string>, jtis: set<string>, issued: set<string>)
    requires Unconsumed(st) !! was && Consumed(st) <= was <= known && st.challenges.Keys <= known
    requires issued !! known && ConsumesOnly(st, st', jtis, issued)
    ensures Consumed(st') + was == was + jtis && jtis !! was
    ensures Unconsumed(st') !! was + jtis
    ensures was + jtis + st'.challenges.Keys <= known + issued
  {}

  /**
   * Conservation: over every run, as many distinct challenges are consumed as there are
   * successful handler calls and bad-signature refresh burns.
   */
  lemma {:induction false} Conservation(c: Primitives, cfg: Config, run: Run)
    requires FreshJtis(run)
    ensures Ledger(c, cfg, run)
  {
    if run != [] {
      var prefix := run[..|run| - 1];
      Conservation(c, cfg, prefix);
      IssuedPrefix(run);
      if IssuedJti(run[|run| - 1].event).Some? {
        FreshIsUnissued(run);
      }
      ConservationStep(c, cfg, run);
    }
  }

  lemma ConservationStep(c: Primitives, cfg: Config, run: Run)
    requires run != [] && Ledger(c, cfg, run[..|run| - 1])
    requires var prefix, e := run[..|run| - 1], run[|run| - 1].event;
      && (IssuedJti(e).Some? ==> IssuedJti(e).value !in Issued(prefix))
      && Issued(run) == Issued(prefix) + if IssuedJti(e).Some? then {IssuedJti(e).value} else {}
    ensures Ledger(c, cfg, run)
  {
    var prefix, last := run[..|run| - 1], run[|run| - 1];
    TierInvariant(c, cfg, prefix);
    var st, e := After(c, cfg, prefix), last.event;
    StepConsumes(c, cfg, st, e, last.now);
    var uses := Uses(e, LastAnswer(c, cfg, run), last.now);
    var was := EverConsumed(c, cfg, prefix);
    assert Consumed(st) <= was;
    LedgerStep(st, After(c, cfg, run), was, Issued(prefix), if uses then {JtiOf(e)} else {},
               if IssuedJti(e).Some? then {IssuedJti(e).value} else {});
    if uses {
      AddOne(was, JtiOf(e));
    }
  }

  // ---------------------------------------------------------------- freshness

  datatype Mark = RowBorn | AnySuccess | TierRaise | TierBurn

  /** Whether an event is a binding that starts a row, a success, one that raises the tier, or a burn. */
  predicate Marks(st: Store, e: Event, a: Answer, now: int, id: string, mark: Mark) {
    match mark
    case RowBorn =>
      e.Bind? && e.sessionId == id && !(id in st.sessions && now <= st.sessions[id].expiresAt)
    case AnySuccess => IsHandler(e) && SessionOf(e) == id && Succeeded(a)
    case TierRaise =>
      && IsHandler(e) && SessionOf(e) == id && Succeeded(a)
      && (e.Register? || e.NativeRefresh? || Slot(id, Native) !in st.slots)
    case TierBurn => IsHandler(e) && SessionOf(e) == id && Burned(e, a, now)
  }

  /** The index of the last event of a kind for a session, or -1. */
  function LastIndex(c: Primitives, cfg: Config, run: Run, id: string, mark: Mark): (i: int)
    ensures -1 <= i < |run|
  {
    if run == [] then -1
    else
      var prefix, last := run[..|run| - 1], run[|run| - 1];
      if Marks(After(c, cfg, prefix), last.event, LastAnswer(c, cfg, run), last.now, id, mark) then |run| - 1
      else LastIndex(c, cfg, prefix, id, mark)
  }

  predicate MarkedAt(c: Primitives, cfg: Config, run: Run, i: nat, id: string, mark: Mark)
    requires i < |run|
  {
    Marks(After(c, cfg, run[..i]), run[i].event, AnswerAt(c, cfg, run, i), run[i].now, id, mark)
  }

  lemma MarkedPrefix(c: Primitives, cfg: Config, run: Run, j: nat, id: string, mark: Mark)
    requires j < |run| - 1
    ensures MarkedAt(c, cfg, run[..|run| - 1], j, id, mark) == MarkedAt(c, cfg, run, j, id, mark)
  {
    assert run[..|run| - 1][..j] == run[..j] && run[..|run| - 1][..j + 1] == run[..j + 1];
  }

  lemma {:induction false} MarkedLast(c: Primitives, cfg: Config, run: Run, id: string, mark: Mark)
    requires run != []
    ensures MarkedAt(c, cfg, run, |run| - 1, id, mark) <==> LastIndex(c, cfg, run, id, mark) == |run| - 1
  {
    assert run[..|run|] == run;
  }

  ghost predicate LastAt(c: Primitives, cfg: Config, run: Run, i: int, id: string, mark: Mark) {
    && (0 <= i < |run| ==> MarkedAt(c, cfg, run, i, id, mark))
    && forall j: nat :: i < j < |run| ==> !MarkedAt(c, cfg, run, j, id, mark)
  }

  lemma LastAtLonger(c: Primitives, cfg: Config, run: Run, i: int, id: string, mark: Mark)
    requires run != [] && i < |run| - 1 && LastAt(c, cfg, run[..|run| - 1], i, id, mark)
    requires !MarkedAt(c, cfg, run, |run| - 1, id, mark)
    ensures LastAt(c, cfg, run, i, id, mark)
  {
    forall j: nat | j < |run| - 1
      ensures MarkedAt(c, cfg, run[..|run| - 1], j, id, mark) == MarkedAt(c, cfg, run, j, id, mark)
    {
      MarkedPrefix(c, cfg, run, j, id, mark);
    }
  }

  /** LastIndex is what its name says. */
  lemma {:induction false} LastIndexIsLast(c: Primitives, cfg: Config, run: Run, id: string, mark: Mark)
    ensures LastAt(c, cfg, run, LastIndex(c, cfg, run, id, mark), id, mark)
  {
    if run != [] {
      var prefix := run[..|run| - 1];
      MarkedLast(c, cfg, run, id, mark);
      if !MarkedAt(c, cfg, run, |run| - 1, id, mark) {
        LastIndexIsLast(c, cfg, prefix, id, mark);
        LastAtLonger(c, cfg, run, LastIndex(c, cfg, prefix, id, mark), id, mark);
      }
    }
  }

  /** How a row starts: at tier none, never refreshed, for its user and its time. */
  predicate StartsAs(row: Session, e: Event, now: int)
    requires e.Bind?
  {
    && row.id == e.sessionId && row.userId == e.userId && row.tier == TierNone
    && row.createdAt == now && row.expiresAt == now + e.sessionTtl && row.lastRefreshAt == 0
  }

  /** A handler call leaves everything of a row but its tier and its refresh time. */
  predicate SameBut(row: Session, was: Session, tier: Tier, lastRefreshAt: int) {
    && row.id == was.id && row.userId == was.userId && row.createdAt == was.createdAt && row.expiresAt == was.expiresAt
    && row.tier == tier && row.lastRefreshAt == lastRefreshAt
  }

  /** What one step does to a session's row, exactly, in terms of the marks on the step. */
  ghost predicate RowStep(st: Store, st': Store, e: Event, a: Answer, now: int, id: string) {
    id in st'.sessions ==>
      if Marks(st, e, a, now, id, RowBorn) then StartsAs(st'.sessions[id], e, now)
      else
        && id in st.sessions
        && var row, was := st'.sessions[id], st.sessions[id];
        if Marks(st, e, a, now, id, TierBurn) then SameBut(row, was, TierNone, was.lastRefreshAt)
        else if Marks(st, e, a, now, id, TierRaise) then
          SameBut(row, was, if e.Register? || e.NativeRefresh? then TierDbsc else TierBound, now)
        else if Marks(st, e, a, now, id, AnySuccess) then SameBut(row, was, was.tier, now)
        else row == was
  }

  lemma SuccessRow(st: Store, e: Event, now: int, st': Store, a: Answer, id: string)
    requires Named(st) && IsHandler(e) && Effect(st, e, now, st', a) && Succeeded(a)
    ensures RowStep(st, st', e, a, now, id)
  {}

  lemma BurnRow(st: Store, e: Event, now: int, st': Store, a: Answer, id: string)
    requires Named(st) && IsHandler(e) && Effect(st, e, now, st', a) && !Succeeded(a) && Burned(e, a, now)
    ensures RowStep(st, st', e, a, now, id)
  {}

  lemma RefusedRow(st: Store, e: Event, now: int, st': Store, a: Answer, id: string)
    requires IsHandler(e) && Effect(st, e, now, st', a) && !Succeeded(a) && !Burned(e, a, now)
    ensures RowStep(st, st', e, a, now, id)
  {
    assert st'.sessions == st.sessions;
  }

  lemma HandlerRow(c: Primitives, cfg: Config, st: Store, e: Event, now: int, id: string)
    requires Named(st) && IsHandler(e)
    ensures var (st', a) := Step(c, cfg, st, e, now); RowStep(st, st', e, a, now, id)
  {
    HandlerEffect(c, cfg, st, e, now);
    var (st', a) := Step(c, cfg, st, e, now);
    if Succeeded(a) {
      SuccessRow(st, e, now, st', a, id);
    } else if Burned(e, a, now) {
      BurnRow(st, e, now, st', a, id);
    } else {
      RefusedRow(st, e, now, st', a, id);
    }
  }

  lemma BindRow(c: Primitives, cfg: Config, st: Store, e: Event, now: int, id: string)
    requires Named(st) && e.Bind?
    ensures var (st', a) := Step(c, cfg, st, e, now); RowStep(st, st', e, a, now, id)
  {}

  lemma OtherRow(c: Primitives, cfg: Config, st: Store, e: Event, now: int, id: string)
    requires Named(st) && !IsHandler(e) && !e.Bind?
    ensures var (st', a) := Step(c, cfg, st, e, now); RowStep(st, st', e, a, now, id)
  {}

  lemma StepRow(c: Primitives, cfg: Config, st: Store, e: Event, now: int, id: string)
    requires Named(st)
    ensures var (st', a) := Step(c, cfg, st, e, now); RowStep(st, st', e, a, now, id)
  {
    if IsHandler(e) {
      HandlerRow(c, cfg, st, e, now, id);
    } else {
      if e.Bind? {
        BindRow(c, cfg, st, e, now, id);
      } else {
        OtherRow(c, cfg, st, e, now, id);
      }
    }
  }

  /** The session has been raised since its row was started and since its last burn. */
  predicate Raised(c: Primitives, cfg: Config, run: Run, id: string) {
    var up := LastIndex(c, cfg, run, id, TierRaise);
    up > LastIndex(c, cfg, run, id, RowBorn) && up > LastIndex(c, cfg, run, id, TierBurn)
  }

  /** A stored row is what the binding that started it and the calls since have made of it. */
  ghost predicate RowExact(c: Primitives, cfg: Config, run: Run, id: string) {
    var st := After(c, cfg, run);
    id in st.sessions ==>
      var row, born := st.sessions[id], LastIndex(c, cfg, run, id, RowBorn);
      var i := LastIndex(c, cfg, run, id, AnySuccess);
      && born >= 0 && run[born].event.Bind? && run[born].event.userId == row.userId
      && row.createdAt == run[born].now && row.expiresAt == run[born].now + run[born].event.sessionTtl
      && (row.tier != TierNone <==> Raised(c, cfg, run, id))
      && row.lastRefreshAt == if i > born then run[i].now else 0
  }

  /** Whatever raises the tier is a success. */
  lemma {:induction false} RaisesSucceed(c: Primitives, cfg: Config, run: Run, id: string)
    ensures LastIndex(c, cfg, run, id, AnySuccess) >= LastIndex(c, cfg, run, id, TierRaise)
  {
    if run != [] {
      RaisesSucceed(c, cfg, run[..|run| - 1], id);
    }
  }

  lemma {:induction false} RowsExact(c: Primitives, cfg: Config, run: Run, id: string)
    ensures RowExact(c, cfg, run, id)
  {
    if run != [] {
      var prefix, last := run[..|run| - 1], run[|run| - 1];
      RowsExact(c, cfg, prefix, id);
      TierInvariant(c, cfg, prefix);
      StepRow(c, cfg, After(c, cfg, prefix), last.event, last.now, id);
    }
  }

  /**
   * Freshness: when the middleware reports a tier, the session's last successful registration
   * or refresh is at most the cookie lifetime plus the grace period old, and its last
   * tier-raising success is later than its last bad-signature burn.
   */
  lemma Freshness(c: Primitives, cfg: Config, run: Run, id: string)
    requires run != [] && run[|run| - 1].event == AskTier(id)
    requires LastAnswer(c, cfg, run) != TierReply(TierNone)
    ensures var before, now := run[..|run| - 1], run[|run| - 1].now;
      var i := LastIndex(c, cfg, before, id, AnySuccess);
      && i >= 0 && run[i].now >= now - cfg.boundCookieTtl - cfg.refreshGraceMs
      && LastIndex(c, cfg, before, id, TierRaise) > LastIndex(c, cfg, before, id, TierBurn)
  {
    RowsExact(c, cfg, run[..|run| - 1], id);
    RaisesSucceed(c, cfg, run[..|run| - 1], id);
  }
}
