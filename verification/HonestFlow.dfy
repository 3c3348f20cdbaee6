/**
 * The other half of agreement: an honest client is served. A session that is bound, registers
 * its polyfill key and signs a request in time gets that request through the guard, and its run
 * meets every condition that agreement asks for. The same run with the signature sent once more
 * in another spelling shows why a signing event alone does not determine the request.
 */
module HonestFlow {
  import opened Basics
  import opened Model
  import opened Crypto
  import opened Handlers
  import opened Proof
  import opened Agreement
  import AtomicRuns
  import Awaits
  import Base64Url
  import Messages
  import ProofHeader
  import Replay

  /** What the client sends for a request, body signed. */
  function OutgoingOf(rq: GuardedRequest): Outgoing {
    Outgoing(rq.method_, rq.path, BodyOf(rq), true)
  }

  /** What the client signs for a request. */
  function SaysFor(c: Primitives, b: Signer, rq: GuardedRequest, clientNow: int): Messages.Statement {
    Claim(c, rq, clientNow + b.rec.clockOffsetMs)
  }

  function TextFor(c: Primitives, b: Signer, rq: GuardedRequest, clientNow: int): string {
    Messages.Message(SaysFor(c, b, rq, clientNow))
  }

  /** The request as the client sends it: its own session, its signature in the header, in time for the window. */
  ghost predicate SentBy(c: Primitives, b: Signer, rq: GuardedRequest, clientNow: int, windowMs: int, now: int) {
    && rq.sessionId == b.rec.sessionId && rq.sessionId != ""
    && rq.proofHeader == SignedHeader(c, b, OutgoingOf(rq), clientNow)
    && |rq.proofHeader| <= ProofHeader.MAX_HEADER_LEN
    && Replay.InWindow(clientNow + b.rec.clockOffsetMs, windowMs, now)
  }

  /** Signing with the private half of the record's key verifies. */
  ghost predicate SignsWell(c: Primitives, b: Signer, m: string) {
    b.sign(m) != [] && c.importable(b.rec.publicKey) && c.ecdsa(b.rec.publicKey, b.sign(m), m)
  }

  /** The session is live and fresh at tier bound, and its polyfill slot holds the client's key. */
  ghost predicate BoundTo(cfg: AtomicRuns.Config, st: Store, b: Signer, now: int) {
    var id := b.rec.sessionId;
    && id in st.sessions && Slot(id, Bound) in st.slots
    && st.sessions[id].tier == TierBound && now <= st.sessions[id].expiresAt
    && now <= st.sessions[id].lastRefreshAt + cfg.boundCookieTtl + cfg.refreshGraceMs
    && st.slots[Slot(id, Bound)].jwk == b.rec.publicKey
  }

  lemma SignedTextIs(c: Primitives, b: Signer, rq: GuardedRequest, clientNow: int)
    requires rq.sessionId == b.rec.sessionId
    ensures SignedMessage(c, b, OutgoingOf(rq), clientNow) == TextFor(c, b, rq, clientNow)
  {}

  /** For a session at a fresh tier bound, the guard is the proof check. */
  lemma GuardIsCheck(c: Primitives, other: string -> Option<int>, setup: Setup, w: World, b: Signer,
                     rq: GuardedRequest, now: int)
    requires rq.sessionId == b.rec.sessionId && rq.sessionId != "" && BoundTo(setup.cfg, w.st, b, now)
    ensures var (cache', failure) :=
        VerifyBoundProof(c, other, w.st, w.cache, setup.guard.use, ProofOf(rq), setup.guard.windowMs, now);
      var (w', answer) := Guard(c, other, setup, w, rq, now);
      w' == World(w.st, cache') && (answer == Passed <==> failure == None)
  {
    var row := w.st.sessions[rq.sessionId];
    assert GetSession(w.st, rq.sessionId, now) == (w.st, Some(row));
    assert ResolveTier(Some(row), setup.cfg.boundCookieTtl, setup.cfg.refreshGraceMs, now) == TierBound;
  }

  /** In whatever state the server is: a fresh signed request of a bound session passes. */
  lemma ServedWhenBound(c: Primitives, other: string -> Option<int>, setup: Setup, w: World, b: Signer,
                        rq: GuardedRequest,
                        clientNow: int, now: int)
    requires SentBy(c, b, rq, clientNow, setup.guard.windowMs, now) && BoundTo(setup.cfg, w.st, b, now)
    requires SignsWell(c, b, TextFor(c, b, rq, clientNow))
    requires Unseen(w.cache, setup.guard.use, rq.sessionId, SignedParts(c, b, OutgoingOf(rq), clientNow), now)
    ensures Guard(c, other, setup, w, rq, now).1 == Passed
  {
    SignedTextIs(c, b, rq, clientNow);
    SignedIsAccepted(c, other, w.st, w.cache, setup.guard.use, b, OutgoingOf(rq), ProofOf(rq), clientNow,
                     setup.guard.windowMs, now);
    GuardIsCheck(c, other, setup, w, b, rq, now);
  }

  // ---------------------------------------------------------------- from the empty server

  datatype Times = Times(bound: int, registered: int, signed: int, requested: int)

  /** One client, from binding its session to one guarded request. */
  datatype Flow = Flow(b: Signer, user: string, sessionTtl: int, reg: BoundRegistrationRequest, rq: GuardedRequest,
                       clientNow: int, t: Times)

  function SigningOf(c: Primitives, f: Flow): Signing {
    Signing(f.b.rec.publicKey, SaysFor(c, f.b, f.rq, f.clientNow), f.b.sign(TextFor(c, f.b, f.rq, f.clientNow)))
  }

  function FlowRun(c: Primitives, f: Flow): Run {
    [Timed(Protocol(AtomicRuns.Bind(f.b.rec.sessionId, f.user, f.sessionTtl, f.reg.expectedJti)), f.t.bound),
     Timed(Protocol(AtomicRuns.RegisterBound(f.reg)), f.t.registered),
     Timed(Sign(SigningOf(c, f)), f.t.signed),
     Timed(Guarded(f.rq), f.t.requested)]
  }

  /** The registration is well formed, for the client's session and key, and proves possession. */
  ghost predicate RegistersWell(c: Primitives, f: Flow) {
    && f.reg.sessionId == f.b.rec.sessionId && f.reg.publicKey == Some(f.b.rec.publicKey)
    && Awaits.BoundRegistrationWellFormed(f.reg)
    && VerifyP256(c, f.b.rec.publicKey, f.reg.signature, f.reg.expectedJti) == Success(true)
  }

  /** Every step comes before what it depends on has run out. */
  predicate InTime(cfg: AtomicRuns.Config, f: Flow) {
    && f.t.bound <= f.t.registered <= f.t.signed <= f.t.requested
    && f.t.registered <= f.t.bound + CHALLENGE_TTL_MS
    && f.t.requested <= f.t.bound + f.sessionTtl
    && f.t.requested <= f.t.registered + cfg.boundCookieTtl + cfg.refreshGraceMs
  }

  /** Everything an honest client sees to. */
  ghost predicate Proper(c: Primitives, setup: Setup, f: Flow) {
    && RegistersWell(c, f) && InTime(setup.cfg, f)
    && SentBy(c, f.b, f.rq, f.clientNow, setup.guard.windowMs, f.t.requested)
    && SignsWell(c, f.b, TextFor(c, f.b, f.rq, f.clientNow))
  }

  /** The world in which the request arrives. */
  function Arrival(c: Primitives, f: Flow): World {
    var st := BindSession(EMPTY, f.b.rec.sessionId, f.user, f.sessionTtl, f.reg.expectedJti, f.t.bound);
    World(BoundRegistration(c, st, f.reg, f.t.registered).0, map[])
  }

  lemma Registered(c: Primitives, setup: Setup, f: Flow)
    requires RegistersWell(c, f) && InTime(setup.cfg, f)
    ensures BoundTo(setup.cfg, Arrival(c, f).st, f.b, f.t.requested)
  {}

  lemma FlowArrives(c: Primitives, other: string -> Option<int>, setup: Setup, f: Flow)
    ensures After(c, other, setup, FlowRun(c, f)[..3]) == Arrival(c, f)
  {
    var run := FlowRun(c, f);
    AfterNext(c, other, setup, run, 0);
    AfterNext(c, other, setup, run, 1);
    AfterNext(c, other, setup, run, 2);
    assert run[..0] == [];
  }

  lemma PassesFrom(c: Primitives, other: string -> Option<int>, setup: Setup, run: Run, i: nat, w: World)
    requires i < |run| && run[i].event.Guarded? && After(c, other, setup, run[..i]) == w
    requires Guard(c, other, setup, w, run[i].event.request, run[i].now).1 == Passed
    ensures Passes(c, other, setup, run, i)
  {}

  lemma ArrivalServes(c: Primitives, other: string -> Option<int>, setup: Setup, f: Flow)
    requires Proper(c, setup, f)
    ensures Guard(c, other, setup, Arrival(c, f), f.rq, f.t.requested).1 == Passed
  {
    Registered(c, setup, f);
    ServedWhenBound(c, other, setup, Arrival(c, f), f.b, f.rq, f.clientNow, f.t.requested);
  }

  /** The whole flow, from an empty server: bound, registered, signed, and let through. */
  lemma HonestFlowPasses(c: Primitives, other: string -> Option<int>, setup: Setup, f: Flow)
    requires Proper(c, setup, f)
    ensures Passes(c, other, setup, FlowRun(c, f), 3)
  {
    FlowArrives(c, other, setup, f);
    ArrivalServes(c, other, setup, f);
    PassesFrom(c, other, setup, FlowRun(c, f), 3, Arrival(c, f));
  }

  /** A request is unforged when a signing event before it makes the very claim, with the slot's key. */
  lemma UnforgedBy(c: Primitives, other: string -> Option<int>, setup: Setup, run: Run, i: nat, k: nat, bytes: bool)
    requires Accounted(c, other, setup, run, i, k, bytes)
    requires Messages.WellFormed(setup.naming, run[k].event.signing.says)
    ensures UnforgedAt(c, other, setup, run, i, bytes)
  {
    var rq, s := run[i].event.request, run[k].event.signing;
    var p := Header(other, rq).value;
    assert Made(setup.naming, s, s.key, Messages.Message(Claim(c, rq, p.ts)), Base64Url.Decode(p.sig), bytes);
  }

  lemma FlowAccounts(c: Primitives, other: string -> Option<int>, setup: Setup, st: Store, b: Signer,
                     rq: GuardedRequest,
                     clientNow: int, now: int)
    requires SentBy(c, b, rq, clientNow, setup.guard.windowMs, now) && BoundTo(setup.cfg, st, b, now)
    requires b.sign(TextFor(c, b, rq, clientNow)) != []
    ensures var says := SaysFor(c, b, rq, clientNow);
      AccountsFor(c, other, st, Signing(b.rec.publicKey, says, b.sign(Messages.Message(says))), rq, true)
    ensures Header(other, rq).Some? && Base64Url.Canonical(Header(other, rq).value.sig)
  {
    SignedTextIs(c, b, rq, clientNow);
    SignedReads(c, other, b, OutgoingOf(rq), clientNow);
    Base64Url.DecodeEncode(b.sign(TextFor(c, b, rq, clientNow)));
  }

  lemma FlowRequestHonest(c: Primitives, other: string -> Option<int>, setup: Setup, f: Flow)
    requires Proper(c, setup, f) && ProperlyNamed(setup.naming, f.rq)
    ensures Honest(c, other, setup, FlowRun(c, f), 3, true) && CanonicalAt(c, other, setup, FlowRun(c, f), 3)
  {
    FlowArrives(c, other, setup, f);
    Registered(c, setup, f);
    FlowAccounts(c, other, setup, Arrival(c, f).st, f.b, f.rq, f.clientNow, f.t.requested);
    ClaimWellFormed(setup.naming, c, f.rq, f.clientNow + f.b.rec.clockOffsetMs);
    UnforgedBy(c, other, setup, FlowRun(c, f), 3, 2, true);
  }

  ghost predicate HonestRun(c: Primitives, other: string -> Option<int>, setup: Setup, run: Run) {
    forall i :: 0 <= i < |run| ==> Honest(c, other, setup, run, i, true) && CanonicalAt(c, other, setup, run, i)
  }

  /** A run with one guarded request is honest where that request is. */
  lemma OnlyGuarded(c: Primitives, other: string -> Option<int>, setup: Setup, run: Run, n: nat)
    requires n < |run| && Honest(c, other, setup, run, n, true) && CanonicalAt(c, other, setup, run, n)
    requires forall i :: 0 <= i < |run| && i != n ==> !run[i].event.Guarded?
    ensures HonestRun(c, other, setup, run)
  {}

  /** Where nothing expires, order is all that a run needs. */
  lemma NothingExpires(c: Primitives, other: string -> Option<int>, setup: Setup, run: Run)
    requires ClockNondecreasing(run) && forall i :: 0 <= i < |run| ==> !run[i].event.Expire?
    ensures IsRun(c, other, setup, run)
  {}

  lemma FlowShape(c: Primitives, setup: Setup, f: Flow)
    requires InTime(setup.cfg, f)
    ensures var run := FlowRun(c, f);
      && ClockNondecreasing(run) && |run| == 4
      && forall i :: 0 <= i < |run| ==> !run[i].event.Expire? && (i != 3 ==> !run[i].event.Guarded?)
  {}

  /** And when it names its request properly, the run meets the conditions of agreement: they can all hold at once. */
  lemma HonestFlowIsHonest(c: Primitives, other: string -> Option<int>, setup: Setup, f: Flow)
    requires Proper(c, setup, f) && ProperlyNamed(setup.naming, f.rq)
    ensures IsRun(c, other, setup, FlowRun(c, f)) && HonestRun(c, other, setup, FlowRun(c, f))
  {
    FlowShape(c, setup, f);
    NothingExpires(c, other, setup, FlowRun(c, f));
    FlowRequestHonest(c, other, setup, f);
    OnlyGuarded(c, other, setup, FlowRun(c, f), 3);
  }

  // ---------------------------------------------------------------- the same signature, spelled again

  /** The request once more, with its signature respelled. */
  function Resent(c: Primitives, b: Signer, rq: GuardedRequest, clientNow: int): GuardedRequest {
    var p := SignedParts(c, b, OutgoingOf(rq), clientNow);
    rq.(proofHeader := ProofHeader.Print(p.ts, Respelled(p.sig), p.bh))
  }

  function RespelledParts(c: Primitives, b: Signer, rq: GuardedRequest, clientNow: int): ProofHeader.Parsed {
    var p := SignedParts(c, b, OutgoingOf(rq), clientNow);
    p.(sig := Respelled(p.sig))
  }

  lemma ResentReads(c: Primitives, other: string -> Option<int>, b: Signer, rq: GuardedRequest, clientNow: int)
    requires |SignedHeader(c, b, OutgoingOf(rq), clientNow)| <= ProofHeader.MAX_HEADER_LEN
    requires b.sign(SignedMessage(c, b, OutgoingOf(rq), clientNow)) != []
    ensures var p, again := SignedParts(c, b, OutgoingOf(rq), clientNow), Resent(c, b, rq, clientNow);
      again.proofHeader != "" && Header(other, again) == Some(RespelledParts(c, b, rq, clientNow))
  {
    var p := SignedParts(c, b, OutgoingOf(rq), clientNow);
    Base64Url.EncodeUrlSafe(b.sign(SignedMessage(c, b, OutgoingOf(rq), clientNow)));
    Base64Url.EncodeUrlSafe(c.sha256(BodyOf(rq)));
    ProofHeader.UrlSafeIsPlain(p.sig);
    ProofHeader.UrlSafeIsPlain(p.bh);
    RespelledIsPlain(p.sig);
    SameLength(p.ts, p.sig, Respelled(p.sig), p.bh);
    ProofHeader.ParsePrint(other, p.ts, Respelled(p.sig), p.bh);
  }

  lemma RespelledIsPlain(sig: string)
    requires ProofHeader.Plain(sig)
    ensures ProofHeader.Plain(Respelled(sig))
  {
    forall ch <- Respelled(sig)
      ensures ch == '+' || ch in sig
    {
      var i :| 0 <= i < |sig| && Respelled(sig)[i] == ch;
      assert sig[i] in sig;
    }
  }

  lemma SameLength(ts: int, a: string, b: string, bh: string)
    requires |a| == |b|
    ensures |ProofHeader.Print(ts, a, bh)| == |ProofHeader.Print(ts, b, bh)|
  {}

  /**
   * In whatever state the server is: when a signed request has just passed whose tuple was unseen
   * in either spelling, the same request with its signature respelled passes too, if and only if
   * there is a '-' within the prefix the cache looks at. One signing event then accounts for both.
   */
  lemma ResentPasses(c: Primitives, other: string -> Option<int>, setup: Setup, w: World, b: Signer, rq: GuardedRequest,
                     clientNow: int, now: int)
    requires Strict(setup)
    requires Unseen(w.cache, setup.guard.use, rq.sessionId, SignedParts(c, b, OutgoingOf(rq), clientNow), now)
    requires Unseen(w.cache, setup.guard.use, rq.sessionId, RespelledParts(c, b, rq, clientNow), now)
    requires SentBy(c, b, rq, clientNow, setup.guard.windowMs, now) && BoundTo(setup.cfg, w.st, b, now)
    requires SignsWell(c, b, TextFor(c, b, rq, clientNow))
    ensures var sig := SignedParts(c, b, OutgoingOf(rq), clientNow).sig;
      var (w', first) := Guard(c, other, setup, w, rq, now);
      var (_, second) := Guard(c, other, setup, w', Resent(c, b, rq, clientNow), now);
      first == Passed && (second == Passed <==> '-' in SigPrefix(sig))
    ensures var says := SaysFor(c, b, rq, clientNow);
      var made := Signing(b.rec.publicKey, says, b.sign(Messages.Message(says)));
      && AccountsFor(c, other, w.st, made, rq, true)
      && AccountsFor(c, other, w.st, made, Resent(c, b, rq, clientNow), true)
  {
    var again, p := Resent(c, b, rq, clientNow), SignedParts(c, b, OutgoingOf(rq), clientNow);
    var q := RespelledParts(c, b, rq, clientNow);
    var use, windowMs := setup.guard.use, setup.guard.windowMs;
    SignedTextIs(c, b, rq, clientNow);
    ServedWhenBound(c, other, setup, w, b, rq, clientNow, now);
    SignedReads(c, other, b, OutgoingOf(rq), clientNow);
    SignedProves(c, w.st, b, OutgoingOf(rq), ProofOf(rq), clientNow, windowMs, now);
    ResentReads(c, other, b, rq, clientNow);
    RespelledBytes(p.sig);
    SameBytesProve(c, w.st, ProofOf(rq), ProofOf(again), p, q, windowMs, now, now);
    AcceptedMeans(c, other, w.st, w.cache, use, ProofOf(rq), windowMs, now);
    SecondAccepted(c, other, w.st, w.cache, use, ProofOf(rq), ProofOf(again), p, q, windowMs, now, now);
    GuardIsCheck(c, other, setup, w, b, rq, now);
    GuardIsCheck(c, other, setup, Guard(c, other, setup, w, rq, now).0, b, again, now);
    FlowAccounts(c, other, setup, w.st, b, rq, clientNow, now);
  }

  /** The flow with the respelled request right behind. */
  function ResentRun(c: Primitives, f: Flow): Run {
    FlowRun(c, f) + [Timed(Guarded(Resent(c, f.b, f.rq, f.clientNow)), f.t.requested)]
  }

  lemma ResentRunIsRun(c: Primitives, other: string -> Option<int>, setup: Setup, f: Flow)
    requires InTime(setup.cfg, f)
    ensures IsRun(c, other, setup, ResentRun(c, f))
  {
    FlowShape(c, setup, f);
    OneMore(FlowRun(c, f), Timed(Guarded(Resent(c, f.b, f.rq, f.clientNow)), f.t.requested));
    NothingExpires(c, other, setup, ResentRun(c, f));
  }

  lemma OneMore(run: Run, last: Timed)
    requires ClockNondecreasing(run) && run != [] && run[|run| - 1].now <= last.now && !last.event.Expire?
    requires forall i :: 0 <= i < |run| ==> !run[i].event.Expire?
    ensures ClockNondecreasing(run + [last]) && forall i :: 0 <= i < |run| + 1 ==> !(run + [last])[i].event.Expire?
  {}

  lemma NextGuarded(c: Primitives, other: string -> Option<int>, setup: Setup, run: Run, i: nat, w: World)
    requires i < |run| && run[i].event.Guarded? && After(c, other, setup, run[..i]) == w
    ensures After(c, other, setup, run[..i + 1]) == Guard(c, other, setup, w, run[i].event.request, run[i].now).0
  {
    AfterNext(c, other, setup, run, i);
  }

  /** What the server is in when the respelled request arrives. */
  lemma ResentArrives(c: Primitives, other: string -> Option<int>, setup: Setup, f: Flow)
    ensures After(c, other, setup, ResentRun(c, f)[..3]) == Arrival(c, f)
    ensures After(c, other, setup, ResentRun(c, f)[..4]) == Guard(c, other, setup, Arrival(c, f), f.rq, f.t.requested).0
  {
    FlowArrives(c, other, setup, f);
    var run := ResentRun(c, f);
    assert run[..3] == FlowRun(c, f)[..3] && run[3] == Timed(Guarded(f.rq), f.t.requested);
    NextGuarded(c, other, setup, run, 3, Arrival(c, f));
  }

  /**
   * Where a signing event does not determine the request: a run in which two requests pass on one
   * signature, whenever its text has a '-' within the prefix.
   */
  lemma TwoPassOnOneSignature(c: Primitives, other: string -> Option<int>, setup: Setup, f: Flow)
    requires Strict(setup) && Proper(c, setup, f)
    requires '-' in SigPrefix(SignedParts(c, f.b, OutgoingOf(f.rq), f.clientNow).sig)
    ensures var run := ResentRun(c, f);
      && IsRun(c, other, setup, run) && Passes(c, other, setup, run, 3) && Passes(c, other, setup, run, 4)
      && Accounted(c, other, setup, run, 3, 2, true) && Accounted(c, other, setup, run, 4, 2, true)
  {
    var run, w := ResentRun(c, f), Arrival(c, f);
    ResentRunIsRun(c, other, setup, f);
    ResentArrives(c, other, setup, f);
    Registered(c, setup, f);
    ResentPasses(c, other, setup, w, f.b, f.rq, f.clientNow, f.t.requested);
    GuardIsCheck(c, other, setup, w, f.b, f.rq, f.t.requested);
    PassesFrom(c, other, setup, run, 3, w);
    PassesFrom(c, other, setup, run, 4, Guard(c, other, setup, w, f.rq, f.t.requested).0);
  }
}
