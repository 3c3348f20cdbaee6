/**
 * Injective agreement over whole runs that mix protocol calls, signing, guarded requests and
 * expiring cache entries: every request the guard lets through was signed for by the holder of
 * the key in the session's polyfill slot, field by field, and no statement lets two requests
 * through whose signatures start alike.
 */
module Agreement {
  import opened Basics
  import opened Model
  import opened Crypto
  import opened Handlers
  import opened Proof
  import AtomicRuns
  import Base64Url
  import Messages
  import ProofHeader
  import opened Replay
  import Text

  /** A signature made with the private half of a key. */
  datatype Signing = Signing(key: Jwk, says: Messages.Statement, sig: Base64Url.Bytes)

  datatype Event =
    | Protocol(event: AtomicRuns.Event)
    | Sign(signing: Signing)
    | Guarded(request: GuardedRequest)
    | Expire(name: string)

  datatype Timed = Timed(event: Event, now: int)

  type Run = seq<Timed>

  /** Options, whether a cache entry lasts through the millisecond it is due to end in, and how requests are named. */
  datatype Setup = Setup(cfg: AtomicRuns.Config, guard: GuardOptions, strictTimers: bool, naming: Messages.Naming)

  /** The polyfill is on, nothing is relaxed, and a replay cache keeps entries for two windows at least. */
  predicate Strict(setup: Setup) {
    && (setup.guard.allowDbscWithoutProof == Some(false)
        || (setup.guard.allowDbscWithoutProof == None && setup.guard.boundEnabled))
    && !setup.guard.use.NoCache? && Retained(setup.guard.use) >= 2 * setup.guard.windowMs
  }

  /** The out-of-the-box settings with either cache are strict. */
  lemma DefaultsAreStrict(cfg: AtomicRuns.Config, a: Adapter, windowMs: int, strictTimers: bool,
                          naming: Messages.Naming)
    requires !a.Absent?
    ensures Strict(Setup(cfg, GuardOptions(None, true, windowMs, UseOf(a, 2 * windowMs)), strictTimers, naming))
  {
    KeepsLongEnough(a, 2 * windowMs);
  }

  datatype World = World(st: Store, cache: Cache)

  /** A guarded request passes the middleware, which resolves the tier, and then the guard. */
  function Guard(c: Primitives, other: string -> Option<int>, setup: Setup, w: World, rq: GuardedRequest, now: int)
    : (World, GuardAnswer)
  {
    var (st', session) := if rq.sessionId == "" then (w.st, None) else GetSession(w.st, rq.sessionId, now);
    var tier := ResolveTier(session, setup.cfg.boundCookieTtl, setup.cfg.refreshGraceMs, now);
    var (cache', answer) := RequireProof(c, other, st', w.cache, setup.guard, tier, rq, now);
    (World(st', cache'), answer)
  }

  function Next(c: Primitives, other: string -> Option<int>, setup: Setup, w: World, t: Timed): World {
    match t.event
    case Protocol(e) => w.(st := AtomicRuns.Step(c, setup.cfg, w.st, e, t.now).0)
    case Sign(_) => w
    case Guarded(rq) => Guard(c, other, setup, w, rq, t.now).0
    case Expire(name) => w.(cache := w.cache - {name})
  }

  function After(c: Primitives, other: string -> Option<int>, setup: Setup, run: Run): World {
    if run == [] then World(EMPTY, map[])
    else Next(c, other, setup, After(c, other, setup, run[..|run| - 1]), run[|run| - 1])
  }

  lemma AfterNext(c: Primitives, other: string -> Option<int>, setup: Setup, run: Run, k: nat)
    requires k < |run|
    ensures After(c, other, setup, run[..k + 1]) == Next(c, other, setup, After(c, other, setup, run[..k]), run[k])
  {
    assert run[..k + 1][..k] == run[..k] && run[..k + 1][k] == run[k];
  }

  ghost predicate ClockNondecreasing(run: Run) {
    forall i, j :: 0 <= i < j < |run| ==> run[i].now <= run[j].now
  }

  /** The clock never runs back, and no cache entry expires before it may. */
  ghost predicate IsRun(c: Primitives, other: string -> Option<int>, setup: Setup, run: Run) {
    && ClockNondecreasing(run)
    && forall i :: 0 <= i < |run| && run[i].event.Expire? ==>
         MayDrop(After(c, other, setup, run[..i]).cache, run[i].event.name, run[i].now, setup.strictTimers)
  }

  lemma PrefixIsRun(c: Primitives, other: string -> Option<int>, setup: Setup, run: Run, n: nat)
    requires n <= |run| && IsRun(c, other, setup, run)
    ensures IsRun(c, other, setup, run[..n])
  {
    assert forall i | 0 <= i < n :: run[..n][..i] == run[..i] && run[..n][i] == run[i];
  }

  /** Request i is let through. */
  predicate Passes(c: Primitives, other: string -> Option<int>, setup: Setup, run: Run, i: nat)
    requires i < |run|
  {
    && run[i].event.Guarded?
    && Guard(c, other, setup, After(c, other, setup, run[..i]), run[i].event.request, run[i].now).1 == Passed
  }

  function Header(other: string -> Option<int>, rq: GuardedRequest): Option<ProofHeader.Parsed> {
    ProofHeader.Parse(other, rq.proofHeader)
  }

  /** The statement the guard checks a request's signature against. */
  function Claim(c: Primitives, rq: GuardedRequest, ts: int): Messages.Statement {
    Messages.Request(rq.sessionId, Text.ToUpper(rq.method_), rq.path, ts,
                     Base64Url.Encode(c.sha256(if rq.body.Some? then rq.body.value else [])))
  }

  /**
   * A signing event accounts for a request: it is by the key in the slot and says the same five
   * fields; in the stronger reading, the request also carries the very bytes it made.
   */
  ghost predicate AccountsFor(c: Primitives, other: string -> Option<int>, st: Store, s: Signing, rq: GuardedRequest,
                              bytes: bool) {
    && Header(other, rq).Some? && Slot(rq.sessionId, Bound) in st.slots
    && s.key == st.slots[Slot(rq.sessionId, Bound)].jwk
    && s.says == Claim(c, rq, Header(other, rq).value.ts)
    && (bytes ==> Base64Url.Decode(Header(other, rq).value.sig) == Some(s.sig))
  }

  /** The signature a request carries verifies under the key in the slot. */
  predicate Verified(c: Primitives, other: string -> Option<int>, st: Store, rq: GuardedRequest) {
    && Header(other, rq).Some? && Slot(rq.sessionId, Bound) in st.slots
    && var p := Header(other, rq).value;
    && Base64Url.Decode(p.sig).Some?
    && c.ecdsa(st.slots[Slot(rq.sessionId, Bound)].jwk, Base64Url.Decode(p.sig).value,
               Messages.Message(Claim(c, rq, p.ts)))
  }

  /** A signing event made this text with this key, and in the stronger reading these bytes. */
  ghost predicate Made(n: Messages.Naming, s: Signing, key: Jwk, text: string, sig: Option<Base64Url.Bytes>,
                       bytes: bool)
  {
    && Messages.WellFormed(n, s.says) && s.key == key
    && Messages.Message(s.says) == text && (bytes ==> Some(s.sig) == sig)
  }

  /**
   * Signatures cannot be forged: what verifies at a request under the slot's key was signed before,
   * by a client that signs well-formed statements only. With bytes, not even another signature for
   * a text that was signed can be found.
   */
  ghost predicate UnforgedAt(c: Primitives, other: string -> Option<int>, setup: Setup, run: Run, i: nat, bytes: bool)
    requires i < |run| && run[i].event.Guarded?
  {
    var rq, st := run[i].event.request, After(c, other, setup, run[..i]).st;
    Verified(c, other, st, rq) ==>
      var key, p := st.slots[Slot(rq.sessionId, Bound)].jwk, Header(other, rq).value;
      exists k: nat :: k < i && run[k].event.Sign?
        && Made(setup.naming, run[k].event.signing, key, Messages.Message(Claim(c, rq, p.ts)),
                Base64Url.Decode(p.sig), bytes)
  }

  lemma UpperKeeps(s: string, c: char)
    requires c !in s && (c == '.' || c == '/')
    ensures c !in Text.ToUpper(s)
  {}

  /** The request is named as the parties hold to. */
  predicate ProperlyNamed(n: Messages.Naming, rq: GuardedRequest) {
    Messages.WellNamed(n, rq.sessionId, rq.method_, rq.path)
  }

  lemma ClaimWellFormed(n: Messages.Naming, c: Primitives, rq: GuardedRequest, ts: int)
    requires ProperlyNamed(n, rq)
    ensures Messages.WellFormed(n, Claim(c, rq, ts))
  {
    UpperKeeps(rq.method_, '.');
    if n.Rooted? {
      UpperKeeps(rq.method_, '/');
    }
    Base64Url.EncodeUrlSafe(c.sha256(BodyOf(rq)));
  }

  /** Slots do not depend on the eviction that the middleware's read may do. */
  lemma PassedMeans(c: Primitives, other: string -> Option<int>, setup: Setup, w: World, rq: GuardedRequest, now: int)
    requires Strict(setup) && Guard(c, other, setup, w, rq, now).1 == Passed
    ensures Verified(c, other, w.st, rq) && InWindow(Header(other, rq).value.ts, setup.guard.windowMs, now)
    ensures var (cache', first) := Record(w.cache, setup.guard.use, KeyOf(other, rq), now);
      first && Guard(c, other, setup, w, rq, now).0.cache == cache'
  {
    var st' := if rq.sessionId == "" then w.st else GetSession(w.st, rq.sessionId, now).0;
    AcceptedMeans(c, other, st', w.cache, setup.guard.use, ProofOf(rq), setup.guard.windowMs, now);
    if Header(other, rq).Some? && Proves(c, st', ProofOf(rq), Header(other, rq).value, setup.guard.windowMs, now) {
      ProvesClaim(c, other, st', rq, setup.guard.windowMs, now);
    }
  }

  lemma ProvesClaim(c: Primitives, other: string -> Option<int>, st: Store, rq: GuardedRequest, windowMs: int, now: int)
    requires Header(other, rq).Some? && Proves(c, st, ProofOf(rq), Header(other, rq).value, windowMs, now)
    ensures Verified(c, other, st, rq)
  {
    var p := Header(other, rq).value;
    assert p.bh == Base64Url.Encode(c.sha256(BodyOf(rq)));
    assert ProofMessage(ProofOf(rq), p.ts, p.bh) == Messages.Message(Claim(c, rq, p.ts));
  }

  /** The key of a request's tuple. */
  function KeyOf(other: string -> Option<int>, rq: GuardedRequest): string
    requires Header(other, rq).Some?
  {
    ReplayKey(rq.sessionId, Header(other, rq).value.ts, Header(other, rq).value.sig)
  }

  /** Agreement: a request that passes was signed for, by the key now in the slot, with the same five fields. */
  lemma Agreed(c: Primitives, other: string -> Option<int>, setup: Setup, run: Run, i: nat, bytes: bool)
    returns (k: nat)
    requires Strict(setup) && i < |run| && Passes(c, other, setup, run, i) && UnforgedAt(c, other, setup, run, i, bytes)
    requires ProperlyNamed(setup.naming, run[i].event.request)
    ensures Accounted(c, other, setup, run, i, k, bytes)
  {
    var rq, w := run[i].event.request, After(c, other, setup, run[..i]);
    PassedMeans(c, other, setup, w, rq, run[i].now);
    var p, key := Header(other, rq).value, w.st.slots[Slot(rq.sessionId, Bound)].jwk;
    k :| k < i && run[k].event.Sign?
      && Made(setup.naming, run[k].event.signing, key, Messages.Message(Claim(c, rq, p.ts)),
              Base64Url.Decode(p.sig), bytes);
    ClaimWellFormed(setup.naming, c, rq, p.ts);
    Messages.Unambiguous(setup.naming, run[k].event.signing.says, Claim(c, rq, p.ts));
  }

  ghost predicate Accounted(c: Primitives, other: string -> Option<int>, setup: Setup, run: Run, i: nat, k: nat,
                            bytes: bool) {
    && k < i < |run| && run[i].event.Guarded? && run[k].event.Sign?
    && AccountsFor(c, other, After(c, other, setup, run[..i]).st, run[k].event.signing, run[i].event.request, bytes)
  }

  /** And the body that was signed for has the digest of the one that passed. */
  lemma BodiesAgree(c: Primitives, other: string -> Option<int>, setup: Setup, run: Run, i: nat, k: nat, bytes: bool,
                    body: Base64Url.Bytes)
    requires Accounted(c, other, setup, run, i, k, bytes)
    requires run[k].event.signing.says.bodyHash == BodyHash(c, body)
    ensures c.sha256(body) == c.sha256(BodyOf(run[i].event.request))
  {
    Base64Url.EncodeInjective(c.sha256(body), c.sha256(BodyOf(run[i].event.request)));
  }

  // ---------------------------------------------------------------- injectivity

  lemma NextKeeps(c: Primitives, other: string -> Option<int>, setup: Setup, w: World, t: Timed, name: string, due: int)
    requires Kept(w.cache, name, due) && Before(t.now, due, setup.strictTimers)
    requires t.event.Expire? ==> MayDrop(w.cache, t.event.name, t.now, setup.strictTimers)
    ensures Kept(Next(c, other, setup, w, t).cache, name, due)
  {
    if t.event.Guarded? {
      var rq := t.event.request;
      var st' := if rq.sessionId == "" then w.st else GetSession(w.st, rq.sessionId, t.now).0;
      VerifyKeeps(c, other, st', w.cache, setup.guard.use, ProofOf(rq), setup.guard.windowMs, t.now, name, due);
    }
  }

  lemma VerifyKeeps(c: Primitives, other: string -> Option<int>, st: Store, cache: Cache, use: CacheUse,
                    req: ProofRequest, windowMs: int, now: int, name: string, due: int)
    requires Kept(cache, name, due) && now <= due
    ensures Kept(VerifyBoundProof(c, other, st, cache, use, req, windowMs, now).0, name, due)
  {
    var checked := Checks(c, other, st, req, windowMs, now);
    if checked.Success? {
      RecordKeeps(cache, use, ReplayKey(req.sessionId, checked.value.ts, checked.value.sig), now, name, due);
    }
  }

  /** What is in the cache at some point of a run stays there until its time is up. */
  lemma {:induction false} KeptOn(c: Primitives, other: string -> Option<int>, setup: Setup, run: Run, from: nat,
                                  name: string, due: int)
    requires IsRun(c, other, setup, run) && from <= |run| && Kept(After(c, other, setup, run[..from]).cache, name, due)
    requires from < |run| ==> Before(run[|run| - 1].now, due, setup.strictTimers)
    ensures Kept(After(c, other, setup, run).cache, name, due)
  {
    if from == |run| {
      assert run[..from] == run;
    } else {
      var prefix, last := run[..|run| - 1], run[|run| - 1];
      assert prefix[..from] == run[..from];
      PrefixIsRun(c, other, setup, run, |prefix|);
      assert run[..|prefix|] == prefix && run[|prefix|] == last;
      KeptOn(c, other, setup, prefix, from, name, due);
      NextKeeps(c, other, setup, After(c, other, setup, prefix), last, name, due);
    }
  }

  /** Right after a request passes, its tuple is in the cache for its whole time. */
  lemma PassedIsKept(c: Primitives, other: string -> Option<int>, setup: Setup, run: Run, i: nat)
    requires Strict(setup) && i < |run| && Passes(c, other, setup, run, i)
    ensures Header(other, run[i].event.request).Some?
    ensures Kept(After(c, other, setup, run[..i + 1]).cache,
                 NameFor(setup.guard.use, KeyOf(other, run[i].event.request)), run[i].now + Retained(setup.guard.use))
  {
    var w, rq, use := After(c, other, setup, run[..i]), run[i].event.request, setup.guard.use;
    PassedMeans(c, other, setup, w, rq, run[i].now);
    RecordedIsKept(w.cache, use, KeyOf(other, rq), run[i].now);
    AfterNext(c, other, setup, run, i);
  }

  /** From the request that passed on, its tuple stays in the cache until its time is up. */
  lemma TupleKept(c: Primitives, other: string -> Option<int>, setup: Setup, run: Run, i: nat)
    requires Strict(setup) && IsRun(c, other, setup, run) && i < |run| && Passes(c, other, setup, run, i)
    requires i < |run| - 1 ==> Before(run[|run| - 1].now, run[i].now + Retained(setup.guard.use), setup.strictTimers)
    ensures Header(other, run[i].event.request).Some?
    ensures Kept(After(c, other, setup, run).cache, NameFor(setup.guard.use, KeyOf(other, run[i].event.request)),
                 run[i].now + Retained(setup.guard.use))
  {
    PassedIsKept(c, other, setup, run, i);
    KeptOn(c, other, setup, run, i + 1, NameFor(setup.guard.use, KeyOf(other, run[i].event.request)),
           run[i].now + Retained(setup.guard.use));
  }

  /** Two requests with one session, timestamp and signature prefix. */
  predicate SameTuple(other: string -> Option<int>, a: GuardedRequest, b: GuardedRequest) {
    && Header(other, a).Some? && Header(other, b).Some?
    && a.sessionId == b.sessionId
    && var p, q := Header(other, a).value, Header(other, b).value;
    && p.ts == q.ts && SigPrefix(p.sig) == SigPrefix(q.sig)
  }

  /** The one moment at which a lenient timer may let a tuple pass again: both exact ends of its window. */
  predicate AtEdges(other: string -> Option<int>, setup: Setup, a: Timed, b: Timed)
    requires a.event.Guarded? && Header(other, a.event.request).Some?
  {
    var ts, window := Header(other, a.event.request).value.ts, setup.guard.windowMs;
    !setup.strictTimers && a.now == ts - window && b.now == ts + window
  }

  /** While a tuple is kept, it is refused. */
  lemma TupleRefused(c: Primitives, other: string -> Option<int>, setup: Setup, run: Run, i: nat, b: GuardedRequest,
                     now: int)
    requires Strict(setup) && IsRun(c, other, setup, run) && i < |run| && Passes(c, other, setup, run, i)
    requires SameTuple(other, run[i].event.request, b) && run[|run| - 1].now <= now
    requires Before(now, run[i].now + Retained(setup.guard.use), setup.strictTimers)
    ensures !Record(After(c, other, setup, run).cache, setup.guard.use, KeyOf(other, b), now).1
  {
    var p, q, use := Header(other, run[i].event.request).value, Header(other, b).value, setup.guard.use;
    TupleKept(c, other, setup, run, i);
    NamesDiffer(use, b.sessionId, p.ts, p.sig, q.sig);
    KeptRefuses(After(c, other, setup, run).cache, use, KeyOf(other, b), now, run[i].now + Retained(use));
  }

  lemma PrefixPasses(c: Primitives, other: string -> Option<int>, setup: Setup, run: Run, i: nat, n: nat)
    requires i < n <= |run| && Passes(c, other, setup, run, i)
    ensures run[..n][i] == run[i] && Passes(c, other, setup, run[..n], i)
  {
    assert run[..n][..i] == run[..i];
  }

  lemma PassedAt(c: Primitives, other: string -> Option<int>, setup: Setup, run: Run, i: nat)
    requires Strict(setup) && i < |run| && Passes(c, other, setup, run, i)
    ensures var rq := run[i].event.request;
      && Header(other, rq).Some? && InWindow(Header(other, rq).value.ts, setup.guard.windowMs, run[i].now)
      && Record(After(c, other, setup, run[..i]).cache, setup.guard.use, KeyOf(other, rq), run[i].now).1
  {
    PassedMeans(c, other, setup, After(c, other, setup, run[..i]), run[i].event.request, run[i].now);
  }

  /** No two requests with one tuple pass, but for that one moment. */
  lemma TupleOnce(c: Primitives, other: string -> Option<int>, setup: Setup, run: Run, i: nat, j: nat)
    requires Strict(setup) && IsRun(c, other, setup, run) && i < j < |run|
    requires Passes(c, other, setup, run, i) && Passes(c, other, setup, run, j)
    ensures Header(other, run[i].event.request).Some? && Header(other, run[j].event.request).Some?
    ensures SameTuple(other, run[i].event.request, run[j].event.request) ==> AtEdges(other, setup, run[i], run[j])
  {
    var a, b, until := run[i].event.request, run[j].event.request, run[..j];
    PassedAt(c, other, setup, run, i);
    PassedAt(c, other, setup, run, j);
    var lasts := Before(run[j].now, run[i].now + Retained(setup.guard.use), setup.strictTimers);
    if SameTuple(other, a, b) {
      WindowCovered(Header(other, a).value.ts, setup.guard.windowMs, run[i].now, run[j].now,
                    Retained(setup.guard.use), setup.strictTimers);
      if lasts {
        PrefixIsRun(c, other, setup, run, j);
        PrefixPasses(c, other, setup, run, i, j);
        TupleRefused(c, other, setup, until, i, b, run[j].now);
      }
    }
  }

  /**
   * What agreement asks of each request that passes: proper names, and no forgery. Requests that
   * are refused may hold anything.
   */
  ghost predicate Honest(c: Primitives, other: string -> Option<int>, setup: Setup, run: Run, i: nat, bytes: bool)
    requires i < |run|
  {
    Passes(c, other, setup, run, i) ==>
      && ProperlyNamed(setup.naming, run[i].event.request)
      && UnforgedAt(c, other, setup, run, i, bytes)
  }

  /** The requests that pass, each with a signing event that accounts for it. */
  ghost predicate Signers(c: Primitives, other: string -> Option<int>, setup: Setup, run: Run,
                          signedBy: map<nat, nat>, bytes: bool)
  {
    && (forall i: nat :: i in signedBy <==> i < |run| && Passes(c, other, setup, run, i))
    && (forall i <- signedBy :: Accounted(c, other, setup, run, i, signedBy[i], bytes))
  }

  ghost function SignerOf(c: Primitives, other: string -> Option<int>, setup: Setup, run: Run, i: nat,
                          bytes: bool): (k: nat)
    requires exists k: nat :: Accounted(c, other, setup, run, i, k, bytes)
    ensures Accounted(c, other, setup, run, i, k, bytes)
  {
    var k: nat :| Accounted(c, other, setup, run, i, k, bytes); k
  }

  lemma FindSigners(c: Primitives, other: string -> Option<int>, setup: Setup, run: Run, bytes: bool)
    returns (signedBy: map<nat, nat>)
    requires Strict(setup)
    requires forall i :: 0 <= i < |run| ==> Honest(c, other, setup, run, i, bytes)
    ensures Signers(c, other, setup, run, signedBy, bytes)
  {
    forall i: nat | i < |run| && Passes(c, other, setup, run, i)
      ensures exists k: nat :: Accounted(c, other, setup, run, i, k, bytes)
    {
      assert Honest(c, other, setup, run, i, bytes);
      var k := Agreed(c, other, setup, run, i, bytes);
    }
    signedBy := map i: nat | i < |run| && Passes(c, other, setup, run, i) :: SignerOf(c, other, setup, run, i, bytes);
  }

  /** A request that reads, and an earlier signing event. */
  predicate Pairs(other: string -> Option<int>, run: Run, i: nat, k: nat) {
    && k < i < |run| && run[k].event.Sign?
    && run[i].event.Guarded? && Header(other, run[i].event.request).Some?
  }

  /** What a request that passes is charged to: the statement signed for it, and how its signature starts. */
  function Charge(other: string -> Option<int>, run: Run, i: nat, k: nat): (Messages.Statement, string)
    requires Pairs(other, run, i, k)
  {
    (run[k].event.signing.says, SigPrefix(Header(other, run[i].event.request).value.sig))
  }

  /** Two requests with their signing events are charged differently, or stand at the two exact ends of the window. */
  predicate ChargedApart(other: string -> Option<int>, setup: Setup, run: Run, i: nat, ki: nat, j: nat, kj: nat) {
    && Pairs(other, run, i, ki) && Pairs(other, run, j, kj)
    && (Charge(other, run, i, ki) == Charge(other, run, j, kj) ==> AtEdges(other, setup, run[i], run[j]))
  }

  /** Their signing events say different things or made different bytes, but for the same edges. */
  predicate SignedApart(other: string -> Option<int>, setup: Setup, run: Run, i: nat, ki: nat, j: nat, kj: nat) {
    && Pairs(other, run, i, ki) && Pairs(other, run, j, kj)
    && (run[ki].event == run[kj].event ==> AtEdges(other, setup, run[i], run[j]))
  }

  /** Requests charged alike stand at the two exact ends of the window, which strict timers exclude. */
  lemma ChargedAlike(c: Primitives, other: string -> Option<int>, setup: Setup, run: Run, i: nat, j: nat,
                     ki: nat, kj: nat, bytes: bool)
    requires Strict(setup) && IsRun(c, other, setup, run) && i < j < |run|
    requires Passes(c, other, setup, run, i) && Passes(c, other, setup, run, j)
    requires Accounted(c, other, setup, run, i, ki, bytes) && Accounted(c, other, setup, run, j, kj, bytes)
    ensures ChargedApart(other, setup, run, i, ki, j, kj)
  {
    TupleOnce(c, other, setup, run, i, j);
  }

  /**
   * Injective agreement: the requests that pass map one to one to statements signed for them, each
   * taken together with how the request's signature starts; only a lenient timer may let two
   * requests share one, at the two exact ends of the window. It asks only that texts cannot be
   * forged, and nothing of the requests that are refused.
   */
  lemma InjectiveAgreement(c: Primitives, other: string -> Option<int>, setup: Setup, run: Run, bytes: bool)
    returns (signedBy: map<nat, nat>)
    requires Strict(setup) && IsRun(c, other, setup, run)
    requires forall i :: 0 <= i < |run| ==> Honest(c, other, setup, run, i, bytes)
    ensures Signers(c, other, setup, run, signedBy, bytes)
    ensures forall i, j :: i in signedBy && j in signedBy && i < j ==>
      ChargedApart(other, setup, run, i, signedBy[i], j, signedBy[j])
  {
    signedBy := FindSigners(c, other, setup, run, bytes);
    forall i, j | i in signedBy && j in signedBy && i < j
      ensures ChargedApart(other, setup, run, i, signedBy[i], j, signedBy[j])
    {
      ChargedAlike(c, other, setup, run, i, j, signedBy[i], signedBy[j], bytes);
    }
  }

  /** The signature of a request that passes is spelled as the client's encoder spells it. */
  ghost predicate CanonicalAt(c: Primitives, other: string -> Option<int>, setup: Setup, run: Run, i: nat)
    requires i < |run|
  {
    Passes(c, other, setup, run, i) ==>
      Header(other, run[i].event.request).Some? && Base64Url.Canonical(Header(other, run[i].event.request).value.sig)
  }

  /**
   * One signing event each: when not even signature bytes can be varied and the requests that pass
   * spell them canonically, no signing event accounts for two of them, the same edge apart.
   */
  lemma OneSigningEach(c: Primitives, other: string -> Option<int>, setup: Setup, run: Run)
    returns (signedBy: map<nat, nat>)
    requires Strict(setup) && IsRun(c, other, setup, run)
    requires forall i :: 0 <= i < |run| ==>
      Honest(c, other, setup, run, i, true) && CanonicalAt(c, other, setup, run, i)
    ensures Signers(c, other, setup, run, signedBy, true)
    ensures forall i, j :: i in signedBy && j in signedBy && i < j ==>
      SignedApart(other, setup, run, i, signedBy[i], j, signedBy[j])
  {
    signedBy := InjectiveAgreement(c, other, setup, run, true);
    forall i, j | i in signedBy && j in signedBy && i < j
      ensures SignedApart(other, setup, run, i, signedBy[i], j, signedBy[j])
    {
      assert CanonicalAt(c, other, setup, run, i) && CanonicalAt(c, other, setup, run, j);
      CanonicalEvents(c, other, setup, run, i, j, signedBy[i], signedBy[j]);
    }
  }

  lemma CanonicalEvents(c: Primitives, other: string -> Option<int>, setup: Setup, run: Run, i: nat, j: nat,
                        ki: nat, kj: nat)
    requires Accounted(c, other, setup, run, i, ki, true) && Accounted(c, other, setup, run, j, kj, true)
    requires Base64Url.Canonical(Header(other, run[i].event.request).value.sig)
    requires Base64Url.Canonical(Header(other, run[j].event.request).value.sig)
    requires ChargedApart(other, setup, run, i, ki, j, kj)
    ensures SignedApart(other, setup, run, i, ki, j, kj)
  {
    var p, q := Header(other, run[i].event.request).value, Header(other, run[j].event.request).value;
    if run[ki].event == run[kj].event {
      Base64Url.CanonicalSpelling(p.sig, q.sig);
    }
  }

  // ---------------------------------------------------------------- who passes, exactly

  /** The session is live, raised and fresh, and the request carries a proof. */
  ghost predicate Admissible(c: Primitives, other: string -> Option<int>, setup: Setup, w: World, rq: GuardedRequest,
                             now: int)
  {
    && rq.sessionId != "" && rq.sessionId in w.st.sessions
    && var row := w.st.sessions[rq.sessionId];
    && now <= row.expiresAt && row.tier != TierNone
    && now <= row.lastRefreshAt + setup.cfg.boundCookieTtl + setup.cfg.refreshGraceMs
    && CarriesProof(c, other, w.st, rq, setup.guard.windowMs, now)
  }

  lemma GuardExactly(c: Primitives, other: string -> Option<int>, setup: Setup, w: World, rq: GuardedRequest, now: int)
    requires Strict(setup)
    ensures var (w', answer) := Guard(c, other, setup, w, rq, now);
      if Admissible(c, other, setup, w, rq, now) then
        (w'.cache, answer == Passed) == Record(w.cache, setup.guard.use, KeyOf(other, rq), now)
      else w'.cache == w.cache && answer != Passed
  {
    var (st', session) := if rq.sessionId == "" then (w.st, None) else GetSession(w.st, rq.sessionId, now);
    var tier := ResolveTier(session, setup.cfg.boundCookieTtl, setup.cfg.refreshGraceMs, now);
    Proof.PassesExactly(c, other, st', w.cache, setup.guard, tier, rq, now);
  }

  /** What an event does to the cache: an admissible request records its tuple. */
  ghost function DeedOf(c: Primitives, other: string -> Option<int>, setup: Setup, w: World, t: Timed): Replay.Timed {
    match t.event
    case Guarded(rq) =>
      Replay.Timed(if Admissible(c, other, setup, w, rq, t.now) then Recorded(KeyOf(other, rq)) else Untouched, t.now)
    case Expire(name) => Replay.Timed(Dropped(name), t.now)
    case _ => Replay.Timed(Untouched, t.now)
  }

  ghost function Deeds(c: Primitives, other: string -> Option<int>, setup: Setup, run: Run): (deeds: seq<Replay.Timed>)
    ensures |deeds| == |run|
    ensures forall i :: 0 <= i < |run| ==> deeds[i] == DeedOf(c, other, setup, After(c, other, setup, run[..i]), run[i])
  {
    seq(|run|, i requires 0 <= i < |run| => DeedOf(c, other, setup, After(c, other, setup, run[..i]), run[i]))
  }

  lemma DeedsPrefix(c: Primitives, other: string -> Option<int>, setup: Setup, run: Run, n: nat)
    requires n <= |run|
    ensures Deeds(c, other, setup, run)[..n] == Deeds(c, other, setup, run[..n])
  {
    assert forall i | 0 <= i < n :: run[..n][..i] == run[..i] && run[..n][i] == run[i];
  }

  lemma DeedsLast(c: Primitives, other: string -> Option<int>, setup: Setup, run: Run)
    requires run != []
    ensures var prefix, deeds := run[..|run| - 1], Deeds(c, other, setup, run);
      && deeds[..|run| - 1] == Deeds(c, other, setup, prefix)
      && deeds[|run| - 1] == DeedOf(c, other, setup, After(c, other, setup, prefix), run[|run| - 1])
  {
    DeedsPrefix(c, other, setup, run, |run| - 1);
  }

  lemma {:induction false} DeedsPlay(c: Primitives, other: string -> Option<int>, setup: Setup, run: Run)
    requires Strict(setup)
    ensures Play(setup.guard.use, Deeds(c, other, setup, run)) == After(c, other, setup, run).cache
  {
    if run != [] {
      var prefix := run[..|run| - 1];
      DeedsPlay(c, other, setup, prefix);
      DeedsLast(c, other, setup, run);
      DeedDone(c, other, setup, After(c, other, setup, prefix), run[|run| - 1]);
    }
  }

  lemma DeedDone(c: Primitives, other: string -> Option<int>, setup: Setup, w: World, t: Timed)
    requires Strict(setup)
    ensures Do(setup.guard.use, w.cache, DeedOf(c, other, setup, w, t)) == Next(c, other, setup, w, t).cache
  {
    if t.event.Guarded? {
      GuardExactly(c, other, setup, w, t.event.request, t.now);
    }
  }

  /** No entry of that name expires between two events. */
  ghost predicate NoneExpired(run: Run, i: nat, k: nat, name: string)
    requires k <= |run|
  {
    forall m :: i < m < k ==> run[m].event != Expire(name)
  }

  /**
   * Request i passed with the tuple of request k, and is still remembered at its time: the entry has
   * not been dropped in between nor, in a shared cache, timed out.
   */
  ghost predicate StillRemembered(c: Primitives, other: string -> Option<int>, setup: Setup, run: Run, i: nat, k: nat) {
    && i < k < |run| && run[k].event.Guarded? && Passes(c, other, setup, run, i)
    && SameTuple(other, run[i].event.request, run[k].event.request)
    && NoneExpired(run, i, k, NameFor(setup.guard.use, KeyOf(other, run[k].event.request)))
    && (setup.guard.use.Shared? ==> run[k].now <= run[i].now + setup.guard.use.retain)
  }

  /** Two admissible requests have one name if and only if they have one tuple. */
  lemma OneNameOneTuple(c: Primitives, other: string -> Option<int>, setup: Setup, w: World, a: GuardedRequest,
                        now: int, w2: World, b: GuardedRequest, later: int)
    requires Admissible(c, other, setup, w, a, now) && Admissible(c, other, setup, w2, b, later)
    ensures NameFor(setup.guard.use, KeyOf(other, a)) == NameFor(setup.guard.use, KeyOf(other, b))
       <==> SameTuple(other, a, b)
  {
    var p, q := Header(other, a).value, Header(other, b).value;
    TuplesApart(a.sessionId, p.ts, p.sig, b.sessionId, q.ts, q.sig);
    NamesApart(setup.guard.use, KeyOf(other, a), KeyOf(other, b));
  }

  /** A deed took the name of an admissible request if and only if it let one with the same tuple pass. */
  lemma TakesIsPasses(c: Primitives, other: string -> Option<int>, setup: Setup, run: Run, i: nat, w: World,
                      rq: GuardedRequest, now: int)
    requires Strict(setup) && i < |run| && Admissible(c, other, setup, w, rq, now)
    ensures var use, deeds := setup.guard.use, Deeds(c, other, setup, run);
      var took := Takes(use, deeds, i) && NameFor(use, deeds[i].deed.key) == NameFor(use, KeyOf(other, rq));
      took <==> Passes(c, other, setup, run, i) && SameTuple(other, run[i].event.request, rq)
  {
    var at := After(c, other, setup, run[..i]);
    DeedsPrefix(c, other, setup, run, i);
    DeedsPlay(c, other, setup, run[..i]);
    if run[i].event.Guarded? {
      GuardExactly(c, other, setup, at, run[i].event.request, run[i].now);
      if Admissible(c, other, setup, at, run[i].event.request, run[i].now) {
        OneNameOneTuple(c, other, setup, at, run[i].event.request, run[i].now, w, rq, now);
      }
    }
  }

  lemma TakesIsPassesBefore(c: Primitives, other: string -> Option<int>, setup: Setup, run: Run, i: nat, k: nat,
                            w: World, rq: GuardedRequest, now: int)
    requires Strict(setup) && i < k <= |run| && Admissible(c, other, setup, w, rq, now)
    ensures var use, deeds := setup.guard.use, Deeds(c, other, setup, run[..k]);
      var took := Takes(use, deeds, i) && NameFor(use, deeds[i].deed.key) == NameFor(use, KeyOf(other, rq));
      took <==> Passes(c, other, setup, run, i) && SameTuple(other, run[i].event.request, rq)
  {
    TakesIsPasses(c, other, setup, run[..k], i, w, rq, now);
    assert run[..k][..i] == run[..i] && run[..k][i] == run[i];
  }

  lemma DropsAreExpiries(c: Primitives, other: string -> Option<int>, setup: Setup, run: Run, i: nat, k: nat,
                         name: string)
    requires i < k <= |run|
    ensures NoneDropped(Deeds(c, other, setup, run[..k]), i, name) == NoneExpired(run, i, k, name)
  {
    var deeds := Deeds(c, other, setup, run[..k]);
    assert forall m | 0 <= m < k :: deeds[m].deed == Dropped(name) <==> run[m].event == Expire(name);
  }

  lemma HeldIsRemembered(c: Primitives, other: string -> Option<int>, setup: Setup, run: Run, i: nat, k: nat)
    requires Strict(setup) && i < k < |run| && run[k].event.Guarded?
    requires Admissible(c, other, setup, After(c, other, setup, run[..k]), run[k].event.request, run[k].now)
    ensures var name := NameFor(setup.guard.use, KeyOf(other, run[k].event.request));
      var held := StillHeld(setup.guard.use, Deeds(c, other, setup, run[..k]), i, name, run[k].now);
      held <==> StillRemembered(c, other, setup, run, i, k)
  {
    var rq, w := run[k].event.request, After(c, other, setup, run[..k]);
    TakesIsPassesBefore(c, other, setup, run, i, k, w, rq, run[k].now);
    DropsAreExpiries(c, other, setup, run, i, k, NameFor(setup.guard.use, KeyOf(other, rq)));
    assert Deeds(c, other, setup, run[..k])[i].now == run[i].now;
  }

  lemma DeedsOrdered(c: Primitives, other: string -> Option<int>, setup: Setup, run: Run, k: nat)
    requires ClockNondecreasing(run) && k < |run|
    ensures var deeds := Deeds(c, other, setup, run[..k]); Ordered(deeds) && forall t <- deeds :: t.now <= run[k].now
  {
    var deeds := Deeds(c, other, setup, run[..k]);
    assert forall i | 0 <= i < k :: deeds[i].now == run[i].now;
  }

  /** The cache refuses an admissible request if and only if it remembers its tuple. */
  lemma RefusedIffRemembered(c: Primitives, other: string -> Option<int>, setup: Setup, run: Run, k: nat)
    requires Strict(setup) && IsRun(c, other, setup, run) && k < |run| && run[k].event.Guarded?
    requires Admissible(c, other, setup, After(c, other, setup, run[..k]), run[k].event.request, run[k].now)
    ensures var first := Record(After(c, other, setup, run[..k]).cache, setup.guard.use,
                                KeyOf(other, run[k].event.request), run[k].now).1;
      first <==> forall i: nat :: !StillRemembered(c, other, setup, run, i, k)
  {
    var use, deeds, key := setup.guard.use, Deeds(c, other, setup, run[..k]), KeyOf(other, run[k].event.request);
    DeedsPlay(c, other, setup, run[..k]);
    DeedsOrdered(c, other, setup, run, k);
    Replay.RefusedExactly(use, deeds, key, run[k].now);
    forall i: nat | i < k
      ensures StillHeld(use, deeds, i, NameFor(use, key), run[k].now) == StillRemembered(c, other, setup, run, i, k)
    {
      HeldIsRemembered(c, other, setup, run, i, k);
    }
  }

  /**
   * Who passes, exactly: over every run, a request passes if and only if it is admissible and no
   * earlier request that passed with the same session, timestamp and start of signature is still
   * remembered. So nobody is refused for what others sent, or for what was refused.
   */
  lemma PassesIffNew(c: Primitives, other: string -> Option<int>, setup: Setup, run: Run, k: nat)
    requires Strict(setup) && IsRun(c, other, setup, run) && k < |run| && run[k].event.Guarded?
    ensures Passes(c, other, setup, run, k)
       <==> && Admissible(c, other, setup, After(c, other, setup, run[..k]), run[k].event.request, run[k].now)
            && forall i: nat :: !StillRemembered(c, other, setup, run, i, k)
  {
    GuardExactly(c, other, setup, After(c, other, setup, run[..k]), run[k].event.request, run[k].now);
    if Admissible(c, other, setup, After(c, other, setup, run[..k]), run[k].event.request, run[k].now) {
      RefusedIffRemembered(c, other, setup, run, k);
    }
  }
}
