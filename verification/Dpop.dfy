/**
 * DPoP proofs (RFC 9449): the ordered checks of section 4.3 as one condition, recorded by jti
 * in the replay cache that the per-request proofs use too.
 */
module Dpop {
  import opened Basics
  import opened Model
  import opened Crypto
  import Proof
  import opened Replay
  import Text

  const DPOP_TYP := "dpop+jwt"
  const PRIVATE_JWK_MEMBERS := ["d", "p", "q", "dp", "dq", "qi", "k", "oth"]

  datatype DpopError =
    | ProofMissing | ProofMalformed | InvalidTyp | InvalidAlg | JwkPrivate | DpopSignatureInvalid
    | HtmMismatch | HtuMismatch | IatOutOfWindow | TokenBindingRequired | JktMismatch | AthMismatch | JtiReplay

  /** The jwk header: the members that validation reads, and the names of all members present. */
  datatype HeaderJwk = HeaderJwk(key: Jwk, members: set<string>)

  datatype Header = Header(typ: string, alg: string, jwk: Option<HeaderJwk>)

  /** The claims, None where a member is missing or of another type; iat is in seconds, whole or not. */
  datatype Payload = Payload(jti: Option<string>, htm: Option<string>, htu: Option<string>, iat: Option<real>,
                             ath: Option<string>)

  /** jose, the URL comparison and the hashes, uninterpreted. */
  datatype Jose = Jose(
    decodeHeader: string -> Option<Header>,
    importJwk: (Jwk, string) -> bool,
    verify: (string, Jwk) -> Option<Payload>,
    htuMatches: (string, string) -> bool,
    thumbprint: Jwk -> string,
    tokenHash: string -> string)

  datatype Request = Request(
    proof: string, method_: string, url: string,
    accessToken: Option<string>, boundJkt: Option<string>, requireTokenBinding: bool)

  datatype Verified = Verified(jkt: string, jti: string, payload: Payload)

  // ---------------------------------------------------------------- the condition

  /** One token, decoded, of the right type and algorithm, under a public key that validates and imports. */
  ghost predicate HeaderAccepted(j: Jose, proof: string) {
    && proof != "" && ',' !in proof && Text.NoSpace(Text.Trim(proof))
    && j.decodeHeader(proof).Some?
    && var h := j.decodeHeader(proof).value;
    && h.typ == "dpop+jwt" && (h.alg == "ES256" || h.alg == "RS256") && h.jwk.Some?
    && (forall m <- PRIVATE_JWK_MEMBERS :: m !in h.jwk.value.members)
    && JwkAcceptable(h.jwk.value.key) && j.importJwk(h.jwk.value.key, h.alg)
  }

  /** The claims are there and name this request at this time. */
  ghost predicate ClaimsAccepted(j: Jose, req: Request, p: Payload, windowMs: int, now: int) {
    && p.jti.Some? && p.jti.value != "" && p.htm.Some? && p.htu.Some? && p.iat.Some?
    && Text.ToUpper(p.htm.value) == Text.ToUpper(req.method_)
    && j.htuMatches(p.htu.value, req.url)
    && IatInWindow(p.iat.value, windowMs, now)
  }

  predicate IatInWindow(iat: real, windowMs: int, now: int) {
    -(windowMs as real) <= now as real - iat * 1000.0 <= windowMs as real
  }

  /** A presented token is bound to the proof's key, unless the caller opted out, and its hash is in the proof. */
  ghost predicate BindingAccepted(j: Jose, req: Request, key: Jwk, p: Payload) {
    req.accessToken.Some? ==>
      && (if req.boundJkt.Some? then j.thumbprint(key) == req.boundJkt.value else !req.requireTokenBinding)
      && p.ath == Some(j.tokenHash(req.accessToken.value))
  }

  ghost predicate Accepted(j: Jose, req: Request, windowMs: int, now: int) {
    && HeaderAccepted(j, req.proof)
    && var key := j.decodeHeader(req.proof).value.jwk.value.key;
    && j.verify(req.proof, key).Some?
    && ClaimsAccepted(j, req, j.verify(req.proof, key).value, windowMs, now)
    && BindingAccepted(j, req, key, j.verify(req.proof, key).value)
  }

  /** What is wrong with a proof before its claims are read, for each code. */
  ghost predicate BlamesHeader(j: Jose, proof: string, code: DpopError) {
    var header := j.decodeHeader(proof);
    match code
    case ProofMissing => proof == ""
    case InvalidTyp => header.Some? && header.value.typ != "dpop+jwt"
    case InvalidAlg => header.Some? && header.value.alg != "ES256" && header.value.alg != "RS256"
    case JwkPrivate =>
      && header.Some? && header.value.jwk.Some?
      && exists m <- PRIVATE_JWK_MEMBERS :: m in header.value.jwk.value.members
    case ProofMalformed =>
      || ',' in proof || HasSpace(Text.Trim(proof)) || header.None? || header.value.jwk.None?
      || !JwkAcceptable(header.value.jwk.value.key) || !j.importJwk(header.value.jwk.value.key, header.value.alg)
    case _ => false
  }

  /** What is wrong with the claims, for each code. */
  ghost predicate BlamesClaims(j: Jose, req: Request, p: Payload, windowMs: int, now: int, code: DpopError) {
    match code
    case ProofMalformed => p.jti.None? || p.jti.value == "" || p.htm.None? || p.htu.None? || p.iat.None?
    case HtmMismatch => p.htm.Some? && Text.ToUpper(p.htm.value) != Text.ToUpper(req.method_)
    case HtuMismatch => p.htu.Some? && !j.htuMatches(p.htu.value, req.url)
    case IatOutOfWindow => p.iat.Some? && !IatInWindow(p.iat.value, windowMs, now)
    case _ => false
  }

  /** What is wrong with the token presented beside the proof, for each code. */
  ghost predicate BlamesBinding(j: Jose, req: Request, key: Jwk, p: Payload, code: DpopError) {
    match code
    case TokenBindingRequired => req.accessToken.Some? && req.boundJkt.None? && req.requireTokenBinding
    case JktMismatch => req.accessToken.Some? && req.boundJkt.Some? && j.thumbprint(key) != req.boundJkt.value
    case AthMismatch => req.accessToken.Some? && p.ath != Some(j.tokenHash(req.accessToken.value))
    case _ => false
  }

  /** The cause of a refusal, for each code. */
  ghost predicate Reveals(j: Jose, req: Request, windowMs: int, now: int, code: DpopError) {
    if code == JtiReplay then Accepted(j, req, windowMs, now)
    else if !HeaderAccepted(j, req.proof) then BlamesHeader(j, req.proof, code)
    else
      var key := j.decodeHeader(req.proof).value.jwk.value.key;
      match j.verify(req.proof, key)
      case None => code == DpopSignatureInvalid
      case Some(p) => BlamesClaims(j, req, p, windowMs, now, code) || BlamesBinding(j, req, key, p, code)
  }

  function CacheName(jti: string): string {
    "dpop:" + jti
  }

  // ---------------------------------------------------------------- the checks in order

  predicate HasSpace(s: string) {
    exists c <- s :: Text.IsSpace(c)
  }

  method CheckHeader(j: Jose, proof: string) returns (key: Result<Jwk, DpopError>)
    ensures key.Success? <==> HeaderAccepted(j, proof)
    ensures key.Success? ==> key.value == j.decodeHeader(proof).value.jwk.value.key
    ensures key.Failure? ==> BlamesHeader(j, proof, key.error)
  {
    if proof == "" {
      return Failure(ProofMissing);
    }
    if ',' in proof || HasSpace(Text.Trim(proof)) {
      return Failure(ProofMalformed);
    }
    var header := j.decodeHeader(proof);
    if header.None? {
      return Failure(ProofMalformed);
    }
    var h := header.value;
    if h.typ != DPOP_TYP {
      return Failure(InvalidTyp);
    }
    if !SupportedAlg(h.alg) {
      return Failure(InvalidAlg);
    }
    if h.jwk.None? {
      return Failure(ProofMalformed);
    }
    for i := 0 to |PRIVATE_JWK_MEMBERS|
      invariant forall k :: 0 <= k < i ==> PRIVATE_JWK_MEMBERS[k] !in h.jwk.value.members
    {
      if PRIVATE_JWK_MEMBERS[i] in h.jwk.value.members {
        return Failure(JwkPrivate);
      }
    }
    var invalid := ValidateJwk(h.jwk.value.key);
    if invalid.Some? {
      return Failure(ProofMalformed);
    }
    if !j.importJwk(h.jwk.value.key, h.alg) {
      return Failure(ProofMalformed);
    }
    return Success(h.jwk.value.key);
  }

  method CheckClaims(j: Jose, req: Request, p: Payload, windowMs: int, now: int) returns (e: Option<DpopError>)
    ensures e.None? <==> ClaimsAccepted(j, req, p, windowMs, now)
    ensures e.Some? ==> BlamesClaims(j, req, p, windowMs, now, e.value)
  {
    if p.jti.None? || p.jti.value == "" || p.htm.None? || p.htu.None? || p.iat.None? {
      return Some(ProofMalformed);
    }
    if Text.ToUpper(p.htm.value) != Text.ToUpper(req.method_) {
      return Some(HtmMismatch);
    }
    if !j.htuMatches(p.htu.value, req.url) {
      return Some(HtuMismatch);
    }
    var age := now as real - p.iat.value * 1000.0;
    if (if age < 0.0 then -age else age) > windowMs as real {
      return Some(IatOutOfWindow);
    }
    return None;
  }

  method CheckBinding(j: Jose, req: Request, jkt: string, p: Payload, ghost key: Jwk) returns (e: Option<DpopError>)
    requires jkt == j.thumbprint(key)
    ensures e.None? <==> BindingAccepted(j, req, key, p)
    ensures e.Some? ==> BlamesBinding(j, req, key, p, e.value)
  {
    if req.accessToken.Some? {
      if req.boundJkt.None? {
        if req.requireTokenBinding {
          return Some(TokenBindingRequired);
        }
      } else if jkt != req.boundJkt.value {
        return Some(JktMismatch);
      }
      if p.ath.None? {
        return Some(AthMismatch);
      }
      if p.ath.value != j.tokenHash(req.accessToken.value) {
        return Some(AthMismatch);
      }
    }
    return None;
  }

  /** What an accepted request carries. */
  function Claims(j: Jose, proof: string): Verified
    requires j.decodeHeader(proof).Some? && j.decodeHeader(proof).value.jwk.Some?
    requires var p := j.verify(proof, j.decodeHeader(proof).value.jwk.value.key); p.Some? && p.value.jti.Some?
  {
    var key := j.decodeHeader(proof).value.jwk.value.key;
    var p := j.verify(proof, key).value;
    Verified(j.thumbprint(key), p.jti.value, p)
  }

  /** The verdict as one step: all checks, then the cache. */
  ghost function Judge(j: Jose, cache: Cache, use: CacheUse, req: Request, windowMs: int, now: int): (Cache, bool) {
    if Accepted(j, req, windowMs, now) then Record(cache, use, CacheName(Claims(j, req.proof).jti), now)
    else (cache, false)
  }

  /**
   * verifyDpopProof: it succeeds exactly when every check of section 4.3 holds and the jti is not
   * remembered, it records the jti exactly when every check holds, it reports a replay exactly
   * when the jti is all that is wrong, and every other code names a check that does not hold.
   */
  method VerifyDpopProof(j: Jose, req: Request, cache: Adapter, windowMs: int, now: int)
    returns (r: Result<Verified, DpopError>)
    modifies Footprint(cache)
    ensures (Contents(cache), r.Success?)
         == Judge(j, old(Contents(cache)), UseOf(cache, 2 * windowMs), req, windowMs, now)
    ensures r.Success? ==> Accepted(j, req, windowMs, now) && r.value == Claims(j, req.proof)
    ensures r == Failure(JtiReplay) <==> r.Failure? && Accepted(j, req, windowMs, now)
    ensures r.Failure? ==> Reveals(j, req, windowMs, now, r.error)
  {
    var header := CheckHeader(j, req.proof);
    if header.Failure? {
      return Failure(header.error);
    }
    var key := header.value;
    var verified := j.verify(req.proof, key);
    if verified.None? {
      return Failure(DpopSignatureInvalid);
    }
    var p := verified.value;
    var bad := CheckClaims(j, req, p, windowMs, now);
    if bad.Some? {
      return Failure(bad.value);
    }
    var jkt := j.thumbprint(key);
    bad := CheckBinding(j, req, jkt, p, key);
    if bad.Some? {
      return Failure(bad.value);
    }
    var first := RecordIn(cache, CacheName(p.jti.value), 2 * windowMs, now);
    if !first {
      return Failure(JtiReplay);
    }
    return Success(Verified(jkt, p.jti.value, p));
  }

  // ---------------------------------------------------------------- runs of the verifier

  /** Requests that arrive with proofs, and cache entries that expire. */
  datatype Event = Arrive(req: Request) | Expire(name: string)

  datatype Timed = Timed(event: Event, now: int)

  datatype Setup = Setup(use: CacheUse, windowMs: int, strictTimers: bool)

  ghost function Next(j: Jose, s: Setup, cache: Cache, t: Timed): (Cache, bool) {
    match t.event
    case Arrive(req) => Judge(j, cache, s.use, req, s.windowMs, t.now)
    case Expire(name) => (cache - {name}, false)
  }

  ghost function CacheAfter(j: Jose, s: Setup, run: seq<Timed>): Cache {
    if run == [] then map[] else Next(j, s, CacheAfter(j, s, run[..|run| - 1]), run[|run| - 1]).0
  }

  ghost predicate IsRun(j: Jose, s: Setup, run: seq<Timed>) {
    && (forall i, k :: 0 <= i < k < |run| ==> run[i].now <= run[k].now)
    && (forall i :: 0 <= i < |run| && run[i].event.Expire? ==>
          MayDrop(CacheAfter(j, s, run[..i]), run[i].event.name, run[i].now, s.strictTimers))
  }

  /** Request i arrives and its proof is accepted. */
  ghost predicate Verifies(j: Jose, s: Setup, run: seq<Timed>, i: nat)
    requires i < |run|
  {
    run[i].event.Arrive? && Next(j, s, CacheAfter(j, s, run[..i]), run[i]).1
  }

  lemma PrefixIsRun(j: Jose, s: Setup, run: seq<Timed>, n: nat)
    requires n <= |run| && IsRun(j, s, run)
    ensures IsRun(j, s, run[..n])
  {
    assert forall i | 0 <= i < n :: run[..n][..i] == run[..i] && run[..n][i] == run[i];
  }

  lemma NextKeeps(j: Jose, s: Setup, cache: Cache, t: Timed, name: string, due: int)
    requires Kept(cache, name, due) && Before(t.now, due, s.strictTimers)
    requires t.event.Expire? ==> MayDrop(cache, t.event.name, t.now, s.strictTimers)
    ensures Kept(Next(j, s, cache, t).0, name, due)
  {
    if t.event.Arrive? && Accepted(j, t.event.req, s.windowMs, t.now) {
      RecordKeeps(cache, s.use, CacheName(Claims(j, t.event.req.proof).jti), t.now, name, due);
    }
  }

  lemma {:induction false} KeptOn(j: Jose, s: Setup, run: seq<Timed>, from: nat, name: string, due: int)
    requires IsRun(j, s, run) && from <= |run| && Kept(CacheAfter(j, s, run[..from]), name, due)
    requires from < |run| ==> Before(run[|run| - 1].now, due, s.strictTimers)
    ensures Kept(CacheAfter(j, s, run), name, due)
  {
    if from == |run| {
      assert run[..from] == run;
    } else {
      var prefix, last := run[..|run| - 1], run[|run| - 1];
      assert prefix[..from] == run[..from] && run[..|prefix|] == prefix;
      PrefixIsRun(j, s, run, |prefix|);
      KeptOn(j, s, prefix, from, name, due);
      NextKeeps(j, s, CacheAfter(j, s, prefix), last, name, due);
    }
  }

  /**
   * No jti is accepted twice within its time: over every run of the verifier, with either cache
   * kept for two windows, two requests with one jti and one iat are not both accepted, however their
   * proofs are spelled or signed. The one exception is a lenient timer that drops the entry at the
   * last moment, two windows after the first.
   */
  lemma JtiAcceptedOnce(j: Jose, s: Setup, run: seq<Timed>, i: nat, k: nat)
    requires IsRun(j, s, run) && !s.use.NoCache? && Retained(s.use) >= 2 * s.windowMs
    requires i < k < |run| && Verifies(j, s, run, i) && Verifies(j, s, run, k)
    requires Claims(j, run[i].event.req.proof).jti == Claims(j, run[k].event.req.proof).jti
    requires Claims(j, run[i].event.req.proof).payload.iat == Claims(j, run[k].event.req.proof).payload.iat
    ensures !s.strictTimers && run[k].now == run[i].now + 2 * s.windowMs == run[i].now + Retained(s.use)
  {
    var key := CacheName(Claims(j, run[i].event.req.proof).jti);
    var due := run[i].now + Retained(s.use);
    VerifiedIsKept(j, s, run, i);
    TwoWindows(Claims(j, run[i].event.req.proof).payload.iat.value, s.windowMs, run[i].now, run[k].now);
    if Before(run[k].now, due, s.strictTimers) {
      KeptUpTo(j, s, run, i + 1, k, NameFor(s.use, key), due);
      KeptRefuses(CacheAfter(j, s, run[..k]), s.use, key, run[k].now, due);
      assert false;
    }
  }

  lemma KeptUpTo(j: Jose, s: Setup, run: seq<Timed>, from: nat, k: nat, name: string, due: int)
    requires IsRun(j, s, run) && from <= k < |run| && Kept(CacheAfter(j, s, run[..from]), name, due)
    requires Before(run[k].now, due, s.strictTimers)
    ensures Kept(CacheAfter(j, s, run[..k]), name, due)
  {
    PrefixIsRun(j, s, run, k);
    assert run[..k][..from] == run[..from];
    KeptOn(j, s, run[..k], from, name, due);
  }

  lemma VerifiedIsKept(j: Jose, s: Setup, run: seq<Timed>, i: nat)
    requires !s.use.NoCache? && i < |run| && Verifies(j, s, run, i)
    ensures Kept(CacheAfter(j, s, run[..i + 1]), NameFor(s.use, CacheName(Claims(j, run[i].event.req.proof).jti)),
                 run[i].now + Retained(s.use))
  {
    RecordedIsKept(CacheAfter(j, s, run[..i]), s.use, CacheName(Claims(j, run[i].event.req.proof).jti), run[i].now);
    assert run[..i + 1][..i] == run[..i] && run[..i + 1][i] == run[i];
  }

  // ---------------------------------------------------------------- when a replay is reported, exactly

  /** One name for one jti. */
  lemma JtiNames(a: string, b: string)
    ensures CacheName(a) == CacheName(b) <==> a == b
  {
    Text.SameStart("dpop:", a, b);
  }

  /**
   * The guards for requests and for DPoP proofs may share a cache: their entries meet exactly where
   * a session id starts with the prefix of DPoP names.
   */
  lemma EntriesMeet(sessionId: string, ts: int, sig: string)
    ensures (exists jti :: CacheName(jti) == Proof.ReplayKey(sessionId, ts, sig)) <==> "dpop:" <= sessionId
  {
    var key, rest := Proof.ReplayKey(sessionId, ts, sig), Text.PrintInt(ts) + "." + Proof.SigPrefix(sig);
    assert key == sessionId + "." + rest;
    StartsBeforeDot("dpop:", sessionId, rest);
    if "dpop:" <= key {
      assert CacheName(key[5..]) == key;
    }
  }

  /** A start without a dot is one of the text up to its first dot. */
  lemma StartsBeforeDot(start: string, field: string, rest: string)
    requires '.' !in start
    ensures start <= field + "." + rest <==> start <= field
  {
    var whole := field + "." + rest;
    if |field| < |start| {
      assert start[|field|] in start;
      assert start[|field|] != whole[|field|];
    } else {
      assert whole[..|start|] == field[..|start|];
    }
  }

  /** What an event does to the cache: a request whose checks hold records its jti. */
  ghost function DeedOf(j: Jose, s: Setup, t: Timed): Replay.Timed {
    match t.event
    case Arrive(req) =>
      Replay.Timed(if Accepted(j, req, s.windowMs, t.now) then Recorded(CacheName(Claims(j, req.proof).jti))
                   else Untouched, t.now)
    case Expire(name) => Replay.Timed(Dropped(name), t.now)
  }

  ghost function Deeds(j: Jose, s: Setup, run: seq<Timed>): (deeds: seq<Replay.Timed>)
    ensures |deeds| == |run| && forall i :: 0 <= i < |run| ==> deeds[i] == DeedOf(j, s, run[i])
  {
    seq(|run|, i requires 0 <= i < |run| => DeedOf(j, s, run[i]))
  }

  lemma {:induction false} DeedsPlay(j: Jose, s: Setup, run: seq<Timed>)
    ensures Play(s.use, Deeds(j, s, run)) == CacheAfter(j, s, run)
  {
    if run != [] {
      DeedsPlay(j, s, run[..|run| - 1]);
      assert Deeds(j, s, run)[..|run| - 1] == Deeds(j, s, run[..|run| - 1]);
    }
  }

  /**
   * Request i was accepted with this jti and is still remembered at the time of request k: its entry
   * has not been dropped in between nor, in a shared cache, timed out.
   */
  ghost predicate StillRemembered(j: Jose, s: Setup, run: seq<Timed>, i: nat, k: nat, jti: string) {
    && i < k < |run| && Verifies(j, s, run, i) && Claims(j, run[i].event.req.proof).jti == jti
    && (forall m :: i < m < k ==> run[m].event != Expire(NameFor(s.use, CacheName(jti))))
    && (s.use.Shared? ==> run[k].now <= run[i].now + s.use.retain)
  }

  lemma VerifiesTakes(j: Jose, s: Setup, run: seq<Timed>, i: nat, k: nat, jti: string)
    requires i < k <= |run|
    ensures Takes(s.use, Deeds(j, s, run[..k]), i) && Deeds(j, s, run[..k])[i].deed == Recorded(CacheName(jti))
       <==> Verifies(j, s, run, i) && Claims(j, run[i].event.req.proof).jti == jti
  {
    assert Deeds(j, s, run[..k])[..i] == Deeds(j, s, run[..i]);
    DeedsPlay(j, s, run[..i]);
    if run[i].event.Arrive? && Accepted(j, run[i].event.req, s.windowMs, run[i].now) {
      JtiNames(Claims(j, run[i].event.req.proof).jti, jti);
    }
  }

  /**
   * The verifier, exactly: over every run, with either cache, a request whose checks hold is refused
   * if and only if an earlier accepted request with the same jti is still remembered. So a request
   * with a jti that was never accepted before is accepted.
   */
  lemma RefusedExactly(j: Jose, s: Setup, run: seq<Timed>, k: nat)
    requires IsRun(j, s, run) && !s.use.NoCache? && k < |run|
    requires run[k].event.Arrive? && Accepted(j, run[k].event.req, s.windowMs, run[k].now)
    ensures !Verifies(j, s, run, k)
       <==> exists i: nat :: StillRemembered(j, s, run, i, k, Claims(j, run[k].event.req.proof).jti)
  {
    var jti, deeds := Claims(j, run[k].event.req.proof).jti, Deeds(j, s, run[..k]);
    var name := NameFor(s.use, CacheName(jti));
    DeedsPlay(j, s, run[..k]);
    Replay.RefusedExactly(s.use, deeds, CacheName(jti), run[k].now);
    forall i: nat | i < k
      ensures StillHeld(s.use, deeds, i, name, run[k].now) <==> StillRemembered(j, s, run, i, k, jti)
    {
      HeldIsRemembered(j, s, run, i, k, jti);
    }
  }

  lemma HeldIsRemembered(j: Jose, s: Setup, run: seq<Timed>, i: nat, k: nat, jti: string)
    requires i < k < |run|
    ensures StillHeld(s.use, Deeds(j, s, run[..k]), i, NameFor(s.use, CacheName(jti)), run[k].now)
       <==> StillRemembered(j, s, run, i, k, jti)
  {
    var deeds, name := Deeds(j, s, run[..k]), NameFor(s.use, CacheName(jti));
    VerifiesTakes(j, s, run, i, k, jti);
    if deeds[i].deed.Recorded? {
      NamesApart(s.use, deeds[i].deed.key, CacheName(jti));
    }
    forall m | i < m < k
      ensures deeds[m].deed == Dropped(name) <==> run[m].event == Expire(name)
    {}
  }

  lemma TwoWindows(iat: real, windowMs: int, early: int, late: int)
    requires IatInWindow(iat, windowMs, early) && IatInWindow(iat, windowMs, late)
    ensures late - early <= 2 * windowMs
  {}

  /** So no proof is accepted twice. */
  lemma ProofAcceptedOnce(j: Jose, s: Setup, run: seq<Timed>, i: nat, k: nat)
    requires IsRun(j, s, run) && !s.use.NoCache? && Retained(s.use) >= 2 * s.windowMs
    requires i < k < |run| && Verifies(j, s, run, i) && Verifies(j, s, run, k)
    requires run[i].event.req.proof == run[k].event.req.proof
    ensures !s.strictTimers && run[k].now == run[i].now + 2 * s.windowMs == run[i].now + Retained(s.use)
  {
    JtiAcceptedOnce(j, s, run, i, k);
  }
}
