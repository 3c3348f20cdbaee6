/** The per-request proof: the client that signs it, the check on it, and the guard around the check. */
module Proof {
  import opened Basics
  import opened Model
  import opened Crypto
  import Base64Url
  import Messages
  import MS = MemoryStorage
  import ProofHeader
  import opened Replay
  import Text

  const SIG_PREFIX_LEN := 43

  // ---------------------------------------------------------------- verification

  datatype ProofRequest = ProofRequest(
    sessionId: string, proofHeader: string, method_: string, path: string,
    bodyBytes: Option<Base64Url.Bytes>, signBody: bool)

  function ProofMessage(req: ProofRequest, ts: int, bodyHash: string): string {
    var upper := Text.ToUpper(req.method_);
    if req.signBody then Messages.Message(Messages.Request(req.sessionId, upper, req.path, ts, bodyHash))
    else Messages.BodilessMessage(req.sessionId, upper, req.path, ts)
  }

  function SigPrefix(sig: string): (prefix: string)
    ensures prefix <= sig && |prefix| == if |sig| < 43 then |sig| else 43
  {
    if |sig| <= SIG_PREFIX_LEN then sig else sig[..SIG_PREFIX_LEN]
  }

  function ReplayKey(sessionId: string, ts: int, sig: string): string {
    sessionId + "." + Text.PrintInt(ts) + "." + SigPrefix(sig)
  }

  /** The checks on body and hash; on success, the hash that enters the message. */
  function BodyCheck(c: Primitives, req: ProofRequest, bh: string): Result<string, ErrorCode> {
    if req.signBody && req.bodyBytes.None? then Failure(MalformedProof)
    else if !req.signBody && bh != "" then Failure(MalformedProof)
    else if !req.signBody then Success("")
    else if bh == "" then Failure(MalformedProof)
    else if BodyHash(c, req.bodyBytes.value) != bh then Failure(SignatureInvalid)
    else Success(bh)
  }

  /** Everything that verifyBoundProof checks before it asks the cache; on success, the parsed header. */
  function Checks(c: Primitives, other: string -> Option<int>, st: Store, req: ProofRequest, windowMs: int, now: int)
    : Result<ProofHeader.Parsed, ErrorCode>
  {
    if req.proofHeader == "" then Failure(MissingProof)
    else
      match ProofHeader.Parse(other, req.proofHeader)
      case None => Failure(MalformedProof)
      case Some(parsed) =>
        if Abs(now - parsed.ts) > windowMs then Failure(SignatureInvalid)
        else
          match GetBoundKey(st, Slot(req.sessionId, Bound))
          case None => Failure(KeyNotFoundBound)
          case Some(key) =>
            match BodyCheck(c, req, parsed.bh)
            case Failure(e) => Failure(e)
            case Success(hash) =>
              match VerifyP256(c, key.jwk, parsed.sig, ProofMessage(req, parsed.ts, hash))
              case Failure(e) => Failure(e)
              case Success(ok) => if ok then Success(parsed) else Failure(SignatureInvalid)
  }

  /** verifyBoundProof: None when the proof is accepted. */
  function VerifyBoundProof(c: Primitives, other: string -> Option<int>, st: Store, cache: Cache, use: CacheUse,
                            req: ProofRequest, windowMs: int, now: int): (Cache, Option<ErrorCode>)
  {
    match Checks(c, other, st, req, windowMs, now)
    case Failure(e) => (cache, Some(e))
    case Success(parsed) =>
      var (cache', first) := Record(cache, use, ReplayKey(req.sessionId, parsed.ts, parsed.sig), now);
      (cache', if first then None else Some(ProofReplay))
  }

  method CheckBoundProof(c: Primitives, other: string -> Option<int>, storage: MS.Storage, replayCache: Adapter,
                         req: ProofRequest, windowMs: int, now: int) returns (failure: Option<ErrorCode>)
    requires storage.Valid()
    modifies Footprint(replayCache)
    ensures (Contents(replayCache), failure) ==
      VerifyBoundProof(c, other, storage.State(), old(Contents(replayCache)), UseOf(replayCache, 2 * windowMs),
                       req, windowMs, now)
  {
    if req.proofHeader == "" {
      return Some(MissingProof);
    }
    var header := ProofHeader.ParseProofHeader(other, req.proofHeader);
    if header.None? {
      return Some(MalformedProof);
    }
    var parsed := header.value;
    if Abs(now - parsed.ts) > windowMs {
      return Some(SignatureInvalid);
    }
    var key := storage.GetBoundKey(Slot(req.sessionId, Bound));
    if key.None? {
      return Some(KeyNotFoundBound);
    }
    var wantBodySig := req.signBody;
    if wantBodySig && req.bodyBytes.None? {
      return Some(MalformedProof);
    }
    if !wantBodySig && parsed.bh != "" {
      return Some(MalformedProof);
    }
    var bodyHash := "";
    if wantBodySig {
      if parsed.bh == "" {
        return Some(MalformedProof);
      }
      var actual := BodyHash(c, req.bodyBytes.value);
      if actual != parsed.bh {
        return Some(SignatureInvalid);
      }
      bodyHash := parsed.bh;
    }
    var ok := VerifyP256(c, key.value.jwk, parsed.sig, ProofMessage(req, parsed.ts, bodyHash));
    if ok.Failure? {
      return Some(ok.error);
    }
    if !ok.value {
      return Some(SignatureInvalid);
    }
    var first := RecordIn(replayCache, ReplayKey(req.sessionId, parsed.ts, parsed.sig), 2 * windowMs, now);
    return if first then None else Some(ProofReplay);
  }

  /** The cache is written only for a proof that passes every check; any refusal leaves it alone. */
  lemma OnlyAcceptedIsRecorded(c: Primitives, other: string -> Option<int>, st: Store, cache: Cache, use: CacheUse,
                               req: ProofRequest, windowMs: int, now: int)
    ensures var (cache', failure) := VerifyBoundProof(c, other, st, cache, use, req, windowMs, now);
      failure.Some? ==> cache' == cache
  {}

  /** What acceptance means, check by check. */
  ghost predicate Proves(c: Primitives, st: Store, req: ProofRequest, p: ProofHeader.Parsed, windowMs: int, now: int) {
    && Replay.InWindow(p.ts, windowMs, now)
    && Slot(req.sessionId, Bound) in st.slots
    && (if req.signBody then req.bodyBytes.Some? && p.bh == Base64Url.Encode(c.sha256(req.bodyBytes.value))
        else p.bh == "")
    && c.importable(st.slots[Slot(req.sessionId, Bound)].jwk)
    && Base64Url.Decode(p.sig).Some?
    && c.ecdsa(st.slots[Slot(req.sessionId, Bound)].jwk, Base64Url.Decode(p.sig).value,
               ProofMessage(req, p.ts, if req.signBody then p.bh else ""))
  }

  lemma ChecksMean(c: Primitives, other: string -> Option<int>, st: Store, req: ProofRequest, windowMs: int, now: int)
    ensures var checked, parsed := Checks(c, other, st, req, windowMs, now), ProofHeader.Parse(other, req.proofHeader);
      && (checked.Success? <==>
            req.proofHeader != "" && parsed.Some? && Proves(c, st, req, parsed.value, windowMs, now))
      && (checked.Success? ==> Some(checked.value) == parsed)
  {
    var parsed := ProofHeader.Parse(other, req.proofHeader);
    if parsed.Some? && req.signBody && req.bodyBytes.Some? {
      Base64Url.EncodeUrlSafe(c.sha256(req.bodyBytes.value));
    }
  }

  /** The cause of a refusal, for each code. */
  predicate Faulty(c: Primitives, st: Store, req: ProofRequest, parsed: Option<ProofHeader.Parsed>, windowMs: int,
                   now: int, code: ErrorCode)
  {
    var slot := Slot(req.sessionId, Bound);
    match code
    case MissingProof => req.proofHeader == ""
    case MalformedProof =>
      && req.proofHeader != ""
      && (parsed.None? || (if req.signBody then req.bodyBytes.None? || parsed.value.bh == "" else parsed.value.bh != ""))
    case KeyNotFoundBound => parsed.Some? && slot !in st.slots
    case InvalidJwk => parsed.Some? && slot in st.slots && !c.importable(st.slots[slot].jwk)
    case InvalidCharacter => parsed.Some? && Base64Url.Decode(parsed.value.sig) == None
    case SignatureInvalid =>
      && parsed.Some?
      && (|| !(-windowMs <= now - parsed.value.ts <= windowMs)
          || (req.signBody && req.bodyBytes.Some? && parsed.value.bh != Base64Url.Encode(c.sha256(req.bodyBytes.value)))
          || (slot in st.slots
              && Missigned(c, st.slots[slot].jwk, parsed.value.sig,
                           ProofMessage(req, parsed.value.ts, if req.signBody then parsed.value.bh else ""))))
    case _ => false
  }

  /** A proof that does not pass the checks is refused with a code whose cause is there. */
  lemma RefusedFor(c: Primitives, other: string -> Option<int>, st: Store, req: ProofRequest, windowMs: int, now: int)
    ensures var checked := Checks(c, other, st, req, windowMs, now);
      checked.Failure? ==> Faulty(c, st, req, ProofHeader.Parse(other, req.proofHeader), windowMs, now, checked.error)
  {}

  /** The cache does not remember the tuple of a proof. */
  predicate Unseen(cache: Cache, use: CacheUse, sessionId: string, p: ProofHeader.Parsed, now: int) {
    Record(cache, use, ReplayKey(sessionId, p.ts, p.sig), now).1
  }

  /** A proof is accepted if and only if it proves the request and its tuple is not remembered. */
  lemma AcceptedMeans(c: Primitives, other: string -> Option<int>, st: Store, cache: Cache, use: CacheUse,
                      req: ProofRequest, windowMs: int, now: int)
    ensures VerifyBoundProof(c, other, st, cache, use, req, windowMs, now).1 == None <==>
      && req.proofHeader != ""
      && var parsed := ProofHeader.Parse(other, req.proofHeader);
      && parsed.Some? && Proves(c, st, req, parsed.value, windowMs, now)
      && Unseen(cache, use, req.sessionId, parsed.value, now)
  {
    ChecksMean(c, other, st, req, windowMs, now);
  }

  /** A signature spelled differently proves the same, as long as its bytes and the other parts are the same. */
  lemma SameBytesProve(c: Primitives, st: Store, req: ProofRequest, again: ProofRequest, p: ProofHeader.Parsed,
                       q: ProofHeader.Parsed, windowMs: int, now: int, later: int)
    requires Proves(c, st, req, p, windowMs, now) && InWindow(p.ts, windowMs, later)
    requires again == req.(proofHeader := again.proofHeader)
    requires q == p.(sig := q.sig) && Base64Url.Decode(q.sig) == Base64Url.Decode(p.sig)
    ensures Proves(c, st, again, q, windowMs, later)
  {}

  /** What two requests need for the second to depend on nothing but the cache. */
  ghost predicate Repeats(c: Primitives, other: string -> Option<int>, st: Store, first: ProofRequest,
                          second: ProofRequest,
                          p: ProofHeader.Parsed, q: ProofHeader.Parsed, windowMs: int, later: int)
  {
    && first.sessionId == second.sessionId && p.ts == q.ts && second.proofHeader != ""
    && ProofHeader.Parse(other, first.proofHeader) == Some(p)
    && ProofHeader.Parse(other, second.proofHeader) == Some(q)
    && Proves(c, st, second, q, windowMs, later)
  }

  /**
   * When a second proof with the session and timestamp of an accepted one is accepted: exactly
   * when its signature text differs within the prefix. The cache compares text, not bytes.
   */
  lemma SecondAccepted(c: Primitives, other: string -> Option<int>, st: Store, cache: Cache, use: CacheUse,
                       first: ProofRequest, second: ProofRequest, p: ProofHeader.Parsed, q: ProofHeader.Parsed,
                       windowMs: int, now: int, later: int)
    requires !use.NoCache? && Retained(use) >= 2 * windowMs && now <= later
    requires Repeats(c, other, st, first, second, p, q, windowMs, later)
    requires VerifyBoundProof(c, other, st, cache, use, first, windowMs, now).1 == None
    requires Unseen(cache, use, second.sessionId, q, later) || SigPrefix(p.sig) == SigPrefix(q.sig)
    ensures var cache' := VerifyBoundProof(c, other, st, cache, use, first, windowMs, now).0;
      var verdict := VerifyBoundProof(c, other, st, cache', use, second, windowMs, later).1;
      verdict == None <==> SigPrefix(p.sig) != SigPrefix(q.sig)
  {
    ChecksMean(c, other, st, first, windowMs, now);
    ChecksMean(c, other, st, second, windowMs, later);
    NamesDiffer(use, first.sessionId, p.ts, p.sig, q.sig);
    var a, b := ReplayKey(first.sessionId, p.ts, p.sig), ReplayKey(first.sessionId, p.ts, q.sig);
    SecondRecord(cache, use, a, b, now, later);
  }

  lemma SecondRecord(cache: Cache, use: CacheUse, a: string, b: string, now: int, later: int)
    requires !use.NoCache? && Record(cache, use, a, now).1 && now <= later
    requires if NameFor(use, a) == NameFor(use, b) then later <= now + Retained(use) else Record(cache, use, b, later).1
    ensures Record(Record(cache, use, a, now).0, use, b, later).1 <==> NameFor(use, a) != NameFor(use, b)
  {}

  lemma NamesDiffer(use: CacheUse, sessionId: string, ts: int, a: string, b: string)
    ensures var x, y := ReplayKey(sessionId, ts, a), ReplayKey(sessionId, ts, b);
      NameFor(use, x) == NameFor(use, y) <==> SigPrefix(a) == SigPrefix(b)
  {
    var start := sessionId + "." + Text.PrintInt(ts) + ".";
    Text.SameStart(start, SigPrefix(a), SigPrefix(b));
    if use.Shared? {
      Text.SameStart(use.prefix, start + SigPrefix(a), start + SigPrefix(b));
    }
  }

  /** One key for one tuple, whatever the ids hold: signatures that decode have no dots. */
  lemma TuplesApart(a: string, tsA: int, sigA: string, b: string, tsB: int, sigB: string)
    requires Base64Url.Decode(sigA).Some? && Base64Url.Decode(sigB).Some?
    ensures ReplayKey(a, tsA, sigA) == ReplayKey(b, tsB, sigB)
       <==> a == b && tsA == tsB && SigPrefix(sigA) == SigPrefix(sigB)
  {
    if '.' in sigA {
      Base64Url.DottedFails(sigA);
    } else if '.' in sigB {
      Base64Url.DottedFails(sigB);
    } else if ReplayKey(a, tsA, sigA) == ReplayKey(b, tsB, sigB) {
      Messages.LastDot(a + "." + Text.PrintInt(tsA), SigPrefix(sigA), b + "." + Text.PrintInt(tsB), SigPrefix(sigB));
      Messages.LastDot(a, Text.PrintInt(tsA), b, Text.PrintInt(tsB));
      Text.PrintIntInjective(tsA, tsB);
    }
  }

  /** The same bytes with '+' written for '-', as an encoder for the standard alphabet would. */
  function Respelled(sig: string): string {
    Base64Url.Substitute(sig, '-', '+')
  }

  /** Respelling keeps the bytes, and changes the tuple exactly when there is a '-' within the prefix. */
  lemma RespelledBytes(sig: string)
    ensures Base64Url.Decode(Respelled(sig)) == Base64Url.Decode(sig)
    ensures SigPrefix(Respelled(sig)) != SigPrefix(sig) <==> '-' in SigPrefix(sig)
  {
    var pad := Base64Url.Padding(|sig|);
    assert Base64Url.Substitute(Respelled(sig) + pad, '-', '+') == Base64Url.Substitute(sig + pad, '-', '+');
    if '-' in SigPrefix(sig) {
      var i :| 0 <= i < |SigPrefix(sig)| && SigPrefix(sig)[i] == '-';
      assert SigPrefix(Respelled(sig))[i] == '+';
    } else {
      assert forall i | 0 <= i < |SigPrefix(sig)| :: sig[i] in SigPrefix(sig);
      assert SigPrefix(Respelled(sig)) == SigPrefix(sig);
    }
  }

  // ---------------------------------------------------------------- the client's signer

  datatype KeyRecord = KeyRecord(sessionId: string, publicKey: Jwk, clockOffsetMs: int)

  /** The key record and what its private key makes of a text. */
  datatype Signer = Signer(rec: KeyRecord, sign: string -> Base64Url.Bytes)

  /** A request that is about to be sent; the body is read only to be signed. */
  datatype Outgoing = Outgoing(method_: string, pathname: string, body: Base64Url.Bytes, signBody: bool)

  lemma HashPresent(c: Primitives, body: Base64Url.Bytes)
    ensures BodyHash(c, body) != ""
  {}

  /** wrapFetch, between reading the key record and sending: the header value it sets. */
  method SignRequest(c: Primitives, s: Signer, out: Outgoing, now: int) returns (headerValue: string)
    ensures headerValue == SignedHeader(c, s, out, now)
  {
    var method_ := Text.ToUpper(out.method_);
    var ts := now + s.rec.clockOffsetMs;
    var bodyHash := "";
    if out.signBody {
      bodyHash := BodyHash(c, out.body);
      HashPresent(c, out.body);
    }
    var message :=
      if out.signBody then Messages.Message(Messages.Request(s.rec.sessionId, method_, out.pathname, ts, bodyHash))
      else Messages.BodilessMessage(s.rec.sessionId, method_, out.pathname, ts);
    var sig := Base64Url.Encode(s.sign(message));
    headerValue := ProofHeader.Segment("ts", Text.PrintInt(ts)) + ";" + ProofHeader.Segment("sig", sig);
    if out.signBody {
      headerValue := headerValue + ";" + ProofHeader.Segment("bh", bodyHash);
    }
    assert headerValue == ProofHeader.Print(ts, sig, bodyHash);
    assert message == SignedMessage(c, s, out, now);
  }

  function SignedMessage(c: Primitives, s: Signer, out: Outgoing, now: int): string {
    var upper, ts := Text.ToUpper(out.method_), now + s.rec.clockOffsetMs;
    if out.signBody
    then Messages.Message(Messages.Request(s.rec.sessionId, upper, out.pathname, ts, BodyHash(c, out.body)))
    else Messages.BodilessMessage(s.rec.sessionId, upper, out.pathname, ts)
  }

  /** The parts of the header the client prints. */
  function SignedParts(c: Primitives, s: Signer, out: Outgoing, now: int): ProofHeader.Parsed {
    ProofHeader.Parsed(now + s.rec.clockOffsetMs, Base64Url.Encode(s.sign(SignedMessage(c, s, out, now))),
                       if out.signBody then BodyHash(c, out.body) else "")
  }

  function SignedHeader(c: Primitives, s: Signer, out: Outgoing, now: int): string {
    var p := SignedParts(c, s, out, now);
    ProofHeader.Print(p.ts, p.sig, p.bh)
  }

  lemma SignedReads(c: Primitives, other: string -> Option<int>, s: Signer, out: Outgoing, now: int)
    requires |SignedHeader(c, s, out, now)| <= ProofHeader.MAX_HEADER_LEN && s.sign(SignedMessage(c, s, out, now)) != []
    ensures SignedHeader(c, s, out, now) != ""
    ensures ProofHeader.Parse(other, SignedHeader(c, s, out, now)) == Some(SignedParts(c, s, out, now))
  {
    Base64Url.EncodeUrlSafe(s.sign(SignedMessage(c, s, out, now)));
    Base64Url.EncodeUrlSafe(c.sha256(out.body));
    var p := SignedParts(c, s, out, now);
    ProofHeader.UrlSafeIsPlain(p.sig);
    ProofHeader.UrlSafeIsPlain(p.bh);
    ProofHeader.ParsePrint(other, p.ts, p.sig, p.bh);
  }

  /**
   * What reaches the server of a request: everything but the body as it was sent, and the body's
   * bytes where the guard reads them to check a hash; otherwise it may read none.
   */
  ghost predicate Delivered(s: Signer, out: Outgoing, req: ProofRequest) {
    && req.sessionId == s.rec.sessionId && req.method_ == out.method_ && req.path == out.pathname
    && req.signBody == out.signBody && (req.signBody ==> req.bodyBytes == Some(out.body))
  }

  /** The slot holds the signer's key, and the signature of the text verifies under it. */
  ghost predicate Verifies(c: Primitives, st: Store, s: Signer, m: string) {
    && Slot(s.rec.sessionId, Bound) in st.slots && st.slots[Slot(s.rec.sessionId, Bound)].jwk == s.rec.publicKey
    && s.sign(m) != [] && c.importable(s.rec.publicKey) && c.ecdsa(s.rec.publicKey, s.sign(m), m)
  }

  lemma SignedProves(c: Primitives, st: Store, s: Signer, out: Outgoing, req: ProofRequest,
                     clientNow: int, windowMs: int, now: int)
    requires Delivered(s, out, req) && Verifies(c, st, s, SignedMessage(c, s, out, clientNow))
    requires InWindow(clientNow + s.rec.clockOffsetMs, windowMs, now)
    ensures Proves(c, st, req, SignedParts(c, s, out, clientNow), windowMs, now)
  {
    Base64Url.DecodeEncode(s.sign(SignedMessage(c, s, out, clientNow)));
  }

  /**
   * Round trip: the server accepts what the client signs, with or without the body, whenever the
   * clocks agree within the window, the slot holds the client's key, the header fits its cap and
   * the tuple is unseen.
   */
  lemma SignedIsAccepted(c: Primitives, other: string -> Option<int>, st: Store, cache: Cache, use: CacheUse, s: Signer,
                         out: Outgoing, req: ProofRequest, clientNow: int, windowMs: int, now: int)
    requires Delivered(s, out, req) && Verifies(c, st, s, SignedMessage(c, s, out, clientNow))
    requires req.proofHeader == SignedHeader(c, s, out, clientNow) && |req.proofHeader| <= ProofHeader.MAX_HEADER_LEN
    requires InWindow(clientNow + s.rec.clockOffsetMs, windowMs, now)
    requires Unseen(cache, use, req.sessionId, SignedParts(c, s, out, clientNow), now)
    ensures VerifyBoundProof(c, other, st, cache, use, req, windowMs, now).1 == None
  {
    SignedReads(c, other, s, out, clientNow);
    SignedProves(c, st, s, out, req, clientNow, windowMs, now);
    AcceptedMeans(c, other, st, cache, use, req, windowMs, now);
  }

  // ---------------------------------------------------------------- the two formats

  lemma HashLength(c: Primitives, body: Base64Url.Bytes)
    ensures |BodyHash(c, body)| == 43
  {
    Base64Url.EncodeShape(c.sha256(body));
    Base64Url.SextetsLength(c.sha256(body));
  }

  /**
   * A body-less proof never reads as a body-signed one, whatever the names hold: the two would share
   * a text only if a timestamp spelled a digest, and no timestamp has 43 digits.
   */
  lemma FormatsApart(c: Primitives, id: string, m: string, path: string, ts: int,
                     id2: string, m2: string, path2: string, ts2: int, body: Base64Url.Bytes)
    requires Abs(ts) <= Text.MAX_SAFE_INTEGER
    ensures Messages.BodilessMessage(id, m, path, ts)
         != Messages.Message(Messages.Request(id2, m2, path2, ts2, BodyHash(c, body)))
  {
    var s := Messages.Request(id2, m2, path2, ts2, BodyHash(c, body));
    HashLength(c, body);
    Base64Url.EncodeUrlSafe(c.sha256(body));
    Text.SafeIntegersAreShort(ts);
    if Messages.BodilessMessage(id, m, path, ts) == Messages.Message(s) {
      Messages.OverlapSpellsHash(id, m, path, ts, s);
      assert false;
    }
  }

  // ---------------------------------------------------------------- the guard

  /** What the middleware left for the guard, and the request itself; None for a body that is not bytes. */
  datatype GuardedRequest = GuardedRequest(
    sessionId: string, proofHeader: string, method_: string, path: string, body: Option<Base64Url.Bytes>)

  datatype GuardOptions = GuardOptions(
    allowDbscWithoutProof: Option<bool>, boundEnabled: bool, windowMs: int, use: CacheUse)

  datatype GuardAnswer = Passed | NoBinding | NoStorage | Refused(code: ErrorCode) | Crashed(code: ErrorCode)

  /** Without the polyfill no bound key ever exists, so the default then lets native sessions pass. */
  function Relaxed(opts: GuardOptions): bool {
    match opts.allowDbscWithoutProof
    case Some(allow) => allow
    case None => !opts.boundEnabled
  }

  function ProofOf(rq: GuardedRequest): ProofRequest {
    ProofRequest(rq.sessionId, rq.proofHeader, rq.method_, rq.path, Some(BodyOf(rq)), true)
  }

  /** A body that is not bytes counts as none. */
  function BodyOf(rq: GuardedRequest): Base64Url.Bytes {
    if rq.body.Some? then rq.body.value else []
  }

  /** requireProof and the guard it builds: a tier, then a body-signed proof. */
  function RequireProof(c: Primitives, other: string -> Option<int>, st: Store, cache: Cache, opts: GuardOptions,
                        tier: Tier, rq: GuardedRequest, now: int): (Cache, GuardAnswer)
  {
    if tier == TierNone || rq.sessionId == "" then (cache, NoBinding)
    else if tier == TierDbsc && Relaxed(opts) then (cache, Passed)
    else
      var (cache', failure) := VerifyBoundProof(c, other, st, cache, opts.use, ProofOf(rq), opts.windowMs, now);
      (cache',
       if failure.None? then Passed
       else if failure.value == InvalidCharacter then Crashed(failure.value)
       else Refused(failure.value))
  }

  /** The option lets native sessions pass without a proof; where it is absent, a polyfill that is off does. */
  predicate LetsNativePass(opts: GuardOptions) {
    opts.allowDbscWithoutProof == Some(true) || (opts.allowDbscWithoutProof == None && !opts.boundEnabled)
  }

  /** The request carries a header that reads as parts that prove it. */
  ghost predicate CarriesProof(c: Primitives, other: string -> Option<int>, st: Store, rq: GuardedRequest,
                               windowMs: int, now: int)
  {
    && rq.proofHeader != "" && ProofHeader.Parse(other, rq.proofHeader).Some?
    && Proves(c, st, ProofOf(rq), ProofHeader.Parse(other, rq.proofHeader).value, windowMs, now)
  }

  /**
   * The guard, exactly. A bound session passes without a proof if and only if it is native and the
   * option is true, or absent with the polyfill off, and then nothing is recorded; otherwise it
   * passes if and only if its proof proves the request and the tuple is not remembered, and the
   * tuple is recorded. What is not bound never passes.
   */
  lemma PassesExactly(c: Primitives, other: string -> Option<int>, st: Store, cache: Cache, opts: GuardOptions,
                      tier: Tier, rq: GuardedRequest, now: int)
    ensures var (cache', answer) := RequireProof(c, other, st, cache, opts, tier, rq, now);
      if tier == TierNone || rq.sessionId == "" then answer == NoBinding && cache' == cache
      else if tier == TierDbsc && LetsNativePass(opts) then answer == Passed && cache' == cache
      else if CarriesProof(c, other, st, rq, opts.windowMs, now) then
        var p := ProofHeader.Parse(other, rq.proofHeader).value;
        var (recorded, first) := Record(cache, opts.use, ReplayKey(rq.sessionId, p.ts, p.sig), now);
        cache' == recorded && answer == if first then Passed else Refused(ProofReplay)
      else cache' == cache && (answer.Refused? || answer.Crashed?) && answer != Refused(ProofReplay)
  {
    ChecksMean(c, other, st, ProofOf(rq), opts.windowMs, now);
  }

  /** Without storage nothing is checked, and only a missing binding is reported before that. */
  method HandleRequireProof(c: Primitives, other: string -> Option<int>, storage: MS.Storage?, replayCache: Adapter,
                            allowOption: Option<bool>, boundEnabled: bool, windowMs: int, tier: Tier,
                            rq: GuardedRequest, now: int) returns (answer: GuardAnswer)
    requires storage != null ==> storage.Valid()
    modifies Footprint(replayCache)
    ensures var opts := GuardOptions(allowOption, boundEnabled, windowMs, UseOf(replayCache, 2 * windowMs));
      if storage == null then
        && Contents(replayCache) == old(Contents(replayCache))
        && answer == if tier == TierNone then NoBinding else NoStorage
      else
        (Contents(replayCache), answer)
          == RequireProof(c, other, storage.State(), old(Contents(replayCache)), opts, tier, rq, now)
  {
    if tier == TierNone {
      return NoBinding;
    }
    if storage == null {
      return NoStorage;
    }
    if rq.sessionId == "" {
      return NoBinding;
    }
    var allowDbsc := if allowOption.Some? then allowOption.value else !boundEnabled;
    if tier == TierDbsc && allowDbsc {
      return Passed;
    }
    var bodyBytes: Base64Url.Bytes := [];
    if rq.body.Some? {
      bodyBytes := rq.body.value;
    }
    var failure := CheckBoundProof(c, other, storage, replayCache,
      ProofRequest(rq.sessionId, rq.proofHeader, rq.method_, rq.path, Some(bodyBytes), true), windowMs, now);
    if failure.None? {
      return Passed;
    }
    return if failure.value == InvalidCharacter then Crashed(failure.value) else Refused(failure.value);
  }
}
