/**
 * One set of primitives, one client and one request for which the conditions of the reachability
 * lemmas hold: nothing they ask for is contradictory.
 */
module Example {
  import opened Basics
  import opened Model
  import opened Crypto
  import opened Handlers
  import opened Proof
  import opened Agreement
  import opened HonestFlow
  import AtomicRuns
  import AwaitRace
  import AwaitRuns
  import Base64Url
  import Messages
  import ProofHeader
  import Replay
  import Text

  const KEY := Jwk("EC", "P-256", "x", "y", "")

  /** The one signature there is; its text starts with '-'. */
  const SIGNATURE: Base64Url.Bytes := [248]

  const ZERO_DIGEST: Digest := seq(32, _ => 0)

  const PRIMITIVES := Primitives(
    (key, sig, text) => key == KEY && sig == SIGNATURE,
    key => key == KEY,
    bytes => ZERO_DIGEST,
    token => Some(JwsHeader(DBSC_TYPE, "ES256", Some(KEY))),
    (key, alg) => key == KEY,
    (token, key) => Some(Some("a")))

  const SIGNER := Signer(KeyRecord("s", KEY, 0), text => SIGNATURE)

  const UNSIGNED := GuardedRequest("s", "", "POST", "/pay", None)

  const REQUEST := UNSIGNED.(proofHeader := SignedHeader(PRIMITIVES, SIGNER, OutgoingOf(UNSIGNED), 0))

  const REGISTRATION := BoundRegistrationRequest("s", Some(KEY), Base64Url.Encode(SIGNATURE), "b")

  const FLOW := Flow(SIGNER, "u", 1000, REGISTRATION, REQUEST, 0, Times(0, 0, 0, 0))

  const SETUP := Setup(AtomicRuns.Config(600_000, 5_000),
                       GuardOptions(None, true, 300_000, Replay.InProcess(600_000)), true, Messages.Rooted)

  lemma SignatureText()
    ensures |Base64Url.Encode(SIGNATURE)| == 2 && Base64Url.Encode(SIGNATURE)[0] == '-'
  {
    Base64Url.EncodeShape(SIGNATURE);
    assert Base64Url.Sextets(SIGNATURE) == Base64Url.LastOne(248);
  }

  lemma HeaderFits()
    ensures |REQUEST.proofHeader| <= ProofHeader.MAX_HEADER_LEN
  {
    SignatureText();
    HashLength(PRIMITIVES, []);
    var p := SignedParts(PRIMITIVES, SIGNER, OutgoingOf(UNSIGNED), 0);
    assert |Text.PrintInt(p.ts)| == 1;
  }

  /** The flow of an honest client can be had, under strict options, with a '-' early in its signature. */
  lemma FlowIsProper()
    ensures Strict(SETUP) && SETUP.strictTimers && Proper(PRIMITIVES, SETUP, FLOW)
    ensures ProperlyNamed(SETUP.naming, REQUEST)
    ensures '-' in SigPrefix(SignedParts(PRIMITIVES, SIGNER, OutgoingOf(REQUEST), 0).sig)
  {
    SignatureText();
    HeaderFits();
    Base64Url.DecodeEncode(SIGNATURE);
  }

  /** So agreement has a run to speak of, in which a request passes. */
  lemma AgreementIsNotEmpty(other: string -> Option<int>)
    ensures var run := FlowRun(PRIMITIVES, FLOW);
      Agreement.IsRun(PRIMITIVES, other, SETUP, run) && HonestRun(PRIMITIVES, other, SETUP, run)
      && Passes(PRIMITIVES, other, SETUP, run, 3)
  {
    FlowIsProper();
    HonestFlowPasses(PRIMITIVES, other, SETUP, FLOW);
    HonestFlowIsHonest(PRIMITIVES, other, SETUP, FLOW);
  }

  /** And a run in which one signature lets two requests through. */
  lemma OneSignatureTwice(other: string -> Option<int>)
    ensures var run := ResentRun(PRIMITIVES, FLOW);
      && Agreement.IsRun(PRIMITIVES, other, SETUP, run)
      && Passes(PRIMITIVES, other, SETUP, run, 3) && Passes(PRIMITIVES, other, SETUP, run, 4)
      && Accounted(PRIMITIVES, other, SETUP, run, 3, 2, true) && Accounted(PRIMITIVES, other, SETUP, run, 4, 2, true)
  {
    FlowIsProper();
    TwoPassOnOneSignature(PRIMITIVES, other, SETUP, FLOW);
  }

  /** The racy state is reached by requests that these primitives accept. */
  lemma RaceHappens(now: int) returns (moves: seq<AwaitRuns.Move>)
    ensures AwaitRuns.IsRun(PRIMITIVES, moves)
    ensures var st := AwaitRuns.After(PRIMITIVES, moves).st;
      && "s" in st.sessions && st.sessions["s"].tier == TierBound
      && Slot("s", Native) in st.slots && Slot("s", Bound) in st.slots
  {
    SignatureText();
    Base64Url.DecodeEncode(SIGNATURE);
    var token := TokenRequest("s", "t", "a");
    var jws := RegistrationJws(Some("a"), KEY, ES256);
    moves := AwaitRace.RacyStateReachable(PRIMITIVES, token, jws, REGISTRATION, now);
  }
}
