/**
 * The racy state that the state route guards against is reachable: a polyfill registration
 * captures the session, a native registration completes in between, and the captured row is
 * written back at tier bound. So the strong tier invariant of the atomic runs does not survive
 * interleaving, and only the claims of AwaitRuns and AwaitTiers do.
 */
module AwaitRace {
  import opened Basics
  import opened Model
  import opened Crypto
  import opened Handlers
  import opened Awaits
  import opened AwaitRuns
  import Text

  /** A run is grown one enabled move at a time. */
  lemma Extend(c: Primitives, moves: seq<Move>, m: Move)
    requires IsRun(c, moves) && Enabled(After(c, moves), m)
    ensures IsRun(c, moves + [m]) && After(c, moves + [m]) == Next(c, After(c, moves), m)
  {
    var longer := moves + [m];
    assert longer[..|longer| - 1] == moves;
    forall i | 0 <= i < |longer|
      ensures Enabled(After(c, longer[..i]), longer[i])
    {
      if i < |moves| {
        assert longer[..i] == moves[..i];
      } else {
        assert longer[..i] == moves;
      }
    }
  }

  /** Advancing one call n times in a row is running it alone. */
  lemma {:induction false} AdvanceMany(c: Primitives, moves: seq<Move>, i: nat, n: nat, now: int)
    returns (longer: seq<Move>)
    requires IsRun(c, moves) && i < |After(c, moves).calls|
    ensures IsRun(c, longer)
    ensures var w := After(c, moves);
      var (st, call) := Alone(c, w.st, w.calls[i], now, false, n);
      After(c, longer) == World(st, w.calls[i := call])
    decreases n
  {
    var w := After(c, moves);
    if n == 0 {
      longer := moves;
      assert w.calls[i := w.calls[i]] == w.calls;
    } else {
      var m := Advance(i, now, false);
      Extend(c, moves, m);
      longer := AdvanceMany(c, moves + [m], i, n - 1, now);
      var w1 := After(c, moves + [m]);
      var end := Alone(c, w.st, w.calls[i], now, false, n).1;
      assert w1.calls[i := end] == w.calls[i := end];
    }
  }

  /** Spawning a call and running it to its end is its atomic function. */
  lemma {:induction false} RunWhole(c: Primitives, moves: seq<Move>, req: Request, now: int) returns (longer: seq<Move>)
    requires IsRun(c, moves) && Enabled(After(c, moves), Spawn(req)) && Named(After(c, moves).st)
    ensures IsRun(c, longer)
    ensures var w := After(c, moves);
      var (st, out) := Atomic(c, w.st, req, now);
      After(c, longer) == World(st, w.calls + [Call(req, Finished(out))])
  {
    var w := After(c, moves);
    Extend(c, moves, Spawn(req));
    longer := AdvanceMany(c, moves + [Spawn(req)], |w.calls|, Steps(req), now);
    AloneIsAtomic(c, w.st, req, now, false);
    var (_, out) := Atomic(c, w.st, req, now);
    assert (w.calls + [Call(req, Start)])[|w.calls| := Call(req, Finished(out))]
        == w.calls + [Call(req, Finished(out))];
  }

  const SID := "s"

  /** Requests that the primitives accept: a native token for challenge "a", a polyfill signature for "b". */
  ghost predicate Acceptable(c: Primitives, r: TokenRequest, jws: RegistrationJws, p: BoundRegistrationRequest) {
    && r.sessionId == SID && r.expectedJti == "a" && r.response != ""
    && ParseRegistrationJws(c, Text.Trim(r.response)) == Success(jws) && jws.jti == Some("a")
    && p.sessionId == SID && p.expectedJti == "b" && BoundRegistrationWellFormed(p)
    && VerifyP256(c, p.publicKey.value, p.signature, "b") == Success(true)
  }

  /** The store when both challenges are out and nothing is registered yet. */
  function Ready(now: int): Store {
    Store(map[SID := NewSession(SID, "u", 1000, now)], map[],
          map["a" := NewChallenge(SID, "a", CHALLENGE_TTL_MS, now),
              "b" := NewChallenge(SID, "b", CHALLENGE_TTL_MS, now)], {})
  }

  lemma {:induction false} ReachReady(c: Primitives, now: int) returns (moves: seq<Move>)
    ensures IsRun(c, moves) && After(c, moves).st == Ready(now)
  {
    moves := RunWhole(c, [], Bind(SID, "u", 1000, "a"), now);
    assert After(c, moves).calls == [Call(Bind(SID, "u", 1000, "a"), Finished(Done))];
    moves := RunWhole(c, moves, Issue(SID, "b", CHALLENGE_TTL_MS), now);
    assert After(c, moves).st == Ready(now);
  }

  /** Seven steps into the polyfill registration: its key is stored, and a row at none is captured. */
  lemma PoisedAlone(c: Primitives, r: TokenRequest, jws: RegistrationJws, p: BoundRegistrationRequest, now: int)
    requires Acceptable(c, r, jws, p)
    ensures var key := BoundKey(SID, Bound, p.publicKey.value, now, ES256);
      Alone(c, Ready(now), Call(RegisterBound(p), Start), now, false, 7)
        == (SetBoundKey(ConsumeChallenge(Ready(now), "b").0, key),
            Call(RegisterBound(p), GotNative(Some(key), Ready(now).sessions[SID], None)))
  {}

  /** The store behind the poised call. */
  function Poised(p: BoundRegistrationRequest, now: int): Store
    requires p.publicKey.Some?
  {
    SetBoundKey(ConsumeChallenge(Ready(now), "b").0, BoundKey(SID, Bound, p.publicKey.value, now, ES256))
  }

  /** The native registration goes through there, and lifts the row to dbsc. */
  lemma NativeLands(c: Primitives, r: TokenRequest, jws: RegistrationJws, p: BoundRegistrationRequest, now: int)
    requires Acceptable(c, r, jws, p)
    ensures Named(Poised(p, now))
    ensures var st := Registration(c, Poised(p, now), r, now).0;
      && Slot(SID, Native) in st.slots && Slot(SID, Bound) in st.slots
      && SID in st.sessions && st.sessions[SID].tier == TierDbsc
  {}

  /** The racy run exists: a row reads bound although the session holds a native key. */
  lemma {:induction false} RacyStateReachable(c: Primitives, r: TokenRequest, jws: RegistrationJws,
                                              p: BoundRegistrationRequest, now: int)
    returns (moves: seq<Move>)
    requires Acceptable(c, r, jws, p)
    ensures IsRun(c, moves)
    ensures var st := After(c, moves).st;
      && SID in st.sessions && st.sessions[SID].tier == TierBound
      && Slot(SID, Native) in st.slots && Slot(SID, Bound) in st.slots
  {
    moves := ReachReady(c, now);
    var n := |After(c, moves).calls|;
    Extend(c, moves, Spawn(RegisterBound(p)));
    moves := AdvanceMany(c, moves + [Spawn(RegisterBound(p))], n, 7, now);
    PoisedAlone(c, r, jws, p, now);
    var poised := After(c, moves);
    NativeLands(c, r, jws, p, now);
    moves := RunWhole(c, moves, Register(r), now);
    Overwrite(c, moves, n, poised.calls[n], now);
    moves := moves + [Advance(n, now, false)];
  }

  /** The poised call then writes its stale row back. */
  lemma Overwrite(c: Primitives, moves: seq<Move>, n: nat, call: Call, now: int)
    requires IsRun(c, moves) && n < |After(c, moves).calls| && After(c, moves).calls[n] == call
    requires call.req.RegisterBound? && call.pc.GotNative? && call.pc.made.Some? && call.pc.native.None?
    requires call.pc.row.id == SID
    ensures IsRun(c, moves + [Advance(n, now, false)])
    ensures var st, st' := After(c, moves).st, After(c, moves + [Advance(n, now, false)]).st;
      st'.slots == st.slots && SID in st'.sessions && st'.sessions[SID].tier == TierBound
  {
    StaleWrite(c, After(c, moves).st, call, now);
    Extend(c, moves, Advance(n, now, false));
  }

  lemma StaleWrite(c: Primitives, st: Store, call: Call, now: int)
    requires call.req.RegisterBound? && call.pc.GotNative? && call.pc.made.Some? && call.pc.native.None?
    requires call.pc.row.id == SID
    ensures var st' := Micro(c, st, call, now, false).0;
      st'.slots == st.slots && SID in st'.sessions && st'.sessions[SID].tier == TierBound
  {}
}
