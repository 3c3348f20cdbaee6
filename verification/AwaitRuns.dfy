/**
 * Every interleaving of any number of calls, each cut at its awaits, with sweeps, reads and
 * removals in between and no assumption on the clock: a challenge is used by one successful
 * call at most, and by one for the session it was issued to.
 */
module AwaitRuns {
  import opened Basics
  import opened Model
  import opened Crypto
  import opened Handlers
  import opened Awaits

  /** Calls are never forgotten, so a world holds the whole history of who has finished how. */
  datatype World = World(st: Store, calls: seq<Call>)

  datatype Move =
    | Spawn(req: Request)
    | Advance(i: nat, now: int, shared: bool)
    | Sweep(now: int)
    | Read(id: string, jti: string, now: int)
    | Revoke(id: string)
    | Delete(id: string)
    | RevokeAll(userId: string)

  /** The moves that take keys away. */
  predicate Removes(m: Move) {
    m.Revoke? || m.Delete? || m.RevokeAll?
  }

  function Issues(req: Request): Option<string> {
    match req
    case Bind(_, _, _, jti) => Some(jti)
    case AskState(_, jti) => Some(jti)
    case Issue(_, jti, _) => Some(jti)
    case _ => None
  }

  /** A request that will issue a challenge brings a name no other request has brought. */
  ghost predicate Enabled(w: World, m: Move) {
    match m
    case Spawn(req) => Issues(req).Some? ==> forall call <- w.calls :: Issues(call.req) != Issues(req)
    case Advance(i, _, _) => i < |w.calls|
    case _ => true
  }

  function Next(c: Primitives, w: World, m: Move): World {
    match m
    case Spawn(req) => w.(calls := w.calls + [Call(req, Start)])
    case Advance(i, now, shared) =>
      if i < |w.calls| then
        var (st', call') := Micro(c, w.st, w.calls[i], now, shared);
        World(st', w.calls[i := call'])
      else w
    case Sweep(now) => w.(st := Gc(w.st, now))
    case Read(id, jti, now) => w.(st := GetChallenge(GetSession(w.st, id, now).0, jti, now).0)
    case Revoke(id) => w.(st := RevokeSession(w.st, id))
    case Delete(id) => w.(st := DeleteSession(w.st, id))
    case RevokeAll(user) => w.(st := RevokeAllForUser(w.st, user))
  }

  const INITIAL := World(EMPTY, [])

  function After(c: Primitives, moves: seq<Move>): World {
    if moves == [] then INITIAL else Next(c, After(c, moves[..|moves| - 1]), moves[|moves| - 1])
  }

  ghost predicate IsRun(c: Primitives, moves: seq<Move>) {
    forall i :: 0 <= i < |moves| ==> Enabled(After(c, moves[..i]), moves[i])
  }

  // ---------------------------------------------------------------- about one call

  predicate IsHandler(req: Request) {
    req.Register? || req.NativeRefresh? || req.RegisterBound? || req.RefreshBound?
  }

  function SessionOf(req: Request): string {
    match req
    case Register(r) => r.sessionId
    case NativeRefresh(r) => r.sessionId
    case RegisterBound(r) => r.sessionId
    case RefreshBound(r) => r.sessionId
    case _ => req.id
  }

  function JtiOf(req: Request): string
    requires IsHandler(req)
  {
    match req
    case Register(r) => r.expectedJti
    case NativeRefresh(r) => r.expectedJti
    case RegisterBound(r) => r.expectedJti
    case RefreshBound(r) => r.expectedJti
  }

  predicate Succeeded(call: Call) {
    && call.pc.Finished?
    && ((call.pc.output.KeyOut? && call.pc.output.key.Success?)
        || (call.pc.output.ProofOut? && call.pc.output.proof.Success?))
  }

  /** The call has been told that it consumed the challenge. */
  predicate Won(call: Call) {
    && IsHandler(call.req)
    && (call.pc == GotConsumed(true) || call.pc.KeyStored? || call.pc.GotSession? || call.pc.GotNative?
        || Succeeded(call))
  }

  /** The call has found the challenge acceptable. */
  predicate Past(call: Call) {
    IsHandler(call.req) && (call.pc.Checked? || call.pc.GotExisting? || call.pc.GotConsumed? || Won(call))
  }

  /** The challenge a call will still issue. */
  predicate Pending(call: Call, jti: string) {
    Issues(call.req) == Some(jti) && !call.pc.Finished?
  }

  function Captured(pc: Pc): Option<Session> {
    match pc
    case GotSession(_, s) => s
    case GotNative(_, row, _) => Some(row)
    case GotBoth(row, _, _) => Some(row)
    case BurntSession(s) => s
    case _ => None
  }

  // ---------------------------------------------------------------- single use

  /** A challenge record agrees with the request it was issued for. */
  ghost predicate IssuedTo(calls: seq<Call>, jti: string, id: string) {
    exists call <- calls :: Issues(call.req) == Some(jti) && SessionOf(call.req) == id
  }

  /** The challenge is no longer usable, and nobody will issue it again. */
  ghost predicate SpentForGood(w: World, jti: string) {
    && (jti in w.st.challenges ==> w.st.challenges[jti].consumed)
    && forall call <- w.calls :: !Pending(call, jti)
  }

  /** A stored challenge has its name, an issuer of its session, and nobody who will issue it again. */
  ghost predicate RowSound(calls: seq<Call>, jti: string, ch: Challenge) {
    ch.jti == jti && IssuedTo(calls, jti, ch.sessionId) && forall call <- calls :: !Pending(call, jti)
  }

  ghost predicate ChallengesSound(w: World) {
    forall jti <- w.st.challenges :: RowSound(w.calls, jti, w.st.challenges[jti])
  }

  ghost predicate CallSound(w: World, call: Call) {
    && (call.pc.GotChallenge? && call.pc.challenge.Some? && IsHandler(call.req) ==>
          && call.pc.challenge.value.jti == JtiOf(call.req)
          && IssuedTo(w.calls, JtiOf(call.req), call.pc.challenge.value.sessionId))
    && (Past(call) ==> IssuedTo(w.calls, JtiOf(call.req), SessionOf(call.req)))
    && (Won(call) ==> SpentForGood(w, JtiOf(call.req)))
  }

  ghost predicate SingleUse(w: World) {
    forall i, j :: 0 <= i < j < |w.calls| && Won(w.calls[i]) && Won(w.calls[j]) ==>
      JtiOf(w.calls[i].req) != JtiOf(w.calls[j].req)
  }

  ghost predicate OneIssuer(w: World) {
    forall i, j :: 0 <= i < j < |w.calls| && Issues(w.calls[i].req).Some? ==>
      Issues(w.calls[i].req) != Issues(w.calls[j].req)
  }

  ghost predicate NonceInv(w: World) {
    ChallengesSound(w) && (forall call <- w.calls :: CallSound(w, call)) && SingleUse(w) && OneIssuer(w)
  }

  // ---------------------------------------------------------------- what one step does

  /** The challenges after a step: as before, less one row, with the own one spent, or with the own one issued. */
  ghost predicate NonceStep(st: Store, st': Store, call: Call, call': Call) {
    || (st'.challenges == st.challenges && (Won(call') ==> Won(call)))
    || (IsHandler(call.req) && st'.challenges == st.challenges - {JtiOf(call.req)} && !Won(call'))
    || (Past(call) && !Won(call) && st'.challenges == ConsumeChallenge(st, JtiOf(call.req)).0.challenges
        && (Won(call') ==> ConsumeChallenge(st, JtiOf(call.req)).1))
    || (Issues(call.req).Some? && !call.pc.Finished? && call'.pc.Finished?
        && exists ttl, now ::
             st'.challenges == IssueChallenge(st, SessionOf(call.req), Issues(call.req).value, ttl, now).challenges)
  }

  /** What a call knows after a step, from what it knew or read. */
  ghost predicate PcStep(st: Store, call: Call, call': Call) {
    && call'.req == call.req
    && (call.pc.Finished? ==> call'.pc.Finished?)
    && (Past(call') ==>
          || Past(call)
          || (call.pc.GotChallenge? && call.pc.challenge.Some?
              && call.pc.challenge.value.sessionId == SessionOf(call.req)))
    && (IsHandler(call.req) && call'.pc.GotChallenge? && call'.pc.challenge.Some? ==>
          || call' == call
          || (JtiOf(call.req) in st.challenges && call'.pc.challenge.value == st.challenges[JtiOf(call.req)]))
  }

  /** The program counters each kind of call can be at. */
  predicate Fits(call: Call) {
    var pc := call.pc;
    match call.req
    case Register(_) =>
      && !pc.GotKey? && !pc.GotNative? && !pc.GotBoth? && !pc.Burnt? && !pc.BurntSession? && !pc.Saved? && !pc.Checked?
      && (pc.GotSession? ==> pc.made.Some?)
    case NativeRefresh(_) =>
      !pc.GotNative? && !pc.GotBoth? && !pc.Saved? && !pc.GotExisting? && !pc.KeyStored?
    case RegisterBound(_) =>
      && !pc.GotKey? && !pc.GotBoth? && !pc.Burnt? && !pc.BurntSession? && !pc.Saved?
      && (pc.GotSession? ==> pc.made.Some?) && (pc.GotNative? ==> pc.made.Some?)
    case RefreshBound(_) => !pc.GotBoth? && !pc.Saved? && !pc.GotExisting? && !pc.KeyStored?
    case Bind(_, _, _, _) => pc.Start? || pc.GotSession? || pc.Saved? || pc.Finished?
    case AskState(_, _) => pc.Start? || pc.GotSession? || pc.GotNative? || pc.GotBoth? || pc.Finished?
    case Issue(_, _, _) => pc.Start? || pc.Finished?
    case AskTier(_, _, _) => pc.Start? || pc.GotSession? || pc.Finished?
  }

  lemma RegisterPc(c: Primitives, st: Store, call: Call, now: int, shared: bool)
    requires call.req.Register? && Fits(call)
    ensures var (st', call') := Micro(c, st, call, now, shared); Fits(call') && PcStep(st, call, call')
  {}

  lemma RegisterNonces(c: Primitives, st: Store, call: Call, now: int, shared: bool)
    requires call.req.Register? && Fits(call)
    ensures var (st', call') := Micro(c, st, call, now, shared);
      Fits(call') && NonceStep(st, st', call, call') && PcStep(st, call, call')
  {
    RegisterPc(c, st, call, now, shared);
  }

  lemma RefreshPc(c: Primitives, st: Store, call: Call, now: int, shared: bool)
    requires call.req.NativeRefresh? && Fits(call)
    ensures var (st', call') := Micro(c, st, call, now, shared); Fits(call') && PcStep(st, call, call')
  {}

  lemma RefreshNonces(c: Primitives, st: Store, call: Call, now: int, shared: bool)
    requires call.req.NativeRefresh? && Fits(call)
    ensures var (st', call') := Micro(c, st, call, now, shared);
      Fits(call') && NonceStep(st, st', call, call') && PcStep(st, call, call')
  {
    RefreshPc(c, st, call, now, shared);
  }

  lemma RegisterBoundPc(c: Primitives, st: Store, call: Call, now: int, shared: bool)
    requires call.req.RegisterBound? && Fits(call)
    ensures var (st', call') := Micro(c, st, call, now, shared); Fits(call') && PcStep(st, call, call')
  {}

  lemma RegisterBoundNonces(c: Primitives, st: Store, call: Call, now: int, shared: bool)
    requires call.req.RegisterBound? && Fits(call)
    ensures var (st', call') := Micro(c, st, call, now, shared);
      Fits(call') && NonceStep(st, st', call, call') && PcStep(st, call, call')
  {
    RegisterBoundPc(c, st, call, now, shared);
  }

  lemma RefreshBoundPc(c: Primitives, st: Store, call: Call, now: int, shared: bool)
    requires call.req.RefreshBound? && Fits(call)
    ensures var (st', call') := Micro(c, st, call, now, shared); Fits(call') && PcStep(st, call, call')
  {}

  lemma RefreshBoundNonces(c: Primitives, st: Store, call: Call, now: int, shared: bool)
    requires call.req.RefreshBound? && Fits(call)
    ensures var (st', call') := Micro(c, st, call, now, shared);
      Fits(call') && NonceStep(st, st', call, call') && PcStep(st, call, call')
  {
    RefreshBoundPc(c, st, call, now, shared);
  }

  lemma RouteNonces(c: Primitives, st: Store, call: Call, now: int, shared: bool)
    requires !IsHandler(call.req) && Fits(call)
    ensures var (st', call') := Micro(c, st, call, now, shared);
      Fits(call') && NonceStep(st, st', call, call') && PcStep(st, call, call')
  {
    if Issues(call.req).Some? && !call.pc.Finished? {
      var ttl := if call.req.Issue? then call.req.ttl else CHALLENGE_TTL_MS;
      var st' := Micro(c, st, call, now, shared).0;
      var issued := IssueChallenge(st, SessionOf(call.req), Issues(call.req).value, ttl, now);
      assert st'.challenges == issued.challenges || st'.challenges == st.challenges;
    }
  }

  lemma MicroNonces(c: Primitives, st: Store, call: Call, now: int, shared: bool)
    requires Fits(call)
    ensures var (st', call') := Micro(c, st, call, now, shared);
      Fits(call') && NonceStep(st, st', call, call') && PcStep(st, call, call')
  {
    match call.req
    case Register(_) => RegisterNonces(c, st, call, now, shared);
    case NativeRefresh(_) => RefreshNonces(c, st, call, now, shared);
    case RegisterBound(_) => RegisterBoundNonces(c, st, call, now, shared);
    case RefreshBound(_) => RefreshBoundNonces(c, st, call, now, shared);
    case _ => RouteNonces(c, st, call, now, shared);
  }

  // ---------------------------------------------------------------- single use is invariant

  /** The parts of the world that a step of call i can change, besides the challenges. */
  lemma IssuedToKept(calls: seq<Call>, calls': seq<Call>, jti: string, id: string)
    requires IssuedTo(calls, jti, id)
    requires |calls| <= |calls'| && forall i :: 0 <= i < |calls| ==> calls'[i].req == calls[i].req
    ensures IssuedTo(calls', jti, id)
  {}

  ghost predicate AllFit(w: World) {
    forall call <- w.calls :: Fits(call)
  }

  lemma SpawnChallenges(w: World, req: Request)
    requires NonceInv(w) && Enabled(w, Spawn(req))
    ensures ChallengesSound(w.(calls := w.calls + [Call(req, Start)]))
  {
    var calls := w.calls + [Call(req, Start)];
    forall jti <- w.st.challenges
      ensures IssuedTo(calls, jti, w.st.challenges[jti].sessionId) && !Pending(Call(req, Start), jti)
    {
      assert RowSound(w.calls, jti, w.st.challenges[jti]);
      IssuedToKept(w.calls, calls, jti, w.st.challenges[jti].sessionId);
    }
    assert forall call <- calls :: call in w.calls || call == Call(req, Start);
  }

  lemma SpawnNonces(w: World, req: Request)
    requires NonceInv(w) && AllFit(w) && Enabled(w, Spawn(req))
    ensures var w' := w.(calls := w.calls + [Call(req, Start)]); NonceInv(w') && AllFit(w')
  {
    var w' := w.(calls := w.calls + [Call(req, Start)]);
    SpawnChallenges(w, req);
    forall call <- w'.calls
      ensures CallSound(w', call)
    {
      if call in w.calls {
        SpawnKeepsCall(w, req, call);
      }
    }
  }

  lemma SpawnKeepsCall(w: World, req: Request, call: Call)
    requires NonceInv(w) && Enabled(w, Spawn(req)) && call in w.calls
    ensures CallSound(w.(calls := w.calls + [Call(req, Start)]), call)
  {
    var calls := w.calls + [Call(req, Start)];
    forall jti, id | IssuedTo(w.calls, jti, id)
      ensures IssuedTo(calls, jti, id)
    {
      IssuedToKept(w.calls, calls, jti, id);
    }
    assert forall other <- calls :: other in w.calls || other == Call(req, Start);
  }

  ghost predicate Stepped(w: World, i: nat, w': World) {
    && i < |w.calls| && |w'.calls| == |w.calls|
    && (forall k :: 0 <= k < |w.calls| && k != i ==> w'.calls[k] == w.calls[k])
    && NonceStep(w.st, w'.st, w.calls[i], w'.calls[i])
    && PcStep(w.st, w.calls[i], w'.calls[i])
  }

  /** Nobody becomes pending by taking a step. */
  lemma SteppedPending(w: World, i: nat, w': World, jti: string)
    requires Stepped(w, i, w') && forall call <- w.calls :: !Pending(call, jti)
    ensures forall call <- w'.calls :: !Pending(call, jti)
  {
    forall k | 0 <= k < |w'.calls|
      ensures !Pending(w'.calls[k], jti)
    {
      assert w.calls[k] in w.calls;
    }
  }

  /** A row that a step keeps, but for its consumed flag. */
  lemma RowStays(w: World, i: nat, w': World, jti: string, ch: Challenge, ch': Challenge)
    requires Stepped(w, i, w') && RowSound(w.calls, jti, ch) && ch'.jti == ch.jti && ch'.sessionId == ch.sessionId
    ensures RowSound(w'.calls, jti, ch')
  {
    IssuedToKept(w.calls, w'.calls, jti, ch.sessionId);
    SteppedPending(w, i, w', jti);
  }

  /** A row that a step writes: its issuer is done, and no other call brings the name. */
  lemma RowIssued(w: World, i: nat, w': World, jti: string, ch: Challenge)
    requires Stepped(w, i, w') && OneIssuer(w) && w'.calls[i].pc.Finished?
    requires Issues(w.calls[i].req) == Some(jti) && ch.jti == jti && ch.sessionId == SessionOf(w.calls[i].req)
    ensures RowSound(w'.calls, jti, ch)
  {
    assert w'.calls[i] in w'.calls;
    forall k | 0 <= k < |w'.calls|
      ensures !Pending(w'.calls[k], jti)
    {
      assert k < i ==> Issues(w.calls[k].req) != Some(jti);
    }
  }

  /** What a step makes of the rows: each is as before but for its flag, or newly issued. */
  lemma RowOrigin(st: Store, st': Store, call: Call, call': Call, jti: string)
    requires NonceStep(st, st', call, call') && jti in st'.challenges
    ensures var ch := st'.challenges[jti];
      || (jti in st.challenges && ch == st.challenges[jti].(consumed := ch.consumed))
      || (Issues(call.req) == Some(jti) && call'.pc.Finished? && ch.jti == jti && ch.sessionId == SessionOf(call.req))
  {}

  lemma SteppedChallenges(w: World, i: nat, w': World)
    requires Stepped(w, i, w') && ChallengesSound(w) && OneIssuer(w)
    ensures ChallengesSound(w')
  {
    forall jti <- w'.st.challenges
      ensures RowSound(w'.calls, jti, w'.st.challenges[jti])
    {
      var ch := w'.st.challenges[jti];
      RowOrigin(w.st, w'.st, w.calls[i], w'.calls[i], jti);
      if jti in w.st.challenges && ch == w.st.challenges[jti].(consumed := ch.consumed) {
        RowStays(w, i, w', jti, w.st.challenges[jti], ch);
      } else {
        RowIssued(w, i, w', jti, ch);
      }
    }
  }

  lemma SteppedSpent(w: World, i: nat, w': World, jti: string)
    requires Stepped(w, i, w') && SpentForGood(w, jti)
    ensures SpentForGood(w', jti)
  {
    SteppedPending(w, i, w', jti);
    assert w.calls[i] in w.calls && !Pending(w.calls[i], jti);
  }

  /** The other calls know nothing new. */
  lemma SteppedOther(w: World, i: nat, w': World, call: Call)
    requires Stepped(w, i, w') && call in w.calls && CallSound(w, call)
    ensures CallSound(w', call)
  {
    forall jti, id | IssuedTo(w.calls, jti, id)
      ensures IssuedTo(w'.calls, jti, id)
    {
      IssuedToKept(w.calls, w'.calls, jti, id);
    }
    if Won(call) {
      SteppedSpent(w, i, w', JtiOf(call.req));
    }
  }

  lemma SteppedWinner(w: World, i: nat, w': World)
    requires Stepped(w, i, w') && NonceInv(w) && Won(w'.calls[i])
    ensures SpentForGood(w', JtiOf(w'.calls[i].req))
    ensures !Won(w.calls[i]) ==> !SpentForGood(w, JtiOf(w'.calls[i].req))
  {
    var jti := JtiOf(w.calls[i].req);
    assert w.calls[i] in w.calls;
    if Won(w.calls[i]) {
      SteppedSpent(w, i, w', jti);
    } else {
      assert jti in w.st.challenges && !w.st.challenges[jti].consumed;
      SteppedPending(w, i, w', jti);
    }
  }

  lemma SteppedSelf(w: World, i: nat, w': World)
    requires Stepped(w, i, w') && NonceInv(w)
    ensures CallSound(w', w'.calls[i])
  {
    var call, call' := w.calls[i], w'.calls[i];
    assert call in w.calls;
    forall jti, id | IssuedTo(w.calls, jti, id)
      ensures IssuedTo(w'.calls, jti, id)
    {
      IssuedToKept(w.calls, w'.calls, jti, id);
    }
    if Won(call') {
      SteppedWinner(w, i, w');
    }
  }

  lemma SteppedSingleUse(w: World, i: nat, w': World)
    requires Stepped(w, i, w') && NonceInv(w)
    ensures SingleUse(w')
  {
    forall j, k | 0 <= j < k < |w'.calls| && Won(w'.calls[j]) && Won(w'.calls[k])
      ensures JtiOf(w'.calls[j].req) != JtiOf(w'.calls[k].req)
    {
      assert w.calls[j] in w.calls && w.calls[k] in w.calls;
      if j == i || k == i {
        SteppedWinner(w, i, w');
      }
    }
  }

  lemma SteppedInv(w: World, i: nat, w': World)
    requires Stepped(w, i, w') && NonceInv(w)
    ensures NonceInv(w')
  {
    SteppedChallenges(w, i, w');
    SteppedSingleUse(w, i, w');
    forall k | 0 <= k < |w'.calls|
      ensures CallSound(w', w'.calls[k])
    {
      if k == i {
        SteppedSelf(w, i, w');
      } else {
        assert w.calls[k] in w.calls;
        SteppedOther(w, i, w', w.calls[k]);
      }
    }
  }

  /** Dropping challenge rows disturbs nothing. */
  lemma EvictedInv(w: World, st': Store)
    requires NonceInv(w) && st'.challenges.Keys <= w.st.challenges.Keys
    requires forall jti <- st'.challenges :: st'.challenges[jti] == w.st.challenges[jti]
    ensures NonceInv(w.(st := st'))
  {}

  lemma AdvanceNonces(c: Primitives, w: World, i: nat, now: int, shared: bool)
    requires NonceInv(w) && AllFit(w) && i < |w.calls|
    ensures var w' := Next(c, w, Advance(i, now, shared)); NonceInv(w') && AllFit(w')
  {
    assert w.calls[i] in w.calls;
    MicroNonces(c, w.st, w.calls[i], now, shared);
    SteppedInv(w, i, Next(c, w, Advance(i, now, shared)));
  }

  lemma NextNonces(c: Primitives, w: World, m: Move)
    requires NonceInv(w) && AllFit(w) && Enabled(w, m)
    ensures NonceInv(Next(c, w, m)) && AllFit(Next(c, w, m))
  {
    match m
    case Spawn(req) => SpawnNonces(w, req);
    case Advance(i, now, shared) => AdvanceNonces(c, w, i, now, shared);
    case _ => EvictedInv(w, Next(c, w, m).st);
  }

  lemma {:induction false} NoncesSound(c: Primitives, moves: seq<Move>)
    requires IsRun(c, moves)
    ensures NonceInv(After(c, moves)) && AllFit(After(c, moves))
  {
    if moves != [] {
      var prefix := moves[..|moves| - 1];
      assert forall i | 0 <= i <= |prefix| :: prefix[..i] == moves[..i];
      NoncesSound(c, prefix);
      NextNonces(c, After(c, prefix), moves[|moves| - 1]);
    }
  }

  /**
   * Single use: under every interleaving, two different calls that both succeed used different
   * challenges, and each used one that was issued to its own session.
   */
  lemma {:induction false} ChallengesSingleUse(c: Primitives, moves: seq<Move>, i: nat, j: nat)
    requires IsRun(c, moves)
    requires var calls := After(c, moves).calls;
      && i < j < |calls| && IsHandler(calls[i].req) && IsHandler(calls[j].req)
      && Succeeded(calls[i]) && Succeeded(calls[j])
    ensures var calls := After(c, moves).calls;
      && JtiOf(calls[i].req) != JtiOf(calls[j].req)
      && IssuedTo(calls, JtiOf(calls[i].req), SessionOf(calls[i].req))
      && IssuedTo(calls, JtiOf(calls[j].req), SessionOf(calls[j].req))
  {
    NoncesSound(c, moves);
    var calls := After(c, moves).calls;
    assert calls[i] in calls && calls[j] in calls;
  }
}
