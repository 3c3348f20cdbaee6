/**
 * Tier soundness under every interleaving without revocation: each row, stored or captured by
 * a call in flight, names a tier whose key exists, and the state route reports dbsc exactly
 * when it read a native key. The stronger claims of the atomic runs fail here: a racy run
 * leaves a row at bound beside a native key.
 */
module AwaitTiers {
  import opened Model
  import opened Crypto
  import opened Awaits
  import opened AwaitRuns

  ghost predicate RowBacked(st: Store, row: Session) {
    && (row.tier == TierDbsc ==> Slot(row.id, Native) in st.slots)
    && (row.tier == TierBound ==> Slot(row.id, Bound) in st.slots)
  }

  ghost predicate RowsBacked(st: Store) {
    forall id <- st.sessions :: st.sessions[id].id == id && RowBacked(st, st.sessions[id])
  }

  /** The slot whose key a handler has read or written by the time it rewrites the session. */
  predicate KeySeen(call: Call) {
    match call.req
    case Register(_) => call.pc.KeyStored? || call.pc.GotSession?
    case NativeRefresh(_) =>
      || (call.pc.GotKey? && call.pc.key.Some?) || call.pc.GotChallenge? || call.pc.Checked? || call.pc.GotConsumed?
      || call.pc.GotSession?
    case RegisterBound(_) => call.pc.KeyStored? || call.pc.GotSession? || call.pc.GotNative?
    case RefreshBound(_) =>
      || (call.pc.GotKey? && call.pc.key.Some?) || call.pc.GotChallenge? || call.pc.Checked? || call.pc.GotConsumed?
      || call.pc.GotSession? || call.pc.GotNative?
    case _ => false
  }

  function OwnSlot(call: Call): Slot {
    Slot(SessionOf(call.req), if call.req.Register? || call.req.NativeRefresh? then Native else Bound)
  }

  /** What a call may rely on about keys; every clause survives as long as slots only fill. */
  ghost predicate CallBacked(st: Store, call: Call) {
    && (Captured(call.pc).Some? ==>
          Captured(call.pc).value.id == SessionOf(call.req) && RowBacked(st, Captured(call.pc).value))
    && (KeySeen(call) ==> OwnSlot(call) in st.slots)
    && (call.pc.GotNative? && call.pc.native.Some? ==> Slot(SessionOf(call.req), Native) in st.slots)
    && (call.req.AskState? && (call.pc.GotNative? || call.pc.GotBoth?) && call.pc.native.None? ==>
          call.pc.row.tier != TierDbsc)
    && (call.pc.Finished? && call.pc.output.StateOut? && call.pc.output.state.StateBound? ==>
          (call.pc.output.state.tier == TierDbsc <==> call.pc.output.native.Some?))
  }

  ghost predicate TierInv(w: World) {
    RowsBacked(w.st) && forall call <- w.calls :: CallBacked(w.st, call)
  }

  lemma SlotsGrow(st: Store, st': Store, call: Call)
    requires CallBacked(st, call) && st.slots.Keys <= st'.slots.Keys
    ensures CallBacked(st', call)
  {}

  lemma RegisterRows(c: Primitives, st: Store, call: Call, now: int, shared: bool)
    requires call.req.Register? && Fits(call) && RowsBacked(st) && CallBacked(st, call)
    ensures var (st', call') := Micro(c, st, call, now, shared);
      st.slots.Keys <= st'.slots.Keys && RowsBacked(st')
  {}

  lemma RegisterTiers(c: Primitives, st: Store, call: Call, now: int, shared: bool)
    requires call.req.Register? && Fits(call) && RowsBacked(st) && CallBacked(st, call)
    ensures var (st', call') := Micro(c, st, call, now, shared);
      st.slots.Keys <= st'.slots.Keys && RowsBacked(st') && CallBacked(st', call')
  {
    RegisterRows(c, st, call, now, shared);
  }

  lemma RefreshRows(c: Primitives, st: Store, call: Call, now: int, shared: bool)
    requires call.req.NativeRefresh? && Fits(call) && RowsBacked(st) && CallBacked(st, call)
    ensures var (st', call') := Micro(c, st, call, now, shared);
      st.slots.Keys <= st'.slots.Keys && RowsBacked(st')
  {}

  lemma RefreshTiers(c: Primitives, st: Store, call: Call, now: int, shared: bool)
    requires call.req.NativeRefresh? && Fits(call) && RowsBacked(st) && CallBacked(st, call)
    ensures var (st', call') := Micro(c, st, call, now, shared);
      st.slots.Keys <= st'.slots.Keys && RowsBacked(st') && CallBacked(st', call')
  {
    RefreshRows(c, st, call, now, shared);
  }

  lemma RegisterBoundRows(c: Primitives, st: Store, call: Call, now: int, shared: bool)
    requires call.req.RegisterBound? && Fits(call) && RowsBacked(st) && CallBacked(st, call)
    ensures var (st', call') := Micro(c, st, call, now, shared);
      st.slots.Keys <= st'.slots.Keys && RowsBacked(st')
  {}

  lemma RegisterBoundTiers(c: Primitives, st: Store, call: Call, now: int, shared: bool)
    requires call.req.RegisterBound? && Fits(call) && RowsBacked(st) && CallBacked(st, call)
    ensures var (st', call') := Micro(c, st, call, now, shared);
      st.slots.Keys <= st'.slots.Keys && RowsBacked(st') && CallBacked(st', call')
  {
    RegisterBoundRows(c, st, call, now, shared);
  }

  lemma RefreshBoundRows(c: Primitives, st: Store, call: Call, now: int, shared: bool)
    requires call.req.RefreshBound? && Fits(call) && RowsBacked(st) && CallBacked(st, call)
    ensures var (st', call') := Micro(c, st, call, now, shared);
      st.slots.Keys <= st'.slots.Keys && RowsBacked(st')
  {}

  lemma RefreshBoundTiers(c: Primitives, st: Store, call: Call, now: int, shared: bool)
    requires call.req.RefreshBound? && Fits(call) && RowsBacked(st) && CallBacked(st, call)
    ensures var (st', call') := Micro(c, st, call, now, shared);
      st.slots.Keys <= st'.slots.Keys && RowsBacked(st') && CallBacked(st', call')
  {
    RefreshBoundRows(c, st, call, now, shared);
  }

  lemma RouteRows(c: Primitives, st: Store, call: Call, now: int, shared: bool)
    requires !IsHandler(call.req) && Fits(call) && RowsBacked(st) && CallBacked(st, call)
    ensures var (st', call') := Micro(c, st, call, now, shared);
      st.slots.Keys <= st'.slots.Keys && RowsBacked(st')
  {}

  lemma RouteTiers(c: Primitives, st: Store, call: Call, now: int, shared: bool)
    requires !IsHandler(call.req) && Fits(call) && RowsBacked(st) && CallBacked(st, call)
    ensures var (st', call') := Micro(c, st, call, now, shared);
      st.slots.Keys <= st'.slots.Keys && RowsBacked(st') && CallBacked(st', call')
  {
    RouteRows(c, st, call, now, shared);
  }

  lemma MicroTiers(c: Primitives, st: Store, call: Call, now: int, shared: bool)
    requires Fits(call) && RowsBacked(st) && CallBacked(st, call)
    ensures var (st', call') := Micro(c, st, call, now, shared);
      st.slots.Keys <= st'.slots.Keys && RowsBacked(st') && CallBacked(st', call')
  {
    match call.req
    case Register(_) => RegisterTiers(c, st, call, now, shared);
    case NativeRefresh(_) => RefreshTiers(c, st, call, now, shared);
    case RegisterBound(_) => RegisterBoundTiers(c, st, call, now, shared);
    case RefreshBound(_) => RefreshBoundTiers(c, st, call, now, shared);
    case _ => RouteTiers(c, st, call, now, shared);
  }

  lemma NextTiers(c: Primitives, w: World, m: Move)
    requires TierInv(w) && AllFit(w) && Enabled(w, m) && !Removes(m)
    ensures TierInv(Next(c, w, m))
  {
    var w' := Next(c, w, m);
    if m.Advance? {
      var call := w.calls[m.i];
      assert call in w.calls;
      MicroTiers(c, w.st, call, m.now, m.shared);
      forall k | 0 <= k < |w'.calls|
        ensures CallBacked(w'.st, w'.calls[k])
      {
        if k != m.i {
          assert w.calls[k] in w.calls;
          SlotsGrow(w.st, w'.st, w.calls[k]);
        }
      }
    } else {
      forall call <- w'.calls
        ensures CallBacked(w'.st, call)
      {
        assert call in w.calls || (m.Spawn? && call == Call(m.req, Start));
      }
    }
  }

  /** Nothing takes keys away. */
  ghost predicate Unrevoked(moves: seq<Move>) {
    forall m <- moves :: !Removes(m)
  }

  /** Every reachable world keeps every stored and every captured row backed by its key. */
  lemma {:induction false} TierSoundness(c: Primitives, moves: seq<Move>)
    requires IsRun(c, moves) && Unrevoked(moves)
    ensures TierInv(After(c, moves))
  {
    if moves != [] {
      var prefix := moves[..|moves| - 1];
      assert forall i | 0 <= i <= |prefix| :: prefix[..i] == moves[..i];
      TierSoundness(c, prefix);
      NoncesSound(c, prefix);
      assert moves[|moves| - 1] in moves;
      NextTiers(c, After(c, prefix), moves[|moves| - 1]);
    }
  }

  /** A state route that answers "bound" says dbsc exactly when it read a native key. */
  lemma {:induction false} StateReportsNative(c: Primitives, moves: seq<Move>, i: nat)
    requires IsRun(c, moves) && Unrevoked(moves) && i < |After(c, moves).calls|
    requires var pc := After(c, moves).calls[i].pc; pc.Finished? && pc.output.StateOut? && pc.output.state.StateBound?
    ensures var output := After(c, moves).calls[i].pc.output;
      output.state.tier == TierDbsc <==> output.native.Some?
  {
    TierSoundness(c, moves);
    assert After(c, moves).calls[i] in After(c, moves).calls;
  }
}
