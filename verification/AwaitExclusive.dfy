/**
 * When the strong tier invariant survives interleaving: if and only if no polyfill call writes its
 * row at bound beside a native key that no registration is about to raise the row for. That never
 * happens as long as no native registration of a session lands its key while a polyfill call of that
 * session is rewriting the row.
 */
module AwaitExclusive {
  import opened Model
  import opened Crypto
  import opened Awaits
  import opened AwaitRuns
  import opened AwaitTiers

  /** A native registration that has won its challenge and has not yet rewritten the row. */
  predicate Landing(call: Call) {
    call.req.Register? && (call.pc == GotConsumed(true) || call.pc.KeyStored? || call.pc.GotSession?)
  }

  /** A polyfill call between reading the row and rewriting it. */
  predicate Rewriting(call: Call) {
    (call.req.RegisterBound? || call.req.RefreshBound?) && (call.pc.GotSession? || call.pc.GotNative?)
  }

  /** No session has both at once. */
  ghost predicate Exclusive(w: World) {
    forall a <- w.calls, b <- w.calls :: Landing(a) && Rewriting(b) ==> SessionOf(a.req) != SessionOf(b.req)
  }

  ghost predicate ExclusiveRun(c: Primitives, moves: seq<Move>) {
    forall i :: 0 <= i <= |moves| ==> Exclusive(After(c, moves[..i]))
  }

  /** A native registration of the session has stored its key and is about to rewrite the row. */
  predicate AboutToRaise(call: Call, id: string) {
    && call.req.Register? && SessionOf(call.req) == id
    && (call.pc.KeyStored? || (call.pc.GotSession? && call.pc.session.Some?))
  }

  ghost predicate Raising(calls: seq<Call>, id: string) {
    exists call <- calls :: AboutToRaise(call, id)
  }

  /** A row at bound beside a native key is about to be raised. */
  ghost predicate RowsSingle(w: World) {
    forall id <- w.st.sessions | w.st.sessions[id].tier == TierBound && Slot(id, Native) in w.st.slots ::
      Raising(w.calls, id)
  }

  /** A polyfill call that holds a row at bound, or has read that there is no native key, is right about it. */
  ghost predicate CallSingle(st: Store, call: Call) {
    Rewriting(call) ==>
      && (Captured(call.pc).Some? && Captured(call.pc).value.tier == TierBound ==>
            Slot(SessionOf(call.req), Native) !in st.slots)
      && (call.pc.GotNative? && call.pc.native.None? ==> Slot(SessionOf(call.req), Native) !in st.slots)
  }

  ghost predicate SingleInv(w: World) {
    RowsSingle(w) && forall call <- w.calls :: CallSingle(w.st, call)
  }

  // ---------------------------------------------------------------- what one step does

  /** A native slot is filled by its registration alone, at one point. */
  ghost predicate FillStep(st: Store, call: Call, st': Store, call': Call) {
    && st.slots.Keys <= st'.slots.Keys
    && forall id :: Slot(id, Native) in st'.slots && Slot(id, Native) !in st.slots ==>
         call.req.Register? && SessionOf(call.req) == id && call.pc == GotConsumed(true) && call'.pc.KeyStored?
  }

  /** The row is as before, and so is whoever is about to raise it. */
  predicate RowAlone(st: Store, call: Call, st': Store, call': Call, id: string)
    requires id in st'.sessions
  {
    && id in st.sessions && st'.sessions[id] == st.sessions[id]
    && (AboutToRaise(call, id) ==> AboutToRaise(call', id))
  }

  /** A row is written by its own calls alone, and to bound only by a polyfill call that has a reason to. */
  ghost predicate RowStep(st: Store, call: Call, st': Store, call': Call) {
    forall id <- st'.sessions ::
      || RowAlone(st, call, st', call', id)
      || (id == SessionOf(call.req) && (st'.sessions[id].tier == TierBound ==>
            Rewriting(call) && call.pc.GotNative? && (call.pc.native.None? || call.pc.row.tier == TierBound)))
  }

  /** What a polyfill call holds after a step, it held before or has just read. */
  ghost predicate HoldStep(st: Store, call: Call, st': Store, call': Call) {
    Rewriting(call') ==>
      && (Captured(call'.pc).Some? ==>
            || (Rewriting(call) && Captured(call'.pc) == Captured(call.pc))
            || (SessionOf(call.req) in st'.sessions && Captured(call'.pc).value == st'.sessions[SessionOf(call.req)]))
      && (call'.pc.GotNative? && call'.pc.native.None? ==>
            call' == call || Slot(SessionOf(call.req), Native) !in st'.slots)
  }

  ghost predicate SingleStep(st: Store, call: Call, st': Store, call': Call) {
    && call'.req == call.req
    && FillStep(st, call, st', call') && RowStep(st, call, st', call') && HoldStep(st, call, st', call')
  }

  lemma RegisterSingle(c: Primitives, st: Store, call: Call, now: int, shared: bool)
    requires call.req.Register? && Fits(call) && RowsBacked(st) && CallBacked(st, call)
    ensures var (st', call') := Micro(c, st, call, now, shared); SingleStep(st, call, st', call')
  {}

  lemma RefreshSingle(c: Primitives, st: Store, call: Call, now: int, shared: bool)
    requires call.req.NativeRefresh? && Fits(call) && RowsBacked(st) && CallBacked(st, call)
    ensures var (st', call') := Micro(c, st, call, now, shared); SingleStep(st, call, st', call')
  {}

  lemma RegisterBoundHolds(c: Primitives, st: Store, call: Call, now: int, shared: bool)
    requires call.req.RegisterBound? && Fits(call) && RowsBacked(st) && CallBacked(st, call)
    ensures var (st', call') := Micro(c, st, call, now, shared); HoldStep(st, call, st', call')
  {}

  lemma RegisterBoundSingle(c: Primitives, st: Store, call: Call, now: int, shared: bool)
    requires call.req.RegisterBound? && Fits(call) && RowsBacked(st) && CallBacked(st, call)
    ensures var (st', call') := Micro(c, st, call, now, shared); SingleStep(st, call, st', call')
  {
    RegisterBoundHolds(c, st, call, now, shared);
  }

  lemma RefreshBoundHolds(c: Primitives, st: Store, call: Call, now: int, shared: bool)
    requires call.req.RefreshBound? && Fits(call) && RowsBacked(st) && CallBacked(st, call)
    ensures var (st', call') := Micro(c, st, call, now, shared); HoldStep(st, call, st', call')
  {}

  lemma RefreshBoundSingle(c: Primitives, st: Store, call: Call, now: int, shared: bool)
    requires call.req.RefreshBound? && Fits(call) && RowsBacked(st) && CallBacked(st, call)
    ensures var (st', call') := Micro(c, st, call, now, shared); SingleStep(st, call, st', call')
  {
    RefreshBoundHolds(c, st, call, now, shared);
  }

  lemma RouteSingle(c: Primitives, st: Store, call: Call, now: int, shared: bool)
    requires !IsHandler(call.req) && Fits(call) && RowsBacked(st) && CallBacked(st, call)
    ensures var (st', call') := Micro(c, st, call, now, shared); SingleStep(st, call, st', call')
  {}

  lemma MicroSingle(c: Primitives, st: Store, call: Call, now: int, shared: bool)
    requires Fits(call) && RowsBacked(st) && CallBacked(st, call)
    ensures var (st', call') := Micro(c, st, call, now, shared); SingleStep(st, call, st', call')
  {
    match call.req
    case Register(_) => RegisterSingle(c, st, call, now, shared);
    case NativeRefresh(_) => RefreshSingle(c, st, call, now, shared);
    case RegisterBound(_) => RegisterBoundSingle(c, st, call, now, shared);
    case RefreshBound(_) => RefreshBoundSingle(c, st, call, now, shared);
    case _ => RouteSingle(c, st, call, now, shared);
  }

  // ---------------------------------------------------------------- worlds

  /** One call has taken one step. */
  ghost predicate Stepped(w: World, i: nat, w': World) {
    && i < |w.calls| && |w'.calls| == |w.calls| && w'.calls == w.calls[i := w'.calls[i]]
    && SingleStep(w.st, w.calls[i], w'.st, w'.calls[i])
  }

  lemma RowKept(w: World, i: nat, w': World, id: string)
    requires Stepped(w, i, w') && SingleInv(w) && Exclusive(w') && id in w'.st.sessions
    requires w'.st.sessions[id].tier == TierBound && Slot(id, Native) in w'.st.slots
    ensures Raising(w'.calls, id)
  {
    var call, call' := w.calls[i], w'.calls[i];
    assert call in w.calls && call' in w'.calls && CallSingle(w.st, call);
    if Slot(id, Native) !in w.st.slots {
      assert AboutToRaise(call', id);
    } else if RowAlone(w.st, call, w'.st, call', id) {
      var k :| 0 <= k < |w.calls| && AboutToRaise(w.calls[k], id);
      assert w'.calls[k] in w'.calls && AboutToRaise(w'.calls[k], id);
    }
  }

  /** A slot that a polyfill call relies on to be empty is not filled by a step of another call. */
  lemma OtherKept(w: World, i: nat, w': World, k: nat)
    requires Stepped(w, i, w') && SingleInv(w) && Exclusive(w) && k < |w.calls| && k != i
    ensures CallSingle(w'.st, w'.calls[k])
  {
    assert w'.calls[k] == w.calls[k] && w.calls[k] in w.calls && w.calls[i] in w.calls;
    assert CallSingle(w.st, w.calls[k]);
  }

  lemma SelfKept(w: World, i: nat, w': World)
    requires Stepped(w, i, w') && SingleInv(w) && Exclusive(w') && RowsSingle(w')
    ensures CallSingle(w'.st, w'.calls[i])
  {
    var call, call' := w.calls[i], w'.calls[i];
    assert call in w.calls && call' in w'.calls && CallSingle(w.st, call);
    if Rewriting(call') {
      NotRaised(w', call');
    }
  }

  lemma NotRaised(w: World, call: Call)
    requires Exclusive(w) && call in w.calls && Rewriting(call)
    ensures !Raising(w.calls, SessionOf(call.req))
  {}

  lemma AdvanceSingle(w: World, i: nat, w': World)
    requires Stepped(w, i, w') && SingleInv(w) && Exclusive(w) && Exclusive(w')
    ensures SingleInv(w')
  {
    forall id <- w'.st.sessions | w'.st.sessions[id].tier == TierBound && Slot(id, Native) in w'.st.slots
      ensures Raising(w'.calls, id)
    {
      RowKept(w, i, w', id);
    }
    forall k | 0 <= k < |w'.calls|
      ensures CallSingle(w'.st, w'.calls[k])
    {
      if k == i {
        SelfKept(w, i, w');
      } else {
        OtherKept(w, i, w', k);
      }
    }
  }

  /** A move that only drops rows, or adds a call that has not begun. */
  ghost predicate Quiet(w: World, w': World) {
    && w'.st.slots == w.st.slots
    && (forall id <- w'.st.sessions :: id in w.st.sessions && w'.st.sessions[id] == w.st.sessions[id])
    && w.calls <= w'.calls && forall call <- w'.calls :: call in w.calls || call.pc.Start?
  }

  lemma QuietRows(w: World, w': World)
    requires RowsSingle(w) && Quiet(w, w')
    ensures RowsSingle(w')
  {
    forall id <- w'.st.sessions | w'.st.sessions[id].tier == TierBound && Slot(id, Native) in w'.st.slots
      ensures Raising(w'.calls, id)
    {
      var k :| 0 <= k < |w.calls| && AboutToRaise(w.calls[k], id);
      assert w'.calls[k] == w.calls[k] && w'.calls[k] in w'.calls;
    }
  }

  lemma QuietSingle(w: World, w': World)
    requires SingleInv(w) && Quiet(w, w')
    ensures SingleInv(w')
  {
    QuietRows(w, w');
  }

  lemma NextSingle(c: Primitives, w: World, m: Move)
    requires SingleInv(w) && TierInv(w) && AllFit(w) && Enabled(w, m) && !Removes(m)
    requires Exclusive(w) && Exclusive(Next(c, w, m))
    ensures SingleInv(Next(c, w, m))
  {
    var w' := Next(c, w, m);
    if m.Advance? {
      assert w.calls[m.i] in w.calls;
      MicroSingle(c, w.st, w.calls[m.i], m.now, m.shared);
      AdvanceSingle(w, m.i, w');
    } else {
      QuietSingle(w, w');
    }
  }

  lemma {:induction false} SingleSound(c: Primitives, moves: seq<Move>)
    requires IsRun(c, moves) && Unrevoked(moves) && ExclusiveRun(c, moves)
    ensures SingleInv(After(c, moves))
  {
    if moves != [] {
      var prefix := moves[..|moves| - 1];
      assert forall i | 0 <= i <= |prefix| :: prefix[..i] == moves[..i];
      assert moves[..|moves|] == moves && moves[|moves| - 1] in moves;
      SingleSound(c, prefix);
      NoncesSound(c, prefix);
      TierSoundness(c, prefix);
      assert Exclusive(After(c, moves[..|prefix|])) && Exclusive(After(c, moves[..|moves|]));
      NextSingle(c, After(c, prefix), moves[|moves| - 1]);
    }
  }

  // ---------------------------------------------------------------- exactly when

  /** The strong tier invariant, for every session that no native registration is about to raise. */
  ghost predicate Strong(w: World) {
    forall id <- w.st.sessions | !Raising(w.calls, id) ::
      && (w.st.sessions[id].tier == TierBound ==> Slot(id, Bound) in w.st.slots && Slot(id, Native) !in w.st.slots)
      && (w.st.sessions[id].tier == TierDbsc ==> Slot(id, Native) in w.st.slots)
  }

  lemma StrongIsSingle(w: World)
    requires TierInv(w)
    ensures Strong(w) <==> RowsSingle(w)
  {}

  /** A polyfill call is about to write its row at bound although there is a native key, and nobody raises the row. */
  ghost predicate StaleWrite(w: World, m: Move) {
    && m.Advance? && m.i < |w.calls|
    && var call := w.calls[m.i];
    && Rewriting(call) && call.pc.GotNative? && (call.pc.native.None? || call.pc.row.tier == TierBound)
    && Slot(SessionOf(call.req), Native) in w.st.slots && !Raising(w.calls, SessionOf(call.req))
  }

  lemma RowSurvives(w: World, i: nat, w': World, m: Move, id: string)
    requires Stepped(w, i, w') && RowsSingle(w) && m.Advance? && m.i == i && !StaleWrite(w, m)
    requires id in w'.st.sessions && w'.st.sessions[id].tier == TierBound && Slot(id, Native) in w'.st.slots
    ensures Raising(w'.calls, id)
  {
    var call, call' := w.calls[i], w'.calls[i];
    assert call' in w'.calls;
    if Slot(id, Native) !in w.st.slots {
      assert AboutToRaise(call', id);
    } else {
      assert RowAlone(w.st, call, w'.st, call', id) || Rewriting(call);
      var k :| 0 <= k < |w.calls| && AboutToRaise(w.calls[k], id);
      assert w'.calls[k] in w'.calls && AboutToRaise(w'.calls[k], id);
    }
  }

  lemma SurvivesStep(c: Primitives, w: World, m: Move)
    requires RowsSingle(w) && TierInv(w) && AllFit(w) && Enabled(w, m) && !Removes(m) && !StaleWrite(w, m)
    ensures RowsSingle(Next(c, w, m))
  {
    var w' := Next(c, w, m);
    if m.Advance? {
      assert w.calls[m.i] in w.calls;
      MicroSingle(c, w.st, w.calls[m.i], m.now, m.shared);
      forall id <- w'.st.sessions | w'.st.sessions[id].tier == TierBound && Slot(id, Native) in w'.st.slots
        ensures Raising(w'.calls, id)
      {
        RowSurvives(w, m.i, w', m, id);
      }
    } else {
      QuietRows(w, w');
    }
  }

  /** The write that is about to be done shows in the row. */
  lemma WriteShows(c: Primitives, w: World, m: Move)
    requires TierInv(w) && AllFit(w) && StaleWrite(w, m)
    ensures !RowsSingle(Next(c, w, m))
  {
    var call, w' := w.calls[m.i], Next(c, w, m);
    var id := SessionOf(call.req);
    assert call in w.calls && Fits(call) && CallBacked(w.st, call);
    assert id in w'.st.sessions && w'.st.sessions[id].tier == TierBound && w'.st.slots == w.st.slots;
    forall k | 0 <= k < |w'.calls|
      ensures !AboutToRaise(w'.calls[k], id)
    {
      assert k != m.i ==> w'.calls[k] == w.calls[k] && w.calls[k] in w.calls;
    }
  }

  ghost predicate AlwaysStrong(c: Primitives, moves: seq<Move>) {
    forall k :: 0 <= k <= |moves| ==> Strong(After(c, moves[..k]))
  }

  ghost predicate NoStaleWrite(c: Primitives, moves: seq<Move>) {
    forall k :: 0 <= k < |moves| ==> !StaleWrite(After(c, moves[..k]), moves[k])
  }

  lemma PartIsRun(c: Primitives, moves: seq<Move>, k: nat)
    requires IsRun(c, moves) && Unrevoked(moves) && k <= |moves|
    ensures IsRun(c, moves[..k]) && Unrevoked(moves[..k])
  {
    var part := moves[..k];
    assert forall i | 0 <= i < k :: part[..i] == moves[..i] && part[i] == moves[i];
    assert forall m <- part :: m in moves;
  }

  lemma NextAfter(c: Primitives, moves: seq<Move>, k: nat)
    requires k < |moves|
    ensures After(c, moves[..k + 1]) == Next(c, After(c, moves[..k]), moves[k])
  {
    assert moves[..k + 1][..k] == moves[..k];
  }

  /** What is known of the world after any part of a run. */
  lemma KnownAt(c: Primitives, moves: seq<Move>, k: nat)
    requires IsRun(c, moves) && Unrevoked(moves) && k <= |moves|
    ensures TierInv(After(c, moves[..k])) && AllFit(After(c, moves[..k]))
  {
    PartIsRun(c, moves, k);
    NoncesSound(c, moves[..k]);
    TierSoundness(c, moves[..k]);
  }

  lemma {:induction false} StrongUpTo(c: Primitives, moves: seq<Move>, k: nat)
    requires IsRun(c, moves) && Unrevoked(moves) && NoStaleWrite(c, moves) && k <= |moves|
    ensures RowsSingle(After(c, moves[..k]))
  {
    if k > 0 {
      StrongUpTo(c, moves, k - 1);
      KnownAt(c, moves, k - 1);
      NextAfter(c, moves, k - 1);
      assert moves[k - 1] in moves;
      SurvivesStep(c, After(c, moves[..k - 1]), moves[k - 1]);
    }
  }

  lemma StrongAt(c: Primitives, moves: seq<Move>, k: nat)
    requires IsRun(c, moves) && Unrevoked(moves) && NoStaleWrite(c, moves) && k <= |moves|
    ensures Strong(After(c, moves[..k]))
  {
    StrongUpTo(c, moves, k);
    KnownAt(c, moves, k);
    StrongIsSingle(After(c, moves[..k]));
  }

  /** A stale write shows in the very next world. */
  lemma StaleShows(c: Primitives, moves: seq<Move>, k: nat)
    requires IsRun(c, moves) && Unrevoked(moves) && k < |moves| && StaleWrite(After(c, moves[..k]), moves[k])
    ensures !Strong(After(c, moves[..k + 1]))
  {
    KnownAt(c, moves, k);
    KnownAt(c, moves, k + 1);
    NextAfter(c, moves, k);
    WriteShows(c, After(c, moves[..k]), moves[k]);
    StrongIsSingle(After(c, moves[..k + 1]));
  }

  /**
   * Strong tiers, interleaved: over every run without revocation, the strong tier invariant holds
   * throughout, for every session that no native registration is about to raise, if and only if no
   * polyfill call ever does a stale write.
   */
  lemma StrongExactly(c: Primitives, moves: seq<Move>)
    requires IsRun(c, moves) && Unrevoked(moves)
    ensures AlwaysStrong(c, moves) <==> NoStaleWrite(c, moves)
  {
    if NoStaleWrite(c, moves) {
      forall k | 0 <= k <= |moves|
        ensures Strong(After(c, moves[..k]))
      {
        StrongAt(c, moves, k);
      }
    } else {
      var k :| 0 <= k < |moves| && StaleWrite(After(c, moves[..k]), moves[k]);
      StaleShows(c, moves, k);
    }
  }

  /** Exclusive runs are strong, and so never do a stale write. */
  lemma StrongTiers(c: Primitives, moves: seq<Move>)
    requires IsRun(c, moves) && Unrevoked(moves) && ExclusiveRun(c, moves)
    ensures AlwaysStrong(c, moves) && NoStaleWrite(c, moves)
  {
    forall k | 0 <= k <= |moves|
      ensures Strong(After(c, moves[..k]))
    {
      ExclusiveUpTo(c, moves, k);
      SingleSound(c, moves[..k]);
      KnownAt(c, moves, k);
      StrongIsSingle(After(c, moves[..k]));
    }
    StrongExactly(c, moves);
  }

  lemma ExclusiveUpTo(c: Primitives, moves: seq<Move>, k: nat)
    requires IsRun(c, moves) && Unrevoked(moves) && ExclusiveRun(c, moves) && k <= |moves|
    ensures IsRun(c, moves[..k]) && Unrevoked(moves[..k]) && ExclusiveRun(c, moves[..k])
  {
    PartIsRun(c, moves, k);
    assert forall i | 0 <= i <= k :: moves[..k][..i] == moves[..i];
  }
}
