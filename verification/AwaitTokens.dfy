/**
 * Every interleaving once more, now for the tokens of the native protocol: each one that lets a
 * call succeed was checked under a key and says the challenge of that very call, so no token lets
 * two calls through under one key.
 */
module AwaitTokens {
  import opened Basics
  import opened Model
  import opened Crypto
  import opened Handlers
  import opened Awaits
  import opened AwaitRuns
  import Text

  predicate IsNative(req: Request) {
    req.Register? || req.NativeRefresh?
  }

  function TokenOf(req: Request): string
    requires IsNative(req)
  {
    Text.Trim(req.token.response)
  }

  /** Move n is the one in which call i, a native refresh, reads the key of its session. */
  ghost predicate ReadsKey(c: Primitives, moves: seq<Move>, n: nat, i: nat, jwk: Jwk)
    requires n < |moves|
  {
    && moves[n].Advance? && moves[n].i == i
    && var w := After(c, moves[..n]);
    && i < |w.calls| && w.calls[i].req.NativeRefresh? && w.calls[i].pc.Start?
    && Slot(SessionOf(w.calls[i].req), Native) in w.st.slots
    && w.st.slots[Slot(SessionOf(w.calls[i].req), Native)].jwk == jwk
  }

  /** The key a call's token is checked under: the one it read from the store, or the one the token carries. */
  ghost predicate KeyFor(c: Primitives, moves: seq<Move>, i: nat, req: Request, jwk: Jwk)
    requires IsNative(req)
  {
    if req.Register? then CarriesKey(c, TokenOf(req)) && CarriedKey(c, TokenOf(req)) == jwk
    else exists n: nat :: n < |moves| && ReadsKey(c, moves, n, i, jwk)
  }

  /** The token of a call verifies under its key and says its challenge. */
  ghost predicate Vouched(c: Primitives, moves: seq<Move>, i: nat, req: Request, jwk: Jwk)
    requires IsNative(req)
  {
    && KeyFor(c, moves, i, req, jwk)
    && Checkable(c, TokenOf(req), jwk) && Says(c, TokenOf(req), jwk, JtiOf(req))
  }

  /** The call has found its token good. */
  predicate Accepted(call: Call) {
    IsNative(call.req)
    && (call.pc == Checked(None) || call.pc.GotExisting? || call.pc.GotConsumed? || call.pc.KeyStored?
        || call.pc.GotSession? || Succeeded(call))
  }

  /** What a call at each program counter knows of its key and its token. */
  ghost predicate Backed(c: Primitives, moves: seq<Move>, i: nat, call: Call) {
    && (call.req.NativeRefresh? && call.pc.GotKey? && call.pc.key.Some? ==>
          KeyFor(c, moves, i, call.req, call.pc.key.value.jwk))
    && (call.req.NativeRefresh? && call.pc.GotChallenge? ==> KeyFor(c, moves, i, call.req, call.pc.jwk))
    && (Accepted(call) ==> exists jwk :: Vouched(c, moves, i, call.req, jwk))
  }

  lemma ReadsKeyLonger(c: Primitives, moves: seq<Move>, m: Move, n: nat, i: nat, jwk: Jwk)
    requires n < |moves| && ReadsKey(c, moves, n, i, jwk)
    ensures ReadsKey(c, moves + [m], n, i, jwk)
  {
    assert (moves + [m])[..n] == moves[..n];
  }

  lemma BackedLonger(c: Primitives, moves: seq<Move>, m: Move, i: nat, call: Call)
    requires Backed(c, moves, i, call)
    ensures Backed(c, moves + [m], i, call)
  {
    forall jwk | IsNative(call.req) && KeyFor(c, moves, i, call.req, jwk)
      ensures KeyFor(c, moves + [m], i, call.req, jwk)
    {
      if call.req.NativeRefresh? {
        var n: nat :| n < |moves| && ReadsKey(c, moves, n, i, jwk);
        ReadsKeyLonger(c, moves, m, n, i, jwk);
      }
    }
    if Accepted(call) {
      var jwk :| Vouched(c, moves, i, call.req, jwk);
      assert Vouched(c, moves + [m], i, call.req, jwk);
    }
  }

  /** What one step of a registration adds: its token is found good when the challenge is. */
  lemma RegisterLearns(c: Primitives, st: Store, call: Call, now: int, shared: bool)
    requires call.req.Register? && Fits(call)
    ensures var call' := Micro(c, st, call, now, shared).1;
      call'.req == call.req
      && (Accepted(call') ==>
            || Accepted(call)
            || (CarriesKey(c, TokenOf(call.req))
                && Says(c, TokenOf(call.req), CarriedKey(c, TokenOf(call.req)), JtiOf(call.req))))
  {}

  /** What one step of a refresh adds: the key from the store, and the verdict on the token under it. */
  lemma RefreshLearns(c: Primitives, st: Store, call: Call, now: int, shared: bool)
    requires call.req.NativeRefresh? && Fits(call)
    ensures var call' := Micro(c, st, call, now, shared).1;
      var slot := Slot(SessionOf(call.req), Native);
      && call'.req == call.req
      && (call'.pc.GotKey? ==> call'.pc == call.pc || (call.pc.Start? && call'.pc.key == GetBoundKey(st, slot)))
      && (call'.pc.GotChallenge? ==>
            || (call.pc.GotChallenge? && call.pc.jwk == call'.pc.jwk)
            || (call.pc.GotKey? && call.pc.key.Some? && call.pc.key.value.jwk == call'.pc.jwk))
      && (Accepted(call') ==>
            || Accepted(call)
            || (call.pc.GotChallenge? && Checkable(c, TokenOf(call.req), call.pc.jwk)
                && Says(c, TokenOf(call.req), call.pc.jwk, JtiOf(call.req))))
  {}

  lemma RegisterBacked(c: Primitives, moves: seq<Move>, m: Move, i: nat, call: Call, call': Call)
    requires call.req.Register? && Backed(c, moves, i, call) && call'.req == call.req
    requires Accepted(call') ==>
      || Accepted(call)
      || (CarriesKey(c, TokenOf(call.req))
          && Says(c, TokenOf(call.req), CarriedKey(c, TokenOf(call.req)), JtiOf(call.req)))
    ensures Backed(c, moves + [m], i, call')
  {
    BackedLonger(c, moves, m, i, call);
    if Accepted(call') && !Accepted(call) {
      assert Vouched(c, moves + [m], i, call.req, CarriedKey(c, TokenOf(call.req)));
    }
  }

  lemma RefreshBacked(c: Primitives, moves: seq<Move>, i: nat, now: int, shared: bool)
    requires var w := After(c, moves);
      i < |w.calls| && w.calls[i].req.NativeRefresh? && Fits(w.calls[i]) && Backed(c, moves, i, w.calls[i])
    ensures var w := After(c, moves);
      Backed(c, moves + [Advance(i, now, shared)], i, Micro(c, w.st, w.calls[i], now, shared).1)
  {
    var w, longer := After(c, moves), moves + [Advance(i, now, shared)];
    var call, call' := w.calls[i], Micro(c, w.st, w.calls[i], now, shared).1;
    BackedLonger(c, moves, Advance(i, now, shared), i, call);
    RefreshLearns(c, w.st, call, now, shared);
    if call.pc.Start? && call'.pc.GotKey? && call'.pc.key.Some? {
      assert longer[..|moves|] == moves;
      assert ReadsKey(c, longer, |moves|, i, call'.pc.key.value.jwk);
    }
    if Accepted(call') && !Accepted(call) {
      assert Vouched(c, longer, i, call.req, call.pc.jwk);
    }
  }

  ghost predicate AllBacked(c: Primitives, moves: seq<Move>) {
    forall i :: 0 <= i < |After(c, moves).calls| ==> Backed(c, moves, i, After(c, moves).calls[i])
  }

  lemma NextBacked(c: Primitives, moves: seq<Move>, m: Move)
    requires AllBacked(c, moves) && AllFit(After(c, moves)) && Enabled(After(c, moves), m)
    ensures AllBacked(c, moves + [m])
  {
    var w := After(c, moves);
    assert (moves + [m])[..|moves|] == moves;
    var w' := Next(c, w, m);
    assert After(c, moves + [m]) == w';
    forall i | 0 <= i < |w'.calls|
      ensures Backed(c, moves + [m], i, w'.calls[i])
    {
      if i < |w.calls| {
        BackedLonger(c, moves, m, i, w.calls[i]);
        if m.Advance? && m.i == i {
          assert w.calls[i] in w.calls;
          if w.calls[i].req.Register? {
            RegisterLearns(c, w.st, w.calls[i], m.now, m.shared);
            RegisterBacked(c, moves, m, i, w.calls[i], w'.calls[i]);
          } else if w.calls[i].req.NativeRefresh? {
            RefreshBacked(c, moves, i, m.now, m.shared);
          }
        }
      }
    }
  }

  lemma RunSplits(c: Primitives, moves: seq<Move>)
    requires moves != [] && IsRun(c, moves)
    ensures IsRun(c, moves[..|moves| - 1]) && Enabled(After(c, moves[..|moves| - 1]), moves[|moves| - 1])
  {
    var prefix := moves[..|moves| - 1];
    assert forall i | 0 <= i <= |prefix| :: prefix[..i] == moves[..i];
  }

  lemma {:induction false} TokensBacked(c: Primitives, moves: seq<Move>)
    requires IsRun(c, moves)
    ensures AllBacked(c, moves)
  {
    if moves != [] {
      var prefix, m := moves[..|moves| - 1], moves[|moves| - 1];
      RunSplits(c, moves);
      assert prefix + [m] == moves;
      TokensBacked(c, prefix);
      NoncesSound(c, prefix);
      NextBacked(c, prefix, m);
    }
  }

  /**
   * Tokens are single use: under every interleaving, the token of a native registration or refresh
   * that succeeded verifies, under the key that the call took from its token or read from the store,
   * and says the call's own challenge; and two such calls with one key never brought the same token.
   */
  lemma {:induction false} TokensSingleUse(c: Primitives, moves: seq<Move>, i: nat, j: nat)
    returns (mine: Jwk, theirs: Jwk)
    requires IsRun(c, moves)
    requires var calls := After(c, moves).calls;
      && i < j < |calls| && IsNative(calls[i].req) && IsNative(calls[j].req)
      && Succeeded(calls[i]) && Succeeded(calls[j])
    ensures var calls := After(c, moves).calls;
      && Vouched(c, moves, i, calls[i].req, mine) && Vouched(c, moves, j, calls[j].req, theirs)
      && (mine == theirs ==> TokenOf(calls[i].req) != TokenOf(calls[j].req))
  {
    TokensBacked(c, moves);
    ChallengesSingleUse(c, moves, i, j);
    var calls := After(c, moves).calls;
    assert Backed(c, moves, i, calls[i]) && Backed(c, moves, j, calls[j]);
    mine :| Vouched(c, moves, i, calls[i].req, mine);
    theirs :| Vouched(c, moves, j, calls[j].req, theirs);
  }
}
