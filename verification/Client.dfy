/**
 * The client driver initBoundDbsc: it asks the server for its state, polls for a while for a
 * native verdict, and registers a polyfill key at most once. The browser around it is a script:
 * any replies, any failures, any delays, and a sleep that lasts at least as long as asked.
 */
module Client {
  import opened Basics
  import opened Model

  const MIN_POLL_INTERVAL_MS := 250

  const CO_REGISTRATION_FAILED := "polyfill-co-registration-failed"

  /** The state route's answer; no skip reasons is the empty list. */
  datatype StateResponse =
    | Unbound
    | NeedsRegistration(sessionId: string, challenge: string, skipped: seq<string>)
    | NeedsBoundRegistration(sessionId: string, challenge: string, skipped: seq<string>)
    | StateBound(sessionId: string, tier: Tier, refreshIntervalMs: int)

  datatype Reply = Response(state: StateResponse) | FetchThrows

  /** How far a registration gets; the record may be stored and the attempt fail after that. */
  datatype Attempt = NotSent | RefusedByServer | NotStored | StoredThenFailed | Completed

  datatype Outcome =
    | NativeDbsc(skipReason: Option<string>)
    | PolyfillBound(skipReason: Option<string>)
    | NoSession
    | Error

  datatype Options = Options(nativeProbeWindowMs: int, pollIntervalMs: int, refreshMarginMs: int)

  function PollInterval(opts: Options): int {
    Max(MIN_POLL_INTERVAL_MS, opts.pollIntervalMs)
  }

  function FirstSkip(skipped: seq<string>): Option<string> {
    if |skipped| > 0 then Some(skipped[0]) else None
  }

  /** The server says native registration is in place. */
  predicate SaysNative(s: StateResponse) {
    s.NeedsBoundRegistration? || (s.StateBound? && s.tier == TierDbsc)
  }

  predicate SaysPolyfill(s: StateResponse) {
    s.StateBound? && s.tier != TierDbsc
  }

  /** A polled response that ends the loop. */
  predicate Settles(s: StateResponse) {
    match s
    case Unbound => true
    case NeedsBoundRegistration(_, _, _) => true
    case NeedsRegistration(_, _, skipped) => skipped != []
    case StateBound(_, tier, _) => tier != TierNone
  }

  /** Polling goes on only while the native registration is still out, or the session is demoted. */
  lemma KeepsPolling(s: StateResponse)
    ensures !Settles(s) <==> (s.NeedsRegistration? && s.skipped == []) || (s.StateBound? && s.tier == TierNone)
  {}

  class Browser {
    const replies: nat -> Reply
    const attempts: nat -> Attempt
    const delays: nat -> nat        // of each fetch
    const overshoots: nat -> nat    // of each sleep
    const clears: nat -> bool       // whether each removal of the key record succeeds
    const readable: bool            // whether the key record can be read

    var clock: int
    var sleeps: nat
    var seen: seq<StateResponse>    // the responses so far
    var fetches: nat
    var tries: seq<Attempt>         // the registrations so far
    var sentFor: Option<(string, string)>   // the session and the challenge of the last one
    var keyRecord: Option<string>   // the session whose key is stored
    var clearings: nat
    var refreshTimer: Option<int>

    constructor (replies: nat -> Reply, attempts: nat -> Attempt, delays: nat -> nat, overshoots: nat -> nat,
                 clears: nat -> bool, readable: bool, clock: int, keyRecord: Option<string>)
      ensures seen == [] && tries == [] && sentFor == None && fetches == 0 && sleeps == 0 && clearings == 0
      ensures this.clock == clock && this.keyRecord == keyRecord
      ensures this.replies == replies && this.attempts == attempts
      ensures this.delays == delays && this.overshoots == overshoots
      ensures this.clears == clears && this.readable == readable
      ensures refreshTimer == None
    {
      this.replies, this.attempts, this.delays, this.overshoots := replies, attempts, delays, overshoots;
      this.clears, this.readable := clears, readable;
      this.clock, this.keyRecord, this.refreshTimer := clock, keyRecord, None;
      seen, tries, sentFor, fetches, sleeps, clearings := [], [], None, 0, 0, 0;
    }

    method Sleep(ms: nat)
      modifies this`clock, this`sleeps
      ensures clock >= old(clock) + ms && sleeps == old(sleeps) + 1
    {
      clock, sleeps := clock + ms + overshoots(sleeps), sleeps + 1;
    }

    method FetchState() returns (reply: Reply)
      modifies this`clock, this`fetches, this`seen
      ensures reply == replies(old(fetches)) && fetches == old(fetches) + 1 && clock >= old(clock)
      ensures seen == old(seen) + if reply.Response? then [reply.state] else []
      ensures (forall s <- old(seen) :: s in seen) && (reply.Response? ==> reply.state in seen)
    {
      reply := replies(fetches);
      clock, fetches := clock + delays(fetches), fetches + 1;
      if reply.Response? {
        seen := seen + [reply.state];
        assert seen[|seen| - 1] == reply.state;
      }
    }

    /** What a removal leaves of the key record; its failure goes unnoticed. */
    function Cleared(k: nat, rec: Option<string>): Option<string> {
      if clears(k) then None else rec
    }

    method ClearKeyRecord()
      modifies this`keyRecord, this`clearings
      ensures keyRecord == Cleared(old(clearings), old(keyRecord)) && clearings == old(clearings) + 1
    {
      keyRecord, clearings := if clears(clearings) then None else keyRecord, clearings + 1;
    }

    /** What reading the key record tells; a failure reads as none. */
    function Told(rec: Option<string>): Option<string> {
      if readable then rec else None
    }

    /** runRegistration: the old record goes first, if it can; true when all went well. */
    method RunRegistration(sessionId: string, challenge: string) returns (ok: bool)
      modifies this`tries, this`sentFor, this`keyRecord, this`clearings
      ensures tries == old(tries) + [attempts(|old(tries)|)] && attempts(|old(tries)|) in tries
      ensures sentFor == Some((sessionId, challenge))
      ensures ok <==> attempts(|old(tries)|) == Completed
      ensures keyRecord == if attempts(|old(tries)|) == Completed || attempts(|old(tries)|) == StoredThenFailed
                           then Some(sessionId) else Cleared(old(clearings), old(keyRecord))
    {
      ClearKeyRecord();
      var attempt := attempts(|tries|);
      tries, sentFor := tries + [attempt], Some((sessionId, challenge));
      assert tries[|tries| - 1] == attempt;
      ok := attempt == Completed;
      if ok || attempt == StoredThenFailed {
        keyRecord := Some(sessionId);
      }
    }

    method ScheduleRefresh(opts: Options, intervalMs: int)
      modifies this`refreshTimer
      ensures refreshTimer == Some(Max(1000, intervalMs - opts.refreshMarginMs))
    {
      refreshTimer := Some(Max(1000, intervalMs - opts.refreshMarginMs));
    }

    predicate Registered()
      reads this
    {
      exists a <- tries :: a == Completed
    }

    predicate SawNative()
      reads this
    {
      exists s <- seen :: SaysNative(s)
    }

    predicate SawPolyfill()
      reads this
    {
      exists s <- seen :: SaysPolyfill(s)
    }

    /** What every outcome promises about what was sent, stored and heard. */
    ghost predicate Justified(outcome: Outcome)
      reads this
    {
      && |tries| <= 1
      && (outcome.NoSession? ==> tries == [])
      && (outcome.NativeDbsc? ==> SawNative())
      && (outcome.PolyfillBound? ==> Registered() || SawPolyfill())
      && (outcome.Error? ==> |seen| < fetches || (exists a <- tries :: a != Completed))
    }

    /** The responses are the script's replies, up to the one fetch that may have thrown. */
    ghost predicate Faithful()
      reads this
    {
      && (forall k :: 0 <= k < |seen| ==> replies(k) == Response(seen[k]))
      && (fetches == |seen| || (fetches == |seen| + 1 && replies(|seen|) == FetchThrows))
    }

    /**
     * The response that asks for a registration got one, for its session and challenge, and the record is
     * as that left it.
     */
    ghost predicate Sent(asking: StateResponse, removals: nat, before: Option<string>)
      requires asking.NeedsRegistration? || asking.NeedsBoundRegistration?
      reads this
    {
      && tries == [attempts(0)] && sentFor == Some((asking.sessionId, asking.challenge))
      && keyRecord == if tries[0] == Completed || tries[0] == StoredThenFailed then Some(asking.sessionId)
                      else Cleared(removals, before)
    }

    /** Nothing was sent, and the record is as it was. */
    ghost predicate NotSent(before: Option<string>)
      reads this
    {
      tries == [] && keyRecord == before
    }

    /** What co-registering beside a native key leads to: native either way, with the first reason or its own. */
    ghost predicate CoRegistered(skipped: seq<string>, outcome: Outcome)
      reads this
    {
      && outcome.NativeDbsc?
      && if tries != [Completed] then outcome.skipReason == Some("polyfill-co-registration-failed")
         else if skipped == [] then outcome.skipReason == None
         else outcome.skipReason == Some(skipped[0])
    }

    /** A polyfill binding, with the first of the reasons why there is no native one. */
    ghost predicate BoundFor(skipped: seq<string>, outcome: Outcome) {
      && outcome.PolyfillBound?
      && if skipped == [] then outcome.skipReason == None else outcome.skipReason == Some(skipped[0])
    }

    /** What a registration in place of a native key leads to: bound once all went well and was confirmed. */
    ghost predicate Confirmed(skipped: seq<string>, outcome: Outcome)
      reads this
    {
      if tries == [Completed] && |seen| == fetches then BoundFor(skipped, outcome) else outcome == Error
    }

    /** What a response that settles the matter leads to. */
    ghost predicate Concludes(at: nat, stored: Option<string>, outcome: Outcome)
      requires at < |seen|
      reads this
    {
      match seen[at]
      case Unbound => outcome == NoSession && NotSent(stored) && fetches == at + 1
      case NeedsBoundRegistration(_, _, skipped) =>
        CoRegistered(skipped, outcome) && Sent(seen[at], 0, stored) && fetches == at + 1
      case NeedsRegistration(_, _, skipped) =>
        && Confirmed(skipped, outcome) && Sent(seen[at], 0, stored)
        && fetches == at + if tries == [Completed] then 2 else 1
      case StateBound(_, tier, _) =>
        && NotSent(stored) && fetches == at + 1
        && outcome == if tier == TierDbsc then NativeDbsc(None) else PolyfillBound(None)
    }

    /** How the poll loop ends: at the first response that settles it, or when the window is over. */
    ghost predicate PollsUntilSettled(opts: Options, start: int, stored: Option<string>, outcome: Outcome, polls: nat)
      reads this
    {
      && (forall k :: 1 <= k < polls && k < |seen| ==> !Settles(seen[k]))
      && (polls == 0 ==> opts.nativeProbeWindowMs <= 0)
      && if |seen| <= polls then outcome == Error && NotSent(stored) && |seen| == polls && fetches == polls + 1
         else
           var last, over := seen[polls], clock >= start + opts.nativeProbeWindowMs;
           if Settles(last) then polls > 0 && Concludes(polls, stored, outcome)
           else
             && over
             && if last.NeedsRegistration? then Concludes(polls, stored, outcome)
                else outcome == NoSession && NotSent(stored) && fetches == polls + 1
    }

    /**
     * What the second response leads to, when the first said bound for a session whose key is not
     * known to be stored; left is what the removal in between left of the record.
     */
    ghost predicate Reconciled(again: StateResponse, left: Option<string>, outcome: Outcome)
      reads this
    {
      match again
      case NeedsRegistration(_, _, skipped) =>
        && Sent(again, 1, left)
        && if tries == [Completed] then BoundFor(skipped, outcome) else outcome == Error
      case NeedsBoundRegistration(_, _, _) => CoRegistered([], outcome) && Sent(again, 1, left)
      case StateBound(_, tier, _) =>
        NotSent(left) && outcome == if tier == TierDbsc then NativeDbsc(None) else PolyfillBound(None)
      case Unbound => NotSent(left) && outcome == PolyfillBound(None)
    }

    /** The settling answer said that there is no session, or the window ended on a demoted one. */
    ghost predicate HearsNoSession(polls: nat)
      reads this
    {
      && |seen| > 0
      && (seen[0].Unbound?
          || (seen[0].NeedsRegistration? && seen[0].skipped == [] && |seen| > polls
              && (seen[polls].Unbound? || (seen[polls].StateBound? && seen[polls].tier == TierNone))))
    }

    /** The server said bound, but for a key not stored here, and then that there is no session. */
    ghost predicate HearsOfItsEnd(hadKey: Option<string>)
      reads this
    {
      |seen| == 2 && SaysPolyfill(seen[0]) && hadKey != Some(seen[0].sessionId) && seen[1].Unbound?
    }

    /** What the first response leads to. */
    ghost predicate Follows(opts: Options, start: int, stored: Option<string>, outcome: Outcome, polls: nat)
      reads this
    {
      if |seen| == 0 then outcome == Error && NotSent(stored) && fetches == 1 && polls == 0
      else
        match seen[0]
        case Unbound => outcome == NoSession && NotSent(Cleared(0, stored)) && fetches == 1 && polls == 0
        case NeedsBoundRegistration(_, _, _) => Concludes(0, stored, outcome) && polls == 0
        case StateBound(id, tier, _) =>
          && polls == 0
          && if tier == TierDbsc then outcome == NativeDbsc(None) && NotSent(stored) && fetches == 1
             else if Told(stored) == Some(id) then outcome == PolyfillBound(None) && NotSent(stored) && fetches == 1
             else
               && fetches == 2
               && if |seen| == 1 then outcome == Error && NotSent(Cleared(0, stored))
                  else Reconciled(seen[1], Cleared(0, stored), outcome)
        case NeedsRegistration(_, _, skipped) =>
          if skipped != [] then Concludes(0, stored, outcome) && polls == 0
          else PollsUntilSettled(opts, start, stored, outcome, polls)
    }

    lemma FollowsJustified(opts: Options, start: int, stored: Option<string>, outcome: Outcome, polls: nat)
      requires Follows(opts, start, stored, outcome, polls) && Faithful()
      ensures Justified(outcome)
    {
      if tries == [attempts(0)] {
        assert tries[0] in tries && forall a <- tries :: a == tries[0];
      }
      assert forall k | 0 <= k < |seen| :: seen[k] in seen;
    }

    /**
     * The refresh interval that the refresh is scheduled by, if it is: that of the first answer where
     * that said bound, for a key that is stored or was registered after all; else that of the last
     * answer, where that says bound. Nothing is scheduled unless the outcome is a polyfill binding.
     */
    ghost function IntervalFrom(stored: Option<string>, outcome: Outcome): Option<int>
      reads this
    {
      if !outcome.PolyfillBound? || seen == [] then None
      else if seen[0].StateBound? then
        if Told(stored) == Some(seen[0].sessionId) || tries == [Completed] then Some(seen[0].refreshIntervalMs) else None
      else LastInterval(outcome)
    }

    /** The timer is set for an interval less the margin, a second at the least, or left as it was. */
    ghost predicate Scheduled(opts: Options, interval: Option<int>, was: Option<int>)
      reads this
    {
      refreshTimer == if interval.Some? then Some(Max(1000, interval.value - opts.refreshMarginMs)) else was
    }

    /** The interval of the last answer, where that says bound after a polyfill binding. */
    ghost function LastInterval(outcome: Outcome): Option<int>
      reads this
    {
      if outcome.PolyfillBound? && seen != [] && seen[|seen| - 1].StateBound?
      then Some(seen[|seen| - 1].refreshIntervalMs) else None
    }

    /** The co-registration beside a native key: its failure still counts as native. */
    method CoRegister(asking: StateResponse, skipped: seq<string>) returns (outcome: Outcome)
      requires tries == [] && asking.NeedsBoundRegistration?
      modifies this`tries, this`sentFor, this`keyRecord, this`clearings
      ensures CoRegistered(skipped, outcome) && Sent(asking, old(clearings), old(keyRecord))
    {
      var ok := RunRegistration(asking.sessionId, asking.challenge);
      outcome := NativeDbsc(if ok then FirstSkip(skipped) else Some(CO_REGISTRATION_FAILED));
    }

    /** Register, ask once more, and schedule the refresh when the server says bound. */
    method RegisterAndConfirm(opts: Options, asking: StateResponse) returns (outcome: Outcome)
      requires tries == [] && Faithful() && |seen| == fetches && asking.NeedsRegistration?
      modifies this
      ensures Faithful() && old(seen) <= seen && clock >= old(clock)
      ensures Confirmed(asking.skipped, outcome) && Sent(asking, old(clearings), old(keyRecord))
      ensures fetches == old(fetches) + if tries == [Completed] then 1 else 0
      ensures Scheduled(opts, LastInterval(outcome), old(refreshTimer))
    {
      var ok := RunRegistration(asking.sessionId, asking.challenge);
      if !ok {
        return Error;
      }
      var final := FetchState();
      if final.FetchThrows? {
        return Error;
      }
      if final.state.StateBound? {
        ScheduleRefresh(opts, final.state.refreshIntervalMs);
      }
      return PolyfillBound(FirstSkip(asking.skipped));
    }

    /** Register, and schedule the refresh by the first answer's interval. */
    method RegisterAgain(opts: Options, asking: StateResponse, refreshIntervalMs: int) returns (outcome: Outcome)
      requires tries == [] && asking.NeedsRegistration?
      modifies this`tries, this`sentFor, this`keyRecord, this`clearings, this`refreshTimer
      ensures Sent(asking, old(clearings), old(keyRecord))
      ensures if tries == [Completed] then BoundFor(asking.skipped, outcome) else outcome == Error
      ensures Scheduled(opts, if tries == [Completed] then Some(refreshIntervalMs) else None, old(refreshTimer))
    {
      var ok := RunRegistration(asking.sessionId, asking.challenge);
      if !ok {
        return Error;
      }
      ScheduleRefresh(opts, refreshIntervalMs);
      return PolyfillBound(FirstSkip(asking.skipped));
    }

    /** The server says bound, but the stored key is not this session's: ask again before deciding. */
    method Reconcile(opts: Options, refreshIntervalMs: int) returns (outcome: Outcome)
      requires tries == [] && Faithful() && |seen| == fetches && clearings == 0
      modifies this
      ensures fetches == old(fetches) + 1 && old(seen) <= seen && Faithful()
      ensures if |seen| > |old(seen)| then Reconciled(seen[|seen| - 1], Cleared(0, old(keyRecord)), outcome)
              else outcome == Error && NotSent(Cleared(0, old(keyRecord)))
      ensures Scheduled(opts, if outcome.PolyfillBound? && tries == [Completed] then Some(refreshIntervalMs) else None,
                        old(refreshTimer))
    {
      ClearKeyRecord();
      var reply := FetchState();
      if reply.FetchThrows? {
        return Error;
      }
      var again := reply.state;
      if again.NeedsRegistration? {
        outcome := RegisterAgain(opts, again, refreshIntervalMs);
        return;
      }
      if again.NeedsBoundRegistration? {
        outcome := CoRegister(again, []);
        return;
      }
      if again.StateBound? && again.tier == TierDbsc {
        return NativeDbsc(None);
      }
      return PolyfillBound(None);
    }

    /**
     * initBoundDbsc. The loop makes at most ceil(window / interval) polls, at most one registration
     * is sent, a session is never reported missing after one, and a native outcome always rests on
     * a response that said so.
     */
    method InitBoundDbsc(opts: Options) returns (outcome: Outcome, polls: nat)
      requires seen == [] && tries == [] && fetches == 0 && clearings == 0
      modifies this
      ensures Justified(outcome) && Faithful()
      ensures polls <= Max(0, CeilDiv(opts.nativeProbeWindowMs, Max(250, opts.pollIntervalMs)))
      ensures fetches <= polls + 2
      ensures Follows(opts, old(clock), old(keyRecord), outcome, polls)
      ensures outcome == NoSession <==> HearsNoSession(polls)
      ensures outcome.PolyfillBound? && tries == [] && seen[|seen| - 1].Unbound?
        <==> HearsOfItsEnd(Told(old(keyRecord)))
      ensures Scheduled(opts, IntervalFrom(old(keyRecord), outcome), old(refreshTimer))
    {
      outcome, polls := Drive(opts);
      FollowsJustified(opts, old(clock), old(keyRecord), outcome, polls);
    }

    /** Its body: the first state answer decides which way to go. */
    method Drive(opts: Options) returns (outcome: Outcome, polls: nat)
      requires seen == [] && tries == [] && fetches == 0 && clearings == 0
      modifies this
      ensures Faithful()
      ensures polls <= Max(0, CeilDiv(opts.nativeProbeWindowMs, Max(250, opts.pollIntervalMs)))
      ensures Follows(opts, old(clock), old(keyRecord), outcome, polls)
      ensures Scheduled(opts, IntervalFrom(old(keyRecord), outcome), old(refreshTimer))
    {
      polls := 0;
      var reply := FetchState();
      if reply.FetchThrows? {
        return Error, polls;
      }
      var state := reply.state;
      if state.Unbound? {
        ClearKeyRecord();
        return NoSession, polls;
      }
      if state.StateBound? {
        if state.tier == TierDbsc {
          return NativeDbsc(None), polls;
        }
        var rec := if readable then keyRecord else None;
        if rec != Some(state.sessionId) {
          outcome := Reconcile(opts, state.refreshIntervalMs);
          return;
        }
        ScheduleRefresh(opts, state.refreshIntervalMs);
        return PolyfillBound(None), polls;
      }
      if state.NeedsBoundRegistration? {
        outcome := CoRegister(state, state.skipped);
        return;
      }
      if |state.skipped| > 0 {
        outcome := RegisterAndConfirm(opts, state);
        return;
      }
      outcome, polls := Poll(opts, state);
    }

    /** A polled response that settles the matter. */
    method Conclude(opts: Options, s: StateResponse) returns (outcome: Outcome)
      requires tries == [] && Faithful() && |seen| == fetches && |seen| > 0 && seen[|seen| - 1] == s && Settles(s)
      requires clearings == 0
      modifies this
      ensures Faithful() && old(seen) <= seen && clock >= old(clock)
      ensures Concludes(|old(seen)| - 1, old(keyRecord), outcome)
      ensures Scheduled(opts, LastInterval(outcome), old(refreshTimer))
    {
      if s.NeedsBoundRegistration? {
        outcome := CoRegister(s, s.skipped);
        return;
      }
      if s.StateBound? && s.tier == TierDbsc {
        return NativeDbsc(None);
      }
      if s.StateBound? && s.tier == TierBound {
        ScheduleRefresh(opts, s.refreshIntervalMs);
        return PolyfillBound(None);
      }
      if s.NeedsRegistration? && |s.skipped| > 0 {
        outcome := RegisterAndConfirm(opts, s);
        return;
      }
      return NoSession;
    }

    /** One round of the poll loop. */
    method PollOnce(interval: nat) returns (reply: Reply)
      requires Faithful() && |seen| == fetches
      modifies this`clock, this`sleeps, this`fetches, this`seen
      ensures Faithful() && fetches == old(fetches) + 1 && clock >= old(clock) + interval
      ensures seen == old(seen) + if reply.Response? then [reply.state] else []
    {
      Sleep(interval);
      reply := FetchState();
    }

    /** Nothing settled the matter in time. */
    method WindowOver(opts: Options, last: StateResponse) returns (outcome: Outcome)
      requires tries == [] && Faithful() && |seen| == fetches && |seen| > 0 && seen[|seen| - 1] == last
      requires !last.Unbound? && !last.NeedsBoundRegistration? && !SaysNative(last) && clearings == 0
      modifies this
      ensures Faithful() && old(seen) <= seen && clock >= old(clock)
      ensures if last.NeedsRegistration? then Concludes(|old(seen)| - 1, old(keyRecord), outcome)
              else outcome == NoSession && NotSent(old(keyRecord)) && fetches == old(fetches) && seen == old(seen)
      ensures Scheduled(opts, LastInterval(outcome), old(refreshTimer))
    {
      if !last.NeedsRegistration? {
        return NoSession;
      }
      outcome := RegisterAndConfirm(opts, last);
    }

    method Poll(opts: Options, state: StateResponse) returns (outcome: Outcome, polls: nat)
      requires tries == [] && |seen| == fetches == 1 && Faithful()
      requires seen[0] == state && state.NeedsRegistration? && state.skipped == [] && clearings == 0
      modifies this
      ensures Faithful() && old(seen) <= seen
      ensures polls <= Max(0, CeilDiv(opts.nativeProbeWindowMs, Max(250, opts.pollIntervalMs)))
      ensures fetches <= polls + 2
      ensures PollsUntilSettled(opts, old(clock), old(keyRecord), outcome, polls)
      ensures Scheduled(opts, LastInterval(outcome), old(refreshTimer))
    {
      polls := 0;
      var interval := PollInterval(opts);
      ghost var start, first := clock, seen;
      var deadline := clock + opts.nativeProbeWindowMs;
      var last := state;
      while clock < deadline
        invariant tries == [] && |seen| == fetches == polls + 1 && Faithful() && first <= seen && clearings == 0
        invariant keyRecord == old(keyRecord) && refreshTimer == old(refreshTimer)
        invariant forall k :: 1 <= k <= polls ==> !Settles(seen[k])
        invariant Waited(clock - start, polls, interval) && (polls == 0 ==> clock == start)
        invariant polls <= Max(0, CeilDiv(opts.nativeProbeWindowMs, interval))
        invariant last == seen[polls]
        decreases deadline - clock
      {
        OneMorePoll(clock - start, polls, interval, opts.nativeProbeWindowMs);
        ghost var elapsed := clock - start;
        var reply := PollOnce(interval);
        WaitedMore(elapsed, clock - start, polls, interval);
        polls := polls + 1;
        if reply.FetchThrows? {
          return Error, polls;
        }
        last := reply.state;
        if Settles(last) {
          outcome := Conclude(opts, last);
          return;
        }
      }
      outcome := WindowOver(opts, last);
    }
  }

  /** So many polls have taken at least so many intervals. */
  ghost predicate Waited(elapsed: int, polls: nat, interval: int) {
    elapsed >= polls * interval
  }

  lemma WaitedMore(elapsed: int, later: int, polls: nat, interval: int)
    requires Waited(elapsed, polls, interval) && later >= elapsed + interval
    ensures Waited(later, polls + 1, interval)
  {}

  /** While the clock has not reached the deadline, one more poll stays within the bound. */
  lemma OneMorePoll(elapsed: int, polls: nat, interval: int, window: int)
    requires interval > 0 && Waited(elapsed, polls, interval) && elapsed < window
    ensures polls + 1 <= CeilDiv(window, interval)
  {}

  /**
   * The server may answer "bound" with tier none, after a demotion; the poll loop then keeps
   * polling and gives up with "unbound" although the session exists.
   */
  method DemotedReadsAsUnbound(clock: int) returns (outcome: Outcome, seen: seq<StateResponse>)
    ensures outcome == NoSession
    ensures |seen| >= 2 && seen[0].NeedsRegistration? && seen[1] == StateBound("s", TierNone, 600000)
  {
    var first, later := NeedsRegistration("s", "c", []), StateBound("s", TierNone, 600000);
    var browser := new Browser((i: nat) => Response(if i == 0 then first else later), (i: nat) => Completed,
                               (i: nat) => 0, (i: nat) => 0, (i: nat) => true, true, clock, None);
    var polls;
    outcome, polls := browser.InitBoundDbsc(Options(250, 250, 5000));
    seen := browser.seen;
  }

  /**
   * And the other way round: "bound" for a key that is not stored here, then "unbound", is reported
   * as a polyfill binding, with nothing stored and nothing sent.
   */
  method EndedReadsAsBound(clock: int) returns (outcome: Outcome, seen: seq<StateResponse>, keyRecord: Option<string>)
    ensures outcome == PolyfillBound(None) && keyRecord == None && seen == [StateBound("s", TierBound, 600000), Unbound]
  {
    var browser := new Browser((i: nat) => Response(if i == 0 then StateBound("s", TierBound, 600000) else Unbound),
                               (i: nat) => Completed, (i: nat) => 0, (i: nat) => 0,
                               (i: nat) => true, true, clock, None);
    var polls;
    outcome, polls := browser.InitBoundDbsc(Options(5000, 1000, 5000));
    seen, keyRecord := browser.seen, browser.keyRecord;
    assert |seen| <= 2 && seen[0] == StateBound("s", TierBound, 600000);
  }
}
