/**
 * The demo server's two sliding-window limiters. Both trim their lists on the way, one records
 * refused requests and the other does not; over every run with a nondecreasing clock, every
 * half-open interval of the window's length holds at most the configured number of allowed requests.
 */
module Limiter {
  import opened Basics

  // ---------------------------------------------------------------- the limiters

  function Recent(hits: seq<int>, now: int, windowMs: int): (kept: seq<int>)
    ensures forall h <- kept :: h in hits
  {
    if hits == [] then []
    else (if now - hits[0] < windowMs then [hits[0]] else []) + Recent(hits[1..], now, windowMs)
  }

  function ListOf(hits: map<string, seq<int>>, key: string): seq<int> {
    if key in hits then hits[key] else []
  }

  /** rateLimit: a refused request changes nothing, an allowed one is appended to the trimmed list. */
  function CountAllowed(hits: map<string, seq<int>>, key: string, now: int, windowMs: int,
                        max: int): (map<string, seq<int>>, bool) {
    var kept := Recent(ListOf(hits, key), now, windowMs);
    if |kept| >= max then (hits, false) else (hits[key := kept + [now]], true)
  }

  /** DemoRateLimiter: every request is appended, and allowed while the list is within the limit. */
  function CountAll(hits: map<string, seq<int>>, key: string, now: int, windowMs: int,
                    max: int): (map<string, seq<int>>, bool) {
    var kept := Recent(ListOf(hits, key), now, windowMs) + [now];
    (hits[key := kept], |kept| <= max)
  }

  lemma RecentFrom(hits: seq<int>, i: nat, now: int, windowMs: int)
    requires i < |hits|
    ensures Recent(hits[i..], now, windowMs)
         == (if now - hits[i] < windowMs then [hits[i]] else []) + Recent(hits[i + 1..], now, windowMs)
  {}

  method Trim(hits: seq<int>, now: int, windowMs: int) returns (kept: seq<int>)
    ensures kept == Recent(hits, now, windowMs)
  {
    kept := [];
    for i := 0 to |hits|
      invariant kept + Recent(hits[i..], now, windowMs) == Recent(hits, now, windowMs)
    {
      RecentFrom(hits, i, now, windowMs);
      if now - hits[i] < windowMs {
        kept := kept + [hits[i]];
      }
    }
  }

  class RateLimiter {
    var hits: map<string, seq<int>>
    const windowMs: int
    const max: int

    constructor (windowMs: int, max: int)
      ensures hits == map[] && this.windowMs == windowMs && this.max == max
    {
      hits := map[];
      this.windowMs, this.max := windowMs, max;
    }

    method RateLimit(ip: string, now: int) returns (allowed: bool)
      modifies this
      ensures (hits, allowed) == CountAllowed(old(hits), ip, now, windowMs, max)
    {
      var list := if ip in hits then hits[ip] else [];
      var kept := Trim(list, now, windowMs);
      if |kept| >= max {
        return false;
      }
      hits := hits[ip := kept + [now]];
      return true;
    }

    method Check(key: string, now: int) returns (allowed: bool)
      modifies this
      ensures (hits, allowed) == CountAll(old(hits), key, now, windowMs, max)
    {
      var arr := if key in hits then hits[key] else [];
      arr := Trim(arr, now, windowMs);
      arr := arr + [now];
      hits := hits[key := arr];
      return |arr| <= max;
    }
  }

  // ---------------------------------------------------------------- runs

  datatype Hit = Hit(key: string, now: int)

  datatype Policy = RecordAllowed | RecordAll

  function Step(p: Policy, hits: map<string, seq<int>>, h: Hit, windowMs: int, max: int): (map<string, seq<int>>,
                bool) {
    if p == RecordAllowed then CountAllowed(hits, h.key, h.now, windowMs, max)
    else CountAll(hits, h.key, h.now, windowMs, max)
  }

  function After(p: Policy, run: seq<Hit>, windowMs: int, max: int): map<string, seq<int>> {
    if run == [] then map[]
    else Step(p, After(p, run[..|run| - 1], windowMs, max), run[|run| - 1], windowMs, max).0
  }

  /** The times of the allowed requests for a key, in order. */
  function AllowedTimes(p: Policy, run: seq<Hit>, key: string, windowMs: int, max: int): seq<int> {
    if run == [] then []
    else
      var before, last := run[..|run| - 1], run[|run| - 1];
      AllowedTimes(p, before, key, windowMs, max)
      + if last.key == key && Step(p, After(p, before, windowMs, max), last, windowMs, max).1 then [last.now] else []
  }

  /** The times a limiter has written down for a key: those of all requests, or of the allowed ones. */
  function RecordedTimes(p: Policy, run: seq<Hit>, key: string, windowMs: int, max: int): seq<int> {
    if run == [] then []
    else
      var before, last := run[..|run| - 1], run[|run| - 1];
      RecordedTimes(p, before, key, windowMs, max)
      + if Records(p, After(p, before, windowMs, max), last, key, windowMs, max) then [last.now] else []
  }

  predicate Records(p: Policy, hits: map<string, seq<int>>, h: Hit, key: string, windowMs: int, max: int) {
    h.key == key && (p == RecordAll || Step(p, hits, h, windowMs, max).1)
  }

  ghost predicate ClockNondecreasing(run: seq<Hit>) {
    forall i, j :: 0 <= i < j < |run| ==> run[i].now <= run[j].now
  }

  /** How many of some times fall into the half-open interval of a length. */
  function CountIn(times: seq<int>, from: int, length: int): nat {
    if times == [] then 0
    else CountIn(times[..|times| - 1], from, length) + if from <= times[|times| - 1] < from + length then 1 else 0
  }

  lemma {:induction false} CountInConcat(a: seq<int>, b: seq<int>, from: int, length: int)
    ensures CountIn(a + b, from, length) == CountIn(a, from, length) + CountIn(b, from, length)
  {
    if b == [] {
      assert a + b == a;
    } else {
      assert (a + b)[..|a + b| - 1] == a + b[..|b| - 1];
      CountInConcat(a, b[..|b| - 1], from, length);
    }
  }

  lemma CountInAppend(a: seq<int>, x: int, from: int, length: int)
    ensures CountIn(a + [x], from, length) == CountIn(a, from, length) + if from <= x < from + length then 1 else 0
  {}

  lemma {:induction false} CountInBounded(times: seq<int>, from: int, length: int)
    ensures CountIn(times, from, length) <= |times|
  {
    if times != [] {
      CountInBounded(times[..|times| - 1], from, length);
    }
  }

  /** Trimming drops nothing that an interval ending after now still reaches. */
  lemma {:induction false} TrimKeeps(hits: seq<int>, now: int, windowMs: int, from: int, length: int)
    requires from > now - windowMs
    ensures CountIn(Recent(hits, now, windowMs), from, length) == CountIn(hits, from, length)
  {
    if hits != [] {
      TrimKeeps(hits[1..], now, windowMs, from, length);
      var head := if now - hits[0] < windowMs then [hits[0]] else [];
      CountInConcat(head, Recent(hits[1..], now, windowMs), from, length);
      CountInConcat([hits[0]], hits[1..], from, length);
      assert [hits[0]] + hits[1..] == hits;
      assert [hits[0]][..0] == [];
      assert CountIn([hits[0]], from, length) == CountIn(head, from, length);
    }
  }

  /** For past times, the trimmed list is as long as the window is full. */
  lemma {:induction false} RecentCount(hits: seq<int>, now: int, windowMs: int)
    requires forall h <- hits :: h <= now
    ensures |Recent(hits, now, windowMs)| == CountIn(hits, now - windowMs + 1, windowMs)
  {
    if hits != [] {
      assert hits[0] in hits && forall h <- hits[1..] :: h in hits;
      RecentCount(hits[1..], now, windowMs);
      CountInConcat([hits[0]], hits[1..], now - windowMs + 1, windowMs);
      assert [hits[0]] + hits[1..] == hits;
      assert [hits[0]][..0] == [];
    }
  }

  lemma StepList(p: Policy, hits: map<string, seq<int>>, h: Hit, key: string, windowMs: int, max: int)
    ensures var hits' := Step(p, hits, h, windowMs, max).0;
      ListOf(hits', key)
        == if Records(p, hits, h, key, windowMs, max) then Recent(ListOf(hits, key), h.now, windowMs) + [h.now]
           else ListOf(hits, key)
  {}

  /** One request keeps list and record in step, as far back as the window reaches. */
  lemma {:induction false} StepExact(p: Policy, hits: map<string, seq<int>>, times: seq<int>, h: Hit, key: string,
                                     windowMs: int, max: int,
                                     from: int, length: int)
    requires from > h.now - windowMs && CountIn(ListOf(hits, key), from, length) == CountIn(times, from, length)
    ensures CountIn(ListOf(Step(p, hits, h, windowMs, max).0, key), from, length)
         == CountIn(times + if Records(p, hits, h, key, windowMs, max) then [h.now] else [], from, length)
  {
    StepList(p, hits, h, key, windowMs, max);
    TrimKeeps(ListOf(hits, key), h.now, windowMs, from, length);
    CountInAppend(Recent(ListOf(hits, key), h.now, windowMs), h.now, from, length);
    CountInAppend(times, h.now, from, length);
    assert times + [] == times;
  }

  /** From any time within the window before now, the trimmed list counts exactly what was recorded. */
  lemma {:induction false} ListExact(p: Policy, run: seq<Hit>, key: string, windowMs: int, max: int, now: int,
                                     from: int, length: int)
    requires ClockNondecreasing(run) && (run != [] ==> run[|run| - 1].now <= now) && from > now - windowMs
    ensures CountIn(ListOf(After(p, run, windowMs, max), key), from, length)
         == CountIn(RecordedTimes(p, run, key, windowMs, max), from, length)
  {
    if run != [] {
      var before, last := run[..|run| - 1], run[|run| - 1];
      ListExact(p, before, key, windowMs, max, last.now, from, length);
      var hits, times := After(p, before, windowMs, max), RecordedTimes(p, before, key, windowMs, max);
      StepExact(p, hits, times, last, key, windowMs, max, from, length);
    }
  }

  lemma {:induction false} ListPast(p: Policy, run: seq<Hit>, key: string, windowMs: int, max: int, now: int)
    requires ClockNondecreasing(run) && (run != [] ==> run[|run| - 1].now <= now)
    ensures forall h <- ListOf(After(p, run, windowMs, max), key) :: h <= now
  {
    if run != [] {
      var before, last := run[..|run| - 1], run[|run| - 1];
      ListPast(p, before, key, windowMs, max, last.now);
      StepList(p, After(p, before, windowMs, max), last, key, windowMs, max);
    }
  }

  lemma Verdict(p: Policy, hits: map<string, seq<int>>, times: seq<int>, h: Hit, windowMs: int, max: int)
    requires forall t <- ListOf(hits, h.key) :: t <= h.now
    requires CountIn(ListOf(hits, h.key), h.now - windowMs + 1, windowMs)
          == CountIn(times, h.now - windowMs + 1, windowMs)
    ensures Step(p, hits, h, windowMs, max).1 <==> CountIn(times, h.now - windowMs + 1, windowMs) < max
  {
    RecentCount(ListOf(hits, h.key), h.now, windowMs);
  }

  /**
   * The verdict in terms of the run: a request is allowed if and only if fewer requests than the
   * limit were recorded for its key in the window that ends with it.
   */
  lemma {:induction false} AllowedExactly(p: Policy, run: seq<Hit>, h: Hit, windowMs: int, max: int)
    requires ClockNondecreasing(run) && (run != [] ==> run[|run| - 1].now <= h.now)
    ensures Step(p, After(p, run, windowMs, max), h, windowMs, max).1 <==>
      CountIn(RecordedTimes(p, run, h.key, windowMs, max), h.now - windowMs + 1, windowMs) < max
  {
    ListPast(p, run, h.key, windowMs, max, h.now);
    ListExact(p, run, h.key, windowMs, max, h.now, h.now - windowMs + 1, windowMs);
    Verdict(p, After(p, run, windowMs, max), RecordedTimes(p, run, h.key, windowMs, max), h, windowMs, max);
  }

  /** What is allowed is recorded. */
  lemma {:induction false} AllowedRecorded(p: Policy, run: seq<Hit>, key: string, windowMs: int, max: int, from: int,
                                           length: int)
    ensures CountIn(AllowedTimes(p, run, key, windowMs, max), from, length)
         <= CountIn(RecordedTimes(p, run, key, windowMs, max), from, length)
  {
    if run != [] {
      var before, last := run[..|run| - 1], run[|run| - 1];
      AllowedRecorded(p, before, key, windowMs, max, from, length);
      var allowed := AllowedTimes(p, before, key, windowMs, max);
      var recorded := RecordedTimes(p, before, key, windowMs, max);
      CountInAppend(allowed, last.now, from, length);
      CountInAppend(recorded, last.now, from, length);
      assert allowed + [] == allowed && recorded + [] == recorded;
    }
  }

  /**
   * The limit holds: in every half-open interval as long as the window, at most the configured
   * number of requests for a key is allowed.
   */
  lemma {:induction false} LimitHolds(p: Policy, run: seq<Hit>, key: string, windowMs: int, max: int, from: int)
    requires ClockNondecreasing(run)
    ensures CountIn(AllowedTimes(p, run, key, windowMs, max), from, windowMs) <= Max(0, max)
  {
    if run != [] {
      var before, last := run[..|run| - 1], run[|run| - 1];
      LimitHolds(p, before, key, windowMs, max, from);
      var times := AllowedTimes(p, before, key, windowMs, max);
      assert times + [] == times;
      if last.key == key && from <= last.now < from + windowMs {
        LastOneFits(p, run, key, windowMs, max, from);
      } else {
        CountInConcat(times, [last.now], from, windowMs);
        assert [last.now][..0] == [];
      }
    }
  }

  /** A request that falls into the interval and is allowed found the list short enough. */
  lemma OneMoreFits(p: Policy, hits: map<string, seq<int>>, times: seq<int>, h: Hit, windowMs: int, max: int, from: int)
    requires from <= h.now < from + windowMs && Step(p, hits, h, windowMs, max).1
    requires CountIn(ListOf(hits, h.key), from, windowMs) >= CountIn(times, from, windowMs)
    ensures CountIn(times, from, windowMs) + 1 <= max
  {
    var kept := Recent(ListOf(hits, h.key), h.now, windowMs);
    TrimKeeps(ListOf(hits, h.key), h.now, windowMs, from, windowMs);
    CountInBounded(kept, from, windowMs);
  }

  lemma LastOneFits(p: Policy, run: seq<Hit>, key: string, windowMs: int, max: int, from: int)
    requires run != [] && ClockNondecreasing(run)
    requires var last := run[|run| - 1]; last.key == key && from <= last.now < from + windowMs
    requires CountIn(AllowedTimes(p, run[..|run| - 1], key, windowMs, max), from, windowMs) <= Max(0, max)
    ensures CountIn(AllowedTimes(p, run, key, windowMs, max), from, windowMs) <= Max(0, max)
  {
    var before, last := run[..|run| - 1], run[|run| - 1];
    var hits, times := After(p, before, windowMs, max), AllowedTimes(p, before, key, windowMs, max);
    assert times + [] == times;
    if Step(p, hits, last, windowMs, max).1 {
      ListExact(p, before, key, windowMs, max, last.now, from, windowMs);
      AllowedRecorded(p, before, key, windowMs, max, from, windowMs);
      OneMoreFits(p, hits, times, last, windowMs, max, from);
      CountInAppend(times, last.now, from, windowMs);
    }
  }
}
