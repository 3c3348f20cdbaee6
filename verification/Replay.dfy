/**
 * The replay caches. A timed set remembers a key for a while; what a time-to-live of twice the
 * timestamp window buys, when exactly a cache whose timers may fire on the last millisecond
 * falls short of it, and that no shorter time-to-live is enough.
 */
module Replay {
  import opened Basics
  import Text

  /** Keys with the last moment they are due to be remembered. */
  type Cache = map<string, int>

  // ---------------------------------------------------------------- the in-process cache

  /** MemoryReplayCache: a key stays until its timer has fired; a timer fires no earlier than it is due. */
  class MemoryReplayCache {
    var seen: Cache

    constructor ()
      ensures seen == map[]
    {
      seen := map[];
    }

    method CheckAndRecord(key: string, ttlMs: int, now: int) returns (first: bool)
      modifies this
      ensures (seen, first) == Check(old(seen), key, ttlMs, now)
    {
      if key in seen {
        return false;
      }
      seen := seen[key := now + ttlMs];
      return true;
    }

    method TimerFires(key: string)
      modifies this
      ensures seen == old(seen) - {key}
    {
      seen := seen - {key};
    }

    method Clear()
      modifies this
      ensures seen == map[]
    {
      seen := map[];
    }
  }

  function Check(cache: Cache, key: string, ttl: int, now: int): (Cache, bool) {
    if key in cache then (cache, false) else (cache[key := now + ttl], true)
  }

  datatype Event =
    | Ask(key: string, ttl: int, now: int)
    | Fire(key: string, now: int)

  /**
   * Whether a step is possible. A lenient timer may fire as soon as its time is reached; a strict
   * one keeps the entry through that millisecond.
   */
  predicate Enabled(cache: Cache, e: Event, strict: bool) {
    e.Fire? ==> e.key in cache && (if strict then e.now > cache[e.key] else e.now >= cache[e.key])
  }

  function Next(cache: Cache, e: Event): (Cache, bool) {
    match e
    case Ask(key, ttl, now) => Check(cache, key, ttl, now)
    case Fire(key, _) => (cache - {key}, false)
  }

  function After(run: seq<Event>): Cache {
    if run == [] then map[] else Next(After(run[..|run| - 1]), run[|run| - 1]).0
  }

  ghost predicate IsRun(run: seq<Event>, strict: bool) {
    && (forall i :: 0 <= i < |run| ==> Enabled(After(run[..i]), run[i], strict))
    && (forall i, j :: 0 <= i < j < |run| ==> run[i].now <= run[j].now)
  }

  /** Call i asks about the key and is told it is the first. */
  predicate Accepts(run: seq<Event>, i: nat, key: string)
    requires i < |run|
  {
    run[i].Ask? && run[i].key == key && Next(After(run[..i]), run[i]).1
  }

  /** The key is in the cache with a deadline no earlier than due, unless time has passed due. */
  ghost predicate Remembers(cache: Cache, key: string, due: int, now: int, strict: bool) {
    || (key in cache && cache[key] >= due)
    || (if strict then now > due else now >= due)
  }

  lemma RemembersNext(cache: Cache, e: Event, key: string, due: int, now: int, strict: bool)
    requires Remembers(cache, key, due, now, strict) && Enabled(cache, e, strict) && now <= e.now
    requires e.Ask? ==> e.key != key || e.ttl >= 0
    ensures Remembers(Next(cache, e).0, key, due, e.now, strict)
  {}

  lemma PrefixIsRun(run: seq<Event>, i: nat, key: string, strict: bool)
    requires i < |run| - 1 && IsRun(run, strict) && Accepts(run, i, key)
    ensures IsRun(run[..|run| - 1], strict) && Accepts(run[..|run| - 1], i, key)
  {
    var prefix := run[..|run| - 1];
    assert forall k | 0 <= k <= |prefix| :: prefix[..k] == run[..k];
  }

  lemma LastEnabled(run: seq<Event>, strict: bool)
    requires |run| > 1 && IsRun(run, strict)
    ensures var last := |run| - 1; Enabled(After(run[..last]), run[last], strict) && run[last - 1].now <= run[last].now
  {}

  lemma {:induction false} Remembered(run: seq<Event>, i: nat, key: string, strict: bool)
    requires i < |run| && IsRun(run, strict) && Accepts(run, i, key)
    requires forall k :: 0 <= k < |run| && run[k].Ask? && run[k].key == key ==> run[k].ttl >= 0
    ensures Remembers(After(run), key, run[i].now + run[i].ttl, run[|run| - 1].now, strict)
  {
    var prefix, last := run[..|run| - 1], run[|run| - 1];
    if i < |prefix| {
      PrefixIsRun(run, i, key, strict);
      Remembered(prefix, i, key, strict);
      LastEnabled(run, strict);
      RemembersNext(After(prefix), last, key, run[i].now + run[i].ttl, prefix[|prefix| - 1].now, strict);
    } else {
      assert run[..i] == prefix;
    }
  }

  /** Between two acceptances of a key, at least its time-to-live passes; strictly more on a strict cache. */
  lemma AcceptedTwice(run: seq<Event>, i: nat, j: nat, key: string, strict: bool)
    requires i < j < |run| && IsRun(run, strict) && Accepts(run, i, key) && Accepts(run, j, key)
    requires forall k :: 0 <= k < |run| && run[k].Ask? && run[k].key == key ==> run[k].ttl >= 0
    ensures run[j].now >= run[i].now + run[i].ttl
    ensures strict ==> run[j].now > run[i].now + run[i].ttl
  {
    var until := run[..j];
    assert forall k | 0 <= k <= |until| :: until[..k] == run[..k];
    assert until[i] == run[i] && until[..i] == run[..i];
    Remembered(until, i, key, strict);
  }

  // ---------------------------------------------------------------- the window

  /** The freshness test on a proof's timestamp. */
  predicate InWindow(ts: int, window: int, now: int) {
    Abs(now - ts) <= window
  }

  /**
   * Replay bound: with a time-to-live of twice the window, a strict cache accepts no timestamped
   * key twice. A lenient one can only do so at the two ends of the window, on exact milliseconds.
   */
  lemma ReplayBound(run: seq<Event>, i: nat, j: nat, key: string, ts: int, window: int, strict: bool)
    requires i < j < |run| && IsRun(run, strict) && Accepts(run, i, key) && Accepts(run, j, key)
    requires forall k :: 0 <= k < |run| && run[k].Ask? && run[k].key == key ==> run[k].ttl == 2 * window
    requires InWindow(ts, window, run[i].now) && InWindow(ts, window, run[j].now)
    ensures !strict && run[i].now == ts - window && run[j].now == ts + window
  {
    AcceptedTwice(run, i, j, key, strict);
  }

  /** The lenient exception is real: accepted at one end, forgotten and accepted at the other. */
  lemma LenientEdge(key: string, ts: int, window: nat)
    ensures var run := [Ask(key, 2 * window, ts - window), Fire(key, ts + window), Ask(key, 2 * window, ts + window)];
      IsRun(run, false) && Accepts(run, 0, key) && Accepts(run, 2, key)
  {}

  /** Twice the window is the least time-to-live: any shorter one accepts some key twice in its window. */
  lemma NothingShorter(key: string, ts: int, window: nat, ttl: nat)
    requires ttl < 2 * window
    ensures var later := ts - window + ttl + 1;
      var run := [Ask(key, ttl, ts - window), Fire(key, later), Ask(key, ttl, later)];
      && IsRun(run, true) && Accepts(run, 0, key) && Accepts(run, 2, key)
      && InWindow(ts, window, ts - window) && InWindow(ts, window, later)
  {}

  // ---------------------------------------------------------------- the shared cache

  /** Seconds for a time-to-live in milliseconds, as both Redis adapters compute them. */
  function TtlSeconds(ttlMs: int): int {
    Max(1, CeilDiv(ttlMs, 1000))
  }

  /** Rounding to whole seconds keeps an entry at least as long as asked, and less than a second longer. */
  lemma RoundingNeverShortens(ttlMs: int)
    ensures TtlSeconds(ttlMs) * 1000 >= ttlMs
    ensures if ttlMs > 0 then TtlSeconds(ttlMs) * 1000 < ttlMs + 1000 else TtlSeconds(ttlMs) == 1
  {}

  /** Set-if-absent with an expiry: a key is present through its deadline and absent after it. */
  function SetIfAbsent(store: Cache, key: string, retain: int, now: int): (Cache, bool) {
    if key in store && now <= store[key] then (store, false) else (store[key := now + retain], true)
  }

  class RedisReplayCache {
    var store: Cache
    const keyPrefix: string

    constructor (keyPrefix: string)
      ensures store == map[] && this.keyPrefix == keyPrefix
    {
      store := map[];
      this.keyPrefix := keyPrefix;
    }

    method CheckAndRecord(key: string, ttlMs: int, now: int) returns (first: bool)
      modifies this`store
      ensures (store, first) == SetIfAbsent(old(store), keyPrefix + key, TtlSeconds(ttlMs) * 1000, now)
    {
      var ttlSeconds := if CeilDiv(ttlMs, 1000) > 1 then CeilDiv(ttlMs, 1000) else 1;
      var name := keyPrefix + key;
      if name in store && now <= store[name] {
        return false;
      }
      store := store[name := now + ttlSeconds * 1000];
      return true;
    }
  }

  // ---------------------------------------------------------------- one interface, either cache

  /** What a verifier does with a replay cache: nothing, or record a key under a name for a while. */
  datatype CacheUse = NoCache | Shared(prefix: string, retain: int) | InProcess(ttl: int)

  function NameFor(use: CacheUse, key: string): string {
    if use.Shared? then use.prefix + key else key
  }

  function Retained(use: CacheUse): int
    requires !use.NoCache?
  {
    if use.Shared? then use.retain else use.ttl
  }

  /** checkAndRecord through the interface; without a cache every key is the first. */
  function Record(cache: Cache, use: CacheUse, key: string, now: int): (Cache, bool) {
    match use
    case NoCache => (cache, true)
    case Shared(_, retain) => SetIfAbsent(cache, NameFor(use, key), retain, now)
    case InProcess(ttl) => Check(cache, key, ttl, now)
  }

  datatype Adapter = Absent | Redis(redis: RedisReplayCache) | Memory(memory: MemoryReplayCache)

  function Footprint(a: Adapter): set<object> {
    match a
    case Absent => {}
    case Redis(redis) => {redis}
    case Memory(memory) => {memory}
  }

  function Contents(a: Adapter): Cache
    reads Footprint(a)
  {
    match a
    case Absent => map[]
    case Redis(redis) => redis.store
    case Memory(memory) => memory.seen
  }

  /** What an adapter amounts to for a given time-to-live; the shared cache rounds it to whole seconds. */
  function UseOf(a: Adapter, ttlMs: int): CacheUse {
    match a
    case Absent => NoCache
    case Redis(redis) => Shared(redis.keyPrefix, TtlSeconds(ttlMs) * 1000)
    case Memory(_) => InProcess(ttlMs)
  }

  method RecordIn(a: Adapter, key: string, ttlMs: int, now: int) returns (first: bool)
    modifies Footprint(a)
    ensures (Contents(a), first) == Record(old(Contents(a)), UseOf(a, ttlMs), key, now)
  {
    match a
    case Absent => first := true;
    case Redis(redis) => first := redis.CheckAndRecord(key, ttlMs, now);
    case Memory(memory) => first := memory.CheckAndRecord(key, ttlMs, now);
  }

  /** Every adapter keeps a key at least as long as it is asked to. */
  lemma KeepsLongEnough(a: Adapter, ttlMs: int)
    requires !a.Absent?
    ensures Retained(UseOf(a, ttlMs)) >= ttlMs
  {
    RoundingNeverShortens(ttlMs);
  }

  // ---------------------------------------------------------------- what stays remembered

  /** An entry is in the cache with at least this deadline. */
  ghost predicate Kept(cache: Cache, name: string, due: int) {
    name in cache && cache[name] >= due
  }

  /** A timer, or the server's own expiry, may drop an entry; a lenient one already on its last millisecond. */
  predicate MayDrop(cache: Cache, name: string, now: int, strict: bool) {
    name in cache ==> if strict then now > cache[name] else now >= cache[name]
  }

  /** The moments at which a kept entry is certainly still there. */
  predicate Before(now: int, due: int, strict: bool) {
    if strict then now <= due else now < due
  }

  lemma RecordKeeps(cache: Cache, use: CacheUse, key: string, now: int, name: string, due: int)
    requires Kept(cache, name, due) && now <= due
    ensures Kept(Record(cache, use, key, now).0, name, due)
  {}

  lemma RecordedIsKept(cache: Cache, use: CacheUse, key: string, now: int)
    requires !use.NoCache? && Record(cache, use, key, now).1
    ensures Kept(Record(cache, use, key, now).0, NameFor(use, key), now + Retained(use))
  {}

  lemma KeptRefuses(cache: Cache, use: CacheUse, key: string, now: int, due: int)
    requires !use.NoCache? && Kept(cache, NameFor(use, key), due) && now <= due
    ensures !Record(cache, use, key, now).1
  {}

  /**
   * Two windows suffice: of two moments within one window, the later is before the end of an entry
   * made at the earlier one. The one exception is a lenient timer at the two exact ends.
   */
  lemma WindowCovered(ts: int, window: int, early: int, late: int, retained: int, strict: bool)
    requires InWindow(ts, window, early) && InWindow(ts, window, late) && retained >= 2 * window
    ensures Before(late, early + retained, strict)
      || (!strict && early == ts - window && late == ts + window && retained == 2 * window)
  {}

  // ---------------------------------------------------------------- histories of either cache

  /** A key is recorded through the interface, an entry is dropped, or the cache is left alone. */
  datatype Deed = Recorded(key: string) | Dropped(name: string) | Untouched

  datatype Timed = Timed(deed: Deed, now: int)

  function Do(use: CacheUse, cache: Cache, t: Timed): Cache {
    match t.deed
    case Recorded(key) => Record(cache, use, key, t.now).0
    case Dropped(name) => cache - {name}
    case Untouched => cache
  }

  function Play(use: CacheUse, run: seq<Timed>): Cache {
    if run == [] then map[] else Do(use, Play(use, run[..|run| - 1]), run[|run| - 1])
  }

  ghost predicate Ordered(run: seq<Timed>) {
    forall i, j :: 0 <= i < j < |run| ==> run[i].now <= run[j].now
  }

  /** Deed i records its key as the first. */
  ghost predicate Takes(use: CacheUse, run: seq<Timed>, i: nat)
    requires i < |run|
  {
    run[i].deed.Recorded? && Record(Play(use, run[..i]), use, run[i].deed.key, run[i].now).1
  }

  /** Nothing after deed i drops the name. */
  ghost predicate NoneDropped(run: seq<Timed>, i: nat, name: string) {
    forall m :: i < m < |run| ==> run[m].deed != Dropped(name)
  }

  /** Deed i took the name, and nothing has dropped the entry since. */
  ghost predicate Holds(use: CacheUse, run: seq<Timed>, i: nat, name: string) {
    && i < |run| && Takes(use, run, i) && NameFor(use, run[i].deed.key) == name
    && NoneDropped(run, i, name)
  }

  /** And the server has not let it time out: a shared entry is good through its last millisecond. */
  ghost predicate StillHeld(use: CacheUse, run: seq<Timed>, i: nat, name: string, now: int) {
    Holds(use, run, i, name) && (use.Shared? ==> now <= run[i].now + use.retain)
  }

  lemma HoldsPrefix(use: CacheUse, run: seq<Timed>, i: nat, name: string)
    requires i < |run| - 1
    ensures Holds(use, run, i, name)
       <==> Holds(use, run[..|run| - 1], i, name) && run[|run| - 1].deed != Dropped(name)
  {
    var prefix := run[..|run| - 1];
    assert prefix[..i] == run[..i] && forall m | 0 <= m < |prefix| :: prefix[m] == run[m];
  }

  /** What a cache holds under a name is what some deed took and nothing has dropped, for the time it was given. */
  ghost predicate EntryExact(use: CacheUse, run: seq<Timed>, name: string)
    requires !use.NoCache?
  {
    var cache := Play(use, run);
    && (name in cache ==> exists i: nat :: Holds(use, run, i, name) && cache[name] == run[i].now + Retained(use))
    && (forall i: nat :: Holds(use, run, i, name) ==> name in cache && cache[name] >= run[i].now + Retained(use))
  }

  lemma {:induction false} EntriesExact(use: CacheUse, run: seq<Timed>, name: string)
    requires !use.NoCache? && Ordered(run)
    ensures EntryExact(use, run, name)
  {
    if run != [] {
      var prefix, last := run[..|run| - 1], run[|run| - 1];
      EntriesExact(use, prefix, name);
      forall i: nat | i < |prefix|
        ensures Holds(use, run, i, name) <==> Holds(use, prefix, i, name) && last.deed != Dropped(name)
      {
        HoldsPrefix(use, run, i, name);
      }
      EntryNext(use, run, name);
    }
  }

  lemma EntryNext(use: CacheUse, run: seq<Timed>, name: string)
    requires !use.NoCache? && Ordered(run) && run != [] && EntryExact(use, run[..|run| - 1], name)
    requires forall i: nat :: i < |run| - 1 ==>
      (Holds(use, run, i, name) <==> Holds(use, run[..|run| - 1], i, name) && run[|run| - 1].deed != Dropped(name))
    ensures EntryExact(use, run, name)
  {
    var prefix, last := run[..|run| - 1], run[|run| - 1];
    var before, cache := Play(use, prefix), Play(use, run);
    if Holds(use, run, |prefix|, name) {
      assert cache[name] == last.now + Retained(use);
    } else if name in cache {
      assert last.deed != Dropped(name) && name in before && cache[name] == before[name];
      var i: nat :| Holds(use, prefix, i, name) && before[name] == prefix[i].now + Retained(use);
      assert Holds(use, run, i, name);
    }
  }

  /**
   * When a cache refuses, exactly: over every history, a key is refused if and only if an earlier
   * deed that recorded it is still held, neither dropped since nor, in the shared cache, timed out.
   */
  lemma RefusedExactly(use: CacheUse, run: seq<Timed>, key: string, now: int)
    requires !use.NoCache? && Ordered(run) && forall t <- run :: t.now <= now
    ensures !Record(Play(use, run), use, key, now).1
       <==> exists i: nat :: StillHeld(use, run, i, NameFor(use, key), now)
  {
    var name, cache := NameFor(use, key), Play(use, run);
    EntriesExact(use, run, name);
    if i: nat :| StillHeld(use, run, i, name, now) {
      assert name in cache;
    } else if !Record(cache, use, key, now).1 {
      var i: nat :| Holds(use, run, i, name) && cache[name] == run[i].now + Retained(use);
      assert StillHeld(use, run, i, name, now);
    }
  }

  /** One name for one key. */
  lemma NamesApart(use: CacheUse, a: string, b: string)
    ensures NameFor(use, a) == NameFor(use, b) <==> a == b
  {
    if use.Shared? {
      Text.SameStart(use.prefix, a, b);
    }
  }

  // ---------------------------------------------------------------- histories of the shared cache

  datatype Put = Put(name: string, retain: int, now: int)

  function StoreAfter(run: seq<Put>): Cache {
    if run == [] then map[]
    else var p := run[|run| - 1]; SetIfAbsent(StoreAfter(run[..|run| - 1]), p.name, p.retain, p.now).0
  }

  ghost predicate PutsOrdered(run: seq<Put>) {
    forall i, j :: 0 <= i < j < |run| ==> run[i].now <= run[j].now
  }

  predicate PutAccepted(run: seq<Put>, i: nat)
    requires i < |run|
  {
    SetIfAbsent(StoreAfter(run[..i]), run[i].name, run[i].retain, run[i].now).1
  }

  lemma {:induction false} PutKept(run: seq<Put>, i: nat)
    requires i < |run| && PutsOrdered(run) && PutAccepted(run, i)
    requires run[|run| - 1].now <= run[i].now + run[i].retain
    ensures run[i].name in StoreAfter(run) && StoreAfter(run)[run[i].name] >= run[i].now + run[i].retain
  {
    var prefix := run[..|run| - 1];
    if i < |prefix| {
      assert prefix[..i] == run[..i] && prefix[i] == run[i];
      PutKept(prefix, i);
    }
  }

  /** The shared cache accepts a name again only after the whole time it was asked to keep it. */
  lemma PutTwice(run: seq<Put>, i: nat, j: nat)
    requires i < j < |run| && PutsOrdered(run) && run[i].name == run[j].name && PutAccepted(run, i)
    requires PutAccepted(run, j)
    ensures run[j].now > run[i].now + run[i].retain
  {
    if run[j].now <= run[i].now + run[i].retain {
      var until := run[..j];
      assert until[..i] == run[..i] && until[i] == run[i];
      PutKept(until, i);
    }
  }

  /** Rounded to seconds, twice the window suffices: no timestamped name is accepted twice within its window. */
  lemma SharedReplayBound(run: seq<Put>, i: nat, j: nat, ts: int, window: int)
    requires i < j < |run| && PutsOrdered(run) && run[i].name == run[j].name
    requires run[i].retain == TtlSeconds(2 * window) * 1000 && PutAccepted(run, i)
    requires InWindow(ts, window, run[i].now) && InWindow(ts, window, run[j].now)
    ensures !PutAccepted(run, j)
  {
    RoundingNeverShortens(2 * window);
    if PutAccepted(run, j) {
      PutTwice(run, i, j);
    }
  }
}
