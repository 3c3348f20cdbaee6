/**
 * RedisStorage over string-named rows: two key layouts that must read as two slots, and a
 * per-user index of sessions that outlives the rows it lists.
 */
module RedisStorage {
  import opened Basics
  import opened Model
  import MS = MemoryStorage
  import Replay
  import Text

  // ---------------------------------------------------------------- row names

  function SessionName(id: string): string { "dbsc:session:" + id }

  function KeyName(id: string, kind: Kind): string { "dbsc:key:" + MS.SlotName(Slot(id, kind)) }

  /** The unsuffixed v2.6 row, always a native key. */
  function LegacyName(id: string): string { "dbsc:key:" + id }

  function ChallengeName(jti: string): string { "dbsc:challenge:" + jti }

  /** Rows of different kinds never share a name, and those of sessions and challenges are one each. */
  lemma RowNamesApart(a: string, b: string)
    ensures SessionName(a) == SessionName(b) <==> a == b
    ensures ChallengeName(a) == ChallengeName(b) <==> a == b
    ensures SessionName(a) != ChallengeName(b)
    ensures SessionName(a) != LegacyName(b) && ChallengeName(a) != LegacyName(b)
  {
    Text.SameStart("dbsc:session:", a, b);
    Text.SameStart("dbsc:challenge:", a, b);
    assert SessionName(a)[5] == 's' && LegacyName(b)[5] == 'k';
    assert ChallengeName(a)[5] == ChallengeName(b)[5] == 'c';
  }

  lemma KeyNameInjective(a: Slot, b: Slot)
    requires KeyName(a.sessionId, a.kind) == KeyName(b.sessionId, b.kind)
    ensures a == b
  {
    Text.SameStart("dbsc:key:", MS.SlotName(a), MS.SlotName(b));
    MS.SlotNameInjective(a, b);
  }

  /** The two layouts share a name exactly when one session id is another with a kind appended. */
  lemma LayoutsOverlap(a: string, kind: Kind, b: string)
    ensures KeyName(a, kind) == LegacyName(b) <==> b == a + ":" + MS.KindText(kind)
  {
    if KeyName(a, kind) == LegacyName(b) {
      Text.SameStart("dbsc:key:", MS.SlotName(Slot(a, kind)), b);
    }
  }

  /** Neither session id is the other with a kind appended. */
  predicate Apart(a: string, b: string) {
    forall kind: Kind :: a != b + ":" + MS.KindText(kind) && b != a + ":" + MS.KindText(kind)
  }

  /** Session ids without a colon are always apart. */
  lemma ColonFreeApart(a: string, b: string)
    requires ':' !in a && ':' !in b
    ensures Apart(a, b)
  {
    forall kind: Kind
      ensures a != b + ":" + MS.KindText(kind) && b != a + ":" + MS.KindText(kind)
    {
      assert (b + ":" + MS.KindText(kind))[|b|] == ':' && (a + ":" + MS.KindText(kind))[|a|] == ':';
    }
  }

  /** How the names of two slots of sessions that are apart relate. */
  lemma NamesOf(a: string, ka: Kind, b: string, kb: Kind)
    requires Apart(a, b)
    ensures KeyName(a, ka) == KeyName(b, kb) <==> a == b && ka == kb
    ensures LegacyName(a) == LegacyName(b) <==> a == b
    ensures KeyName(a, ka) != LegacyName(b) && LegacyName(a) != KeyName(b, kb)
  {
    LayoutsOverlap(a, ka, b);
    LayoutsOverlap(b, kb, a);
    if KeyName(a, ka) == KeyName(b, kb) {
      KeyNameInjective(Slot(a, ka), Slot(b, kb));
    }
    Text.SameStart("dbsc:key:", a, b);
  }

  // ---------------------------------------------------------------- slots over rows

  /** What a slot reads as: the new row, else for a native key the legacy row. */
  function SlotReads(keys: map<string, BoundKey>, id: string, kind: Kind): Option<BoundKey> {
    if KeyName(id, kind) in keys then Some(keys[KeyName(id, kind)])
    else if kind == Native && LegacyName(id) in keys then Some(keys[LegacyName(id)].(kind := Native))
    else None
  }

  /** A slot reads as a key of its kind, also from a legacy row, which may say otherwise or nothing. */
  lemma ReadsItsKind(keys: map<string, BoundKey>, id: string, kind: Kind)
    requires KeyName(id, kind) in keys ==> keys[KeyName(id, kind)].kind == kind
    ensures SlotReads(keys, id, kind).Some? ==> SlotReads(keys, id, kind).value.kind == kind
  {}

  function WithKey(keys: map<string, BoundKey>, key: BoundKey): map<string, BoundKey> {
    var set_ := keys[KeyName(key.sessionId, key.kind) := key];
    if key.kind == Native then set_ - {LegacyName(key.sessionId)} else set_
  }

  function RowsOf(id: string, kinds: set<Kind>): set<string> {
    (set kind | kind in kinds :: KeyName(id, kind)) + if Native in kinds then {LegacyName(id)} else {}
  }

  /** Writing a slot is a map update on slots, whatever legacy rows are about. */
  lemma SlotWritten(keys: map<string, BoundKey>, key: BoundKey, id: string, kind: Kind)
    requires Apart(id, key.sessionId)
    ensures SlotReads(WithKey(keys, key), id, kind)
         == if id == key.sessionId && kind == key.kind then Some(key) else SlotReads(keys, id, kind)
  {
    NamesOf(id, kind, key.sessionId, key.kind);
  }

  /** Writing the one slot is seen in the other: a row of one is a legacy row of the other's session. */
  predicate Clobbers(key: BoundKey, id: string, kind: Kind) {
    || (kind == Native && id == key.sessionId + ":" + MS.KindText(key.kind))
    || (key.kind == Native && key.sessionId == id + ":" + MS.KindText(kind))
  }

  ghost predicate WritesLikeAMap(key: BoundKey, id: string, kind: Kind) {
    forall keys: map<string, BoundKey> ::
      SlotReads(WithKey(keys, key), id, kind)
        == if id == key.sessionId && kind == key.kind then Some(key) else SlotReads(keys, id, kind)
  }

  /** Exactly which writes are map updates, for all session ids. */
  lemma MapUpdateExactly(key: BoundKey, id: string, kind: Kind)
    ensures WritesLikeAMap(key, id, kind) <==> !Clobbers(key, id, kind)
  {
    LayoutsOverlap(key.sessionId, key.kind, id);
    LayoutsOverlap(id, kind, key.sessionId);
    LayoutsOverlap(id, kind, id);
    if KeyName(id, kind) == KeyName(key.sessionId, key.kind) {
      KeyNameInjective(Slot(id, kind), Slot(key.sessionId, key.kind));
    }
    Text.SameStart("dbsc:key:", id, key.sessionId);
    if kind == Native && id == key.sessionId + ":" + MS.KindText(key.kind) {
      assert SlotReads(map[], id, kind) == None;
      assert SlotReads(WithKey(map[], key), id, kind) != None;
    } else if key.kind == Native && key.sessionId == id + ":" + MS.KindText(kind) {
      var keys := map[KeyName(id, kind) := key];
      LayoutsOverlap(key.sessionId, key.kind, id);
      assert SlotReads(keys, id, kind) != None;
      assert SlotReads(WithKey(keys, key), id, kind) == None;
    }
  }

  /** Deleting the rows of some slots empties exactly those slots. */
  lemma SlotsEmptied(keys: map<string, BoundKey>, owner: string, kinds: set<Kind>, id: string, kind: Kind)
    requires Apart(id, owner)
    ensures SlotReads(keys - RowsOf(owner, kinds), id, kind)
         == if id == owner && kind in kinds then None else SlotReads(keys, id, kind)
  {
    NamesOf(id, kind, owner, Native);
    NamesOf(id, kind, owner, Bound);
    forall k | k in kinds
      ensures KeyName(id, kind) == KeyName(owner, k) <==> id == owner && kind == k
    {
      NamesOf(id, kind, owner, k);
    }
    if id == owner && kind in kinds {
      assert KeyName(owner, kind) in RowsOf(owner, kinds);
    }
  }

  /** A session id is apart from itself. */
  lemma ApartFromItself(id: string)
    ensures Apart(id, id)
  {
    assert forall kind: Kind :: |id + ":" + MS.KindText(kind)| > |id|;
  }

  /** Deletions never fill a slot. */
  lemma StaysEmpty(keys: map<string, BoundKey>, rows: set<string>, id: string, kind: Kind)
    requires SlotReads(keys, id, kind) == None
    ensures SlotReads(keys - rows, id, kind) == None
  {}

  // ---------------------------------------------------------------- storage

  /** A row that the server drops by itself after a moment, or never. */
  datatype Expiring<T> = Expiring(value: T, dropAfter: Option<int>)

  predicate Present<T>(row: Expiring<T>, now: int) {
    row.dropAfter.None? || now <= row.dropAfter.value
  }

  predicate KeptUntil<T>(row: Expiring<T>, moment: int) {
    row.dropAfter.Some? && row.dropAfter.value >= moment
  }

  class Storage {
    var sessions: map<string, Expiring<Session>>
    var keys: map<string, BoundKey>
    var challenges: map<string, Expiring<Challenge>>
    var users: map<string, set<string>>

    constructor ()
      ensures Valid()
      ensures sessions == map[] && keys == map[] && challenges == map[] && users == map[]
    {
      sessions, keys, challenges, users := map[], map[], map[], map[];
    }

    function IndexOf(user: string): set<string>
      reads this
    {
      if user in users then users[user] else {}
    }

    /** Every stored session is in its user's index, under its own name. */
    ghost predicate Valid()
      reads this
    {
      forall name <- sessions ::
        name == SessionName(sessions[name].value.id) && sessions[name].value.id in IndexOf(sessions[name].value.userId)
    }

    function LiveSession(id: string, now: int): Option<Session>
      reads this
    {
      var name := SessionName(id);
      if name in sessions && Present(sessions[name], now) then Some(sessions[name].value) else None
    }

    function KeyIn(id: string, kind: Kind): Option<BoundKey>
      reads this
    {
      SlotReads(keys, id, kind)
    }

    method GetSession(id: string, now: int) returns (session: Option<Session>)
      ensures session == LiveSession(id, now)
    {
      session := None;
      if SessionName(id) in sessions && Present(sessions[SessionName(id)], now) {
        session := Some(sessions[SessionName(id)].value);
      }
    }

    /** The row is kept at least until the session expires, and its id joins the user's index. */
    method SetSession(session: Session, now: int)
      requires Valid()
      modifies this
      ensures Valid() && keys == old(keys) && challenges == old(challenges)
      ensures SessionName(session.id) in sessions && sessions[SessionName(session.id)].value == session
      ensures KeptUntil(sessions[SessionName(session.id)], session.expiresAt)
      ensures now < session.expiresAt ==> sessions[SessionName(session.id)].dropAfter.value < session.expiresAt + 1000
      ensures sessions - {SessionName(session.id)} == old(sessions) - {SessionName(session.id)}
      ensures forall user :: IndexOf(user) == old(IndexOf(user)) + if user == session.userId then {session.id} else {}
    {
      var ttlSeconds := Replay.TtlSeconds(session.expiresAt - now);
      Replay.RoundingNeverShortens(session.expiresAt - now);
      sessions := sessions[SessionName(session.id) := Expiring(session, Some(now + ttlSeconds * 1000))];
      users := users[session.userId := IndexOf(session.userId) + {session.id}];
    }

    /** The server may drop a row whose time is up; the index does not notice. */
    method DropExpired(id: string, now: int)
      requires Valid() && LiveSession(id, now).None?
      modifies this`sessions
      ensures Valid() && sessions == old(sessions) - {SessionName(id)}
    {
      sessions := sessions - {SessionName(id)};
    }

    method DeleteKeyRows(id: string, kinds: set<Kind>)
      modifies this`keys
      ensures keys == old(keys) - RowsOf(id, kinds)
      ensures forall other, kind | Apart(other, id) ::
        KeyIn(other, kind) == if other == id && kind in kinds then None else old(KeyIn(other, kind))
    {
      ghost var before := keys;
      keys := keys - RowsOf(id, kinds);
      forall other, kind | Apart(other, id)
        ensures KeyIn(other, kind) == if other == id && kind in kinds then None else SlotReads(before, other, kind)
      {
        SlotsEmptied(before, id, kinds, other, kind);
      }
    }

    method DeleteSession(id: string, now: int)
      requires Valid()
      modifies this
      ensures Valid() && challenges == old(challenges)
      ensures sessions == old(sessions) - {SessionName(id)}
      ensures KeyIn(id, Native) == None && KeyIn(id, Bound) == None
      ensures forall other, kind | Apart(other, id) ::
        KeyIn(other, kind) == if other == id then None else old(KeyIn(other, kind))
    {
      var raw := GetSession(id, now);
      if raw.Some? {
        users := users[raw.value.userId := IndexOf(raw.value.userId) - {id}];
      }
      sessions := sessions - {SessionName(id)};
      DeleteKeyRows(id, {Native, Bound});
      ApartFromItself(id);
    }

    method GetBoundKey(id: string, kind: Kind) returns (key: Option<BoundKey>)
      ensures key == KeyIn(id, kind)
    {
      if KeyName(id, kind) in keys {
        return Some(keys[KeyName(id, kind)]);
      }
      if kind == Native {
        if LegacyName(id) in keys {
          return Some(keys[LegacyName(id)].(kind := Native));
        }
      }
      return None;
    }

    /** A native key in the legacy row beside a polyfill key. */
    predicate LegacyBesideBound(id: string)
      reads this
    {
      KeyName(id, Native) !in keys && LegacyName(id) in keys && KeyName(id, Bound) in keys
    }

    /**
     * The kind-less read: native row, bound row, then the legacy row. Null exactly when both slots are
     * empty, and native first, unless the native key is in the legacy row beside a polyfill key.
     */
    method GetAnyKey(id: string) returns (key: Option<BoundKey>)
      ensures key.None? <==> KeyIn(id, Native).None? && KeyIn(id, Bound).None?
      ensures key == if KeyIn(id, Native).Some? && !LegacyBesideBound(id) then KeyIn(id, Native) else KeyIn(id, Bound)
    {
      if KeyName(id, Native) in keys {
        return Some(keys[KeyName(id, Native)]);
      }
      if KeyName(id, Bound) in keys {
        return Some(keys[KeyName(id, Bound)]);
      }
      if LegacyName(id) in keys {
        return Some(keys[LegacyName(id)].(kind := Native));
      }
      return None;
    }

    /** Setting a slot is a map update: the slot reads as the key, every other slot as before. */
    method SetBoundKey(key: BoundKey)
      modifies this`keys
      ensures keys == WithKey(old(keys), key) && KeyIn(key.sessionId, key.kind) == Some(key)
      ensures forall other, kind | Apart(other, key.sessionId) ::
        KeyIn(other, kind) == if other == key.sessionId && kind == key.kind then Some(key) else old(KeyIn(other, kind))
    {
      ghost var before := keys;
      keys := keys[KeyName(key.sessionId, key.kind) := key];
      if key.kind == Native {
        keys := keys - {LegacyName(key.sessionId)};
      }
      ApartFromItself(key.sessionId);
      forall other, kind | Apart(other, key.sessionId)
        ensures KeyIn(other, kind)
             == if other == key.sessionId && kind == key.kind then Some(key) else SlotReads(before, other, kind)
      {
        SlotWritten(before, key, other, kind);
      }
    }

    /** deleteBoundKey with a kind empties one slot, without one both; every other slot stays. */
    method DeleteBoundKey(id: string, kind: Option<Kind>)
      modifies this`keys
      ensures forall k | kind.None? || kind.value == k :: KeyIn(id, k) == None
      ensures forall other, k | Apart(other, id) ::
        KeyIn(other, k) == if other == id && (kind.None? || kind.value == k) then None else old(KeyIn(other, k))
    {
      ApartFromItself(id);
      DeleteKeyRows(id, if kind.Some? then {kind.value} else {Native, Bound});
    }

    method GetChallenge(jti: string, now: int) returns (challenge: Option<Challenge>)
      ensures challenge == if ChallengeName(jti) in challenges && Present(challenges[ChallengeName(jti)], now)
                           then Some(challenges[ChallengeName(jti)].value) else None
    {
      challenge := None;
      if ChallengeName(jti) in challenges && Present(challenges[ChallengeName(jti)], now) {
        challenge := Some(challenges[ChallengeName(jti)].value);
      }
    }

    /** The row is kept at least until the challenge expires; the handler's own check covers the rounding. */
    method SetChallenge(challenge: Challenge, now: int)
      modifies this`challenges
      ensures challenges - {ChallengeName(challenge.jti)} == old(challenges) - {ChallengeName(challenge.jti)}
      ensures ChallengeName(challenge.jti) in challenges && challenges[ChallengeName(challenge.jti)].value == challenge
      ensures KeptUntil(challenges[ChallengeName(challenge.jti)], challenge.expiresAt)
      ensures now < challenge.expiresAt ==>
        challenges[ChallengeName(challenge.jti)].dropAfter.value < challenge.expiresAt + 1000
    {
      var ttlSeconds := Replay.TtlSeconds(challenge.expiresAt - now);
      Replay.RoundingNeverShortens(challenge.expiresAt - now);
      challenges := challenges[ChallengeName(challenge.jti) := Expiring(challenge, Some(now + ttlSeconds * 1000))];
    }

    /**
     * The consume script: one atomic read and flip; true for the call that flipped. The row is
     * written anew for the remaining whole seconds that the server reports, or for good when that is none.
     */
    method ConsumeChallenge(jti: string, remaining: int, now: int) returns (consumed: bool)
      modifies this`challenges
      ensures var name, rows := ChallengeName(jti), old(challenges);
        && (consumed <==> name in rows && Present(rows[name], now) && !rows[name].value.consumed)
        && challenges == if !consumed then rows
             else rows[name := Expiring(rows[name].value.(consumed := true),
                                        if remaining > 0 then Some(now + remaining * 1000) else None)]
    {
      var name := ChallengeName(jti);
      if name !in challenges || !Present(challenges[name], now) {
        return false;
      }
      var data := challenges[name].value;
      if data.consumed {
        return false;
      }
      data := data.(consumed := true);
      var dropAfter := if remaining > 0 then Some(now + remaining * 1000) else None;
      challenges := challenges[name := Expiring(data, dropAfter)];
      return true;
    }

    /** No id in the user's index names a stored session of somebody else. */
    ghost predicate IndexExact(user: string)
      reads this
    {
      forall id <- IndexOf(user) :: !Foreign(sessions, id, user)
    }

    /** The pipeline of deletions, one batch of rows per listed id. */
    method DeleteRows(ids: set<string>)
      requires Valid()
      modifies this`sessions, this`keys
      ensures RowsLeft(old(sessions), sessions, ids) && SlotsLeft(old(keys), keys, ids, ids)
    {
      ghost var rows, before := sessions, keys;
      var todo := ids;
      while todo != {}
        invariant todo <= ids
        invariant RowsLeft(rows, sessions, ids - todo) && SlotsLeft(before, keys, ids - todo, ids)
        decreases todo
      {
        var id :| id in todo;
        sessions := sessions - {SessionName(id)};
        RowNamed(rows, id);
        ghost var mid := keys;
        DeleteKeyRows(id, {Native, Bound});
        ApartFromItself(id);
        SlotsOf(before, mid, keys, id, ids - todo, ids);
        assert ids - (todo - {id}) == (ids - todo) + {id};
        todo := todo - {id};
      }
      assert ids - todo == ids;
    }

    /**
     * Every session the user's index lists goes, with both its slots, and so no session of the user
     * is left. Nobody else loses a session exactly when the index lists nobody else's.
     */
    method RevokeAllForUser(user: string)
      requires Valid()
      modifies this
      ensures Valid() && challenges == old(challenges)
      ensures forall name <- sessions :: sessions[name].value.userId != user
      ensures RowsLeft(old(sessions), sessions, old(IndexOf(user)))
      ensures SlotsLeft(old(keys), keys, old(IndexOf(user)), old(IndexOf(user)))
      ensures OnlyOf(old(sessions), sessions, user) <==> old(IndexExact(user))
      ensures IndexOf(user) == {} && forall other | other != user :: IndexOf(other) == old(IndexOf(other))
    {
      var ids := IndexOf(user);
      if ids == {} {
        return;
      }
      ghost var rows := sessions;
      DeleteRows(ids);
      users := users - {user};
      LostRows(rows, sessions, ids, user);
    }
  }

  /** The session id is apart from every listed one. */
  ghost predicate ApartFromAll(id: string, ids: set<string>) {
    forall other <- ids :: Apart(id, other)
  }

  /** The rows of the listed sessions are gone, and all others as they were. */
  ghost predicate RowsLeft(before: map<string, Expiring<Session>>, after: map<string, Expiring<Session>>,
                           gone: set<string>) {
    && after.Keys <= before.Keys
    && forall name <- before ::
         if before[name].value.id in gone then name !in after else name in after && after[name] == before[name]
  }

  /** The slots of the gone sessions are empty, and those of sessions apart from all listed ones as they were. */
  ghost predicate SlotsLeft(before: map<string, BoundKey>, after: map<string, BoundKey>, gone: set<string>,
                            listed: set<string>) {
    && (forall id, kind | id in gone :: SlotReads(after, id, kind) == None)
    && (forall id, kind | id !in listed && ApartFromAll(id, listed) ::
          SlotReads(after, id, kind) == SlotReads(before, id, kind))
  }

  /** No row of anybody but the user is gone. */
  ghost predicate OnlyOf(before: map<string, Expiring<Session>>, after: map<string, Expiring<Session>>, user: string) {
    forall name <- before | name !in after :: before[name].value.userId == user
  }

  /** One batch of the pipeline, seen from the slots. */
  lemma SlotsOf(before: map<string, BoundKey>, mid: map<string, BoundKey>, keys: map<string, BoundKey>, id: string,
                gone: set<string>, listed: set<string>)
    requires keys == mid - RowsOf(id, {Native, Bound}) && id in listed && SlotsLeft(before, mid, gone, listed)
    ensures SlotsLeft(before, keys, gone + {id}, listed)
  {
    ApartFromItself(id);
    forall other, kind | other in gone + {id}
      ensures SlotReads(keys, other, kind) == None
    {
      assert kind == Native || kind == Bound;
      if other == id {
        SlotsEmptied(mid, id, {Native, Bound}, id, kind);
      } else {
        StaysEmpty(mid, RowsOf(id, {Native, Bound}), other, kind);
      }
    }
    forall other, kind | other !in listed && ApartFromAll(other, listed)
      ensures SlotReads(keys, other, kind) == SlotReads(before, other, kind)
    {
      SlotsEmptied(mid, id, {Native, Bound}, other, kind);
    }
  }

  ghost predicate Foreign(rows: map<string, Expiring<Session>>, id: string, user: string) {
    SessionName(id) in rows && rows[SessionName(id)].value.userId != user
  }

  lemma LostRows(rows: map<string, Expiring<Session>>, left: map<string, Expiring<Session>>, ids: set<string>,
                 user: string)
    requires forall name <- rows :: name == SessionName(rows[name].value.id)
    requires RowsLeft(rows, left, ids)
    ensures OnlyOf(rows, left, user) <==> forall id <- ids :: !Foreign(rows, id, user)
  {
    forall id <- ids | SessionName(id) in rows
      ensures SessionName(id) !in left
    {
      Text.SameStart("dbsc:session:", id, rows[SessionName(id)].value.id);
    }
    forall name <- rows | name !in left
      ensures rows[name].value.id in ids && name == SessionName(rows[name].value.id)
    {}
    if forall id <- ids :: !Foreign(rows, id, user) {
      forall name <- rows | name !in left
        ensures rows[name].value.userId == user
      {
        assert !Foreign(rows, rows[name].value.id, user);
      }
    }
  }

  /** A row holds the session with an id exactly when it is stored under that id's name. */
  lemma RowNamed(rows: map<string, Expiring<Session>>, id: string)
    requires forall name <- rows :: name == SessionName(rows[name].value.id)
    ensures forall name <- rows :: rows[name].value.id == id <==> name == SessionName(id)
  {
    forall name <- rows
      ensures rows[name].value.id == id <==> name == SessionName(id)
    {
      if name == SessionName(id) {
        Text.SameStart("dbsc:session:", id, rows[name].value.id);
      }
    }
  }

  /**
   * The index does list somebody else's session once an id is bound again: a row that timed out
   * leaves its id in the first user's index, and revoking that user ends the second user's session.
   */
  method ReboundSessionIsRevoked(now: int) returns (before: Option<Session>, after: Option<Session>)
    ensures before.Some? && before.value.userId == "second" && after.None?
  {
    var storage := new Storage();
    storage.SetSession(Session("s", "first", TierNone, now, now + 1000, 0), now);
    storage.DropExpired("s", storage.sessions[SessionName("s")].dropAfter.value + 1);
    storage.SetSession(Session("s", "second", TierNone, now + 3000, now + 9000, 0), now + 3000);
    before := storage.GetSession("s", now + 3000);
    assert storage.IndexOf("first") == {"s"};
    storage.RevokeAllForUser("first");
    after := storage.GetSession("s", now + 3000);
  }

  /** A session and a challenge read back until they expire, and never a whole second longer. */
  method StoredIsRead(session: Session, challenge: Challenge, now: int, later: int)
    returns (row: Option<Session>, nonce: Option<Challenge>)
    requires now < session.expiresAt && now < challenge.expiresAt
    ensures row == Some(session) || row == None
    ensures later <= session.expiresAt ==> row == Some(session)
    ensures later >= session.expiresAt + 1000 ==> row == None
    ensures nonce == Some(challenge) || nonce == None
    ensures later <= challenge.expiresAt ==> nonce == Some(challenge)
    ensures later >= challenge.expiresAt + 1000 ==> nonce == None
  {
    var storage := new Storage();
    storage.SetSession(session, now);
    storage.SetChallenge(challenge, now);
    row := storage.GetSession(session.id, later);
    nonce := storage.GetChallenge(challenge.jti, later);
  }

  /** Beside a polyfill key, a native key in the legacy row is there by kind and missing without. */
  method LegacyKeyIsShadowed(native: BoundKey, bound: BoundKey)
    returns (byKind: Option<BoundKey>, any: Option<BoundKey>)
    requires native.kind == Native && bound == native.(kind := Bound)
    ensures byKind == Some(native) && any == Some(bound)
  {
    var id := native.sessionId;
    var storage := new Storage();
    ApartFromItself(id);
    LayoutsOverlap(id, Bound, id);
    LayoutsOverlap(id, Native, id);
    storage.keys := map[LegacyName(id) := native];
    storage.SetBoundKey(bound);
    byKind := storage.GetBoundKey(id, Native);
    any := storage.GetAnyKey(id);
  }
}
