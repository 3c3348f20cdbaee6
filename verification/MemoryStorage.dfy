/**
 * MemoryStorage as a class over mutable collections, and the handlers as the sequences of
 * storage calls they are. Every method is proved equal to its function on Store values.
 */
module MemoryStorage {
  import opened Basics
  import opened Model
  import opened Crypto
  import opened Handlers
  import Text

  function KindText(kind: Kind): string {
    if kind == Native then "native" else "bound"
  }

  /** The key of a slot in the keys map: `${sessionId}:${kind}`. */
  function SlotName(slot: Slot): string {
    slot.sessionId + ":" + KindText(slot.kind)
  }

  /** The slot names are unambiguous for all session ids, colons included. */
  lemma SlotNameInjective(a: Slot, b: Slot)
    requires SlotName(a) == SlotName(b)
    ensures a == b
  {
    var n := SlotName(a);
    assert n[|n| - 1] == (if a.kind == Native then 'e' else 'd');
    assert n[|n| - 1] == (if b.kind == Native then 'e' else 'd');
    assert n[..|n| - 1 - |KindText(a.kind)|] == a.sessionId;
    assert n[..|n| - 1 - |KindText(b.kind)|] == b.sessionId;
  }

  class Storage {
    var sessions: map<string, Session>
    var keys: map<string, BoundKey>
    var challenges: map<string, Challenge>
    var revoked: set<string>
    ghost var slots: map<Slot, BoundKey>

    /** The keys map holds exactly the slots, each under its name. */
    ghost predicate Valid()
      reads this
    {
      && (forall slot <- slots :: SlotName(slot) in keys && keys[SlotName(slot)] == slots[slot])
      && (forall slot :: SlotName(slot) in keys ==> slot in slots)
    }

    ghost function State(): Store
      reads this
    {
      Store(sessions, slots, challenges, revoked)
    }

    constructor ()
      ensures Valid() && State() == EMPTY
    {
      sessions, keys, challenges, revoked, slots := map[], map[], map[], {}, map[];
    }

    method GetSession(id: string, now: int) returns (session: Option<Session>)
      requires Valid()
      modifies this`sessions
      ensures Valid() && (State(), session) == Model.GetSession(old(State()), id, now)
    {
      if id !in sessions {
        return None;
      }
      var sess := sessions[id];
      if now > sess.expiresAt {
        sessions := sessions - {id};
        return None;
      }
      return Some(sess);
    }

    method SetSession(session: Session)
      requires Valid()
      modifies this`sessions
      ensures Valid() && State() == Model.SetSession(old(State()), session)
    {
      sessions := sessions[session.id := session];
    }

    method DeleteKey(slot: Slot)
      requires Valid()
      modifies this`keys, this`slots
      ensures Valid() && slots == old(slots) - {slot}
    {
      keys := keys - {SlotName(slot)};
      slots := slots - {slot};
      forall other | SlotName(other) == SlotName(slot)
        ensures other == slot
      {
        SlotNameInjective(other, slot);
      }
    }

    method DeleteSession(id: string)
      requires Valid()
      modifies this
      ensures Valid() && State() == Model.DeleteSession(old(State()), id)
    {
      sessions := sessions - {id};
      DeleteKey(Slot(id, Native));
      DeleteKey(Slot(id, Bound));
      assert slots == old(slots) - {Slot(id, Native), Slot(id, Bound)};
    }

    method GetBoundKey(slot: Slot) returns (key: Option<BoundKey>)
      requires Valid()
      ensures key == Model.GetBoundKey(State(), slot)
    {
      key := if SlotName(slot) in keys then Some(keys[SlotName(slot)]) else None;
    }

    method GetAnyKey(sessionId: string) returns (key: Option<BoundKey>)
      requires Valid()
      ensures key == if Slot(sessionId, Native) in slots then Some(slots[Slot(sessionId, Native)])
                     else if Slot(sessionId, Bound) in slots then Some(slots[Slot(sessionId, Bound)])
                     else None
    {
      key := GetBoundKey(Slot(sessionId, Native));
      if key.None? {
        key := GetBoundKey(Slot(sessionId, Bound));
      }
    }

    method SetBoundKey(key: BoundKey)
      requires Valid()
      modifies this`keys, this`slots
      ensures Valid() && State() == Model.SetBoundKey(old(State()), key)
    {
      var slot := Slot(key.sessionId, key.kind);
      keys := keys[SlotName(slot) := key];
      slots := slots[slot := key];
      forall other | SlotName(other) == SlotName(slot)
        ensures other == slot
      {
        SlotNameInjective(other, slot);
      }
    }

    /** deleteBoundKey with a kind; without one, both slots go. */
    method DeleteBoundKey(sessionId: string, kind: Option<Kind>)
      requires Valid()
      modifies this`keys, this`slots
      ensures Valid()
      ensures slots == old(slots) - if kind.Some? then {Slot(sessionId, kind.value)}
                                    else {Slot(sessionId, Native), Slot(sessionId, Bound)}
    {
      if kind.Some? {
        DeleteKey(Slot(sessionId, kind.value));
      } else {
        DeleteKey(Slot(sessionId, Native));
        DeleteKey(Slot(sessionId, Bound));
        assert slots == old(slots) - {Slot(sessionId, Native), Slot(sessionId, Bound)};
      }
    }

    method GetChallenge(jti: string, now: int) returns (challenge: Option<Challenge>)
      requires Valid()
      modifies this`challenges
      ensures Valid() && (State(), challenge) == Model.GetChallenge(old(State()), jti, now)
    {
      if jti !in challenges {
        return None;
      }
      var ch := challenges[jti];
      if now > ch.expiresAt {
        challenges := challenges - {jti};
        return None;
      }
      return Some(ch);
    }

    method SetChallenge(challenge: Challenge)
      requires Valid()
      modifies this`challenges
      ensures Valid() && State() == Model.SetChallenge(old(State()), challenge)
    {
      challenges := challenges[challenge.jti := challenge];
    }

    method ConsumeChallenge(jti: string) returns (consumed: bool)
      requires Valid()
      modifies this`challenges
      ensures Valid() && (State(), consumed) == Model.ConsumeChallenge(old(State()), jti)
    {
      if jti !in challenges || challenges[jti].consumed {
        return false;
      }
      challenges := challenges[jti := challenges[jti].(consumed := true)];
      return true;
    }

    method RevokeSession(sessionId: string)
      requires Valid()
      modifies this
      ensures Valid() && State() == Model.RevokeSession(old(State()), sessionId)
    {
      revoked := revoked + {sessionId};
      DeleteSession(sessionId);
    }

    /** The loop visits every stored id and deletes the user's rows on the way. */
    method RevokeAllForUser(userId: string)
      requires Valid()
      modifies this
      ensures Valid() && State() == Model.RevokeAllForUser(old(State()), userId)
    {
      ghost var before := State();
      ghost var ids := SessionsOf(before, userId);
      var todo := sessions.Keys;
      while todo != {}
        invariant Valid() && todo <= sessions.Keys
        invariant sessions == before.sessions - (ids - todo)
        invariant slots == map slot | slot in before.slots && slot.sessionId !in ids - todo :: before.slots[slot]
        invariant challenges == before.challenges
        invariant revoked == before.revoked + (ids - todo)
        decreases todo
      {
        var id :| id in todo;
        ghost var done := ids - todo;
        assert id !in done && sessions[id] == before.sessions[id];
        if sessions[id].userId == userId {
          RevokeSession(id);
          assert ids - (todo - {id}) == done + {id};
        } else {
          assert ids - (todo - {id}) == done;
        }
        todo := todo - {id};
      }
      assert ids - todo == ids;
    }

    method SweepSessions(now: int)
      modifies this`sessions
      ensures sessions == map id | id in old(sessions) && now <= old(sessions)[id].expiresAt :: old(sessions)[id]
    {
      ghost var before := sessions;
      var ids := sessions.Keys;
      while ids != {}
        invariant ids <= sessions.Keys <= before.Keys
        invariant forall id <- before :: id in ids || now <= before[id].expiresAt ==> id in sessions
        invariant forall id <- sessions :: sessions[id] == before[id] && (id !in ids ==> now <= before[id].expiresAt)
        decreases ids
      {
        var id :| id in ids;
        if now > sessions[id].expiresAt {
          sessions := sessions - {id};
        }
        ids := ids - {id};
      }
    }

    method SweepChallenges(now: int)
      modifies this`challenges
      ensures challenges
           == map jti | jti in old(challenges) && now <= old(challenges)[jti].expiresAt :: old(challenges)[jti]
    {
      ghost var before := challenges;
      var jtis := challenges.Keys;
      while jtis != {}
        invariant jtis <= challenges.Keys <= before.Keys
        invariant forall jti <- before :: jti in jtis || now <= before[jti].expiresAt ==> jti in challenges
        invariant forall jti <- challenges ::
          challenges[jti] == before[jti] && (jti !in jtis ==> now <= before[jti].expiresAt)
        decreases jtis
      {
        var jti :| jti in jtis;
        if now > challenges[jti].expiresAt {
          challenges := challenges - {jti};
        }
        jtis := jtis - {jti};
      }
    }

    /** gc: one sweep per map whose rows expire. */
    method Gc(now: int)
      requires Valid()
      modifies this`sessions, this`challenges
      ensures Valid() && State() == Model.Gc(old(State()), now)
    {
      SweepSessions(now);
      SweepChallenges(now);
    }
  }

  // ---------------------------------------------------------------- handlers

  method HandleRegistration(c: Primitives, req: TokenRequest, storage: Storage, now: int)
    returns (answer: RegistrationAnswer)
    requires storage.Valid()
    modifies storage
    ensures storage.Valid()
    ensures (storage.State(), answer) == Registration(c, old(storage.State()), req, now)
  {
    if req.response == "" {
      return Failure(MissingResponseHeader);
    }
    var parsed := ParseRegistrationJws(c, Text.Trim(req.response));
    if parsed.Failure? {
      return Failure(parsed.error);
    }
    var jws := parsed.value;
    var challenge := storage.GetChallenge(req.expectedJti, now);
    if challenge.None? {
      return Failure(ChallengeNotFound);
    }
    if challenge.value.consumed {
      return Failure(ChallengeConsumed);
    }
    if now > challenge.value.expiresAt {
      return Failure(ChallengeExpired);
    }
    if jws.jti != Some(req.expectedJti) {
      return Failure(JtiMismatch);
    }
    if challenge.value.sessionId != req.sessionId {
      return Failure(JtiMismatch);
    }
    var existing := storage.GetBoundKey(Slot(req.sessionId, Native));
    if existing.Some? {
      return Failure(SessionAlreadyRegistered);
    }
    var consumed := storage.ConsumeChallenge(req.expectedJti);
    if !consumed {
      return Failure(ChallengeConsumed);
    }
    var key := BoundKey(req.sessionId, Native, jws.jwk, now, jws.algorithm);
    storage.SetBoundKey(key);
    var session := storage.GetSession(req.sessionId, now);
    if session.Some? {
      storage.SetSession(session.value.(tier := TierDbsc, lastRefreshAt := now));
    }
    return Success(key);
  }

  method HandleRefresh(c: Primitives, req: TokenRequest, storage: Storage, now: int)
    returns (answer: RefreshAnswer)
    requires storage.Valid()
    modifies storage
    ensures storage.Valid()
    ensures (storage.State(), answer) == Refresh(c, old(storage.State()), req, now)
  {
    if req.response == "" {
      return Failure(MissingResponseHeader);
    }
    var key := storage.GetBoundKey(Slot(req.sessionId, Native));
    if key.None? {
      return Failure(KeyNotFoundNative);
    }
    var challenge := storage.GetChallenge(req.expectedJti, now);
    if challenge.None? {
      return Failure(ChallengeNotFound);
    }
    if challenge.value.consumed {
      return Failure(ChallengeConsumed);
    }
    if now > challenge.value.expiresAt {
      return Failure(ChallengeExpired);
    }
    if challenge.value.sessionId != req.sessionId {
      return Failure(JtiMismatch);
    }
    var invalid := VerifyDbscJws(c, Text.Trim(req.response), key.value.jwk, req.expectedJti);
    if invalid.Some? {
      if invalid.value == SignatureInvalid {
        var _ := storage.ConsumeChallenge(req.expectedJti);
        var session := storage.GetSession(req.sessionId, now);
        if session.Some? {
          storage.SetSession(session.value.(tier := TierNone));
        }
      }
      return Failure(invalid.value);
    }
    var consumed := storage.ConsumeChallenge(req.expectedJti);
    if !consumed {
      return Failure(ChallengeConsumed);
    }
    var session := storage.GetSession(req.sessionId, now);
    if session.Some? {
      storage.SetSession(session.value.(tier := TierDbsc, lastRefreshAt := now));
    }
    return Success(RefreshProof(req.sessionId, req.expectedJti, true));
  }

  method HandleBoundRegistration(c: Primitives, req: BoundRegistrationRequest, storage: Storage, now: int)
    returns (answer: RegistrationAnswer)
    requires storage.Valid()
    modifies storage
    ensures storage.Valid()
    ensures (storage.State(), answer) == BoundRegistration(c, old(storage.State()), req, now)
  {
    if req.publicKey.None? || req.signature == "" {
      return Failure(MissingResponseHeader);
    }
    var invalid := ValidateJwk(req.publicKey.value);
    if invalid.Some? {
      return Failure(invalid.value);
    }
    if DetectAlgorithm(req.publicKey.value) != Some(ES256) {
      return Failure(UnknownAlgorithm);
    }
    var challenge := storage.GetChallenge(req.expectedJti, now);
    if challenge.None? {
      return Failure(ChallengeNotFound);
    }
    if challenge.value.consumed {
      return Failure(ChallengeConsumed);
    }
    if now > challenge.value.expiresAt {
      return Failure(ChallengeExpired);
    }
    if challenge.value.sessionId != req.sessionId {
      return Failure(JtiMismatch);
    }
    var ok := VerifyP256(c, req.publicKey.value, req.signature, req.expectedJti);
    if ok.Failure? {
      return Failure(ok.error);
    }
    if !ok.value {
      return Failure(SignatureInvalid);
    }
    var existing := storage.GetBoundKey(Slot(req.sessionId, Bound));
    if existing.Some? {
      return Failure(SessionAlreadyRegistered);
    }
    var consumed := storage.ConsumeChallenge(req.expectedJti);
    if !consumed {
      return Failure(ChallengeConsumed);
    }
    var key := BoundKey(req.sessionId, Bound, req.publicKey.value, now, ES256);
    storage.SetBoundKey(key);
    var session := storage.GetSession(req.sessionId, now);
    if session.Some? {
      var hasNative := storage.GetBoundKey(Slot(req.sessionId, Native));
      if hasNative.Some? {
        storage.SetSession(session.value.(lastRefreshAt := now));
      } else {
        storage.SetSession(session.value.(tier := TierBound, lastRefreshAt := now));
      }
    }
    return Success(key);
  }

  method HandleBoundRefresh(c: Primitives, req: BoundRefreshRequest, storage: Storage, now: int)
    returns (answer: RefreshAnswer)
    requires storage.Valid()
    modifies storage
    ensures storage.Valid()
    ensures (storage.State(), answer) == BoundRefresh(c, old(storage.State()), req, now)
  {
    if req.signature == "" {
      return Failure(MissingResponseHeader);
    }
    if Abs(now - req.timestamp) > TIMESTAMP_WINDOW_MS {
      return Failure(SignatureInvalid);
    }
    var key := storage.GetBoundKey(Slot(req.sessionId, Bound));
    if key.None? {
      return Failure(KeyNotFoundBound);
    }
    var challenge := storage.GetChallenge(req.expectedJti, now);
    if challenge.None? {
      return Failure(ChallengeNotFound);
    }
    if challenge.value.consumed {
      return Failure(ChallengeConsumed);
    }
    if now > challenge.value.expiresAt {
      return Failure(ChallengeExpired);
    }
    if challenge.value.sessionId != req.sessionId {
      return Failure(JtiMismatch);
    }
    var ok := VerifyP256(c, key.value.jwk, req.signature, RefreshMessage(req.expectedJti, req.timestamp));
    if ok.Failure? {
      return Failure(ok.error);
    }
    if !ok.value {
      var _ := storage.ConsumeChallenge(req.expectedJti);
      var session := storage.GetSession(req.sessionId, now);
      if session.Some? {
        storage.SetSession(session.value.(tier := TierNone));
      }
      return Failure(SignatureInvalid);
    }
    var consumed := storage.ConsumeChallenge(req.expectedJti);
    if !consumed {
      return Failure(ChallengeConsumed);
    }
    var session := storage.GetSession(req.sessionId, now);
    if session.Some? {
      var hasNative := storage.GetBoundKey(Slot(req.sessionId, Native));
      var tier := if hasNative.Some? then session.value.tier else TierBound;
      storage.SetSession(session.value.(tier := tier, lastRefreshAt := now));
    }
    return Success(RefreshProof(req.sessionId, req.expectedJti, true));
  }

  // ---------------------------------------------------------------- routes

  method IssueChallengeFor(sessionId: string, storage: Storage, ttlMs: int, jti: string, now: int)
    returns (challenge: Challenge)
    requires storage.Valid()
    modifies storage
    ensures storage.Valid() && challenge == Challenge(jti, sessionId, now, now + ttlMs, false)
    ensures storage.State() == IssueChallenge(old(storage.State()), sessionId, jti, ttlMs, now)
  {
    challenge := Challenge(jti, sessionId, now, now + ttlMs, false);
    storage.SetChallenge(challenge);
  }

  method HandleBindSession(sessionId: string, userId: string, sessionTtl: int, storage: Storage, jti: string, now: int)
    returns (challenge: Challenge)
    requires storage.Valid()
    modifies storage
    ensures storage.Valid() && challenge == Challenge(jti, sessionId, now, now + 300_000, false)
    ensures storage.State() == BindSession(old(storage.State()), sessionId, userId, sessionTtl, jti, now)
  {
    var existing := storage.GetSession(sessionId, now);
    if existing.None? {
      storage.SetSession(Session(sessionId, userId, TierNone, now, now + sessionTtl, 0));
    }
    challenge := IssueChallengeFor(sessionId, storage, CHALLENGE_TTL_MS, jti, now);
  }

  method HandleStateRoute(sessionId: string, storage: Storage, jti: string, now: int) returns (answer: StateAnswer)
    requires storage.Valid()
    modifies storage
    ensures storage.Valid()
    ensures (storage.State(), answer) == StateRoute(old(storage.State()), sessionId, jti, now)
  {
    var session := storage.GetSession(sessionId, now);
    if session.None? {
      return Unbound;
    }
    var native := storage.GetBoundKey(Slot(sessionId, Native));
    var bound := storage.GetBoundKey(Slot(sessionId, Bound));
    if native.None? && bound.None? {
      var _ := IssueChallengeFor(sessionId, storage, CHALLENGE_TTL_MS, jti, now);
      return NeedsRegistration(jti);
    }
    if native.Some? && bound.None? {
      var _ := IssueChallengeFor(sessionId, storage, CHALLENGE_TTL_MS, jti, now);
      return NeedsBoundRegistration(session.value.tier, jti);
    }
    return StateBound(if native.Some? then TierDbsc else session.value.tier);
  }

  /** The middleware's tier decision for a request that carries a bound cookie. */
  method ResolveRequestTier(sessionId: string, storage: Storage, boundCookieTtl: int, refreshGraceMs: int, now: int)
    returns (tier: Tier)
    requires storage.Valid()
    modifies storage`sessions
    ensures storage.Valid()
    ensures storage.State() == GetSession(old(storage.State()), sessionId, now).0
    ensures tier == ResolveTier(GetSession(old(storage.State()), sessionId, now).1, boundCookieTtl, refreshGraceMs, now)
  {
    tier := TierNone;
    var session := storage.GetSession(sessionId, now);
    if session.Some? {
      var staleAfter := session.value.lastRefreshAt + boundCookieTtl + refreshGraceMs;
      var refreshable := session.value.tier == TierDbsc || session.value.tier == TierBound;
      tier := if refreshable && now > staleAfter then TierNone else session.value.tier;
    }
  }
}
