/**
 * The records a server keeps, and the storage operations on them as functions on values.
 * An absent member or header ("undefined" in the source) and an empty one are treated
 * alike by every caller, so both are the empty string here.
 */
module Model {
  import opened Basics

  datatype Tier = TierDbsc | TierBound | TierNone

  datatype Kind = Native | Bound

  datatype Algorithm = ES256 | RS256

  /** The members of a JSON Web Key that the server inspects. */
  datatype Jwk = Jwk(kty: string, crv: string, x: string, y: string, n: string)

  datatype Session = Session(id: string, userId: string, tier: Tier, createdAt: int, expiresAt: int, lastRefreshAt: int)

  datatype BoundKey = BoundKey(sessionId: string, kind: Kind, jwk: Jwk, createdAt: int, algorithm: Algorithm)

  datatype Challenge = Challenge(jti: string, sessionId: string, createdAt: int, expiresAt: int, consumed: bool)

  /** The error codes of the library; InvalidCharacter is the DOMException that atob throws. */
  datatype ErrorCode =
    | MissingResponseHeader | MalformedJws | InvalidJwk | UnknownAlgorithm
    | ChallengeNotFound | ChallengeExpired | ChallengeConsumed | JtiMismatch
    | SignatureInvalid | KeyNotFoundNative | KeyNotFoundBound | SessionAlreadyRegistered
    | MissingProof | MalformedProof | ProofReplay | InvalidCharacter

  /** One of the two key positions of a session. */
  datatype Slot = Slot(sessionId: string, kind: Kind)

  datatype Store = Store(
    sessions: map<string, Session>,
    slots: map<Slot, BoundKey>,
    challenges: map<string, Challenge>,
    revoked: set<string>)

  const EMPTY := Store(map[], map[], map[], {})

  // ---------------------------------------------------------------- sessions

  /** getSession: an expired row is evicted by the read and reported as absent. */
  function GetSession(st: Store, id: string, now: int): (Store, Option<Session>) {
    if id !in st.sessions then (st, None)
    else if now > st.sessions[id].expiresAt then (st.(sessions := st.sessions - {id}), None)
    else (st, Some(st.sessions[id]))
  }

  function SetSession(st: Store, s: Session): Store {
    st.(sessions := st.sessions[s.id := s])
  }

  function DeleteSession(st: Store, id: string): Store {
    st.(sessions := st.sessions - {id}, slots := st.slots - {Slot(id, Native), Slot(id, Bound)})
  }

  // ---------------------------------------------------------------- keys

  function GetBoundKey(st: Store, slot: Slot): Option<BoundKey> {
    if slot in st.slots then Some(st.slots[slot]) else None
  }

  function SetBoundKey(st: Store, key: BoundKey): Store {
    st.(slots := st.slots[Slot(key.sessionId, key.kind) := key])
  }

  // ---------------------------------------------------------------- challenges

  function GetChallenge(st: Store, jti: string, now: int): (Store, Option<Challenge>) {
    if jti !in st.challenges then (st, None)
    else if now > st.challenges[jti].expiresAt then (st.(challenges := st.challenges - {jti}), None)
    else (st, Some(st.challenges[jti]))
  }

  function SetChallenge(st: Store, ch: Challenge): Store {
    st.(challenges := st.challenges[ch.jti := ch])
  }

  /** consumeChallenge: true for the one call that flips the flag. */
  function ConsumeChallenge(st: Store, jti: string): (Store, bool) {
    if jti !in st.challenges || st.challenges[jti].consumed then (st, false)
    else (st.(challenges := st.challenges[jti := st.challenges[jti].(consumed := true)]), true)
  }

  // ---------------------------------------------------------------- revocation and sweeping

  function RevokeSession(st: Store, id: string): Store {
    DeleteSession(st, id).(revoked := st.revoked + {id})
  }

  function SessionsOf(st: Store, userId: string): set<string> {
    set id | id in st.sessions && st.sessions[id].userId == userId
  }

  /** revokeAllForUser: the stored rows of one user go, with both their slots. */
  function RevokeAllForUser(st: Store, userId: string): Store {
    var ids := SessionsOf(st, userId);
    Store(st.sessions - ids,
          map slot | slot in st.slots && slot.sessionId !in ids :: st.slots[slot],
          st.challenges,
          st.revoked + ids)
  }

  /** gc: every row past its expiry goes; keys have no expiry. */
  function Gc(st: Store, now: int): Store {
    st.(sessions := map id | id in st.sessions && now <= st.sessions[id].expiresAt :: st.sessions[id],
        challenges := map jti | jti in st.challenges && now <= st.challenges[jti].expiresAt :: st.challenges[jti])
  }

  /** Every row is stored under its own name. */
  ghost predicate Named(st: Store) {
    && (forall id <- st.sessions :: st.sessions[id].id == id)
    && (forall slot <- st.slots :: Slot(st.slots[slot].sessionId, st.slots[slot].kind) == slot)
    && (forall jti <- st.challenges :: st.challenges[jti].jti == jti)
  }
}
