# Session binding: a Dafny model

This project models a server library that binds a login session to a key held by the browser, and
proves what its protocol promises. A session may hold two keys: a native one, registered and refreshed
by signed tokens, and a polyfill one, which also signs every guarded request. The model follows
`src/core`, `src/storage`, the Express adapter and the browser client.

The imperative parts are classes and methods with the source's branches in the source's order
(`MemoryStorage`, `RedisStorage`, `Replay`, `Proof`, `ProofHeader`, `Client`, `Limiter`, `Headers`,
`Dpop`, `Crypto`). Each is proved equal to a function on values, or against an outright
specification. Statements over whole runs are then proved about those functions.

## How the modules fit

| module | what it holds |
|---|---|
| `Basics`, `Text`, `Base64Url` | options and results, strings (split, trim, decimal integers), base64url |
| `Model` | records, the store as a value, the storage operations as functions |
| `Crypto` | keys, token parsing; signatures and hashes as uninterpreted functions |
| `Handlers` | the four protocol handlers, challenge issue, session binding, the state route, the tier decision |
| `MemoryStorage` | the class and the imperative handlers, each proved equal to its function |
| `Acceptance` | the handlers' guards read back from their answers, and what the routes hand out |
| `AtomicRuns`, `AtomicHistory`, `AtomicTiers`, `Eviction` | runs in which every call is one step; what they say of tiers and of the past |
| `Awaits`, `AwaitRuns`, `AwaitTokens`, `AwaitTiers`, `AwaitRace`, `AwaitExclusive` | runs in which every `await` is a step and any number of calls are in flight |
| `Messages`, `ProofHeader`, `Proof`, `Agreement`, `HonestFlow` | signed texts, the proof header, signer and verifier, agreement between them over runs, and the run of an honest client |
| `Example` | concrete primitives and requests on which the conditions of the lemmas hold |
| `Replay`, `Dpop` | the replay caches and the two users of them |
| `RedisStorage`, `Client`, `Limiter`, `Headers` | the Redis adapter, the browser driver, the demo limiters, header parsers |

Two sets of claims are kept apart. At the *atomic* granularity one handler call is one step with one
clock reading; the strong tier invariant, write-once keys, conservation of challenges, freshness,
isolation and invisibility of eviction are proved there. At the *await* granularity every storage call
is a step of its own with its own clock reading, which need not even be ordered; single use of
challenges and of tokens and the weaker tier soundness are proved there, for any number of calls in flight.
`Awaits.AloneIsAtomic` ties the two together, and `AwaitRace.RacyStateReachable` shows that the
separation is necessary.

## Assumptions

- Signatures, digests, key import and token decoding are uninterpreted functions. Unforgeability is a
  condition on the requests of a run that pass (`Agreement.UnforgedAt`), in two strengths. The weaker
  one, which `Agreed` and `InjectiveAgreement` need, says that a text which verifies under a key was
  signed with it before, by a client that signs only well-formed statements. The stronger one, which
  only `OneSigningEach` needs, says that the very signature bytes were made; ECDSA as such does not
  give it, since (r, n-s) verifies where (r, s) does.
- A digest has 32 bytes; collisions are not excluded.
- A new challenge has a name never issued before (32 random bytes in the source).
- Clocks and timestamps are unbounded integers. `Number()` on a text that is not a decimal integer is a
  parameter of the parser.
- An absent and an empty header or key member are both the empty string, since every caller treats them
  alike.

## What the proofs found

- An expired challenge is reported as missing: `MemoryStorage` evicts it in the very read that the
  expiry check would follow, so the code `CHALLENGE_EXPIRED` that `spec/06-storage-contract.md:104`
  asks for never leaves a handler whose clock reads once (`AtomicRuns.ExpiredReadsAsMissing`).
- `docs/storage.md:23` promises a sweep every 60 seconds and `docs/storage.md:48-50` describes key rows that
  expire under an unsuffixed name. The code sweeps only in `gc()`, and key rows carry the kind in their
  name and never expire. The model follows the code.
- A stale timestamp in a polyfill refresh carries the code of a bad signature but burns no challenge
  and demotes nothing (`AtomicRuns.Burned` tells the two apart).
- Eviction can be noticed by `revokeAllForUser`, exactly when an expired row of that user is stored
  beside a key (`Eviction.RevokeAllSeesEviction`, `Eviction.StaleKeyReached`).
- `RedisStorage.revokeAllForUser` ends another user's session exactly when the index lists one, which
  an id bound again after its row timed out brings about (`RedisStorage.ReboundSessionIsRevoked`).
- A timer that fires on the last millisecond lets the in-process cache accept one key twice, exactly at
  the two ends of the window (`Replay.ReplayBound`, `Replay.LenientEdge`).
- The replay tuple is text, and the decoder accepts several texts for the same bytes. Two requests may
  pass on one signing event, exactly when their texts differ within the prefix
  (`Proof.SecondAccepted`, `HonestFlow.TwoPassOnOneSignature`). They never do among canonical spellings
  (`Agreement.OneSigningEach`), and never for one prefix (`Agreement.InjectiveAgreement`).
- Without a kind, `MemoryStorage` reads the native key first; `RedisStorage` does not when that key is
  in the legacy row beside a polyfill key (`RedisStorage.LegacyKeyIsShadowed`).
- The client driver answers "unbound" for a session that exists but was demoted, exactly when the poll
  window ends on "bound" with tier none (`Client.DemotedReadsAsUnbound`). It never does so after sending
  a registration. It answers with a polyfill binding for a session that has ended, exactly when the
  first answer said bound for a key it does not hold (`Client.EndedReadsAsBound`).
- Without interleaving a row at bound and a native key exclude each other. With it they do not
  (`AwaitRace.RacyStateReachable`), exactly when a polyfill call writes its row at bound beside a native
  key that nobody raises the row for (`AwaitExclusive.StrongExactly`).
- Request proofs and DPoP proofs may share a replay cache; their entries can meet exactly when a session
  id starts with "dpop:" (`Dpop.EntriesMeet`).
- A dot in a session id does no harm by itself. Two requests share a signed text exactly when one id
  continues the other by a dot, its method, a dot and a path (`Messages.TextsExactly`).

## Model

| member | source | states |
|---|---|---|
| MemoryStorage.SlotNameInjective | src/storage/memory/index.ts:37-48 | slot names are unambiguous for all session ids, colons included |
| MemoryStorage.Storage.GetSession | src/storage/memory/index.ts:17-25 | a read evicts an expired row and nothing else, and reports exactly the live row |
| MemoryStorage.Storage.SetSession | src/storage/memory/index.ts:27-29 | one row is written; keys, challenges and the revoked set stay |
| MemoryStorage.Storage.DeleteSession | src/storage/memory/index.ts:31-35 | the row and both slots of one session go, through their names |
| MemoryStorage.Storage.GetBoundKey | src/storage/memory/index.ts:37-38 | the read through the slot's name is the read of that slot in the two-slot map |
| MemoryStorage.Storage.GetAnyKey | src/storage/memory/index.ts:39-43 | without a kind: the native slot first, then the polyfill slot |
| MemoryStorage.Storage.SetBoundKey | src/storage/memory/index.ts:46-48 | exactly the key's own slot changes |
| MemoryStorage.Storage.DeleteBoundKey | src/storage/memory/index.ts:50-57 | one slot, or without a kind both, of that session and no other |
| MemoryStorage.Storage.GetChallenge | src/storage/memory/index.ts:59-67 | a read evicts an expired challenge and reports exactly the live one |
| MemoryStorage.Storage.SetChallenge | src/storage/memory/index.ts:69-71 | one challenge record is written |
| MemoryStorage.Storage.ConsumeChallenge | src/storage/memory/index.ts:73-78 | true exactly for the call that flips the flag, and nothing but the flag changes |
| MemoryStorage.Storage.RevokeSession | src/storage/memory/index.ts:80-85 | the row and both slots go and the id is recorded as revoked |
| MemoryStorage.Storage.RevokeAllForUser | src/storage/memory/index.ts:87-96 | the deletion loop equals removing every stored session of the user at once |
| MemoryStorage.Storage.Gc | src/storage/memory/index.ts:98-107 | both loops together remove exactly the expired rows and challenges |
| MemoryStorage.HandleRegistration | src/core/protocol/registration.ts:15-79 | the native registration as a sequence of storage calls equals its function, on every error path too |
| MemoryStorage.HandleRefresh | src/core/protocol/refresh.ts:11-76 | likewise for the native refresh, with burn and demotion on a bad signature |
| MemoryStorage.HandleBoundRegistration | src/core/bound/registration.ts:17-95 | likewise for the polyfill registration beside or without a native key |
| MemoryStorage.HandleBoundRefresh | src/core/bound/refresh.ts:14-79 | likewise for the polyfill refresh, with its timestamp window and dual-key tier rule |
| MemoryStorage.IssueChallengeFor | src/core/protocol/challenge.ts:10-25 | one fresh unconsumed challenge for the session, expiring after the given time |
| MemoryStorage.HandleBindSession | src/express/index.ts:128-179 | a live row is kept as it is, a missing one created at tier none, and a challenge issued |
| MemoryStorage.HandleStateRoute | src/express/index.ts:412-465 | the phase by the two slots, with a challenge issued exactly in the two registering phases |
| MemoryStorage.ResolveRequestTier | src/express/index.ts:694-704 | the stored tier, or none when it is older than cookie lifetime plus grace |
| Acceptance.SucceedsExactly | src/core/bound/registration.ts:17-95 | the guards of the four handlers without their order: success if and only if request, challenge and slot are in order and possession is proved, which for a refresh token means type, algorithm, an importable stored key, and a signature by it over the expected jti |
| Acceptance.ParsesExactly | src/core/crypto/jws.ts:75-135 | a registration token parses if and only if its header has the right type, a supported algorithm and a key that fits it and imports, and it verifies under that key; the result is that key, its algorithm and the jti claim |
| Acceptance.BurnsExactly | src/core/bound/refresh.ts:48-59 | a refresh burns and demotes if and only if all is in order but the signature |
| Acceptance.RefusalMeans | src/core/protocol/refresh.ts:15-64 | each error code implies its cause in request and store, down to the header, claim, key or signature at fault |
| Acceptance.RegistersPresented | src/core/protocol/registration.ts:61-79 | after a registration the slot holds the key that was proved, and the live row the tier its keys allow |
| Acceptance.RefreshesRow | src/core/bound/refresh.ts:65-72 | after a refresh no slot has changed, and the live row has the tier its keys allow and the refresh time |
| Acceptance.StateInvites | src/express/index.ts:412-465 | the challenge the state route hands out makes, for five minutes and no longer, exactly the calls ready that its phase asks for; an answer "bound" hands out none and the polyfill key exists |
| Acceptance.BindInvites | src/express/index.ts:128-159 | binding leaves a live row, new ones at tier none and never refreshed, and a challenge that any call of the session whose slot is ready may use for five minutes |
| AtomicRuns.HandlerEffect | src/core/bound/refresh.ts:14-79 | every handler call either spends its own live challenge and applies exactly its success or its demotion, or changes nothing but evicting that expired challenge |
| AtomicRuns.ExpiredReadsAsMissing | src/storage/memory/index.ts:59-67 | no handler over this storage ever answers that a challenge expired |
| AtomicRuns.StepInv | src/core/bound/registration.ts:78-92 | every operation keeps: tier bound means a polyfill key and no native one, tier dbsc means a native key |
| AtomicRuns.TierInvariant | src/core/protocol/registration.ts:71-76 | the strong tier invariant after every run |
| AtomicRuns.StepKeepsKeys | src/core/bound/registration.ts:56-62 | a filled slot keeps its key through every operation that does not remove the session |
| AtomicRuns.KeysWriteOnce | src/core/protocol/registration.ts:49-55 | over every run, a filled slot keeps its key until its session is revoked or deleted |
| AtomicRuns.StepKeepsDemoted | src/core/bound/refresh.ts:65-72 | a demoted session with a native key is raised by nothing but a native refresh |
| AtomicRuns.DemotionSticks | src/core/protocol/refresh.ts:47-69 | the same over every run: demotion lasts until a native refresh or a removal |
| AtomicRuns.StepIsolated | src/core/protocol/refresh.ts:40-45 | an operation for one session touches only its row, its two slots and challenges issued to it, up to evicting expired challenges |
| AtomicRuns.RevokeAllExact | src/storage/memory/index.ts:87-96 | exactly the user's stored sessions and their slots go; challenges stay |
| AtomicRuns.RemovesExactly | src/storage/memory/index.ts:80-85 | revoking or deleting a session removes its row and both its keys and nothing else; only a revocation is recorded |
| AtomicRuns.SweepsExactly | src/storage/memory/index.ts:98-107 | a sweep removes exactly the rows and challenges past their time |
| AtomicHistory.StepConsumes | src/core/bound/refresh.ts:50-63 | one operation consumes at most its own challenge, exactly when it succeeds or burns |
| AtomicHistory.Conservation | src/core/protocol/refresh.ts:48-64 | over every run, challenges consumed are as many as successes plus bad-signature burns |
| AtomicHistory.StepRow | src/core/bound/refresh.ts:65-72 | what one operation does to a row, exactly: a binding starts it, a burn demotes it, a raising success sets tier and time, any other success the time alone, and nothing else changes it |
| AtomicHistory.RowsExact | src/core/protocol/refresh.ts:66-69 | over every run, a stored row is its binding's and its tier is not none if and only if its session was raised since it was bound and since its last burn; its refresh time is that of the last success since |
| AtomicHistory.LastIndexIsLast | src/core/protocol/refresh.ts:47-69 | the index used there is that of the last event of its kind, none later and it is one |
| AtomicHistory.Freshness | src/express/index.ts:694-704 | a tier other than none means a success within cookie lifetime plus grace, and no burn after the last raise |
| AtomicTiers.TierExactly | src/express/index.ts:694-704 | after every run, the tier decision is none if and only if there is no live row, the stored tier is none, or the time since the last refresh is up; else dbsc if and only if there is a native key, and bound otherwise |
| AtomicTiers.TierByHistory | src/express/index.ts:694-704 | the same from the past alone: a tier is reported if and only if the row is live, the session was raised since it was bound and since its last burn, and its last success is recent enough |
| AtomicTiers.StateExactly | src/express/index.ts:412-465 | after every run, phase and tier of the state answer from the live row, the two slots and the past of the session |
| AtomicTiers.StepKeepsRow | src/storage/memory/index.ts:17-35 | a live row outlasts every operation that does not remove its session |
| AtomicTiers.AnswerLasts | src/express/index.ts:694-704 | a raised live session keeps its tier until it expires or its time is up, as long as nothing removes it or burns a refresh of it |
| AtomicTiers.NativeAnswerLasts | src/core/protocol/refresh.ts:66-69 | after a successful native registration or refresh of a live session that answer is dbsc |
| Eviction.AlikeReads | src/storage/memory/index.ts:17-71 | stores alike under eviction are exactly those that every read agrees on |
| Eviction.StepBlind | src/storage/memory/index.ts:17-85 | every operation but the revocation by user answers alike on alike stores and keeps them alike |
| Eviction.RevokeAllBlind | src/storage/memory/index.ts:87-96 | where no stale key of the user is stored on either side, the revocation by user keeps alike stores alike |
| Eviction.EvictionInvisible | src/storage/memory/index.ts:98-107 | dropping every sweep from a run in which no revocation by user meets a stale key changes no answer and no later read |
| Eviction.SweepsAnywhere | src/storage/memory/index.ts:98-107 | runs that differ only in where they sweep answer alike |
| Eviction.RevokeAllSeesEviction | src/storage/memory/index.ts:87-96 | a sweep just before a revocation by user is noticed if and only if an expired row of the user stands beside a key |
| Eviction.StaleKeyReached | src/storage/memory/index.ts:87-96 | a run of a binding and a polyfill registration whose store, once the session row has expired, tells a sweep before the revocation |
| Awaits.AloneIsAtomic | src/core/bound/registration.ts:17-95 | the steps of a call that runs alone add up to its atomic function, for every request and store |
| AwaitRuns.NoncesSound | src/storage/memory/index.ts:73-78 | under every interleaving, with sweeps, deletions and revocations in between, each challenge record agrees with its issuer and no two calls win the same one |
| AwaitRuns.ChallengesSingleUse | src/core/bound/registration.ts:37-67 | under every interleaving, two successful calls used different challenges, each issued to its own session |
| AwaitTokens.TokensBacked | src/core/protocol/refresh.ts:15-64 | under every interleaving, what each native call in flight knows of its key was read from the store or its token, and a token it found good verifies under that key and says its challenge |
| AwaitTokens.TokensSingleUse | src/core/crypto/jws.ts:17-73 | so a token that let one native call through, in any interleaving, lets no other one through under the same key |
| AwaitTiers.TierSoundness | src/core/bound/registration.ts:78-92 | under every interleaving without revocation, every stored and every captured row names a tier whose key exists |
| AwaitTiers.StateReportsNative | src/express/index.ts:426-465 | a state answer "bound" says dbsc exactly when the route read a native key |
| AwaitRace.AdvanceMany | src/core/bound/registration.ts:17-95 | running one call for several steps is reachable by that many moves and leaves other calls alone |
| AwaitRace.RunWhole | src/core/protocol/registration.ts:15-79 | an atomic call is one way to interleave: its result is reachable step by step |
| AwaitRace.RacyStateReachable | src/express/index.ts:453-458 | the state the route guards against is reachable: tier bound beside a native key |
| AwaitExclusive.SingleSound | src/core/bound/registration.ts:78-92 | as long as no native registration lands its key while a polyfill call of the session rewrites the row, a row at bound beside a native key is about to be raised |
| AwaitExclusive.StrongExactly | src/core/bound/refresh.ts:65-72 | over every run without revocation, the strong tier invariant holds throughout, but for sessions a native registration is about to raise, if and only if no polyfill call writes its row at bound beside a native key nobody raises the row for |
| AwaitExclusive.StrongTiers | src/core/protocol/registration.ts:57-76 | in runs without that overlap the strong tier invariant holds throughout, and no such write happens |
| Messages.RequestParts | src/core/bound/proof.ts:79-81 | the dot-separated fields of a request's text are its own, whatever dots the path holds |
| Messages.Unambiguous | src/core/bound/proof.ts:79-81 | one text, one statement: registration, refresh and request texts never coincide and each determines all its fields, when ids and methods hold no dot, or when paths start with a slash and no id holds a slash behind a dot |
| Messages.TextsExactly | src/core/bound/proof.ts:79-81 | two requests that reach a server, with any ids, share a text if and only if they are equal or one id continues the other by a dot, its method, a dot and a path |
| Messages.IdsThatHoldPaths | src/core/bound/proof.ts:79-81 | an id that holds a method and a path does share a text with the shorter id |
| Messages.BodilessApart | src/core/bound/refresh.ts:49-49 | a body-less proof text is neither a registration nor a refresh text, whatever its names hold |
| Messages.OverlapExactly | src/core/bound/proof.ts:79-81 | a body-less and a body-signed text coincide if and only if the names agree, the longer path ends in the other timestamp, and the own timestamp spells the body hash |
| ProofHeader.ParseProofHeader | src/core/bound/proof.ts:102-124 | the loop that fills the parts, with its caps, duplicate and inherited names, equals the fold over segments |
| ProofHeader.ParsesExactly | src/core/bound/proof.ts:102-124 | a header parses if and only if it is within its caps, no segment is malformed and no name inherited or repeated, and the result is what its segments spell |
| ProofHeader.SegmentReads | src/core/bound/proof.ts:102-124 | a segment reads as its name and value around the first equals sign, and is malformed if one of them is missing |
| ProofHeader.SegmentOrderFree | src/core/bound/proof.ts:102-124 | headers whose segments are permutations of each other parse alike, failures included |
| ProofHeader.ParsePrint | src/client/wrapFetch.ts:46-61 | what the client prints parses back to the same timestamp, signature and hash |
| Proof.CheckBoundProof | src/core/bound/proof.ts:30-100 | the ordered checks and the cache record equal their function, error codes included, with either cache or none |
| Proof.OnlyAcceptedIsRecorded | src/core/bound/proof.ts:87-99 | a refused proof leaves the replay cache as it was |
| Proof.ChecksMean | src/core/bound/proof.ts:30-86 | the checks pass if and only if header, window, key, hash and signature are all right |
| Proof.RefusedFor | src/core/bound/proof.ts:30-86 | each error code of a refused proof implies its cause in header, key, hash, time or signature |
| Proof.AcceptedMeans | src/core/bound/proof.ts:30-100 | a proof is accepted if and only if it proves the request and its tuple is not remembered |
| Proof.SameBytesProve | src/core/bound/verify.ts:16-33 | a proof whose signature is spelled differently, with the same bytes, proves the same request |
| Proof.SecondAccepted | src/core/bound/proof.ts:92-99 | a second valid proof with the same session and timestamp is accepted if and only if its signature text differs within the prefix |
| Proof.TuplesApart | src/core/bound/proof.ts:92-95 | the replay key is one to one on session, timestamp and signature prefix, whatever ids hold, for signatures that decode |
| Proof.RespelledBytes | src/core/bound/verify.ts:36-46 | writing + for - keeps the decoded bytes, and changes the tuple if and only if there is a - within the prefix |
| Proof.SignRequest | src/client/wrapFetch.ts:22-61 | the header the signer sets, from the key record, the request and the clock |
| Proof.SignedReads | src/client/wrapFetch.ts:46-61 | the signer's header parses to the timestamp it signed, its signature and its hash |
| Proof.SignedIsAccepted | src/client/wrapFetch.ts:22-61 | round trip: the verifier accepts what the signer sends, with the body signed or not read at all, within the window, with the matching key and an unseen tuple |
| Proof.FormatsApart | src/core/bound/proof.ts:66-81 | a body-less proof text is never a body-signed one, whatever the names hold, since no timestamp spells a digest |
| Proof.HandleRequireProof | src/express/require-proof.ts:22-63 | the tier gate, the missing storage, the native-only relaxation and the guard, with what each answers |
| Proof.PassesExactly | src/express/proof.ts:34-83 | a bound session passes without a proof if and only if it is native and the option is true, or absent with the polyfill off, and then nothing is recorded; otherwise it passes if and only if its proof proves the request and the tuple is not remembered |
| Agreement.DefaultsAreStrict | src/express/require-proof.ts:22-63 | with the polyfill on and either cache, the default options relax nothing and remember long enough |
| Agreement.PassedMeans | src/express/proof.ts:34-83 | a guarded request passes only with a fresh, unseen proof under the key in the session's polyfill slot |
| Agreement.Agreed | src/core/bound/proof.ts:30-100 | a request that passes was signed before by the holder of that key, with the same session, method, path, timestamp and body hash; this needs only that no text can be forged |
| Agreement.BodiesAgree | src/core/bound/proof.ts:66-81 | and the body that was signed for has the digest of the one that passed |
| Agreement.TupleKept | src/core/bound/proof.ts:87-99 | over every run, the tuple of a request that passed stays in the cache for its whole time |
| Agreement.TupleOnce | src/core/bound/proof.ts:87-99 | no two requests with one tuple pass in one run, but for a lenient timer at both exact ends of the window |
| Agreement.PassesIffNew | src/express/require-proof.ts:22-63 | over every run, a request passes if and only if its session is live, raised and fresh, its proof proves it, and no earlier request that passed with the same tuple is still remembered |
| Agreement.InjectiveAgreement | src/core/bound/proof.ts:30-100 | over every run, whatever its refused requests hold, the passing requests map to statements signed for them, and two share a statement and the start of a signature only at the lenient edge of the window |
| Agreement.OneSigningEach | src/core/bound/proof.ts:87-99 | and one signing event each, the same edge apart, when signature bytes cannot be varied and the passing requests spell them canonically |
| HonestFlow.ServedWhenBound | src/express/require-proof.ts:22-63 | in whatever state the server is, a fresh signed request of a live bound session passes the guard |
| HonestFlow.HonestFlowPasses | src/client/wrapFetch.ts:22-61 | from the empty server: bound, registered in time, signed in time, and let through |
| HonestFlow.HonestFlowIsHonest | src/core/bound/proof.ts:30-100 | that run meets every condition of agreement |
| HonestFlow.ResentPasses | src/core/bound/verify.ts:36-46 | right after a request passes, whose tuple was unseen in either spelling, the same one with its signature respelled passes if and only if there is a - within the prefix, and one signing event accounts for both |
| HonestFlow.TwoPassOnOneSignature | src/core/bound/proof.ts:92-95 | a run in which two requests pass on one signature |
| Example.AgreementIsNotEmpty | src/express/proof.ts:34-83 | concrete primitives, options and a request that meet all conditions of agreement and pass |
| Example.OneSignatureTwice | src/core/bound/proof.ts:92-95 | a concrete run in which one signing event accounts for two passing requests |
| Example.RaceHappens | src/express/index.ts:453-458 | the racy state is reached with concrete primitives |
| Replay.MemoryReplayCache.CheckAndRecord | src/storage/memory/replay-cache.ts:13-23 | first exactly when the key is absent; then it is due for its whole time |
| Replay.MemoryReplayCache.TimerFires | src/storage/memory/replay-cache.ts:17-21 | a timer drops its own key and no other |
| Replay.RecordIn | src/core/bound/proof.ts:92-99 | recording through the interface equals recording in the cache behind it; without a cache every key is the first |
| Replay.AcceptedTwice | src/storage/memory/replay-cache.ts:10-29 | between two acceptances of a key at least its time-to-live passes, over every run of asks and timers |
| Replay.ReplayBound | src/core/bound/proof.ts:87-99 | with twice the window, no timestamped key is accepted twice within its window, but for a lenient timer at both exact ends |
| Replay.LenientEdge | src/storage/memory/replay-cache.ts:17-21 | that exception is a run of the in-process cache |
| Replay.NothingShorter | src/core/bound/proof.ts:87-95 | every shorter time-to-live accepts some key twice within its window |
| Replay.RefusedExactly | src/storage/memory/replay-cache.ts:10-29 | over every history of either cache, a key is refused if and only if an earlier recording of it has neither been dropped nor timed out |
| Replay.RoundingNeverShortens | src/storage/redis/replay-cache.ts:15-25 | rounding up to whole seconds keeps at least the time asked for, and less than a second more |
| Replay.RedisReplayCache.CheckAndRecord | src/storage/redis/replay-cache.ts:12-26 | set-if-absent under the prefixed name, for the rounded time |
| Replay.PutTwice | src/storage/redis/replay-cache.ts:15-25 | over every history, a name is accepted again only after its whole time |
| Replay.SharedReplayBound | src/storage/redis/replay-cache.ts:15-25 | over every history, no timestamped name is accepted twice within its window |
| Dpop.CheckHeader | src/core/dpop/verify.ts:66-124 | succeeds if and only if the proof is one token of the right type and algorithm under a valid public key; each code implies its cause |
| Dpop.CheckClaims | src/core/dpop/verify.ts:134-166 | no error if and only if the claims are present and name this method, URL and time, whole seconds or not; each code implies its cause |
| Dpop.CheckBinding | src/core/dpop/verify.ts:168-193 | no error if and only if a presented token is bound to the key, or unbound tokens are allowed, and its hash is in the proof; each code implies its cause |
| Dpop.VerifyDpopProof | src/core/dpop/verify.ts:63-206 | success if and only if all checks of section 4.3 of RFC 9449 hold and the jti is unseen, with either cache or none; a replay is reported if and only if the jti is all that is wrong |
| Dpop.JtiNames | src/core/dpop/verify.ts:195-203 | cache names are equal if and only if the jtis are |
| Dpop.RefusedExactly | src/core/dpop/verify.ts:195-203 | over every run of the verifier with either cache, a request whose checks hold is refused if and only if an earlier accepted request with the same jti is still remembered |
| Dpop.EntriesMeet | src/core/dpop/verify.ts:199-199 | entries of the two guards in a shared cache can meet if and only if a session id starts with the prefix of DPoP names |
| Dpop.JtiAcceptedOnce | src/core/dpop/verify.ts:195-203 | over every run of the verifier, no two requests with one jti and one iat are accepted, however spelled or signed, but for a lenient timer exactly two windows later |
| Dpop.ProofAcceptedOnce | src/core/dpop/verify.ts:195-203 | so no proof is accepted twice, that moment apart |
| RedisStorage.LayoutsOverlap | src/storage/redis/index.ts:11-20 | a suffixed and a legacy row share a name if and only if one id is the other with a kind appended |
| RedisStorage.MapUpdateExactly | src/storage/redis/index.ts:96-102 | for all ids, writing a slot is a map update as seen from another slot if and only if neither reads a row of the other as its legacy row |
| RedisStorage.ColonFreeApart | src/storage/redis/index.ts:11-20 | ids without a colon are never one another with a kind appended, so for them all of this class is a plain two-slot map |
| RedisStorage.RowNamesApart | src/storage/redis/index.ts:11-20 | session and challenge rows are named one to one, and rows of different kinds never share a name |
| RedisStorage.SlotWritten | src/storage/redis/index.ts:96-102 | for ids that are not one another with a kind appended, writing rows for a slot is a map update on slots, whatever legacy rows exist |
| RedisStorage.SlotsEmptied | src/storage/redis/index.ts:104-115 | deleting the rows of some slots empties exactly those slots |
| RedisStorage.Storage.GetSession | src/storage/redis/index.ts:41-45 | the row as long as the server keeps it |
| RedisStorage.Storage.SetSession | src/storage/redis/index.ts:47-51 | the row is kept at least until the session expires, and less than a second longer; its id joins exactly its user's index |
| RedisStorage.Storage.DropExpired | src/storage/redis/index.ts:47-51 | the server may drop a timed-out row; every stored session stays indexed |
| RedisStorage.Storage.DeleteSession | src/storage/redis/index.ts:53-65 | the row and both slots go, legacy row included, and every stored session stays indexed |
| RedisStorage.Storage.GetBoundKey | src/storage/redis/index.ts:67-80 | a native slot reads as the new row, else the legacy row; a polyfill slot as its row |
| RedisStorage.Storage.GetAnyKey | src/storage/redis/index.ts:81-93 | null if and only if both slots are empty; else native first, unless the native key is in the legacy row beside a polyfill key, and then the polyfill key |
| RedisStorage.LegacyKeyIsShadowed | src/storage/redis/index.ts:81-93 | beside a polyfill key, a native key in the legacy row is found by kind and not without |
| RedisStorage.Storage.SetBoundKey | src/storage/redis/index.ts:96-102 | for every id, the slot then reads as the key; every other slot of every session apart from it as before |
| RedisStorage.Storage.DeleteBoundKey | src/storage/redis/index.ts:104-115 | for every id, one slot, or both, become empty; every slot of every session apart from it stays |
| RedisStorage.Storage.GetChallenge | src/storage/redis/index.ts:117-121 | the challenge as long as the server keeps it |
| RedisStorage.Storage.SetChallenge | src/storage/redis/index.ts:123-126 | the challenge is kept at least until it expires, and less than a second longer |
| RedisStorage.Storage.ConsumeChallenge | src/storage/redis/index.ts:23-36 | true exactly for the call that flips the flag of a live row, which then lives for the remaining whole seconds, or for good when none remain |
| RedisStorage.StoredIsRead | src/storage/redis/index.ts:41-51 | a session and a challenge read back until they expire and never a whole second longer |
| RedisStorage.Storage.RevokeAllForUser | src/storage/redis/index.ts:137-150 | no session of the user is left; nobody else loses one if and only if the index lists nobody else's |
| RedisStorage.ReboundSessionIsRevoked | src/storage/redis/index.ts:137-150 | a sequence of calls after which the index does list somebody else's session |
| Client.Browser.RunRegistration | src/client/index.ts:289-318 | the old record goes first, if its removal works; what is sent is for the given session and challenge; the new record is stored on completion, and also when the attempt fails after storing it |
| Client.Browser.CoRegister | src/client/index.ts:174-184 | a failed co-registration beside a native key still counts as native, with its own reason |
| Client.Browser.RegisterAndConfirm | src/client/index.ts:190-195 | one registration for the asking answer, then polyfill-bound with the first skip reason, or an error; the refresh timer is set by the confirming "bound" answer and by no other |
| Client.Browser.Reconcile | src/client/index.ts:145-172 | what the second state answer leads to, case by case, and that the timer is set, by the first answer's interval, exactly when the key was registered again |
| Client.Browser.Conclude | src/client/index.ts:205-235 | what each settling poll answer leads to, what is sent and stored, and whether the timer is set |
| Client.Browser.Poll | src/client/index.ts:202-253 | at most window over interval polls, ended by the first settling answer or by the window; the timer is set by the last answer where that says bound after a polyfill binding |
| Client.Browser.InitBoundDbsc | src/client/index.ts:122-258 | for every script of answers and delays: bounded polls, at most one registration, for the session and challenge asked for, native only after a native answer, the outcome the answers demand, "unbound" if and only if the settling answer said so or the window ended on tier none, a polyfill binding beside a last answer "unbound" if and only if the first said bound for a key not stored, and the refresh timer set by the right answer's interval or not at all |
| Client.DemotedReadsAsUnbound | src/client/index.ts:204-249 | a script on which a session known to the server as bound at tier none is reported as unbound |
| Client.EndedReadsAsBound | src/client/index.ts:145-172 | a script on which a session that has ended is reported as a polyfill binding, with nothing stored and nothing sent |
| Base64Url.DecodeEncode | src/core/bound/verify.ts:36-46 | server decoding of client encoding is the identity on every byte string |
| Base64Url.EncodesExactly | src/client/index.ts:365-369 | each character is the alphabet's for its six bits, and there are as many as hold a bit of the string |
| Base64Url.EncodeInjective | src/client/index.ts:365-369 | different byte strings have different encodings |
| Base64Url.CanonicalSpelling | src/core/bound/verify.ts:36-46 | among canonical spellings, equal bytes mean equal text |
| Base64Url.EncodeUrlSafe | src/client/index.ts:365-369 | encodings use the url-safe alphabet only, and only the empty one is empty |
| Base64Url.Base64UrlBits | src/core/crypto/jwk.ts:56-64 | the scan strips exactly the trailing padding |
| Base64Url.EncodedBits | src/core/crypto/jwk.ts:56-64 | the counted length of an encoding is eight times its bytes, whatever padding follows |
| Crypto.ValidateJwk | src/core/crypto/jwk.ts:6-44 | exactly P-256 keys with both coordinates and RSA keys above the floor are accepted |
| Crypto.RsaFloor | src/core/crypto/jwk.ts:23-38 | an encoded RSA modulus is accepted if and only if it has at least 256 bytes |
| Crypto.AcceptableIsDetectable | src/core/crypto/jwk.ts:46-53 | a key that passes validation always has an algorithm |
| Limiter.RateLimiter.RateLimit | examples/express/src/server.js:25-37 | a refused request changes nothing, an allowed one joins the trimmed list |
| Limiter.RateLimiter.Check | examples/express/src/server.js:97-109 | every request joins the trimmed list, allowed while the list is within the limit |
| Limiter.TrimKeeps | examples/express/src/server.js:29-30 | trimming drops nothing that an interval ending after now still reaches |
| Limiter.ListExact | examples/express/src/server.js:97-109 | over every run, the trimmed list counts exactly what was recorded since the window's start |
| Limiter.AllowedExactly | examples/express/src/server.js:25-37 | a request is allowed if and only if fewer than the limit were recorded in the window ending with it; one limiter records refused requests too, the other only allowed ones |
| Limiter.LimitHolds | examples/express/src/server.js:25-37 | over every run, every half-open interval as long as the window holds at most the configured number of allowed requests |
| Headers.ParseSessionSkippedHeader | src/core/protocol/headers.ts:78-112 | the loops over items and parameters equal the concatenated reading of the items |
| Headers.LeadingBlank | src/core/protocol/headers.ts:85-86 | the blank that joining puts before an element changes nothing |
| Headers.SkippedArray | src/core/protocol/headers.ts:78-112 | an array-valued header parses to the parses of its elements, in order |
| Headers.ItemExactly | src/core/protocol/headers.ts:92-110 | an item gives an entry if and only if it starts with one of the three reasons |
| Headers.LastNamed | src/core/protocol/headers.ts:98-108 | the entry's session id is that of the last parameter that names it, without quotes and blanks around it |
| Headers.SkippedReads | src/core/protocol/headers.ts:78-112 | round trip: entries as a browser writes them, in one header or several, are what the parser returns |
| Headers.ParseCookieHeader | src/core/protocol/cookies.ts:5-27 | the loop equals folding the parts into a map, the first cookie of a name winning |
| Headers.FirstWins | src/core/protocol/cookies.ts:5-27 | a name is in the map if and only if some part names it, with the value of the first such part |
| Headers.CookieReads | src/core/protocol/cookies.ts:10-25 | a part reads to its trimmed name and its value, unquoted and decoded where it decodes; a part without a name to nothing |
| Headers.CookiesJoined | src/core/protocol/cookies.ts:5-27 | two headers joined by a semicolon parse to the first one's map and the second one's new names |
| Text.ParsePrintInt | src/core/bound/proof.ts:117-119 | a printed timestamp reads back as itself |
| Text.TrimExactly | src/core/protocol/headers.ts:91-99 | trimming takes white space off both ends and nothing else |

## Left out

- AwaitTiers.TierSoundness: revocation and deletion are not moves here; handlers write back rows captured before an await, and the code promises nothing there.
- Agreement.InjectiveAgreement: asks proper names of the requests that pass and of what clients sign: no dots in session id and method, or paths that start with a slash and no id with a slash behind a dot. `Messages.TextsExactly` says what happens otherwise; the path "*" of a request for the server as a whole belongs to the first case only.
- Eviction.EvictionInvisible: asks that revocations meet no stale key in the run and in the run without sweeps; a condition on one of the two alone is not given.
- RedisStorage.Storage.RevokeAllForUser: a multi-command method is one step, so a crash or another client between its commands is not modelled.
- RedisStorage.Storage.ConsumeChallenge: the remaining seconds that the server reports are a parameter.
- Proof.CheckBoundProof: a path, method and message are sequences of characters; their UTF-8 encoding is part of the signature oracle, and `toUpperCase` is ASCII only.
- Replay.MemoryReplayCache.CheckAndRecord: a timer is an event that may come any time after it is due; that it does come is not modelled.
- MemoryStorage.Storage.GetChallenge: returns a value, not the stored object; the await-granular model covers both a shared and a copied `consumed` flag.
- Awaits.AloneIsAtomic: a registration parses its token again at each step instead of carrying the parsed value, which is the same value.
- Client.Browser.RunRegistration: key generation, signing and the request are one attempt with five possible ends.
- Client.Browser.InitBoundDbsc: the scheduled refresh and its timer callback end with setting the timer.
- The other server adapters repeat the Express routes over other request types; Postgres and its migrations and the browser's key database are I/O.
- Header builders, cookie serialisation and cookie scope, telemetry, and the optional rate-limiter hook in the routes would only add easy members.
- `normalizeHtu`, `decodeURIComponent`, JWK thumbprints and token hashes are parameters.
- A guarded request whose parsed body is text or an object enters as the bytes it is turned into.
