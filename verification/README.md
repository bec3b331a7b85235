# Nova Launch: protocols and their guarantees

This project models the stateful protocols of the Nova Launch backend, gateway and operations scripts in
Dafny, and proves what each of them guarantees over whole runs: the two rate limiters, the fallback
idempotency key, API keys with two-phase rotation, refresh-token families, wallet nonces, the worker pool,
cursor connections, mTLS certificate rotation and the blue-green deployment. Check it with
`dafny verify dfyconfig.toml`.

| file | what it models |
|---|---|
| `Prelude.dfy` | options, results, rounding to seconds |
| `SlidingWindow.dfy` | the gateway limiter on a Redis sorted set with a TTL, against the naive limiter on the full history |
| `FixedWindow.dfy` | the in-memory limiter of the auth service, with background purging |
| `CanonicalJson.dfy`, `JsonText.dfy`, `Idempotency.dfy` | canonical JSON, its text, and the key derived from a request |
| `ApiKeys.dfy` | the key store with lazy expiry, against an eager specification and against the bare log of operations |
| `RefreshTokens.dfy` | rotations as transactions interleaved statement by statement |
| `Nonces.dfy` | the consume script against TTL expiry and a non-atomic clean-up |
| `WorkerPool.dfy` | bounded concurrency with re-entrant draining |
| `CursorCodec.dfy`, `Connections.dfy` | UTF-8, base64url and cursors; pages and whole walks |
| `MtlsRotation.dfy` | the phase machine over three secrets written one at a time |
| `BlueGreen.dfy` | seven steps, a failure possible at every command, and rollback |

Code that assigns fields is modelled by a class whose methods do the same assignments in the same order
and are proved against a function, or a relation, on values; the guarantees are then lemmas about runs of
those. Code made of expressions is modelled by functions.

## Assumptions

- The clock never goes back. An operation reads it as often as its parameters say.
- A rejected call to a cluster, a cloud or a store has had no effect.
- Redis keeps a key until its TTL has run out, and may drop it at any moment from then on. A pipeline or a
  script runs without anything in between.
- Postgres at READ COMMITTED: a statement sees committed rows and its own transaction's writes, waits for
  rows and unique index entries another open transaction has written, and is evaluated again after the
  wait; an error thrown inside a Prisma transaction callback rolls the transaction back.
- New random values (keys, ids, nonces, sorted-set members, family ids) are new. SHA-256 of API keys is
  injective; for idempotency keys nothing is assumed of it but the length of its digest.

## Where the code and its documentation part

- `rotateTokenFamily` says that reuse invalidates the entire family. The deletion is inside the transaction
  that the next statement's throw rolls back, so the table stays as it was (`ReuseLeavesTableAlone`).
- `rotateTokenFamily` says that it reaches its second half only if it has marked the token. It also gets
  there when the token was missing at the update and is there, unused, at the re-fetch, and the family can
  then end with two live tokens and the token with two successors (`FallingThroughForks`,
  `EarlyStoreHappens`). The promise holds over an interleaving, and over all that may follow it, exactly
  when no token is stored in that gap (`StaysSafeIff`, `InterleavingSafeIff`).
- The module comment of the idempotency middleware says that structurally different requests get different
  keys. The gateway mounts the middleware without a body parser before it (gateway/src/app.ts:70-71), so
  that there the body has no part in the key (`UnparsedBodiesShareKeys`). Behind a JSON parser an
  out-of-range number literal reads as null and a member named `__proto__` is lost; `NormalizedBodyDecides`
  says exactly which structured bodies share a text. `TextBodyReadsAsJson` needs a parser of text bodies,
  and `NewlineMovesBetweenParts` a newline in the path; neither can reach the gateway as it is mounted, and
  they show what `PreHashUnambiguous` and its one-line condition are about.
- The Retry-After of the gateway is computed from three clock readings, and can be too short
  (`RetryAfterTooShort`); with one reading it always suffices. A denied request is recorded too, so a
  client that keeps sending stays denied (`NextAdmittedIff`).
- The `retryAfter` of the auth limiter is one millisecond short exactly when the window started and the
  request arrived on whole seconds (`RetryAfterSufficientIff`).
- The auth limiter admits up to 2 * limit - 1 requests in an interval of one window length, not `limit`
  (`WindowBound`, `BoundAttained`).
- `commitRotation` on a rotation whose grace period is over succeeds or fails depending on whether a scan
  has passed over the record (`CommitSeesCleaning`). What `validate` accepts never depends on it.
- Blue-green: `rolledBack` is reported as true in every failure, also when discovery threw and nothing was
  done, and when both rollback commands were rejected. With both slots healthy, or neither, the active slot
  is taken to be blue, right or wrong, and a rollback sends the traffic there (`RestoreGoesToGuessedSlot`).
  "Zero-downtime" fails in two kinds of course and in no other (`NoDowntimeIff`). With a right guess: the
  shift was accepted, the drain and the listener restore were not, and the scale-down was (`RightGuess`).
  With a wrong one: the deployment fails, and either the listener is pointed at a slot without tasks, or it
  is not and the slot that has the traffic is scaled down, even if no shift was ever tried (`WrongGuess`).
- mTLS: dual trust needs a captured old CA. Without one the first write already breaks trust
  (`NoOldCaBreaksTrust`).
- Paging is stable under insertions at the head; the deletion of the row that a cursor names ends the walk
  early without an error (`DeletedCursorRowEndsWalk`).

## Model

| member | source | states |
|---|---|---|
| SlidingWindow.LimiterKey.constructor | gateway/src/rateLimiter.ts:88-94 | A key nobody has used yet: no history, and the store agrees with it |
| SlidingWindow.LimiterKey.ExpireKey | gateway/src/rateLimiter.ts:62-68 | Whenever Redis drops the key after its TTL, no request of the current window is lost |
| SlidingWindow.LimiterKey.RunPipeline | gateway/src/rateLimiter.ts:62-71 | Pruning, adding and counting gives the count of the full history in (now - windowMs, now]; the TTL outlives the window by one to two seconds |
| SlidingWindow.LimiterKey.IncrementSlidingWindow | gateway/src/rateLimiter.ts:55-72 | The returned count is that of the naive limiter, expired key or not |
| SlidingWindow.LimiterKey.Handle | gateway/src/rateLimiter.ts:101-123 | A request is denied exactly when the full history has more than max in its window; all four headers |
| SlidingWindow.CountIsNaive | gateway/src/rateLimiter.ts:64-71 | Pruning at an earlier horizon first, then at this window, leaves as many scores as the history has in the window |
| SlidingWindow.PipelineKeepsInvariant | gateway/src/rateLimiter.ts:60-71 | One request keeps the pruned set and its TTL in agreement with the history |
| SlidingWindow.WindowSafety | gateway/src/rateLimiter.ts:113-123 | For every history and every T, at most max admitted requests lie in (T - windowMs, T] |
| SlidingWindow.NextAdmittedIff | gateway/src/rateLimiter.ts:113-123 | A request is admitted exactly when fewer than max requests, denied ones included, are in its window |
| SlidingWindow.RetryAfterSufficient | gateway/src/rateLimiter.ts:101-121 | Waiting as advertised suffices if fewer than max requests were recorded after the first clock reading |
| SlidingWindow.RetryAfterExact | gateway/src/rateLimiter.ts:101-121 | Waiting exactly as advertised: admitted if and only if fewer than max requests were recorded after that reading plus the roundings |
| SlidingWindow.RetryAfterSufficientOneReading | gateway/src/rateLimiter.ts:101-121 | With one clock reading per request and max at least 1 the advice always suffices |
| SlidingWindow.RetryAfterTooShort | gateway/src/rateLimiter.ts:101-121 | A run with three readings in which a client that waited as told is denied |
| FixedWindow.RateLimitMiddleware.Use | backend/src/auth/rate-limit.middleware.ts:25-61 | Store, decision, headers and retryAfter of one request are those of the step function |
| FixedWindow.RateLimitMiddleware.PurgeExpired | backend/src/auth/rate-limit.middleware.ts:67-75 | The loop deletes exactly the expired entries |
| FixedWindow.PurgedRun | backend/src/auth/rate-limit.middleware.ts:33-41 | What any schedule of purges has removed would have been restarted anyway |
| FixedWindow.PurgingUnobservable | backend/src/auth/rate-limit.middleware.ts:63-75 | For any schedule of purges every decision is that of a store never purged |
| FixedWindow.BoundedStep | backend/src/auth/rate-limit.middleware.ts:31-50 | One request keeps the bound that the current entry of the key gives for an interval |
| FixedWindow.WindowBound | backend/src/auth/rate-limit.middleware.ts:25-61 | A closed interval of one window length admits at most 199 requests per key, and at most 19 on auth endpoints, which share the counter |
| FixedWindow.BoundAttained | backend/src/auth/rate-limit.middleware.ts:33-50 | A run in order that admits exactly that many |
| FixedWindow.RetryAfterSufficientIff | backend/src/auth/rate-limit.middleware.ts:43-56 | After the advertised seconds the client is admitted unless window start and denial were both on whole seconds |
| CanonicalJson.KeyOrder | gateway/src/idempotency.ts:65-70 | The order in which canonical members are enumerated is total, antisymmetric and transitive |
| CanonicalJson.IndexIsNumeral | gateway/src/idempotency.ts:65-70 | Which keys are array indices: the canonical numerals below 2^32 - 1 |
| CanonicalJson.IndicesInOrder | gateway/src/idempotency.ts:65-70 | Array indices come before all other keys, and in numeric order |
| CanonicalJson.SortSorts | gateway/src/idempotency.ts:65-66 | Sorting gives the same members in order |
| CanonicalJson.SortedIsUnique | gateway/src/idempotency.ts:65-70 | Two sorted lists with the same members are equal |
| CanonicalJson.CanonicalObject | gateway/src/idempotency.ts:63-71 | The canonical object has, in order, the canonical values of all members but __proto__ and of no other |
| CanonicalJson.EquivalentImpliesCanonicalEqual | gateway/src/idempotency.ts:55-73 | Values equal up to key order at every depth have one canonical form |
| CanonicalJson.CanonicalEqualImpliesEquivalent | gateway/src/idempotency.ts:59-73 | Values with one canonical form are equal up to key order at every depth |
| CanonicalJson.CanonicalDecidesEquivalence | gateway/src/idempotency.ts:55-73 | Canonical forms are equal if and only if the values are equal up to key order |
| CanonicalJson.CanonicalizeIdempotent | gateway/src/idempotency.ts:59-73 | Canonicalising twice changes nothing more |
| CanonicalJson.CanonicalizeKeepsMeaning | gateway/src/idempotency.ts:55-58 | The canonical form is the same value up to key order |
| JsonText.WriteCharsInjective | gateway/src/idempotency.ts:80 | The escaped text of a string can be read back, whatever follows it |
| JsonText.StringifyInjective | gateway/src/idempotency.ts:80 | The texts of two values are equal exactly when the values are |
| JsonText.StringifyComposes | gateway/src/idempotency.ts:80 | The text of each kind of value, and that of arrays and objects from the texts of their parts |
| JsonText.StringifyText | gateway/src/idempotency.ts:80 | The text of a string from what stands for each character |
| JsonText.EscapeOf | gateway/src/idempotency.ts:80 | What stands for quotation marks, backslashes, the named control characters and all that need no escape |
| JsonText.ControlEscape | gateway/src/idempotency.ts:80 | What stands for the other control characters |
| Idempotency.SeenCommutes | gateway/src/idempotency.ts:59-73 | Dropping what the derivation cannot see commutes with canonicalising |
| Idempotency.NormalizedBodyDecides | gateway/src/idempotency.ts:76-85 | Two structured bodies have one text if and only if what survives of them is equal up to key order |
| Idempotency.NormalizedBodyDecidesClean | gateway/src/idempotency.ts:31-40 | Without infinities and __proto__, one text if and only if equal up to key order |
| Idempotency.InfinityReadsAsNull | gateway/src/idempotency.ts:80 | 1e999 and null share a text |
| Idempotency.ProtoMemberIsLost | gateway/src/idempotency.ts:67-70 | A __proto__ member and no member share a text |
| Idempotency.TextBodyReadsAsJson | gateway/src/idempotency.ts:78 | A text body and the JSON it spells share a text |
| Idempotency.CallerIdentity | gateway/src/idempotency.ts:88-102 | The first that is not empty of user id, wallet address, Authorization header and address, in this order; empty exactly when all are |
| Idempotency.UpperMeans | gateway/src/idempotency.ts:122 | Upper case makes two verbs equal exactly when they differ in nothing but the case of ASCII letters, and leaves no small letter |
| Idempotency.CanonicalRequestInjective | gateway/src/idempotency.ts:121-126 | With one-line verb, path and caller the four-part join determines its parts, the verb up to the case of letters |
| Idempotency.PreHashUnambiguous | gateway/src/idempotency.ts:120-126 | For every kind of body, absent ones included: one pre-hash text if and only if verb, path, caller and body up to key order agree, or a text body spells out the JSON of the other |
| Idempotency.MutatingVerbsApart | gateway/src/idempotency.ts:122 | Two different verbs of POST, PUT, PATCH and DELETE never share a pre-hash text |
| Idempotency.CanonicalRequestLines | gateway/src/idempotency.ts:76-78 | The four lines in order, and that absent and null bodies contribute nothing and texts themselves |
| Idempotency.NewlineMovesBetweenParts | gateway/src/idempotency.ts:121-126 | Without the one-line condition two different operations share a text |
| Idempotency.UuidShapeKeeps128Bits | gateway/src/idempotency.ts:104-113 | The UUID shape has its dashes in place, and between them the first 32 hex digits in order and nothing else |
| Idempotency.KeysCollideOnlyByHash | gateway/src/idempotency.ts:36-40 | For every hash, keys are equal if and only if the operations are the same, one spells out the other, or the digests collide in 128 bits |
| Idempotency.UnparsedBodiesShareKeys | gateway/src/app.ts:70-71 | Where no body parser has run, keys are equal if and only if verb, path and caller are, or the digests collide: the body has no part in them |
| Idempotency.IncomingRequest.constructor | gateway/src/idempotency.ts:88-94 | The request object holds what the derivation reads |
| Idempotency.IncomingRequest.ApplyMiddleware | gateway/src/idempotency.ts:136-157 | Sets the header on mutating requests without one, and leaves what the derivation reads untouched |
| ApiKeys.LegalKeysDistinct | backend/src/auth/apiKey.ts:161-307 | After every sequence of operations the current and previous keys of all records are pairwise distinct |
| ApiKeys.AtMostOneMatch | backend/src/auth/apiKey.ts:194-232 | At most one record can accept a raw key, and only one with the prefix |
| ApiKeys.UnprefixedRejected | backend/src/auth/apiKey.ts:195 | The prefix check rejects only what no record would accept |
| ApiKeys.CurrentIsLastIssued | backend/src/auth/apiKey.ts:255-271 | The current key of a record is the one last issued for it |
| ApiKeys.LastOperationDecides | backend/src/auth/apiKey.ts:194-307 | A key is accepted exactly when it is the one last issued for an id not revoked, or the one replaced by an uncommitted latest rotation whose grace is not over |
| ApiKeys.AcceptedIffLogged | backend/src/auth/apiKey.ts:186-193 | Some record accepts a key exactly when the log of operations says so for some id |
| ApiKeys.RevokedIffLast | backend/src/auth/apiKey.ts:299-307 | A key is revoked exactly when that is the last operation on its id |
| ApiKeys.KnownIffLogged | backend/src/auth/apiKey.ts:248-249 | An id is found exactly when some operation on it is logged |
| ApiKeys.ReplacedGoodUntil | backend/src/auth/apiKey.ts:255-273 | After a rotation the replaced key is good for exactly the grace period, and the new one from then on |
| ApiKeys.TrimMeans | backend/src/auth/apiKey.ts:162-171 | A trimmed name is what stands between the white space at both ends, empty exactly when there is nothing else |
| ApiKeys.RevokedIsTerminal | backend/src/auth/apiKey.ts:294-307 | No key of a revoked record is ever accepted again |
| ApiKeys.DroppedIsTerminal | backend/src/auth/apiKey.ts:241-242 | A key dropped by a later rotation, a commit or a revocation never comes back |
| ApiKeys.ApiKeyManager.RotatingIffFieldsSet | backend/src/auth/apiKey.ts:39-62 | Of every record, after any operations and scans: rotating exactly when all three rotation fields are set; grace within 1..MAX_GRACE_MS |
| ApiKeys.ApiKeyManager.HashesDistinct | backend/src/auth/apiKey.ts:161-307 | The current and previous hashes held by all records are pairwise distinct |
| ApiKeys.ScanStep | backend/src/auth/apiKey.ts:199-228 | The decision on one record is the specification's, and cleaning it up keeps it in line |
| ApiKeys.CommitSeesCleaning | backend/src/auth/apiKey.ts:221-227 | Two stores with the same operations and different scans behind them can differ in whether a commit succeeds only when the grace period is over; and then a scan makes the difference |
| ApiKeys.ApiKeyManager.constructor | backend/src/auth/apiKey.ts:147-149 | An empty store agrees with an empty log |
| ApiKeys.ApiKeyManager.CreateKey | backend/src/auth/apiKey.ts:161-184 | Refused exactly for a blank name; otherwise one new active record |
| ApiKeys.ApiKeyManager.Visit | backend/src/auth/apiKey.ts:200-228 | One turn of the loop: hit exactly when the specification accepts, and what becomes of the record |
| ApiKeys.ApiKeyManager.Scan | backend/src/auth/apiKey.ts:199-231 | Stops at the first record that accepts; cleans those before, leaves those after |
| ApiKeys.ApiKeyManager.Validate | backend/src/auth/apiKey.ts:194-232 | Accepts exactly what the bare log of operations says is good now, whatever earlier scans left uncleaned; which records are cleaned, marked or left |
| ApiKeys.ApiKeyManager.ReplaceKey | backend/src/auth/apiKey.ts:255-271 | The assignments of a rotation, and that they follow the specification |
| ApiKeys.ApiKeyManager.RotateKey | backend/src/auth/apiKey.ts:247-274 | Each refusal in terms of the log; otherwise the replaced key is good until the returned time and no longer, and one record has the new fields |
| ApiKeys.ApiKeyManager.CommitRotation | backend/src/auth/apiKey.ts:281-292 | Succeeds exactly on a rotating record, and always while the grace period lasts; the fields it clears |
| ApiKeys.ApiKeyManager.RevokeKey | backend/src/auth/apiKey.ts:299-307 | Revokes one record, clears its rotation, and fails only for an unknown id |
| RefreshTokens.CommitMovesLife | backend/src/auth/refresh-token-family.service.ts:54-102 | A commit moves the life of the family from the current to the next token |
| RefreshTokens.MoveStepKeepsInv | backend/src/auth/refresh-token-family.service.ts:54-102 | Every statement inside a transaction keeps the invariant |
| RefreshTokens.CommitKeepsInv | backend/src/auth/refresh-token-family.service.ts:51-105 | So does every commit that stores no token early |
| RefreshTokens.LoginKeepsInv | backend/src/auth/refresh-token-family.service.ts:25-34 | So does every login that stores no token early |
| RefreshTokens.RemoveKeepsInv | backend/src/auth/refresh-token-family.service.ts:111-125 | So does every deletion that the locks allow |
| RefreshTokens.StepKeepsInv | backend/src/auth/refresh-token-family.service.ts:25-125 | So does every step of every interleaving |
| RefreshTokens.StaysSafeIff | backend/src/auth/refresh-token-family.service.ts:61-84 | After a step the two promises hold now and in every orderly continuation if and only if the step stored no token that a rotation has missed and is about to look for again |
| RefreshTokens.InterleavingSafeIff | backend/src/auth/refresh-token-family.service.ts:46-106 | Over every interleaving the promises hold in every state, and in all that may follow, if and only if no token is ever stored too early |
| RefreshTokens.RunIsSafe | backend/src/auth/refresh-token-family.service.ts:46-106 | Under every interleaving that stores no token too early, each family has at most one live token and each token at most one successor |
| RefreshTokens.ReuseLeavesTableAlone | backend/src/auth/refresh-token-family.service.ts:70-79 | Reuse deletes the family and the throw takes it back: the table is as before |
| RefreshTokens.FallingThroughForks | backend/src/auth/refresh-token-family.service.ts:61-102 | A rotation that missed its token and finds it live can, from every such state, break both promises |
| RefreshTokens.EarlyStoreHappens | backend/src/auth/refresh-token-family.service.ts:54-102 | A run from the empty table that ends with two live tokens in one family |
| RefreshTokens.TokenFamilyService.constructor | backend/prisma/migrations/20260623000002_add_refresh_token_family/migration.sql:1-11 | The empty table satisfies the invariant |
| RefreshTokens.TokenFamilyService.CreateTokenFamily | backend/src/auth/refresh-token-family.service.ts:25-34 | One new unused row, or the unique index refuses |
| RefreshTokens.TokenFamilyService.RotateTokenFamily | backend/src/auth/refresh-token-family.service.ts:46-106 | The exact error for a missing and for a used token, and the exact new table for a live one |
| RefreshTokens.TokenFamilyService.Refuse | backend/src/auth/refresh-token-family.service.ts:61-80 | Which error is thrown, and that the table is left alone |
| RefreshTokens.TokenFamilyService.Replace | backend/src/auth/refresh-token-family.service.ts:82-104 | The current token is used, the next one is live in the same family, nothing else changes |
| RefreshTokens.TokenFamilyService.Advance | backend/src/auth/refresh-token-family.service.ts:51-105 | One statement does what the step function says and keeps the invariant |
| RefreshTokens.TokenFamilyService.InvalidateFamily | backend/src/auth/refresh-token-family.service.ts:111-113 | Deletes exactly the rows of the family |
| RefreshTokens.TokenFamilyService.PruneExpiredFamilies | backend/src/auth/refresh-token-family.service.ts:119-125 | Deletes exactly the rows expired for more than 30 days, and counts them |
| Nonces.RedisKnowsGood | backend/src/auth/nonce.service.ts:19-28 | Redis holds an unused entry exactly for nonces issued, unexpired and never won; what clean-up is about to delete is not among them |
| Nonces.ConsumeSucceedsIff | backend/src/auth/nonce.service.ts:88-96 | A consume succeeds exactly for the key the nonce was issued to, before expiry and the first time |
| Nonces.ScriptTells | backend/src/auth/nonce.service.ts:10-28 | What each return code says of the history of the nonce |
| Nonces.SingleUse | backend/src/auth/nonce.service.ts:88-133 | Under every interleaving a nonce is consumed with true at most once |
| Nonces.UncleanedHistory | backend/src/auth/nonce.service.ts:135-170 | Leaving the clean-up steps out of a run changes no nonce's history |
| Nonces.CleanupInvisible | backend/src/auth/nonce.service.ts:135-170 | Clean-up changes the answer of no consume |
| Nonces.NonceService.constructor | backend/src/auth/nonce.service.ts:42-56 | An empty store agrees with an empty history |
| Nonces.NonceService.GenerateNonce | backend/src/auth/nonce.service.ts:65-86 | One new unused entry for the key, good for five minutes |
| Nonces.NonceService.ConsumeNonce | backend/src/auth/nonce.service.ts:97-133 | Answers true exactly for a good nonce and its own key, and marks it; otherwise changes nothing |
| Nonces.NonceService.CleanOne | backend/src/auth/nonce.service.ts:153-161 | Deletes a key exactly if it is there and used |
| Nonces.NonceService.CleanBatch | backend/src/auth/nonce.service.ts:153-161 | Deletes exactly the used entries of a batch, and counts them, also when a key is named twice |
| Nonces.NonceService.CleanupUsedNonces | backend/src/auth/nonce.service.ts:139-170 | Deletes exactly the used entries that were scanned, and counts them |
| WorkerPool.Pool.constructor | backend/src/lib/WorkerPool.ts:33-39 | An idle pool |
| WorkerPool.Pool.Enqueue | backend/src/lib/WorkerPool.ts:51-56 | Numbers the promise by order of enqueueing; afterwards no task waits for a free slot, also when re-entered from a worker |
| WorkerPool.Pool.Drain | backend/src/lib/WorkerPool.ts:73-87 | Fills the free slots from the head of the queue; with one free slot it starts exactly the first task |
| WorkerPool.Pool.TakeSlot | backend/src/lib/WorkerPool.ts:75-77 | Moves the first task from the queue to a slot |
| WorkerPool.Pool.StartWorker | backend/src/lib/WorkerPool.ts:79 | What a worker enqueues before it returns keeps the accounts |
| WorkerPool.Pool.Settle | backend/src/lib/WorkerPool.ts:79-80 | A run settles the promise of its own task with its own outcome |
| WorkerPool.Pool.Release | backend/src/lib/WorkerPool.ts:81-85 | Frees one slot and starts exactly the first waiting task, if any |
| WorkerPool.Pool.ExactlyOnePlace | backend/src/lib/WorkerPool.ts:41-50 | In every state each task waits, runs or has settled, and just one of these |
| WorkerPool.Pool.RunningBound | backend/src/lib/WorkerPool.ts:4-11 | At most concurrency tasks run at once if that is a whole number; with a fraction one more does, whenever a task waits |
| WorkerPool.Pool.IdleMeansDone | backend/src/lib/WorkerPool.ts:41-50 | When nothing runs, nothing waits and every promise has settled |
| WorkerPool.QueueAdvances | backend/src/lib/WorkerPool.ts:73-87 | A task at queue index k starts at exactly the (k+1)-th release that follows, over every run |
| CursorCodec.FirstCode | backend/src/graphql/connection.ts:64 | UTF-8 decoding takes at least one byte and yields no surrogate and nothing beyond U+10FFFF |
| CursorCodec.Utf8RoundTrip | backend/src/graphql/connection.ts:56-64 | Decoding UTF-8 undoes encoding |
| CursorCodec.PackRoundTrip | backend/src/graphql/connection.ts:56-64 | Regrouping bytes into sextets can be undone for every length |
| CursorCodec.DigitsRoundTrip | backend/src/graphql/connection.ts:56-64 | The base64url alphabet is read back |
| CursorCodec.TextRoundTrip | backend/src/graphql/connection.ts:56-64 | Every text survives UTF-8 and base64url |
| CursorCodec.CursorRoundTrip | backend/src/graphql/connection.ts:56-72 | Decoding an encoded id gives it back, except for the empty id, which is rejected |
| CursorCodec.CursorDecodesIff | backend/src/graphql/connection.ts:61-72 | Any cursor is accepted for an id exactly when it decodes to the prefix and that id, which is not empty |
| CursorCodec.CursorRefusedIff | backend/src/graphql/connection.ts:68-70 | A cursor is refused exactly when it decodes to no prefixed id |
| CursorCodec.Alphabet | backend/src/graphql/connection.ts:57 | The digits are those of base64url |
| CursorCodec.PackKeepsBits | backend/src/graphql/connection.ts:57 | Each group of bytes and its sextets are the same number |
| CursorCodec.EncodingForm | backend/src/graphql/connection.ts:57 | The bytes of a code point have the forms of UTF-8 |
| CursorCodec.DecodedIsEncoded | backend/src/graphql/connection.ts:64 | Whatever the bytes, a decoded code point is the replacement or stands for its own encoding |
| CursorCodec.ForeignSkipped | backend/src/graphql/connection.ts:64 | Characters of no alphabet are skipped when a cursor is decoded |
| CursorCodec.PaddingEnds | backend/src/graphql/connection.ts:64 | Nothing is read after an equals sign |
| CursorCodec.CursorsDistinct | backend/src/graphql/connection.ts:56-58 | Different ids have different cursors |
| Connections.PageRefusedIff | backend/src/graphql/connection.ts:84-98 | Each refusal and when it is given: a page size below 1 or above 100, 20 if absent, or a cursor that decodes to no prefixed id |
| Connections.PageDescribesItself | backend/src/graphql/connection.ts:109-124 | Every edge has the cursor of its own row, the page starts and ends with those of its first and last, and the other fields are as asked and counted |
| Connections.FetchAfter | backend/src/graphql/resolvers.ts:113-118 | The query finds the rows after the cursor row, whatever was inserted ahead of it |
| Connections.TrimsLookAhead | backend/src/graphql/connection.ts:103-125 | Rows, hasNextPage and endCursor after the look-ahead row is trimmed |
| Connections.PageIsNextRows | backend/src/graphql/resolvers.ts:102-126 | A page holds the next rows in order, 20 if no size is given, says whether more follow, and ends with its last row's cursor |
| Connections.WalkIsExact | backend/src/graphql/connection.ts:11-14 | Following endCursor delivers exactly the remaining rows, once each and in order, and ends, for page sizes chosen per page and with insertions at the head |
| Connections.WholeWalk | backend/src/graphql/connection.ts:11-14 | A walk from the beginning delivers exactly the rows present at the start |
| Connections.InsertionAtHeadIsSteady | backend/src/graphql/connection.ts:11-13 | Insertion at the head is one of the changes that walks withstand |
| Connections.OrderedIsUnique | backend/src/graphql/resolvers.ts:114-117 | The query order leaves one arrangement of a set of rows |
| Connections.UndisturbedIff | backend/src/graphql/resolvers.ts:114-117 | In query order a table withstands a walk exactly when it has changed only ahead of the cursor row |
| Connections.NewRowsAreAhead | backend/src/graphql/connection.ts:11-13 | A row newer than all others goes to the head and disturbs no walk; the direction of the order |
| Connections.LiveWalk | backend/src/graphql/connection.ts:11-14 | A walk in query order delivers exactly the rows present at its start while rows ordered before its cursor come and go |
| Connections.DeletedCursorRowEndsWalk | backend/src/graphql/resolvers.ts:113-118 | After deletion of the cursor row the next page is empty and the last |
| MtlsRotation.PassesMeansAllWithin | scripts/mtls-rotation/mtls-rotation.js:110-138 | Monitoring that ends well has read no rate above the threshold up to the deadline; it fails at the first rate above it, or the first query that fails |
| MtlsRotation.RotationWellFormed | scripts/mtls-rotation/mtls-rotation.js:340-393 | Every phase trace is a prefix of one of three sequences; when exactly each of cutover, rollback, rolled back and complete is reached |
| MtlsRotation.PassesIffWatched | scripts/mtls-rotation/mtls-rotation.js:110-138 | A window passes if and only if every rate read, up to the moment it is over, is at most the threshold |
| MtlsRotation.HigherThresholdPasses | scripts/mtls-rotation/mtls-rotation.js:110-113 | A window that passes still passes under a higher threshold |
| MtlsRotation.CompleteIffWatched | scripts/mtls-rotation/mtls-rotation.js:340-384 | Cutover follows exactly four accepted calls and a first window in which every rate read was at most the threshold; complete, exactly that twice |
| MtlsRotation.OutcomeOfRotation | scripts/mtls-rotation/mtls-rotation.js:340-393 | Rolled back: all secrets equal the backup. Complete: new certificate everywhere and only the new CA trusted. Otherwise: the last state written |
| MtlsRotation.CertRotationOrchestrator.constructor | scripts/mtls-rotation/mtls-rotation.js:279-306 | The machine starts idle |
| MtlsRotation.CertRotationOrchestrator.SetState | scripts/mtls-rotation/mtls-rotation.js:327-330 | Sets the state and emits it |
| MtlsRotation.CertRotationOrchestrator.Distribute | scripts/mtls-rotation/mtls-rotation.js:192-233 | Which secrets hold what for every combination of rejected calls, and the secrets after every single write |
| MtlsRotation.CertRotationOrchestrator.Monitor | scripts/mtls-rotation/mtls-rotation.js:110-138 | The deadline loop answers well only after rates that are all at most the threshold, and badly exactly at a higher one or a query that fails |
| MtlsRotation.CertRotationOrchestrator.Restore | scripts/mtls-rotation/mtls-rotation.js:241-249 | In any order of the parallel restores, exactly the accepted secrets equal the backup |
| MtlsRotation.CertRotationOrchestrator.Rotate | scripts/mtls-rotation/mtls-rotation.js:340-384 | The phases of a whole run, the secrets after every forward write and at the end, and when it completes |
| MtlsRotation.CertRotationOrchestrator.MonitorAndCutOver | scripts/mtls-rotation/mtls-rotation.js:359-383 | The same for the part after the first distribution |
| MtlsRotation.CertRotationOrchestrator.CutOver | scripts/mtls-rotation/mtls-rotation.js:367-383 | The same for the part after the first window |
| MtlsRotation.CertRotationOrchestrator.RollBack | scripts/mtls-rotation/mtls-rotation.js:388-393 | The phases of a rollback, and exactly which secrets it puts back |
| MtlsRotation.TrustKeptIff | scripts/mtls-rotation/mtls-rotation.js:192-233 | Trust holds after every write of both distributions if and only if old and new CA cover the certificates installed at the start |
| MtlsRotation.TrustNeverBroken | scripts/mtls-rotation/mtls-rotation.js:340-384 | So it always holds when there is an old CA that issued them |
| MtlsRotation.NoOldCaBreaksTrust | scripts/mtls-rotation/mtls-rotation.js:344-345 | Without an old CA the first write breaks trust |
| BlueGreen.BlueGreenDeployer.WithRetry | scripts/blue-green/blue-green-deploy.ts:150-167 | Succeeds exactly when one of three attempts is accepted, and stops at the first |
| BlueGreen.BlueGreenDeployer.Send | scripts/blue-green/blue-green-deploy.ts:475-490 | A retried command takes effect once or not at all |
| BlueGreen.BlueGreenDeployer.WaitForHealthy | scripts/blue-green/blue-green-deploy.ts:496-519 | Succeeds exactly when a poll before the deadline sees a healthy target and no query before it failed for good |
| BlueGreen.BlueGreenDeployer.Advance | scripts/blue-green/blue-green-deploy.ts:260-287 | What the steps after discovery do, up to the first that throws |
| BlueGreen.BlueGreenDeployer.AwaitAndShift | scripts/blue-green/blue-green-deploy.ts:269-284 | The same from the health checks on |
| BlueGreen.BlueGreenDeployer.Shift | scripts/blue-green/blue-green-deploy.ts:272-284 | The same from the smoke tests on |
| BlueGreen.BlueGreenDeployer.Rollback | scripts/blue-green/blue-green-deploy.ts:610-651 | Each of the two commands takes effect if accepted, whatever becomes of the other |
| BlueGreen.BlueGreenDeployer.Deploy | scripts/blue-green/blue-green-deploy.ts:242-306 | The commands of a whole run in order, the cloud they leave, and the report |
| BlueGreen.DiscoveredIff | scripts/blue-green/blue-green-deploy.ts:312-415 | Exactly when which slot is taken to be active: all queries accepted at last, both services and the load balancer there, and green only if green alone is healthy |
| BlueGreen.ShiftedIff | scripts/blue-green/blue-green-deploy.ts:260-284 | Exactly when traffic is given to the new slot, in the answers of the outside: registration, update, a healthy poll in time, the smoke test if there is one, and the shift |
| BlueGreen.SucceedsIff | scripts/blue-green/blue-green-deploy.ts:279-287 | Success is exactly a shift followed by an accepted drain |
| BlueGreen.SuccessMeansNewSlot | scripts/blue-green/blue-green-deploy.ts:279-287 | Success: all weight on the new slot with its new definition, the old one at zero |
| BlueGreen.ShiftFollowsHealth | scripts/blue-green/blue-green-deploy.ts:266-284 | No shift and no drain without health observed on the new slot after its update and before the deadline; no drain without a shift |
| BlueGreen.FailureOutcome | scripts/blue-green/blue-green-deploy.ts:288-305 | When the guess was right: after a failure the old slot is untouched exactly when the shift was not accepted or the restore was; its count never changes |
| BlueGreen.NoDowntimeIff | scripts/blue-green/blue-green-deploy.ts:4-7 | Over every failure point and every guess of the active slot: in every state of the run traffic goes to a slot that is meant to run, except in the stranded and the misdirected courses |
| BlueGreen.RightGuess | scripts/blue-green/blue-green-deploy.ts:279-305 | With the traffic on the slot taken to be active, a run has downtime exactly in the stranded course, which ends with all traffic on a slot at zero |
| BlueGreen.WrongGuess | scripts/blue-green/blue-green-deploy.ts:279-305 | With the traffic on the other slot, a run has downtime exactly if it fails and its rollback sends the traffic to a slot without tasks or scales down the slot that has it |
| BlueGreen.UndoKeepsUpIff | scripts/blue-green/blue-green-deploy.ts:610-651 | When exactly a rollback to a running slot is itself without downtime |
| BlueGreen.UndoOnServing | scripts/blue-green/blue-green-deploy.ts:610-651 | When exactly a rollback is without downtime if the traffic is on the slot it scales down |
| BlueGreen.AlwaysUpMeansEveryState | scripts/blue-green/blue-green-deploy.ts:4-7 | What no downtime means for each state on the way |
| BlueGreen.RestoreGoesToGuessedSlot | scripts/blue-green/blue-green-deploy.ts:351-390 | A restored listener points where the traffic was exactly when the guess of the active slot was right; the guess is green exactly when green alone is healthy |
| BlueGreen.NothingHappensIff | scripts/blue-green/blue-green-deploy.ts:255-258 | When exactly a run does nothing at all; a dry run is such a run |

## Left out

- SlidingWindow.LimiterKey.Handle: the branches for an unreachable Redis (fail open) and for a missing pipeline reply (`?? 1`) are not modelled; both lift the bound on purpose. Windows of less than a millisecond are excluded, because the pruning would drop the entry being added.
- SlidingWindow.LimiterKey.IncrementSlidingWindow: two requests with the same millisecond and the same random suffix would share one member of the sorted set; members are taken as distinct. The calls on one key are taken in the order of their clock readings.
- FixedWindow.RateLimitMiddleware.Use: how the key and the path are read from the request is not modelled; the key and whether the path is an auth endpoint are inputs.
- CanonicalJson.CanonicalDecidesEquivalence: a number is the text JavaScript prints for it, so that 0 and -0, and 1 and 1.0, are one number; printing numbers is not modelled. Strings are sequences of characters without unpaired surrogates, compared character by character, which differs from the order of UTF-16 units above U+FFFF and changes no result here.
- Idempotency.NormalizedBodyDecides: bodies are what JSON.parse can build. Circular bodies, which contribute nothing, and values with a toJSON method, such as dates and buffers, are not modelled.
- Idempotency.IncomingRequest.ApplyMiddleware: header values that are lists, and the call of `next`, are not modelled.
- ApiKeys.ApiKeyManager.Validate: it reads the clock several times, the model once. It returns the stored object itself, which a caller could change; records are values in the model. An absent raw key is not modelled.
- ApiKeys.ApiKeyManager.RotateKey: a grace period that is not an integer, which is refused, is not modelled; nor are `get`, `list` and the default taken from the environment.
- RefreshTokens.RunIsSafe: does not cover runs in which a token is stored between the two looks of a rotation that was already presented with it, because the property is then false; `InterleavingSafeIff` covers all interleavings. Deadlocks are modelled only as rollbacks, which may happen at any step.
- RefreshTokens.TokenFamilyService.RotateTokenFamily: the legacy fallback of AuthService, which accepts tokens this service refuses, is not part of this model.
- RefreshTokens.TokenFamilyService.PruneExpiredFamilies: deletes the rows the statement sees; rows that a concurrent login adds are later steps.
- Nonces.NonceService.CleanupUsedNonces: the class runs a clean-up without interruption; the lemmas about runs interleave the reads and deletes of any number of overlapping clean-ups with everything else. A deletion of a key that expired after it was read is counted by the code and does not happen in an uninterrupted run. Redis errors, which make a consume answer false, are not modelled.
- WorkerPool.Pool.constructor: a concurrency below 1, infinite or not a number, for which the source throws, is required not to be given.
- WorkerPool.Pool.StartWorker: a worker that throws before it returns a promise would leave its slot taken for ever; it is not modelled. What a worker enqueues before that is an arbitrary function of its run.
- CursorCodec.CursorRoundTrip: ids with unpaired surrogates, which UTF-8 cannot carry, are excluded by the character type. Lenient decoding of malformed base64url is modelled for single foreign characters and for `=`.
- Connections.FetchAfter: the table is the list of matching rows in query order, as the database would return it; ids are compared character by character, whatever the collation of the database.
- Connections.PageRefusedIff: a page size that is not an integer, which is refused, is not modelled; database errors are not modelled.
- MtlsRotation.CertRotationOrchestrator.Rotate: issuing and validating certificates, the dual-trust sleep, listeners and the shell wrapper are not modelled. The restores take effect in any order, and the states between them are not constrained. An orchestrator is used once.
- BlueGreen.BlueGreenDeployer.WaitForHealthy: the clock gets past the deadline at some poll; sleeping between polls, and back-off between attempts, are not modelled.
- BlueGreen.BlueGreenDeployer.Deploy: command-line parsing, names, container definitions and durations are not modelled. What the services do with a desired count is up to the cloud.
- Metrics, traffic manager, rollback manager, health checker and report generators: single-branch arithmetic and formatting that would add only easy members.
- backend/src/deployment/canary.service.ts: the file ends before the body of its rollback, so its state machine is not complete enough to model.
- JWT and Ed25519 verification, the contracts, the front end and the load tests: outside the protocols modelled here.
