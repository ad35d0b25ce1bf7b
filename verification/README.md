# Attesto: a verified model

Attesto validates App Store and Google Play purchases and relays the stores' notifications to its
tenants. Most of it is a thin proxy. This project models the parts that keep state or that decide
something subtle, and proves what they are for.

| files | part of the system |
|---|---|
| `Ingestion.dfy`, `Dispatcher.dfy`, `Deliveries.dfy`, `DispatcherRuns.dfy`, `Starvation.dfy`, `DispatcherLoop.dfy` | outbound webhooks: racing receivers, the claim of due rows, one attempt and its backoff, every run with crashes, starvation freedom, the timer loop |
| `RateLimit.dfy`, `VoidedScan.dfy`, `FanOut.dfy` | the token bucket, the paged scan for a voided purchase, and the bound the two together put on upstream calls |
| `GoogleChain.dfy` | purchase-token chains as a canonical key |
| `BatchedDelete.dfy`, `Retention.dfy`, `Purger.dfy`, `TenantPurge.dfy` | bounded deletes, the retention sweep and its timer, tenant erasure interleaved with live requests |
| `TtlCache.dfy`, `OAuth.dfy` | the TTL cache with in-flight deduplication, and Google access tokens on top of it |
| `Base64Url.dfy`, `X5c.dfy`, `Signature.dfy`, `Text.dfy` | base64url, the x5c header rewrite, the webhook signature header, and the string operations they use |

Code that changes state is a class or a method with loops, proved against a specification function on
values (`Step`, `Apply`, `Refilled`, `Resolve`, `Normalized`, …); the laws are then lemmas about that
function and about all runs of it. What an operation decides, records or reports is stated besides in
terms of its inputs alone, with the program's numbers and texts written out. Concurrent code is a step system: a state, the steps that are
enabled in it, and runs as sequences of enabled steps. A database statement is one step.

What the code does not do itself is a parameter, arbitrary unless stated: the upstream list (a function
from page cursor to reply), clock readings, HMAC-SHA256, X.509 parsing, Node's base64 codec, JSON and
the text encoder. Three laws about parameters are assumed, each as a `requires` of the lemma that uses
it or in a type: that printing and parsing one given JSON header is the identity, that Node's base64 codec inverts
itself on a trusted root, and that an HMAC has 32 bytes (the type).

## Where the code does less than it says

- **Ticks and throws.** `tick` awaits `Promise.all`, which rejects while sibling attempts run on
  (app/services/webhooks/dispatcher.ts:139), so serialized ticks do not by themselves keep a row from
  being claimed twice, as lines 61-66 say. Any attempt under way may throw in the model, several of one
  tick and those of earlier ticks included. After any run safe so far, a tick rules out every POST out of
  turn until the next tick iff it claims no row that an attempt is still working on (`TickIsSafeIff`);
  otherwise a POST on a row that is closed, or no longer as it was claimed, is always in reach
  (`DoubleClaimMisposts`). Of the further harm, this is shown: unless the older attempt had decided to
  retry, the row can end up delivered and failed at once (`DoubleClaimMarksBoth`); at the last attempt a
  POST beyond the bound is in reach at once, and one retry before it a pending row whose next POST is
  beyond it (`DoubleClaimOvercounts`). Such a tick does occur
  (`StragglerBreaksSafety`), though never unless something throws (`NoThrowNoDoubleClaims`).
- **Start over a stopping loop.** Ticks can overlap after `stop`, `start` (line 169 says never). In every
  run they never overlap iff each `start` comes while the loop is running or has no unfinished tick
  (`TicksNeverOverlapIff`); awaiting each `stop` before the next `start` is enough.
- **Deep chains.** app/services/webhooks/google-chain.ts:109-113 calls the key of an over-deep chain
  canonical for everything below it. A leaf there takes its predecessor's key iff the predecessor's
  own walk ends before the cap (`FreshLeafTakesPredecessorsKey`), and the key of a key is itself iff
  a root was reached (`KeyOfKeyIff`). The key is canonical for every pair of tokens of a table iff the
  table is acyclic and no deeper than the cap (`CanonicalIffShallow`). Seventeen links already give a leaf and the token it replaced
  different keys (`SeventeenLinksSplitTheKey`).
- **Small bursts.** The price of a voided scan is clamped to the burst, so a burst below 25
  under-prices it: the fan-out bound holds of every trace iff the burst is at least 25 (`BoundHoldsIff`).
- **A null JWS header.** `normalizeJwsX5c` passes malformed input through, except that a header
  segment decoding to JSON `null` makes it throw (`ThrowsIffNullHeader`); `bnVsbA` is such a segment
  (`NullHeaderThrows`).
- **Scopes and colons.** The two scopes in use never let two pairs of cache key and scope share a key
  (`NamespacesDoNotCollide`, `ProgramScopesArePlain`). The namespacing itself promises that only for
  scopes that neither start with a colon nor hold two in a row, and exactly for those (`AliasedIff`).

## Model

| member | source | states |
|---|---|---|
| `Ingestion.StepKeepsInv` | app/db/queries/webhooks.ts:108-191 | Every statement of every interleaved receiver, a crash included, keeps one row per (tenant, source, externalId), one delivery per event, and each receiver's progress true of the tables |
| `Ingestion.IngestionIsIdempotent` | app/db/queries/webhooks.ts:108-191 | In every run of any number of receivers without row deletion: at most one event row per key, all receivers of a key return its id, only the one that inserted it sees isNew, and the degraded branch is unreachable |
| `Ingestion.SomeoneWon` | app/db/schema.ts:203-209 | Once any receiver has returned, there is a winner, and its id is the one returned |
| `Ingestion.OneDeliveryByTheWinner` | app/services/webhooks/enqueue.ts:12-24 | An event has at most one delivery row, and has one exactly when its winner enqueued it; without one the winner is still under way, crashed before, or read no active config at a step of the run |
| `Ingestion.EnqueueingReadActiveConfig` | app/services/webhooks/enqueue.ts:16-22 | Whoever enqueues had read an active config of its tenant at a step of the run, and enqueues for that config's callback URL |
| `Ingestion.DegradedMeansDeleted` | app/db/queries/webhooks.ts:150-190 | In every run, a receiver given the degraded answer had its key's row deleted between its insert and its last look-up |
| `Ingestion.RemovalDegrades` | app/db/queries/webhooks.ts:150-190 | Conversely, whenever that row is among those deleted there, before either look-up, the degraded answer is in reach |
| `Ingestion.DeletionReachesDegraded` | app/db/queries/webhooks.ts:150-190 | Such a run exists |
| `Dispatcher.Tables.InsertWebhookEventIdempotent` | app/db/queries/webhooks.ts:108-148 | Undisturbed, the insert adds the row iff its key is new and returns the key's one row either way |
| `Dispatcher.Tables.MaybeEnqueueDeliveryForEvent` | app/services/webhooks/enqueue.ts:12-24 | Iff the tenant's config exists and is active, adds one pending row with that event, tenant and callback URL, no attempts and due at once; otherwise changes nothing |
| `Dispatcher.Tables.ClaimPendingDeliveries` | app/db/queries/webhooks.ts:220-240 | The claim is distinct pending rows whose next attempt is at or before now, earliest first, at most the limit; such a row is left out only when it is full of rows no later than it |
| `Dispatcher.Tables.UpdateDeliveryAttempt` | app/db/queries/webhooks.ts:251-278 | The row counts one attempt more, records time, code and body, and takes status, deliveredAt, failedAt or next attempt from the outcome; a missing row changes nothing |
| `Dispatcher.Tables.ProcessOne` | app/services/webhooks/dispatcher.ts:69-129 | A missing event fails it with event_deleted, a missing or inactive config with no_active_webhook_config, no POST deciding; otherwise the reply, attempt count and schedule decide; exactly this row records the outcome |
| `Dispatcher.Tables.Tick` | app/services/webhooks/dispatcher.ts:131-143 | Undisturbed, every claimed row is decided and recorded so exactly once, in full chunks but possibly the last, outcomes in claim order; no other row is touched and rows stay consistent |
| `Deliveries.AttemptDelivery` | app/services/webhooks/delivery.ts:123-165 | Delivered iff the status is 2xx, failed iff not and the retries are used up, otherwise next due exactly 30, 120, 600, 3600 or 21600 seconds on; with the status and the first 256 characters |
| `Deliveries.UpdateKeepsRowOk` | app/db/queries/webhooks.ts:251-278 | Persisting an outcome on a pending row keeps attemptCount within the cap and deliveredAt / failedAt set exactly in their own status |
| `Deliveries.FailingDeliveryLife` | app/services/webhooks/delivery.ts:154-165 | A delivery whose POSTs all fail is failed after exactly 1 + maxRetries attempts, is next due exactly its schedule entry after each decision, and its k-th retry comes no earlier than the first decision plus the first k backoffs |
| `DispatcherRuns.RunKeepsInv` | app/services/webhooks/dispatcher.ts:69-143 | All runs of enqueues, deletions, ticks, POSTs, updates, throws (any number, of any attempt under way) and crashes in which no tick claims a row still worked on keep one attempt per delivery, its row as claimed, and attemptCount of a pending row equal to its POSTs not lost |
| `DispatcherRuns.PostsAreBounded` | app/services/webhooks/dispatcher.ts:69-143 | In those runs a delivery is POSTed at most 1 + maxRetries times plus once per POST whose outcome a crash or throw lost, hence once per such interruption; its row is consistent |
| `DispatcherRuns.NoPostAfterClosed` | app/db/queries/webhooks.ts:262-270 | In those runs no POST follows a persisted delivered or failed, and each is made for a row that is pending and as claimed |
| `DispatcherRuns.NoThrowNoDoubleClaims` | app/services/webhooks/dispatcher.ts:137-141 | In runs where no attempt throws, no tick claims a row still worked on |
| `DispatcherRuns.TickIsSafeIff` | app/services/webhooks/dispatcher.ts:131-143 | After any run safe so far, a tick rules out every POST out of turn before the next one iff it claims no row that an attempt is still working on |
| `DispatcherRuns.DoubleClaimMisposts` | app/services/webhooks/dispatcher.ts:137-141 | Whenever a tick claims such a row, a POST out of turn is in reach: on a delivery already closed unless the older attempt had decided to retry, and 2 + maxRetries POSTs at the last attempt unless it was abandoned |
| `DispatcherRuns.DoubleClaimMarksBoth` | app/db/queries/webhooks.ts:262-270 | Unless the older attempt had decided to retry, the row can then end with both deliveredAt and failedAt set |
| `DispatcherRuns.DoubleClaimOvercounts` | app/services/webhooks/delivery.ts:154-165 | With one retry left before the last attempt, it can leave a pending row with attemptCount maxRetries + 1 and 1 + maxRetries POSTs not lost, so its next POST is beyond the bound |
| `DispatcherRuns.StragglerBreaksSafety` | app/services/webhooks/dispatcher.ts:139 | Such a run exists: a throw lets the next tick POST a delivery already persisted as delivered |
| `Starvation.AheadCountFalls` | app/db/queries/webhooks.ts:229-239 | The measure: no step adds a row ahead of a waiting due row, and a tick that leaves it waiting removes a full batch of them |
| `Starvation.DueRowIsClaimed` | app/services/webhooks/dispatcher.ts:131-143 | With the clock past its due time and nothing throwing, a due row is claimed within floor(r / limit) + 1 ticks, r the pending rows ordered no later |
| `DispatcherLoop.Loop.RunTickAndReschedule` | app/services/webhooks/dispatcher.ts:145-149 | A stopped loop starts no tick; a running one starts one and records it |
| `DispatcherLoop.Loop.StartLoop` | app/services/webhooks/dispatcher.ts:165-171 | The closure state after `start` is that of the step system |
| `DispatcherLoop.Loop.Continue` | app/services/webhooks/dispatcher.ts:155-163 | After a tick ends, currentTick is cleared and a timer armed iff still running |
| `DispatcherLoop.Loop.StopLoop` | app/services/webhooks/dispatcher.ts:173-180 | `stop` disarms the timer and awaits exactly the recorded tick |
| `DispatcherLoop.TicksNeverOverlapIff` | app/services/webhooks/dispatcher.ts:145-180 | For every run: no two passes are ever unfinished at once iff each `start` comes while running or with no unfinished pass |
| `DispatcherLoop.TicksNeverOverlap` | app/services/webhooks/dispatcher.ts:145-180 | So ticks never overlap when `start` is not called between a stop and its resolution; once stopped and every stop resolved, none is in flight and no timer is armed |
| `DispatcherLoop.QuietUntilStart` | app/services/webhooks/dispatcher.ts:173-180 | After that, whatever else happens, no tick starts until `start` is called |
| `DispatcherLoop.EarlyStartOverlaps` | app/services/webhooks/dispatcher.ts:165-180 | While a stopped loop still has an unfinished tick, a stop is pending, and a `start` then overlaps two ticks |
| `RateLimit.RateLimiter.Take` | app/middleware/rate-limit.ts:74-103 | The mutable bucket after `take` and the decision are those of lazy refill and charge; a refusal debits nothing, other tenants are untouched |
| `RateLimit.RateLimiter.Middleware` | app/middleware/rate-limit.ts:116-124 | The middleware takes the clamped cost |
| `RateLimit.ClampCost` | app/middleware/rate-limit.ts:123 | For a burst of at least 1: 1 below 1, the requested cost up to the burst, the burst above it; 1 when not finite or the burst is below 1 |
| `RateLimit.BucketIsMinimumOverWindows` | app/middleware/rate-limit.ts:78-101 | Tokens before request k equal the minimum over all windows i..k of burst + rate * elapsed - admitted costs, under a clock that may step back |
| `RateLimit.TokensInRange` | app/middleware/rate-limit.ts:87-101 | Tokens stay between 0 and the burst |
| `RateLimit.TenantsAreIsolated` | app/middleware/rate-limit.ts:72-82 | A tenant's bucket in any mixed trace is the one its own requests alone would leave |
| `RateLimit.AdmittedIffEveryWindowFits` | app/middleware/rate-limit.ts:93-102 | A request of any mixed trace is admitted iff every window of its tenant's traffic ending at it fits burst + rate * elapsed |
| `RateLimit.WindowIsBounded` | app/middleware/rate-limit.ts:74-103 | No window of any mixed trace admits more of one tenant than burst + rate * elapsed |
| `RateLimit.PollsCostNothing` | app/middleware/rate-limit.ts:87-99 | Refused polls at any clock readings, later ones included, leave what one refill at the latest reading would |
| `RateLimit.RetryAfterIsExact` | app/middleware/rate-limit.ts:97-99 | Waiting the returned whole seconds admits the request iff its cost fits the burst; no smaller whole number that is at least 1 does |
| `VoidedScan.FindGoogleVoidedPurchase` | app/services/google/voided-purchases.ts:280-324 | The paging loop computes the bounded scan of the cursor function |
| `VoidedScan.ScanRefinesUnbounded` | app/services/google/voided-purchases.ts:280-324 | Voided with the first match of the first page that has one; not voided and not truncated only when the whole chain was read to its end, without a fault, and has none; a truncated answer never says voided |
| `VoidedScan.FailsIff` | app/services/google/voided-purchases.ts:318-320 | The scan fails with error e iff, with nothing found and no reason to give up before, it comes to a page within the cap whose call fails with e; otherwise it answers |
| `VoidedScan.TruncatedIff` | app/services/google/voided-purchases.ts:301-324 | Truncated exactly when some page count within the cap is reached with nothing found and a repeated cursor, an expired budget, or the cap itself |
| `VoidedScan.ShortChainIsConclusive` | app/services/google/voided-purchases.ts:285-317 | A chain of at most 50 pages without fault or repeated cursor, read within 25 seconds, is answered, never truncated, and truly |
| `VoidedScan.CallsAreBounded` | app/services/google/voided-purchases.ts:53-65 | At most 50 calls start, as many as pages are reported, and none after the first once a deadline check has failed |
| `FanOut.TwoCallsPerToken` | app/services/google/voided-purchases.ts:67-80 | With a burst of at least 25, admitted lookups cause at most two Play calls per token they paid |
| `FanOut.FanOutIsBounded` | app/middleware/route-costs.ts:20-23 | In every window of every mixed trace, one tenant's admitted Google lookups cause at most 2 * (burst + rate * elapsed) Play calls |
| `FanOut.SmallBurstBreaksTheBound` | app/middleware/rate-limit.ts:116-124 | For every burst from 1 to below 25, one admitted scan exceeds that bound |
| `FanOut.BoundHoldsIff` | app/config.ts:41-42 | For bursts of at least 1, the bound holds of every trace iff the burst is at least 25 |
| `GoogleChain.ChainTable.RecordChainLink` | app/services/webhooks/google-chain.ts:44-60 | The insert is write-once, ignores empty tokens and self-links, and touches no other tenant's links |
| `GoogleChain.ChainTable.ResolveToRoot` | app/services/webhooks/google-chain.ts:71-125 | The cursor and seen-set loop returns the end of the value-level walk of this tenant's links |
| `GoogleChain.WalkEndsAtFirstStop` | app/services/webhooks/google-chain.ts:76-108 | In any map, cyclic or deep, the walk follows links, repeats nothing, takes at most 16 hops and ends exactly at the first root, cycle or cap |
| `GoogleChain.KeyIsRootIff` | app/services/webhooks/google-chain.ts:76-108 | The key has no predecessor iff a root lies within 16 hops, and then it is that root |
| `GoogleChain.IdempotentIffRootReached` | app/services/webhooks/google-chain.ts:71-125 | Resolving a key gives the key itself iff the walk reached a root |
| `GoogleChain.KeyOfKeyIff` | app/services/webhooks/google-chain.ts:44-60 | Every table that recording and sweeping can make has no self-link, so there the previous statement holds outright |
| `GoogleChain.SameKeyIffSameTree` | app/services/webhooks/google-chain.ts:62-125 | In an acyclic map of depth at most 16 two tokens share a key iff some chain of links, in either direction, joins them |
| `GoogleChain.CanonicalIffShallow` | app/services/webhooks/google-chain.ts:62-125 | In a table without self-links, which recording and sweeping keep so, this holds of all pairs of tokens iff the table is acyclic with no chain deeper than 16 |
| `GoogleChain.RecordingOrderIsIrrelevant` | app/services/webhooks/google-chain.ts:39-60 | Links with distinct current tokens give the same map in whatever order they are recorded |
| `GoogleChain.FreshLeafTakesPredecessorsKey` | app/services/webhooks/google-chain.ts:44-60 | A fresh leaf changes no other token's key, and takes its predecessor's key iff the predecessor's walk ends before the cap |
| `GoogleChain.SeventeenLinksSplitTheKey` | app/services/webhooks/google-chain.ts:109-124 | Seventeen recorded links give a leaf and the token it replaced different keys |
| `GoogleChain.DeletionMovesKeyAlongOldWalk` | app/services/retention/purge.ts:126-141 | Deleting any links leaves every token's walk a prefix of its old one, so its key is an ancestor on it |
| `BatchedDelete.DeleteInBatches` | app/db/batched-delete.ts:44-79 | Of n matching rows it deletes and reports min(n, 50,000,000), touches no other, and reports the cap iff n is at least that |
| `Retention.Store.PurgeWebhookEvents` | app/services/retention/purge.ts:91-119 | Counts are exact for deliveries (before the cascade) and events, only expired rows go, foreign keys hold |
| `Retention.Store.PurgeOnce` | app/services/retention/purge.ts:150-190 | With a window of n days only rows created before now - n * 86,400,000 ms go (deliveries by their event), within 50,000,000 all of them, without a window none; the counts are those numbers, capped; it equals filtering by cutoff |
| `Retention.SweepIsByAge` | app/services/retention/purge.ts:87-89 | The cutoff amounts to that age in milliseconds, row by row |
| `Retention.SweepConservesRows` | app/services/retention/purge.ts:143-190 | Within the cap, rows before equal rows left plus the counts reported; for deliveries iff the expired ones fit the cap, as the cascade takes the rest uncounted |
| `Retention.SweepsCompose` | app/services/retention/purge.ts:143-190 | A sweep followed by a later one is the later one; at the same instant the second changes and counts nothing; foreign keys hold |
| `Purger.Purger.RunGuarded` | app/services/retention/purge.ts:251-259 | Hands out the sweep in flight if there is one, otherwise starts one |
| `Purger.Purger.StopTimer` | app/services/retention/purge.ts:270-276 | `stop` clears the timer and awaits exactly the sweep in flight |
| `Purger.SweepsNeverOverlap` | app/services/retention/purge.ts:251-259 | In every run of timer firings, `runOnce`, `start` and `stop` in any order, at most one sweep is unfinished, everybody asking during it is handed it, and without a window none runs |
| `Purger.AskingSweeps` | app/services/retention/purge.ts:262-281 | `start` with a window set, every timer firing and `runOnce` leave a sweep in flight, a fresh one if none was; the timer is on from `start` to `stop` |
| `Purger.StopDrains` | app/services/retention/purge.ts:270-281 | After `stop` no sweep begins until `start` or `runOnce` is called, and once that stop resolved none is in flight |
| `TenantPurge.StepKeepsConsistent` | app/db/schema.ts:267-284 | Every step of purge, requests, writers and other deletions keeps the foreign keys, and every audit row its own ended request |
| `TenantPurge.PurgeTouchesOnlyItsTenant` | app/db/queries/tenant-purge.ts:160-193 | The purge's statements leave every row, audit row and tenant of others as it was |
| `TenantPurge.PurgeStatementsDelete` | app/db/queries/tenant-purge.ts:160-193 | And they delete: each batch of at most 5,000, which if short was all there was, all chains, all rows with the tenant |
| `TenantPurge.CountsByTable` | app/db/queries/tenant-purge.ts:124-141 | The nine counts are the numbers of the tenant's rows in the nine tables |
| `TenantPurge.ErasureIsFinal` | app/db/queries/tenant-purge.ts:178-181 | Deleting the tenant row empties every referencing table of it, and no later step brings a row back or lets a further request authenticate |
| `TenantPurge.UnerasedTenantStillRecords` | app/middleware/auth.ts:43-52 | Before that step a new request can still authenticate and leave an audit row: the order of the steps matters |
| `TenantPurge.SurvivorsAreLateRequests` | app/db/queries/tenant-purge.ts:183-193 | After a short audit batch, in every interleaving, the rows left are audit rows only, at most one each of requests authenticated before the tenant row went and still in flight |
| `TenantPurge.CompleteMeansAuditWasEmpty` | app/db/queries/tenant-purge.ts:197-217 | Every run that ends with a report has a moment in that pass at which the audit table was counted, the report is complete iff the tenant had no row then, and all its rows now or later come from requests in flight at that moment |
| `TenantPurge.RerunCompletes` | app/db/queries/tenant-purge.ts:92-102 | From any moment at which the tenant row is gone, its requests have ended and fewer than 50,000,000 audit rows remain, every purge started later that finishes reports complete |
| `TenantPurge.SecondPurgeCompletes` | app/db/queries/tenant-purge.ts:92-102 | In particular after a first purge of a live tenant that reported incomplete |
| `TenantPurge.PurgesAreBounded` | app/db/queries/tenant-purge.ts:150-219 | In every interleaving each start of a purge is worth at most 30,011 statements of its own |
| `TenantPurge.PurgeIsNeverStuck` | app/db/queries/tenant-purge.ts:150-219 | Until it has finished, its next statement is always possible |
| `TenantPurge.Store.PurgeTenantData` | app/db/queries/tenant-purge.ts:150-219 | Alone, the purge removes exactly the tenant's rows and reports each table's number of them (batched tables up to 50,000,000); its recount is zero everywhere but the audit rows beyond the cap, remaining is that number and complete means it is 0; a dry run counts and changes nothing |
| `TenantPurge.Store.PurgeChildren` | app/db/queries/tenant-purge.ts:160-176 | The batched child deletes remove only this tenant's rows of the three tables, with exact capped counts |
| `TtlCache.Cache.GetAt` | app/lib/ttl-cache.ts:35-43 | Returns the unexpired value, evicts an expired one, and is the `Get` step of the history |
| `TtlCache.Cache.SetAt` | app/lib/ttl-cache.ts:45-47 | Stores with expiry ttlMs from now |
| `TtlCache.Cache.LoadOrFetchAt` | app/lib/ttl-cache.ts:49-65 | A hit, else the promise in flight, else a new loader registered under the key |
| `TtlCache.Cache.OnSettled` | app/lib/ttl-cache.ts:60-62 | The `finally` drops whatever is in flight under the key |
| `TtlCache.Cache.ClearAll` | app/lib/ttl-cache.ts:71-74 | Empties both maps but not the running loaders |
| `TtlCache.GetAgreesWithHistory` | app/lib/ttl-cache.ts:35-65 | Under a monotone clock `get` and `loadOrFetch` answer exactly the last value stored under the key, if under ttlMs old and not deleted since |
| `TtlCache.OneLoaderPerKey` | app/lib/ttl-cache.ts:49-65 | In runs that clear only while the key is idle, at most one loader of it is unfinished |
| `TtlCache.MissersShareTheLoader` | app/lib/ttl-cache.ts:49-65 | Whoever misses while a loader is unfinished gets that loader's promise; when none is, a failed load included, a miss starts a fresh one |
| `TtlCache.ClearDuplicatesIff` | app/lib/ttl-cache.ts:71-74 | A clear lets the next lookup of a key start a second unfinished loader of it iff the key was loading |
| `OAuth.FetchFresh` | app/services/google/oauth.ts:79-96 | An entry iff the status is 2xx with a non-empty token and a numeric expires_in; it expires at now + (expires_in - 60) seconds |
| `OAuth.AccessTokenProvider.GetAccessToken` | app/services/google/oauth.ts:98-120 | Under cacheKey::scope, androidpublisher where none is given, serves a cached token that is unexpired by entry and token, otherwise evicts it and joins or starts the one load of that key |
| `OAuth.ServedTokensAreFresh` | app/services/google/oauth.ts:92-109 | Every token served from the cache was granted for the very cache key and scope asked for, androidpublisher and never Pub/Sub where none is given, and is served before loadTime + (expires_in - 60) * 1000 |
| `OAuth.FreshTokensAreServed` | app/services/google/oauth.ts:108-109 | Conversely a stored entry not deleted since is served exactly while it and its token last |
| `OAuth.RefreshesShareOneExchange` | app/services/google/oauth.ts:110-117 | A call not served waits on the key's one unfinished exchange, starting one iff there is none |
| `OAuth.NamespacesDoNotCollide` | app/services/google/oauth.ts:100-107 | No two pairs of cache key and scope share a key if the scopes are plain (no leading colon, no two in a row), whatever the cache keys, or if the cache keys hold no colon |
| `OAuth.ProgramScopesArePlain` | app/services/google/pubsub-publisher.ts:21 | The two scopes in use are plain |
| `OAuth.AliasedIff` | app/services/google/oauth.ts:107 | Some longer cache key shares a pair's key iff the pair's scope is not plain |
| `Base64Url.ToBase64Url` | app/lib/crypto-utils.ts:8-12 | btoa, alphabet swap and padding strip compute the unpadded encoding of section 5 of RFC 4648 |
| `Base64Url.BtoaIsPaddedDigits` | app/lib/crypto-utils.ts:22-24 | The re-padding formula gives exactly the padding btoa appends, hence what was stripped |
| `Base64Url.DecodeInvertsEncode` | app/lib/crypto-utils.ts:8-26 | Decoding an encoded byte sequence gives it back, for every byte sequence |
| `Base64Url.EncodedIsUrlSafe` | app/lib/crypto-utils.ts:11 | The encoding has no padding, dot, plus or slash, and never a length of 1 modulo 4 |
| `Base64Url.DecodesIff` | app/lib/crypto-utils.ts:22-26 | Text of either alphabet decodes iff its length is not 1 modulo 4 |
| `Base64Url.ForeignCharacterFails` | app/lib/crypto-utils.ts:22-26 | Any other character, whitespace and = aside, makes the decoding fail |
| `Base64Url.GroupSpellsBytes` | app/lib/crypto-utils.ts:8-12 | A group's sextets are the base-64 digits of the number its bytes spell (section 4 of RFC 4648) |
| `Base64Url.AlphabetsAreStandard` | app/lib/crypto-utils.ts:11 | The two alphabets of RFC 4648 |
| `X5c.NormalizeJwsX5c` | app/services/apple/x5c-normalize.ts:63-147 | The rewrite with its root loop equals the specification on every input, thrown error included |
| `X5c.FirstRoot` | app/services/apple/x5c-normalize.ts:117-129 | The root chosen is the first parseable one whose subject is the issuer; none iff no root is such |
| `X5c.ModifiedIff` | app/services/apple/x5c-normalize.ts:97-146 | Modified iff a readable header has a chain of exactly two strings whose second is a certificate issued by some trusted root; rootLookupFailed iff there is none; unmodified text is returned unchanged |
| `X5c.ThrowsIffNullHeader` | app/services/apple/x5c-normalize.ts:70-79 | It throws iff the header decodes to JSON null |
| `X5c.NullHeaderThrows` | app/services/apple/x5c-normalize.ts:70-79 | The header segment bnVsbA throws on every platform that reads the text null as JSON null |
| `X5c.RewriteAppendsTheFirstRoot` | app/services/apple/x5c-normalize.ts:134-140 | Read back, the rewritten JWS has the same payload and signature segments, the same other fields in the same order, and the chain plus the first matching root |
| `X5c.RewriteClosesTheChain` | app/services/apple/x5c-normalize.ts:103-140 | The appended entry is a certificate whose subject is the issuer of the entry before it |
| `X5c.NormalizeIsIdempotent` | app/services/apple/x5c-normalize.ts:16-22 | Normalising twice is normalising once, and a modified JWS then has a chain of three |
| `X5c.ObservationIs` | app/services/apple/x5c-normalize.ts:82-95 | The observation, entry by entry: subject and issuer on one line, or unparseable; empty for a header that cannot be read |
| `X5c.ChainIsX5c` | app/services/apple/x5c-normalize.ts:79-81 | The chain is x5c when that is an array of strings, and empty otherwise |
| `X5c.OneLineReplaces` | app/services/apple/x5c-normalize.ts:88-89 | Each newline becomes a semicolon and a space, everything else is kept |
| `Signature.ToHex` | app/services/webhooks/signature.ts:32-36 | The loop computes two lower-case digits a byte |
| `Signature.ParseHeader` | app/services/webhooks/signature.ts:68-87 | The loop with its early returns computes the fold over the comma-separated parts |
| `Signature.TimingSafeEqualHex` | app/services/webhooks/signature.ts:89-96 | The XOR/OR loop decides string equality |
| `Signature.SignWebhook` | app/services/webhooks/signature.ts:56-66 | Prints t=timestamp,v1=hex where the hex denotes the HMAC of timestamp, dot, body |
| `Signature.VerifyWebhookSignature` | app/services/webhooks/signature.ts:119-136 | The verdict and its reason, in the code's order of checks, with a window of 300 seconds unless given |
| `Signature.HexReadsBack` | app/services/webhooks/signature.ts:32-36 | Hexadecimal output read back gives the bytes |
| `Signature.HexOfHexBytes` | app/services/webhooks/signature.ts:81-83 | Text of either case that denotes bytes lower-cases to their hexadecimal output |
| `Signature.LastOneWins` | app/services/webhooks/signature.ts:68-87 | A header is rejected iff some part is bad; otherwise the last time and the last mac stand |
| `Signature.LayoutIsIgnored` | app/services/webhooks/signature.ts:68-87 | Order, repetition and unknown parts do not change what a header says |
| `Signature.SignedHeaderVerifiesIff` | app/services/webhooks/signature.ts:119-136 | What was signed verifies iff the skew is within the window, else it is out of window, for every safe timestamp, body and secret |
| `Signature.PaddingAndCaseAreIgnored` | app/services/webhooks/signature.ts:70-84 | So do both orders of the parts, with any whitespace around keys and values and either hex case |
| `Signature.PayloadIsInjective` | app/services/webhooks/signature.ts:58 | Timestamp and body can be read off the signed text |
| `Signature.VerifiesIff` | app/services/webhooks/signature.ts:119-136 | Any header verifies iff it parses to a fresh time and a mac denoting the HMAC of that time and this body |
| `Signature.AnswersIff` | app/services/webhooks/signature.ts:119-136 | When each of the five answers is given: by what the header says, whether floor(nowMs / 1000) is within maxSkew of its time on either side, and the HMAC |
| `Signature.SaysNothingIff` | app/services/webhooks/signature.ts:68-87 | A header is malformed iff a part has no =, an unreadable time or a mac that is not hexadecimal, or no part is keyed t, or none v1 |
| `Signature.ReplayNeedsACollision` | app/services/webhooks/signature.ts:7-9 | A captured digest accepted for another timestamp or body is an HMAC collision |
| `Text.SplitInvertsJoin` | app/services/webhooks/signature.ts:70 | Splitting what was joined gives the parts back when none holds the separator |
| `Text.JoinInvertsSplit` | app/services/apple/x5c-normalize.ts:64 | Joining what was split gives the text back, and no part holds the separator |

## Left out

- HTTP routing, request schemas, CLI, rendering, logging and redaction: no property that spans operations.
- Apple's SDK, X.509, Web Crypto, AES-GCM, HMAC and JSON internals: parameters. Nothing says that a padded x5c header keeps the signature valid; the header is part of the signed input (section 5.1 of RFC 7515).
- `RateLimit.RateLimiter.Take`: tokens are reals, so floating-point rounding is not modelled; `peek` and `reset` are left out.
- `VoidedScan.FindGoogleVoidedPurchase`: a fault carries its mapped error; the upstream list does not change during one scan; credentials, the package check, the mapping of faults to errors and null list entries are left out.
- `FanOut.FanOutIsBounded`: calls started by admitted requests are counted in the window of their admission, not when each page call happens.
- `GoogleChain.ChainTable.ResolveToRoot`: the reads of one walk see one snapshot of the table; canonical keys are not claimed for deeper or cyclic chains.
- `Ingestion.IngestionIsIdempotent`: runs that delete event rows are excluded (`RemovalDegrades` shows why); replica lag, where a committed row is invisible, is not modelled.
- `DispatcherRuns.PostsAreBounded`: one dispatcher instance; runs in which a tick claims a row still worked on are excluded (`TickIsSafeIff` shows why); within a tick any interleaving of attempts is allowed, which covers chunking; the one-shot `tick` beside the loop is left out, as is exactly-once delivery across crashes.
- `Dispatcher.Tables.Tick`: the attempts of a chunk run one after another, with events and configs fixed during the tick; they touch different rows, and `DispatcherRuns` has the interleavings.
- `Starvation.DueRowIsClaimed`: runs with throws or crashes are excluded, and the clock is past the row's due time throughout.
- `Deliveries.AttemptDelivery`: the payload, the signature and the timeout are outside; a timeout is a network error. Bodies are truncated by characters, not UTF-16 units.
- `Retention.Store.PurgeOnce`: no concurrent writers; the `ctid` form of the chain delete is the same batched delete.
- `TenantPurge.Store.PurgeTenantData`: undisturbed; the interleavings are in the protocol of the same module, where a tenant id is never reused. Deactivated tenants are modelled as requests that end early.
- `TtlCache.Cache.LoadOrFetchAt`: loaders that call back into the cache before returning, loaders that throw before returning a promise, and stored `undefined` values are left out; `delete` does not affect a load in flight, as in the code.
- `OAuth.ServedTokensAreFresh`: speaks of tokens served from the cache; the code does not check a token obtained by awaiting a load, and neither does the model. Fractional expires_in values are left out.
- `X5c.NormalizeJwsX5c`: object fields keep their order, but JavaScript's ordering of integer-like keys is not modelled; a header that JSON printing alters (a number beyond the double range) fails the stated round-trip premise.
- `Signature.VerifyWebhookSignature`: `Number` and number printing are concrete on decimals up to 2^53 - 1 and parameters elsewhere; strings are sequences of Unicode scalars; the running time of the comparison is not modelled.
- `Base64Url.DecodesIff`: text with whitespace or explicit padding is covered by the decoder but not by this statement. PEM parsing is left out.
- Event-name tables, field coercions, status normalisers, period statistics: look-ups and field copies.
