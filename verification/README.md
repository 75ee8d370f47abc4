# Bill Commons: a verified model of its core protocols

Bill Commons publishes legislative bills with a change feed, webhooks, an API with keys and quotas,
and full-text search.  This project models the parts whose correctness is hardest to see from the
code, and proves what they promise.  `dafny verify dfyconfig.toml` checks all of it.

**Delivery.**  `ChangeFeed` is the append-only log: writers take a `seq` at INSERT, stamp rows with
the start of their transaction and become visible at COMMIT.  `DeliveryProtocol` interleaves them
with any number of drains of one subscription, each split at its transactions and POSTs, and with
crashes.  `Dispatcher` is the code of one drain: the subscription row is a class and the drain a
method over it.  `Refinement` proves that a drain of that code, with writers acting all the
while, is a run of the protocol.  `FailureHistory` gives the failure counters a meaning in terms of
the attempts.  `Rotation` is the order in which subscriptions are served, `Seats` the caps on active
subscriptions, `Notices` the one-slot flag between dispatcher and mailer.

**Keys.**  `KeyCache` is the in-process cache with its tombstones, as three critical sections of a
class and as a machine of interleaved readers and mutators.  `KeyLifecycle` is the set of
operations on the keys of one customer.

**Admission.**  `FixedWindow` is the counter class, `Admission` the check-all-then-increment over
several counters, `Quota` the daily quota that is checked before and metered after a request.

**Transformations.**  `Search` is the capped query, with every ORDER BY free to put ties either way;
`PathNormalization`, `Cursor` (with `Payload`), `BillNumber` and `Decimal` are codecs.

`Runs` has runs of a machine and what they keep, `Basics` the optional value and two facts about set
sizes.

## Where the code and its documentation differ

- `packages/shared/billcommons_shared/watermark.py:21-22` requires every writing transaction to be
  shorter than the lag.  Rows are stamped with the start of their transaction, so that is not
  enough: the lag has to exceed twice the longest transaction (`DeliveryProtocol.NoEventIsLostIff`).
- `apps/api/billcommons_api/api_keys.py:205-213` presents the tombstones as closing the race of a
  late cache write.  `invalidate` reads the clock before it takes the lock, and tombstones are
  evicted at a bound: `KeyCache.CacheIsCoherentIff` says at every bound when the race is closed, and
  there are runs for all other cases.
- `expire_stale_reveal` does not take the customer lock that the other operations take
  (`apps/api/billcommons_api/api_keys.py:261-295`): `KeyLifecycle.RevocationIsFinalIff` says exactly
  when a revocation is final.
- The advertised Retry-After is long enough unless a limit is zero (`Admission.RefusedAndRepeated`).

## Assumptions

Time in the delivery protocol is an integer number of microseconds; the rate limiter's clock is a
real number.  `table`, `missingBills`, `scopeKnown`, `receive`, `bodySize`, `backoff` and the clocks
of a drain are parameters, one value a round, as are the clock readings of the rate limiter and the ranks of a search.
Database transactions appear as atomic steps on committed state, locks as steps that wait for each
other.

## Model

| member | source | states |
|---|---|---|
| `ChangeFeed.WatermarkIsSettled` | workers/webhooks/dispatch_webhooks.py:533-544 | Watermark safety: if twice the longest writing transaction is below the lag, no open transaction holds a `seq` at or below the watermark a reader computes, and none can get one; gaps from rollbacks included. |
| `ChangeFeed.SettledStaysSettled` | packages/shared/billcommons_shared/watermark.py:17-22 | A settled watermark stays settled whatever writers, deletes and the clock do next. |
| `ChangeFeed.FeedStepKeepsInv` | packages/schema/billcommons_schema/models.py:257-264 | Every step of the writers keeps the relation the argument rests on: rows are stamped with the start of their transaction, and whoever holds a smaller `seq` started within one transaction length of that stamp. |
| `DeliveryProtocol.NoEventIsLostIff` | packages/shared/billcommons_shared/watermark.py:13-22 | The promise over all runs of writers, clock, concurrent drains and crashes (every in-scope row committed between the starting and the current cursor was accepted, audited as skipped, or had lost its bill) holds if and only if twice the longest transaction is below the lag. |
| `DeliveryProtocol.NoEventIsLost` | workers/webhooks/dispatch_webhooks.py:1399-1625 | The safe half, with what the other fates mean: bypassed rows are rows of deleted bills, accepted and skipped ones are committed, in scope and beyond the starting cursor, and the cursor itself is settled. |
| `DeliveryProtocol.LongTransactionsLoseAnEvent` | packages/shared/billcommons_shared/watermark.py:21-22 | For every lag up to twice the longest transaction there is a run that moves the cursor past a row that commits afterwards; a lag above the longest transaction alone does not prevent it. |
| `DeliveryProtocol.RunKeepsInv` | workers/webhooks/dispatch_webhooks.py:1363-1625 | The invariant holds along every run and the cursor never moves back. |
| `DeliveryProtocol.AdvanceKeepsInv` | workers/webhooks/dispatch_webhooks.py:1275-1302 | Raising the cursor to the greatest of two values is safe even when other drains of the same row moved it meanwhile, because each drain accounts for the stretch from its own cursor. |
| `DeliveryProtocol.EmptyKeepsInv` | workers/webhooks/dispatch_webhooks.py:1429-1450 | An empty batch passes over nothing that is still deliverable: to the last raw row if bills are missing, to the watermark only if the page had no row. |
| `DeliveryProtocol.PostKeepsInv` | workers/webhooks/dispatch_webhooks.py:1541-1571 | A 2xx for any prefix that the halving loop leaves accounts for every row up to that prefix's last event. |
| `DeliveryProtocol.SkipKeepsInv` | workers/webhooks/dispatch_webhooks.py:1482-1527 | Passing over one oversized event with an audit row accounts for every row up to it. |
| `DeliveryProtocol.FeedingKeepsInv` | workers/webhooks/dispatch_webhooks.py:1426-1427 | Writers may commit, abort and delete bills between the read of a batch and its POST without breaking a drain under way. |
| `Dispatcher.Subscription.DrainOne` | workers/webhooks/dispatch_webhooks.py:1363-1625 | The drain loop, with writers acting between its rounds and between the two queries of a round: the cursor only rises and never passes the watermark; every position it passes was passed in one round, and a row that round saw there was in its batch, accepted or skipped, or had no bill in that very round; batches are ascending, disjoint and strictly increasing, every POSTed body is within the cap and only a single event that cannot fit is skipped; what counts as accepted was in a POST of a round that was answered with a 2xx; each batch leaves exactly its audit row; the drain stops exactly on an unknown scope, which disables the row, on a refusal or on a skip that disables it, and a disable leaves its reason, its time and its notice and is the only thing that touches them; only the last batch can be refused; a round is begun only before the deadline, so a drain that starts in time makes at least one, and it ends because the deadline has passed, because it was stopped, or because nothing deliverable was left as its last round saw it; the number it reports as sent is that of the distinct events accepted; the loop ends. |
| `Dispatcher.Subscription.Round` | workers/webhooks/dispatch_webhooks.py:1399-1456 | One round goes on only with a strictly greater cursor, ends by itself only when it saw nothing deliverable left, and stops exactly on an unknown scope, a refusal (any answer but a 2xx) or a skip that disabled the row. |
| `Dispatcher.Subscription.PassPage` | workers/webhooks/dispatch_webhooks.py:1429-1450 | Without events the cursor moves to the last raw row, or to the watermark if there was none, and no deliverable row is passed. |
| `Dispatcher.Subscription.SendBatch` | workers/webhooks/dispatch_webhooks.py:1451-1571 | With events, what the halving loop leaves of them is POSTed or skipped and judged by the answer: the batch is a prefix of what was fetched, and the round calls for another exactly when something is left over. |
| `Dispatcher.Subscription.Offer` | workers/webhooks/dispatch_webhooks.py:1482-1541 | A batch that cannot fit is skipped, any other is POSTed and counts as accepted exactly if the round was answered with a 2xx; the cursor stays on a refusal and moves to the last event otherwise. |
| `Dispatcher.Subscription.Deliver` | workers/webhooks/dispatch_webhooks.py:1541-1625 | Accepted exactly on a 2xx; only then does the cursor move, to the greater of its value and the last event; exactly one audit row describing the batch is added; a refusal sets activity, reason and the next attempt as the history and the receiver's delay say. |
| `Dispatcher.Subscription.FailDelivery` | workers/webhooks/dispatch_webhooks.py:1544-1625 | A failed attempt leaves the row active exactly when its history meets none of the four disable rules (410; three hard 4xx in a row; 2160 skips in a row; real failures only for more than 72 hours), and is disabled with the reason of the first one met otherwise; an active row is next due after the receiver's own delay for a 429 that names one, and after the backoff for everything else; the cursor stays. |
| `Dispatcher.Subscription.RetryOrDisable` | workers/webhooks/dispatch_webhooks.py:1577-1615 | The four failure branches decide as the counters say, in the order 410, 429, hard 4xx, everything else. |
| `Dispatcher.Subscription.RecoverFromCrash` | workers/webhooks/dispatch_webhooks.py:1698-1715 | An exception in a drain counts as an `internal` failure with an audit row without events: it is retried or disables by the 72-hour rule exactly as the attempt history says, and the cursor stays. |
| `Dispatcher.Subscription.AcceptDelivery` | workers/webhooks/dispatch_webhooks.py:1559-1568 | A 2xx resets the counters, moves the cursor monotonically and appends its audit row, keeping the row's invariant. |
| `Dispatcher.Subscription.SkipOversized` | workers/webhooks/dispatch_webhooks.py:1482-1527 | A skip moves the cursor past one event, appends a `payload_too_large` audit row without status and disables exactly when the run of skips is long enough. |
| `Dispatcher.Subscription.RecordFailure` | workers/webhooks/dispatch_webhooks.py:1094-1125 | The counters after one failed attempt; cursor and activity are untouched. |
| `Dispatcher.Subscription.RecordSkip` | workers/webhooks/dispatch_webhooks.py:1131-1166 | The counters after one skip, which clears the failing-since clock. |
| `Dispatcher.Subscription.MaybeAutoDisable` | workers/webhooks/dispatch_webhooks.py:1263-1272 | Disables exactly when the failing-since clock is older than 72 hours, and otherwise changes nothing. |
| `Dispatcher.FitBatch` | workers/webhooks/dispatch_webhooks.py:1460-1480 | The halving loop ends with a non-empty prefix that fits or is a single event; `has_more` is raised exactly when something was cut; a batch that fitted is left whole. |
| `Dispatcher.FetchPageIsPage` | workers/webhooks/dispatch_webhooks.py:1333-1347 | The paged query returns what the protocol demands of a fetch: ascending, in scope, in the window, and complete up to its last row or the watermark. |
| `Dispatcher.CutPageLeavesARow` | workers/webhooks/dispatch_webhooks.py:1333-1347 | A page says that there is more if and only if a wanted row of the window is left out of it, and then it has exactly 100 rows; wanted is what is about a watched bill and of an admitted kind, or of any kind if none is named. |
| `Dispatcher.BatchStaysInPlace` | workers/webhooks/dispatch_webhooks.py:1333-1360 | A batch is an ascending stretch of what its round fetched, in scope, within the window, with every bill present, and the cursor ends at its last event. |
| `Dispatcher.BatchAccounts` | workers/webhooks/dispatch_webhooks.py:1333-1360 | Nothing between the cursor and the end of the batch is left out but rows whose bill that round found missing; when the batch was all there was, nothing deliverable is left. |
| `Dispatcher.EmptyRoundAccounts` | workers/webhooks/dispatch_webhooks.py:1429-1450 | A page without bills moves the cursor strictly when there is more, and passes only rows whose bill that round found missing. |
| `Dispatcher.DrainAccounts` | workers/webhooks/dispatch_webhooks.py:1399-1571 | Over all rounds of a drain: each accounts for the rows it passed, every passed position belongs to a round, and later batches come after earlier ones. |
| `Dispatcher.HandledRightly` | workers/webhooks/dispatch_webhooks.py:1399-1571 | Whatever a drain counts as accepted was in a body within the cap whose POST was answered with a 2xx in that round; whatever it skips exceeds the cap on its own. |
| `Dispatcher.SentAreAccepted` | workers/webhooks/dispatch_webhooks.py:1399-1571 | The number of events a drain reports as sent is the number of distinct events in its accepted batches. |
| `Dispatcher.ReplayOneMore` | workers/webhooks/dispatch_webhooks.py:1094-1176 | Appending an attempt to the record of a live activation steps the counters as the code does and keeps the activation well formed. |
| `Refinement.RoundIsARun` | workers/webhooks/dispatch_webhooks.py:1399-1625 | Refinement: whatever one round of the code does to the cursor and with its batch, a run of protocol steps does, whatever writers do before its first query, between its two queries, before the POST and before the record; it goes on exactly when the code fetches again. |
| `Refinement.FilteredBatchHappens` | workers/webhooks/dispatch_webhooks.py:1429-1444 | The case the join filter is for is among them: a bill deleted between the two queries leaves a page with a row and a batch with none. |
| `Refinement.DrainIsARun` | workers/webhooks/dispatch_webhooks.py:1363-1625 | All rounds of a drain together, with writers acting between and inside them, are a run of the protocol with the same cursor and the same events accepted and skipped. |
| `Refinement.DrainLosesNothing` | workers/webhooks/dispatch_webhooks.py:1363-1625 | From any reachable state of the protocol, after a drain of the code behind the watermark of its tick, with writers acting all the while, nothing behind the new cursor is lost, when the lag exceeds twice the longest transaction; every event it newly counts as accepted was in a POST answered with a 2xx, every newly skipped one exceeds the cap on its own. |
| `FailureHistory.CountersAreExact` | workers/webhooks/dispatch_webhooks.py:1094-1176 | `consecutive_failures` is the length of the trailing run of one error class, `last_error` its class, and `failing_since` the time of the first real failure since the last success or skip, for every history. |
| `FailureHistory.VerdictIsExactly` | workers/webhooks/dispatch_webhooks.py:1573-1625 | Over every history of one activation, in terms of its attempts alone: the last attempt disables if and only if it meets one of the four rules, with the reason of the first that it meets. |
| `FailureHistory.ClassesAreApart` | workers/webhooks/dispatch_webhooks.py:268-306 | Two response statuses count towards the same run of failures if and only if they are of one family: success, hard 4xx with 410, 429, other 4xx, everything else. |
| `FailureHistory.ThreeStrikesExactly` | workers/webhooks/dispatch_webhooks.py:1583-1592 | The hard-4xx rule fires exactly when the last three attempts were all hard 4xx. |
| `FailureHistory.SkipRunExactly` | workers/webhooks/dispatch_webhooks.py:1510-1516 | The skip rule fires exactly on 2160 skips in a row. |
| `FailureHistory.SeventyTwoHoursExactly` | workers/webhooks/dispatch_webhooks.py:1263-1272 | The 72-hour rule fires exactly on an unbroken run of real failures older than 72 hours, unless an immediate rule fires on the same attempt. |
| `FailureHistory.AttemptOrdinalIsExact` | workers/webhooks/dispatch_webhooks.py:1179-1202 | The attempt ordinal is one more than the trailing run of failures the receiver saw; skips do not inflate it. |
| `Rotation.EverySubscriptionIsServed` | workers/webhooks/dispatch_webhooks.py:1060-1091 | Starvation freedom: n always-due subscriptions are all served within ceil(n/k) ticks if each tick stamps at least the first k of the rotation. |
| `Rotation.UnstampedKeepTheirPlace` | workers/webhooks/dispatch_webhooks.py:1073-1075 | A subscription a deadline left unstamped keeps its order among the unstamped and is strictly ahead of everyone stamped. |
| `Rotation.WaitingComeFirst` | workers/webhooks/dispatch_webhooks.py:1073-1075 | The front of the rotation holds only subscriptions not attempted since a given time, as long as there are any. |
| `Rotation.SortIsOrdered` | workers/webhooks/dispatch_webhooks.py:1060-1075 | The rotation is ordered by last attempt, never-attempted first. |
| `Seats.SeatCapsAlwaysHold` | workers/webhooks/dispatch_webhooks.py:927-998 | After every interleaving of lock-taking count-then-decide promotions and reactivations with creations, disables and deletes, no more than 500 subscriptions are active and verified, and no more than 10 of one host. |
| `Seats.DecideKeepsInv` | workers/webhooks/dispatch_webhooks.py:938-998 | A decision taken on counts that are older than itself still respects both caps, because only seats can have been given up since. |
| `Seats.PromotionIsExact` | workers/webhooks/dispatch_webhooks.py:927-998 | A promotion nobody disturbs verifies its subscription if and only if fewer than 10 are seated on its host and fewer than 500 in all, and disables it otherwise; nothing else changes. |
| `Seats.SeatsFillUp` | workers/webhooks/dispatch_webhooks.py:938-984 | The caps are attained: for every number up to 500 some run seats that many, ten on each of their hosts. |
| `Notices.NoticesAreExactIff` | workers/webhooks/dispatch_webhooks.py:1249-1260 | No lifecycle notice is lost and none invented, under any interleaving of promotion, disables with a stale session, and mailers that crash, if and only if the combined value is available. |
| `Notices.FallbackLosesTheVerification` | workers/webhooks/dispatch_webhooks.py:1252-1260 | Without it a disable before the next mailing forgets the verification. |
| `Notices.EverythingIsMailed` | workers/alerts/send_alerts.py:250-293 | Exactness is not bought by silence: from every reachable state with a pending notice a mailer that nobody disturbs leaves nothing pending and everything that has occurred mailed. |
| `Notices.StepKeepsInv` | workers/webhooks/dispatch_webhooks.py:994-998 | Every step keeps: mailed facts together with pending facts are exactly the facts that occurred. |
| `Notices.Outbox.DrainNotifications` | workers/alerts/send_alerts.py:250-293 | The mailer's loop, with the dispatcher writing flags while mails are on their way: a flag ends cleared exactly if it was read, went out, still had the value that was sent when it was compared, and was not written again; every other flag has its last value; the counts are right. |
| `Notices.OnlySentValuesAreCleared` | workers/alerts/send_alerts.py:275-290 | A flag ends cleared only if the last value written to it is the one that went out. |
| `Notices.SentValuesAreCleared` | workers/alerts/send_alerts.py:275-290 | Conversely, a value that went out and to which nothing was written meanwhile is cleared. |
| `KeyCache.CacheIsCoherentIff` | apps/api/billcommons_api/api_keys.py:215-250 | Cache coherence at every bound and for any keys: after a change is committed and invalidated no later call returns an older row, for any readers under way, if and only if there are no keys at all, or tombstones of one key never go backwards and either there is room for one of each key or no tombstone of a key with a row in flight is evicted. |
| `KeyCache.NoVictim` | apps/api/billcommons_api/api_keys.py:228-231 | With room for every key no tombstone is ever evicted. |
| `KeyCache.TombstoneKeepsReader` | apps/api/billcommons_api/api_keys.py:394-404 | A reader holding a row older than an invalidated change began its read no later than the tombstone, so its result is not cached. |
| `KeyCache.UnorderedTombstonesServeStaleRows` | apps/api/billcommons_api/api_keys.py:225-232 | For any keys and bounds, a run in which two invalidations of one key read the clock in one order and take the lock in the other serves a stale row. |
| `KeyCache.UnguardedEvictionServesStaleRows` | apps/api/billcommons_api/api_keys.py:228-231 | At every bound and for any more keys than fit, a run in which invalidations of other keys evict a tombstone that is still needed serves a stale row. |
| `KeyCache.StepKeepsInv` | apps/api/billcommons_api/api_keys.py:351-410 | Every step of readers and mutators keeps the cache fresh and every loaded row fresh or refusable. |
| `KeyCache.BoundsAlwaysHold` | apps/api/billcommons_api/api_keys.py:192-232 | In every reachable state, under any discipline, neither table has outgrown its bound. |
| `KeyCache.Cache.Invalidate` | apps/api/billcommons_api/api_keys.py:219-232 | The key leaves the cache and no other does or changes its place; its tombstone is the given clock reading; first in, first out: only a new key at the bound displaces a tombstone, the one longest in line, and all others stay as they were. |
| `KeyCache.Cache.StoreUnlessStale` | apps/api/billcommons_api/api_keys.py:392-409 | A row is stored, for 60 seconds, unless its read began at or before the tombstone of its key; only a new key at the bound displaces an entry, the one longest in line, and all others stay as they were. |
| `KeyLifecycle.KeyLimitsHold` | apps/api/billcommons_api/api_keys.py:468-632 | After every run of mint, first login, revoke, offering and claiming a reveal, the two halves of a rotation, expiry and time: at most 2 active, 1 unexpired rotating and 3 usable keys, and at most one automatic key ever. |
| `KeyLifecycle.RevocationIsFinalIff` | apps/api/billcommons_api/api_keys.py:261-295 | Over every run a revoked key stays revoked if and only if no expiry of that key, which does not take the customer lock, takes effect between the check and the write of its rotation. |
| `KeyLifecycle.CeilingNeverDecides` | apps/api/billcommons_api/api_keys.py:509-514 | The ceiling of three usable keys never decides on its own: within the limits minting depends on the active keys alone and rotating on the key and a rotation in flight. |
| `KeyLifecycle.RevocationIsFinal` | apps/api/billcommons_api/api_keys.py:635-664 | Without expiries of the key its revocation is final with respect to every operation that takes the lock. |
| `KeyLifecycle.RevokedForGood` | apps/api/billcommons_api/api_keys.py:635-664 | From the revocation of a key on, taken while no rotation holds the lock, no run without expiries of the key ever has it usable again. |
| `KeyLifecycle.OpsTakeEffect` | apps/api/billcommons_api/api_keys.py:496-632 | What the operations are for, when nothing stands in their way: a mint below the limit adds a key usable without end; a rotation leaves the old key usable for 24 hours beside a successor usable without end, and no other key changes; a key that is not revealed within its 24 hours is revoked and before that can be revealed. |
| `KeyLifecycle.RotationOverwritesExpiry` | apps/api/billcommons_api/api_keys.py:578-617 | A run of the other kind, from a customer without keys: a key is minted and never revealed, its rotation is checked, its expiry acts, the rotation is written; the key is revoked and usable again. |
| `KeyLifecycle.RotationKeepsLimits` | apps/api/billcommons_api/api_keys.py:578-632 | The write of a rotation keeps all limits, whether or not its key expired since the check. |
| `KeyLifecycle.Customer.CountKeys` | apps/api/billcommons_api/api_keys.py:468-493 | One pass over the rows gives the number of active and of usable keys. |
| `KeyLifecycle.Customer.Mint` | apps/api/billcommons_api/api_keys.py:496-528 | A fresh active key is appended exactly when both ceilings allow it; otherwise nothing changes. |
| `KeyLifecycle.Customer.MintIfFirstLogin` | apps/api/billcommons_api/api_keys.py:531-575 | Mints exactly for a customer with no key of any status, no billing identity and no subscription. |
| `KeyLifecycle.Customer.Rotate` | apps/api/billcommons_api/api_keys.py:578-632 | Exactly an active key without another rotation in flight, below the ceiling, is usable for 24 hours more, and its successor, which points back to it, without end; no other key changes. |
| `FixedWindow.AdmissionBounds` | apps/api/billcommons_api/rate_limit.py:552-569 | Over every run of a counter shared by many keys, plain or bounded, an unevicted key has at most twice the limit admitted in any interval of one window length. |
| `FixedWindow.WindowAdmitsTheLimit` | apps/api/billcommons_api/rate_limit.py:552-569 | In such a run a window admits exactly the limit, or all its calls if they are fewer: from any call that finds no live bucket of its key to the end of the window it opens. |
| `FixedWindow.NthHitIsAdmittedIff` | apps/api/billcommons_api/rate_limit.py:552-569 | The n-th hit of a window is admitted if and only if n is at most the limit. |
| `FixedWindow.DecideTells` | apps/api/billcommons_api/rate_limit.py:560-569 | The answer to a hit in plain numbers: allowed exactly up to the limit, what remains of it, and a reset time that is the first whole second at or after the end of the window, and at least one second. |
| `FixedWindow.TwiceTheLimit` | apps/api/billcommons_api/rate_limit.py:552-569 | The bound for one bucket and every interval. |
| `FixedWindow.WindowAdmitsWhatIsLeft` | apps/api/billcommons_api/rate_limit.py:552-569 | From a bucket only the rest of its limit is admitted up to the end of its window. |
| `FixedWindow.KeysDoNotInterfere` | apps/api/billcommons_api/rate_limit.py:520-569 | A key that is not evicted is answered as if it had the counter for itself. |
| `FixedWindow.CapHolds` | apps/api/billcommons_api/rate_limit.py:520-550 | A hit keeps the dictionary within `max_keys`. |
| `FixedWindow.CapAlwaysHolds` | apps/api/billcommons_api/rate_limit.py:520-550 | In no state of any run of hits, peeks and evictions does the dictionary exceed `max_keys`. |
| `FixedWindow.SweepIsInvisible` | apps/api/billcommons_api/rate_limit.py:498-511 | Sweeping changes no later answer for any key. |
| `FixedWindow.FixedWindowCounter.Sweep` | apps/api/billcommons_api/rate_limit.py:498-511 | At most once per window, exactly the expired buckets go. |
| `FixedWindow.FixedWindowCounter.EnsureCapacityForNewKey` | apps/api/billcommons_api/rate_limit.py:520-550 | At the cap the expired buckets go, and only if that is not enough the oldest tenth of the rest. |
| `FixedWindow.FixedWindowCounter.Allow` | apps/api/billcommons_api/rate_limit.py:552-569 | The live bucket of the key keeps its start and counts one more, a dead one starts now with one; the answer is decided by that count; no other live bucket changes unless the cap evicts it. |
| `FixedWindow.FixedWindowCounter.Peek` | apps/api/billcommons_api/rate_limit.py:571-611 | The answer is what `Allow` would give at the same clock reading, and no live count changes. |
| `FixedWindow.BoundedFixedWindowCounter.Allow` | apps/api/billcommons_api/rate_limit.py:625-647 | The answer is that of the plain counter; before it acts, a new key at the cap has displaced the bucket that was inserted first; a new key goes to the end of the line and no other key moves. |
| `FixedWindow.BoundedEvictsOne` | apps/api/billcommons_api/rate_limit.py:641-647 | A new key costs at most that one bucket, never the oldest tenth, and the cap holds. |
| `Admission.Dispatch` | apps/api/billcommons_api/rate_limit.py:791-811 | All or nothing while the clock moves between the phases: a refused request changes no live count; an admitted one is allowed by every bucket and adds one to each (same start and one more, or a new window with one); the advertised wait is that of the slowest refusing bucket. |
| `Admission.RefusedAndRepeated` | apps/api/billcommons_api/rate_limit.py:675-717 | A request that `Dispatch` refuses, repeated after the advertised wait or later with no other arrivals, is admitted by `Dispatch` if and only if no limit is zero. |
| `Admission.StillAllowed` | apps/api/billcommons_api/rate_limit.py:784-790 | A hit that a peek found admissible stays admissible at every later clock reading. |
| `Admission.RetryAfterAndBinding` | apps/api/billcommons_api/rate_limit.py:675-717 | Nothing binds exactly when nothing refused; otherwise the first refusing bucket with the longest wait binds, and its wait bounds all others. |
| `Admission.PeekAll` | apps/api/billcommons_api/rate_limit.py:792-796 | The answers of all counters, with every live count unchanged. |
| `Admission.ChargeInOrder` | apps/api/billcommons_api/quota.py:300-313 | The anonymous tiers, the daily ones with bounded counters, are charged in order up to the first refusal; the tiers behind it are untouched. |
| `Quota.OvershootIsBounded` | apps/api/billcommons_api/quota.py:661-733 | Over every run, also across midnight, the requests metered on a day are less than the limit plus the number of slots, and so are the heavy ones, counted from the steps of the run. |
| `Quota.RowsAreMetered` | apps/api/billcommons_api/quota.py:401-430 | The usage rows are an account of the run: each day's numbers are those of the requests metered on that day, in all and heavy. |
| `Quota.OvershootIsReached` | apps/api/billcommons_api/quota.py:679-733 | Both bounds are attained: for every configuration some run meters limit plus slots minus one requests on a day, and as many heavy ones by the limit that binds them. |
| `Quota.ContractIsBarelyExceeded` | packages/shared/billcommons_shared/plans.py:65-72 | In terms of the contract, for requests and for heavy requests: at most a tenth above the agreed number, plus less than one request a slot; a contract of none gives none. |
| `Quota.GraceIsATenth` | packages/shared/billcommons_shared/plans.py:65-72 | The enforced limit is a tenth above the contract, rounded down. |
| `Quota.CheckKeepsInv` | apps/api/billcommons_api/quota.py:679-698 | A check against a count that others are about to raise leaves room for every request that holds a slot. |
| `Quota.MidnightKeepsInv` | apps/api/billcommons_api/quota.py:401-430 | What is pending at midnight is counted on the new day, within that day's bound. |
| `Quota.ConcurrencyLimit.Acquire` | apps/api/billcommons_api/concurrency.py:92-98 | A slot is taken exactly below the ceiling; a refusal is counted and takes none. |
| `Search.CappedDateSortRefines` | apps/api/billcommons_api/search.py:397-525 | Under a date sort with only the bills branch saturated, every page that ends within the cap equals that page of the whole sorted union. |
| `Search.NotCappedIsExhaustive` | apps/api/billcommons_api/search.py:397-511 | When neither flag is up every match is ranked with its best rank and the total is exact. |
| `Search.AllRankedIsBest` | apps/api/billcommons_api/search.py:397-511 | That is: a bill is found if and only if it or one of its documents matches, with the best of their ranks. |
| `Search.ResultIsInOrder` | apps/api/billcommons_api/search.py:226-246 | Any two rows of a result are in the order of the sort that was asked for: dates descending with undated rows last and ids ascending among equals; jurisdiction and number ascending; rank descending and ids ascending among equals. |
| `Search.SampleIsBest` | apps/api/billcommons_api/search.py:398-477 | A row that a saturated branch leaves out is no better than any it keeps, by the date under a date sort and by the id otherwise, and then the branch keeps exactly as many as the cap. |
| `Search.FlagsAreExact` | apps/api/billcommons_api/search.py:489-503 | Each flag is up exactly when its branch has more matches than the cap. |
| `Search.PagesCoverIff` | apps/api/billcommons_api/search.py:217-224 | Pages fetched by separate requests show every ranked row, whichever way ties fall, if and only if no two tied rows meet at the end of a page. |
| `Search.PagesConcatenate` | apps/api/billcommons_api/search.py:217-224 | Under every sort but the one by jurisdiction the pages put together are the whole ranked list. |
| `Search.SaturatedDocumentsRefineIff` | apps/api/billcommons_api/search.py:256-269 | Over the number of bills that match through documents, of which only the last has a date: the pages within the cap are those of the whole if and only if that number is at most the cap (or the cap leaves no page). |
| `Search.SaturatedDocumentsLoseTheNewest` | apps/api/billcommons_api/search.py:256-269 | Beyond the cap the newest bill is on no page. |
| `Search.TwinsCanBeMissed` | apps/api/billcommons_api/search.py:236-246 | Two bills of one jurisdiction with the same number, one row a page: separate requests need not show both. |
| `Search.TrimIsCut` | apps/api/billcommons_api/search.py:398-434 | Trimming the probe by the probe's own order keeps exactly the first rows of the branch. |
| `Search.DocRanksAreBest` | apps/api/billcommons_api/search.py:435-477 | The document branch has one row for each bill with a matching document, with the best rank among them. |
| `Search.SomePlanExecutes` | apps/api/billcommons_api/search.py:397-525 | Every query on every snapshot has a result, so the statements about all results are about some. |
| `PathNormalization.NormalizePathAndQuery` | packages/shared/billcommons_shared/safe_http.py:192-241 | The loop computes the specification that the lemmas below are about. |
| `PathNormalization.NormalizationKeepsTheMeaning` | packages/shared/billcommons_shared/safe_http.py:192-241 | For every string without lone surrogates the result has only legal characters and percent-decodes (section 2.1 of RFC 3986) to the same bytes as the input. |
| `PathNormalization.RefusedIffSurrogate` | packages/shared/billcommons_shared/safe_http.py:219-241 | A string is refused exactly when it has a lone surrogate; the final check never fails. |
| `PathNormalization.LegalIffFixed` | packages/shared/billcommons_shared/safe_http.py:187-189 | The strings that match the alphabet are exactly those normalisation leaves alone. |
| `PathNormalization.NormalizationIsIdempotent` | packages/shared/billcommons_shared/safe_http.py:192-241 | Normalising twice is normalising once. |
| `PathNormalization.LegalIsPrintable` | packages/shared/billcommons_shared/safe_http.py:192-207 | No control character, blank or non-ASCII character is left in a result. |
| `PathNormalization.OneCharacter` | packages/shared/billcommons_shared/safe_http.py:170-189 | Which characters may stand by themselves, by code point: letters, digits and the nineteen marks of an RFC 3986 path and query. |
| `PathNormalization.EqualMeaningsAreEqualTexts` | packages/shared/billcommons_shared/safe_http.py:228-232 | Texts without escapes that stand for the same bytes are the same text. |
| `PathNormalization.Utf8IsUniquelyReadable` | packages/shared/billcommons_shared/safe_http.py:228-232 | The UTF-8 bytes of a character determine it and where it ends. |
| `PathNormalization.EscapeIsInverse` | packages/shared/billcommons_shared/safe_http.py:231-232 | An escape made here is upper-case and stands for its byte. |
| `Cursor.CursorRoundTrip` | packages/shared/billcommons_shared/cursor.py:39-74 | For every integer, decoding its cursor gives it back if it is in [0, 2^63) and is refused otherwise. |
| `Cursor.EncodeIsInjective` | packages/shared/billcommons_shared/cursor.py:39-41 | No two integers share a cursor. |
| `Cursor.CursorIsUrlSafe` | packages/shared/billcommons_shared/cursor.py:41 | A cursor has only URL-safe symbols and no padding. |
| `Cursor.Base64IsRead` | packages/shared/billcommons_shared/cursor.py:41-47 | The lenient decoder reads every byte string back from its padded encoding (section 5 of RFC 4648). |
| `Cursor.Base64IsTheNumber` | packages/shared/billcommons_shared/cursor.py:41-41 | The encoding is the number of the bytes written in base 64, most significant symbol first and filled up with zero bits. |
| `Cursor.OthersArePassedOver` | packages/shared/billcommons_shared/cursor.py:45-47 | The decoder is lenient: a character of neither alphabet changes nothing wherever it stands. |
| `Cursor.DecodesIff` | packages/shared/billcommons_shared/cursor.py:44-74 | A text is a cursor for a number if and only if the object in it has version 1 (or `true`) and that number as its `seq`, within [0, 2^63). |
| `Cursor.PaddingIsRestored` | packages/shared/billcommons_shared/cursor.py:41-45 | The padding that was stripped is restored from the length alone. |
| `Cursor.TextIsRead` | packages/shared/billcommons_shared/cursor.py:40-47 | The printed object is read back with both members, for every integer. |
| `Payload.PayloadCursorIsTheNewCursor` | workers/webhooks/dispatch_webhooks.py:514 | The cursor in an accepted body decodes to the cursor that the round leaves the subscription with, and to the last `seq` of its audit row. |
| `Payload.ReceiverGoesOn` | workers/webhooks/dispatch_webhooks.py:495-514 | A receiver that goes on from that cursor gets what comes after the events it has, and none of them again. |
| `BillNumber.NormalizeIs` | packages/shared/billcommons_shared/normalize.py:32-54 | Accepted are exactly the strings whose letters and digits form letters-digits-letters; the result keeps both letter groups and all digits but leading zeros, with one blank after a prefix. |
| `BillNumber.NormalizeSpelledOut` | packages/shared/billcommons_shared/normalize.py:41-54 | Capitals, any number of zeros, a number, capitals: the zeros go and one blank comes before the number, if there are capitals before it. |
| `BillNumber.NormalizeIsIdempotent` | packages/shared/billcommons_shared/normalize.py:32-54 | Normalising a result changes nothing. |
| `BillNumber.SameNumberIff` | packages/shared/billcommons_shared/normalize.py:3-15 | Two spellings are normalised alike if and only if they agree in their letters and in the value of their digits. |
| `BillNumber.CompactIsCore` | packages/shared/billcommons_shared/normalize.py:41-47 | The three rewrites before the pattern keep exactly the ASCII letters and digits, in upper case. |
| `BillNumber.SplitIsFound` | packages/shared/billcommons_shared/normalize.py:29-29 | A string splits in one way only and the pattern finds it. |
| `BillNumber.SlugRoundTrip` | apps/web/lib/billUrl.ts:19-39 | Every normalised identifier comes back from its slug. |
| `BillNumber.SlugKeepsTheNumberIff` | apps/web/lib/billUrl.ts:19-39 | Any string normalises the same after a trip through its slug if and only if it has neither of the two characters outside ASCII whose lower case is an ASCII letter, or is refused both as it is and with them folded. |
| `BillNumber.SlugFolds` | apps/web/lib/billUrl.ts:19-39 | What every string becomes on that trip: it normalises as it would with those two characters replaced by their ASCII capitals. |
| `BillNumber.BillSlugIsInjective` | apps/web/lib/billUrl.ts:28-30 | No two normalised identifiers share a slug. |
| `BillNumber.SlugSpelledOut` | apps/web/lib/billUrl.ts:19-30 | The slug of a normalised identifier is the identifier in small letters with a hyphen for the blank. |
| `BillNumber.SlugIffFixed` | apps/web/lib/billUrl.ts:19-25 | Slugs, that is letters and digits with single inner hyphens, are exactly the strings slugging leaves alone. |
| `BillNumber.KelvinSignGainsALetter` | apps/web/lib/billUrl.ts:20-21 | Concrete strings that do not come back, one for each of the two characters. |
| `Decimal.DigitsAreRead` | packages/shared/billcommons_shared/normalize.py:52-52 | A printed number has no leading zero and is read back. |
| `Decimal.ValueIsPrinted` | packages/shared/billcommons_shared/normalize.py:52-52 | Digits without a leading zero are printed again as they were. |

## Left out

- Sockets, TLS, DNS, certificates, signatures, encryption and random key material: they only decide which outcome a step has.
- SQL, the ORM and migration probes other than the one for the combined notice: the columns and constraints are taken to exist.
- Challenges before promotion (`_attempt_challenge`, `run_challenges`: token comparison, attempt limit, deadlines): represented only by the lock-taking promotion in `Seats` and `Notices`.
- Reactivation: represented in `Seats` as a participant that takes the same lock, and absent from a drain and from `Notices`; the counters of `FailureHistory` are those of one activation.
- Dispatcher.Subscription.RecoverFromCrash: the roll-back is the premise that the row is as it was last committed; a failure of the recovery itself is only logged. A row that is no longer active takes the attempt too, and its attempts are then not those of one activation.
- The jitter and the cap of `backoff_delay` and the parsing of Retry-After headers: delays are parameters.
- Dispatcher.Subscription.DrainOne: one drain at a time on the row object; other drains of the same row, which may raise its cursor between two rounds, are in `DeliveryProtocol` only.
- DeliveryProtocol.NoEventIsLostIff: the subscription's filter is fixed for a run, and Postgres' clock does not go back.
- Rotation.EverySubscriptionIsServed: the population is fixed and always due; the thread pool that serves the front of the rotation is the assumption that k of it are stamped.
- KeyCache.CacheIsCoherentIff: a row is represented by its version, and unknown keys, which are never cached, are absent. The re-check of `revoke_at` on a hit, which can only refuse, is left to `KeyLifecycle`'s notion of a usable key.
- KeyLifecycle.Customer.Rotate: the class has the rotation as one step; its two halves, with an expiry between them, are in the runs (`KeyLifecycle.RotationInTwoHalves`).
- KeyLifecycle.KeyLimitsHold: of billing and the account pages only the mint of a key with a reveal and the claim of a reveal are there.
- KeyLifecycle.Customer.Mint: names, plans, hashes and the choice of environment are not part of this model.
- FixedWindow.FixedWindowCounter.Allow: the counter's own lock is the atomicity of the method.
- FixedWindow.BoundedFixedWindowCounter.Allow: the two critical sections of the original, eviction and `allow`, are one.
- Quota.OvershootIsBounded: the factor 1.10 is a rational; one customer, one plan for the run, non-exempt paths; the per-subnet rows and response headers are not part of this model. The pre-check and the metering are atomic each.
- Search: the text match, ranks and highlights are opaque, filters are applied before the model starts, and the fuzzy title fallback and the bill-number lookup are not part of this model.
- Cursor.CursorRoundTrip: the reader of JSON takes objects without nesting, white space, escapes, strings or fractions as values, and refuses everything else; the original accepts such objects when the two members are right. A number of more than 4300 digits cannot be printed by the original.
- BillNumber.NormalizeIs: the original also refuses a missing value and numbers of more than 4300 digits.
- BillNumber.SlugKeepsTheNumberIff: lower case is modelled for ASCII and for the two characters outside ASCII that yield ASCII letters; all others are replaced by hyphens either way.
- PathNormalization.NormalizePathAndQuery: the rest of URL admission (scheme, port, host, address ranges) is settled by reading its branches.
- IP classification tables, token buckets, pagination arithmetic, serializers, coverage ranking, pages and e-mail texts: easy members.
