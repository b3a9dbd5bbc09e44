# Chatfolio: entitlements, quotas and billing, verified

Chatfolio sells plans. A plan is a matrix of feature values; what a user may do right now is resolved
from unexpired admin overrides, then the live subscription, then the free plan, and the result is cached
in Redis under a global catalogue version. Countable actions (recruiter chats, meetings, publishes, AI
tokens) pass a two-layer gate: an atomic Redis counter in front of a durable Postgres row written in the
action's own transaction. Subscriptions come from licence keys that are verified with a seller and claimed
under unique indexes, from trials and from admin grants; they end by revocation, by a failed re-check, or
simply by their date, with an hourly job that only tidies the status column.

This project models that engine and proves what it promises, together with four self-contained
algorithms: the pill selection of the popular searches, the work-hours overlap test, name matching in
chat messages, and the honouring of page aliases; and the vector index with its repair pass.

Time is a natural number of microseconds since 0001-01-01, UTC, on a Gregorian calendar that is itself
proved to be a bijection with calendar fields. Tables are sequences or maps held by classes whose methods
change them in place; every such method states its whole new state, mostly by a function on values, and the
lemmas about runs, interleavings and simulations are about those functions.

| file | content |
|---|---|
| `Calendar`, `Durations`, `Periods` | dates, clamped month arithmetic and stacked terms, quota windows and their keys |
| `Catalog`, `Entitlements`, `EntitlementTables` | plans and their matrices, resolution, overrides, and what every reachable database guarantees |
| `EntitlementCache`, `SlowReads`, `Staleness`, `ReadExactness`, `TornReads` | the versioned cache over whole runs of atomic steps; then one round trip at a time: how old an answer can be, when it is exact, and which requests can tear it |
| `QuotaService`, `QuotaInterleaving`, `TokenBudget` | the gate, one counter under all interleavings, the tallied budget |
| `Billing`, `BillingInvariants`, `Terms`, `ExpiryJob`, `Redemption` | the tables and requests, what every run keeps, what a purchase and a refund do, the job's invisibility, exactly-once redemption |
| `PopularSearch`, `WorkHours`, `NameMatching`, `Aliases`, `SiteRequests`, `EmbeddingIndex` | the independent algorithms |

## Where the code does less than its text says

The model follows the code. Each of these is a lemma at a concrete input beside an exact condition.

- A later purchase can end earlier: month terms are not monotone in their start, because the day is clamped
  and the time of day is kept (`Durations.LaterPurchaseCanEndEarlier`; exactly when: `MonthTermOrder`).
- The row-locked path does not give the same guarantee as the Lua script. It cannot see units that other
  transactions hold reserved in Redis, so two overlapping requests can pass a limit of one
  (`QuotaInterleaving.RowPathCanPassTheLimit`; exactly when: `RowGrantFitsExactlyWhen`,
  `RowPathIsSafeExactlyWhen`, and over whole runs `RunStaysWithinExactlyWhen`). And what it grants is not added
  to a counter that survives, so two requests in a row can pass it, too (`QuotaService.RowGrantIsGrantedTwice`;
  exactly when: `GateIsSafeExactlyWhen`, `ConsumeKeepsPaceExactlyWhen`, `QuotaInterleaving.ScriptIsSafeExactlyWhen`).
- A tally whose increment never runs leaves the counter behind the row, and one whose key is evicted between its
  two Redis calls restarts it from nothing (`QuotaService.FailedTallyLeavesCounterBehind`,
  `EvictedTallyRestartsCounter`; exactly when: `TallyKeepsUp`).
- A read that is overtaken by a commit files what it read before, under the version that is current after, and
  the next read answers it although the commit was followed up and nothing failed
  (`Staleness.RevokedPlanIsStillServed`; what the next read then answers, for every scene, either kind of commit
  and any stage of the read: `ReadExactness.StraddlingReadServesOldTables`; a read that no such commit overtakes
  is exact: `SettledReadsAreExact`).
- A resolution is several statements, and a commit between them can make an answer of parts that were never
  current together (`Staleness.TornReadIsNoResolution`). Which requests can do that is a matter of their kinds and
  of the order in which they land: billing, renaming the free plan or another, editing features, overrides. A read
  is never torn if and only if no request lands before one of a kind that the statements read later, so one request
  alone, or any number of one kind, never tears it (`TornReads.ReadsAreWholeExactlyWhen`).
- Revoking a licence does not always drop the user back to free: a purchase that a later one was stacked on
  has already been replaced, and its months stay in the newer row (`Terms.RefundAfterStackingKeepsBothTerms`;
  exactly when: `RefundEndsItsOwnRowOnly`). For the same reason re-submitting one's own earlier key answers
  "expired" while its months are still running (`EarlierKeyAnswersExpired`; exactly when: `OwnKeyOutcome`).
- The expiry job is not pure housekeeping for trials: a lapsed row still marked ACTIVE makes a trial fail
  with "already used" until the job has run (`Terms.ExpiryJobUnblocksTrial`; exactly when:
  `TrialNeedsNoActiveRow`).
- The work-hours test misses windows that do overlap when their openings on one date are more than a day and
  a window apart (`WorkHours.FarZonesAreMissed`; exactly when: `HoursOverlap`).
- A worker start with edits still queued can restore an older text: the repair job carries the stored text
  and runs after the edit (`EmbeddingIndex.RepairUndoesQueuedEdit`; exactly when: `QueuedEditSurvivesRepair`).

## Model

| member | source | states |
|---|---|---|
| Calendar.FieldsToInstant | src/chatfolio/entitlements/duration.py:7-24 | every instant is the instant of its own calendar fields |
| Calendar.InstantToFields | src/chatfolio/entitlements/duration.py:7-24 | every valid date and time of day is the fields of exactly its instant: no date is skipped or doubled |
| Calendar.InstantOrder | src/chatfolio/entitlements/duration.py:7-24 | later in calendar order is later in time, and conversely |
| Calendar.AddDaysNumber | src/chatfolio/entitlements/duration.py:17-21 | adding n days lands n day numbers on |
| Durations.AddMonthsLands | src/chatfolio/entitlements/duration.py:7-13 | the sum lies in the month that many months on, on the same day or on that month's last day if it is shorter, at the same time of day |
| Durations.ExpiryIsLater | src/chatfolio/entitlements/duration.py:16-24 | a term of at least one unit ends strictly after it starts; only lifetime never ends |
| Durations.MonthTermOrder | src/chatfolio/entitlements/duration.py:7-13 | a later start ends no earlier if and only if clamping does not swap two starts of one month |
| Durations.LaterPurchaseCanEndEarlier | src/chatfolio/entitlements/duration.py:7-13 | 30 January 23:00 plus one month ends after 31 January 01:00 plus one month |
| Durations.DayTermOrder | src/chatfolio/entitlements/duration.py:16-24 | day terms keep the order of their starts |
| Durations.StackedDays | src/chatfolio/services/billing_service.py:238-247 | n stacked terms of c days end exactly n * c days on |
| Durations.StackedMonthsLand | src/chatfolio/services/billing_service.py:238-247 | stacked month terms land in the right month on the smallest clamped day met on the way |
| Durations.StackedMonthsNearOneTerm | src/chatfolio/services/billing_service.py:238-247 | n stacked month terms end in the month of one long term, never later and at most three days earlier, on the same day if and only if no month a term ends in is shorter than that day |
| Durations.StackedByUnit | src/chatfolio/services/billing_service.py:238-247 | the same in the units of `compute_expiry`, yearly and lifetime plans included |
| Periods.WindowIsInterval | src/chatfolio/entitlements/periods.py:18-38 | the window of an instant is the half-open interval from its start to its end: exactly the instants sharing its start |
| Periods.WindowsTileTime | src/chatfolio/entitlements/periods.py:18-38 | every instant lies in its own window, and the next window starts where it ends |
| Periods.SharedWindows | src/chatfolio/entitlements/periods.py:31-38 | two instants share a window if and only if they fall on one date, in one month of one year, or the window is for life |
| Periods.CounterOutlivesWindow | src/chatfolio/services/quota_service.py:193-198 | a counter created anywhere in a window is still there at every instant of it, with three days less a second to spare |
| Periods.KeysNameWindows | src/chatfolio/entitlements/periods.py:8-15 | two instants share a period key if and only if they share a window |
| Periods.KeysNamePeriods | src/chatfolio/entitlements/periods.py:8-15 | keys of different kinds of window never collide |
| Catalog.AcceptedEditIsWellTyped | src/chatfolio/entitlements/catalog.py:229-246 | validation accepts a value if and only if the cell it produces is well typed: one value of the right type, no integer below -1, a period exactly on flow features |
| Catalog.LookupInjective | src/chatfolio/entitlements/catalog.py:29-42 | distinct feature names are distinct features |
| Catalog.SeedsAreComplete | src/chatfolio/entitlements/catalog.py:160-226 | both default plans have a complete, well-typed matrix |
| Catalog.PremiumGrantsMore | src/chatfolio/entitlements/catalog.py:160-226 | the premium plan grants at least what the free plan does of every feature, over the same window |
| Catalog.ApplyEdits | src/chatfolio/services/plan_admin_service.py:185-211 | the loop changes the named cells only, keeps the matrix complete and reports whether anything changed |
| Catalog.EditsKeepComplete | src/chatfolio/services/plan_admin_service.py:168-215 | an accepted edit of a complete matrix leaves it complete |
| Catalog.EditedCells | src/chatfolio/services/plan_admin_service.py:185-211 | an edited cell has the admin's value, and the period it had unless the admin sets another |
| Catalog.PlanTable.CreatePlan | src/chatfolio/services/plan_admin_service.py:63-107 | a new plan copies the cloned one or grants nothing, on a complete matrix; the version moves exactly when a plan was added |
| Catalog.PlanTable.UpdateFeatures | src/chatfolio/services/plan_admin_service.py:168-215 | all or nothing: accepted if and only if every edit is acceptable; every plan stays complete; the version moves exactly when the table changed |
| Catalog.PlanTable.DeletePlan | src/chatfolio/services/plan_admin_service.py:144-164 | only a plan no subscription names and that is not the free fallback goes |
| Catalog.PlanTable.EnsureCatalog | src/chatfolio/entitlements/catalog.py:249-300 | start-up seeds an empty table and completes any other, never touching an edited plan |
| Entitlements.LiveSubscriptionIsTheLiveRow | src/chatfolio/services/entitlement_service.py:51-61 | the query finds a row if and only if there is a live one, and under the one-active index only that one |
| Entitlements.OverlayRows | src/chatfolio/services/entitlement_service.py:76-95 | the loop over the override rows yields the overlaid values and the earliest expiry, in whatever order the rows come |
| Entitlements.ResolveRows | src/chatfolio/services/entitlement_service.py:49-107 | the statement-by-statement resolution is the resolution |
| Entitlements.ResolvedPlan | src/chatfolio/services/entitlement_service.py:49-69 | the plan is that of the user's one row that is ACTIVE and not over, else the free one, else there is no answer |
| Entitlements.ResolvedCells | src/chatfolio/services/entitlement_service.py:71-95 | cell by cell over any database: an override in force decides the int and bool values it gives, the plan the ones it leaves out and always the period |
| Entitlements.OverrideWins | src/chatfolio/services/entitlement_service.py:76-95 | an override in force decides its feature whatever the plan says; without one, the plan does |
| Entitlements.SnapshotHoldsUntilValidUntil | src/chatfolio/services/entitlement_service.py:49-107 | on unchanged tables a snapshot equals the resolution at a later instant if and only if that instant is before its `valid_until` |
| Entitlements.LapsedRowsAreInvisible | src/chatfolio/services/entitlement_service.py:51-61 | the status of rows already over decides no live subscription from then on |
| Entitlements.HousekeepingIsInvisible | src/chatfolio/workers/jobs_billing.py:41-59 | databases that differ in such rows only resolve alike from then on |
| Entitlements.OthersUnaffected | src/chatfolio/services/subscription_admin_service.py:254-256 | a change to one user's rows changes nobody else's resolution, so invalidating one key is enough |
| Entitlements.ResolvedSnapshotsAreWellTyped | src/chatfolio/entitlements/types.py:34-49 | over a valid database every feature resolves to one well-typed value: limits are -1 or more, flow features have a period |
| EntitlementTables.OverrideTable.SetOverride | src/chatfolio/services/subscription_admin_service.py:179-219 | an override is stored if and only if the user and the feature exist, the value is of the feature's type and it has not lapsed already |
| EntitlementTables.OverrideTable.DeleteOverride | src/chatfolio/services/subscription_admin_service.py:221-246 | only a row that exists goes, and only that one |
| EntitlementTables.OverrideOutcome | src/chatfolio/services/subscription_admin_service.py:179-219 | which override requests are accepted, why the others are refused, and that an accepted one writes that row and no other |
| EntitlementTables.DeletionOutcome | src/chatfolio/services/subscription_admin_service.py:221-246 | which deletions are accepted, and that the row goes and no other |
| EntitlementTables.RequestKeepsTables | src/chatfolio/services/plan_admin_service.py:63-215 | every plan, override and billing request keeps the database valid and its subscriptions those of sound billing tables |
| EntitlementTables.GatesAgreeOnEveryResolvedLimit | src/chatfolio/services/quota_service.py:23-30 | in every reachable database every user resolves, every limit is -1 or more, and the Redis script and the row-locked path refuse the same amounts on it |
| EntitlementTables.OverrideTakesEffect | src/chatfolio/services/subscription_admin_service.py:179-219 | an accepted override decides its user's feature at once and changes nobody else's resolution at any time |
| EntitlementTables.DroppedOverrideRestoresPlan | src/chatfolio/services/subscription_admin_service.py:221-246 | dropping it gives the feature back to the plan |
| EntitlementCache.EntitlementService.Get | src/chatfolio/services/entitlement_service.py:32-44 | answers from the visible entry or resolves and files the result for never longer than it is valid |
| EntitlementCache.ReadFills | src/chatfolio/services/entitlement_service.py:32-44 | a read that misses files its answer if and only if that holds for a second or more, for as many whole seconds and 300 at most, and writes nothing else; one that hits writes nothing |
| EntitlementCache.FilledIsFound | src/chatfolio/entitlements/cache.py:47-60 | with Redis answering, the user's next read finds it until then |
| EntitlementCache.InvalidationHides | src/chatfolio/entitlements/cache.py:62-66 | after an invalidation that gets through the user's next lookup misses, and every other user's lookup is as before |
| EntitlementCache.BumpHidesEverything | src/chatfolio/entitlements/cache.py:41-45 | after any run with a healthy Redis, a bump makes every user's next lookup miss |
| EntitlementCache.StepKeepsFresh | src/chatfolio/entitlements/cache.py:33-66 | reads, plan edits with a bump, row changes with an invalidation, the passing of time and evictions keep every visible entry true |
| EntitlementCache.CachedReadsAreExact | src/chatfolio/services/entitlement_service.py:32-44 | over any run with a healthy Redis every read returns the resolution of the current tables at the current instant |
| EntitlementCache.EntriesAreAccounted | src/chatfolio/entitlements/cache.py:47-60 | under any Redis failures every entry was made by a resolution of some earlier tables of the run |
| EntitlementCache.CachedReadsAreBoundedlyStale | src/chatfolio/entitlements/cache.py:13-60 | whatever Redis loses or refuses, a read is the resolution, at the present instant, of tables that were current less than 300 seconds ago |
| SlowReads.AtomicReadIsARun | src/chatfolio/services/entitlement_service.py:32-107 | undisturbed, the Redis commands and SQL statements of a read are the atomic read: same answer, same key space |
| SlowReads.FollowUpsAreRuns | src/chatfolio/entitlements/cache.py:41-66 | undisturbed, the commands of a follow-up are the invalidation, or the bump, as one operation |
| SlowReads.OneStateResolves | src/chatfolio/services/entitlement_service.py:49-107 | statements that all see one state of the tables make up its resolution |
| SlowReads.MixedHolds | src/chatfolio/services/entitlement_service.py:97-107 | a snapshot assembled from different states is reassembled unchanged as long as nothing in it has lapsed |
| Staleness.MoveKeepsAccounts | src/chatfolio/entitlements/cache.py:47-60 | every Redis command, SQL statement, commit and failure keeps each partial read, each filed entry and each answer traceable to the scenes its tables were read in |
| Staleness.OverlappingReadsAreBoundedlyStale | src/chatfolio/services/entitlement_service.py:32-107 | under every interleaving of single round trips and every Redis failure, each table that went into an answer was current less than 300 seconds and one filing delay before the read began, and the answer is what those tables say at an instant while it ran |
| Staleness.UndisturbedMixIsAResolution | src/chatfolio/services/entitlement_service.py:49-107 | if nothing of the user changed between its statements an answer is a resolution |
| Staleness.TornReadIsNoResolution | src/chatfolio/services/entitlement_service.py:49-95 | a plan revoked and an override set between two statements: the answer is the resolution of no state there ever was |
| ReadExactness.MoveKeepsGood | src/chatfolio/entitlements/cache.py:33-66 | with Redis answering and no commit under a read that is midway, every move keeps each entry of the current version true or about to be removed, and each partial read true |
| ReadExactness.SettledReadsAreExact | src/chatfolio/services/entitlement_service.py:32-44 | in such runs a read that begins with nothing outstanding for its user, and that no commit for them overtakes, answers what the tables say at an instant while it runs, the status of the user's lapsed rows aside, and what they say at the moment it answers, unless something in the answer lapses between its clock and that moment |
| ReadExactness.MissesAreExact | src/chatfolio/services/entitlement_service.py:32-44 | so does one that misses, whatever is outstanding |
| ReadExactness.StraddlingReadServesOldTables | src/chatfolio/services/subscription_admin_service.py:254-256 | from every scene: a commit of either kind under a read that is midway, completely followed up, makes the next read, with nothing outstanding and no failure, answer what the first one pieced together from the tables of before and after |
| ReadExactness.OldSnapshotIsServed | src/chatfolio/services/plan_admin_service.py:273-275 | for any databases and either kind of commit: a snapshot of the old tables that is ready when the commit lands is what the next read answers after the commit and all its follow-up |
| TornReads.DescendingRequestsNeverTear | src/chatfolio/services/entitlement_service.py:49-107 | over any run of requests that land while a read is under way, none before one of a kind that is read later, with plans made and dropped among them: the answer, wherever in the run its statements fall, is the resolution of tables that were there while it ran |
| TornReads.InvertedRequestsTear | src/chatfolio/services/entitlement_service.py:49-107 | for every other order of kinds, of any length, some such run on a reachable database and some read of it: the answer is the resolution of none of the tables on the way |
| TornReads.ReadsAreWholeExactlyWhen | src/chatfolio/services/entitlement_service.py:49-107 | so requests of given kinds in a given order leave every read of every user of every reachable database whole if and only if no kind lands before one that is read later |
| Staleness.RevokedPlanIsStillServed | src/chatfolio/services/subscription_admin_service.py:140-163 | a premium plan revoked and invalidated is still answered by the next read |
| QuotaService.GatesAgree | src/chatfolio/services/quota_service.py:29-30 | the script's `limit >= 0` and the row path's `limit != UNLIMITED` are the same check if and only if the limit is a catalogue limit or the amount fits anyway |
| QuotaService.QuotaService.EvalConsume | src/chatfolio/services/quota_service.py:23-31 | the script, as one atomic change of one counter |
| QuotaService.QuotaService.Seed | src/chatfolio/services/quota_service.py:193-198 | fills a missing counter from the row and never touches a present one |
| QuotaService.QuotaService.RedisConsume | src/chatfolio/services/quota_service.py:180-191 | two attempts, each seeding a missing key, decide if and only if the calls they need answer |
| QuotaService.QuotaService.DbConsume | src/chatfolio/services/quota_service.py:225-244 | grants if and only if the row leaves room, and only then adds to it |
| QuotaService.QuotaService.Consume | src/chatfolio/services/quota_service.py:62-78 | which gate answers, what it answers and both layers afterwards, for every pattern of calls that answer, that run without a reply and that never run |
| QuotaService.QuotaService.Release | src/chatfolio/services/quota_service.py:80-89 | both layers go down by the amount and never below zero; the row does so even if Redis is down |
| QuotaService.QuotaService.Used | src/chatfolio/services/quota_service.py:107-118 | the counter, rebuilt from the row if missing, or the row if Redis fails |
| QuotaService.QuotaService.EnsureOpen | src/chatfolio/services/quota_service.py:120-129 | refuses exactly when the usage it could read has reached a finite limit |
| QuotaService.QuotaService.AddUsage | src/chatfolio/services/quota_service.py:91-105 | both layers after a tally, for every such pattern and an eviction in between |
| QuotaService.OpenMeansBelowLimit | src/chatfolio/services/quota_service.py:107-129 | for every store: an action is let in with the budget spent if and only if the counter answers below a limit the row has reached; a conservative store never does that, and stays conservative |
| QuotaService.TallyKeepsUp | src/chatfolio/services/quota_service.py:91-105 | a positive tally always reaches the row and any other does nothing; for every conservative store, the exact patterns of calls after which it still is one |
| QuotaService.GrantStaysWithinLimit | src/chatfolio/services/quota_service.py:62-78 | whatever becomes of the Redis calls a grant raises the durable count by exactly the amount, and leaves it within the limit if and only if the row path gave it or the row had room; with a conservative store it always does |
| QuotaService.AnswersTellUsage | src/chatfolio/services/quota_service.py:62-78 | a grant answers the total the answering layer now holds, a refusal its count and leaves the row alone; no other counter or row changes |
| QuotaService.GateIsSafeExactlyWhen | src/chatfolio/services/quota_service.py:62-78 | every possible grant on a key stays within a limit if and only if its counter is not behind its row or is past the limit |
| QuotaService.ConsumeKeepsPaceExactlyWhen | src/chatfolio/services/quota_service.py:225-244 | a consume keeps the store conservative if and only if Redis answered, nothing was granted, the counter is gone, or it was far enough ahead |
| QuotaService.RowGrantIsGrantedTwice | src/chatfolio/services/quota_service.py:62-78 | limit one, two requests one after the other, Redis down for the first: two units are granted |
| QuotaService.RunIsConservativeExactlyWhen | src/chatfolio/services/quota_service.py:43-54 | over any serial run of consumes, releases, checks and tallies under any failures, every store is conservative if and only if every operation keeps pace |
| QuotaService.RedisGateIsExact | src/chatfolio/services/quota_service.py:180-191 | a consume that Redis answers leaves a conservative store conservative, whatever it answers; it refuses by the standing count |
| QuotaService.ReleaseUndoesConsume | src/chatfolio/services/quota_service.py:80-89 | releasing after a grant restores both layers |
| QuotaService.ReleaseGivesBack | src/chatfolio/services/quota_service.py:80-89 | for every store a release takes the amount off the row and, if its script runs, off the counter, down to nothing at most, and touches no other |
| QuotaService.CountersEqualSuccesses | src/chatfolio/services/chat_service.py:76-108 | conservation: from zero, after any serial run of consumes of which some fail and are released and rolled back, both layers hold the number of successful actions |
| QuotaService.SuccessesWithinLimit | src/chatfolio/services/portfolio_service.py:147-165 | no more actions succeed on a counter than the largest limit it was asked under |
| QuotaInterleaving.StepKeepsInv | src/chatfolio/services/quota_service.py:180-244 | every atomic step of any transaction keeps: a present counter covers committed usage and every reservation, up to the debt |
| QuotaInterleaving.UsageStaysWithinLimitPlusDebt | src/chatfolio/services/quota_service.py:43-54 | in every interleaving committed usage plus reservations is at most the limit plus the units let past the gate by the row path, by a key lost in flight and by actions straddling a window |
| QuotaInterleaving.NeverPastTheLimit | src/chatfolio/services/quota_service.py:43-54 | with Redis answering, no key lost in flight and no straddling action, no interleaving commits more than the limit |
| QuotaInterleaving.RedisErrorsCostRowPathUnits | src/chatfolio/services/quota_service.py:62-78 | with Redis errors and a surviving key the excess is at most the units the row path granted |
| QuotaInterleaving.RowPathCanPassTheLimit | src/chatfolio/services/quota_service.py:225-244 | two transactions, limit one, one Redis error: two units are committed |
| QuotaInterleaving.RowGrantFitsExactlyWhen | src/chatfolio/services/quota_service.py:225-244 | a grant of the row path stays within the limit if and only if the row leaves room for what others hold reserved and the transaction still owes |
| QuotaInterleaving.RowPathIsSafeExactlyWhen | src/chatfolio/services/quota_service.py:225-244 | no amount can overshoot on the row path if and only if nothing is held outside the row |
| QuotaInterleaving.ScriptIsSafeExactlyWhen | src/chatfolio/services/quota_service.py:23-31 | no amount can overshoot on the script if and only if the counter covers what is committed and held, or grants nothing |
| QuotaInterleaving.RowGrantKeepsCoverExactlyWhen | src/chatfolio/services/quota_service.py:225-244 | a grant of the row path leaves a surviving counter covering if and only if it was that far ahead |
| QuotaInterleaving.RunStaysWithinExactlyWhen | src/chatfolio/services/quota_service.py:43-54 | over any run, failures included, usage and reservations stay within the limit throughout if and only if every script grant and straddling write leaves room when it is made, and every row grant does beside what others hold and its own transaction still owes |
| QuotaInterleaving.LostReplyIsARun | src/chatfolio/services/quota_service.py:62-78 | a serial consume whose script ran without a reply is the script and then the row-locked step |
| QuotaInterleaving.ConsumeIsARun | src/chatfolio/services/quota_service.py:62-78 | a whole serial consume is one run of the step system, with the same counter, row and answer |
| QuotaInterleaving.RowConsumeIsAStep | src/chatfolio/services/quota_service.py:225-244 | a serial consume with Redis down is the one row-locked step |
| QuotaInterleaving.ReleaseIsARun | src/chatfolio/services/quota_service.py:80-89 | a serial release is its script, or the failure of it, and its row write |
| TokenBudget.CheckIsARun | src/chatfolio/services/quota_service.py:120-129 | a serial pre-check is a run of the step system with the same answer |
| TokenBudget.TallyIsARun | src/chatfolio/services/quota_service.py:91-105 | so are a serial tally and its commit |
| TokenBudget.StepKeepsInv | src/chatfolio/services/quota_service.py:91-129 | every check, seeding, tally and end keeps the counter under the budget plus what the actions in flight may add |
| TokenBudget.BudgetOverrunIsBounded | src/chatfolio/services/chat_service.py:100-105 | at every point of every interleaving, with at most k actions in flight costing at most T tokens each, counted usage is at most limit - 1 + k * T |
| TokenBudget.BudgetBoundIsTight | src/chatfolio/services/chat_service.py:171-174 | for every limit, cost and concurrency some run reaches the bound, unless no action may run or none costs anything; then only for a limit of one |
| Billing.BillingTables.InsertSubscription | src/chatfolio/models/billing.py:178-192 | a row goes in if and only if no unique index is violated |
| Billing.BillingTables.GrantFromPurchase | src/chatfolio/services/billing_service.py:217-277 | the order and the subscription that replaces the user's ACTIVE row, stacked on a running term of the same plan |
| Billing.BillingTables.ClaimLicense | src/chatfolio/services/billing_service.py:156-190 | all three rows, or none of them and the answer of the key's existing record |
| Billing.BillingTables.GrantPlan | src/chatfolio/services/subscription_admin_service.py:63-138 | an admin grant replaces the ACTIVE row or is refused without a trace |
| Billing.BillingTables.Trial | src/chatfolio/services/billing_service.py:281-354 | one trial row, or the first failing eligibility rule |
| Billing.BillingTables.Revoke | src/chatfolio/services/billing_service.py:356-380 | licence, order and the order's own ACTIVE row end together |
| Billing.BillingTables.AdminRevoke | src/chatfolio/services/billing_service.py:406-420 | the revocation, or the refusal without a trace |
| Billing.BillingTables.RevokePlan | src/chatfolio/services/subscription_admin_service.py:140-163 | the ACTIVE row ends, or there is none |
| Billing.BillingTables.ExpireSubscriptions | src/chatfolio/workers/jobs_billing.py:41-59 | exactly the overdue ACTIVE rows become EXPIRED, and their number is returned |
| Billing.BillingTables.RevalidateBatch | src/chatfolio/workers/jobs_billing.py:87-106 | the pass is the fold of the seller's answers over the batch, and its three counters count those answers |
| Billing.RevalidateAll | src/chatfolio/services/billing_service.py:382-402 | the pass adds and removes no subscription, order or licence, and changes nothing of a subscription but its status |
| BillingInvariants.ApplyKeepsSound | src/chatfolio/models/billing.py:172-213 | every request and job keeps: one ACTIVE and one trial row per user, one row per order, licences and orders matched one to one with the same user, plan and key and revoked together, no ACTIVE row on a revoked order |
| BillingInvariants.ApplyExtends | src/chatfolio/services/billing_service.py:217-277 | rows are never lost or rewritten, no status returns to ACTIVE, and nothing is un-revoked |
| BillingInvariants.ReachableBooksAreSound | src/chatfolio/models/billing.py:320-370 | both hold after any run of claims, grants, trials, revocations, re-checks and expiries |
| BillingInvariants.ReplaceSucceeds | src/chatfolio/services/billing_service.py:249-251 | cancelling before inserting never meets the one-active index |
| BillingInvariants.ClaimSucceeds | src/chatfolio/services/billing_service.py:156-190 | a claim succeeds if and only if the key is on no record, and then adds exactly one licence and one order |
| Terms.LiveIsActiveRow | src/chatfolio/services/entitlement_service.py:51-61 | the live subscription is the user's one ACTIVE row, as long as it lasts |
| Terms.PurchaseTakesEffect | src/chatfolio/services/billing_service.py:217-277 | a fresh key gives its buyer the plan at once, ending one term after now or after the running term, and leaves everyone else's plan alone |
| Terms.TermsStack | src/chatfolio/services/billing_service.py:238-247 | n more keys and admin grants for the running plan, each in time and in any order, extend it by exactly n stacked terms |
| Terms.GrantTakesEffect | src/chatfolio/services/subscription_admin_service.py:76-126 | a grant is refused if and only if the plan is the free one or inactive or the end is not ahead; otherwise the plan is live at once, until the end asked for or for one term from the running one's end or from now, and everyone else's stays |
| Terms.RevokedPlanEnds | src/chatfolio/services/subscription_admin_service.py:140-163 | refused if and only if the user has no ACTIVE row; otherwise they have no plan at any time, and everyone else keeps theirs |
| Terms.ClaimAnswers | src/chatfolio/services/billing_service.py:156-213 | a key is redeemed if and only if it is on no record, invalid if and only if its record is another user's or revoked, already yours if and only if one's own row of it is ACTIVE and not over; only a redemption changes a table |
| Terms.RevocationIsComplete | src/chatfolio/services/billing_service.py:356-420 | the licence is revoked, its order refunded, every ACTIVE row of the order cancelled, and nothing else changed; the seller's "not valid" does the same; an admin is refused if and only if the licence is unknown or was revoked before |
| Terms.RecheckWithoutRefund | src/chatfolio/services/billing_service.py:382-402 | a confirmed re-check stamps its licence only, one without an answer changes nothing |
| Terms.RevokedExactlyWhen | src/chatfolio/services/billing_service.py:356-420 | over any run a licence ends up revoked if and only if it was, or an admin or the seller revoked it on the way |
| Terms.RevokedKeysAreDead | src/chatfolio/services/billing_service.py:192-213 | once it is, over any further run its key is invalid for everybody and no row of its order is ACTIVE again |
| Terms.RefundEndsItsOwnRowOnly | src/chatfolio/services/billing_service.py:356-380 | a revocation takes the plan away if and only if the live row is that purchase's own; otherwise nothing changes |
| Terms.RefundAfterStackingKeepsBothTerms | src/chatfolio/services/billing_service.py:356-380 | two stacked months, the first refunded: both months remain |
| Terms.OwnKeyOutcome | src/chatfolio/services/billing_service.py:192-213 | re-submitting one's own valid key is accepted if and only if its own row is the live one |
| Terms.EarlierKeyAnswersExpired | src/chatfolio/services/billing_service.py:192-213 | two stacked months, the first key submitted again: "expired", with both months to run |
| Terms.OutagesTouchNobody | src/chatfolio/services/billing_service.py:382-402 | a re-check pass changes a user's plan only if the seller called one of their licences invalid |
| Terms.PassRevokesExactlyWhen | src/chatfolio/workers/jobs_billing.py:61-106 | a pass revokes exactly the licences of its batch that the seller called invalid |
| Terms.TrialOutcome | src/chatfolio/services/billing_service.py:281-354 | who gets a trial, and for each refusal exactly whom it meets: no offer, unverified phone, trial used, phone used, plan running, row left over |
| Terms.TrialTakesEffect | src/chatfolio/services/billing_service.py:287-309 | an accepted trial gives the plan at once and for its trial days, and leaves everyone else's plan, the orders and the licences alone |
| Terms.TrialNeedsNoActiveRow | src/chatfolio/services/billing_service.py:281-354 | for an eligible user a trial starts if and only if no ACTIVE row is left, lapsed or not |
| Terms.JobEndsWhatIsOver | src/chatfolio/workers/jobs_billing.py:41-59 | after the job no ACTIVE row's end is past; it marks exactly those rows, counts them, and changes nothing else |
| Terms.ExpiryJobUnblocksTrial | src/chatfolio/workers/jobs_billing.py:41-59 | the same trial is refused before the job and granted after it |
| ExpiryJob.ApplyKeepsSimilar | src/chatfolio/services/billing_service.py:217-277 | each request, run on tables that differ in the status of lapsed rows only, leaves tables that still do; a trial does unless its user's ACTIVE row is already over |
| ExpiryJob.RunsStaySimilar | src/chatfolio/workers/jobs_billing.py:41-59 | a run of purchases, grants, trials, revocations and re-checks with the job inserted anywhere and the same run without it stay similar, if nobody asks for a trial with an ACTIVE row already over |
| ExpiryJob.JobIsInvisible | src/chatfolio/workers/jobs_billing.py:41-59 | from the end of such a run on every user's live plan is what it would be had the job never run |
| ExpiryJob.JobChangesNoEntitlement | src/chatfolio/services/entitlement_service.py:49-69 | and so is every resolved snapshot |
| Redemption.LosersKeepTheirPlan | src/chatfolio/services/billing_service.py:160-186 | over any interleaving of racing requests, a user none of whose requests redeems keeps the plan they had, at every instant |
| Redemption.StepKeepsInv | src/chatfolio/services/billing_service.py:129-190 | every lookup, seller answer, claim and unrelated change keeps: one winner per key on record, and its records in the winner's name |
| Redemption.ExactlyOneRedemption | src/chatfolio/models/billing.py:343-350 | however many requests race on a key and however they interleave, at most one wins, and exactly as many licences, orders and subscriptions stem from the key, all in the winner's name |
| Redemption.WinnersAreGenuine | src/chatfolio/services/billing_service.py:141-154 | no request redeems a key the seller did not call genuine for it |
| Redemption.OwnersAreForever | src/chatfolio/services/billing_service.py:192-198 | a licence's owner, key and order never change |
| Redemption.LosersAreToldNothing | src/chatfolio/services/billing_service.py:192-213 | over every interleaving: whoever is answered about a key that another user's request wins is told what an unknown key is told; and nobody is told so of a key that is their own, not revoked and known to the seller |
| Redemption.BarredKeysAreTurnedDown | src/chatfolio/services/billing_service.py:129-136 | the next look at our records, before or after the seller is asked, does so and changes no table |
| PopularSearch.PickLabel | src/chatfolio/services/popular_search_service.py:221-230 | the most preferred unused label whose own search returns enough profiles, or none if there is none |
| PopularSearch.Verify | src/chatfolio/services/popular_search_service.py:210-231 | the two-pass scan yields the greedy selection: at every pill the best-ranked eligible candidate under its best usable label, capped while anything fits under the cap, until the limit or exhaustion |
| PopularSearch.PillsAreDistinctAndVerified | src/chatfolio/services/popular_search_service.py:210-231 | each pill is a different candidate's own label, no two labels agree in lower case, every count is the search's own and high enough, and a short row is maximal in the pool |
| PopularSearch.CapGivesWayOnlyToNothing | src/chatfolio/services/popular_search_service.py:23-25 | at every point of the row a kind is past its share only when no unchosen candidate of the other kind has an unused qualifying label |
| PopularSearch.SelectionIsUnique | src/chatfolio/services/popular_search_service.py:210-231 | pool, search and limit determine the row completely |
| WorkHours.WindowMinutes | src/chatfolio/services/portfolio_service.py:66-78 | a readable window opens on its date when its own clock shows the stored start and closes when the clock next shows the stored end; one the parser rejects is none; clock times that no day has are an exception, raised outside the parser's `try` |
| WorkHours.WindowsAreTheClock | src/chatfolio/services/portfolio_service.py:66-78 | a minute lies in the window of some date if and only if the clock there shows a time between the stored start and end, across midnight if the end is the earlier, round the clock if they are equal |
| WorkHours.HoursOverlap | src/chatfolio/services/portfolio_service.py:81-91 | raises if and only if both windows are given and either names a clock time no day has; otherwise true if and only if there is a minute at which both clocks show working hours, and the openings are in reach of each other; the date of asking does not matter |
| WorkHours.ExactWithinADay | src/chatfolio/services/portfolio_service.py:81-91 | with openings on one date at most 24 hours apart the answer is exact |
| WorkHours.FarZonesAreMissed | src/chatfolio/services/portfolio_service.py:81-91 | UTC+14 and UTC-12 windows sharing seven hours a day are answered false |
| WorkHours.OverlapIsSymmetric | src/chatfolio/services/portfolio_service.py:81-91 | the order of the two windows does not matter |
| WorkHours.SharingIsRoundTheClock | src/chatfolio/services/portfolio_service.py:81-91 | sharing time depends only on how far round the clock one window opens after the other |
| NameMatching.TokensAreRuns | src/chatfolio/services/profile_context.py:30-31 | squashing and splitting yields the maximal runs of word characters |
| NameMatching.TokensOfPieces | src/chatfolio/services/profile_context.py:30-31 | text is tokenised piece by piece at any non-word character |
| NameMatching.JoinRoundTrip | src/chatfolio/services/profile_context.py:47-49 | joining tokens by spaces and tokenising again gives them back |
| NameMatching.PaddedSearchIsTokenSearch | src/chatfolio/services/profile_context.py:47-49 | the padded key is a substring of the padded message if and only if its tokens stand there consecutively as whole tokens |
| NameMatching.NameKeys | src/chatfolio/services/profile_context.py:34-44 | the popping loop yields the long enough spellings of the name without legal suffixes, also without a trailing number |
| NameMatching.SpellingsAre | src/chatfolio/services/profile_context.py:34-44 | the spellings are the name up to its last token that is no legal suffix and, if that is a number behind two other tokens, the same without it |
| NameMatching.Mentions | src/chatfolio/services/profile_context.py:47-49 | true if and only if some long enough spelling stands in the message as whole tokens |
| NameMatching.MentionedExactlyWhen | src/chatfolio/services/profile_context.py:34-49 | a message mentions a name if and only if one of these two, three characters or more, stands in it as whole tokens |
| NameMatching.FullNameIsFound | src/chatfolio/services/profile_context.py:34-49 | a message holding the whole name as whole tokens mentions it if and only if the name without legal suffixes has at least three characters |
| NameMatching.QuotedNameIsConsecutive | src/chatfolio/services/profile_context.py:30-49 | a name written out between non-word characters is there as whole tokens |
| Aliases.PortfolioService.GetOrCreateForUser | src/chatfolio/services/portfolio_service.py:113-138 | the user's page, made under the first free slug drawn if there was none |
| Aliases.PortfolioService.RenamePage | src/chatfolio/services/portfolio_service.py:140-165 | a rename needs a slug no other page and no alias holds, and a publish unit |
| Aliases.PortfolioService.PublishPage | src/chatfolio/services/portfolio_service.py:167-197 | only a ready page goes live, and only a page that was not live needs a publish unit |
| Aliases.UnpublishedPageIsGone | src/chatfolio/services/portfolio_service.py:199-203 | after a page is taken down no slug leads to it, and every slug of another page leads where it did |
| Aliases.PortfolioService.AddAliasTo | src/chatfolio/services/portfolio_service.py:257-267 | an alias needs room in the plan and a free slug |
| Aliases.PortfolioService.UpdateAliasOf | src/chatfolio/services/portfolio_service.py:269-286 | an own alias is renamed to a free slug and switched on within the plan's room |
| Aliases.PortfolioService.DeleteAliasOf | src/chatfolio/services/portfolio_service.py:288-292 | only one's own alias goes, and only that one |
| Aliases.ReachableSitesAreSound | src/chatfolio/services/portfolio_service.py:213-242 | after any serial run all slugs, of pages and aliases together, are distinct |
| Aliases.ActiveAliasesAreActiveIds | src/chatfolio/services/portfolio_service.py:244-255 | the owner's list and the public query select the same aliases in the same order |
| Aliases.ListedFlagIsHonoured | src/chatfolio/services/portfolio_service.py:244-255 | every alias is listed once flagged as counting if and only if it is active with few enough older active ones |
| Aliases.ResolvesExactly | src/chatfolio/services/chatfolio_resolver.py:22-63 | a slug leads to a page if and only if the page is published and the slug is its own or that of an alias that counts |
| Aliases.FlagsAreServed | src/chatfolio/services/chatfolio_resolver.py:22-63 | for a published page the flag shown to the owner is what visitors get, and an alias never leads elsewhere |
| Aliases.HonouredIsAGrowingPrefix | src/chatfolio/services/chatfolio_resolver.py:16-19 | a larger plan honours everything a smaller one does, oldest first, so shrinking cuts the newest and growing back restores the same set |
| Aliases.FreshAliasesAreHonoured | src/chatfolio/services/portfolio_service.py:257-267 | a freshly added alias, and every other active one of the page, counts |
| Aliases.ReactivatedAliasesAreHonoured | src/chatfolio/services/portfolio_service.py:278-283 | so do they after an alias is switched back on |
| SiteRequests.CreationOutcome | src/chatfolio/services/portfolio_service.py:113-138 | a user without a page gets one, hidden, under the first candidate nobody holds, or none if all are held |
| SiteRequests.RenameOutcome | src/chatfolio/services/portfolio_service.py:140-165 | a new slug must be free and costs a unit; the rename changes that slug only |
| SiteRequests.PublicationOutcome | src/chatfolio/services/portfolio_service.py:167-197 | a page goes live if and only if everything is ready and, unless it is live already, a unit is left |
| SiteRequests.LiveExactlyWhen | src/chatfolio/services/portfolio_service.py:167-203 | over any run a page is live if and only if somebody published it ready and within the quota and nobody has taken it down since |
| SiteRequests.AdditionOutcome | src/chatfolio/services/portfolio_service.py:257-267 | an alias is added, active and last, if and only if the active ones leave room and nobody holds the slug |
| SiteRequests.UpdateOutcome | src/chatfolio/services/portfolio_service.py:269-286 | when an update is refused and why; an accepted one gives its alias what was asked for and touches no other |
| SiteRequests.DeletionOutcome | src/chatfolio/services/portfolio_service.py:288-292 | an own alias goes, and every other keeps its place |
| SiteRequests.HonouredFillThePlan | src/chatfolio/services/chatfolio_resolver.py:16-19 | the aliases that count are as many as the plan allows beside the page's own slug, or all active ones if they are fewer |
| SiteRequests.RequestsStayOnTheirPage | src/chatfolio/services/portfolio_service.py:113-292 | a request of one page's owner leaves every other page and its aliases as they were |
| EmbeddingIndex.EmbeddingStores.EmbedContentJob | src/chatfolio/workers/jobs_embedding.py:28-61 | a job writes the vector and then its pointer, or nothing |
| EmbeddingIndex.EmbeddingStores.ReconcileMissingEmbeddings | src/chatfolio/services/embedding_service.py:131-154 | queues exactly one job for each pointer without a vector, with its own owner and text |
| EmbeddingIndex.VectorsCarryPointerText | src/chatfolio/workers/jobs_embedding.py:28-61 | over any run of edits, jobs, deletions, losses and repairs every vector that is there carries its pointer's text and owner |
| EmbeddingIndex.EditAndJobOutcome | src/chatfolio/workers/jobs_embedding.py:28-61 | an edit queues its text unless it is blank; a job writes vector and pointer of its source only, or is dropped without a trace |
| EmbeddingIndex.NothingBlankIsIndexed | src/chatfolio/services/embedding_service.py:90-97 | over any run no blank text is queued, pointed to or in the index |
| EmbeddingIndex.DrainOutcome | src/chatfolio/workers/jobs_embedding.py:28-61 | once the queue is drained a source has its last job's text on both sides, or is untouched |
| EmbeddingIndex.ReconcileRepairs | src/chatfolio/services/embedding_service.py:112-154 | one pass and a drained queue give every pointer an agreeing vector, and no present vector is queued again |
| EmbeddingIndex.IdleRepairRestoresTheIndex | src/chatfolio/services/embedding_service.py:112-154 | on an idle index the vectors afterwards are exactly the pointers, and the pointers are as before |
| EmbeddingIndex.QueuedEditSurvivesRepair | src/chatfolio/services/embedding_service.py:142-149 | an edit still queued survives the pass if and only if its vector was there, nothing was queued, or it asked for the stored text |
| EmbeddingIndex.RepairUndoesQueuedEdit | src/chatfolio/services/embedding_service.py:142-149 | text A embedded, B queued, the vector lost, a worker started: A is back and nothing is queued |
| EmbeddingIndex.DeletedStaysDeleted | src/chatfolio/services/embedding_service.py:99-109 | a deleted source stays deleted if and only if no job for it was still queued |

## Left out

- HTTP routes, schemas, settings, logging, audit records, email, SMS, S3, the LLM and the vector store's own search.
- Cryptography: key hashes are injective ids, the encrypted key is not kept, the random part of slugs is an input.
- The seller is an oracle: a key is genuine, fake, bought too long ago, or the seller is unreachable. Which plan and product a key is checked against is an input.
- The throttle on failed activation attempts, payment fields of orders, and the reminder job: they change no subscription, order or licence status.
- Phone numbers: whether a phone is verified or was used for a trial is an input of the trial request.
- Time zones with daylight saving: work hours carry a fixed offset in whole minutes. Years after 9999 and the time text formatting of larger years.
- The JSON form of cached snapshots, and the cache of the public plan catalogue and price list.
- EntitlementCache.CachedReadsAreExact: takes a read, and a commit with its bump or invalidation, as single steps; `ReadExactness` says when exactness survives without that. The objects a database session keeps from earlier statements of the same request are not modelled.
- Admin grants, trials, revocations and re-checks are single transactions on the billing tables; lookups, seller calls and claims of licence keys interleave.
- The choice of the re-validation batch (which licences are due, oldest first, at most 100) is an input of the pass.
- Stock locks, recruiter cool-downs, per-session message limits, chat history, meetings beyond their quota: single checks.
- Ranking the candidates of the popular searches and normalising skills and roles; sorting the finished row by count; its cache. The count behind a label is a fixed function during one scan.
- Lower-casing is taken as done in name matching and as a given function in the pill selection.
- Two concurrent requests can still take one slug, one as a page's and one as an alias: the two unique indexes do not see each other. The model's requests are serial.
- What makes a page ready to publish, redirects from previous slugs, page settings other than the slug; the deletion of users and their pages.
- Aliases.PortfolioService.UpdateAliasOf: does not state the tables after LimitReached, because the request's rollback undoes a slug already written.
- Billing.BillingTables.GrantFromPurchase: does not state the tables after an integrity error, because the caller's savepoint undoes them; `ClaimLicense` does.
- Embedding jobs and deletions are atomic and run in the order queued; a job that fails between the vector and its pointer, and two jobs running at once for one source, are not modelled. Blank text means ASCII white space.
- TokenBudget: background CV tallies, which are not admitted actions.
