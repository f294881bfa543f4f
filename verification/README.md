# Verified model of a multi-tenant billing and metering service

This project models the stateful core of the service in Dafny 4.11 and proves what whole runs of it keep. Time is an
explicit number of milliseconds, tables are sequences or maps of rows, Redis is a map with expiry, and Stripe is an
abstract peer that holds a price, a schedule and a period end for each subscription.

`dafny verify dfyconfig.toml` checks everything.

## How it is laid out

| files | content |
|---|---|
| `TenantRepository`, `Outbox` | the tenant-scoped repository on one shared table; concurrent outbox claims with row locks |
| `Redis`, `Text`, `Calendar` | the key-value store with expiry, composed keys, and the calendar of section 21.4.1 of ECMA-262 |
| `UsageCounters`, `Usage`, `UsageRuns`, `UsageReports` | metering: counters, daily rows, snapshot, monthly reset, runs of them, and what they announce and report |
| `PlanLimit`, `QuotaProtocol` | the quota decision, and the check-then-increment protocol around it |
| `BillingModel`, `Billing`, `BillingServices` | plans, subscriptions and payments as a state machine, and the services that carry its steps out |
| `BillingEffects`, `SubscriptionRuns`, `TrialRuns`, `DowngradeMirror`, `CancellationMirror`, `Webhook`, `TrialReminders` | what its steps write and what runs of it keep |
| `PaymentSteps`, `UnpaidTenants`, `Escalation`, `PaymentEvents` | payment status store access by store access: what a lock means, when escalation locks, and what the published events tell |
| `TenantLifecycle`, `DeletionSteps`, `GracePeriod` | suspension, locking and deletion, and the grace period store access by store access |
| `MachineAuth`, `FeatureFlag`, `PlanSync`, `AuditCsv` | single-flight token cache, feature-flag cache, Stripe plan sync, CSV export |

Code that updates state step by step is a class whose methods are proved equal to a transition function; the lemmas then
speak about all runs of these functions. What such a function means is stated a second time, in a predicate or lemma that
does not use it: which rows a call selects and writes, which status a move leaves, which plan, price, override or date
decides.

Two grains of step occur. In `PaymentSteps` with `UnpaidTenants`, `Escalation` and `PaymentEvents`, in `DeletionSteps`
with `GracePeriod`, `QuotaProtocol`, `Outbox`, `MachineAuth` and the last part of `FeatureFlag`, every awaited store
access that others can observe is a step of its own, and runs interleave them freely. In `Billing` and the modules on
it (`BillingEffects`, `SubscriptionRuns`, `TrialRuns`, `DowngradeMirror`, `CancellationMirror`), in `TenantLifecycle`,
`TrialReminders`, `UsageRuns`, `UsageReports` and `PlanSync`, a step is a whole operation: one handler, one request, one
call, one run of a job. `Webhook` splits a delivery into the test
of its marker with the handler, and the write of the marker. `HandlerAlone`, `EscalationAlone` and `TransitionAlone`
tie the two grains together: the small steps of a job that nothing interrupts are its whole operation.
`CommandsRefine` ties the quota protocol to the store.

A condition that a caller must meet is stated as an if-and-only-if wherever the code does not meet the plain claim.

Where the code falls short of what one would expect, the exact condition is proved instead:

- An empty OR-list is merged to an empty list, which selects every tenant's rows (`ScopedExactly`); an update payload
  may move a row to another tenant (`UpdateKeepsOwnersExactly`); a save with another tenant's id takes its row over
  (`SaveSparesOthersExactly`).
- A decrement below zero is repaired by a second Redis command. While it is pending, a request larger than the whole
  quota can pass the check (`OvershootExactly`).
- `prevMonthLabel` is not padded, so it names the month only in years 1000 to 9999 (`PreviousMonthLabelExactly`).
- An upgrade lifts a scheduled cancellation at Stripe and leaves it in the row; a cancellation without a known period end
  is recorded without a date and cannot be taken back; a checkout keeps an old cancellation (`UpgradeLiftsExactly`,
  `CancellationMirrorsExactly`, `NewCheckoutMirrorsExactly`).
- Lifting a suspension, unlocking and cancelling a deletion make a tenant active whatever it was before
  (`UnsuspendUndoesExactly`, `UnlockUndoesExactly`, `CancelUndoesExactly`).
- A downgrade without a known period end is recorded locally although nothing is scheduled at Stripe; a cancellation
  releases Stripe's schedule but keeps the pending plan; a checkout keeps an old pending plan (the `...MirrorsExactly`
  lemmas).
- Escalation saves rows that its query read earlier. A tenant whose invoice is paid in between is locked all the same
  (`PaidThenLocked`); a payment that overlaps a save of the row is the only way to this (`LockedMeansUnpaidExactly`).
- A job that reads a tenant before escalation moves it on, and saves it after, puts the old payment status back. It can do
  so in every round, and then the tenant is never locked (`NeverLocked`); without such saves it is locked in time
  (`UnpaidGetsLocked`, `NeverSetBackExactly`, `LocksInTimeExactly`).
- A deletion goes on with the row it has read, and an edit saves the row it has read. A tenant whose deletion was
  cancelled in between is removed all the same, at once or weeks later (`CancelledThenRemoved`); the exact condition is
  `RemovalGoesBackExactly`.
- Changes are announced after their save and can be announced out of order, so that a subscriber is left with another
  status than the tenant's (`LateAnnouncement`, `ReplayRebuildsStatusExactly`, `AlwaysAgreesExactly`).
- Any repository call may put a claimed outbox row back to pending, `updateStatusById` among them, and the row is then
  claimed twice (`PutBackIsClaimedTwice`, `ClaimsExclusiveExactly`).
- A plan that cannot be deactivated stops the sync, and the unseen plans after it stay active (`ActiveExactly`).
- A redelivery more than 24 hours after the end of the first handling is handled again, and so is one that begins before
  that end (`HandledTwice`, `HandledOnceExactly`).
- A failed invoice that names a superseded subscription still acts through its customer (`SupersededFailureExactly`).
- Token-cache keys collide for an audience with `|` or a tenant named `-` (`SeparatesExactly`, `DirtyKeysCollide`), and
  a token that lives under a minute is served after its end (`TimelyExactly`).
- Flag-cache keys collide for entity ids with a colon (`TransparentExactly`).
- The export quotes only two of its columns (`ExportReadsBackExactly`).

## Assumptions about the surroundings

- Redis keys carry no tenant segment; ids of tenants hold no colon where keys are concerned.
- The mapper's `find` returns rows in storage order, and rows keep their primary key. Whether a field assigned
  `undefined` is cleared in the store is a parameter (`clears`).
- Stripe's price pages continue after the cursor, and their sizes are arbitrary; price ids are non-empty and different.
- A save writes back every column of the row as it was read. The writers of tenants other than escalation and the invoice
  handlers leave the payment columns as they read them (`PaymentSteps.Edit`). Which tenant an invoice belongs to is
  settled before `PaymentSteps`, and tenants are not removed there. An invoice counts as paid when its handler has saved
  the tenant or found nothing to save.
- The writers of tenants other than the lifecycle operations leave the lifecycle columns as they read them
  (`DeletionSteps.Edit`). A save of a row that is gone inserts it again there.
- Repository calls on outbox rows wait for row locks.
- Stripe changes a subscription's price at once on update and leaves its schedule alone; a renewal moves to the scheduled
  price, if there is one. Retrieving an unknown subscription fails.
- `Number()`, `trim()`, new row ids and the text of `JSON.stringify` and `toISOString` in the export are parameters.
  Percentages and the factor 0.8 are exact.
- The identity service's verdict on a password is a parameter.

## Model

| member | source | states |
|---|---|---|
| TenantRepository.MergedSelects | src/common/tenant/tenant-aware.repository.ts:71-80 | A merged condition selects a row iff the row is the tenant's and the caller's other conditions hold, or the OR-list is empty. |
| TenantRepository.ScopedExactly | src/common/tenant/tenant-aware.repository.ts:99-107 | On every table a scoped query returns only own rows iff its OR-list is not empty. |
| TenantRepository.UpdateKeepsOwnersExactly | src/common/tenant/tenant-aware.repository.ts:301-333 | Updates change no row's owner, on any table and for any target, iff the payload names no other tenant. |
| TenantRepository.SaveSparesOthersExactly | src/common/tenant/tenant-aware.repository.ts:125-133 | A save leaves all other tenants' rows as they were iff the saved id is not one of theirs. |
| TenantRepository.StepSeparates | src/common/tenant/tenant-aware.repository.ts:175-190 | One operation of a tenant is the same operation on its rows alone, and nobody else's rows change. |
| TenantRepository.Separability | src/common/tenant/tenant-aware.repository.ts:71-133 | In every interleaving, a tenant's rows and replies are those of its own calls run alone on its own rows. |
| TenantRepository.RunsDetermined | src/common/tenant/tenant-aware.repository.ts:99-190 | Calls without free database choices determine rows and replies, so the run alone is unique. |
| TenantRepository.TenantAwareRepository.Find | src/common/tenant/tenant-aware.repository.ts:99-102 | For a non-empty list of conditions, returns a row iff it is in the table, is the tenant's, has no deletion date and meets the conditions, and returns it unchanged; refuses without a tenant in the context. |
| TenantRepository.TenantAwareRepository.FindOne | src/common/tenant/tenant-aware.repository.ts:104-107 | Returns one such row, or none iff there is no such row. |
| TenantRepository.TenantAwareRepository.GetTotal | src/common/tenant/tenant-aware.repository.ts:187-190 | Counts exactly these rows. |
| TenantRepository.TenantAwareRepository.Save | src/common/tenant/tenant-aware.repository.ts:125-133 | Saves every entry under the context's tenant with the columns the caller gave, and leaves rows it does not name alone. |
| TenantRepository.TenantAwareRepository.Delete | src/common/tenant/tenant-aware.repository.ts:181-185 | Removes a row iff it is the tenant's and meets the conditions; keeps all others unchanged. |
| TenantRepository.TenantAwareRepository.SoftDelete | src/common/tenant/tenant-aware.repository.ts:175-179 | Stamps a row as deleted iff it is the tenant's and meets the conditions; keeps its other columns and all other rows. |
| TenantRepository.TenantAwareRepository.Update | src/common/tenant/tenant-aware.repository.ts:301-333 | Writes the payload into a row iff it is the tenant's and the target aims at it; an empty array is an id list. |
| TenantRepository.TenantAwareRepository.ClaimPendingBatch | src/common/tenant/tenant-aware.repository.ts:238-267 | Picks at most `limit` of the tenant's rows that are pending, due and past their delay, all of them or the oldest, and flips exactly those to in-progress. |
| TenantRepository.TenantAwareRepository.UpdateStatusById | src/common/tenant/tenant-aware.repository.ts:269-274 | Sets one column of the row with that id if the tenant owns it. |
| TenantRepository.TenantAwareRepository.MarkFailureWithBackoff | src/common/tenant/tenant-aware.repository.ts:276-299 | Returns the tenant's row to pending with one more attempt and the capped exponential delay. |
| TenantRepository.SoftDeletedStaysHidden | src/common/tenant/tenant-aware.repository.ts:99-179 | After a soft delete no query of anybody finds a matching row, now or after any calls that write no deletion date; what each query finds of the other rows is as before. |
| Outbox.NextKeepsInv | src/common/tenant/tenant-aware.repository.ts:238-299 | Every step of claimers, failures and other repository calls that put back no claimed row keeps held rows pending, due and disjoint, and the log consistent. |
| Outbox.ClaimsExclusiveExactly | src/common/tenant/tenant-aware.repository.ts:238-274 | Over all interleavings with any set of other repository calls, between two claims of one row lies a failure of that row iff none of these calls ever makes a row claimable that was claimed and has not failed since. |
| Outbox.PutBackIsClaimedTwice | src/common/tenant/tenant-aware.repository.ts:269-274 | Where `updateStatusById` with the pending status is among the calls, some run claims a row twice with no failure in between. |
| Outbox.FinishersClaimOnce | src/common/tenant/tenant-aware.repository.ts:269-274 | Reads, removals and `updateStatusById` with any status but pending put no claimed row back, so beside processors that make only these calls claims are exclusive. |
| Outbox.BackoffRespected | src/common/tenant/tenant-aware.repository.ts:286-298 | In every run whose other calls leave the row's delay alone, a failed row is claimed again only after min(cap, base * 2^n) seconds. |
| Outbox.BackoffDoubles | src/common/tenant/tenant-aware.repository.ts:289-289 | The delay starts at the base and doubles until it meets the cap. |
| Outbox.FailedRowEligibleExactly | src/common/tenant/tenant-aware.repository.ts:251-254 | A failed row is eligible iff its delay is over and its schedule, if there is one, is due. |
| Redis.RedisKeyBuilder.Build | src/common/aws-redis/redis-key.builder.ts:24-38 | The loop joins prefix, tenant and segments, skipping empty pieces. |
| Redis.BuildDistinct | src/common/aws-redis/redis-key.builder.ts:24-38 | Keys built from colon-free pieces are equal iff the pieces are. |
| Redis.Store.Get | src/common/aws-redis/redis.service.ts:16-18 | A key is readable until its expiry. |
| Redis.Store.Exists | src/common/aws-redis/redis.service.ts:74-76 | Answers 1 for a live key and 0 otherwise. |
| Redis.Store.Set | src/common/aws-redis/redis.service.ts:20-22 | Replaces value and expiry; no positive lifetime means no expiry. |
| Redis.Store.SetNx | src/common/aws-redis/redis.service.ts:82-85 | Writes, and says so, iff the key is not live. |
| Redis.Store.IncrBy | src/common/aws-redis/redis.service.ts:61-67 | Adds to the number, starting a missing key at zero and keeping an existing expiry. |
| Redis.Store.Expire | src/common/aws-redis/redis.service.ts:70-72 | Sets the expiry of a live key only. |
| Redis.Store.SAdd | src/common/aws-redis/redis.service.ts:52-54 | Adds a member once and keeps the expiry. |
| Redis.Store.SMembers | src/common/aws-redis/redis.service.ts:56-58 | Lists the members of a live set. |
| Redis.Store.Del | src/common/aws-redis/redis.service.ts:24-26 | Removes the key and nothing else. |
| Calendar.MonthTextInjective | src/billing/redis-usage.service.ts:18-21 | The `YYYY-MM` texts of two dates agree iff the dates lie in one month (one of them in years 0 to 9999). |
| Calendar.PreviousMonthCorrect | src/billing/monthly-usage-reset.service.ts:92-105 | For years 1000 to 9999: a date carries the label iff it lies in the previous month, `prevMonthEnd` is the last such date, and the next day is the first of the current month. |
| Calendar.PreviousMonthLabelExactly | src/billing/monthly-usage-reset.service.ts:101-101 | A date of the previous month carries the label iff that month's year is 1000 to 9999. |
| UsageCounters.UsageKeyInjective | src/billing/redis-usage.service.ts:23-26 | Counter keys are equal iff tenant, metric and month are, for any metric text. |
| UsageCounters.UsageKeyApart | src/billing/redis-usage.service.ts:23-38 | No counter key is a metric-list, limit or threshold key. |
| UsageCounters.TrackedFrame | src/billing/redis-usage.service.ts:40-85 | Tracking one counter leaves every other counter as it was, at any later time. |
| UsageCounters.SaturatedIsLargestSuffixSum | src/billing/redis-usage.service.ts:54-73 | Saturating addition from zero gives the largest suffix sum. |
| UsageCounters.CounterIsLargestSuffixSum | src/billing/redis-usage.service.ts:40-85 | After any `trackUsage` run within a month from zero, the counter is the largest suffix sum of the deltas. |
| Usage.RedisUsageService.IncrementUsage | src/billing/redis-usage.service.ts:40-52 | Changes the store as the specification says and returns the counter. |
| Usage.RedisUsageService.DecrementUsage | src/billing/redis-usage.service.ts:54-73 | The same for a decrement, which stops at zero. |
| Usage.RedisUsageService.TrackUsage | src/billing/redis-usage.service.ts:75-85 | Dispatches on the sign of the delta. |
| Usage.RedisUsageService.GetUsage | src/billing/redis-usage.service.ts:87-93 | Reads a month's counter, zero when missing. |
| Usage.RedisUsageService.GetLimit | src/billing/redis-usage.service.ts:110-116 | Reads the stored limit of a metric. |
| Usage.RedisUsageService.ListMetrics | src/billing/redis-usage.service.ts:95-98 | Reads the tenant's metric list. |
| Usage.RedisUsageService.ClearMonthlyUsage | src/billing/redis-usage.service.ts:129-132 | Removes exactly one month's counter. |
| Usage.RedisUsageService.ClearThresholdFlags | src/billing/redis-usage.service.ts:134-139 | Removes exactly the flags of the given percentages. |
| Usage.UsageTracker.Increment | src/billing/usage-tracker.service.ts:36-53 | Moves counter and daily row together. |
| Usage.UsageTracker.Decrement | src/billing/usage-tracker.service.ts:55-72 | Moves counter and daily row together, both stopping at zero. |
| Usage.UsageInternalController.IncrementUsage | src/billing/usage-internal.controller.ts:19-29 | A refused request changes nothing; run alone, an accepted one leaves the counter within the quota. |
| Usage.DailyUsageCalculator.RunDailySnapshot | src/billing/daily-usage-calculator.service.ts:26-112 | The nested loops give the state of the snapshot fold. |
| Usage.DailyUsageCalculator.SnapshotOne | src/billing/daily-usage-calculator.service.ts:43-109 | Writes the row and the threshold flags and events of one metric. |
| Usage.MonthlyUsageReset.RunMonthlyReset | src/billing/monthly-usage-reset.service.ts:26-90 | The nested loops give the state of the reset fold. |
| Usage.MonthlyUsageReset.ResetOne | src/billing/monthly-usage-reset.service.ts:42-88 | Reports the month and clears its counter and flags. |
| UsageRuns.RowFollowsCounter | src/billing/usage-tracker.service.ts:36-72 | Once row and counter agree, they agree after any later tracker calls of the day. |
| UsageRuns.SnapshotAgrees | src/billing/daily-usage-calculator.service.ts:43-64 | After a snapshot the day's row of every listed metric holds the month's counter. |
| UsageRuns.ResetClearsPreviousMonthExactly | src/billing/monthly-usage-reset.service.ts:86-105 | The counter a use went to is cleared iff the use lies in the previous month; none of the current month is touched. |
| UsageRuns.SummaryReportsCounter | src/billing/monthly-usage-reset.service.ts:42-57 | With a snapshot on the month's last day, the summary reports the counter's final total. |
| UsageReports.FlagExactly | src/billing/redis-usage.service.ts:36-38 | Threshold flags are the same key iff tenant, metric and percentage are. |
| UsageReports.SnapshotAnnouncesExactly | src/billing/daily-usage-calculator.service.ts:43-109 | A snapshot announces 80 or 100 percent once iff the metric is a listed one of an active tenant, usage has reached it on a positive stored limit and the flag is not live; the flag then lives 60 days. The day's row takes the counter and the stored limit, or keeps its limit. |
| UsageReports.AnnouncesAgainExactly | src/billing/daily-usage-calculator.service.ts:66-91 | In every run of snapshots, resets and anything else that leaves flags alone, a snapshot announces a threshold that is reached iff the run has not done so within 60 days, or has reset the metric since. |
| UsageReports.CountingIsElsewhere | src/billing/redis-usage.service.ts:40-85 | Counting any metric up or down leaves flags and announcements alone. |
| UsageReports.ResetReportsExactly | src/billing/monthly-usage-reset.service.ts:42-88 | A reset reports each listed metric of each active tenant once, and no other: the previous month, the total of its last day's row or else the counter as the reset found it, and the stored limit. It takes both flags down. |
| PlanLimit.EnforceLimitExactly | src/billing/plan-limit.service.ts:226-269 | A positive request passes iff no expired trial blocks the tenant and the counter stays within the whole-number quota. |
| PlanLimit.TrialStopsExactly | src/billing/plan-limit.service.ts:48-80 | The trial gate refuses iff the trial has ended, no manual plan is the tenant's and the subscription is not active. |
| PlanLimit.PlanRowDecidesExactly | src/billing/plan-limit.service.ts:111-171 | A request the gate lets through passes iff the count it leads to stays within the limit, with grace, of the tenant's manual plan, else of the first active shared row with the configured price of the billing row's plan (free without a billing row); it passes without such a row or limit. |
| PlanLimit.RemainingExactly | src/billing/plan-limit.service.ts:250-267 | What a refusal reports as remaining is the largest request that would pass. |
| PlanLimit.GraceOnlyAdds | src/billing/plan-limit.service.ts:244-248 | Grace never lowers the quota, and only a positive percentage raises it. |
| PlanLimit.ManualPlanDecides | src/billing/plan-limit.service.ts:111-171 | With a manual plan, trial, billing row and price configuration do not matter. |
| QuotaProtocol.CheckIsEnforceLimit | src/billing/plan-limit.service.ts:226-269 | The protocol's check is the decision of `enforceLimit`. |
| QuotaProtocol.CommandsRefine | src/billing/redis-usage.service.ts:44-66 | The steps of the protocol are the store commands INCRBY, DECRBY and the write of zero on the usage key: the number stored is the counter before and after. |
| QuotaProtocol.OvershootExactly | src/billing/usage-internal.controller.ts:19-29 | With at most k requests between check and increment, each at most m, the counter stays within limit + (k-1)m on all interleavings iff decrements are one step or m is at most the limit. |
| QuotaProtocol.BoundReached | src/billing/redis-usage.service.ts:40-52 | Some run reaches that bound, so no smaller one holds. |
| QuotaProtocol.SequentialWithinLimit | src/billing/plan-limit.service.ts:250-253 | One request at a time never passes the quota. |
| BillingModel.ResolveInvertsExactly | src/billing/stripe.service.ts:21-37 | Every plan can be read back off its price iff the four price ids are configured and different. |
| BillingModel.CatalogueExactly | src/billing/stripe.service.ts:21-37 | A plan is sold at its own configured price, a price stands for the lowest plan it is configured for, and plans rank free, starter, growth, enterprise. |
| BillingServices.BillingDb.CreateBillingForTenant | src/billing/billing.service.ts:55-67 | Finds the tenant's row or adds a free one. |
| BillingServices.StripeService.UpgradeSubscription | src/billing/stripe.service.ts:253-280 | Sets the target's price and lifts a scheduled cancellation, or fails without a change, as it does when the payment is declined. |
| BillingServices.StripeService.ScheduleSubscriptionDowngrade | src/billing/stripe.service.ts:282-342 | Schedules the target's price at the period end; without a known end nothing is scheduled. |
| BillingServices.StripeService.CancelPendingSubscriptionDowngrade | src/billing/stripe.service.ts:344-358 | Releases the schedule if there is one. |
| BillingServices.StripeService.ScheduleSubscriptionCancellation | src/billing/stripe.service.ts:360-390 | Releases the schedule and tells Stripe to cancel at the period end; fails without a change for an unknown subscription. |
| BillingServices.StripeService.ReactivateSubscription | src/billing/stripe.service.ts:392-400 | Lifts a scheduled cancellation. |
| BillingServices.BillingService.HandleCheckoutSessionCompleted | src/billing/billing.service.ts:849-893 | Rewrites the tenant's row for the plan bought and ends a running trial for a paid one. |
| BillingServices.BillingService.EndTenantTrialIfActive | src/billing/billing.service.ts:1040-1061 | Moves a future trial end to now. |
| BillingServices.BillingService.HandleInvoicePaymentSucceeded | src/billing/billing.service.ts:140-246 | Records the payment, restores and announces the payment status, and follows the plan Stripe charges. |
| BillingServices.BillingService.HandleInvoicePaymentFailed | src/billing/billing.service.ts:947-1024 | Moves any other status to past due and announces it, found by subscription, else by customer. |
| BillingServices.BillingService.HandleCustomerSubscriptionDeleted | src/billing/billing.service.ts:1063-1087 | Cancels the row and forgets the subscription id. |
| BillingServices.BillingService.Dispatch | src/billing/billing.service.ts:812-834 | Each event type reaches its handler; others change nothing. |
| BillingServices.BillingService.UpgradeSubscription | src/billing/billing.service.ts:418-440 | Changes row and Stripe together, or neither when refused or when the payment is declined. |
| BillingServices.BillingService.CancelSubscription | src/billing/billing.service.ts:547-574 | Accepts only an active subscription without a cancellation ahead; row and Stripe change together. |
| BillingServices.BillingService.ReactivateSubscription | src/billing/billing.service.ts:609-635 | Accepts only a cancellation still ahead, and clears it on both sides. |
| BillingServices.BillingService.DowngradeSubscription | src/billing/billing.service.ts:669-711 | Accepts only a lower plan with none pending, and records what Stripe scheduled. |
| BillingServices.BillingService.CancelPendingDowngrade | src/billing/billing.service.ts:746-765 | Clears the pending plan on both sides. |
| BillingServices.TrialLifecycleService.HandleTrialExpired | src/billing/trial-lifecycle.service.ts:72-115 | Does to the row and the trial end what the run of `TrialsFallBack` does to those of one tenant. |
| BillingServices.TrialLifecycleService.RunDailyLifecycle | src/billing/trial-lifecycle.service.ts:32-54 | The loop expires exactly the trials that are over, in the order of the query. |
| BillingServices.PaymentStatusEscalationService.Transition | src/billing/payment-status-escalation.service.ts:59-81 | Writes a differing status and its date into the row the query returned, saves that row, and announces the change. |
| BillingServices.PaymentStatusEscalationService.EscalateTenant | src/billing/payment-status-escalation.service.ts:33-56 | Moves one tenant by the time the row the query returned has spent in its status; the save writes that row back over whatever is stored by then. |
| BillingServices.PaymentStatusEscalationService.RunEscalation | src/billing/payment-status-escalation.service.ts:23-57 | Reads all rows first, then saves them one by one; run alone, every tenant ends as if escalated on its own, whatever the order of the query. |
| BillingEffects.CheckoutWrites | src/billing/billing.service.ts:849-893 | A checkout writes plan, status, customer, subscription and payment of the tenant's row and keeps what was pending or cancelled; a paid one moves a future trial end to now. Nothing else changes. |
| BillingEffects.InvoicesReachBuyer | src/billing/billing.service.ts:140-246 | After a checkout, failed and paid invoices of its customer and subscription reach the buyer if nobody else stores them. |
| BillingEffects.PaymentWrites | src/billing/billing.service.ts:140-246 | A paid invoice writes the payment and the plan of the price Stripe charges into the first row with the subscription, ends a pending plan that has come true, and makes the tenant active. |
| BillingEffects.DeletionWrites | src/billing/billing.service.ts:1063-1087 | A deleted subscription leaves its row cancelled and without an id, with its recorded end date, else Stripe's, else now. |
| BillingEffects.OperationWrites | src/billing/billing.service.ts:418-765 | What each accepted operation changes in the tenant's row, field by field; the other rows stay. |
| BillingEffects.RefusalWritesNothing | src/billing/billing.service.ts:418-765 | A refused operation changes nothing but adding the tenant's first row. |
| BillingEffects.NewRowIsFree | src/billing/billing.service.ts:55-67 | A tenant without a row counts as one on the free plan with nothing else. |
| BillingEffects.EscalationWrites | src/billing/payment-status-escalation.service.ts:23-81 | A run of escalation moves the active tenants of its query: past due for 7 days to restricted, restricted for 14 to locked; it dates unpaid rows without a date, leaves everybody else, and announces exactly the moves. |
| TrialRuns.TrialsFallBack | src/billing/trial-lifecycle.service.ts:32-115 | A daily run puts the first row of each tenant whose trial is over, and who has no manual plan, on the free plan with no status, subscription, pending plan or cancellation, unless it is active; it clears the trial end of exactly the tenants that do not pay, and changes nothing else. |
| TrialRuns.NoUnpaidPlanAfterTrial | src/billing/trial-lifecycle.service.ts:72-115 | In every run, after a daily run no such tenant keeps a paid plan without an active subscription. |
| SubscriptionRuns.StatusAgreesAlways | src/billing/billing.service.ts:849-893 | In every reachable state a row is active iff it stores a subscription id (paid checkouts carry one). |
| SubscriptionRuns.CarriesIdExactly | src/billing/billing.service.ts:873-878 | A step breaks that agreement iff it is a paid checkout without an id. |
| SubscriptionRuns.UniqueKept | src/billing/billing.service.ts:55-67 | A step keeps one row per tenant and different subscriptions, unless it is a checkout that brings another tenant's. |
| SubscriptionRuns.UniqueAlways | src/billing/billing.service.ts:849-893 | Every state reached by runs without such checkouts has one row per tenant and different subscriptions. |
| SubscriptionRuns.SupersededIsInert | src/billing/billing.service.ts:1063-1087 | In every state reached by such a run, after a checkout has replaced a subscription, paid-invoice and deletion events that name the old one change nothing at any later point. |
| SubscriptionRuns.SupersededFailureExactly | src/billing/billing.service.ts:964-988 | A failed invoice naming a superseded subscription acts iff its customer has a row whose tenant is not past due. |
| DowngradeMirror.MirrorsAlways | src/billing/billing.service.ts:669-782 | Over all interleavings of downgrades, withdrawals and paid renewals of all tenants, plan, pending plan and date mirror Stripe's price and schedule, and a pending plan is strictly below the current one. |
| DowngradeMirror.MirrorReadsBack | src/billing/stripe.service.ts:21-37 | Both plans can be read back off Stripe's prices. |
| DowngradeMirror.DowngradeMirrorsExactly | src/billing/stripe.service.ts:288-300 | An accepted downgrade keeps the mirror iff Stripe reported a period end. |
| DowngradeMirror.CancelMirrorsExactly | src/billing/stripe.service.ts:360-372 | An accepted cancellation keeps it iff no downgrade is pending. |
| DowngradeMirror.UpgradeMirrorsExactly | src/billing/billing.service.ts:430-438 | An accepted upgrade keeps it iff no downgrade is pending or it stays below the new plan. |
| DowngradeMirror.CheckoutMirrorsExactly | src/billing/billing.service.ts:873-890 | A checkout starts a mirror iff no old pending plan is left over. |
| CancellationMirror.CancelsAlways | src/billing/billing.service.ts:547-635 | Over all interleavings of cancellations, reactivations, downgrades and withdrawals with known period ends, a row records a cancellation, with Stripe's period end as its date, iff its subscription is set to cancel at the period end. |
| CancellationMirror.CancellationMirrorsExactly | src/billing/billing.service.ts:547-574 | An accepted cancellation always sets Stripe to cancel; it keeps the mirror iff Stripe reports a period end. |
| CancellationMirror.UpgradeLiftsExactly | src/billing/billing.service.ts:418-440 | An accepted upgrade keeps it iff no cancellation is recorded. |
| CancellationMirror.NewCheckoutMirrorsExactly | src/billing/billing.service.ts:873-890 | A checkout of a new subscription keeps it iff no cancellation or end date is left over. |
| CancellationMirror.AcceptedExactly | src/billing/billing.service.ts:418-765 | An operation is accepted iff the row's status, dates, plan and pending plan, and what Stripe holds, allow it. |
| CancellationMirror.RefusedExactly | src/billing/billing.service.ts:418-765 | Which exception each request meets: no subscription, not active, cancelled already, nothing to take back or too late, same or higher plan, a downgrade pending already or none; what is left is Stripe's refusal. |
| CancellationMirror.ReactivationRestores | src/billing/stripe.service.ts:360-400 | A first cancellation can be taken back until its date; row and Stripe are then as before, but for the released schedule. |
| Webhook.EventIdempotencyService.IsProcessed | src/common/idempotency/event-idempotency.service.ts:14-18 | True iff the event's marker is live. |
| Webhook.EventIdempotencyService.MarkProcessed | src/common/idempotency/event-idempotency.service.ts:20-23 | Writes the marker for 24 hours. |
| Webhook.StripeWebhook.HandleStripeWebhook | src/billing/billing.service.ts:784-847 | Skips a marked event, otherwise handles it and marks it when the handler is done; a handler that throws leaves the event unmarked. Run alone, this is a beginning and an end of the protocol below. |
| Webhook.ProcessedKeyInjective | src/common/idempotency/event-idempotency.service.ts:15-15 | Markers of different events are different, for any id text. |
| Webhook.HandledOnceExactly | src/billing/billing.service.ts:800-846 | Over all interleavings of deliveries, with handlers that may throw: each event is handled until a handler completes and never again iff every later delivery of it begins after the end of that handling and less than 24 hours after it. |
| Webhook.HandledTwice | src/billing/billing.service.ts:800-846 | A second delivery that begins while the first is being handled, or a day after its end, is handled again. |
| Webhook.RedeliveryIsHarmless | src/billing/billing.service.ts:784-847 | Then billing and tenants end as if every event had been handled to its end once, after the attempts that threw. |
| PaymentSteps.HandlerAlone | src/billing/billing.service.ts:166-200 | Read, save and announcement of an invoice handler, run without a step in between, are its whole effect on tenants and announcements. |
| PaymentSteps.EscalationAlone | src/billing/payment-status-escalation.service.ts:26-81 | The same for one tenant of an escalation run. |
| PaymentSteps.EscalationSaves | src/billing/payment-status-escalation.service.ts:59-68 | On any table, the save step of a row escalation has read leaves the tenants as its service does. |
| UnpaidTenants.LockedMeansUnpaidExactly | src/billing/payment-status-escalation.service.ts:23-81 | Over every interleaving of queries, saves and announcements: a locked tenant was moved to past due by a failed invoice at least 21 days before the latest clock reading. An invoice of it was paid after that move iff the handling of a paid invoice overlaps a save on the way from the move to the lock. |
| UnpaidTenants.PaidThenLocked | src/billing/payment-status-escalation.service.ts:26-75 | A run in which escalation saves a row it read before the invoice was paid: the tenant ends locked after its payment. |
| Escalation.UnpaidGetsLocked | src/billing/payment-status-escalation.service.ts:23-81 | Over every interleaving: with escalation queries at most p apart, their saves within d, the tenant active and no save out of order, an unpaid tenant is found locked by whoever reads the clock 21 days + 2p + 2d after its move to past due. |
| Escalation.NeverSetBackExactly | src/billing/payment-status-escalation.service.ts:26-68 | From a move to past due on, the row goes back to that move and never falls behind where it stood iff every later save goes back to a reading taken since, with no save in between that moved the tenant on (one, for a save of escalation itself). |
| Escalation.NeverLocked | src/billing/trial-lifecycle.service.ts:32-115 | However often escalation asks and however fast it saves: runs of any length, with an edit around each of its saves, that leave the tenant past due. |
| Escalation.LocksInTimeExactly | src/billing/payment-status-escalation.service.ts:23-81 | For every p and d, all regular runs lock in that time iff saves out of order are ruled out. |
| PaymentEvents.BillingListener.HandleTenantPaymentStatusChanged | src/billing/listeners/billing.listener.ts:166-212 | Publishes the events the change calls for, in order: two for a restored tenant, else one. |
| PaymentEvents.PublishedExactly | src/billing/listeners/billing.listener.ts:166-212 | An event is published iff some change of that tenant and instant calls for its type: failed, restricted, locked, or both kinds of restored. |
| PaymentEvents.ReplayRebuildsStatusExactly | src/billing/listeners/billing.listener.ts:166-212 | In every reachable state the replay gives the tenant's status iff the save announced last left the same status as the save made last. |
| PaymentEvents.ReplayRebuildsStatus | src/billing/listeners/billing.listener.ts:166-212 | When each save of a tenant leaves the status it finds, or announces a change with none outstanding, replaying the published events from active gives the tenant's status whenever nothing is left to announce. |
| PaymentEvents.AlwaysAgreesExactly | src/billing/listeners/billing.listener.ts:166-212 | After any part of a run, and in whatever order the outstanding changes are then announced, the replay ends at the tenant's status iff every save is of that kind. |
| PaymentEvents.LateAnnouncement | src/billing/payment-status-escalation.service.ts:65-80 | A run with nothing left to announce whose published events say active while the tenant is locked. |
| TrialReminders.TrialNotices.HandleTrialReminder | src/billing/trial-lifecycle.service.ts:56-70 | Sends the reminder iff its key is not live, and sets the key. |
| TrialReminders.TrialNotices.EmitTrialExpired | src/billing/trial-lifecycle.service.ts:117-129 | The same for the expiry notice. |
| TrialReminders.TrialNotices.VisitTenant | src/billing/trial-lifecycle.service.ts:35-53 | Decides between expiry, reminder and nothing by the time left. |
| TrialReminders.DedupKeyExactly | src/billing/trial-lifecycle.service.ts:57-57 | Keys are equal iff kind, tenant and end date are. |
| TrialReminders.NotifiesExactly | src/billing/trial-lifecycle.service.ts:56-130 | After any run a due notice is sent iff the same one was not sent within 45 days. |
| TrialReminders.RemindsOnce | src/billing/trial-lifecycle.service.ts:48-70 | Each reminder is sent once: a due one goes out iff it was never sent before. |
| TrialReminders.GoesOutExactly | src/billing/trial-lifecycle.service.ts:35-70 | In every run a reminder has gone out iff the job visited the tenant with two to three days, or up to one day, left, and an expiry notice iff it visited it after the end of a trial that lapses. |
| TenantLifecycle.AwareTenantService.ScheduleDeletion | src/tenant/aware/aware-tenant.service.ts:219-262 | Schedules and stamps, or refuses: password, unknown tenant, already scheduled. |
| TenantLifecycle.AwareTenantService.CancelDeletion | src/tenant/aware/aware-tenant.service.ts:268-296 | Restores a scheduled tenant to active, or refuses. |
| TenantLifecycle.AwareTenantService.ExecuteDeletion | src/tenant/aware/aware-tenant.service.ts:302-332 | Run alone: removes a scheduled tenant after 30 whole days, or refuses. |
| TenantLifecycle.AwareTenantService.Lock | src/tenant/aware/aware-tenant.service.ts:342-393 | Locks any tenant that is not locked, or refuses. |
| TenantLifecycle.AwareTenantService.Unlock | src/tenant/aware/aware-tenant.service.ts:399-429 | Unlocks a locked tenant, or refuses. |
| TenantLifecycle.AwareTenantService.AutoUnlock | src/tenant/aware/aware-tenant.service.ts:435-456 | Unlocks a locked tenant and leaves others alone. |
| TenantLifecycle.AgnosticTenantService.Suspend | src/tenant/agnostic/agnostic-tenant.service.ts:111-126 | Suspends a tenant in any status. |
| TenantLifecycle.AgnosticTenantService.Unsuspend | src/tenant/agnostic/agnostic-tenant.service.ts:128-142 | Makes a tenant in any status active. |
| TenantLifecycle.RefusedExactly | src/tenant/aware/aware-tenant.service.ts:219-456 | A caller is refused for a wrong password, else for a missing tenant, else for its status, else for the grace period, and in no other case. |
| TenantLifecycle.MoveExactly | src/tenant/aware/aware-tenant.service.ts:219-456 | A move leaves its tenant in the status it stands for, with the lock or deletion fields it sets or clears, or removes it; other tenants stay, and a call that is refused changes nothing. |
| TenantLifecycle.StatusIsLastMove | src/tenant/aware/aware-tenant.service.ts:219-456 | In every run a tenant is there, in the status its last move stands for, iff that move did not execute its deletion. |
| TenantLifecycle.UnsuspendUndoesExactly | src/tenant/agnostic/agnostic-tenant.service.ts:111-142 | Suspending and unsuspending restores the tenant iff it was active. |
| TenantLifecycle.UnlockUndoesExactly | src/tenant/aware/aware-tenant.service.ts:342-429 | Locking and unlocking restores the tenant iff it was active and had no lock left over (where clearing is not stored: the same lock). |
| TenantLifecycle.CancelUndoesExactly | src/tenant/aware/aware-tenant.service.ts:219-296 | The same of scheduling and cancelling a deletion. |
| TenantLifecycle.DateIsEntry | src/tenant/aware/aware-tenant.service.ts:243-250 | In every state that whole operations reach, the date of a scheduled tenant is that of the step since which it has been scheduled. |
| TenantLifecycle.DeletionNeedsThirtyDaysExactly | src/tenant/aware/aware-tenant.service.ts:302-332 | After any run of whole operations, executing the deletion removes a tenant iff it has been scheduled continuously for the last 30 * 24 hours. |
| DeletionSteps.TransitionAlone | src/tenant/aware/aware-tenant.service.ts:219-456 | Read and write of a transition, with no step in between, are the whole operation. |
| GracePeriod.RemovalGoesBackExactly | src/tenant/aware/aware-tenant.service.ts:302-332 | Over every interleaving: an execution deletes iff the row it read goes back to a scheduling at least 30 * 24 hours before; the tenant has been scheduled ever since iff nothing took it off the schedule while the execution, or an edit on the way to that row, was under way. |
| GracePeriod.CancelledThenRemoved | src/tenant/aware/aware-tenant.service.ts:268-332 | Two runs that remove a tenant whose deletion was cancelled: cancelled while the execution is under way, and scheduled again by an edit under way. |
| MachineAuth.MachineAuthProvider.GetToken | src/common/http/machine-auth.provider.ts:41-52 | Serves a live token, joins a request under way, or starts one. |
| MachineAuth.MachineAuthProvider.OnResponse | src/common/http/machine-auth.provider.ts:61-66 | Caches the token for four fifths of its life, at least a minute, unless the cache refuses its size. |
| MachineAuth.MachineAuthProvider.OnFinally | src/common/http/machine-auth.provider.ts:49-49 | Ends the request under way. |
| MachineAuth.OneInFlight | src/common/http/machine-auth.provider.ts:46-51 | Over every interleaving at most one request is under way per key. |
| MachineAuth.SeparatesExactly | src/common/http/machine-auth.provider.ts:42-42 | In all runs over a set of requests everyone gets a token issued for its own audience and tenant iff different requests have different keys. |
| MachineAuth.CleanKeysApart | src/common/http/machine-auth.provider.ts:42-42 | Audiences without `\|` and tenants other than `-` have different keys. |
| MachineAuth.CleanCallersGetTheirOwn | src/common/http/machine-auth.provider.ts:41-67 | So such callers get their own tokens in every run. |
| MachineAuth.DirtyKeysCollide | src/common/http/machine-auth.provider.ts:42-42 | Neither condition can be dropped. |
| MachineAuth.TimelyExactly | src/common/http/machine-auth.provider.ts:62-65 | A cached token is never served past its life iff its time in the cache plus the delay of the response fits into it; without delay, iff it lives at least 60 s. |
| MachineAuth.CachedTokensAreAlive | src/common/http/machine-auth.provider.ts:43-44 | In every run with such responses, tokens served from the cache are alive. |
| MachineAuth.ServedFromCacheExactly | src/common/http/machine-auth.provider.ts:41-67 | In every run, once a response is cached and until its entry is touched, callers are served it iff it is at most a minute old or within four fifths of the life it came with (300 s if none). |
| PlanSync.ListActiveRecurringPricesWithProducts | src/billing/stripe.service.ts:69-107 | For pages of any sizes the paging loop ends with the prices up to the first empty page, once each and in order: all of them if no page is empty before the end. |
| PlanSync.PlanStripeSyncService.BuildLimitsFromMetadata | src/billing/plan-stripe-sync.service.ts:21-50 | Collects the valid limits, price before product; all are non-negative. |
| PlanSync.PlanStripeSyncService.SyncOne | src/billing/plan-stripe-sync.service.ts:93-147 | Writes a recognized price's row unless its save fails. |
| PlanSync.PlanStripeSyncService.RetireUnseen | src/billing/plan-stripe-sync.service.ts:150-165 | Deactivates the linked plans that were not seen, up to the first that cannot be saved, and reports whether it got through. |
| PlanSync.PlanStripeSyncService.SyncFromStripe | src/billing/plan-stripe-sync.service.ts:80-170 | The two loops give the state of the specification, including a second loop that throws; a failed listing changes nothing. |
| PlanSync.SyncReconciles | src/billing/plan-stripe-sync.service.ts:93-165 | With a recognized price and all saves succeeding, the active linked plans are exactly the recognized prices and say what they say. |
| PlanSync.LimitsExactly | src/billing/plan-stripe-sync.service.ts:21-50 | A price sets a limit iff the key is one of the five and its own metadata, or else that of its undeleted product, gives a finite non-negative number. |
| PlanSync.RecognizedExactly | src/billing/plan-stripe-sync.service.ts:95-109 | A price is recognized iff it is active, recurring and sets some limit. |
| PlanSync.SyncOffers | src/billing/plan-stripe-sync.service.ts:111-144 | After a sync each recognized price that could be saved has an active row with its limits, interval and metadata and its product's name, id and metadata. |
| PlanSync.SyncKeepsIdentity | src/billing/plan-stripe-sync.service.ts:119-165 | No sync removes a row or changes its id, price, tenant or manual invoicing; added rows belong to no tenant; rows of unseen prices are at most deactivated. |
| PlanSync.ActiveExactly | src/billing/plan-stripe-sync.service.ts:144-165 | With saves failing in either loop: the active linked plans are the recognized prices that were saved and the active unseen ones from the first that cannot be deactivated on, or the same as before when no price was saved. |
| PlanSync.UnlinkedUntouched | src/billing/plan-stripe-sync.service.ts:153-154 | Plans without a price id stay untouched and in place. |
| PlanSync.SyncIdempotent | src/billing/plan-stripe-sync.service.ts:80-170 | A second sync of the same list changes nothing. |
| FeatureFlag.FeatureFlagService.IsEnabled | src/common/feature-flag/feature-flag.service.ts:17-38 | Answers what a live cache entry says, else the override, else the default, else no, and fills the cache. |
| FeatureFlag.FeatureFlagService.SetOverride | src/common/feature-flag/feature-flag.service.ts:40-56 | Sets the override and drops the cache entry; refuses an unknown flag. |
| FeatureFlag.FeatureFlagService.RemoveOverride | src/common/feature-flag/feature-flag.service.ts:58-73 | Removes the override and drops the cache entry; throws without a change when the flag has no overrides column value. |
| FeatureFlag.TransparentExactly | src/common/feature-flag/feature-flag.service.ts:17-73 | Run one after another, all answers equal the cache-free lookup iff the questions have different cache keys. |
| FeatureFlag.OverrideDecidesExactly | src/common/feature-flag/feature-flag.service.ts:17-73 | With keys apart and calls one after another, the answer is the last override set and not removed since, else the one from before the run unless removed, else the default, and no for an unknown flag. |
| FeatureFlag.ColonFreeKeysApart | src/common/feature-flag/feature-flag.service.ts:18-18 | Entity ids without a colon have different keys. |
| FeatureFlag.AnswersAreRecent | src/common/feature-flag/feature-flag.service.ts:17-38 | With interleaved steps and arbitrary writers, every answer was true of the table within the last 300 s plus one call's duration. |
| FeatureFlag.BoundIsReached | src/common/feature-flag/feature-flag.service.ts:34-37 | Some run gives an answer last true 299,999 ms plus one call's duration ago. |
| AuditCsv.ExportReadsBackExactly | src/common/audit/audit.service.ts:55-76 | Read by section 2 of RFC 4180 (LF accepted), the export gives the eight titles and, for every log in order, its attribute under each title, iff the unquoted columns hold no comma, quote or line break. |
| AuditCsv.LineReadsExactly | src/common/audit/audit.service.ts:63-72 | The same for one record, whatever follows it. |

## Left out

- BillingServices.BillingService.HandleInvoicePaymentSucceeded: does not model a failing save of the tenant or of the plan Stripe charges, which the source logs and swallows.
- BillingServices.BillingDb.CreateBillingForTenant: does not model two requests that create the first row of one tenant at the same time.
- BillingServices.TrialLifecycleService.RunDailyLifecycle: does not send the notices; `TrialReminders` models them on their own.
- TenantRepository.TenantAwareRepository.ClaimPendingBatch: takes picking and locking as one step, so Postgres's re-check of a row that changed in between is not modelled.
- TenantLifecycle.AwareTenantService.Lock: does not model the queue of unlock jobs; an automatic unlock may come at any time.
- TenantLifecycle.AwareTenantService.ExecuteDeletion: read, check and delete are one step here; `DeletionSteps` takes them apart.
- TenantLifecycle.DeletionNeedsThirtyDaysExactly: speaks of whole operations; overlapping ones are in `GracePeriod.RemovalGoesBackExactly`.
- HTTP controllers other than the internal usage endpoint, DTO validation, modules, configuration and serialization: plumbing.
- SNS, SQS, SES, S3, Keto, Kratos, DNS, logging, metrics, audit records of billing operations and `subscription.*` events: foreign calls without state here.
- Referral-event consumption as an exactly-once claim: its handler does not inject what the decorator looks for.
- Invitations, members, leases, slugs, last-admin checks, presigned URLs, pagination and query builders: short rules untied to the rest.
- `saveWithIdempotency`: it rests on a unique index that is not part of this model.
- Two billing operations that overlap between read and save of one billing row: each is one step; only tenants' rows are followed access by access.
- Plans outside the four names in checkout metadata, and Stripe subscriptions with several items.
- Usage summaries and current-subscription views: reads without a state of their own.
- The percentage text of threshold events, and how limits for thresholds get into Redis: nothing in the repository sets them.
- Dates in local time: `setDate` is taken in UTC, and only appears in returned values.
- Floating point: percentages, grace and the factor 0.8 are exact.
- The order of the exported logs: the query's order is taken as given.
