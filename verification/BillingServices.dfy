/** The services that carry the billing transitions out step by step on the stored rows. */
module BillingServices {
  import opened Wrappers
  import opened BillingModel
  import opened Billing
  import TrialRuns

  class BillingDb {
    var billings: seq<Billing>
    var tenants: map<string, Tenant>
    var changes: seq<Change>

    constructor ()
      ensures Contents() == NEW_WORLD
    {
      billings, tenants, changes := [], map[], [];
    }

    ghost function Contents(): World
      reads this
    {
      World(billings, tenants, changes)
    }

    method SaveBilling(i: nat, b: Billing)
      requires i < |billings|
      modifies this`billings
      ensures billings == old(billings)[i := b]
    {
      billings := billings[i := b];
    }

    method SaveTenant(id: string, t: Tenant)
      modifies this`tenants
      ensures tenants == old(tenants)[id := t]
    {
      tenants := tenants[id := t];
    }

    method Emit(change: Change)
      modifies this`changes
      ensures changes == old(changes) + [change]
    {
      changes := changes + [change];
    }

    method Restore(w: World)
      modifies this
      ensures Contents() == w
    {
      billings, tenants, changes := w.billings, w.tenants, w.changes;
    }

    /** `createBillingForTenant`, and `ensureBillingForTenant` of the trial job. */
    method CreateBillingForTenant(tenantId: string) returns (i: nat)
      modifies this`billings
      ensures billings == Ensured(old(billings), tenantId)
      ensures i == RowOf(old(billings), tenantId) && i < |billings|
    {
      var found := First(billings, ByTenant(tenantId));
      if found.None? {
        billings := billings + [NewBilling(tenantId)];
        i := |billings| - 1;
      } else {
        i := found.value;
      }
    }
  }

  class StripeService {
    const cfg: PriceConfig
    var subscriptions: Peer

    constructor (cfg: PriceConfig, subscriptions: Peer)
      ensures this.cfg == cfg && this.subscriptions == subscriptions
    {
      this.cfg := cfg;
      this.subscriptions := subscriptions;
    }

    /** `declined`: the payment of the difference fails, and Stripe refuses the update. */
    method UpgradeSubscription(id: string, target: Plan, declined: bool) returns (r: Result<(), Refusal>)
      modifies this
      ensures match StripeUpgrade(cfg, old(subscriptions), id, target, declined)
              case Ok(after) => r.Ok? && subscriptions == after
              case Err(e) => r == Err(e) && subscriptions == old(subscriptions)
    {
      if id !in subscriptions {
        return Err(StripeRefused);
      }
      var s := subscriptions[id];
      if s.price.None? {
        return Err(StripeRefused);
      }
      var newPriceId := PriceIdFor(cfg, target);
      if newPriceId.None? || declined {
        return Err(StripeRefused);
      }
      subscriptions := subscriptions[id := s.(price := newPriceId, cancelAtPeriodEnd := false)];
      return Ok(());
    }

    method ScheduleSubscriptionDowngrade(id: string, target: Plan) returns (r: Result<Option<int>, Refusal>)
      modifies this
      ensures match StripeDowngrade(cfg, old(subscriptions), id, target)
              case Ok(after) => r == Ok(EffectiveDate(PeriodEndAt(subscriptions, id))) && subscriptions == after
              case Err(e) => r == Err(e) && subscriptions == old(subscriptions)
    {
      if id !in subscriptions {
        return Err(StripeRefused);
      }
      var s := subscriptions[id];
      var effectiveDate := if s.periodEnd.Some? && s.periodEnd.value != 0 then Some(s.periodEnd.value * 1000) else None;
      if effectiveDate.None? {
        return Ok(None);
      }
      if !Present(s.price) {
        return Err(StripeRefused);
      }
      var newPriceId := PriceIdFor(cfg, target);
      if newPriceId.None? {
        return Err(StripeRefused);
      }
      subscriptions := subscriptions[id := s.(schedule := Some(Schedule(newPriceId)))];
      return Ok(effectiveDate);
    }

    method CancelPendingSubscriptionDowngrade(id: string) returns (r: Result<(), Refusal>)
      modifies this
      ensures match StripeRelease(old(subscriptions), id)
              case Ok(after) => r.Ok? && subscriptions == after
              case Err(e) => r == Err(e) && subscriptions == old(subscriptions)
    {
      if id !in subscriptions {
        return Err(StripeRefused);
      }
      var s := subscriptions[id];
      if s.schedule.None? {
        assert s.(schedule := None) == s;
        return Ok(());
      }
      subscriptions := subscriptions[id := s.(schedule := None)];
      return Ok(());
    }

    method ScheduleSubscriptionCancellation(id: string) returns (r: Result<Option<int>, Refusal>)
      modifies this
      ensures match StripeCancel(old(subscriptions), id)
              case Ok(after) => r == Ok(EffectiveDate(PeriodEndAt(subscriptions, id))) && subscriptions == after
              case Err(e) => r == Err(e) && subscriptions == old(subscriptions)
      ensures id in old(subscriptions) ==>
                r.Ok? && id in subscriptions && subscriptions[id].cancelAtPeriodEnd && subscriptions[id].schedule.None?
    {
      if id !in subscriptions {
        return Err(StripeRefused);
      }
      if subscriptions[id].schedule.Some? {
        subscriptions := subscriptions[id := subscriptions[id].(schedule := None)];
      }
      subscriptions := subscriptions[id := subscriptions[id].(cancelAtPeriodEnd := true)];
      var end := subscriptions[id].periodEnd;
      return Ok(if end.Some? && end.value != 0 then Some(end.value * 1000) else None);
    }

    method ReactivateSubscription(id: string) returns (r: Result<(), Refusal>)
      modifies this
      ensures match StripeReactivate(old(subscriptions), id)
              case Ok(after) => r.Ok? && subscriptions == after
              case Err(e) => r == Err(e) && subscriptions == old(subscriptions)
      ensures id in old(subscriptions) ==> r.Ok? && id in subscriptions && !subscriptions[id].cancelAtPeriodEnd
    {
      if id !in subscriptions {
        return Err(StripeRefused);
      }
      subscriptions := subscriptions[id := subscriptions[id].(cancelAtPeriodEnd := false)];
      return Ok(());
    }
  }

  class BillingService {
    const db: BillingDb
    const stripe: StripeService

    constructor (db: BillingDb, stripe: StripeService)
      ensures this.db == db && this.stripe == stripe
    {
      this.db := db;
      this.stripe := stripe;
    }

    method HandleCheckoutSessionCompleted(tenantId: Option<string>, plan: Option<Plan>, customer: Option<string>,
                                          subscription: Option<string>, paymentIntent: Option<string>, now: int)
      modifies db
      ensures db.Contents() == Handle(stripe.cfg, old(db.Contents()), stripe.subscriptions,
                                   CheckoutCompleted(tenantId, plan, customer, subscription, paymentIntent), now)
    {
      if !Present(tenantId) || plan.None? {
        return;
      }
      var i := db.CreateBillingForTenant(tenantId.value);
      var billing := db.billings[i];
      if plan.value == Free {
        billing := billing.(plan := Free, status := NoSubscription, customer := customer, subscription := None);
      } else {
        billing := billing.(plan := plan.value, status := ActiveSubscription, customer := customer,
                            subscription := subscription);
      }
      billing := billing.(transaction := if paymentIntent.Some? then paymentIntent else billing.transaction);
      db.SaveBilling(i, billing);
      if plan.value != Free {
        EndTenantTrialIfActive(tenantId.value, now);
      }
    }

    method EndTenantTrialIfActive(tenantId: string, now: int)
      modifies db`tenants
      ensures db.tenants == EndTrial(old(db.tenants), tenantId, now)
    {
      if tenantId !in db.tenants || db.tenants[tenantId].trialEndsAt.None? {
        return;
      }
      var tenant := db.tenants[tenantId];
      if tenant.trialEndsAt.value > now {
        db.SaveTenant(tenantId, tenant.(trialEndsAt := Some(now)));
      }
    }

    method HandleInvoicePaymentSucceeded(subscription: Option<string>, paymentIntent: Option<string>, now: int)
      modifies db
      ensures db.Contents() == Paid(stripe.cfg, old(db.Contents()), stripe.subscriptions, subscription, paymentIntent,
                                    now)
    {
      if !Present(subscription) {
        return;
      }
      var found := First(db.billings, BySubscription(subscription.value));
      if found.None? {
        return;
      }
      var i := found.value;
      var billing := db.billings[i];
      if Present(paymentIntent) {
        billing := billing.(transaction := paymentIntent);
        db.SaveBilling(i, billing);
      }
      if billing.tenantId in db.tenants {
        var tenant := db.tenants[billing.tenantId];
        if tenant.paymentStatus != PaymentActive {
          var previousStatus := tenant.paymentStatus;
          db.SaveTenant(billing.tenantId, tenant.(paymentStatus := PaymentActive, changedAt := Some(now)));
          db.Emit(Change(billing.tenantId, previousStatus, PaymentActive, now));
        }
      }
      if subscription.value in stripe.subscriptions {
        var resolvedPlan := ResolvePlan(stripe.cfg, stripe.subscriptions[subscription.value].price);
        if resolvedPlan.Some? && resolvedPlan.value != billing.plan {
          billing := billing.(plan := resolvedPlan.value);
          if billing.pending.Some? && billing.pending == resolvedPlan {
            billing := billing.(pending := None, downgradeAt := None);
          }
          db.SaveBilling(i, billing);
        }
      }
    }

    method HandleInvoicePaymentFailed(subscription: Option<string>, customer: Option<string>, now: int)
      modifies db
      ensures db.Contents() == Failed(old(db.Contents()), subscription, customer, now)
    {
      if !Present(subscription) && !Present(customer) {
        return;
      }
      var found := None;
      if Present(subscription) {
        found := First(db.billings, BySubscription(subscription.value));
      }
      if found.None? && Present(customer) {
        found := First(db.billings, ByCustomer(customer.value));
      }
      if found.None? {
        return;
      }
      var tenantId := db.billings[found.value].tenantId;
      if tenantId in db.tenants {
        var tenant := db.tenants[tenantId];
        if tenant.paymentStatus != PastDue {
          var previousStatus := tenant.paymentStatus;
          db.SaveTenant(tenantId, tenant.(paymentStatus := PastDue, changedAt := Some(now)));
          db.Emit(Change(tenantId, previousStatus, PastDue, now));
        }
      }
    }

    method HandleCustomerSubscriptionDeleted(deleted: string, endedAt: Option<int>, now: int)
      modifies db
      ensures db.Contents() == Deleted(old(db.Contents()), deleted, endedAt, now)
    {
      var found := First(db.billings, BySubscription(deleted));
      if found.None? {
        return;
      }
      var billing := db.billings[found.value];
      var effectiveDate := if endedAt.Some? && endedAt.value != 0 then endedAt.value * 1000 else now;
      billing := billing.(status := CanceledSubscription);
      if billing.cancelEffectiveAt.None? {
        billing := billing.(cancelEffectiveAt := Some(effectiveDate));
      }
      billing := billing.(subscription := None);
      db.SaveBilling(found.value, billing);
    }

    /** The dispatch of `handleStripeWebhook`. */
    method Dispatch(e: Event, now: int)
      modifies db
      ensures db.Contents() == Handle(stripe.cfg, old(db.Contents()), stripe.subscriptions, e, now)
    {
      match e {
        case CheckoutCompleted(tenantId, plan, customer, subscription, paymentIntent) =>
          HandleCheckoutSessionCompleted(tenantId, plan, customer, subscription, paymentIntent, now);
        case InvoicePaid(subscription, paymentIntent) =>
          HandleInvoicePaymentSucceeded(subscription, paymentIntent, now);
        case InvoiceFailed(subscription, customer) =>
          HandleInvoicePaymentFailed(subscription, customer, now);
        case SubscriptionDeleted(deleted, endedAt) =>
          HandleCustomerSubscriptionDeleted(deleted, endedAt, now);
        case Unsupported =>
      }
    }

    /** What an operation of a tenant leaves behind: rows, peer and exception. */
    ghost predicate Did(refusal: Option<Refusal>, bs: seq<Billing>, peer: Peer, tenantId: string, op: Operation,
        now: int)
      reads db, stripe
    {
      && db.billings == OperatedRows(stripe.cfg, bs, peer, tenantId, op, now)
      && stripe.subscriptions == OperatedPeer(stripe.cfg, bs, peer, tenantId, op, now)
      && refusal == OperatedRefusal(stripe.cfg, bs, peer, tenantId, op, now)
    }

    method UpgradeSubscription(tenantId: string, target: Plan, declined: bool, now: int)
      returns (refusal: Option<Refusal>)
      modifies db`billings, stripe
      ensures Did(refusal, old(db.billings), old(stripe.subscriptions), tenantId, Upgrade(target, declined), now)
    {
      var i := db.CreateBillingForTenant(tenantId);
      var billing := db.billings[i];
      if !Present(billing.subscription) {
        return Some(WithoutSubscription);
      }
      var r := stripe.UpgradeSubscription(billing.subscription.value, target, declined);
      if r.Err? {
        return Some(r.error);
      }
      billing := billing.(plan := target, status := ActiveSubscription);
      db.SaveBilling(i, billing);
      return None;
    }

    method CancelSubscription(tenantId: string, reason: Option<string>, now: int) returns (refusal: Option<Refusal>)
      modifies db`billings, stripe
      ensures Did(refusal, old(db.billings), old(stripe.subscriptions), tenantId, Cancel(reason), now)
    {
      var i := db.CreateBillingForTenant(tenantId);
      var billing := db.billings[i];
      if !Present(billing.subscription) {
        return Some(WithoutSubscription);
      }
      if billing.status != ActiveSubscription {
        return Some(NotActive);
      }
      if billing.cancelRequestedAt.Some? && billing.cancelEffectiveAt.Some? && billing.cancelEffectiveAt.value > now {
        return Some(AlreadyCancelled);
      }
      var r := stripe.ScheduleSubscriptionCancellation(billing.subscription.value);
      if r.Err? {
        return Some(r.error);
      }
      billing := billing.(cancelReason := reason, cancelRequestedAt := Some(now), cancelEffectiveAt := r.value);
      db.SaveBilling(i, billing);
      return None;
    }

    method ReactivateSubscription(tenantId: string, now: int) returns (refusal: Option<Refusal>)
      modifies db`billings, stripe
      ensures Did(refusal, old(db.billings), old(stripe.subscriptions), tenantId, Reactivate, now)
    {
      var i := db.CreateBillingForTenant(tenantId);
      var billing := db.billings[i];
      if !Present(billing.subscription) {
        return Some(WithoutSubscription);
      }
      if billing.cancelRequestedAt.None? || billing.cancelEffectiveAt.None? {
        return Some(WithoutCancellation);
      }
      if billing.cancelEffectiveAt.value <= now {
        return Some(CancellationOver);
      }
      var r := stripe.ReactivateSubscription(billing.subscription.value);
      if r.Err? {
        return Some(r.error);
      }
      billing := billing.(cancelReason := None, cancelRequestedAt := None, cancelEffectiveAt := None);
      db.SaveBilling(i, billing);
      return None;
    }

    method DowngradeSubscription(tenantId: string, target: Plan, now: int) returns (refusal: Option<Refusal>)
      modifies db`billings, stripe
      ensures Did(refusal, old(db.billings), old(stripe.subscriptions), tenantId, Downgrade(target), now)
    {
      var i := db.CreateBillingForTenant(tenantId);
      var billing := db.billings[i];
      if !Present(billing.subscription) {
        return Some(WithoutSubscription);
      }
      if billing.plan == target {
        return Some(SamePlan);
      }
      if Rank(target) >= Rank(billing.plan) {
        return Some(NotLower);
      }
      if billing.pending.Some? {
        return Some(AlreadyPending);
      }
      var r := stripe.ScheduleSubscriptionDowngrade(billing.subscription.value, target);
      if r.Err? {
        return Some(r.error);
      }
      billing := billing.(pending := Some(target), downgradeAt := r.value);
      db.SaveBilling(i, billing);
      return None;
    }

    method CancelPendingDowngrade(tenantId: string, now: int) returns (refusal: Option<Refusal>)
      modifies db`billings, stripe
      ensures Did(refusal, old(db.billings), old(stripe.subscriptions), tenantId, CancelDowngrade, now)
    {
      var i := db.CreateBillingForTenant(tenantId);
      var billing := db.billings[i];
      if !Present(billing.subscription) {
        return Some(WithoutSubscription);
      }
      if billing.pending.None? {
        return Some(WithoutPending);
      }
      var r := stripe.CancelPendingSubscriptionDowngrade(billing.subscription.value);
      if r.Err? {
        return Some(r.error);
      }
      billing := billing.(pending := None, downgradeAt := None);
      db.SaveBilling(i, billing);
      return None;
    }
  }

  /** The answer of a query for tenants: every tenant that satisfies it, once. */
  ghost predicate Answers(found: seq<string>, tenants: map<string, Tenant>, wanted: Tenant -> bool) {
    && (forall i, j | 0 <= i < j < |found| :: found[i] != found[j])
    && (forall id :: id in found <==> id in tenants && wanted(tenants[id]))
  }

  class TrialLifecycleService {
    const db: BillingDb

    constructor (db: BillingDb)
      ensures this.db == db
    {
      this.db := db;
    }

    method HandleTrialExpired(tenantId: string, manualPlan: bool, clears: bool)
      modifies db
      ensures db.Contents() == if manualPlan then old(db.Contents())
              else TrialExpired(old(db.Contents()), tenantId, clears)
      ensures manualPlan || TrialRuns.RowsFall(old(db.billings), db.billings, {tenantId})
    {
      TrialRuns.OneFalls(db.billings, tenantId);
      hide TrialRuns.RowsFall;
      if manualPlan {
        return;
      }
      var i := db.CreateBillingForTenant(tenantId);
      var billing := db.billings[i];
      if billing.status == ActiveSubscription {
        return;
      }
      if billing.plan != Free || billing.status != NoSubscription {
        billing := billing.(plan := Free, status := NoSubscription, pending := None, downgradeAt := None,
                            cancelReason := None, cancelRequestedAt := None, cancelEffectiveAt := None,
                            subscription := None);
        db.SaveBilling(i, billing);
      }
      if clears && tenantId in db.tenants {
        db.SaveTenant(tenantId, db.tenants[tenantId].(trialEndsAt := None));
      }
    }

    method RunDailyLifecycle(found: seq<string>, manual: set<string>, clears: bool, now: int)
      requires Answers(found, db.tenants, (t: Tenant) => t.status == Active)
      modifies db
      ensures db.Contents() == TrialsExpired(old(db.Contents()), found, manual, clears, now)
      ensures TrialRuns.RowsFall(old(db.billings), db.billings,
                                 TrialRuns.Out(old(db.Contents()), found, manual, now))
    {
      hide TrialRuns.RowsFall, TrialRuns.Out;
      for k := 0 to |found|
        invariant db.Contents() == TrialsExpired(old(db.Contents()), found[..k], manual, clears, now)
        invariant forall j | k <= j < |found| ::
                  found[j] in db.tenants && db.tenants[found[j]] == old(db.tenants)[found[j]]
      {
        assert found[..k + 1][..k] == found[..k];
        var tenant := db.tenants[found[k]];
        if tenant.trialEndsAt.Some? {
          if tenant.trialEndsAt.value - now <= 0 {
            HandleTrialExpired(found[k], found[k] in manual, clears);
          }
        }
      }
      assert found[..|found|] == found;
      TrialRuns.TrialsFall(old(db.Contents()), found, manual, clears, now);
    }
  }

  class PaymentStatusEscalationService {
    const db: BillingDb

    constructor (db: BillingDb)
      ensures this.db == db
    {
      this.db := db;
    }

    /** Saves the row given, not the one stored. */
    method Transition(id: string, tenant: Tenant, next: PaymentStatus, now: int)
      requires tenant.paymentStatus != next
      modifies db`tenants, db`changes
      ensures db.tenants == old(db.tenants)[id := tenant.(paymentStatus := next, changedAt := Some(now))]
      ensures db.changes == old(db.changes) + [Change(id, tenant.paymentStatus, next, now)]
    {
      var previousStatus := tenant.paymentStatus;
      if previousStatus == next {
        return;
      }
      db.SaveTenant(id, tenant.(paymentStatus := next, changedAt := Some(now)));
      db.Emit(Change(id, previousStatus, next, now));
    }

    /** The body of the loop over the tenants found: `tenant` is the row the query returned. */
    method EscalateTenant(id: string, tenant: Tenant, now: int)
      requires Escalates(tenant)
      modifies db`tenants, db`changes
      ensures db.Contents() == EscalatedFrom(old(db.Contents()), id, tenant, now)
    {
      var changedAt := tenant.changedAt;
      if changedAt.None? {
        db.SaveTenant(id, tenant.(changedAt := Some(now)));
        return;
      }
      var elapsedMs := now - changedAt.value;
      if tenant.paymentStatus == PastDue {
        if elapsedMs >= PAST_DUE_TO_RESTRICTED_MS {
          Transition(id, tenant, Restricted, now);
        }
        return;
      }
      if tenant.paymentStatus == Restricted {
        if elapsedMs >= RESTRICTED_TO_LOCKED_MS {
          Transition(id, tenant, PaymentLocked, now);
        }
      }
    }

    /** A run that nothing comes between leaves every tenant as `Escalated` says, and announces the moves in the
        order of the query. */
    method RunEscalation(found: seq<string>, now: int)
      requires Answers(found, db.tenants, (t: Tenant) => Escalates(t))
      modifies db`tenants, db`changes
      ensures db.Contents() == EscalatedAll(old(db.Contents()), found, now)
      ensures db.tenants == map id | id in old(db.tenants) :: Escalated(old(db.tenants)[id], now)
    {
      hide Escalated, EscalatedFrom;
      var tenants := map id | id in found :: db.tenants[id];
      for k := 0 to |found|
        invariant db.Contents() == EscalatedAll(old(db.Contents()), found[..k], now)
        invariant forall j | k <= j < |found| ::
                  found[j] in db.tenants && db.tenants[found[j]] == old(db.tenants)[found[j]]
      {
        assert found[..k + 1][..k] == found[..k];
        assert Escalates(old(db.tenants)[found[k]]);
        EscalatedElsewhere(db.Contents(), found[k], now);
        EscalateTenant(found[k], tenants[found[k]], now);
      }
      assert found[..|found|] == found;
      EscalatedPointwise(old(db.Contents()), found, now);
    }
  }
}
