/** What whole runs of the billing state machine keep: the subscription status agrees with the stored Stripe id,
    rows stay unique, and events that name a superseded subscription are inert. */
module SubscriptionRuns {
  import opened Wrappers
  import opened BillingModel
  import opened Billing

  // ---------- Every step, row by row

  /** The row after a step is a row from before it, transformed by one of the four writers. */
  predicate RowStep(cfg: PriceConfig, s: Step, before: Billing, after: Billing) {
    || after == before
    || (s.Deliver? && s.event.CheckoutCompleted? && s.event.plan.Some? && s.event.tenantId == Some(before.tenantId)
        && after == AfterCheckout(before, s.event.plan.value, s.event.customer, s.event.subscription,
                                  s.event.paymentIntent))
    || (s.Deliver? && s.event.InvoicePaid? && after.tenantId == before.tenantId
        && after.status == before.status && after.subscription == before.subscription)
    || (s.Deliver? && s.event.SubscriptionDeleted? && before.subscription == Some(s.event.deleted)
        && after == before.(status := CanceledSubscription, subscription := None,
                            cancelEffectiveAt := after.cancelEffectiveAt))
    || (s.Operate? && after == Operated(cfg, before, s.peer, s.op, s.now).row)
    || (s.Trials? && after == AfterTrial(before))
  }

  /** The rows of a step: old ones in place, each through `RowStep`, then new ones, made from a fresh row. */
  predicate RowsStep(cfg: PriceConfig, s: Step, before: seq<Billing>, after: seq<Billing>) {
    && |before| <= |after|
    && (forall i | 0 <= i < |before| :: RowStep(cfg, s, before[i], after[i]))
    && (forall i | |before| <= i < |after| ::
          && (forall j | 0 <= j < i :: after[j].tenantId != after[i].tenantId)
          && RowStep(cfg, s, NewBilling(after[i].tenantId), after[i]))
  }

  lemma FirstByTenant(bs: seq<Billing>, tenantId: string)
    ensures First(bs, ByTenant(tenantId)).None? ==> forall j | 0 <= j < |bs| :: bs[j].tenantId != tenantId
  {
    if First(bs, ByTenant(tenantId)).None? {
      forall j | 0 <= j < |bs| ensures bs[j].tenantId != tenantId {
        assert !Matches(bs[j], ByTenant(tenantId));
      }
    }
  }

  lemma Unmoved(cfg: PriceConfig, s: Step, b: Billing)
    ensures RowStep(cfg, s, b, b)
  {
  }

  lemma EnsuredRows(cfg: PriceConfig, s: Step, bs: seq<Billing>, tenantId: string, row: Billing)
    requires RowStep(cfg, s, Ensured(bs, tenantId)[RowOf(bs, tenantId)], row) && row.tenantId == tenantId
    ensures RowsStep(cfg, s, bs, Ensured(bs, tenantId)[RowOf(bs, tenantId) := row])
  {
    hide RowStep;
    FirstByTenant(bs, tenantId);
    forall b: Billing ensures RowStep(cfg, s, b, b) {
      Unmoved(cfg, s, b);
    }
  }

  lemma {:induction false} TrialRows(cfg: PriceConfig, w: World, s: Step, found: seq<string>)
    requires s.Trials?
    ensures RowsStep(cfg, s, w.billings, TrialsExpired(w, found, s.manual, s.clears, s.now).billings)
  {
    if |found| > 0 {
      var before := TrialsExpired(w, found[..|found| - 1], s.manual, s.clears, s.now);
      TrialRows(cfg, w, s, found[..|found| - 1]);
      var id := found[|found| - 1];
      if TrialOver(w, id, s.manual, s.now) {
        hide RowOf, Ensured, First;
        TrialRow(cfg, s, w.billings, before, id);
      }
    }
  }

  /** Expiring a trial twice is expiring it once, so the transformation composes with itself. */
  lemma TrialRow(cfg: PriceConfig, s: Step, bs: seq<Billing>, before: World, id: string)
    requires s.Trials? && RowsStep(cfg, s, bs, before.billings)
    ensures RowsStep(cfg, s, bs, TrialExpired(before, id, s.clears).billings)
  {
    var i := RowOf(before.billings, id);
    var rows := Ensured(before.billings, id);
    FirstByTenant(before.billings, id);
    assert AfterTrial(AfterTrial(rows[i])) == AfterTrial(rows[i]);
    var after := rows[i := AfterTrial(rows[i])];
    assert TrialExpired(before, id, s.clears).billings == after;
    forall j | |bs| <= j < |after|
      ensures RowStep(cfg, s, NewBilling(after[j].tenantId), after[j])
      ensures forall k | 0 <= k < j :: after[k].tenantId != after[j].tenantId
    {
      assert j < |before.billings| ==> RowStep(cfg, s, NewBilling(rows[j].tenantId), rows[j]);
    }
  }

  lemma OperatedRow(cfg: PriceConfig, w: World, s: Step)
    requires s.Operate?
    ensures RowsStep(cfg, s, w.billings, Next(cfg, w, s).billings)
  {
    hide RowsStep;
    var before := Ensured(w.billings, s.tenantId)[RowOf(w.billings, s.tenantId)];
    EnsuredRows(cfg, s, w.billings, s.tenantId, Operated(cfg, before, s.peer, s.op, s.now).row);
  }

  lemma DeliveredRows(cfg: PriceConfig, w: World, s: Step)
    requires s.Deliver?
    ensures RowsStep(cfg, s, w.billings, Next(cfg, w, s).billings)
  {
    match s.event {
      case CheckoutCompleted(tenantId, plan, customer, subscription, paymentIntent) =>
        if Present(tenantId) && plan.Some? {
          hide RowsStep;
          var before := Ensured(w.billings, tenantId.value)[RowOf(w.billings, tenantId.value)];
          EnsuredRows(cfg, s, w.billings, tenantId.value,
                      AfterCheckout(before, plan.value, customer, subscription, paymentIntent));
        }
      case InvoicePaid(_, _) =>
      case InvoiceFailed(_, _) =>
      case SubscriptionDeleted(_, _) =>
      case Unsupported =>
    }
  }

  lemma {:induction false} EscalationKeepsRows(w: World, found: seq<string>, now: int)
    ensures EscalatedAll(w, found, now).billings == w.billings
  {
    if |found| > 0 {
      EscalationKeepsRows(w, found[..|found| - 1], now);
    }
  }

  /** Every step treats the rows one by one. */
  lemma NextRows(cfg: PriceConfig, w: World, s: Step)
    ensures RowsStep(cfg, s, w.billings, Next(cfg, w, s).billings)
  {
    match s {
      case Deliver(_, _, _) => DeliveredRows(cfg, w, s);
      case Operate(_, _, _, _) => OperatedRow(cfg, w, s);
      case Trials(found, _, _, _) => TrialRows(cfg, w, s, found);
      case Escalate(found, now) => EscalationKeepsRows(w, found, now);
      case Register(_, _) =>
      case SetStatus(_, _) =>
    }
  }

  // ---------- The status agrees with the stored id

  predicate RowAgrees(b: Billing) {
    b.status == ActiveSubscription <==> Present(b.subscription)
  }

  predicate StatusAgrees(w: World) {
    forall i | 0 <= i < |w.billings| :: RowAgrees(w.billings[i])
  }

  predicate PaidCheckout(e: Event) {
    e.CheckoutCompleted? && Present(e.tenantId) && e.plan.Some? && e.plan.value != Free
  }

  /** A completed checkout of a paid plan carries the subscription it opened. */
  predicate CarriesId(s: Step) {
    s.Deliver? && PaidCheckout(s.event) ==> Present(s.event.subscription)
  }

  lemma NextKeepsStatus(cfg: PriceConfig, w: World, s: Step)
    requires StatusAgrees(w) && CarriesId(s)
    ensures StatusAgrees(Next(cfg, w, s))
  {
    NextRows(cfg, w, s);
    var after := Next(cfg, w, s).billings;
    if s.Deliver? && s.event.CheckoutCompleted? && !Present(s.event.tenantId) {
      assert after == w.billings;
    } else {
      hide Next, Handle;
      forall i | 0 <= i < |after| ensures RowAgrees(after[i]) {
        var before := if i < |w.billings| then w.billings[i] else NewBilling(after[i].tenantId);
        assert RowAgrees(before);
        assert RowStep(cfg, s, before, after[i]);
      }
    }
  }

  /** In every state a run reaches, a row is active exactly when it stores a subscription id. */
  lemma {:induction false} StatusAgreesAlways(cfg: PriceConfig, steps: seq<Step>)
    requires forall i | 0 <= i < |steps| :: CarriesId(steps[i])
    ensures StatusAgrees(Run(cfg, NEW_WORLD, steps))
  {
    if |steps| > 0 {
      StatusAgreesAlways(cfg, steps[..|steps| - 1]);
      NextKeepsStatus(cfg, Run(cfg, NEW_WORLD, steps[..|steps| - 1]), steps[|steps| - 1]);
    }
  }

  /** The condition is exact: a step breaks the agreement just when it is a paid checkout without the id. */
  lemma CarriesIdExactly(cfg: PriceConfig, w: World, s: Step)
    requires StatusAgrees(w)
    ensures StatusAgrees(Next(cfg, w, s)) <==> CarriesId(s)
  {
    if CarriesId(s) {
      NextKeepsStatus(cfg, w, s);
    } else {
      var i := RowOf(w.billings, s.event.tenantId.value);
      assert !RowAgrees(Next(cfg, w, s).billings[i]);
    }
  }

  // ---------- Rows stay unique

  predicate SameSubscription(a: Billing, b: Billing) {
    Present(a.subscription) && a.subscription == b.subscription
  }

  /** One row per tenant, and no subscription stored twice. */
  predicate Unique(bs: seq<Billing>) {
    forall i, j | 0 <= i < j < |bs| :: bs[i].tenantId != bs[j].tenantId && !SameSubscription(bs[i], bs[j])
  }

  /** The step is not a checkout of a subscription that another tenant's row stores. */
  predicate OwnSubscription(w: World, s: Step) {
    s.Deliver? && PaidCheckout(s.event) ==>
      forall i | 0 <= i < |w.billings| ::
          w.billings[i].tenantId != s.event.tenantId.value ==> w.billings[i].subscription != s.event.subscription
  }

  lemma RowStepIds(cfg: PriceConfig, s: Step, before: Billing, after: Billing)
    requires RowStep(cfg, s, before, after)
    ensures after.tenantId == before.tenantId
    ensures Present(after.subscription) ==>
              || after.subscription == before.subscription
              || (s.Deliver? && PaidCheckout(s.event) && s.event.tenantId == Some(before.tenantId)
                  && after.subscription == s.event.subscription)
              || (s.Deliver? && s.event.CheckoutCompleted? && !Present(s.event.tenantId))
  {
  }

  lemma UniqueKept(cfg: PriceConfig, w: World, s: Step)
    requires Unique(w.billings) && OwnSubscription(w, s)
    ensures Unique(Next(cfg, w, s).billings)
  {
    NextRows(cfg, w, s);
    var after := Next(cfg, w, s).billings;
    if s.Deliver? && s.event.CheckoutCompleted? && !Present(s.event.tenantId) {
      assert after == w.billings;
    } else {
      hide Next, Handle, RowStep;
      forall i | 0 <= i < |after| ensures
        var before := if i < |w.billings| then w.billings[i] else NewBilling(after[i].tenantId);
        && after[i].tenantId == before.tenantId
        && (Present(after[i].subscription) ==>
              || after[i].subscription == before.subscription
              || (s.Deliver? && PaidCheckout(s.event) && s.event.tenantId == Some(before.tenantId)
                  && after[i].subscription == s.event.subscription))
      {
        RowStepIds(cfg, s, if i < |w.billings| then w.billings[i] else NewBilling(after[i].tenantId), after[i]);
      }
    }
  }

  /** No checkout of the run brings a subscription that another tenant's row stores by then. */
  predicate OwnSubscriptions(cfg: PriceConfig, steps: seq<Step>) {
    forall k | 0 <= k < |steps| :: OwnSubscription(Run(cfg, NEW_WORLD, steps[..k]), steps[k])
  }

  /** In every state such a run reaches, there is one row per tenant and no subscription is stored twice. */
  lemma {:induction false} UniqueAlways(cfg: PriceConfig, steps: seq<Step>)
    requires OwnSubscriptions(cfg, steps)
    ensures Unique(Run(cfg, NEW_WORLD, steps).billings)
  {
    hide Next, OwnSubscription;
    if |steps| > 0 {
      var n := |steps| - 1;
      assert forall k | 0 <= k < n :: steps[..n][..k] == steps[..k] && steps[..n][k] == steps[k];
      UniqueAlways(cfg, steps[..n]);
      hide Unique;
      UniqueKept(cfg, Run(cfg, NEW_WORLD, steps[..n]), steps[n]);
    }
  }

  // ---------- Superseded subscriptions

  predicate Stored(w: World, id: string) {
    exists i | 0 <= i < |w.billings| :: w.billings[i].subscription == Some(id)
  }

  /** A completed checkout that brings this subscription. */
  predicate Brings(s: Step, id: string) {
    s.Deliver? && PaidCheckout(s.event) && s.event.subscription == Some(id)
  }

  lemma StaysUnstored(cfg: PriceConfig, w: World, s: Step, id: string)
    requires !Stored(w, id) && !Brings(s, id) && id != ""
    ensures !Stored(Next(cfg, w, s), id)
  {
    NextRows(cfg, w, s);
    var after := Next(cfg, w, s).billings;
    if s.Deliver? && s.event.CheckoutCompleted? && !Present(s.event.tenantId) {
      assert after == w.billings;
    } else {
      hide Next, Handle, RowStep;
      forall i | 0 <= i < |after| ensures after[i].subscription != Some(id) {
        RowStepIds(cfg, s, if i < |w.billings| then w.billings[i] else NewBilling(after[i].tenantId), after[i]);
      }
    }
  }

  lemma {:induction false} RunStaysUnstored(cfg: PriceConfig, w: World, steps: seq<Step>, id: string)
    requires !Stored(w, id) && id != ""
    requires forall k | 0 <= k < |steps| :: !Brings(steps[k], id)
    ensures !Stored(Run(cfg, w, steps), id)
  {
    if |steps| > 0 {
      RunStaysUnstored(cfg, w, steps[..|steps| - 1], id);
      StaysUnstored(cfg, Run(cfg, w, steps[..|steps| - 1]), steps[|steps| - 1], id);
    }
  }

  /** The tenant's own row stores the subscription. */
  predicate StoredBy(w: World, tenantId: string, id: string) {
    exists i | 0 <= i < |w.billings| :: w.billings[i].tenantId == tenantId && w.billings[i].subscription == Some(id)
  }

  /** A checkout of another subscription (or of the free plan) leaves the tenant's old one stored nowhere. */
  lemma CheckoutSupersedes(cfg: PriceConfig, w: World, s: Step, id: string)
    requires Unique(w.billings) && id != ""
    requires s.Deliver? && s.event.CheckoutCompleted? && Present(s.event.tenantId) && s.event.plan.Some?
             && !Brings(s, id)
    requires StoredBy(w, s.event.tenantId.value, id)
    ensures !Stored(Next(cfg, w, s), id)
  {
    var i :| 0 <= i < |w.billings| && w.billings[i].tenantId == s.event.tenantId.value
        && w.billings[i].subscription == Some(id);
    FirstByTenant(w.billings, s.event.tenantId.value);
    assert RowOf(w.billings, s.event.tenantId.value) == i;
    var after := Next(cfg, w, s).billings;
    forall j | 0 <= j < |after| ensures after[j].subscription != Some(id) {
      if j < i {
        assert !SameSubscription(w.billings[j], w.billings[i]);
      } else if j > i {
        assert !SameSubscription(w.billings[i], w.billings[j]);
      }
    }
  }

  lemma UnstoredInert(cfg: PriceConfig, w: World, peer: Peer, id: string, paymentIntent: Option<string>,
      endedAt: Option<int>, now: int)
    requires !Stored(w, id)
    ensures Handle(cfg, w, peer, InvoicePaid(Some(id), paymentIntent), now) == w
    ensures Handle(cfg, w, peer, SubscriptionDeleted(id, endedAt), now) == w
  {
    assert First(w.billings, BySubscription(id)).None?;
  }

  /** In every run, once a checkout has replaced a tenant's subscription, paid-invoice and deletion events that name
      the old one change nothing, at any later point up to which no checkout brings the old one back. */
  lemma SupersededIsInert(cfg: PriceConfig, before: seq<Step>, checkout: Step, steps: seq<Step>, id: string,
                          peer: Peer, paymentIntent: Option<string>, endedAt: Option<int>, now: int)
    requires OwnSubscriptions(cfg, before) && id != ""
    requires checkout.Deliver? && checkout.event.CheckoutCompleted?
    requires Present(checkout.event.tenantId) && checkout.event.plan.Some? && !Brings(checkout, id)
    requires StoredBy(Run(cfg, NEW_WORLD, before), checkout.event.tenantId.value, id)
    requires forall k | 0 <= k < |steps| :: !Brings(steps[k], id)
    ensures var later := Run(cfg, Next(cfg, Run(cfg, NEW_WORLD, before), checkout), steps);
            && Handle(cfg, later, peer, InvoicePaid(Some(id), paymentIntent), now) == later
            && Handle(cfg, later, peer, SubscriptionDeleted(id, endedAt), now) == later
  {
    UniqueAlways(cfg, before);
    hide Run, Next, Handle;
    var w := Run(cfg, NEW_WORLD, before);
    CheckoutSupersedes(cfg, w, checkout, id);
    RunStaysUnstored(cfg, Next(cfg, w, checkout), steps, id);
    UnstoredInert(cfg, Run(cfg, Next(cfg, w, checkout), steps), peer, id, paymentIntent, endedAt, now);
  }

  /** A failed invoice is looked up by customer as well, so one that names a superseded subscription still acts,
      exactly when its customer belongs to a row whose tenant is not past due already. */
  lemma SupersededFailureExactly(cfg: PriceConfig, w: World, peer: Peer, id: string, customer: Option<string>, now: int)
    requires !Stored(w, id)
    ensures Handle(cfg, w, peer, InvoiceFailed(Some(id), customer), now) != w <==>
            && Present(customer)
            && First(w.billings, ByCustomer(customer.value)).Some?
            && var tenantId := w.billings[First(w.billings, ByCustomer(customer.value)).value].tenantId;
               tenantId in w.tenants && w.tenants[tenantId].paymentStatus != PastDue
  {
    assert First(w.billings, BySubscription(id)).None?;
    var i := FailedRow(w.billings, Some(id), customer);
    if i.Some? {
      var tenantId := w.billings[i.value].tenantId;
      if tenantId in w.tenants && w.tenants[tenantId].paymentStatus != PastDue {
        assert |SetPayment(w, tenantId, PastDue, now).changes| > |w.changes|;
      }
    }
  }
}
