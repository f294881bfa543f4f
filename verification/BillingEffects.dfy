/** What the events of a subscription leave in the rows and with the tenants, field by field, and what this is good
    for later. */
module BillingEffects {
  import opened Wrappers
  import opened BillingModel
  import opened Billing

  // ---------- Rows

  /** All rows but those of the tenant are as before, and none is added for anybody else. */
  predicate OthersKept(before: seq<Billing>, after: seq<Billing>, tenantId: string) {
    && |before| <= |after|
    && (forall j | 0 <= j < |before| && before[j].tenantId != tenantId :: after[j] == before[j])
    && forall j | |before| <= j < |after| :: after[j].tenantId == tenantId
  }

  lemma WrittenIsCurrent(bs: seq<Billing>, tenantId: string, row: Billing)
    requires row.tenantId == tenantId
    ensures var after := Ensured(bs, tenantId)[RowOf(bs, tenantId) := row];
            Current(after, tenantId) == row && OthersKept(bs, after, tenantId)
  {
    var i := RowOf(bs, tenantId);
    var after := Ensured(bs, tenantId)[i := row];
    assert forall j | 0 <= j < |bs| :: Matches(bs[j], ByTenant(tenantId)) <==> bs[j].tenantId == tenantId;
    assert Matches(after[i], ByTenant(tenantId));
    assert forall j | 0 <= j < i :: after[j] == bs[j];
    var k := First(after, ByTenant(tenantId));
    assert k == Some(i);
  }

  // ---------- Checkout

  /** A completed checkout: the tenant's row takes the plan, customer, subscription and payment; what was scheduled or
      cancelled before stays. A paid plan ends a trial that still runs, and nothing else about tenants changes. */
  lemma CheckoutWrites(cfg: PriceConfig, w: World, peer: Peer, tenantId: string, plan: Plan, customer: Option<string>,
      subscription: Option<string>, paymentIntent: Option<string>, now: int)
    requires tenantId != ""
    ensures var e := CheckoutCompleted(Some(tenantId), Some(plan), customer, subscription, paymentIntent);
            var after := Handle(cfg, w, peer, e, now);
            var b, c := Current(w.billings, tenantId), Current(after.billings, tenantId);
            && OthersKept(w.billings, after.billings, tenantId)
            && c.plan == plan && c.customer == customer
            && (if plan == Free then c.status == NoSubscription && c.subscription.None?
                else c.status == ActiveSubscription && c.subscription == subscription)
            && c.transaction == (match paymentIntent case Some(_) => paymentIntent case None => b.transaction)
            && c.pending == b.pending && c.downgradeAt == b.downgradeAt && c.cancelReason == b.cancelReason
            && c.cancelRequestedAt == b.cancelRequestedAt && c.cancelEffectiveAt == b.cancelEffectiveAt
            && after.changes == w.changes && after.tenants.Keys == w.tenants.Keys
            && forall id | id in w.tenants ::
                 after.tenants[id] ==
                 match w.tenants[id].trialEndsAt
                 case Some(end) =>
                   if id == tenantId && plan != Free && now < end then w.tenants[id].(trialEndsAt := Some(now))
                   else w.tenants[id]
                 case None => w.tenants[id]
  {
    var row := AfterCheckout(Current(w.billings, tenantId), plan, customer, subscription, paymentIntent);
    WrittenIsCurrent(w.billings, tenantId, row);
    hide Current, OthersKept, Ensured, RowOf;
  }

  lemma FirstIs(bs: seq<Billing>, k: Lookup, i: nat)
    requires i < |bs| && Matches(bs[i], k) && forall j | 0 <= j < i :: !Matches(bs[j], k)
    ensures First(bs, k) == Some(i)
  {
    var r := First(bs, k);
    assert r.Some? ==> r.value <= i;
  }

  /** After a checkout the invoices of its customer and of its subscription reach the tenant, if nobody else stores
      them: a failed one makes it past due, a paid one active. */
  lemma InvoicesReachBuyer(cfg: PriceConfig, w: World, peer: Peer, tenantId: string, plan: Plan, customer: string,
      subscription: string, paymentIntent: Option<string>, now: int, later: int)
    requires tenantId != "" && customer != "" && subscription != "" && plan != Free && tenantId in w.tenants
    requires forall j | 0 <= j < |w.billings| ::
               w.billings[j].customer != Some(customer) && w.billings[j].subscription != Some(subscription)
    ensures var e := CheckoutCompleted(Some(tenantId), Some(plan), Some(customer), Some(subscription), paymentIntent);
            var bought := Handle(cfg, w, peer, e, now);
            var failed := Handle(cfg, bought, peer, InvoiceFailed(None, Some(customer)), later);
            var paid := Handle(cfg, failed, peer, InvoicePaid(Some(subscription), None), later);
            && tenantId in failed.tenants && failed.tenants[tenantId].paymentStatus == PastDue
            && Handle(cfg, bought, peer, InvoiceFailed(Some(subscription), None), later) == failed
            && tenantId in paid.tenants && paid.tenants[tenantId].paymentStatus == PaymentActive
  {
    var i := RowOf(w.billings, tenantId);
    var e := CheckoutCompleted(Some(tenantId), Some(plan), Some(customer), Some(subscription), paymentIntent);
    var rows := Handle(cfg, w, peer, e, now).billings;
    assert rows[i].customer == Some(customer) && rows[i].subscription == Some(subscription);
    assert rows[i].tenantId == tenantId;
    assert forall j | 0 <= j < i :: rows[j] == w.billings[j];
    FirstIs(rows, ByCustomer(customer), i);
    FirstIs(rows, BySubscription(subscription), i);
    hide First, Reconciled;
  }

  // ---------- Paid invoices

  /** A paid invoice of a stored subscription: the first row that stores it takes the payment and the plan of the
      price Stripe charges, which settles a pending downgrade to that plan; its tenant is active again, and a change
      is announced. */
  lemma PaymentWrites(cfg: PriceConfig, w: World, peer: Peer, id: string, paymentIntent: Option<string>, now: int,
      i: nat)
    requires id != "" && i < |w.billings| && w.billings[i].subscription == Some(id)
    requires forall j | 0 <= j < i :: w.billings[j].subscription != Some(id)
    ensures var after := Handle(cfg, w, peer, InvoicePaid(Some(id), paymentIntent), now);
            var b := w.billings[i];
            var charged := if id in peer then ResolvePlan(cfg, peer[id].price) else None;
            var settled := charged.Some? && charged.value != b.plan && b.pending == charged;
            && |after.billings| == |w.billings|
            && (forall j | 0 <= j < |w.billings| && j != i :: after.billings[j] == w.billings[j])
            && after.billings[i] == b.(
                 transaction := if paymentIntent.Some? && paymentIntent.value != "" then paymentIntent
                   else b.transaction,
                 plan := if charged.Some? then charged.value else b.plan,
                 pending := if settled then None else b.pending,
                 downgradeAt := if settled then None else b.downgradeAt)
            && after.tenants.Keys == w.tenants.Keys
            && (forall t | t in w.tenants :: after.tenants[t] ==
                  if t == b.tenantId && w.tenants[t].paymentStatus != PaymentActive
                  then w.tenants[t].(paymentStatus := PaymentActive, changedAt := Some(now)) else w.tenants[t])
            && after.changes == w.changes +
                 if b.tenantId in w.tenants && w.tenants[b.tenantId].paymentStatus != PaymentActive
                 then [Change(b.tenantId, w.tenants[b.tenantId].paymentStatus, PaymentActive, now)] else []
  {
    FirstIs(w.billings, BySubscription(id), i);
    hide First, ResolvePlan;
  }

  // ---------- Deleted subscriptions

  /** A deleted subscription: the first row that stores it is cancelled and forgets it. A date recorded for the end
      stays; otherwise it is when Stripe says the subscription ended, or now. */
  lemma DeletionWrites(cfg: PriceConfig, w: World, peer: Peer, id: string, endedAt: Option<int>, now: int, i: nat)
    requires i < |w.billings| && w.billings[i].subscription == Some(id)
    requires forall j | 0 <= j < i :: w.billings[j].subscription != Some(id)
    ensures var after := Handle(cfg, w, peer, SubscriptionDeleted(id, endedAt), now);
            var b := w.billings[i];
            && after.tenants == w.tenants && after.changes == w.changes && |after.billings| == |w.billings|
            && (forall j | 0 <= j < |w.billings| && j != i :: after.billings[j] == w.billings[j])
            && after.billings[i] == b.(
                 status := CanceledSubscription, subscription := None,
                 cancelEffectiveAt :=
                   match b.cancelEffectiveAt
                   case Some(date) => Some(date)
                   case None =>
                     match endedAt
                     case Some(end) => if end != 0 then Some(1000 * end) else Some(now)
                     case None => Some(now))
  {
    FirstIs(w.billings, BySubscription(id), i);
    hide First;
  }

  // ---------- Operations

  /** What an accepted operation changes in the tenant's row, and that it changes no more. */
  lemma OperationWrites(cfg: PriceConfig, w: World, peer: Peer, tenantId: string, op: Operation, now: int)
    requires OperatedRefusal(cfg, w.billings, peer, tenantId, op, now).None?
    ensures var after := Next(cfg, w, Operate(tenantId, op, peer, now));
            var b, c := Current(w.billings, tenantId), Current(after.billings, tenantId);
            && OthersKept(w.billings, after.billings, tenantId) && after.tenants == w.tenants
            && after.changes == w.changes && b.subscription.Some? && b.subscription.value in peer
            && var end := match peer[b.subscription.value].periodEnd
                          case Some(seconds) => if seconds != 0 then Some(1000 * seconds) else None
                          case None => None;
               match op
               case Upgrade(target, _) => c == b.(plan := target, status := ActiveSubscription)
               case Cancel(reason) =>
                 c == b.(cancelReason := reason, cancelRequestedAt := Some(now), cancelEffectiveAt := end)
               case Reactivate => c == b.(cancelReason := None, cancelRequestedAt := None, cancelEffectiveAt := None)
               case Downgrade(target) => c == b.(pending := Some(target), downgradeAt := end)
               case CancelDowngrade => c == b.(pending := None, downgradeAt := None)
  {
    WrittenIsCurrent(w.billings, tenantId, Operated(cfg, Current(w.billings, tenantId), peer, op, now).row);
    hide Current, OthersKept, Ensured, RowOf;
  }

  /** A refused one changes nothing, but that the tenant has a row now. */
  lemma RefusalWritesNothing(cfg: PriceConfig, w: World, peer: Peer, tenantId: string, op: Operation, now: int)
    requires OperatedRefusal(cfg, w.billings, peer, tenantId, op, now).Some?
    ensures var after := Next(cfg, w, Operate(tenantId, op, peer, now));
            && OthersKept(w.billings, after.billings, tenantId) && after.tenants == w.tenants
            && after.changes == w.changes && Current(after.billings, tenantId) == Current(w.billings, tenantId)
            && OperatedPeer(cfg, w.billings, peer, tenantId, op, now) == peer
  {
    WrittenIsCurrent(w.billings, tenantId, Current(w.billings, tenantId));
    hide Current, OthersKept, Ensured, RowOf;
  }

  /** A tenant without a row counts as one on the free plan with nothing else. */
  lemma NewRowIsFree(bs: seq<Billing>, tenantId: string)
    requires forall j | 0 <= j < |bs| :: bs[j].tenantId != tenantId
    ensures Current(bs, tenantId) ==
            Billing(tenantId, Free, NoSubscription, None, None, None, None, None, None, None, None)
  {
    assert forall j | 0 <= j < |bs| :: !Matches(bs[j], ByTenant(tenantId));
  }

  // ---------- Escalation

  predicate SinceDays(t: Tenant, days: int, now: int) {
    t.changedAt.Some? && now - t.changedAt.value >= days * 24 * 60 * 60 * 1000
  }

  /** Escalation moves active tenants only: past due for seven days to restricted, restricted for fourteen to locked,
      and it dates an unpaid row that has no date. */
  predicate MovesOn(before: Tenant, after: Tenant, now: int) {
    var next := if before.status != Active then before.paymentStatus
                else if before.paymentStatus == PastDue && SinceDays(before, 7, now) then Restricted
                else if before.paymentStatus == Restricted && SinceDays(before, 14, now) then PaymentLocked
                else before.paymentStatus;
    var undated := before.status == Active && before.changedAt.None?
                   && (before.paymentStatus == PastDue || before.paymentStatus == Restricted);
    after == before.(paymentStatus := next,
                     changedAt := if undated || next != before.paymentStatus then Some(now) else before.changedAt)
  }

  /** The announced changes are exactly the differences in payment status. */
  ghost predicate Announced(changes: seq<Change>, before: map<string, Tenant>, after: map<string, Tenant>, now: int) {
    forall c :: c in changes <==>
      c.tenantId in before && c.tenantId in after && c.previous == before[c.tenantId].paymentStatus != c.next
      && c.next == after[c.tenantId].paymentStatus && c.changedAt == now
  }

  lemma EscalatedMovesOn(t: Tenant, now: int)
    ensures MovesOn(t, Escalated(t, now), now)
  {
  }

  lemma EscalatedOneAnnounces(w: World, id: string, now: int)
    requires id in w.tenants
    ensures EscalatedOne(w, id, now).billings == w.billings
    ensures var next := Escalated(w.tenants[id], now).paymentStatus;
            EscalatedOne(w, id, now).changes ==
            w.changes + if next == w.tenants[id].paymentStatus then []
                        else [Change(id, w.tenants[id].paymentStatus, next, now)]
  {
    hide Escalated;
  }

  /** One more tenant that is as it was before the run. */
  lemma OneMoreAnnounced(news: seq<Change>, before: map<string, Tenant>, mid: map<string, Tenant>,
                         after: map<string, Tenant>, id: string, now: int)
    requires Announced(news, before, mid, now) && id in before && before.Keys == mid.Keys == after.Keys
    requires mid[id] == before[id] && forall other | other in before && other != id :: after[other] == mid[other]
    ensures Announced(news + if after[id].paymentStatus == before[id].paymentStatus then []
                             else [Change(id, before[id].paymentStatus, after[id].paymentStatus, now)],
                      before, after, now)
  {
    var change := Change(id, before[id].paymentStatus, after[id].paymentStatus, now);
    var all := news + if after[id].paymentStatus == before[id].paymentStatus then [] else [change];
    forall c: Change ensures c in all <==>
        c.tenantId in before && c.tenantId in after && c.previous == before[c.tenantId].paymentStatus != c.next
        && c.next == after[c.tenantId].paymentStatus && c.changedAt == now
    {
      assert c in news ==> c.tenantId != id;
      assert Change(c.tenantId, c.previous, c.next, c.changedAt) == c;
    }
  }

  /** A run of escalation moves each tenant of its query on as if it were alone and leaves the others; it announces
      exactly the moves. */
  lemma {:induction false} EscalationWrites(w: World, found: seq<string>, now: int)
    requires forall i, j | 0 <= i < j < |found| :: found[i] != found[j]
    ensures var after := EscalatedAll(w, found, now);
            && after.billings == w.billings && after.tenants.Keys == w.tenants.Keys && w.changes <= after.changes
            && (forall id | id in w.tenants ::
                  if id in found then MovesOn(w.tenants[id], after.tenants[id], now)
                  else after.tenants[id] == w.tenants[id])
            && Announced(after.changes[|w.changes|..], w.tenants, after.tenants, now)
  {
    hide MovesOn, Escalated, Announced, EscalatedOne;
    if |found| == 0 {
      NothingAnnounced(w.tenants, now);
      assert w.changes[|w.changes|..] == [];
    } else {
      var k := |found| - 1;
      EscalationWrites(w, found[..k], now);
      var mid := EscalatedAll(w, found[..k], now);
      var after := EscalatedOne(mid, found[k], now);
      EscalatedElsewhere(mid, found[k], now);
      assert found == found[..k] + [found[k]];
      if found[k] in w.tenants {
        EscalatedMovesOn(w.tenants[found[k]], now);
        EscalatedOneAnnounces(mid, found[k], now);
        OneMoreAnnounced(mid.changes[|w.changes|..], w.tenants, mid.tenants, after.tenants, found[k], now);
        assert after.changes[|w.changes|..] ==
               mid.changes[|w.changes|..] + after.changes[|mid.changes|..];
      } else {
        NoSuchTenant(mid, found[k], now);
      }
    }
  }

  lemma NothingAnnounced(tenants: map<string, Tenant>, now: int)
    ensures Announced([], tenants, tenants, now)
  {
  }

  lemma NoSuchTenant(w: World, id: string, now: int)
    requires id !in w.tenants
    ensures EscalatedOne(w, id, now) == w
  {
  }
}
