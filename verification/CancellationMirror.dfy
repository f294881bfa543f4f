/** The recorded cancellation against what Stripe is set to do at the end of the period. */
module CancellationMirror {
  import opened Wrappers
  import opened BillingModel
  import opened Billing
  import opened SubscriptionRuns
  import opened DowngradeMirror

  /** The row records a cancellation exactly when Stripe is set to cancel, and then for the end of Stripe's period. */
  predicate RowCancels(b: Billing, peer: Peer) {
    Present(b.subscription) ==>
      && b.subscription.value in peer
      && var s := peer[b.subscription.value];
      && (b.cancelRequestedAt.Some? <==> s.cancelAtPeriodEnd)
      && match b.cancelEffectiveAt
         case Some(date) => s.cancelAtPeriodEnd && s.periodEnd.Some? && s.periodEnd.value != 0
             && date == 1000 * s.periodEnd.value
         case None => !s.cancelAtPeriodEnd
  }

  predicate Cancels(bs: seq<Billing>, peer: Peer) {
    Unique(bs) && forall i | 0 <= i < |bs| :: RowCancels(bs[i], peer)
  }

  /** What a tenant asks for, and when. */
  datatype Request = Request(tenantId: string, op: Operation, now: int)

  function Served(cfg: PriceConfig, st: State, rs: seq<Request>): State {
    if |rs| == 0 then st
    else
      var r := rs[|rs| - 1];
      AfterOperation(cfg, Served(cfg, st, rs[..|rs| - 1]), r.tenantId, r.op, r.now)
  }

  // ---------- One operation

  lemma EnsuredCancels(bs: seq<Billing>, peer: Peer, tenantId: string)
    requires Cancels(bs, peer)
    ensures Cancels(Ensured(bs, tenantId), peer)
  {
    FirstByTenant(bs, tenantId);
    hide First;
  }

  lemma SameCancellation(b: Billing, before: Peer, after: Peer)
    requires Present(b.subscription) && b.subscription.value in before ==>
               b.subscription.value in after && after[b.subscription.value] == before[b.subscription.value]
    ensures RowCancels(b, before) ==> RowCancels(b, after)
  {
  }

  /** The other rows are not concerned, so the operation keeps the mirror exactly when it keeps that of its own row.
      */
  lemma OperationCancels(cfg: PriceConfig, st: State, tenantId: string, op: Operation, now: int)
    requires Cancels(st.world.billings, st.peer)
    ensures var o := Operated(cfg, Current(st.world.billings, tenantId), st.peer, op, now);
            var after := AfterOperation(cfg, st, tenantId, op, now);
            Cancels(after.world.billings, after.peer) <==> RowCancels(o.row, o.peer)
    ensures RowCancels(Current(st.world.billings, tenantId), st.peer)
  {
    hide Operated, RowCancels, First;
    EnsuredCancels(st.world.billings, st.peer, tenantId);
    var rows := Ensured(st.world.billings, tenantId);
    var i := RowOf(st.world.billings, tenantId);
    var o := Operated(cfg, rows[i], st.peer, op, now);
    OperationElsewhere(cfg, rows[i], st.peer, op, now);
    forall j | 0 <= j < |rows| && j != i ensures RowCancels(rows[j], o.peer) {
      assert !SameSubscription(rows[if i < j then i else j], rows[if i < j then j else i]);
      assert Present(rows[j].subscription) ==> rows[i].subscription != rows[j].subscription;
      SameCancellation(rows[j], st.peer, o.peer);
    }
    var after := rows[i := o.row];
    assert after == AfterOperation(cfg, st, tenantId, op, now).world.billings;
    OneRowReplaced(rows, i, o.row, o.peer);
  }

  lemma OneRowReplaced(rows: seq<Billing>, i: nat, row: Billing, peer: Peer)
    requires Unique(rows) && i < |rows| && row.tenantId == rows[i].tenantId && row.subscription == rows[i].subscription
    requires forall j | 0 <= j < |rows| && j != i :: RowCancels(rows[j], peer)
    ensures Cancels(rows[i := row], peer) <==> RowCancels(row, peer)
  {
    hide RowCancels;
    var after := rows[i := row];
    forall j, k | 0 <= j < k < |after|
      ensures after[j].tenantId != after[k].tenantId && !SameSubscription(after[j], after[k])
    {
      assert !SameSubscription(rows[j], rows[k]);
    }
    assert after[i] == row;
  }

  lemma EndsStayKnown(cfg: PriceConfig, st: State, tenantId: string, op: Operation, now: int)
    requires EndsKnown(st.peer)
    ensures EndsKnown(AfterOperation(cfg, st, tenantId, op, now).peer)
  {
    OperationElsewhere(cfg, Current(st.world.billings, tenantId), st.peer, op, now);
    hide Operated;
  }

  lemma RequestCancels(cfg: PriceConfig, st: State, r: Request)
    requires Cancels(st.world.billings, st.peer) && EndsKnown(st.peer) && !r.op.Upgrade?
    ensures var after := AfterOperation(cfg, st, r.tenantId, r.op, r.now);
            Cancels(after.world.billings, after.peer) && EndsKnown(after.peer)
  {
    OperationCancels(cfg, st, r.tenantId, r.op, r.now);
    EndsStayKnown(cfg, st, r.tenantId, r.op, r.now);
    hide Cancels, AfterOperation, Current;
  }

  /** Over all interleavings of cancellations, reactivations, downgrades and withdrawals of all tenants, with known
      period ends: a row records a cancellation exactly when its subscription is set to end with the period, at that
      date. */
  lemma {:induction false} CancelsAlways(cfg: PriceConfig, st: State, rs: seq<Request>)
    requires Cancels(st.world.billings, st.peer) && EndsKnown(st.peer)
    requires forall k | 0 <= k < |rs| :: !rs[k].op.Upgrade?
    ensures Cancels(Served(cfg, st, rs).world.billings, Served(cfg, st, rs).peer) && EndsKnown(Served(cfg, st, rs).peer)
  {
    hide Cancels, EndsKnown, AfterOperation;
    if |rs| > 0 {
      CancelsAlways(cfg, st, rs[..|rs| - 1]);
      RequestCancels(cfg, Served(cfg, st, rs[..|rs| - 1]), rs[|rs| - 1]);
    }
  }

  // ---------- What is accepted

  /** From the tenant's row and what Stripe has: the request is one the service accepts. */
  predicate Accepted(cfg: PriceConfig, bs: seq<Billing>, peer: Peer, r: Request) {
    var b := Current(bs, r.tenantId);
    && Present(b.subscription) && b.subscription.value in peer
    && var s := peer[b.subscription.value];
       match r.op
       case Cancel(_) =>
         && b.status == ActiveSubscription
         && (b.cancelRequestedAt.None? || b.cancelEffectiveAt.None? || b.cancelEffectiveAt.value <= r.now)
       case Reactivate =>
         b.cancelRequestedAt.Some? && b.cancelEffectiveAt.Some? && r.now < b.cancelEffectiveAt.value
       case Downgrade(target) =>
         && b.pending.None? && Rank(target) < Rank(b.plan)
         && (KnownEnd(s.periodEnd) ==> Present(s.price) && PriceIdFor(cfg, target).Some?)
       case CancelDowngrade => b.pending.Some?
       case Upgrade(target, declined) => !declined && s.price.Some? && PriceIdFor(cfg, target).Some?
  }

  lemma AcceptedExactly(cfg: PriceConfig, bs: seq<Billing>, peer: Peer, r: Request)
    ensures OperatedRefusal(cfg, bs, peer, r.tenantId, r.op, r.now).None? <==> Accepted(cfg, bs, peer, r)
  {
    hide Ensured, RowOf;
  }

  /** And why one is not: the exceptions exclude each other, and whatever the row allows is left to Stripe. */
  lemma RefusedExactly(cfg: PriceConfig, bs: seq<Billing>, peer: Peer, r: Request)
    ensures var b, refusal := Current(bs, r.tenantId), OperatedRefusal(cfg, bs, peer, r.tenantId, r.op, r.now);
            var cancelled := b.cancelRequestedAt.Some? && b.cancelEffectiveAt.Some?;
            var lower := r.op.Downgrade? && Rank(r.op.target) < Rank(b.plan);
            && (refusal == Some(WithoutSubscription) <==> !Present(b.subscription))
            && (Present(b.subscription) ==>
                && (refusal == Some(NotActive) <==> r.op.Cancel? && b.status != ActiveSubscription)
                && (refusal == Some(AlreadyCancelled) <==>
                    r.op.Cancel? && b.status == ActiveSubscription && cancelled && r.now < b.cancelEffectiveAt.value)
                && (refusal == Some(WithoutCancellation) <==> r.op.Reactivate? && !cancelled)
                && (refusal == Some(CancellationOver) <==>
                    r.op.Reactivate? && cancelled && b.cancelEffectiveAt.value <= r.now)
                && (refusal == Some(SamePlan) <==> r.op.Downgrade? && r.op.target == b.plan)
                && (refusal == Some(NotLower) <==> r.op.Downgrade? && r.op.target != b.plan && !lower)
                && (refusal == Some(AlreadyPending) <==> lower && b.pending.Some?)
                && (refusal == Some(WithoutPending) <==> r.op.CancelDowngrade? && b.pending.None?))
  {
    hide Ensured, RowOf;
  }

  // ---------- Where it stops

  /** An accepted cancellation keeps the mirror exactly when Stripe reports a period end. Without one the row has no
      date, and the cancellation cannot be taken back, though Stripe will carry it out. */
  lemma CancellationMirrorsExactly(cfg: PriceConfig, st: State, tenantId: string, reason: Option<string>, now: int)
    requires Cancels(st.world.billings, st.peer)
    requires Accepted(cfg, st.world.billings, st.peer, Request(tenantId, Cancel(reason), now))
    ensures var after := AfterOperation(cfg, st, tenantId, Cancel(reason), now);
            var id := Current(st.world.billings, tenantId).subscription.value;
            && id in st.peer && id in after.peer && after.peer[id].cancelAtPeriodEnd
            && (Cancels(after.world.billings, after.peer) <==>
                  match st.peer[id].periodEnd case Some(end) => end != 0 case None => false)
  {
    AcceptedExactly(cfg, st.world.billings, st.peer, Request(tenantId, Cancel(reason), now));
    OperationCancels(cfg, st, tenantId, Cancel(reason), now);
    hide Cancels, Current;
  }

  /** An accepted upgrade lifts a cancellation at Stripe but not in the row. */
  lemma UpgradeLiftsExactly(cfg: PriceConfig, st: State, tenantId: string, target: Plan, declined: bool, now: int)
    requires Cancels(st.world.billings, st.peer)
    requires Accepted(cfg, st.world.billings, st.peer, Request(tenantId, Upgrade(target, declined), now))
    ensures var after := AfterOperation(cfg, st, tenantId, Upgrade(target, declined), now);
            Cancels(after.world.billings, after.peer) <==> Current(st.world.billings, tenantId).cancelRequestedAt.None?
  {
    AcceptedExactly(cfg, st.world.billings, st.peer, Request(tenantId, Upgrade(target, declined), now));
    OperationCancels(cfg, st, tenantId, Upgrade(target, declined), now);
    hide Cancels, Current;
  }

  /** A checkout of a subscription that Stripe has just opened, and nobody else stores, keeps the mirror exactly when
      the tenant's row has no cancellation and no end date left over. */
  lemma NewCheckoutMirrorsExactly(cfg: PriceConfig, st: State, tenantId: string, plan: Plan, customer: Option<string>,
      id: string, paymentIntent: Option<string>, now: int)
    requires Cancels(st.world.billings, st.peer) && tenantId != "" && plan != Free && id != ""
    requires id in st.peer && !st.peer[id].cancelAtPeriodEnd
    requires forall i | 0 <= i < |st.world.billings| :: st.world.billings[i].subscription != Some(id)
    ensures var e := CheckoutCompleted(Some(tenantId), Some(plan), customer, Some(id), paymentIntent);
            Cancels(Handle(cfg, st.world, st.peer, e, now).billings, st.peer) <==>
            var row := Current(st.world.billings, tenantId);
            row.cancelRequestedAt.None? && row.cancelEffectiveAt.None?
  {
    EnsuredCancels(st.world.billings, st.peer, tenantId);
    var rows := Ensured(st.world.billings, tenantId);
    var i := RowOf(st.world.billings, tenantId);
    var row := AfterCheckout(rows[i], plan, customer, Some(id), paymentIntent);
    var after := rows[i := row];
    assert after ==
           Handle(cfg, st.world, st.peer,
                  CheckoutCompleted(Some(tenantId), Some(plan), customer, Some(id), paymentIntent),
                  now).billings;
    assert RowCancels(row, st.peer) <==> rows[i].cancelRequestedAt.None? && rows[i].cancelEffectiveAt.None?;
    hide RowCancels, First, Handle;
    assert forall j | 0 <= j < |rows| :: rows[j].subscription != Some(id);
    forall j, k | 0 <= j < k < |after|
      ensures after[j].tenantId != after[k].tenantId && !SameSubscription(after[j], after[k])
    {
      assert !SameSubscription(rows[j], rows[k]);
    }
    assert after[i] == row;
  }

  // ---------- Taking a cancellation back

  lemma StoredRow(bs: seq<Billing>, tenantId: string)
    requires Present(Current(bs, tenantId).subscription)
    ensures First(bs, ByTenant(tenantId)).Some? && Ensured(bs, tenantId) == bs && RowOf(bs, tenantId) < |bs|
  {
  }

  lemma RowStays(bs: seq<Billing>, tenantId: string, row: Billing)
    requires First(bs, ByTenant(tenantId)).Some? && row.tenantId == tenantId
    ensures var after := bs[RowOf(bs, tenantId) := row];
            Ensured(after, tenantId) == after && RowOf(after, tenantId) == RowOf(bs, tenantId)
  {
    var i := RowOf(bs, tenantId);
    var after := bs[i := row];
    assert Matches(after[i], ByTenant(tenantId));
    assert forall j | 0 <= j < i :: after[j] == bs[j];
    var k := First(after, ByTenant(tenantId));
    assert k == Some(i);
  }

  /** A cancellation that has been accepted can be taken back until its date, which leaves the row and Stripe as they
      were before it but for the schedule. */
  lemma ReactivationRestores(cfg: PriceConfig, st: State, tenantId: string, reason: Option<string>, now: int,
      later: int)
    requires Cancels(st.world.billings, st.peer) && EndsKnown(st.peer)
    requires Accepted(cfg, st.world.billings, st.peer, Request(tenantId, Cancel(reason), now))
    requires var b := Current(st.world.billings, tenantId);
             b.cancelRequestedAt.None? && b.cancelReason.None?
               && later < 1000 * st.peer[b.subscription.value].periodEnd.value
    ensures var cancelled := AfterOperation(cfg, st, tenantId, Cancel(reason), now);
            var back := AfterOperation(cfg, cancelled, tenantId, Reactivate, later);
            var id := Current(st.world.billings, tenantId).subscription.value;
            && Accepted(cfg, cancelled.world.billings, cancelled.peer, Request(tenantId, Reactivate, later))
            && back.world == st.world
            && back.peer == st.peer[id := st.peer[id].(schedule := None)]
  {
    var bs := st.world.billings;
    AcceptedExactly(cfg, bs, st.peer, Request(tenantId, Cancel(reason), now));
    OperationCancels(cfg, st, tenantId, Cancel(reason), now);
    var b := Current(bs, tenantId);
    StoredRow(bs, tenantId);
    var i := RowOf(bs, tenantId);
    var row := Operated(cfg, b, st.peer, Cancel(reason), now).row;
    RowStays(bs, tenantId, row);
    hide First, Cancels, Ensured, RowOf;
    assert bs[i := row][i := b] == bs;
  }
}
