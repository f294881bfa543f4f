/** The local plan and pending plan against the price and schedule Stripe holds. */
module DowngradeMirror {
  import opened Wrappers
  import opened BillingModel
  import opened Billing
  import opened SubscriptionRuns

  function ScheduledPrice(s: Subscription): Option<string> {
    if s.schedule.Some? then s.schedule.value.next else None
  }

  /** The row says of its subscription what Stripe says: price, scheduled price and date, and a pending plan is
      strictly below the current one. */
  predicate RowMirrors(cfg: PriceConfig, b: Billing, peer: Peer) {
    Present(b.subscription) ==>
      && b.subscription.value in peer
      && var s := peer[b.subscription.value];
      && s.price == PriceIdFor(cfg, b.plan)
      && ScheduledPrice(s) == (if b.pending.Some? then PriceIdFor(cfg, b.pending.value) else None)
      && b.downgradeAt == (if b.pending.Some? then EffectiveDate(s.periodEnd) else None)
      && (b.pending.Some? ==> Rank(b.pending.value) < Rank(b.plan))
  }

  predicate EndsKnown(peer: Peer) {
    forall id | id in peer :: KnownEnd(peer[id].periodEnd)
  }

  predicate Mirrors(cfg: PriceConfig, bs: seq<Billing>, peer: Peer) {
    Unique(bs) && EndsKnown(peer) && forall i | 0 <= i < |bs| :: RowMirrors(cfg, bs[i], peer)
  }

  // ---------- Runs of scheduling, withdrawing and renewing

  /** `Renew` is the end of a billing period together with its paid invoice. Whether Stripe has released a used-up
      schedule by then is left open. */
  datatype Move =
    | Lower(tenantId: string, target: Plan, now: int)
    | Withdraw(tenantId: string, now: int)
    | Renew(id: string, end: int, released: bool, paymentIntent: Option<string>, now: int)

  function RolledOver(s: Subscription, end: int, released: bool): Subscription {
    s.(price := if ScheduledPrice(s).Some? then ScheduledPrice(s) else s.price,
       schedule := if released || s.schedule.None? then None else Some(Schedule(None)),
       periodEnd := Some(end))
  }

  datatype State = State(world: World, peer: Peer)

  function After(cfg: PriceConfig, st: State, m: Move): State {
    match m
    case Lower(tenantId, target, now) => AfterOperation(cfg, st, tenantId, Downgrade(target), now)
    case Withdraw(tenantId, now) => AfterOperation(cfg, st, tenantId, CancelDowngrade, now)
    case Renew(id, end, released, paymentIntent, now) =>
      if id !in st.peer then st
      else
        var peer := st.peer[id := RolledOver(st.peer[id], end, released)];
        State(Handle(cfg, st.world, peer, InvoicePaid(Some(id), paymentIntent), now), peer)
  }

  function AfterOperation(cfg: PriceConfig, st: State, tenantId: string, op: Operation, now: int): State {
    State(Next(cfg, st.world, Operate(tenantId, op, st.peer, now)),
          OperatedPeer(cfg, st.world.billings, st.peer, tenantId, op, now))
  }

  function AfterAll(cfg: PriceConfig, st: State, moves: seq<Move>): State {
    if |moves| == 0 then st else After(cfg, AfterAll(cfg, st, moves[..|moves| - 1]), moves[|moves| - 1])
  }

  /** A renewed subscription has a known next period end. */
  predicate EndKnown(m: Move) {
    m.Renew? ==> KnownEnd(Some(m.end))
  }

  // ---------- One row

  lemma ScheduleRow(cfg: PriceConfig, b: Billing, peer: Peer, op: Operation, now: int)
    requires RowMirrors(cfg, b, peer) && EndsKnown(peer) && (op.Downgrade? || op.CancelDowngrade?)
    ensures RowMirrors(cfg, Operated(cfg, b, peer, op, now).row, Operated(cfg, b, peer, op, now).peer)
  {
  }

  lemma OperationElsewhere(cfg: PriceConfig, b: Billing, peer: Peer, op: Operation, now: int)
    ensures Operated(cfg, b, peer, op, now).peer.Keys == peer.Keys
    ensures forall id | id in peer && Some(id) != b.subscription :: Operated(cfg, b, peer, op, now).peer[id] == peer[id]
    ensures forall id | id in peer :: Operated(cfg, b, peer, op, now).peer[id].periodEnd == peer[id].periodEnd
    ensures Operated(cfg, b, peer, op, now).row.tenantId == b.tenantId
    ensures Operated(cfg, b, peer, op, now).row.subscription == b.subscription
  {
  }

  lemma ReplacedRow(cfg: PriceConfig, bs: seq<Billing>, i: nat, b: Billing, peer: Peer)
    requires Unique(bs) && EndsKnown(peer) && i < |bs|
    requires b.tenantId == bs[i].tenantId && b.subscription == bs[i].subscription && RowMirrors(cfg, b, peer)
    requires forall j | 0 <= j < |bs| && j != i :: RowMirrors(cfg, bs[j], peer)
    ensures Mirrors(cfg, bs[i := b], peer)
  {
    hide RowMirrors, EndsKnown;
    var after := bs[i := b];
    forall j, k | 0 <= j < k < |after|
      ensures after[j].tenantId != after[k].tenantId && !SameSubscription(after[j], after[k])
    {
      assert !SameSubscription(bs[j], bs[k]);
    }
  }

  lemma EnsuredMirrors(cfg: PriceConfig, bs: seq<Billing>, peer: Peer, tenantId: string)
    requires Mirrors(cfg, bs, peer)
    ensures Mirrors(cfg, Ensured(bs, tenantId), peer)
  {
    FirstByTenant(bs, tenantId);
    hide First, EndsKnown;
  }

  lemma SameAtStripe(cfg: PriceConfig, b: Billing, before: Peer, after: Peer)
    requires RowMirrors(cfg, b, before)
    requires Present(b.subscription) && b.subscription.value in before ==>
               b.subscription.value in after && after[b.subscription.value] == before[b.subscription.value]
    ensures RowMirrors(cfg, b, after)
  {
  }

  lemma AfterOperationMirrors(cfg: PriceConfig, st: State, tenantId: string, op: Operation, now: int)
    requires Mirrors(cfg, st.world.billings, st.peer) && (op.Downgrade? || op.CancelDowngrade?)
    ensures Mirrors(cfg, AfterOperation(cfg, st, tenantId, op, now).world.billings,
                    AfterOperation(cfg, st, tenantId, op, now).peer)
  {
    hide Operated, RowMirrors, First;
    EnsuredMirrors(cfg, st.world.billings, st.peer, tenantId);
    var rows := Ensured(st.world.billings, tenantId);
    var i := RowOf(st.world.billings, tenantId);
    var o := Operated(cfg, rows[i], st.peer, op, now);
    ScheduleRow(cfg, rows[i], st.peer, op, now);
    OperationElsewhere(cfg, rows[i], st.peer, op, now);
    forall j | 0 <= j < |rows| && j != i ensures RowMirrors(cfg, rows[j], o.peer) {
      assert RowMirrors(cfg, rows[j], st.peer);
      assert !SameSubscription(rows[if i < j then i else j], rows[if i < j then j else i]);
      assert Present(rows[j].subscription) ==> rows[i].subscription != rows[j].subscription;
      SameAtStripe(cfg, rows[j], st.peer, o.peer);
    }
    hide Unique;
    ReplacedRow(cfg, rows, i, o.row, o.peer);
  }

  lemma RenewRow(cfg: PriceConfig, b: Billing, peer: Peer, id: string, end: int, released: bool)
    requires DistinctPrices(cfg) && RowMirrors(cfg, b, peer) && EndsKnown(peer)
    requires b.subscription == Some(id) && id != "" && id in peer && KnownEnd(Some(end))
    ensures var renewed := peer[id := RolledOver(peer[id], end, released)];
            RowMirrors(cfg, Reconciled(cfg, b, PriceAt(renewed, id)), renewed)
  {
    ResolveInvertsExactly(cfg);
    assert ResolvePlan(cfg, PriceIdFor(cfg, b.plan)) == Some(b.plan);
    if b.pending.Some? {
      assert ResolvePlan(cfg, PriceIdFor(cfg, b.pending.value)) == b.pending;
      assert PriceIdFor(cfg, b.pending.value).Some?;
    }
  }

  lemma OthersMirrorStill(cfg: PriceConfig, bs: seq<Billing>, peer: Peer, id: string, end: int, released: bool, j: nat)
    requires Unique(bs) && j < |bs| && id in peer && RowMirrors(cfg, bs[j], peer)
    requires id == "" || First(bs, BySubscription(id)) != Some(j)
    ensures RowMirrors(cfg, bs[j], peer[id := RolledOver(peer[id], end, released)])
  {
    hide RolledOver, RowMirrors;
    var found := First(bs, BySubscription(id));
    if bs[j].subscription == Some(id) && id != "" {
      assert Matches(bs[j], BySubscription(id));
      assert !SameSubscription(bs[found.value], bs[j]);
    }
    SameAtStripe(cfg, bs[j], peer, peer[id := RolledOver(peer[id], end, released)]);
  }

  lemma ChargedRow(cfg: PriceConfig, b: Billing, peer: Peer, m: Move)
    requires DistinctPrices(cfg) && RowMirrors(cfg, b, peer) && EndsKnown(peer) && m.Renew? && EndKnown(m)
    requires b.subscription == Some(m.id) && m.id != "" && m.id in peer
    ensures var renewed := peer[m.id := RolledOver(peer[m.id], m.end, m.released)];
            var charged := if Present(m.paymentIntent) then b.(transaction := m.paymentIntent) else b;
            var after := Reconciled(cfg, charged, PriceAt(renewed, m.id));
            RowMirrors(cfg, after, renewed) && after.tenantId == b.tenantId && after.subscription == b.subscription
  {
    var charged := if Present(m.paymentIntent) then b.(transaction := m.paymentIntent) else b;
    RenewRow(cfg, charged, peer, m.id, m.end, m.released);
    hide RolledOver, ResolvePlan, RowMirrors;
  }

  lemma RenewMirrors(cfg: PriceConfig, st: State, m: Move)
    requires DistinctPrices(cfg) && Mirrors(cfg, st.world.billings, st.peer) && m.Renew? && EndKnown(m)
             && m.id in st.peer
    ensures Mirrors(cfg, After(cfg, st, m).world.billings, After(cfg, st, m).peer)
  {
    hide RowMirrors, Reconciled, ResolvePlan, DistinctPrices;
    var bs := st.world.billings;
    var renewed := st.peer[m.id := RolledOver(st.peer[m.id], m.end, m.released)];
    assert EndsKnown(renewed);
    var found := First(bs, BySubscription(m.id));
    forall j | 0 <= j < |bs| && (m.id == "" || found != Some(j)) ensures RowMirrors(cfg, bs[j], renewed) {
      OthersMirrorStill(cfg, bs, st.peer, m.id, m.end, m.released, j);
    }
    hide Unique, RolledOver, EndsKnown;
    if m.id != "" && found.Some? {
      assert RowMirrors(cfg, bs[found.value], st.peer);
      ChargedRow(cfg, bs[found.value], st.peer, m);
      var charged := if Present(m.paymentIntent) then bs[found.value].(transaction := m.paymentIntent)
          else bs[found.value];
      ReplacedRow(cfg, bs, found.value, Reconciled(cfg, charged, PriceAt(renewed, m.id)), renewed);
      hide Mirrors;
    } else {
      assert After(cfg, st, m).world.billings == bs;
    }
  }

  /** Over every interleaving of all tenants' scheduled downgrades, withdrawals and renewals, every row mirrors its
      Stripe subscription. */
  lemma {:induction false} MirrorsAlways(cfg: PriceConfig, st: State, moves: seq<Move>)
    requires DistinctPrices(cfg) && Mirrors(cfg, st.world.billings, st.peer)
    requires forall k | 0 <= k < |moves| :: EndKnown(moves[k])
    ensures Mirrors(cfg, AfterAll(cfg, st, moves).world.billings, AfterAll(cfg, st, moves).peer)
  {
    hide Mirrors;
    if |moves| > 0 {
      var m := moves[|moves| - 1];
      MirrorsAlways(cfg, st, moves[..|moves| - 1]);
      var before := AfterAll(cfg, st, moves[..|moves| - 1]);
      match m {
        case Lower(tenantId, target, now) => AfterOperationMirrors(cfg, before, tenantId, Downgrade(target), now);
        case Withdraw(tenantId, now) => AfterOperationMirrors(cfg, before, tenantId, CancelDowngrade, now);
        case Renew(id, _, _, _, _) =>
          if id in before.peer {
            RenewMirrors(cfg, before, m);
          }
      }
    }
  }

  /** What a mirroring row is worth: both plans can be read back off Stripe's prices. */
  lemma MirrorReadsBack(cfg: PriceConfig, b: Billing, peer: Peer)
    requires DistinctPrices(cfg) && RowMirrors(cfg, b, peer) && Present(b.subscription)
    ensures var s := peer[b.subscription.value];
            Some(b.plan) == ResolvePlan(cfg, s.price) && b.pending == ResolvePlan(cfg, ScheduledPrice(s))
  {
    ResolveInvertsExactly(cfg);
    assert ResolvePlan(cfg, PriceIdFor(cfg, b.plan)) == Some(b.plan);
    if b.pending.Some? {
      assert ResolvePlan(cfg, PriceIdFor(cfg, b.pending.value)) == b.pending;
    }
  }

  // ---------- Where the mirror stops

  /** An accepted downgrade keeps the mirror exactly when Stripe reported a period end: without one nothing is
      scheduled there, yet the plan is recorded as pending. */
  lemma DowngradeMirrorsExactly(cfg: PriceConfig, b: Billing, peer: Peer, target: Plan, now: int)
    requires DistinctPrices(cfg) && RowMirrors(cfg, b, peer)
    requires Operated(cfg, b, peer, Downgrade(target), now).refusal.None?
    ensures var o := Operated(cfg, b, peer, Downgrade(target), now);
            RowMirrors(cfg, o.row, o.peer) <==> KnownEnd(peer[b.subscription.value].periodEnd)
  {
    assert PriceIdFor(cfg, target).Some?;
  }

  /** An accepted cancellation releases Stripe's schedule but not the pending plan. */
  lemma CancelMirrorsExactly(cfg: PriceConfig, b: Billing, peer: Peer, reason: Option<string>, now: int)
    requires DistinctPrices(cfg) && RowMirrors(cfg, b, peer)
    requires Operated(cfg, b, peer, Cancel(reason), now).refusal.None?
    ensures var o := Operated(cfg, b, peer, Cancel(reason), now);
            RowMirrors(cfg, o.row, o.peer) <==> b.pending.None?
  {
    if b.pending.Some? {
      assert PriceIdFor(cfg, b.pending.value).Some?;
    }
  }

  /** An accepted upgrade leaves a pending downgrade in place on both sides, so only its place below the new plan
      can be lost. */
  lemma UpgradeMirrorsExactly(cfg: PriceConfig, b: Billing, peer: Peer, target: Plan, declined: bool, now: int)
    requires DistinctPrices(cfg) && RowMirrors(cfg, b, peer)
    requires Operated(cfg, b, peer, Upgrade(target, declined), now).refusal.None?
    ensures var o := Operated(cfg, b, peer, Upgrade(target, declined), now);
            RowMirrors(cfg, o.row, o.peer) <==> (b.pending.None? || Rank(b.pending.value) < Rank(target))
  {
    var o := Operated(cfg, b, peer, Upgrade(target, declined), now);
    assert ScheduledPrice(o.peer[b.subscription.value]) == ScheduledPrice(peer[b.subscription.value]);
  }

  /** A checkout of a freshly opened subscription starts a mirror exactly when no old pending plan is left over. */
  lemma CheckoutMirrorsExactly(cfg: PriceConfig, b: Billing, peer: Peer, plan: Plan, customer: Option<string>,
                               id: string, paymentIntent: Option<string>)
    requires DistinctPrices(cfg) && plan != Free && id != "" && (b.pending.None? ==> b.downgradeAt.None?)
    requires id in peer && peer[id].price == PriceIdFor(cfg, plan) && peer[id].schedule.None?
    ensures RowMirrors(cfg, AfterCheckout(b, plan, customer, Some(id), paymentIntent), peer) <==> b.pending.None?
  {
    if b.pending.Some? {
      assert PriceIdFor(cfg, b.pending.value).Some?;
    }
  }
}
