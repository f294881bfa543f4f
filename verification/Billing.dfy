/** Subscriptions and payments: the stored rows, the abstract Stripe peer, and the transitions of both. */
module Billing {
  import opened Wrappers
  import opened BillingModel

  datatype Billing = Billing(
    tenantId: string, plan: Plan, status: SubscriptionStatus,
    customer: Option<string>, subscription: Option<string>, transaction: Option<string>,
    pending: Option<Plan>, downgradeAt: Option<int>,
    cancelReason: Option<string>, cancelRequestedAt: Option<int>, cancelEffectiveAt: Option<int>)

  datatype Tenant = Tenant(status: TenantStatus, paymentStatus: PaymentStatus, changedAt: Option<int>,
      trialEndsAt: Option<int>)

  /** A `tenant.payment_status.changed` event. */
  datatype Change = Change(tenantId: string, previous: PaymentStatus, next: PaymentStatus, changedAt: int)

  /** Billing rows in storage order, tenants by id, and the status changes emitted so far. */
  datatype World = World(billings: seq<Billing>, tenants: map<string, Tenant>, changes: seq<Change>)

  /** What Stripe holds for a subscription. A schedule may have run out of next phases and still be attached. */
  datatype Schedule = Schedule(next: Option<string>)
  datatype Subscription = Subscription(
    price: Option<string>, schedule: Option<Schedule>, periodEnd: Option<int>, cancelAtPeriodEnd: bool)
  type Peer = map<string, Subscription>

  /** Neither missing nor empty, as the source tests its identifiers. */
  predicate Present(id: Option<string>) {
    id.Some? && id.value != ""
  }

  /** A period end of zero counts as unknown. */
  predicate KnownEnd(periodEnd: Option<int>) {
    periodEnd.Some? && periodEnd.value != 0
  }

  function EffectiveDate(periodEnd: Option<int>): Option<int> {
    if KnownEnd(periodEnd) then Some(1000 * periodEnd.value) else None
  }

  // ---------- Looking rows up

  datatype Lookup = BySubscription(id: string) | ByCustomer(id: string) | ByTenant(id: string)

  predicate Matches(b: Billing, k: Lookup) {
    match k
    case BySubscription(id) => b.subscription == Some(id)
    case ByCustomer(id) => b.customer == Some(id)
    case ByTenant(id) => b.tenantId == id
  }

  function First(bs: seq<Billing>, k: Lookup): (r: Option<nat>)
    ensures r.Some? ==> r.value < |bs| && Matches(bs[r.value], k) && forall j | 0 <= j < r.value :: !Matches(bs[j], k)
    ensures r.None? ==> forall j | 0 <= j < |bs| :: !Matches(bs[j], k)
  {
    if |bs| == 0 then None
    else
      var r := First(bs[..|bs| - 1], k);
      if r.Some? then r else if Matches(bs[|bs| - 1], k) then Some(|bs| - 1) else None
  }

  function NewBilling(tenantId: string): Billing {
    Billing(tenantId, Free, NoSubscription, None, None, None, None, None, None, None, None)
  }

  /** The rows after `createBillingForTenant`, which adds the tenant's row when there is none. */
  function Ensured(bs: seq<Billing>, tenantId: string): seq<Billing> {
    if First(bs, ByTenant(tenantId)).Some? then bs else bs + [NewBilling(tenantId)]
  }

  function RowOf(bs: seq<Billing>, tenantId: string): (i: nat)
    ensures i < |Ensured(bs, tenantId)| && Ensured(bs, tenantId)[i].tenantId == tenantId
  {
    if First(bs, ByTenant(tenantId)).Some? then First(bs, ByTenant(tenantId)).value else |bs|
  }

  /** The tenant's row, or the free one that is added first. */
  function Current(bs: seq<Billing>, tenantId: string): Billing {
    Ensured(bs, tenantId)[RowOf(bs, tenantId)]
  }

  // ---------- Tenants

  /** A payment status is written, stamped and announced only when it differs. */
  function SetPayment(w: World, id: string, next: PaymentStatus, now: int): World {
    if id in w.tenants && w.tenants[id].paymentStatus != next
    then w.(tenants := w.tenants[id := w.tenants[id].(paymentStatus := next, changedAt := Some(now))],
            changes := w.changes + [Change(id, w.tenants[id].paymentStatus, next, now)])
    else w
  }

  /** `endTenantTrialIfActive` */
  function EndTrial(tenants: map<string, Tenant>, id: string, now: int): map<string, Tenant> {
    if id in tenants && tenants[id].trialEndsAt.Some? && tenants[id].trialEndsAt.value > now
    then tenants[id := tenants[id].(trialEndsAt := Some(now))] else tenants
  }

  // ---------- Webhook events

  datatype Event =
    | CheckoutCompleted(tenantId: Option<string>, plan: Option<Plan>, customer: Option<string>,
                        subscription: Option<string>, paymentIntent: Option<string>)
    | InvoicePaid(subscription: Option<string>, paymentIntent: Option<string>)
    | InvoiceFailed(subscription: Option<string>, customer: Option<string>)
    | SubscriptionDeleted(deleted: string, endedAt: Option<int>)
    | Unsupported

  function AfterCheckout(b: Billing, plan: Plan, customer: Option<string>, subscription: Option<string>,
                         paymentIntent: Option<string>): Billing {
    b.(plan := plan, status := if plan == Free then NoSubscription else ActiveSubscription, customer := customer,
       subscription := if plan == Free then None else subscription,
       transaction := if paymentIntent.Some? then paymentIntent else b.transaction)
  }

  function Checkout(w: World, tenantId: string, plan: Plan, customer: Option<string>, subscription: Option<string>,
                    paymentIntent: Option<string>, now: int): World {
    var bs := Ensured(w.billings, tenantId);
    var i := RowOf(w.billings, tenantId);
    w.(billings := bs[i := AfterCheckout(bs[i], plan, customer, subscription, paymentIntent)],
       tenants := if plan == Free then w.tenants else EndTrial(w.tenants, tenantId, now))
  }

  /** The plan follows the price Stripe reports; a pending downgrade to that plan is done with. */
  function Reconciled(cfg: PriceConfig, b: Billing, price: Option<string>): Billing {
    var plan := ResolvePlan(cfg, price);
    if plan.None? || plan.value == b.plan then b
    else if b.pending == plan then b.(plan := plan.value, pending := None, downgradeAt := None)
    else b.(plan := plan.value)
  }

  function PriceAt(peer: Peer, id: string): Option<string> {
    if id in peer then peer[id].price else None
  }

  function Paid(cfg: PriceConfig, w: World, peer: Peer, subscription: Option<string>, paymentIntent: Option<string>,
                now: int): World {
    if !Present(subscription) then w
    else
      var i := First(w.billings, BySubscription(subscription.value));
      if i.None? then w
      else
        var b := w.billings[i.value];
        var charged := if Present(paymentIntent) then b.(transaction := paymentIntent) else b;
        SetPayment(w.(billings := w.billings[i.value := Reconciled(cfg, charged, PriceAt(peer, subscription.value))]),
                   b.tenantId, PaymentActive, now)
  }

  /** The row a failed invoice is charged to: by subscription, else by customer. */
  function FailedRow(bs: seq<Billing>, subscription: Option<string>, customer: Option<string>): (r: Option<nat>)
    ensures r.Some? ==> r.value < |bs|
  {
    var i := if Present(subscription) then First(bs, BySubscription(subscription.value)) else None;
    if i.None? && Present(customer) then First(bs, ByCustomer(customer.value)) else i
  }

  function Failed(w: World, subscription: Option<string>, customer: Option<string>, now: int): World {
    var i := FailedRow(w.billings, subscription, customer);
    if i.None? then w else SetPayment(w, w.billings[i.value].tenantId, PastDue, now)
  }

  function Deleted(w: World, deleted: string, endedAt: Option<int>, now: int): World {
    var i := First(w.billings, BySubscription(deleted));
    if i.None? then w
    else
      var b := w.billings[i.value];
      var ended := if KnownEnd(endedAt) then 1000 * endedAt.value else now;
      w.(billings := w.billings[i.value := b.(
        status := CanceledSubscription, subscription := None,
        cancelEffectiveAt := if b.cancelEffectiveAt.Some? then b.cancelEffectiveAt else Some(ended))])
  }

  /** The webhook dispatch. */
  function Handle(cfg: PriceConfig, w: World, peer: Peer, e: Event, now: int): World {
    match e
    case CheckoutCompleted(tenantId, plan, customer, subscription, paymentIntent) =>
      if !Present(tenantId) || plan.None? then w
      else Checkout(w, tenantId.value, plan.value, customer, subscription, paymentIntent, now)
    case InvoicePaid(subscription, paymentIntent) => Paid(cfg, w, peer, subscription, paymentIntent, now)
    case InvoiceFailed(subscription, customer) => Failed(w, subscription, customer, now)
    case SubscriptionDeleted(deleted, endedAt) => Deleted(w, deleted, endedAt, now)
    case Unsupported => w
  }

  // ---------- Operations of a tenant on its subscription

  datatype Operation =
    | Upgrade(target: Plan, declined: bool)
    | Cancel(reason: Option<string>)
    | Reactivate
    | Downgrade(target: Plan)
    | CancelDowngrade

  datatype Refusal =
    | WithoutSubscription | NotActive | AlreadyCancelled | WithoutCancellation | CancellationOver
    | SamePlan | NotLower | AlreadyPending | WithoutPending | StripeRefused

  /** The row, the peer and the exception after an operation. */
  datatype Outcome = Outcome(row: Billing, peer: Peer, refusal: Option<Refusal>)

  /** `declined`: the payment of the difference fails, and Stripe refuses the update. */
  function StripeUpgrade(cfg: PriceConfig, peer: Peer, id: string, target: Plan, declined: bool): Result<Peer, Refusal>
  {
    if id !in peer || peer[id].price.None? || PriceIdFor(cfg, target).None? || declined then Err(StripeRefused)
    else Ok(peer[id := peer[id].(price := PriceIdFor(cfg, target), cancelAtPeriodEnd := false)])
  }

  /** `scheduleSubscriptionDowngrade`: nothing is scheduled at Stripe while the period end is unknown. */
  function StripeDowngrade(cfg: PriceConfig, peer: Peer, id: string, target: Plan): Result<Peer, Refusal> {
    if id !in peer then Err(StripeRefused)
    else if !KnownEnd(peer[id].periodEnd) then Ok(peer)
    else if !Present(peer[id].price) || PriceIdFor(cfg, target).None? then Err(StripeRefused)
    else Ok(peer[id := peer[id].(schedule := Some(Schedule(PriceIdFor(cfg, target))))])
  }

  function StripeRelease(peer: Peer, id: string): Result<Peer, Refusal> {
    if id !in peer then Err(StripeRefused) else Ok(peer[id := peer[id].(schedule := None)])
  }

  function StripeCancel(peer: Peer, id: string): Result<Peer, Refusal> {
    if id !in peer then Err(StripeRefused) else Ok(peer[id := peer[id].(schedule := None, cancelAtPeriodEnd := true)])
  }

  function StripeReactivate(peer: Peer, id: string): Result<Peer, Refusal> {
    if id !in peer then Err(StripeRefused) else Ok(peer[id := peer[id].(cancelAtPeriodEnd := false)])
  }

  function Refused(b: Billing, op: Operation, now: int): Option<Refusal> {
    if !Present(b.subscription) then Some(WithoutSubscription)
    else match op
      case Upgrade(_, _) => None
      case Cancel(_) =>
        if b.status != ActiveSubscription then Some(NotActive)
        else if b.cancelRequestedAt.Some? && b.cancelEffectiveAt.Some? && b.cancelEffectiveAt.value > now then
          Some(AlreadyCancelled)
        else None
      case Reactivate =>
        if b.cancelRequestedAt.None? || b.cancelEffectiveAt.None? then Some(WithoutCancellation)
        else if b.cancelEffectiveAt.value <= now then Some(CancellationOver)
        else None
      case Downgrade(target) =>
        if b.plan == target then Some(SamePlan)
        else if Rank(target) >= Rank(b.plan) then Some(NotLower)
        else if b.pending.Some? then Some(AlreadyPending)
        else None
      case CancelDowngrade =>
        if b.pending.None? then Some(WithoutPending) else None
  }

  function AtStripe(cfg: PriceConfig, peer: Peer, id: string, op: Operation): Result<Peer, Refusal> {
    match op
    case Upgrade(target, declined) => StripeUpgrade(cfg, peer, id, target, declined)
    case Cancel(_) => StripeCancel(peer, id)
    case Reactivate => StripeReactivate(peer, id)
    case Downgrade(target) => StripeDowngrade(cfg, peer, id, target)
    case CancelDowngrade => StripeRelease(peer, id)
  }

  function Written(b: Billing, op: Operation, end: Option<int>, now: int): Billing {
    match op
    case Upgrade(target, _) => b.(plan := target, status := ActiveSubscription)
    case Cancel(reason) => b.(cancelReason := reason, cancelRequestedAt := Some(now),
                              cancelEffectiveAt := EffectiveDate(end))
    case Reactivate => b.(cancelReason := None, cancelRequestedAt := None, cancelEffectiveAt := None)
    case Downgrade(target) => b.(pending := Some(target), downgradeAt := EffectiveDate(end))
    case CancelDowngrade => b.(pending := None, downgradeAt := None)
  }

  function PeriodEndAt(peer: Peer, id: string): Option<int> {
    if id in peer then peer[id].periodEnd else None
  }

  /** A refused operation changes neither the row nor the peer. */
  function Operated(cfg: PriceConfig, b: Billing, peer: Peer, op: Operation, now: int): Outcome {
    var refusal := Refused(b, op, now);
    if refusal.Some? then Outcome(b, peer, refusal)
    else match AtStripe(cfg, peer, b.subscription.value, op)
      case Err(e) => Outcome(b, peer, Some(e))
      case Ok(after) => Outcome(Written(b, op, PeriodEndAt(peer, b.subscription.value), now), after, None)
  }

  function OperatedRows(cfg: PriceConfig, bs: seq<Billing>, peer: Peer, tenantId: string, op: Operation,
      now: int): seq<Billing>
  {
    Ensured(bs, tenantId)[RowOf(bs, tenantId) := Operated(cfg, Current(bs, tenantId), peer, op, now).row]
  }

  function OperatedPeer(cfg: PriceConfig, bs: seq<Billing>, peer: Peer, tenantId: string, op: Operation, now: int): Peer
  {
    Operated(cfg, Current(bs, tenantId), peer, op, now).peer
  }

  /** The exception of an operation, if it is refused. */
  function OperatedRefusal(cfg: PriceConfig, bs: seq<Billing>, peer: Peer, tenantId: string, op: Operation,
      now: int): Option<Refusal>
  {
    Operated(cfg, Current(bs, tenantId), peer, op, now).refusal
  }

  // ---------- Trials that run out

  function AfterTrial(b: Billing): Billing {
    if b.status == ActiveSubscription || (b.plan == Free && b.status == NoSubscription) then b
    else b.(plan := Free, status := NoSubscription, pending := None, downgradeAt := None, cancelReason := None,
            cancelRequestedAt := None, cancelEffectiveAt := None, subscription := None)
  }

  /** `handleTrialExpired`, skipped for tenants with a manually invoiced plan. Whether the cleared trial end is
      stored is up to the mapper: `clears` says so. */
  function TrialExpired(w: World, tenantId: string, clears: bool): World {
    var bs := Ensured(w.billings, tenantId);
    var i := RowOf(w.billings, tenantId);
    w.(billings := bs[i := AfterTrial(bs[i])],
       tenants := if clears && bs[i].status != ActiveSubscription && tenantId in w.tenants
                  then w.tenants[tenantId := w.tenants[tenantId].(trialEndsAt := None)] else w.tenants)
  }

  predicate TrialOver(w: World, id: string, manual: set<string>, now: int) {
    && id in w.tenants && id !in manual && w.tenants[id].status == Active
    && w.tenants[id].trialEndsAt.Some? && w.tenants[id].trialEndsAt.value <= now
  }

  function TrialsExpired(w: World, found: seq<string>, manual: set<string>, clears: bool, now: int): World {
    if |found| == 0 then w
    else
      var before := TrialsExpired(w, found[..|found| - 1], manual, clears, now);
      var id := found[|found| - 1];
      if TrialOver(w, id, manual, now) then TrialExpired(before, id, clears) else before
  }

  // ---------- Escalation of unpaid tenants

  const PAST_DUE_TO_RESTRICTED_MS := 7 * 24 * 60 * 60 * 1000
  const RESTRICTED_TO_LOCKED_MS := 14 * 24 * 60 * 60 * 1000

  /** The tenants an escalation run looks at. */
  predicate Escalates(t: Tenant) {
    t.status == Active && (t.paymentStatus == PastDue || t.paymentStatus == Restricted)
  }

  /** What one escalation run at `now` makes of a tenant. */
  function Escalated(t: Tenant, now: int): Tenant {
    if !Escalates(t) then t
    else if t.changedAt.None? then t.(changedAt := Some(now))
    else if t.paymentStatus == PastDue && now - t.changedAt.value >= PAST_DUE_TO_RESTRICTED_MS
      then t.(paymentStatus := Restricted, changedAt := Some(now))
    else if t.paymentStatus == Restricted && now - t.changedAt.value >= RESTRICTED_TO_LOCKED_MS
      then t.(paymentStatus := PaymentLocked, changedAt := Some(now))
    else t
  }

  /** Escalation saves the row `t` it has read, with its change, over whatever row is there by then. */
  function EscalatedFrom(w: World, id: string, t: Tenant, now: int): World {
    var t' := Escalated(t, now);
    if t' == t then w
    else w.(tenants := w.tenants[id := t'],
            changes := w.changes + if t.paymentStatus == t'.paymentStatus then []
                                   else [Change(id, t.paymentStatus, t'.paymentStatus, now)])
  }

  function EscalatedOne(w: World, id: string, now: int): World {
    if id in w.tenants then EscalatedFrom(w, id, w.tenants[id], now) else w
  }

  function EscalatedAll(w: World, found: seq<string>, now: int): World {
    if |found| == 0 then w else EscalatedOne(EscalatedAll(w, found[..|found| - 1], now), found[|found| - 1], now)
  }

  lemma EscalatedElsewhere(w: World, id: string, now: int)
    ensures EscalatedOne(w, id, now).tenants.Keys == w.tenants.Keys
    ensures forall other | other in w.tenants && other != id ::
            EscalatedOne(w, id, now).tenants[other] == w.tenants[other]
    ensures id in w.tenants ==> EscalatedOne(w, id, now).tenants[id] == Escalated(w.tenants[id], now)
  {
    assert EscalatedOne(w, id, now).tenants.Keys == w.tenants.Keys;
  }

  /** A run over a complete answer of its query, in whatever order, moves each tenant as if it were alone. */
  lemma {:induction false} EscalatedPrefix(w: World, found: seq<string>, now: int)
    requires forall i, j | 0 <= i < j < |found| :: found[i] != found[j]
    ensures EscalatedAll(w, found, now).tenants ==
            map id | id in w.tenants :: if id in found then Escalated(w.tenants[id], now) else w.tenants[id]
  {
    hide EscalatedOne, Escalated;
    if |found| > 0 {
      var k := |found| - 1;
      EscalatedPrefix(w, found[..k], now);
      EscalatedElsewhere(EscalatedAll(w, found[..k], now), found[k], now);
      assert found == found[..k] + [found[k]];
    }
  }

  lemma EscalatedPointwise(w: World, found: seq<string>, now: int)
    requires forall i, j | 0 <= i < j < |found| :: found[i] != found[j]
    requires forall id :: id in found <==> id in w.tenants && Escalates(w.tenants[id])
    ensures EscalatedAll(w, found, now).tenants == map id | id in w.tenants :: Escalated(w.tenants[id], now)
  {
    EscalatedPrefix(w, found, now);
  }

  // ---------- Whole runs

  /** Steps of the billing state machine. Peers are what Stripe answers at that moment; `found` is the order in
      which a job's query returned its tenants. */
  datatype Step =
    | Deliver(event: Event, peer: Peer, now: int)
    | Operate(tenantId: string, op: Operation, peer: Peer, now: int)
    | Trials(found: seq<string>, manual: set<string>, clears: bool, now: int)
    | Escalate(found: seq<string>, now: int)
    | Register(tenantId: string, trialEndsAt: Option<int>)
    | SetStatus(tenantId: string, status: TenantStatus)

  function Registered(w: World, tenantId: string, trialEndsAt: Option<int>): World {
    if tenantId in w.tenants then w
    else w.(tenants := w.tenants[tenantId := Tenant(Active, PaymentActive, None, trialEndsAt)])
  }

  function Next(cfg: PriceConfig, w: World, s: Step): World {
    match s
    case Deliver(event, peer, now) => Handle(cfg, w, peer, event, now)
    case Operate(tenantId, op, peer, now) => w.(billings := OperatedRows(cfg, w.billings, peer, tenantId, op, now))
    case Trials(found, manual, clears, now) => TrialsExpired(w, found, manual, clears, now)
    case Escalate(found, now) => EscalatedAll(w, found, now)
    case Register(tenantId, trialEndsAt) => Registered(w, tenantId, trialEndsAt)
    case SetStatus(tenantId, status) =>
      if tenantId in w.tenants then w.(tenants := w.tenants[tenantId := w.tenants[tenantId].(status := status)]) else w
  }

  function Run(cfg: PriceConfig, w: World, steps: seq<Step>): World {
    if |steps| == 0 then w else Next(cfg, Run(cfg, w, steps[..|steps| - 1]), steps[|steps| - 1])
  }

  const NEW_WORLD := World([], map[], [])
}
