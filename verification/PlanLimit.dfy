/** Plan limits: which limit applies to a tenant, and when an action is refused. */
module PlanLimit {
  import opened Wrappers
  import opened BillingModel

  /** What the check reads about one tenant: its trial, its billing row if any, the plan table in storage
      order and the price configuration. */
  datatype Account = Account(
    tenantId: string, trialEndsAt: Option<int>, billing: Option<(Plan, SubscriptionStatus)>,
    plans: seq<PlanRow>, prices: PriceConfig)

  datatype Refusal =
    | TrialExpired(trialEndsAt: int)
    | LimitExceeded(metric: string, currentUsage: int, limit: real, requested: int, remaining: real,
                    effectiveLimit: real)

  function FirstPlan(plans: seq<PlanRow>, wanted: PlanRow -> bool): Option<PlanRow> {
    if |plans| == 0 then None
    else if wanted(plans[0]) then Some(plans[0])
    else FirstPlan(plans[1..], wanted)
  }

  function ManualPlan(a: Account): Option<PlanRow> {
    FirstPlan(a.plans, (p: PlanRow) => p.tenantId == Some(a.tenantId) && p.isActive && p.manualInvoicing)
  }

  /** `resolvePlanForTenant`: a manual plan first, then the catalogue plan of the billing row, and the free
      plan for a tenant without one. */
  function PlanOf(a: Account): Option<PlanRow> {
    if ManualPlan(a).Some? then ManualPlan(a)
    else
      var price := PriceIdFor(a.prices, if a.billing.Some? then a.billing.value.0 else Free);
      if price.None? then None
      else FirstPlan(a.plans, (p: PlanRow) => p.stripePriceId == price && p.tenantId.None? && p.isActive)
  }

  function LimitOf(a: Account, metric: string): Option<real> {
    var plan := PlanOf(a);
    if plan.Some? && plan.value.limits.Some? && metric in plan.value.limits.value
    then Some(plan.value.limits.value[metric]) else None
  }

  predicate TrialBlocks(a: Account, now: int) {
    && a.trialEndsAt.Some? && a.trialEndsAt.value <= now
    && ManualPlan(a).None?
    && !(a.billing.Some? && a.billing.value.1 == ActiveSubscription)
  }

  function EffectiveLimit(limit: real, grace: Option<real>): real {
    if grace.Some? && grace.value > 0.0
    then (limit * (1.0 + grace.value / 100.0)).Floor as real else limit
  }

  /** `enforceLimit` for a usage read from the counter. */
  function EnforceLimit(a: Account, metric: string, usage: int, value: int, grace: Option<real>,
      now: int): Result<(), Refusal>
  {
    if value <= 0 then Ok(())
    else if TrialBlocks(a, now) then Err(TrialExpired(a.trialEndsAt.value))
    else
      var limit := LimitOf(a, metric);
      if limit.None? then Ok(())
      else
        var effective := EffectiveLimit(limit.value, grace);
        if (usage + value) as real > effective
        then Err(LimitExceeded(metric, usage, limit.value, value,
                               if effective > usage as real then effective - usage as real else 0.0, effective))
        else Ok(())
  }

  /** The largest counter value the check lets a metric reach. */
  function Quota(a: Account, metric: string, grace: Option<real>): Option<int> {
    var limit := LimitOf(a, metric);
    if limit.None? then None else Some(EffectiveLimit(limit.value, grace).Floor)
  }

  /** A positive request passes exactly when the trial does not block the tenant and the counter would stay
      within the whole-number quota. */
  lemma EnforceLimitExactly(a: Account, metric: string, usage: int, value: int, grace: Option<real>, now: int)
    requires value > 0
    ensures EnforceLimit(a, metric, usage, value, grace, now).Ok?
            <==> !TrialBlocks(a, now)
                 && (Quota(a, metric, grace).None? || usage + value <= Quota(a, metric, grace).value)
  {
    var q := Quota(a, metric, grace);
    if q.Some? {
      var effective := EffectiveLimit(LimitOf(a, metric).value, grace);
      assert (usage + value) as real <= effective <==> usage + value <= effective.Floor;
    }
  }

  // ---------- Which row of the plan table decides

  /** Row `i` is an active plan invoiced manually to the tenant. */
  predicate IsManual(a: Account, i: nat) {
    i < |a.plans| && a.plans[i].tenantId == Some(a.tenantId) && a.plans[i].isActive && a.plans[i].manualInvoicing
  }

  /** Row `i` is an active plan of everybody's, sold at the price configured for the plan of the billing row, or for
      the free plan when there is no billing row. */
  predicate IsCatalogue(a: Account, i: nat) {
    && i < |a.plans| && a.plans[i].tenantId.None? && a.plans[i].isActive
    && var price := PriceIdFor(a.prices, match a.billing case Some((plan, _)) => plan case None => Free);
       price.Some? && a.plans[i].stripePriceId == price
  }

  /** Row `i` is the tenant's plan: its first manual one, or without any the first of the catalogue. */
  predicate Applies(a: Account, i: nat) {
    if exists j: nat | j < |a.plans| :: IsManual(a, j)
    then IsManual(a, i) && forall j: nat | j < i :: !IsManual(a, j)
    else IsCatalogue(a, i) && forall j: nat | j < i :: !IsCatalogue(a, j)
  }

  lemma {:induction false} FirstPlanMeans(plans: seq<PlanRow>, wanted: PlanRow -> bool) returns (i: nat)
    ensures FirstPlan(plans, wanted).Some? ==>
              i < |plans| && FirstPlan(plans, wanted) == Some(plans[i]) && wanted(plans[i])
              && forall j | 0 <= j < i :: !wanted(plans[j])
    ensures FirstPlan(plans, wanted).None? ==> forall j | 0 <= j < |plans| :: !wanted(plans[j])
  {
    i := 0;
    if |plans| > 0 && !wanted(plans[0]) {
      var k := FirstPlanMeans(plans[1..], wanted);
      assert forall j | 1 <= j < |plans| :: plans[j] == plans[1..][j - 1];
      i := k + 1;
    }
  }

  /** The manual plan is that of the first manual row. */
  lemma ManualMeans(a: Account)
    ensures ManualPlan(a).Some? <==> exists j: nat | j < |a.plans| :: IsManual(a, j)
    ensures ManualPlan(a).Some? ==> exists i: nat | i < |a.plans| :: Applies(a, i) && PlanOf(a) == Some(a.plans[i])
  {
    var wanted := (p: PlanRow) => p.tenantId == Some(a.tenantId) && p.isActive && p.manualInvoicing;
    var i := FirstPlanMeans(a.plans, wanted);
    assert forall j: nat | j < |a.plans| :: IsManual(a, j) <==> wanted(a.plans[j]);
    if ManualPlan(a).Some? {
      assert IsManual(a, i);
      assert Applies(a, i) && PlanOf(a) == Some(a.plans[i]);
    }
  }

  lemma PlanMeans(a: Account)
    ensures PlanOf(a).Some? ==> exists i: nat | i < |a.plans| :: Applies(a, i) && PlanOf(a) == Some(a.plans[i])
    ensures PlanOf(a).None? ==> forall i: nat :: !Applies(a, i)
  {
    ManualMeans(a);
    if ManualPlan(a).None? {
      var price := PriceIdFor(a.prices, if a.billing.Some? then a.billing.value.0 else Free);
      if price.Some? {
        var wanted := (p: PlanRow) => p.stripePriceId == price && p.tenantId.None? && p.isActive;
        var i := FirstPlanMeans(a.plans, wanted);
        assert forall j: nat | j < |a.plans| :: IsCatalogue(a, j) <==> wanted(a.plans[j]);
        hide PriceIdFor;
        if PlanOf(a).Some? {
          assert Applies(a, i) && PlanOf(a) == Some(a.plans[i]);
        }
      }
    }
  }

  lemma AppliesOnce(a: Account, i: nat, j: nat)
    requires Applies(a, i) && Applies(a, j)
    ensures i == j
  {
    assert i < j || j < i || i == j;
    hide IsCatalogue, IsManual;
  }

  /** An expired trial stops a tenant exactly without an active subscription and without a manual plan. */
  lemma TrialStopsExactly(a: Account, metric: string, usage: int, value: int, grace: Option<real>, now: int)
    requires value > 0
    ensures var r := EnforceLimit(a, metric, usage, value, grace, now);
            r.Err? && r.error.TrialExpired? <==>
            && (match a.trialEndsAt case Some(end) => end <= now case None => false)
            && (forall i: nat | i < |a.plans| :: !IsManual(a, i))
            && (match a.billing case Some((_, status)) => status != ActiveSubscription case None => true)
  {
    ManualMeans(a);
    hide IsManual, PlanOf, Applies, LimitOf, EffectiveLimit;
  }

  /** The plan sets no limit for the metric, or the count stays within it, raised by the grace percentage and rounded
      down. */
  predicate Allows(plan: PlanRow, metric: string, count: int, grace: Option<real>) {
    match plan.limits
    case None => true
    case Some(limits) =>
      metric in limits ==>
        count as real <= WithGrace(limits[metric], grace)
  }

  function WithGrace(limit: real, grace: Option<real>): real {
    match grace
    case None => limit
    case Some(percent) => if percent > 0.0 then (limit * (1.0 + percent / 100.0)).Floor as real else limit
  }

  lemma GraceMeans(limit: real, grace: Option<real>)
    ensures EffectiveLimit(limit, grace) == WithGrace(limit, grace)
  {
  }

  lemma AllowsMeans(a: Account, plan: PlanRow, metric: string, usage: int, value: int, grace: Option<real>, now: int)
    requires value > 0 && !TrialBlocks(a, now) && PlanOf(a) == Some(plan)
    ensures EnforceLimit(a, metric, usage, value, grace, now).Ok? <==> Allows(plan, metric, usage + value, grace)
  {
    hide PlanOf, TrialBlocks;
    var limit := LimitOf(a, metric);
    if limit.Some? {
      GraceMeans(limit.value, grace);
      hide EffectiveLimit, WithGrace;
      assert plan.limits.Some? && metric in plan.limits.value && limit.value == plan.limits.value[metric];
    }
  }

  /** A positive request that no trial stops passes exactly when the row of the tenant's plan allows the count it
      leads to; without such a row it passes. */
  lemma PlanRowDecidesExactly(a: Account, metric: string, usage: int, value: int, grace: Option<real>, now: int)
    requires value > 0
    requires var r := EnforceLimit(a, metric, usage, value, grace, now); r.Err? ==> r.error.LimitExceeded?
    ensures EnforceLimit(a, metric, usage, value, grace, now).Ok? <==>
            forall i: nat | i < |a.plans| && Applies(a, i) :: Allows(a.plans[i], metric, usage + value, grace)
  {
    PlanMeans(a);
    if PlanOf(a).Some? {
      var i: nat :| i < |a.plans| && Applies(a, i) && PlanOf(a) == Some(a.plans[i]);
      forall j: nat | Applies(a, j) ensures i == j {
        AppliesOnce(a, i, j);
      }
      hide PlanOf, TrialBlocks, Applies;
      AllowsMeans(a, a.plans[i], metric, usage, value, grace, now);
    }
  }

  /** The limit the plan row sets for the metric. */
  predicate Sets(plan: PlanRow, metric: string, limit: real) {
    plan.limits.Some? && metric in plan.limits.value && plan.limits.value[metric] == limit
  }

  /** A refusal reports the limit of the row that applies, the same with grace, and what a request may still ask for:
      a positive one passes exactly up to it. */
  lemma RemainingExactly(a: Account, metric: string, usage: int, value: int, grace: Option<real>, now: int, other: int)
    requires value > 0 && other > 0
    requires var r := EnforceLimit(a, metric, usage, value, grace, now); r.Err? && r.error.LimitExceeded?
    ensures var refusal := EnforceLimit(a, metric, usage, value, grace, now).error;
            && refusal.metric == metric && refusal.currentUsage == usage && refusal.requested == value
            && (exists i: nat | i < |a.plans| :: Applies(a, i) && Sets(a.plans[i], metric, refusal.limit))
            && refusal.effectiveLimit == WithGrace(refusal.limit, grace)
            && (EnforceLimit(a, metric, usage, other, grace, now).Ok? <==> other as real <= refusal.remaining)
  {
    var limit := LimitOf(a, metric).value;
    GraceMeans(limit, grace);
    PlanMeans(a);
    var i: nat :| i < |a.plans| && Applies(a, i) && PlanOf(a) == Some(a.plans[i]);
    assert Sets(a.plans[i], metric, limit);
    hide Applies, Sets, LimitOf, EffectiveLimit, WithGrace, TrialBlocks;
  }

  /** Grace never takes quota away, and none is given without a positive percentage. */
  lemma GraceOnlyAdds(a: Account, metric: string, grace: Option<real>)
    requires LimitOf(a, metric).Some? && LimitOf(a, metric).value >= 0.0
    ensures Quota(a, metric, grace).value >= Quota(a, metric, None).value
    ensures grace.None? || grace.value <= 0.0 ==> Quota(a, metric, grace) == Quota(a, metric, None)
  {
    var limit := LimitOf(a, metric).value;
    if grace.Some? && grace.value > 0.0 {
      var factor := 1.0 + grace.value / 100.0;
      assert limit * factor >= limit by {
        assert limit * (grace.value / 100.0) >= 0.0;
      }
      assert (limit * factor).Floor >= limit.Floor;
    }
  }

  /** A manual plan decides alone: no catalogue plan, billing row or expired trial matters beside it. */
  lemma ManualPlanDecides(a: Account, b: Account, metric: string, usage: int, value: int, grace: Option<real>, now: int)
    requires ManualPlan(a).Some? && b == a.(trialEndsAt := None, billing := None, prices := b.prices)
    ensures EnforceLimit(a, metric, usage, value, grace, now) == EnforceLimit(b, metric, usage, value, grace, now)
  {
    assert ManualPlan(b) == ManualPlan(a);
  }
}
