/** The billing vocabulary: plans, statuses and the rows that several services read. */
module BillingModel {
  import opened Wrappers

  datatype Plan = Free | Starter | Growth | Enterprise
  datatype SubscriptionStatus = NoSubscription | ActiveSubscription | CanceledSubscription
  datatype PaymentStatus = PaymentActive | PastDue | Restricted | PaymentLocked
  datatype TenantStatus = Active | Suspended | Locked | Pending | DeletionScheduled

  /** A row of the plan table; `interval`, `productId` and `metadata` mirror the Stripe catalogue. */
  datatype PlanRow = PlanRow(
    id: string, name: string, stripePriceId: Option<string>, stripeProductId: Option<string>,
    interval: Option<string>, limits: Option<map<string, real>>, tenantId: Option<string>,
    isActive: bool, manualInvoicing: bool, metadata: Option<Metadata>)

  datatype Metadata = Metadata(price: map<string, string>, product: Option<map<string, string>>)

  /** The configured Stripe price ids; an unset or empty one is not configured. */
  datatype PriceConfig = PriceConfig(free: Option<string>, starter: Option<string>, growth: Option<string>,
      enterprise: Option<string>)

  function Configured(id: Option<string>): Option<string> {
    if id.Some? && id.value != "" then id else None
  }

  /** `priceIdForPlan` */
  function PriceIdFor(cfg: PriceConfig, plan: Plan): Option<string> {
    Configured(match plan
               case Free => cfg.free
               case Starter => cfg.starter
               case Growth => cfg.growth
               case Enterprise => cfg.enterprise)
  }

  /** `resolvePlanFromSubscription`: the first plan, in this order, whose configured price it is. */
  function ResolvePlan(cfg: PriceConfig, price: Option<string>): Option<Plan> {
    if Configured(price).None? then None
    else if cfg.free == price then Some(Free)
    else if cfg.starter == price then Some(Starter)
    else if cfg.growth == price then Some(Growth)
    else if cfg.enterprise == price then Some(Enterprise)
    else None
  }

  predicate AllConfigured(cfg: PriceConfig) {
    forall p: Plan :: PriceIdFor(cfg, p).Some?
  }

  predicate DistinctPrices(cfg: PriceConfig) {
    && AllConfigured(cfg)
    && forall p: Plan, q: Plan :: PriceIdFor(cfg, p) == PriceIdFor(cfg, q) ==> p == q
  }

  /** Reading a plan off the price it is sold at gives the plan back for all four plans exactly when the four
      price ids are configured and different. */
  lemma ResolveInvertsExactly(cfg: PriceConfig)
    ensures (forall p: Plan :: ResolvePlan(cfg, PriceIdFor(cfg, p)) == Some(p)) <==> DistinctPrices(cfg)
  {
    if DistinctPrices(cfg) {
      forall p: Plan ensures ResolvePlan(cfg, PriceIdFor(cfg, p)) == Some(p) {
        assert PriceIdFor(cfg, p).Some?;
        assert cfg.free == PriceIdFor(cfg, p) ==> p == Free by {
          assert PriceIdFor(cfg, Free).Some?;
        }
        assert cfg.starter == PriceIdFor(cfg, p) ==> p == Starter by {
          assert PriceIdFor(cfg, Starter).Some?;
        }
        assert cfg.growth == PriceIdFor(cfg, p) ==> p == Growth by {
          assert PriceIdFor(cfg, Growth).Some?;
        }
        assert cfg.enterprise == PriceIdFor(cfg, p) ==> p == Enterprise by {
          assert PriceIdFor(cfg, Enterprise).Some?;
        }
      }
    }
    if forall p: Plan :: ResolvePlan(cfg, PriceIdFor(cfg, p)) == Some(p) {
      forall p: Plan, q: Plan | PriceIdFor(cfg, p) == PriceIdFor(cfg, q) ensures p == q {
        assert ResolvePlan(cfg, PriceIdFor(cfg, p)) == Some(p) && ResolvePlan(cfg, PriceIdFor(cfg, q)) == Some(q);
      }
      forall p: Plan ensures PriceIdFor(cfg, p).Some? {
        assert ResolvePlan(cfg, PriceIdFor(cfg, p)) == Some(p);
      }
    }
  }

  /** Position in the plan order used for downgrades. */
  function Rank(p: Plan): nat {
    match p
    case Free => 0
    case Starter => 1
    case Growth => 2
    case Enterprise => 3
  }

  /** The plans from the lowest to the highest, each with its configured price. */
  function Catalogue(cfg: PriceConfig): seq<(Plan, Option<string>)> {
    [(Free, cfg.free), (Starter, cfg.starter), (Growth, cfg.growth), (Enterprise, cfg.enterprise)]
  }

  /** A plan is sold at its own price, if that is set and not empty; a price stands for the lowest plan it is set for;
      and plans rank by their place. */
  lemma CatalogueExactly(cfg: PriceConfig, price: Option<string>, i: nat)
    requires i < 4
    ensures var (plan, own) := Catalogue(cfg)[i];
            && Rank(plan) == i
            && (price.Some? ==> (PriceIdFor(cfg, plan) == price <==> own == price && price.value != ""))
            && (ResolvePlan(cfg, price) == Some(plan) <==>
                price.Some? && price.value != "" && own == price && forall j | 0 <= j < i ::
                  Catalogue(cfg)[j].1 != price)
  {
    assert i == 0 || i == 1 || i == 2 || i == 3;
    assert Catalogue(cfg)[0].1 == cfg.free && Catalogue(cfg)[1].1 == cfg.starter && Catalogue(cfg)[2].1 == cfg.growth;
  }
}
