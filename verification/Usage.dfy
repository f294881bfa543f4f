/** Usage metering: the counter service, the tracker's daily rows, the daily snapshot and the monthly reset. */
module Usage {
  import opened Wrappers
  import opened Redis
  import opened UsageCounters
  import opened BillingModel
  import Calendar
  import PlanLimit

  datatype RowKey = RowKey(tenant: string, metric: string, periodDate: string)
  datatype UsageRow = UsageRow(currentUsage: int, limitValue: Option<int>)

  datatype BillingEvent =
    | ThresholdCrossed(tenant: string, metric: string, threshold: int, usage: int, crossed: int)
    | MonthlySummary(tenant: string, metric: string, month: string, usage: int, limit: Option<int>)

  /** Everything the metering services write. */
  datatype Stores = Stores(ks: Keyspace, rows: map<RowKey, UsageRow>, events: seq<BillingEvent>)

  /** The date of an instant, as daily rows spell it. */
  function Today(now: int): string {
    Calendar.DateText(Calendar.Day(now))
  }

  // ---------- The tracker

  function RowOf(rows: map<RowKey, UsageRow>, key: RowKey): UsageRow {
    if key in rows then rows[key] else UsageRow(0, None)
  }

  function TrackerIncrement(st: Stores, prefix: string, t: string, metric: string, now: int, amount: int): Stores {
    if amount <= 0 then st
    else
      var key := RowKey(t, metric, Today(now));
      var row := RowOf(st.rows, key);
      st.(ks := Tracked(st.ks, prefix, t, metric, now, amount),
          rows := st.rows[key := row.(currentUsage := row.currentUsage + amount)])
  }

  function TrackerDecrement(st: Stores, prefix: string, t: string, metric: string, now: int, amount: int): Stores {
    if amount <= 0 then st
    else
      var key := RowKey(t, metric, Today(now));
      var row := RowOf(st.rows, key);
      st.(ks := Tracked(st.ks, prefix, t, metric, now, -amount),
          rows := st.rows[key := row.(currentUsage := NonNegative(row.currentUsage - amount))])
  }

  // ---------- The daily snapshot

  const PERCENTAGES: seq<(int, string)> := [(80, "80"), (100, "100")]

  function LimitAt(ks: Keyspace, prefix: string, t: string, metric: string, now: int): Option<int> {
    match Read(ks, LimitKey(prefix, t, metric), now)
    case Some(Num(n)) => Some(n)
    case _ => None
  }

  function CrossThreshold(st: Stores, prefix: string, t: string, metric: string, now: int, usage: int, limit: int,
                          percentage: (int, string)): Stores {
    var key := ThresholdKey(prefix, t, metric, percentage.1);
    if usage * 100 >= percentage.0 * limit && Read(st.ks, key, now).None?
    then st.(ks := st.ks[key := Cell(Str("1"), Until(now, THRESHOLD_TTL_SECONDS))],
             events := st.events + [ThresholdCrossed(t, metric, percentage.0, usage, limit)])
    else st
  }

  function SnapshotMetric(st: Stores, prefix: string, t: string, metric: string, now: int): Stores {
    var usage := Counter(st.ks, prefix, t, metric, Month(now), now);
    var limit := LimitAt(st.ks, prefix, t, metric, now);
    var key := RowKey(t, metric, Today(now));
    var row := if key in st.rows
               then UsageRow(usage, if limit.Some? then limit else st.rows[key].limitValue)
               else UsageRow(usage, limit);
    var saved := st.(rows := st.rows[key := row]);
    if limit.Some? && limit.value > 0
    then CrossThreshold(CrossThreshold(saved, prefix, t, metric, now, usage, limit.value, PERCENTAGES[0]),
                        prefix, t, metric, now, usage, limit.value, PERCENTAGES[1])
    else saved
  }

  function SnapshotMetrics(st: Stores, prefix: string, t: string, metrics: seq<string>, now: int): Stores {
    if |metrics| == 0 then st
    else SnapshotMetric(SnapshotMetrics(st, prefix, t, metrics[..|metrics| - 1], now), prefix, t,
                        metrics[|metrics| - 1], now)
  }

  datatype TenantRef = TenantRef(id: string, status: TenantStatus)

  function SnapshotTenant(st: Stores, prefix: string, tenant: TenantRef, now: int): Stores {
    if tenant.status == Active
    then SnapshotMetrics(st, prefix, tenant.id, Metrics(st.ks, prefix, tenant.id, now), now) else st
  }

  function Snapshot(st: Stores, prefix: string, tenants: seq<TenantRef>, now: int): Stores {
    if |tenants| == 0 then st
    else SnapshotTenant(Snapshot(st, prefix, tenants[..|tenants| - 1], now), prefix, tenants[|tenants| - 1], now)
  }

  // ---------- The monthly reset

  function ResetMetric(st: Stores, prefix: string, t: string, metric: string, now: int): Stores {
    var previous := Calendar.GetPreviousCalendarMonth(now);
    var key := RowKey(t, metric, previous.prevMonthEnd);
    var usage := if key in st.rows then st.rows[key].currentUsage
                 else Counter(st.ks, prefix, t, metric, previous.prevMonthLabel, now);
    st.(events := st.events + [MonthlySummary(t, metric, previous.prevMonthLabel, usage,
                                              LimitAt(st.ks, prefix, t, metric, now))],
        ks := st.ks - {UsageKey(prefix, t, metric, previous.prevMonthLabel)}
              - {ThresholdKey(prefix, t, metric, PERCENTAGES[0].1)}
                - {ThresholdKey(prefix, t, metric, PERCENTAGES[1].1)})
  }

  function ResetMetrics(st: Stores, prefix: string, t: string, metrics: seq<string>, now: int): Stores {
    if |metrics| == 0 then st
    else ResetMetric(ResetMetrics(st, prefix, t, metrics[..|metrics| - 1], now), prefix, t, metrics[|metrics| - 1], now)
  }

  function ResetTenant(st: Stores, prefix: string, tenant: TenantRef, now: int): Stores {
    if tenant.status == Active
    then ResetMetrics(st, prefix, tenant.id, Metrics(st.ks, prefix, tenant.id, now), now) else st
  }

  function Reset(st: Stores, prefix: string, tenants: seq<TenantRef>, now: int): Stores {
    if |tenants| == 0 then st
    else ResetTenant(Reset(st, prefix, tenants[..|tenants| - 1], now), prefix, tenants[|tenants| - 1], now)
  }

  // ---------- The services

  class UsageDb {
    var rows: map<RowKey, UsageRow>
    var events: seq<BillingEvent>

    constructor ()
      ensures rows == map[] && events == []
    {
      rows := map[];
      events := [];
    }
  }

  class RedisUsageService {
    const redis: Store
    const prefix: string

    constructor (redis: Store, prefix: string)
      ensures this.redis == redis && this.prefix == prefix
    {
      this.redis := redis;
      this.prefix := prefix;
    }

    /** The names are usable and the keys of this metric hold what the commands expect. */
    ghost predicate Ready(t: string, metric: string)
      reads redis
    {
      && Named(t, metric)
      && Segment(Month(redis.now))
      && Typed(redis.cells, prefix, redis.now)
    }

    method GetUsage(t: string, metric: string, month: Option<string>) returns (n: int)
      ensures n == Counter(redis.cells, prefix, t, metric,
                           if month.Some? then month.value else Month(redis.now), redis.now)
    {
      var period := if month.Some? then month.value else Month(redis.now);
      var raw := redis.Get(UsageKey(prefix, t, metric, period));
      n := if raw.Some? && raw.value.Num? then raw.value.n else 0;
    }

    method IncrementUsage(t: string, metric: string, amount: int) returns (n: int)
      requires Ready(t, metric)
      modifies redis`cells
      ensures redis.cells == if amount <= 0 then old(redis.cells)
              else Tracked(old(redis.cells), prefix, t, metric, redis.now, amount)
      ensures n == Counter(redis.cells, prefix, t, metric, Month(redis.now), redis.now)
    {
      hide UsageKey, MetricsKey, Month, IncrementAt;
      if amount <= 0 {
        n := GetUsage(t, metric, None);
        return;
      }
      var key, metricsKey := UsageKey(prefix, t, metric, Month(redis.now)), MetricsKey(prefix, t);
      assert Holds(Read(redis.cells, key, redis.now), true) && Holds(Read(redis.cells, metricsKey, redis.now), false);
      MetricsApart(prefix, t, metric, Month(redis.now), t);
      n := CountUp(key, metricsKey, metric, amount);
    }

    method CountUp(key: string, metricsKey: string, metric: string, amount: int) returns (n: int)
      requires key != metricsKey && amount > 0
      requires Holds(Read(redis.cells, key, redis.now), true) && Holds(Read(redis.cells, metricsKey, redis.now), false)
      modifies redis`cells
      ensures redis.cells == IncrementAt(old(redis.cells), key, metricsKey, metric, redis.now, amount)
      ensures n == NumberAt(redis.cells, key, redis.now)
    {
      n := redis.IncrBy(key, amount);
      redis.Expire(key, USAGE_TTL_SECONDS);
      redis.SAdd(metricsKey, metric);
      redis.Expire(metricsKey, USAGE_TTL_SECONDS);
    }

    method DecrementUsage(t: string, metric: string, amount: int) returns (n: int)
      requires Ready(t, metric)
      modifies redis`cells
      ensures redis.cells == if amount <= 0 then old(redis.cells)
              else Tracked(old(redis.cells), prefix, t, metric, redis.now, -amount)
      ensures n == Counter(redis.cells, prefix, t, metric, Month(redis.now), redis.now)
    {
      hide UsageKey, MetricsKey, Month, DecrementAt;
      if amount <= 0 {
        n := GetUsage(t, metric, None);
        return;
      }
      var key, metricsKey := UsageKey(prefix, t, metric, Month(redis.now)), MetricsKey(prefix, t);
      assert Holds(Read(redis.cells, key, redis.now), true) && Holds(Read(redis.cells, metricsKey, redis.now), false);
      MetricsApart(prefix, t, metric, Month(redis.now), t);
      n := CountDown(key, metricsKey, metric, amount);
    }

    /** Going below zero is repaired by a second command that resets the counter. */
    method CountDown(key: string, metricsKey: string, metric: string, amount: int) returns (n: int)
      requires key != metricsKey && amount > 0
      requires Holds(Read(redis.cells, key, redis.now), true) && Holds(Read(redis.cells, metricsKey, redis.now), false)
      modifies redis`cells
      ensures redis.cells == DecrementAt(old(redis.cells), key, metricsKey, metric, redis.now, amount)
      ensures n == NumberAt(redis.cells, key, redis.now)
    {
      n := redis.IncrBy(key, -amount);
      if n < 0 {
        redis.Set(key, Num(0), USAGE_TTL_SECONDS);
        return 0;
      }
      redis.Expire(key, USAGE_TTL_SECONDS);
      redis.SAdd(metricsKey, metric);
      redis.Expire(metricsKey, USAGE_TTL_SECONDS);
    }

    method TrackUsage(t: string, metric: string, delta: int) returns (n: int)
      requires Ready(t, metric)
      modifies redis`cells
      ensures redis.cells == Tracked(old(redis.cells), prefix, t, metric, redis.now, delta)
      ensures n == Counter(redis.cells, prefix, t, metric, Month(redis.now), redis.now)
    {
      if delta == 0 {
        n := GetUsage(t, metric, None);
      } else if delta > 0 {
        n := IncrementUsage(t, metric, delta);
      } else {
        n := DecrementUsage(t, metric, -delta);
      }
    }

    method ListMetrics(t: string) returns (ms: seq<string>)
      ensures ms == Metrics(redis.cells, prefix, t, redis.now)
    {
      ms := redis.SMembers(MetricsKey(prefix, t));
    }

    method GetLimit(t: string, metric: string) returns (limit: Option<int>)
      ensures limit == LimitAt(redis.cells, prefix, t, metric, redis.now)
    {
      var raw := redis.Get(LimitKey(prefix, t, metric));
      limit := if raw.Some? && raw.value.Num? then Some(raw.value.n) else None;
    }

    method ClearMonthlyUsage(t: string, metric: string, month: string)
      modifies redis`cells
      ensures redis.cells == old(redis.cells) - {UsageKey(prefix, t, metric, month)}
    {
      redis.Del(UsageKey(prefix, t, metric, month));
    }

    method ClearThresholdFlags(t: string, metric: string, percentages: seq<(int, string)>)
      modifies redis`cells
      ensures redis.cells == old(redis.cells)
              - (set i | 0 <= i < |percentages| :: ThresholdKey(prefix, t, metric, percentages[i].1))
    {
      for n := 0 to |percentages|
        invariant redis.cells == old(redis.cells)
                  - (set i | 0 <= i < n :: ThresholdKey(prefix, t, metric, percentages[i].1))
      {
        redis.Del(ThresholdKey(prefix, t, metric, percentages[n].1));
      }
    }
  }

  class UsageTracker {
    const usage: RedisUsageService
    const db: UsageDb

    constructor (usage: RedisUsageService, db: UsageDb)
      ensures this.usage == usage && this.db == db
    {
      this.usage := usage;
      this.db := db;
    }

    ghost function State(): Stores
      reads usage.redis, db
    {
      Stores(usage.redis.cells, db.rows, db.events)
    }

    /** `t` is the tenant of the request context. */
    method Increment(t: string, metric: string, amount: int) returns (current: int)
      requires usage.Ready(t, metric)
      modifies usage.redis`cells, db`rows
      ensures State() == TrackerIncrement(old(State()), usage.prefix, t, metric, usage.redis.now, amount)
      ensures current == RowOf(db.rows, RowKey(t, metric, Today(usage.redis.now))).currentUsage
    {
      hide Tracked, Counter, Month, Typed, Today;
      var key := RowKey(t, metric, Today(usage.redis.now));
      if amount <= 0 {
        return if key in db.rows then db.rows[key].currentUsage else 0;
      }
      var _ := usage.IncrementUsage(t, metric, amount);
      var row := if key in db.rows then db.rows[key] else UsageRow(0, None);
      row := row.(currentUsage := row.currentUsage + amount);
      db.rows := db.rows[key := row];
      return row.currentUsage;
    }

    method Decrement(t: string, metric: string, amount: int) returns (current: int)
      requires usage.Ready(t, metric)
      modifies usage.redis`cells, db`rows
      ensures State() == TrackerDecrement(old(State()), usage.prefix, t, metric, usage.redis.now, amount)
      ensures current == RowOf(db.rows, RowKey(t, metric, Today(usage.redis.now))).currentUsage
    {
      hide Tracked, Counter, Month, Typed, Today;
      var key := RowKey(t, metric, Today(usage.redis.now));
      if amount <= 0 {
        return if key in db.rows then db.rows[key].currentUsage else 0;
      }
      var _ := usage.DecrementUsage(t, metric, amount);
      var row := if key in db.rows then db.rows[key] else UsageRow(0, None);
      row := row.(currentUsage := NonNegative(row.currentUsage - amount));
      db.rows := db.rows[key := row];
      return row.currentUsage;
    }
  }

  /** The internal increment endpoint: enforce the plan limit, then count. */
  class UsageInternalController {
    const tracker: UsageTracker

    constructor (tracker: UsageTracker)
      ensures this.tracker == tracker
    {
      this.tracker := tracker;
    }

    /** A refused request changes nothing; an accepted positive one raises the counter by its amount, and not
        past the quota. */
    method IncrementUsage(account: PlanLimit.Account, metric: string, amount: int)
      returns (r: Result<int, PlanLimit.Refusal>)
      requires tracker.usage.Ready(account.tenantId, metric)
      modifies tracker.usage.redis`cells, tracker.db`rows
      ensures r.Err? ==> tracker.State() == old(tracker.State()) && amount > 0
      ensures r.Ok? ==> tracker.State() == TrackerIncrement(old(tracker.State()), tracker.usage.prefix,
                                                            account.tenantId, metric,
                                                           tracker.usage.redis.now, amount)
      ensures r.Ok? && amount > 0 && PlanLimit.Quota(account, metric, None).Some? ==>
                Counter(tracker.usage.redis.cells, tracker.usage.prefix, account.tenantId, metric,
                        Month(tracker.usage.redis.now), tracker.usage.redis.now)
                <= PlanLimit.Quota(account, metric, None).value
    {
      var service := tracker.usage;
      var now := service.redis.now;
      var used := service.GetUsage(account.tenantId, metric, None);
      var check := PlanLimit.EnforceLimit(account, metric, used, amount, None, now);
      if check.Err? {
        return Err(check.error);
      }
      if amount > 0 {
        PlanLimit.EnforceLimitExactly(account, metric, used, amount, None, now);
        CountedUp(service.redis.cells, service.prefix, account.tenantId, metric, now, amount);
      }
      var current := tracker.Increment(account.tenantId, metric, amount);
      return Ok(current);
    }
  }

  lemma CountedUp(ks: Keyspace, prefix: string, t: string, metric: string, now: int, amount: int)
    requires Named(t, metric) && Segment(Month(now)) && Typed(ks, prefix, now)
    ensures Counter(Tracked(ks, prefix, t, metric, now, amount), prefix, t, metric, Month(now), now)
            == Saturate(Counter(ks, prefix, t, metric, Month(now), now), amount)
  {
    hide UsageKey, MetricsKey, Month, TrackAt;
    var key, metricsKey := UsageKey(prefix, t, metric, Month(now)), MetricsKey(prefix, t);
    assert Holds(Read(ks, key, now), true);
    MetricsApart(prefix, t, metric, Month(now), t);
    TrackedNothing(ks, key, metricsKey, metric, now);
    if amount != 0 {
      TrackedCell(ks, key, metricsKey, metric, now, amount);
    }
  }

  class DailyUsageCalculator {
    const usage: RedisUsageService
    const db: UsageDb

    constructor (usage: RedisUsageService, db: UsageDb)
      ensures this.usage == usage && this.db == db
    {
      this.usage := usage;
      this.db := db;
    }

    ghost function State(): Stores
      reads usage.redis, db
    {
      Stores(usage.redis.cells, db.rows, db.events)
    }

    method RunDailySnapshot(tenants: seq<TenantRef>)
      modifies usage.redis`cells, db
      ensures State() == Snapshot(old(State()), usage.prefix, tenants, usage.redis.now)
    {
      hide SnapshotMetric, Metrics;
      for i := 0 to |tenants|
        invariant State() == Snapshot(old(State()), usage.prefix, tenants[..i], usage.redis.now)
      {
        assert tenants[..i + 1][..i] == tenants[..i];
        if tenants[i].status == Active {
          ghost var before := State();
          var t := tenants[i].id;
          var metrics := usage.ListMetrics(t);
          for j := 0 to |metrics|
            invariant State() == SnapshotMetrics(before, usage.prefix, t, metrics[..j], usage.redis.now)
          {
            assert metrics[..j + 1][..j] == metrics[..j];
            SnapshotOne(t, metrics[j]);
          }
          assert metrics[..|metrics|] == metrics;
        }
      }
      assert tenants[..|tenants|] == tenants;
    }

    method SnapshotOne(t: string, metric: string)
      modifies usage.redis`cells, db
      ensures State() == SnapshotMetric(old(State()), usage.prefix, t, metric, usage.redis.now)
    {
      hide UsageKey, ThresholdKey, Month, Today, Counter, LimitAt;
      var now := usage.redis.now;
      var used := usage.GetUsage(t, metric, Some(Month(now)));
      var limit := usage.GetLimit(t, metric);
      var key := RowKey(t, metric, Today(now));
      var row: UsageRow;
      if key !in db.rows {
        row := UsageRow(used, limit);
      } else {
        row := db.rows[key].(currentUsage := used);
        if limit.Some? {
          row := row.(limitValue := limit);
        }
      }
      db.rows := db.rows[key := row];
      if limit.Some? && limit.value > 0 {
        ghost var saved := State();
        for i := 0 to |PERCENTAGES|
          invariant i == 0 ==> State() == saved
          invariant i == 1 ==> State() == CrossThreshold(saved, usage.prefix, t, metric, now, used, limit.value,
                                                         PERCENTAGES[0])
          invariant i == 2 ==>
                    State() == CrossThreshold(CrossThreshold(saved, usage.prefix, t, metric, now, used, limit.value,
                                                             PERCENTAGES[0]),
                                              usage.prefix, t, metric, now, used, limit.value, PERCENTAGES[1])
        {
          var flag := ThresholdKey(usage.prefix, t, metric, PERCENTAGES[i].1);
          if used * 100 >= PERCENTAGES[i].0 * limit.value {
            var triggered := usage.redis.Exists(flag);
            if triggered != 1 {
              usage.redis.Set(flag, Str("1"), THRESHOLD_TTL_SECONDS);
              db.events := db.events + [ThresholdCrossed(t, metric, PERCENTAGES[i].0, used, limit.value)];
            }
          }
        }
      }
    }
  }

  class MonthlyUsageReset {
    const usage: RedisUsageService
    const db: UsageDb

    constructor (usage: RedisUsageService, db: UsageDb)
      ensures this.usage == usage && this.db == db
    {
      this.usage := usage;
      this.db := db;
    }

    ghost function State(): Stores
      reads usage.redis, db
    {
      Stores(usage.redis.cells, db.rows, db.events)
    }

    method RunMonthlyReset(tenants: seq<TenantRef>)
      modifies usage.redis`cells, db`events
      ensures State() == Reset(old(State()), usage.prefix, tenants, usage.redis.now)
    {
      hide ResetMetric, Metrics, Calendar.GetPreviousCalendarMonth;
      var previous := Calendar.GetPreviousCalendarMonth(usage.redis.now);
      for i := 0 to |tenants|
        invariant State() == Reset(old(State()), usage.prefix, tenants[..i], usage.redis.now)
      {
        assert tenants[..i + 1][..i] == tenants[..i];
        if tenants[i].status == Active {
          ghost var before := State();
          var t := tenants[i].id;
          var metrics := usage.ListMetrics(t);
          for j := 0 to |metrics|
            invariant State() == ResetMetrics(before, usage.prefix, t, metrics[..j], usage.redis.now)
          {
            assert metrics[..j + 1][..j] == metrics[..j];
            ResetOne(t, metrics[j], previous);
          }
          assert metrics[..|metrics|] == metrics;
        }
      }
      assert tenants[..|tenants|] == tenants;
    }

    method ResetOne(t: string, metric: string, previous: Calendar.PreviousMonth)
      requires previous == Calendar.GetPreviousCalendarMonth(usage.redis.now)
      modifies usage.redis`cells, db`events
      ensures State() == ResetMetric(old(State()), usage.prefix, t, metric, usage.redis.now)
    {
      hide UsageKey, ThresholdKey, Calendar.GetPreviousCalendarMonth, Counter, LimitAt;
      var key := RowKey(t, metric, previous.prevMonthEnd);
      var used := 0;
      if key in db.rows {
        used := db.rows[key].currentUsage;
      } else {
        used := usage.GetUsage(t, metric, Some(previous.prevMonthLabel));
      }
      var limit := usage.GetLimit(t, metric);
      db.events := db.events + [MonthlySummary(t, metric, previous.prevMonthLabel, used, limit)];
      usage.ClearMonthlyUsage(t, metric, previous.prevMonthLabel);
      usage.ClearThresholdFlags(t, metric, PERCENTAGES);
      assert (set i | 0 <= i < |PERCENTAGES| :: ThresholdKey(usage.prefix, t, metric, PERCENTAGES[i].1))
          == {ThresholdKey(usage.prefix, t, metric, PERCENTAGES[0].1),
              ThresholdKey(usage.prefix, t, metric, PERCENTAGES[1].1)};
    }
  }
}
