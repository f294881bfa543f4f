/** What runs of the metering services keep: the daily row against the counter, and what a reset clears. */
module UsageRuns {
  import opened Wrappers
  import opened Redis
  import opened UsageCounters
  import opened Usage
  import opened BillingModel
  import Calendar

  predicate Kept(ks: Keyspace, ks': Keyspace, k: string) {
    (k in ks <==> k in ks') && (k in ks ==> ks'[k] == ks[k])
  }

  /** Ids of tenants hold no separator, and listed metrics have a name. */
  predicate WellNamed(ks: Keyspace, prefix: string, tenants: seq<TenantRef>, now: int) {
    forall i | 0 <= i < |tenants| ::
      Segment(tenants[i].id) && forall m | m in Metrics(ks, prefix, tenants[i].id, now) :: |m| > 0
  }

  predicate Reported(ks: Keyspace, prefix: string, tenants: seq<TenantRef>, now: int, t: string, metric: string) {
    exists i | 0 <= i < |tenants| ::
      tenants[i].status == Active && tenants[i].id == t && metric in Metrics(ks, prefix, t, now)
  }

  lemma ThresholdApart(prefix: string, t: string, metric: string, percentage: string, u: string, metric': string,
      month: string)
    requires Segment(t) && |metric| > 0 && |percentage| > 0
    requires Segment(u)
    ensures MetricsKey(prefix, u) != ThresholdKey(prefix, t, metric, percentage)
    ensures Named(u, metric') && |month| > 0 ==>
            UsageKey(prefix, u, metric', month) != ThresholdKey(prefix, t, metric, percentage)
  {
    FirstPiece(prefix, "usage-metrics", u, []);
    FirstPiece(prefix, "thresholds", t, [metric, percentage]);
    assert ["usage-metrics", u] + [] == ["usage-metrics", u];
    assert ["thresholds", t] + [metric, percentage] == ["thresholds", t, metric, percentage];
    var n := |Head(prefix)|;
    assert MetricsKey(prefix, u)[n] == 'u' && ThresholdKey(prefix, t, metric, percentage)[n] == 't';
    if Named(u, metric') && |month| > 0 {
      UsageKeyApart(prefix, u, metric', month, t, [metric, percentage]);
    }
  }

  // ---------- The daily row follows the counter

  datatype TrackerCall = TrackerCall(at: int, up: bool, amount: int)

  function TrackerStep(st: Stores, prefix: string, t: string, metric: string, c: TrackerCall): Stores {
    if c.up then TrackerIncrement(st, prefix, t, metric, c.at, c.amount)
    else TrackerDecrement(st, prefix, t, metric, c.at, c.amount)
  }

  function TrackerRun(st: Stores, prefix: string, t: string, metric: string, calls: seq<TrackerCall>): Stores {
    if |calls| == 0 then st
    else TrackerStep(TrackerRun(st, prefix, t, metric, calls[..|calls| - 1]), prefix, t, metric, calls[|calls| - 1])
  }

  /** All calls run, in this order, on the day of `start`. */
  predicate OneDay(calls: seq<TrackerCall>, start: int) {
    && 0 <= Calendar.Civil(Calendar.Day(start)).year <= 9999
    && (forall i | 0 <= i < |calls| :: start <= calls[i].at && Calendar.Day(calls[i].at) == Calendar.Day(start))
    && (forall i, j | 0 <= i < j < |calls| :: calls[i].at <= calls[j].at)
  }

  /** The row of the day holds `c`, and so does the month's counter for the rest of the month. */
  ghost predicate Agree(st: Stores, prefix: string, t: string, metric: string, from: int, c: int) {
    && RowKey(t, metric, Today(from)) in st.rows
    && st.rows[RowKey(t, metric, Today(from))].currentUsage == c
    && Reads(st.ks, prefix, t, metric, Month(from), from, c)
    && Typed(st.ks, prefix, from)
  }

  function Move(c: int, call: TrackerCall): int {
    if call.amount <= 0 then c else Saturate(c, if call.up then call.amount else -call.amount)
  }

  lemma AgreeStep(st: Stores, prefix: string, t: string, metric: string, from: int, c: int, call: TrackerCall)
    requires Named(t, metric) && from <= call.at && Calendar.Day(call.at) == Calendar.Day(from)
    requires 0 <= Calendar.Civil(Calendar.Day(from)).year <= 9999
    requires Agree(st, prefix, t, metric, from, c)
    ensures Agree(TrackerStep(st, prefix, t, metric, call), prefix, t, metric, call.at, Move(c, call))
  {
    hide Tracked, Counter, Typed, Calendar.Civil, Calendar.MonthText, Calendar.DateText;
    var delta := if call.amount <= 0 then 0 else if call.up then call.amount else -call.amount;
    TypedLater(st.ks, prefix, from, call.at);
    TrackedReads(st.ks, prefix, t, metric, from, c, call.at, delta);
  }

  function Moved(c: int, calls: seq<TrackerCall>): int {
    if |calls| == 0 then c else Move(Moved(c, calls[..|calls| - 1]), calls[|calls| - 1])
  }

  lemma {:induction false} AgreeRun(st: Stores, prefix: string, t: string, metric: string, start: int, c: int,
      calls: seq<TrackerCall>)
    returns (last: int)
    requires Named(t, metric) && OneDay(calls, start) && Agree(st, prefix, t, metric, start, c)
    ensures start <= last && Calendar.Day(last) == Calendar.Day(start)
    ensures last == start || (|calls| > 0 && last == calls[|calls| - 1].at)
    ensures Agree(TrackerRun(st, prefix, t, metric, calls), prefix, t, metric, last, Moved(c, calls))
    decreases |calls|
  {
    hide Agree, TrackerStep, Calendar.Day, Calendar.Civil;
    last := start;
    if |calls| > 0 {
      var before, call := calls[..|calls| - 1], calls[|calls| - 1];
      var f := AgreeRun(st, prefix, t, metric, start, c, before);
      AgreeStep(TrackerRun(st, prefix, t, metric, before), prefix, t, metric, f, Moved(c, before), call);
      last := call.at;
    }
  }

  /** Once a row agrees with its counter, it agrees after every later sequence of increments and decrements
      of that day, and it agrees for the rest of the month. */
  lemma RowFollowsCounter(st: Stores, prefix: string, t: string, metric: string, start: int, c: int,
      calls: seq<TrackerCall>, later: int)
    requires Named(t, metric) && OneDay(calls, start) && Agree(st, prefix, t, metric, start, c)
    requires Month(later) == Month(start) && start <= later && forall i | 0 <= i < |calls| :: calls[i].at <= later
    ensures RowKey(t, metric, Today(start)) in TrackerRun(st, prefix, t, metric, calls).rows
    ensures TrackerRun(st, prefix, t, metric, calls).rows[RowKey(t, metric, Today(start))].currentUsage
            == Counter(TrackerRun(st, prefix, t, metric, calls).ks, prefix, t, metric, Month(start), later)
  {
    hide Counter, Typed, Calendar.Civil, Calendar.MonthText, Calendar.DateText, TrackerRun;
    var last := AgreeRun(st, prefix, t, metric, start, c, calls);
    assert Month(last) == Month(start) && Today(last) == Today(start);
  }

  // ---------- The snapshot makes row and counter agree

  /** The snapshot touches no counter and no metric list. */
  ghost predicate SameCounters(ks: Keyspace, ks': Keyspace, prefix: string) {
    && (forall t, metric, month | Named(t, metric) && Segment(month) ::
        Kept(ks, ks', UsageKey(prefix, t, metric, month)))
    && (forall t | Segment(t) :: Kept(ks, ks', MetricsKey(prefix, t)))
  }

  lemma CrossKeepsCounters(st: Stores, prefix: string, t: string, metric: string, now: int, usage: int, limit: int,
      p: (int, string))
    requires Named(t, metric) && |p.1| > 0
    ensures SameCounters(st.ks, CrossThreshold(st, prefix, t, metric, now, usage, limit, p).ks, prefix)
    ensures CrossThreshold(st, prefix, t, metric, now, usage, limit, p).rows == st.rows
  {
    hide UsageKey, MetricsKey, ThresholdKey;
    var key := ThresholdKey(prefix, t, metric, p.1);
    forall u, m, mo | Named(u, m) && Segment(mo) ensures UsageKey(prefix, u, m, mo) != key {
      ThresholdApart(prefix, t, metric, p.1, u, m, mo);
    }
    forall u | Segment(u) ensures MetricsKey(prefix, u) != key {
      ThresholdApart(prefix, t, metric, p.1, u, "", "");
    }
  }

  lemma SameCountersTransitive(a: Keyspace, b: Keyspace, c: Keyspace, prefix: string)
    requires SameCounters(a, b, prefix) && SameCounters(b, c, prefix)
    ensures SameCounters(a, c, prefix)
  {
    hide UsageKey, MetricsKey;
    forall t, metric, month | Named(t, metric) && Segment(month)
      ensures Kept(a, c, UsageKey(prefix, t, metric, month))
    {
      assert Kept(a, b, UsageKey(prefix, t, metric, month)) && Kept(b, c, UsageKey(prefix, t, metric, month));
    }
    forall t | Segment(t) ensures Kept(a, c, MetricsKey(prefix, t)) {
      assert Kept(a, b, MetricsKey(prefix, t)) && Kept(b, c, MetricsKey(prefix, t));
    }
  }

  lemma SnapshotMetricWrites(st: Stores, prefix: string, t: string, metric: string, now: int)
    requires Named(t, metric)
    ensures SameCounters(st.ks, SnapshotMetric(st, prefix, t, metric, now).ks, prefix)
    ensures RowKey(t, metric, Today(now)) in SnapshotMetric(st, prefix, t, metric, now).rows
    ensures SnapshotMetric(st, prefix, t, metric, now).rows[RowKey(t, metric, Today(now))].currentUsage
            == Counter(st.ks, prefix, t, metric, Month(now), now)
    ensures forall k | k != RowKey(t, metric, Today(now)) ::
            k in SnapshotMetric(st, prefix, t, metric, now).rows <==> k in st.rows
    ensures forall k | k != RowKey(t, metric, Today(now)) && k in st.rows ::
            SnapshotMetric(st, prefix, t, metric, now).rows[k] == st.rows[k]
  {
    hide UsageKey, MetricsKey, ThresholdKey, Today, Month, CrossThreshold, Counter, LimitAt, SameCounters;
    var usage, limit := Counter(st.ks, prefix, t, metric, Month(now), now), LimitAt(st.ks, prefix, t, metric, now);
    var key := RowKey(t, metric, Today(now));
    var saved := st.(rows := st.rows[key :=
                                       if key in st.rows then
                                         UsageRow(usage, if limit.Some? then limit else st.rows[key].limitValue)
                                       else
                                         UsageRow(usage, limit)]);
    Same(st.ks, prefix);
    if limit.Some? && limit.value > 0 {
      CrossKeepsCounters(saved, prefix, t, metric, now, usage, limit.value, PERCENTAGES[0]);
      var one := CrossThreshold(saved, prefix, t, metric, now, usage, limit.value, PERCENTAGES[0]);
      CrossKeepsCounters(one, prefix, t, metric, now, usage, limit.value, PERCENTAGES[1]);
      SameCountersTransitive(st.ks, one.ks,
                             CrossThreshold(one, prefix, t, metric, now, usage, limit.value, PERCENTAGES[1]).ks,
                             prefix);
    }
  }

  lemma Same(ks: Keyspace, prefix: string)
    ensures SameCounters(ks, ks, prefix)
  {
  }

  lemma CounterKept(a: Keyspace, b: Keyspace, prefix: string, t: string, metric: string, month: string, now: int)
    requires SameCounters(a, b, prefix) && Named(t, metric) && Segment(month)
    ensures Counter(b, prefix, t, metric, month, now) == Counter(a, prefix, t, metric, month, now)
  {
    hide UsageKey;
    assert Kept(a, b, UsageKey(prefix, t, metric, month));
  }

  lemma MetricsKept(a: Keyspace, b: Keyspace, prefix: string, t: string, now: int)
    requires SameCounters(a, b, prefix) && Segment(t)
    ensures Metrics(b, prefix, t, now) == Metrics(a, prefix, t, now)
  {
    hide MetricsKey;
    assert Kept(a, b, MetricsKey(prefix, t));
  }

  /** Row `(u, m)` of the day holds the counter that `ks` shows. */
  predicate RowHolds(st: Stores, ks: Keyspace, prefix: string, u: string, m: string, now: int) {
    && RowKey(u, m, Today(now)) in st.rows
    && st.rows[RowKey(u, m, Today(now))].currentUsage == Counter(ks, prefix, u, m, Month(now), now)
  }

  lemma {:induction false} SnapshotMetricsWrites(st: Stores, prefix: string, t: string, metrics: seq<string>, now: int,
      u: string, m: string)
    requires Segment(t) && (forall x | x in metrics :: |x| > 0) && Named(u, m) && Segment(Month(now))
    ensures SameCounters(st.ks, SnapshotMetrics(st, prefix, t, metrics, now).ks, prefix)
    ensures (u == t && m in metrics) || RowHolds(st, st.ks, prefix, u, m, now)
            ==> RowHolds(SnapshotMetrics(st, prefix, t, metrics, now), st.ks, prefix, u, m, now)
    decreases |metrics|
  {
    hide UsageKey, MetricsKey, Today, Month, SnapshotMetric, Counter, SameCounters;
    if |metrics| == 0 {
      Same(st.ks, prefix);
    } else {
      var before, last := metrics[..|metrics| - 1], metrics[|metrics| - 1];
      var mid := SnapshotMetrics(st, prefix, t, before, now);
      SnapshotMetricsWrites(st, prefix, t, before, now, u, m);
      SnapshotMetricWrites(mid, prefix, t, last, now);
      SameCountersTransitive(st.ks, mid.ks, SnapshotMetric(mid, prefix, t, last, now).ks, prefix);
      CounterKept(st.ks, mid.ks, prefix, t, last, Month(now), now);
    }
  }

  lemma {:induction false} SnapshotWrites(st: Stores, prefix: string, tenants: seq<TenantRef>, now: int, u: string,
      m: string)
    requires WellNamed(st.ks, prefix, tenants, now) && Named(u, m) && Segment(Month(now))
    ensures SameCounters(st.ks, Snapshot(st, prefix, tenants, now).ks, prefix)
    ensures Reported(st.ks, prefix, tenants, now, u, m) || RowHolds(st, st.ks, prefix, u, m, now)
            ==> RowHolds(Snapshot(st, prefix, tenants, now), st.ks, prefix, u, m, now)
    decreases |tenants|
  {
    hide UsageKey, MetricsKey, Today, Month, SnapshotMetrics, Counter, SameCounters, Metrics;
    if |tenants| == 0 {
      Same(st.ks, prefix);
    } else {
      var before, last := tenants[..|tenants| - 1], tenants[|tenants| - 1];
      var mid := Snapshot(st, prefix, before, now);
      assert forall i | 0 <= i < |before| :: before[i] == tenants[i];
      SnapshotWrites(st, prefix, before, now, u, m);
      MetricsKept(st.ks, mid.ks, prefix, last.id, now);
      CounterKept(st.ks, mid.ks, prefix, u, m, Month(now), now);
      if last.status == Active {
        var ms := Metrics(mid.ks, prefix, last.id, now);
        SnapshotMetricsWrites(mid, prefix, last.id, ms, now, u, m);
        SameCountersTransitive(st.ks, mid.ks, SnapshotMetrics(mid, prefix, last.id, ms, now).ks, prefix);
      }
    }
  }

  /** After a daily snapshot, the day's row of every listed metric of every active tenant holds the month's
      counter, which the snapshot itself leaves alone. */
  lemma SnapshotAgrees(st: Stores, prefix: string, tenants: seq<TenantRef>, now: int, t: string, metric: string, c: int)
    requires WellNamed(st.ks, prefix, tenants, now) && Named(t, metric) && Segment(Month(now))
    requires Reported(st.ks, prefix, tenants, now, t, metric)
    requires Reads(st.ks, prefix, t, metric, Month(now), now, c) && Typed(st.ks, prefix, now)
    ensures Agree(Snapshot(st, prefix, tenants, now), prefix, t, metric, now, c)
  {
    hide UsageKey, MetricsKey, Today, Month, Snapshot, Counter;
    var st' := Snapshot(st, prefix, tenants, now);
    SnapshotWrites(st, prefix, tenants, now, t, metric);
    forall later | now <= later && Month(later) == Month(now)
      ensures Counter(st'.ks, prefix, t, metric, Month(now), later) == c
    {
      CounterKept(st.ks, st'.ks, prefix, t, metric, Month(now), later);
    }
    SameTyped(st.ks, st'.ks, prefix, now);
  }

  lemma SameTyped(a: Keyspace, b: Keyspace, prefix: string, now: int)
    requires SameCounters(a, b, prefix) && Typed(a, prefix, now)
    ensures Typed(b, prefix, now)
  {
    hide UsageKey, MetricsKey;
    forall t, metric, month | Named(t, metric) && Segment(month)
      ensures Holds(Read(b, UsageKey(prefix, t, metric, month), now), true)
    {
      assert Kept(a, b, UsageKey(prefix, t, metric, month))
        && Holds(Read(a, UsageKey(prefix, t, metric, month), now), true);
    }
    forall t | Segment(t) ensures Holds(Read(b, MetricsKey(prefix, t), now), false) {
      assert Kept(a, b, MetricsKey(prefix, t)) && Holds(Read(a, MetricsKey(prefix, t), now), false);
    }
  }

  // ---------- What a reset clears and reports

  function PreviousLabel(now: int): string {
    Calendar.GetPreviousCalendarMonth(now).prevMonthLabel
  }

  lemma ResetMetricClears(st: Stores, prefix: string, t: string, metric: string, now: int, u: string, m: string,
      month: string)
    requires Named(t, metric) && Segment(PreviousLabel(now)) && Named(u, m) && Segment(month)
    ensures var k := UsageKey(prefix, u, m, month);
            if u == t && m == metric && month == PreviousLabel(now)
            then k !in ResetMetric(st, prefix, t, metric, now).ks
            else Kept(st.ks, ResetMetric(st, prefix, t, metric, now).ks, k)
  {
    hide UsageKey, ThresholdKey, Calendar.GetPreviousCalendarMonth, Counter, LimitAt;
    UsageKeyInjective(prefix, t, metric, PreviousLabel(now), u, m, month);
    ThresholdApart(prefix, t, metric, "80", u, m, month);
    ThresholdApart(prefix, t, metric, "100", u, m, month);
  }

  lemma ResetMetricKeepsLists(st: Stores, prefix: string, t: string, metric: string, now: int, u: string)
    requires Named(t, metric) && |PreviousLabel(now)| > 0 && Segment(u)
    ensures Kept(st.ks, ResetMetric(st, prefix, t, metric, now).ks, MetricsKey(prefix, u))
    ensures ResetMetric(st, prefix, t, metric, now).rows == st.rows
  {
    hide UsageKey, ThresholdKey, MetricsKey, Calendar.GetPreviousCalendarMonth, Counter, LimitAt;
    MetricsApart(prefix, t, metric, PreviousLabel(now), u);
    ThresholdApart(prefix, t, metric, "80", u, "", "");
    ThresholdApart(prefix, t, metric, "100", u, "", "");
  }

  lemma {:induction false} ResetMetricsClears(st: Stores, prefix: string, t: string, metrics: seq<string>, now: int,
      u: string, m: string, month: string)
    requires Segment(t) && (forall x | x in metrics :: |x| > 0) && Segment(PreviousLabel(now)) && Named(u, m)
             && Segment(month)
    ensures var k := UsageKey(prefix, u, m, month);
            if u == t && m in metrics && month == PreviousLabel(now)
            then k !in ResetMetrics(st, prefix, t, metrics, now).ks
            else Kept(st.ks, ResetMetrics(st, prefix, t, metrics, now).ks, k)
    ensures forall v | Segment(v) :: Kept(st.ks, ResetMetrics(st, prefix, t, metrics, now).ks, MetricsKey(prefix, v))
    ensures ResetMetrics(st, prefix, t, metrics, now).rows == st.rows
    decreases |metrics|
  {
    hide UsageKey, MetricsKey, ResetMetric, PreviousLabel;
    if |metrics| > 0 {
      var before, last := metrics[..|metrics| - 1], metrics[|metrics| - 1];
      var mid := ResetMetrics(st, prefix, t, before, now);
      ResetMetricsClears(st, prefix, t, before, now, u, m, month);
      ResetMetricClears(mid, prefix, t, last, now, u, m, month);
      forall v | Segment(v) ensures Kept(st.ks, ResetMetrics(st, prefix, t, metrics, now).ks, MetricsKey(prefix, v)) {
        ResetMetricKeepsLists(mid, prefix, t, last, now, v);
        assert Kept(st.ks, mid.ks, MetricsKey(prefix, v));
      }
      ResetMetricKeepsLists(mid, prefix, t, last, now, t);
    }
  }

  lemma ListsKept(a: Keyspace, b: Keyspace, prefix: string, t: string, now: int)
    requires Kept(a, b, MetricsKey(prefix, t))
    ensures Metrics(b, prefix, t, now) == Metrics(a, prefix, t, now)
  {
    hide MetricsKey;
  }

  lemma {:induction false} ResetClears(st: Stores, prefix: string, tenants: seq<TenantRef>, now: int, u: string,
      m: string, month: string)
    requires WellNamed(st.ks, prefix, tenants, now) && Segment(PreviousLabel(now)) && Named(u, m) && Segment(month)
    ensures var k := UsageKey(prefix, u, m, month);
            if Reported(st.ks, prefix, tenants, now, u, m) && month == PreviousLabel(now)
            then k !in Reset(st, prefix, tenants, now).ks
            else Kept(st.ks, Reset(st, prefix, tenants, now).ks, k)
    ensures forall v | Segment(v) :: Kept(st.ks, Reset(st, prefix, tenants, now).ks, MetricsKey(prefix, v))
    ensures Reset(st, prefix, tenants, now).rows == st.rows
    decreases |tenants|
  {
    hide UsageKey, MetricsKey, ResetMetrics, PreviousLabel, Metrics;
    if |tenants| > 0 {
      var before, last := tenants[..|tenants| - 1], tenants[|tenants| - 1];
      var mid := Reset(st, prefix, before, now);
      assert forall i | 0 <= i < |before| :: before[i] == tenants[i];
      ResetClears(st, prefix, before, now, u, m, month);
      ListsKept(st.ks, mid.ks, prefix, last.id, now);
      if last.status == Active {
        ResetMetricsClears(mid, prefix, last.id, Metrics(mid.ks, prefix, last.id, now), now, u, m, month);
      }
      ReportedSplit(st.ks, prefix, tenants, now, u, m);
      forall v | Segment(v) ensures Kept(st.ks, Reset(st, prefix, tenants, now).ks, MetricsKey(prefix, v)) {
        assert Kept(st.ks, mid.ks, MetricsKey(prefix, v));
      }
    }
  }

  lemma ReportedSplit(ks: Keyspace, prefix: string, tenants: seq<TenantRef>, now: int, u: string, m: string)
    requires |tenants| > 0
    ensures Reported(ks, prefix, tenants, now, u, m)
            <==> Reported(ks, prefix, tenants[..|tenants| - 1], now, u, m)
                 || (tenants[|tenants| - 1].status == Active && tenants[|tenants| - 1].id == u
                     && m in Metrics(ks, prefix, u, now))
  {
    hide Metrics;
    assert forall i | 0 <= i < |tenants| - 1 :: tenants[..|tenants| - 1][i] == tenants[i];
  }

  /** The reset deletes exactly the counters that listed metrics of active tenants used during the previous
      month: the key a count at instant `then` went to is gone iff `then` lies in that month. */
  lemma ResetClearsPreviousMonthExactly(st: Stores, prefix: string, tenants: seq<TenantRef>, now: int, u: string,
      m: string, used: int)
    requires WellNamed(st.ks, prefix, tenants, now) && Named(u, m) && Reported(st.ks, prefix, tenants, now, u, m)
    requires 1000 <= Calendar.PrevYear(now) <= 9999 && 0 <= Calendar.Civil(Calendar.Day(used)).year <= 9999
    requires UsageKey(prefix, u, m, Month(used)) in st.ks
    ensures UsageKey(prefix, u, m, Month(used)) !in Reset(st, prefix, tenants, now).ks
            <==> Calendar.InPrevMonth(now, Calendar.Day(used))
    ensures Month(used) == Month(now) ==>
            Kept(st.ks, Reset(st, prefix, tenants, now).ks, UsageKey(prefix, u, m, Month(used)))
  {
    hide UsageKey, Reset, Calendar.Civil, Calendar.MonthText, Calendar.DateText, Calendar.GetPreviousCalendarMonth;
    Calendar.PreviousMonthCorrect(now);
    LabelSegment(now);
    MonthIsSegment(used);
    ResetClears(st, prefix, tenants, now, u, m, Month(used));
  }

  lemma LabelSegment(now: int)
    requires 1000 <= Calendar.PrevYear(now) <= 9999
    ensures Segment(PreviousLabel(now))
  {
    hide Calendar.Civil, Calendar.MonthText;
    Calendar.LabelIsMonthText(now);
    var d := Calendar.LastDayOfPrevMonth(now);
    Calendar.LastDayDates(now);
    Calendar.MonthTextOf(d);
    DigitsOnly(Calendar.Civil(d).year, 4);
    DigitsOnly(Calendar.Civil(d).month + 1, 2);
  }

  /** A summary of the previous month for `(t, metric)` that reports `usage`. */
  ghost predicate Summarised(events: seq<BillingEvent>, t: string, metric: string, month: string, usage: int) {
    exists limit :: MonthlySummary(t, metric, month, usage, limit) in events
  }

  lemma {:induction false} ResetMetricsReports(st: Stores, prefix: string, t: string, metrics: seq<string>, now: int,
      u: string, metric: string)
    requires Segment(t) && (forall x | x in metrics :: |x| > 0) && Segment(PreviousLabel(now))
    requires RowKey(u, metric, Calendar.GetPreviousCalendarMonth(now).prevMonthEnd) in st.rows
    requires (u == t && metric in metrics)
             || Summarised(st.events, u, metric, PreviousLabel(now),
                           st.rows[RowKey(u, metric, Calendar.GetPreviousCalendarMonth(now).prevMonthEnd)].currentUsage)
    ensures Summarised(ResetMetrics(st, prefix, t, metrics, now).events, u, metric, PreviousLabel(now),
                       st.rows[RowKey(u, metric, Calendar.GetPreviousCalendarMonth(now).prevMonthEnd)].currentUsage)
    decreases |metrics|
  {
    hide UsageKey, MetricsKey, ThresholdKey, Calendar.GetPreviousCalendarMonth, Counter, LimitAt;
    if |metrics| > 0 {
      var before, last := metrics[..|metrics| - 1], metrics[|metrics| - 1];
      var mid := ResetMetrics(st, prefix, t, before, now);
      ResetRows(st, prefix, t, before, now);
      var usage := st.rows[RowKey(u, metric, Calendar.GetPreviousCalendarMonth(now).prevMonthEnd)].currentUsage;
      if u == t && last == metric {
        assert MonthlySummary(t, metric, PreviousLabel(now), usage, LimitAt(mid.ks, prefix, t, metric, now))
            in ResetMetrics(st, prefix, t, metrics, now).events;
      } else {
        ResetMetricsReports(st, prefix, t, before, now, u, metric);
        var limit :| MonthlySummary(u, metric, PreviousLabel(now), usage, limit) in mid.events;
        assert MonthlySummary(u, metric, PreviousLabel(now), usage, limit)
          in ResetMetrics(st, prefix, t, metrics, now).events;
      }
    }
  }

  lemma {:induction false} ResetRows(st: Stores, prefix: string, t: string, metrics: seq<string>, now: int)
    ensures ResetMetrics(st, prefix, t, metrics, now).rows == st.rows
    decreases |metrics|
  {
    hide UsageKey, ThresholdKey, Calendar.GetPreviousCalendarMonth, Counter, LimitAt;
    if |metrics| > 0 {
      ResetRows(st, prefix, t, metrics[..|metrics| - 1], now);
    }
  }

  lemma {:induction false} ResetReports(st: Stores, prefix: string, tenants: seq<TenantRef>, now: int, t: string,
      metric: string)
    requires WellNamed(st.ks, prefix, tenants, now) && Segment(PreviousLabel(now)) && Named(t, metric)
    requires Reported(st.ks, prefix, tenants, now, t, metric)
    requires RowKey(t, metric, Calendar.GetPreviousCalendarMonth(now).prevMonthEnd) in st.rows
    ensures Summarised(Reset(st, prefix, tenants, now).events, t, metric, PreviousLabel(now),
                       st.rows[RowKey(t, metric, Calendar.GetPreviousCalendarMonth(now).prevMonthEnd)].currentUsage)
    decreases |tenants|
  {
    hide UsageKey, MetricsKey, ResetMetrics, PreviousLabel, Metrics, Calendar.GetPreviousCalendarMonth, Summarised;
    var before, last := tenants[..|tenants| - 1], tenants[|tenants| - 1];
    var mid := Reset(st, prefix, before, now);
    assert forall i | 0 <= i < |before| :: before[i] == tenants[i];
    ResetClears(st, prefix, before, now, t, metric, PreviousLabel(now));
    ListsKept(st.ks, mid.ks, prefix, last.id, now);
    ReportedSplit(st.ks, prefix, tenants, now, t, metric);
    if Reported(st.ks, prefix, before, now, t, metric) {
      ResetReports(st, prefix, before, now, t, metric);
    }
    if last.status == Active {
      ResetMetricsReports(mid, prefix, last.id, Metrics(mid.ks, prefix, last.id, now), now, t, metric);
    }
  }

  /** From the last day's snapshot on, whatever is then counted up and down that day, the summary of the
      reset reports the total the month's counter ended on. */
  lemma SummaryReportsCounter(st: Stores, prefix: string, tenants: seq<TenantRef>, start: int, t: string,
      metric: string, c: int, calls: seq<TrackerCall>, end: int, active: seq<TenantRef>, now: int)
    requires Named(t, metric) && OneDay(calls, start)
    requires WellNamed(st.ks, prefix, tenants, start) && Reported(st.ks, prefix, tenants, start, t, metric)
    requires Reads(st.ks, prefix, t, metric, Month(start), start, c) && Typed(st.ks, prefix, start)
    requires 1000 <= Calendar.PrevYear(now) <= 9999 && Calendar.Day(start) == Calendar.LastDayOfPrevMonth(now)
    requires Month(end) == Month(start) && start <= end && forall i | 0 <= i < |calls| :: calls[i].at <= end
    requires var after := TrackerRun(Snapshot(st, prefix, tenants, start), prefix, t, metric, calls);
             WellNamed(after.ks, prefix, active, now) && Reported(after.ks, prefix, active, now, t, metric)
    ensures var after := TrackerRun(Snapshot(st, prefix, tenants, start), prefix, t, metric, calls);
            Summarised(Reset(after, prefix, active, now).events, t, metric, PreviousLabel(now),
                       Counter(after.ks, prefix, t, metric, Month(start), end))
  {
    hide UsageKey, MetricsKey, Counter, Snapshot, TrackerRun, Reset, Typed, Summarised, Reported, WellNamed,
      Calendar.Civil, Calendar.MonthText, Calendar.DateText, Calendar.GetPreviousCalendarMonth,
      Calendar.LastDayOfPrevMonth;
    MonthIsSegment(start);
    SnapshotAgrees(st, prefix, tenants, start, t, metric, c);
    RowFollowsCounter(Snapshot(st, prefix, tenants, start), prefix, t, metric, start, c, calls, end);
    LabelSegment(now);
    Calendar.PreviousMonthCorrect(now);
    ResetReports(TrackerRun(Snapshot(st, prefix, tenants, start), prefix, t, metric, calls), prefix, active, now, t,
                 metric);
  }
}
