/** What the metering services announce: each crossed threshold once in 60 days, each month's total once. */
module UsageReports {
  import opened Wrappers
  import opened Text
  import opened Redis
  import opened UsageCounters
  import opened Usage
  import opened UsageRuns
  import opened BillingModel
  import Calendar

  const SIXTY_DAYS := 60 * Calendar.MS_PER_DAY

  /** The two percentages a tenant hears about. */
  predicate Percentage(p: int) {
    p == 80 || p == 100
  }

  function Flag(prefix: string, t: string, metric: string, p: int): string {
    ThresholdKey(prefix, t, metric, if p == 80 then "80" else "100")
  }

  lemma ThresholdKeyShape(prefix: string, t: string, metric: string, percentage: string)
    requires Named(t, metric) && |percentage| > 0
    ensures ThresholdKey(prefix, t, metric, percentage)
            == Head(prefix) + "thresholds" + ":" + (t + ":" + (metric + ":" + percentage))
  {
    var parts := ["thresholds", t, metric, percentage];
    BuildUnfolds(prefix, parts);
    assert parts[1..] == [t, metric, percentage];
    assert [t, metric, percentage][1..] == [metric, percentage];
    assert [metric, percentage][1..] == [percentage];
    assert Join([metric, percentage]) == metric + ":" + percentage;
    assert Join([t, metric, percentage]) == t + ":" + (metric + ":" + percentage);
    assert Join(parts) == "thresholds" + ":" + (t + ":" + (metric + ":" + percentage));
    assert Head(prefix) + ("thresholds" + ":" + (t + ":" + (metric + ":" + percentage)))
        == Head(prefix) + "thresholds" + ":" + (t + ":" + (metric + ":" + percentage));
  }

  /** Different tenant, metric or percentage: different flag. */
  lemma FlagExactly(prefix: string, t: string, metric: string, p: int, t': string, metric': string, p': int)
    requires Named(t, metric) && Named(t', metric') && Percentage(p) && Percentage(p')
    ensures Flag(prefix, t, metric, p) == Flag(prefix, t', metric', p') <==> t == t' && metric == metric' && p == p'
  {
    var x, x' := if p == 80 then "80" else "100", if p' == 80 then "80" else "100";
    ThresholdKeyShape(prefix, t, metric, x);
    ThresholdKeyShape(prefix, t', metric', x');
    hide ThresholdKey;
    if Flag(prefix, t, metric, p) == Flag(prefix, t', metric', p') {
      var n := |Head(prefix)| + 11;
      assert Flag(prefix, t, metric, p)[n..] == t + ":" + (metric + ":" + x);
      assert Flag(prefix, t', metric', p')[n..] == t' + ":" + (metric' + ":" + x');
      HeadDetermined(t, metric + ":" + x, t', metric' + ":" + x', ':');
      TailDetermined(metric, x, metric', x', ':');
      assert |x| == 2 <==> p == 80;
      assert |x'| == 2 <==> p' == 80;
    }
  }

  lemma LimitApart(prefix: string, t: string, metric: string, p: int, u: string, m: string, month: string)
    requires Named(t, metric) && Named(u, m)
    ensures LimitKey(prefix, u, m) != Flag(prefix, t, metric, p)
    ensures |month| > 0 ==> UsageKey(prefix, t, metric, month) != LimitKey(prefix, u, m)
  {
    FirstPiece(prefix, "limits", u, [m]);
    var x := if p == 80 then "80" else "100";
    FirstPiece(prefix, "thresholds", t, [metric, x]);
    assert ["limits", u] + [m] == ["limits", u, m];
    assert ["thresholds", t] + [metric, x] == ["thresholds", t, metric, x];
    var n := |Head(prefix)|;
    assert LimitKey(prefix, u, m)[n] == 'l' && Flag(prefix, t, metric, p)[n] == 't';
    if |month| > 0 {
      UsageKeyApart(prefix, t, metric, month, u, [m]);
    }
  }

  // ---------- One metric

  /** The announcements of one percentage for one metric of one tenant, in order. */
  function Crossings(events: seq<BillingEvent>, t: string, metric: string, p: int): seq<BillingEvent> {
    if |events| == 0 then []
    else
      var last := events[|events| - 1];
      Crossings(events[..|events| - 1], t, metric, p)
      + if last.ThresholdCrossed? && last.tenant == t && last.metric == metric && last.threshold == p then [last]
        else []
  }

  lemma CrossingsAppend(events: seq<BillingEvent>, e: BillingEvent, t: string, metric: string, p: int)
    ensures Crossings(events + [e], t, metric, p)
            == Crossings(events, t, metric, p)
               + if e.ThresholdCrossed? && e.tenant == t && e.metric == metric && e.threshold == p then [e] else []
  {
    assert (events + [e])[..|events|] == events;
  }

  /** The limit the store holds, if it is a number. */
  function StoredLimit(ks: Keyspace, prefix: string, t: string, metric: string, now: int): Option<int> {
    var v := Read(ks, LimitKey(prefix, t, metric), now);
    if v.Some? && v.value.Num? then Some(v.value.n) else None
  }

  /** The month's usage has reached `p` percent of a positive limit. */
  predicate Over(ks: Keyspace, prefix: string, t: string, metric: string, p: int, now: int) {
    var limit := StoredLimit(ks, prefix, t, metric, now);
    limit.Some? && limit.value > 0 && 100 * Counter(ks, prefix, t, metric, Month(now), now) >= p * limit.value
  }

  predicate Due(ks: Keyspace, prefix: string, t: string, metric: string, p: int, now: int) {
    Over(ks, prefix, t, metric, p, now) && !Live(ks, Flag(prefix, t, metric, p), now)
  }

  function Announcement(ks: Keyspace, prefix: string, t: string, metric: string, p: int, now: int): BillingEvent
    requires Over(ks, prefix, t, metric, p, now)
  {
    ThresholdCrossed(t, metric, p, Counter(ks, prefix, t, metric, Month(now), now),
                     StoredLimit(ks, prefix, t, metric, now).value)
  }

  /** Between `a` and `b` the threshold is announced if `due`, and its flag then lives for 60 days. */
  predicate AnnouncedIf(a: Stores, b: Stores, prefix: string, t: string, metric: string, p: int, now: int, due: bool)
    requires due ==> Over(a.ks, prefix, t, metric, p, now)
  {
    var flag := Flag(prefix, t, metric, p);
    && Crossings(b.events, t, metric, p)
       == Crossings(a.events, t, metric, p) + (if due then [Announcement(a.ks, prefix, t, metric, p, now)] else [])
    && if due then flag in b.ks && b.ks[flag].expiresAt == Some(now + SIXTY_DAYS) else Kept(a.ks, b.ks, flag)
  }

  /** The counter and the limit that decide about the announcement stay as they are. */
  predicate SameBasis(a: Stores, b: Stores, prefix: string, t: string, metric: string, month: string) {
    && Kept(a.ks, b.ks, LimitKey(prefix, t, metric))
    && Kept(a.ks, b.ks, UsageKey(prefix, t, metric, month))
  }

  /** The day's row: the counter, and the limit if there is one, else the limit the row had. */
  predicate RowIf(a: Stores, b: Stores, prefix: string, t: string, metric: string, now: int, done: bool) {
    var key := RowKey(t, metric, Today(now));
    var limit := StoredLimit(a.ks, prefix, t, metric, now);
    var earlier := if key in a.rows then a.rows[key].limitValue else None;
    if done
    then key in b.rows && b.rows[key] == UsageRow(Counter(a.ks, prefix, t, metric, Month(now), now),
                                                  if limit.Some? then limit else earlier)
    else (key in b.rows <==> key in a.rows) && (key in a.rows ==> b.rows[key] == a.rows[key])
  }

  /** What a snapshot that visits the metric, or one that does not, makes of its announcements and its row. */
  predicate Shot(a: Stores, b: Stores, prefix: string, t: string, metric: string, p: int, now: int, visits: bool) {
    && SameBasis(a, b, prefix, t, metric, Month(now))
    && RowIf(a, b, prefix, t, metric, now, visits)
    && AnnouncedIf(a, b, prefix, t, metric, p, now, visits && Due(a.ks, prefix, t, metric, p, now))
  }

  lemma SameBasisSameCase(a: Stores, b: Stores, prefix: string, t: string, metric: string, p: int, now: int)
    requires SameBasis(a, b, prefix, t, metric, Month(now))
    ensures Counter(b.ks, prefix, t, metric, Month(now), now) == Counter(a.ks, prefix, t, metric, Month(now), now)
    ensures StoredLimit(b.ks, prefix, t, metric, now) == StoredLimit(a.ks, prefix, t, metric, now)
    ensures Over(b.ks, prefix, t, metric, p, now) == Over(a.ks, prefix, t, metric, p, now)
  {
    hide LimitKey, UsageKey, Month;
  }

  lemma ShotThen(a: Stores, b: Stores, c: Stores, prefix: string, t: string, metric: string, p: int, now: int,
                 first: bool, second: bool)
    requires Shot(a, b, prefix, t, metric, p, now, first) && Shot(b, c, prefix, t, metric, p, now, second)
    ensures Shot(a, c, prefix, t, metric, p, now, first || second)
  {
    SameBasisSameCase(a, b, prefix, t, metric, p, now);
    hide LimitKey, UsageKey, Month, Today, Flag, Counter, StoredLimit, Over, Crossings;
  }

  /** The two ways to write the condition and the event agree. */
  lemma OverMeans(ks: Keyspace, prefix: string, t: string, metric: string, now: int, usage: int, limit: int, p: int)
    requires usage == Counter(ks, prefix, t, metric, Month(now), now)
    requires Some(limit) == StoredLimit(ks, prefix, t, metric, now) && limit > 0
    ensures Over(ks, prefix, t, metric, p, now) <==> usage * 100 >= p * limit
    ensures Over(ks, prefix, t, metric, p, now) ==>
            Announcement(ks, prefix, t, metric, p, now) == ThresholdCrossed(t, metric, p, usage, limit)
  {
    hide Counter, StoredLimit;
  }

  lemma Crossed(st: Stores, prefix: string, t: string, metric: string, now: int, usage: int, limit: int,
                q: (int, string))
    requires q in PERCENTAGES
    ensures Percentage(q.0)
    ensures var flag := Flag(prefix, t, metric, q.0);
            CrossThreshold(st, prefix, t, metric, now, usage, limit, q) ==
            if usage * 100 >= q.0 * limit && !Live(st.ks, flag, now)
            then Stores(st.ks[flag := Cell(Str("1"), Some(now + SIXTY_DAYS))], st.rows,
                        st.events + [ThresholdCrossed(t, metric, q.0, usage, limit)])
            else st
  {
    assert q == (80, "80") || q == (100, "100");
    hide ThresholdKey;
  }

  lemma CrossAnnounces(st: Stores, prefix: string, t: string, metric: string, now: int, usage: int, limit: int,
                       q: (int, string), u: string, m: string, p: int)
    requires Named(t, metric) && Named(u, m) && Percentage(p) && q in PERCENTAGES && |Month(now)| > 0
    requires limit > 0
    requires t == u && metric == m ==>
               usage == Counter(st.ks, prefix, u, m, Month(now), now)
               && Some(limit) == StoredLimit(st.ks, prefix, u, m, now)
    ensures var after := CrossThreshold(st, prefix, t, metric, now, usage, limit, q);
            && after.rows == st.rows
            && SameBasis(st, after, prefix, u, m, Month(now))
            && AnnouncedIf(st, after, prefix, u, m, p, now,
                           (t, metric, q.0) == (u, m, p) && Due(st.ks, prefix, u, m, p, now))
  {
    hide ThresholdKey, LimitKey, UsageKey, Flag, Month, Counter, StoredLimit, Crossings, CrossThreshold, Over,
      Announcement;
    Crossed(st, prefix, t, metric, now, usage, limit, q);
    FlagExactly(prefix, t, metric, q.0, u, m, p);
    LimitApart(prefix, t, metric, q.0, u, m, "");
    FlagApart(prefix, t, metric, q.0, u, m, Month(now));
    CrossingsAppend(st.events, ThresholdCrossed(t, metric, q.0, usage, limit), u, m, p);
    if t == u && metric == m {
      OverMeans(st.ks, prefix, u, m, now, usage, limit, p);
    }
  }

  lemma FlagApart(prefix: string, t: string, metric: string, p: int, u: string, m: string, month: string)
    requires Named(t, metric) && Named(u, m) && |month| > 0
    ensures UsageKey(prefix, u, m, month) != Flag(prefix, t, metric, p)
  {
    ThresholdApart(prefix, t, metric, if p == 80 then "80" else "100", u, m, month);
  }

  /** The row is saved and the thresholds are looked at one after the other. */
  lemma SnapshotMetricUnfolds(st: Stores, prefix: string, t: string, metric: string, now: int)
    returns (saved: Stores)
    ensures saved.ks == st.ks && saved.events == st.events
    ensures forall k | k != RowKey(t, metric, Today(now)) ::
              (k in saved.rows <==> k in st.rows) && (k in st.rows ==> saved.rows[k] == st.rows[k])
    ensures RowIf(st, saved, prefix, t, metric, now, true)
    ensures var usage := Counter(st.ks, prefix, t, metric, Month(now), now);
            var limit := StoredLimit(st.ks, prefix, t, metric, now);
            SnapshotMetric(st, prefix, t, metric, now) ==
            if limit.Some? && limit.value > 0
            then CrossThreshold(CrossThreshold(saved, prefix, t, metric, now, usage, limit.value, (80, "80")),
                                prefix, t, metric, now, usage, limit.value, (100, "100"))
            else saved
  {
    var usage := Counter(st.ks, prefix, t, metric, Month(now), now);
    var limit := StoredLimit(st.ks, prefix, t, metric, now);
    var key := RowKey(t, metric, Today(now));
    assert LimitAt(st.ks, prefix, t, metric, now) == limit;
    hide LimitKey, Month, Today, Counter, StoredLimit, LimitAt, CrossThreshold;
    var earlier := if key in st.rows then st.rows[key].limitValue else None;
    saved := st.(rows := st.rows[key := UsageRow(usage, if limit.Some? then limit else earlier)]);
  }

  /** A percentage is announced by its own crossing only. */
  lemma TwoCrossings(a: Stores, b: Stores, c: Stores, prefix: string, u: string, m: string, p: int, now: int,
                     mine: bool)
    requires Percentage(p) && SameBasis(a, b, prefix, u, m, Month(now))
    requires AnnouncedIf(a, b, prefix, u, m, p, now, mine && p == 80 && Due(a.ks, prefix, u, m, p, now))
    requires AnnouncedIf(b, c, prefix, u, m, p, now, mine && p == 100 && Due(b.ks, prefix, u, m, p, now))
    ensures AnnouncedIf(a, c, prefix, u, m, p, now, mine && Due(a.ks, prefix, u, m, p, now))
  {
    SameBasisSameCase(a, b, prefix, u, m, p, now);
    hide Flag, Month, Over, Crossings, SameBasis, LimitKey, UsageKey, Counter, StoredLimit;
  }

  lemma SnapshotMetricShot(st: Stores, prefix: string, t: string, metric: string, now: int, u: string, m: string,
      p: int)
    requires Named(t, metric) && Named(u, m) && Percentage(p) && Segment(Month(now))
    ensures Shot(st, SnapshotMetric(st, prefix, t, metric, now), prefix, u, m, p, now, t == u && metric == m)
  {
    var usage := Counter(st.ks, prefix, t, metric, Month(now), now);
    var limit := StoredLimit(st.ks, prefix, t, metric, now);
    var after := SnapshotMetric(st, prefix, t, metric, now);
    var saved := SnapshotMetricUnfolds(st, prefix, t, metric, now);
    hide LimitKey, UsageKey, Month, Today, Flag, Counter, StoredLimit, CrossThreshold, SnapshotMetric, Crossings, Live;
    if limit.Some? && limit.value > 0 {
      hide Over;
      CrossAnnounces(saved, prefix, t, metric, now, usage, limit.value, (80, "80"), u, m, p);
      var one := CrossThreshold(saved, prefix, t, metric, now, usage, limit.value, (80, "80"));
      SameBasisSameCase(saved, one, prefix, u, m, p, now);
      CrossAnnounces(one, prefix, t, metric, now, usage, limit.value, (100, "100"), u, m, p);
      TwoCrossings(saved, one, after, prefix, u, m, p, now, t == u && metric == m);
    }
  }

  // ---------- The whole snapshot

  lemma {:induction false} SnapshotMetricsShot(st: Stores, prefix: string, t: string, metrics: seq<string>, now: int,
      u: string, m: string, p: int)
    requires Segment(t) && (forall x | x in metrics :: |x| > 0) && Named(u, m) && Percentage(p) && Segment(Month(now))
    ensures Shot(st, SnapshotMetrics(st, prefix, t, metrics, now), prefix, u, m, p, now, t == u && m in metrics)
    decreases |metrics|
  {
    hide SnapshotMetric, Month, Shot;
    if |metrics| == 0 {
      NoShot(st, prefix, u, m, p, now);
    } else {
      var before, last := metrics[..|metrics| - 1], metrics[|metrics| - 1];
      var mid := SnapshotMetrics(st, prefix, t, before, now);
      SnapshotMetricsShot(st, prefix, t, before, now, u, m, p);
      SnapshotMetricShot(mid, prefix, t, last, now, u, m, p);
      ShotThen(st, mid, SnapshotMetric(mid, prefix, t, last, now), prefix, u, m, p, now, t == u && m in before,
               t == u && last == m);
      assert metrics == before + [last];
    }
  }

  lemma NoShot(st: Stores, prefix: string, u: string, m: string, p: int, now: int)
    ensures Shot(st, st, prefix, u, m, p, now, false)
  {
  }

  /** A daily snapshot announces a threshold exactly once if the metric is one of an active tenant's listed ones,
      the month's usage has reached the percentage of a positive stored limit and the flag is not live. It then
      keeps the flag for 60 days. It writes the day's row with the counter and the limit in any case. */
  lemma {:induction false} SnapshotAnnouncesExactly(st: Stores, prefix: string, tenants: seq<TenantRef>, now: int,
      t: string, metric: string, p: int)
    requires WellNamed(st.ks, prefix, tenants, now) && Named(t, metric) && Percentage(p) && Segment(Month(now))
    ensures Shot(st, Snapshot(st, prefix, tenants, now), prefix, t, metric, p, now,
                 Reported(st.ks, prefix, tenants, now, t, metric))
    decreases |tenants|
  {
    hide UsageKey, MetricsKey, Month, Today, SnapshotMetrics, SameCounters, Metrics, Shot;
    if |tenants| == 0 {
      NoShot(st, prefix, t, metric, p, now);
    } else {
      var before, last := tenants[..|tenants| - 1], tenants[|tenants| - 1];
      var mid := Snapshot(st, prefix, before, now);
      assert forall i | 0 <= i < |before| :: before[i] == tenants[i];
      SnapshotWrites(st, prefix, before, now, t, metric);
      MetricsKept(st.ks, mid.ks, prefix, last.id, now);
      SnapshotAnnouncesExactly(st, prefix, before, now, t, metric, p);
      ReportedSplit(st.ks, prefix, tenants, now, t, metric);
      if last.status == Active {
        var ms := Metrics(mid.ks, prefix, last.id, now);
        SnapshotMetricsShot(mid, prefix, last.id, ms, now, t, metric, p);
        ShotThen(st, mid, SnapshotMetrics(mid, prefix, last.id, ms, now), prefix, t, metric, p, now,
                 Reported(st.ks, prefix, before, now, t, metric), last.id == t && metric in ms);
      }
    }
  }

  // ---------- The monthly reset

  /** The summaries of one metric of one tenant, in order. */
  function Summaries(events: seq<BillingEvent>, t: string, metric: string): seq<BillingEvent> {
    if |events| == 0 then []
    else
      var last := events[|events| - 1];
      Summaries(events[..|events| - 1], t, metric)
      + if last.MonthlySummary? && last.tenant == t && last.metric == metric then [last] else []
  }

  lemma SummariesAppend(events: seq<BillingEvent>, e: BillingEvent, t: string, metric: string)
    ensures Summaries(events + [e], t, metric)
            == Summaries(events, t, metric)
               + if e.MonthlySummary? && e.tenant == t && e.metric == metric then [e] else []
  {
    assert (events + [e])[..|events|] == events;
  }

  /** The previous month's total: the row of its last day, or else what its counter still shows. */
  function Total(st: Stores, prefix: string, t: string, metric: string, now: int): int {
    var row := RowKey(t, metric, Calendar.GetPreviousCalendarMonth(now).prevMonthEnd);
    if row in st.rows then st.rows[row].currentUsage else Counter(st.ks, prefix, t, metric, PreviousLabel(now), now)
  }

  function SummaryOf(st: Stores, prefix: string, t: string, metric: string, now: int): BillingEvent {
    MonthlySummary(t, metric, PreviousLabel(now), Total(st, prefix, t, metric, now),
                   StoredLimit(st.ks, prefix, t, metric, now))
  }

  /** What a reset that visits the metric once, or one that does not visit it, makes of its summaries, flags and
      announcements. */
  predicate Closed(a: Stores, b: Stores, prefix: string, t: string, metric: string, now: int, visits: bool) {
    && b.rows == a.rows
    && Kept(a.ks, b.ks, LimitKey(prefix, t, metric))
    && (!visits ==> Kept(a.ks, b.ks, UsageKey(prefix, t, metric, PreviousLabel(now))))
    && Summaries(b.events, t, metric)
       == Summaries(a.events, t, metric) + (if visits then [SummaryOf(a, prefix, t, metric, now)] else [])
  }

  predicate FlagClosed(a: Stores, b: Stores, prefix: string, t: string, metric: string, p: int, visits: bool) {
    && Crossings(b.events, t, metric, p) == Crossings(a.events, t, metric, p)
    && if visits then Flag(prefix, t, metric, p) !in b.ks else Kept(a.ks, b.ks, Flag(prefix, t, metric, p))
  }

  lemma ResetMetricDeletes(st: Stores, prefix: string, t: string, metric: string, now: int)
    ensures ResetMetric(st, prefix, t, metric, now).ks
            == st.ks - {UsageKey(prefix, t, metric, PreviousLabel(now))} - {Flag(prefix, t, metric, 80)}
                 - {Flag(prefix, t, metric, 100)}
  {
    hide UsageKey, ThresholdKey, Counter, LimitAt, Calendar.GetPreviousCalendarMonth;
  }

  lemma ResetMetricSums(st: Stores, prefix: string, t: string, metric: string, now: int)
    ensures ResetMetric(st, prefix, t, metric, now).rows == st.rows
    ensures ResetMetric(st, prefix, t, metric, now).events == st.events + [SummaryOf(st, prefix, t, metric, now)]
  {
    assert LimitAt(st.ks, prefix, t, metric, now) == StoredLimit(st.ks, prefix, t, metric, now);
    hide UsageKey, ThresholdKey, Counter, StoredLimit, LimitAt, Calendar.GetPreviousCalendarMonth;
  }

  lemma ResetMetricCloses(st: Stores, prefix: string, t: string, metric: string, now: int, u: string, m: string, p: int)
    requires Named(t, metric) && Segment(PreviousLabel(now)) && Named(u, m) && Percentage(p)
    ensures Closed(st, ResetMetric(st, prefix, t, metric, now), prefix, u, m, now, t == u && metric == m)
    ensures FlagClosed(st, ResetMetric(st, prefix, t, metric, now), prefix, u, m, p, t == u && metric == m)
  {
    hide UsageKey, LimitKey, Flag, SummaryOf, ResetMetric, PreviousLabel, Summaries, Crossings;
    ResetMetricDeletes(st, prefix, t, metric, now);
    ResetMetricSums(st, prefix, t, metric, now);
    SummaryFields(st, prefix, t, metric, now);
    UsageKeyInjective(prefix, t, metric, PreviousLabel(now), u, m, PreviousLabel(now));
    FlagExactly(prefix, t, metric, 80, u, m, p);
    FlagExactly(prefix, t, metric, 100, u, m, p);
    LimitApart(prefix, t, metric, 80, u, m, PreviousLabel(now));
    LimitApart(prefix, t, metric, 100, u, m, PreviousLabel(now));
    FlagApart(prefix, t, metric, 80, u, m, PreviousLabel(now));
    FlagApart(prefix, t, metric, 100, u, m, PreviousLabel(now));
    FlagApart(prefix, u, m, p, t, metric, PreviousLabel(now));
    SummariesAppend(st.events, SummaryOf(st, prefix, t, metric, now), u, m);
    CrossingsAppend(st.events, SummaryOf(st, prefix, t, metric, now), u, m, p);
  }

  lemma SummaryFields(st: Stores, prefix: string, t: string, metric: string, now: int)
    ensures var e := SummaryOf(st, prefix, t, metric, now); e.MonthlySummary? && e.tenant == t && e.metric == metric
  {
    hide Total, StoredLimit, PreviousLabel;
  }

  lemma SameTotal(a: Stores, b: Stores, prefix: string, t: string, metric: string, now: int)
    requires Closed(a, b, prefix, t, metric, now, false)
    ensures SummaryOf(b, prefix, t, metric, now) == SummaryOf(a, prefix, t, metric, now)
  {
    hide UsageKey, LimitKey, PreviousLabel, Calendar.GetPreviousCalendarMonth, Summaries;
  }

  lemma ClosedThen(a: Stores, b: Stores, c: Stores, prefix: string, t: string, metric: string, now: int, first: bool,
                   second: bool)
    requires Closed(a, b, prefix, t, metric, now, first) && Closed(b, c, prefix, t, metric, now, second)
    requires !(first && second)
    ensures Closed(a, c, prefix, t, metric, now, first || second)
  {
    if second {
      SameTotal(a, b, prefix, t, metric, now);
    }
    hide UsageKey, LimitKey, PreviousLabel, Summaries, SummaryOf;
  }

  predicate Different<T(==)>(s: seq<T>) {
    forall i, j | 0 <= i < j < |s| :: s[i] != s[j]
  }

  lemma LastIsNew<T>(s: seq<T>)
    requires Different(s) && |s| > 0
    ensures Different(s[..|s| - 1]) && s[|s| - 1] !in s[..|s| - 1]
  {
  }

  lemma {:induction false} ResetMetricsCloses(st: Stores, prefix: string, t: string, metrics: seq<string>, now: int,
      u: string, m: string, p: int)
    requires Segment(t) && (forall x | x in metrics :: |x| > 0) && Segment(PreviousLabel(now)) && Named(u, m)
    requires Percentage(p)
    ensures Different(metrics) ==>
            Closed(st, ResetMetrics(st, prefix, t, metrics, now), prefix, u, m, now, t == u && m in metrics)
    ensures FlagClosed(st, ResetMetrics(st, prefix, t, metrics, now), prefix, u, m, p, t == u && m in metrics)
    decreases |metrics|
  {
    hide ResetMetric, PreviousLabel, Closed, Flag, Crossings, Different;
    if |metrics| == 0 {
      NotClosed(st, prefix, u, m, now);
    } else {
      var before, last := metrics[..|metrics| - 1], metrics[|metrics| - 1];
      var mid := ResetMetrics(st, prefix, t, before, now);
      ResetMetricsCloses(st, prefix, t, before, now, u, m, p);
      ResetMetricCloses(mid, prefix, t, last, now, u, m, p);
      assert metrics == before + [last];
      if Different(metrics) {
        LastIsNew(metrics);
        ClosedThen(st, mid, ResetMetric(mid, prefix, t, last, now), prefix, u, m, now, t == u && m in before,
                   t == u && last == m);
      }
    }
  }

  lemma NotClosed(st: Stores, prefix: string, u: string, m: string, now: int)
    ensures Closed(st, st, prefix, u, m, now, false)
  {
  }

  /** A monthly reset that lists each tenant and each metric once reports each listed metric of each active tenant
      once and no other: the month it closes, the total on the row of its last day or, for want of that row, the
      counter at the start of the reset, and the stored limit. It also takes down both threshold flags. */
  lemma {:induction false} ResetReportsExactly(st: Stores, prefix: string, tenants: seq<TenantRef>, now: int,
      t: string, metric: string, p: int)
    requires WellNamed(st.ks, prefix, tenants, now) && Segment(PreviousLabel(now)) && Named(t, metric) && Percentage(p)
    ensures OneEach(st.ks, prefix, tenants, now) ==>
            Closed(st, Reset(st, prefix, tenants, now), prefix, t, metric, now,
                   Reported(st.ks, prefix, tenants, now, t, metric))
    ensures FlagClosed(st, Reset(st, prefix, tenants, now), prefix, t, metric, p,
                       Reported(st.ks, prefix, tenants, now, t, metric))
    decreases |tenants|
  {
    hide MetricsKey, PreviousLabel, Closed, Flag, Metrics, Reported, ResetMetrics, WellNamed;
    if |tenants| == 0 {
      NotClosed(st, prefix, t, metric, now);
      NoneReported(st.ks, prefix, now, t, metric);
    } else {
      var before, last := tenants[..|tenants| - 1], tenants[|tenants| - 1];
      var mid := Reset(st, prefix, before, now);
      FewerNamed(st.ks, prefix, tenants, now);
      ResetClears(st, prefix, before, now, t, metric, PreviousLabel(now));
      ListsKept(st.ks, mid.ks, prefix, last.id, now);
      ResetReportsExactly(st, prefix, before, now, t, metric, p);
      ReportedSplit(st.ks, prefix, tenants, now, t, metric);
      if last.status == Active {
        var ms := Metrics(mid.ks, prefix, last.id, now);
        ResetMetricsCloses(mid, prefix, last.id, ms, now, t, metric, p);
        if OneEach(st.ks, prefix, tenants, now) {
          NotBefore(st.ks, prefix, tenants, now, metric);
          ClosedThen(st, mid, ResetMetrics(mid, prefix, last.id, ms, now), prefix, t, metric, now,
                     Reported(st.ks, prefix, before, now, t, metric), last.id == t && metric in ms);
        }
      }
      assert OneEach(st.ks, prefix, tenants, now) ==> OneEach(st.ks, prefix, before, now);
    }
  }

  /** Each tenant is listed once, and so is each of its metrics. */
  predicate OneEach(ks: Keyspace, prefix: string, tenants: seq<TenantRef>, now: int) {
    && (forall i, j | 0 <= i < j < |tenants| :: tenants[i].id != tenants[j].id)
    && forall i | 0 <= i < |tenants| :: Different(Metrics(ks, prefix, tenants[i].id, now))
  }

  lemma FewerNamed(ks: Keyspace, prefix: string, tenants: seq<TenantRef>, now: int)
    requires WellNamed(ks, prefix, tenants, now) && |tenants| > 0
    ensures WellNamed(ks, prefix, tenants[..|tenants| - 1], now)
    ensures Segment(tenants[|tenants| - 1].id)
            && forall m | m in Metrics(ks, prefix, tenants[|tenants| - 1].id, now) :: |m| > 0
  {
    hide Metrics;
    assert forall i | 0 <= i < |tenants| - 1 :: tenants[..|tenants| - 1][i] == tenants[i];
  }

  lemma NoneReported(ks: Keyspace, prefix: string, now: int, t: string, metric: string)
    ensures !Reported(ks, prefix, [], now, t, metric)
  {
  }

  lemma NotBefore(ks: Keyspace, prefix: string, tenants: seq<TenantRef>, now: int, metric: string)
    requires OneEach(ks, prefix, tenants, now) && |tenants| > 0
    ensures !Reported(ks, prefix, tenants[..|tenants| - 1], now, tenants[|tenants| - 1].id, metric)
  {
    hide Metrics;
  }

  // ---------- Announcements over every run

  /** Snapshots, resets, and everything else that leaves threshold flags and announcements alone. */
  datatype Act = Snap(tenants: seq<TenantRef>, at: int) | Clear(tenants: seq<TenantRef>, at: int) | Elsewhere(at: int)

  predicate Acted(a: Stores, b: Stores, prefix: string, act: Act, t: string, metric: string, p: int) {
    match act
    case Snap(tenants, at) =>
      WellNamed(a.ks, prefix, tenants, at) && Segment(Month(at)) && b == Snapshot(a, prefix, tenants, at)
    case Clear(tenants, at) =>
      WellNamed(a.ks, prefix, tenants, at) && Segment(PreviousLabel(at)) && b == Reset(a, prefix, tenants, at)
    case Elsewhere(at) => FlagClosed(a, b, prefix, t, metric, p, false)
  }

  /** A run in the order of time that starts without the flag. */
  predicate ActRun(prefix: string, acts: seq<Act>, states: seq<Stores>, t: string, metric: string, p: int) {
    && |states| == |acts| + 1 && Named(t, metric) && Percentage(p)
    && Flag(prefix, t, metric, p) !in states[0].ks
    && (forall i | 0 <= i < |acts| :: Acted(states[i], states[i + 1], prefix, acts[i], t, metric, p))
    && forall i, j | 0 <= i < j < |acts| :: acts[i].at <= acts[j].at
  }

  /** Step `k` announced the threshold. */
  predicate Announces(acts: seq<Act>, states: seq<Stores>, t: string, metric: string, p: int, k: int)
    requires |states| == |acts| + 1 && 0 <= k < |acts|
  {
    Crossings(states[k + 1].events, t, metric, p) != Crossings(states[k].events, t, metric, p)
  }

  /** Step `k` reset the metric. */
  predicate Resets(prefix: string, acts: seq<Act>, states: seq<Stores>, t: string, metric: string, k: int)
    requires |states| == |acts| + 1 && 0 <= k < |acts|
  {
    acts[k].Clear? && Reported(states[k].ks, prefix, acts[k].tenants, acts[k].at, t, metric)
  }

  /** Step `k` announced the threshold less than 60 days before `now`, and no reset came since. */
  predicate Fresh(prefix: string, acts: seq<Act>, states: seq<Stores>, t: string, metric: string, p: int, n: nat,
                  now: int, k: nat)
    requires |states| == |acts| + 1 && n <= |acts|
  {
    && k < n && Announces(acts, states, t, metric, p, k) && now < acts[k].at + SIXTY_DAYS
    && forall j | k < j < n :: !Resets(prefix, acts, states, t, metric, j)
  }

  ghost predicate HeardOf(prefix: string, acts: seq<Act>, states: seq<Stores>, t: string, metric: string, p: int,
                          n: nat, now: int)
    requires |states| == |acts| + 1 && n <= |acts|
  {
    exists k: nat :: Fresh(prefix, acts, states, t, metric, p, n, now, k)
  }

  /** What one step does to the flag and the announcements. */
  predicate FlagFollows(a: Stores, b: Stores, prefix: string, act: Act, t: string, metric: string, p: int) {
    var flag := Flag(prefix, t, metric, p);
    var announced := Crossings(b.events, t, metric, p) != Crossings(a.events, t, metric, p);
    && (announced <==>
        act.Snap? && Reported(a.ks, prefix, act.tenants, act.at, t, metric) && Due(a.ks, prefix, t, metric, p, act.at))
    && if announced then flag in b.ks && b.ks[flag].expiresAt == Some(act.at + SIXTY_DAYS)
       else if act.Clear? && Reported(a.ks, prefix, act.tenants, act.at, t, metric) then flag !in b.ks
       else Kept(a.ks, b.ks, flag)
  }

  lemma SnapOnFlag(a: Stores, b: Stores, prefix: string, act: Act, t: string, metric: string, p: int)
    requires Acted(a, b, prefix, act, t, metric, p) && act.Snap? && Named(t, metric) && Percentage(p)
    ensures FlagFollows(a, b, prefix, act, t, metric, p)
  {
    hide Flag, WellNamed, Reported, Snapshot, Month, RowIf, SameBasis, Due, Over, Crossings, Announcement;
    SnapshotAnnouncesExactly(a, prefix, act.tenants, act.at, t, metric, p);
  }

  lemma ClearOnFlag(a: Stores, b: Stores, prefix: string, act: Act, t: string, metric: string, p: int)
    requires Acted(a, b, prefix, act, t, metric, p) && act.Clear? && Named(t, metric) && Percentage(p)
    ensures FlagFollows(a, b, prefix, act, t, metric, p)
  {
    hide Flag, WellNamed, Reported, Reset, PreviousLabel, Due, Closed, Crossings, OneEach;
    ResetReportsExactly(a, prefix, act.tenants, act.at, t, metric, p);
  }

  lemma ActOnFlag(prefix: string, acts: seq<Act>, states: seq<Stores>, t: string, metric: string, p: int, n: nat)
    requires ActRun(prefix, acts, states, t, metric, p) && n < |acts|
    ensures FlagFollows(states[n], states[n + 1], prefix, acts[n], t, metric, p)
  {
    hide Acted, FlagFollows, Flag;
    assert Acted(states[n], states[n + 1], prefix, acts[n], t, metric, p);
    match acts[n] {
      case Snap(_, _) => SnapOnFlag(states[n], states[n + 1], prefix, acts[n], t, metric, p);
      case Clear(_, _) => ClearOnFlag(states[n], states[n + 1], prefix, acts[n], t, metric, p);
      case Elsewhere(_) => ElsewhereOnFlag(states[n], states[n + 1], prefix, acts[n], t, metric, p);
    }
  }

  lemma ElsewhereOnFlag(a: Stores, b: Stores, prefix: string, act: Act, t: string, metric: string, p: int)
    requires Acted(a, b, prefix, act, t, metric, p) && act.Elsewhere?
    ensures FlagFollows(a, b, prefix, act, t, metric, p)
  {
    hide Flag, Reported, Due, Crossings;
  }

  /** One more step: an announcement is heard of for 60 days, a reset makes it forgotten. */
  lemma HeardOfStep(prefix: string, acts: seq<Act>, states: seq<Stores>, t: string, metric: string, p: int, n: nat,
                    now: int)
    requires |states| == |acts| + 1 && n < |acts|
    requires Announces(acts, states, t, metric, p, n) && now >= acts[n].at + SIXTY_DAYS ==>
               !HeardOf(prefix, acts, states, t, metric, p, n, now)
    requires Announces(acts, states, t, metric, p, n) ==> !Resets(prefix, acts, states, t, metric, n)
    ensures HeardOf(prefix, acts, states, t, metric, p, n + 1, now) <==>
            if Announces(acts, states, t, metric, p, n) then now < acts[n].at + SIXTY_DAYS
            else !Resets(prefix, acts, states, t, metric, n) && HeardOf(prefix, acts, states, t, metric, p, n, now)
  {
    hide Announces, Resets;
    if HeardOf(prefix, acts, states, t, metric, p, n + 1, now) {
      var k: nat :| Fresh(prefix, acts, states, t, metric, p, n + 1, now, k);
      assert k < n ==> Fresh(prefix, acts, states, t, metric, p, n, now, k);
    }
    if HeardOf(prefix, acts, states, t, metric, p, n, now) && !Resets(prefix, acts, states, t, metric, n) {
      var k: nat :| Fresh(prefix, acts, states, t, metric, p, n, now, k);
      assert Fresh(prefix, acts, states, t, metric, p, n + 1, now, k);
    }
    if Announces(acts, states, t, metric, p, n) && now < acts[n].at + SIXTY_DAYS {
      assert Fresh(prefix, acts, states, t, metric, p, n + 1, now, n);
    }
  }

  lemma {:induction false} FlagLiveExactly(prefix: string, acts: seq<Act>, states: seq<Stores>, t: string,
      metric: string, p: int, n: nat, now: int)
    requires ActRun(prefix, acts, states, t, metric, p) && n <= |acts|
    requires forall i | 0 <= i < n :: acts[i].at <= now
    ensures Live(states[n].ks, Flag(prefix, t, metric, p), now) <==>
            HeardOf(prefix, acts, states, t, metric, p, n, now)
    decreases n
  {
    hide Flag, Over, Reported, Crossings, Acted, HeardOf;
    if n == 0 {
      NothingHeardOf(prefix, acts, states, t, metric, p, now);
    } else {
      var last := n - 1;
      ActOnFlag(prefix, acts, states, t, metric, p, last);
      FlagLiveExactly(prefix, acts, states, t, metric, p, last, now);
      if Announces(acts, states, t, metric, p, last) {
        SnapIsNoReset(prefix, acts, states, t, metric, last);
      }
      HeardOfStep(prefix, acts, states, t, metric, p, last, now);
    }
  }

  lemma SnapIsNoReset(prefix: string, acts: seq<Act>, states: seq<Stores>, t: string, metric: string, k: int)
    requires |states| == |acts| + 1 && 0 <= k < |acts| && acts[k].Snap?
    ensures !Resets(prefix, acts, states, t, metric, k)
  {
  }

  lemma NothingHeardOf(prefix: string, acts: seq<Act>, states: seq<Stores>, t: string, metric: string, p: int, now: int)
    requires |states| == |acts| + 1
    ensures !HeardOf(prefix, acts, states, t, metric, p, 0, now)
  {
  }

  /** In every run, a step announces a threshold exactly if it is a snapshot that visits the metric, the month's
      usage has reached the percentage, and the run has not announced it within the last 60 days, or has reset the
      metric since. */
  lemma AnnouncesAgainExactly(prefix: string, acts: seq<Act>, states: seq<Stores>, t: string, metric: string, p: int,
      k: nat)
    requires ActRun(prefix, acts, states, t, metric, p) && k < |acts|
    ensures Announces(acts, states, t, metric, p, k) <==>
            && acts[k].Snap? && Reported(states[k].ks, prefix, acts[k].tenants, acts[k].at, t, metric)
            && Over(states[k].ks, prefix, t, metric, p, acts[k].at)
            && !HeardOf(prefix, acts, states, t, metric, p, k, acts[k].at)
  {
    hide Flag, Over, Acted, HeardOf, Live, Reported, Crossings;
    FlagLiveExactly(prefix, acts, states, t, metric, p, k, acts[k].at);
    ActOnFlag(prefix, acts, states, t, metric, p, k);
  }

  /** Counting up or down is one of the other steps, whichever metric is counted. */
  lemma CountingIsElsewhere(st: Stores, prefix: string, u: string, m: string, call: TrackerCall, t: string,
      metric: string, p: int)
    requires Named(u, m) && Segment(Month(call.at)) && Named(t, metric) && Percentage(p)
    ensures Acted(st, TrackerStep(st, prefix, u, m, call), prefix, Elsewhere(call.at), t, metric, p)
  {
    hide UsageKey, MetricsKey, Month, Today, Flag, TrackAt, Crossings;
    var flag := Flag(prefix, t, metric, p);
    FlagApart(prefix, t, metric, p, u, m, Month(call.at));
    FlagIsNoList(prefix, t, metric, p, u);
    forall delta
      ensures Kept(st.ks, Tracked(st.ks, prefix, u, m, call.at, delta), flag)
    {
      TrackedOther(st.ks, UsageKey(prefix, u, m, Month(call.at)), MetricsKey(prefix, u), m, call.at, delta, flag);
    }
    hide Tracked;
  }

  lemma FlagIsNoList(prefix: string, t: string, metric: string, p: int, u: string)
    requires Named(t, metric) && Segment(u)
    ensures MetricsKey(prefix, u) != Flag(prefix, t, metric, p)
  {
    ThresholdApart(prefix, t, metric, if p == 80 then "80" else "100", u, "", "");
  }
}
