/** Usage counters in the key-value store: one counter per tenant, metric and calendar month. */
module UsageCounters {
  import opened Wrappers
  import opened Text
  import opened Redis
  import Calendar

  const USAGE_TTL_SECONDS := 60 * 24 * 60 * 60
  const THRESHOLD_TTL_SECONDS := 60 * 24 * 60 * 60

  /** The month of an instant, as counter keys spell it. */
  function Month(now: int): string {
    Calendar.MonthText(Calendar.Day(now))
  }

  function UsageKey(prefix: string, t: string, metric: string, month: string): string {
    BuildKey(prefix, None, ["usage", t, metric, month])
  }

  function MetricsKey(prefix: string, t: string): string {
    BuildKey(prefix, None, ["usage-metrics", t])
  }

  function LimitKey(prefix: string, t: string, metric: string): string {
    BuildKey(prefix, None, ["limits", t, metric])
  }

  function ThresholdKey(prefix: string, t: string, metric: string, percentage: string): string {
    BuildKey(prefix, None, ["thresholds", t, metric, percentage])
  }

  /** Tenant ids and months hold no separator; a metric may be any non-empty text. */
  predicate Named(t: string, metric: string) {
    Segment(t) && |metric| > 0
  }

  function Counter(ks: Keyspace, prefix: string, t: string, metric: string, month: string, now: int): int {
    NumberAt(ks, UsageKey(prefix, t, metric, month), now)
  }

  function Metrics(ks: Keyspace, prefix: string, t: string, now: int): seq<string> {
    MembersAt(ks, MetricsKey(prefix, t), now)
  }

  /** Counters hold numbers and metric sets hold members, so no command meets the wrong type. */
  ghost predicate Typed(ks: Keyspace, prefix: string, now: int) {
    && (forall t, metric, month | Named(t, metric) && Segment(month) ::
          Holds(Read(ks, UsageKey(prefix, t, metric, month), now), true))
    && (forall t | Segment(t) :: Holds(Read(ks, MetricsKey(prefix, t), now), false))
  }

  predicate Holds(v: Option<Value>, number: bool) {
    v.None? || (if number then v.value.Num? else v.value.Members?)
  }

  // ---------- What the operations do to the keyspace

  function IncrementAt(ks: Keyspace, key: string, metricsKey: string, metric: string, now: int, amount: int): Keyspace {
    if amount <= 0 then ks
    else ListAt(WithExpiry(Incr(ks, key, amount, now), key, USAGE_TTL_SECONDS, now), metricsKey, metric, now)
  }

  function ListAt(ks: Keyspace, metricsKey: string, metric: string, now: int): Keyspace {
    WithExpiry(AddMember(ks, metricsKey, metric, now), metricsKey, USAGE_TTL_SECONDS, now)
  }

  function DecrementAt(ks: Keyspace, key: string, metricsKey: string, metric: string, now: int, amount: int): Keyspace {
    if amount <= 0 then ks
    else
      var after := Incr(ks, key, -amount, now);
      if NumberAt(after, key, now) < 0
      then after[key := Cell(Num(0), Until(now, USAGE_TTL_SECONDS))]
      else ListAt(WithExpiry(after, key, USAGE_TTL_SECONDS, now), metricsKey, metric, now)
  }

  function TrackAt(ks: Keyspace, key: string, metricsKey: string, metric: string, now: int, delta: int): Keyspace {
    if delta == 0 then ks
    else if delta > 0 then IncrementAt(ks, key, metricsKey, metric, now, delta)
    else DecrementAt(ks, key, metricsKey, metric, now, -delta)
  }

  function Tracked(ks: Keyspace, prefix: string, t: string, metric: string, now: int, delta: int): Keyspace {
    TrackAt(ks, UsageKey(prefix, t, metric, Month(now)), MetricsKey(prefix, t), metric, now, delta)
  }

  // ---------- Keys are unambiguous

  lemma UsageKeyShape(prefix: string, t: string, metric: string, month: string)
    requires Named(t, metric) && |month| > 0
    ensures UsageKey(prefix, t, metric, month) == Head(prefix) + "usage" + ":" + (t + ":" + (metric + ":" + month))
  {
    var parts := ["usage", t, metric, month];
    BuildUnfolds(prefix, parts);
    assert parts[1..] == [t, metric, month];
    assert [t, metric, month][1..] == [metric, month];
    assert [metric, month][1..] == [month];
    assert Join([metric, month]) == metric + ":" + month;
    assert Join([t, metric, month]) == t + ":" + (metric + ":" + month);
    assert Join(parts) == "usage" + ":" + (t + ":" + (metric + ":" + month));
    assert Head(prefix) + ("usage" + ":" + (t + ":" + (metric + ":" + month)))
        == Head(prefix) + "usage" + ":" + (t + ":" + (metric + ":" + month));
  }

  function Head(prefix: string): string {
    if |prefix| > 0 then prefix + ":" else ""
  }

  /** Different tenant, metric or month: different counter. */
  lemma UsageKeyInjective(prefix: string, t: string, metric: string, month: string, t': string, metric': string,
      month': string)
    requires Named(t, metric) && Segment(month) && Named(t', metric') && Segment(month')
    ensures UsageKey(prefix, t, metric, month) == UsageKey(prefix, t', metric', month')
            <==> t == t' && metric == metric' && month == month'
  {
    UsageKeyShape(prefix, t, metric, month);
    UsageKeyShape(prefix, t', metric', month');
    if UsageKey(prefix, t, metric, month) == UsageKey(prefix, t', metric', month') {
      var n := |Head(prefix)| + 6;
      assert UsageKey(prefix, t, metric, month)[n..] == t + ":" + (metric + ":" + month);
      assert UsageKey(prefix, t', metric', month')[n..] == t' + ":" + (metric' + ":" + month');
      HeadDetermined(t, metric + ":" + month, t', metric' + ":" + month', ':');
      TailDetermined(metric, month, metric', month', ':');
    }
  }

  /** No counter key is the key of a metric set, a limit or a threshold flag, whatever the metric's text. */
  lemma UsageKeyApart(prefix: string, t: string, metric: string, month: string, u: string, rest: seq<string>)
    requires Named(t, metric) && |month| > 0 && |u| > 0
    requires forall i | 0 <= i < |rest| :: |rest[i]| > 0
    ensures UsageKey(prefix, t, metric, month) != BuildKey(prefix, None, ["usage-metrics", u] + rest)
    ensures UsageKey(prefix, t, metric, month) != BuildKey(prefix, None, ["limits", u] + rest)
    ensures UsageKey(prefix, t, metric, month) != BuildKey(prefix, None, ["thresholds", u] + rest)
  {
    UsageKeyShape(prefix, t, metric, month);
    FirstPiece(prefix, "usage-metrics", u, rest);
    FirstPiece(prefix, "limits", u, rest);
    FirstPiece(prefix, "thresholds", u, rest);
    var n := |Head(prefix)|;
    assert UsageKey(prefix, t, metric, month)[n] == 'u' && UsageKey(prefix, t, metric, month)[n + 5] == ':';
    assert BuildKey(prefix, None, ["usage-metrics", u] + rest)[n + 5] == '-';
  }

  lemma FirstPiece(prefix: string, first: string, u: string, rest: seq<string>)
    requires |first| > 0 && |u| > 0 && forall i | 0 <= i < |rest| :: |rest[i]| > 0
    ensures |BuildKey(prefix, None, [first, u] + rest)| > |Head(prefix)| + |first|
    ensures BuildKey(prefix, None, [first, u] + rest)[|Head(prefix)|..][..|first|] == first
    ensures BuildKey(prefix, None, [first, u] + rest)[|Head(prefix)|] == first[0]
    ensures forall i | 0 <= i < |first| :: BuildKey(prefix, None, [first, u] + rest)[|Head(prefix)| + i] == first[i]
  {
    var parts := [first, u] + rest;
    BuildUnfolds(prefix, parts);
    assert Join(parts) == first + ":" + Join(parts[1..]);
  }

  lemma MetricsKeyInjective(prefix: string, t: string, u: string)
    requires Segment(t) && Segment(u)
    ensures MetricsKey(prefix, t) == MetricsKey(prefix, u) <==> t == u
  {
    BuildDistinct(prefix, ["usage-metrics", t], ["usage-metrics", u]);
  }

  lemma MetricsApart(prefix: string, t: string, metric: string, month: string, u: string)
    requires Named(t, metric) && |month| > 0 && Segment(u)
    ensures UsageKey(prefix, t, metric, month) != MetricsKey(prefix, u)
  {
    UsageKeyApart(prefix, t, metric, month, u, []);
    assert ["usage-metrics", u] + [] == ["usage-metrics", u];
  }

  lemma MonthIsSegment(now: int)
    requires 0 <= Calendar.Civil(Calendar.Day(now)).year <= 9999
    ensures Segment(Month(now))
  {
    var d := Calendar.Day(now);
    Calendar.MonthTextOf(d);
    var y, m := Calendar.Civil(d).year, Calendar.Civil(d).month + 1;
    DigitsOnly(y, 4);
    DigitsOnly(m, 2);
  }

  lemma DigitsOnly(n: nat, width: nat)
    ensures Free(Calendar.Pad(n, width), ':')
  {
    Calendar.DecimalDigits(n);
  }

  // ---------- Counters as a fold

  function NonNegative(n: int): int {
    if n < 0 then 0 else n
  }

  function Saturate(c: int, delta: int): int {
    if delta < 0 && c + delta < 0 then 0 else c + delta
  }

  /** A counter moves by saturating addition and lives on for 60 days. */
  lemma TrackedCell(ks: Keyspace, key: string, metricsKey: string, metric: string, now: int, delta: int)
    requires key != metricsKey && Holds(Read(ks, key, now), true) && delta != 0
    ensures key in TrackAt(ks, key, metricsKey, metric, now, delta)
    ensures TrackAt(ks, key, metricsKey, metric, now, delta)[key]
            == Cell(Num(Saturate(NumberAt(ks, key, now), delta)), Some(now + 60 * Calendar.MS_PER_DAY))
  {
  }

  lemma TrackedOther(ks: Keyspace, key: string, metricsKey: string, metric: string, now: int, delta: int, k: string)
    requires k != key && k != metricsKey
    ensures k in TrackAt(ks, key, metricsKey, metric, now, delta) <==> k in ks
    ensures k in ks ==> TrackAt(ks, key, metricsKey, metric, now, delta)[k] == ks[k]
  {
  }

  /** Counting a metric up lists it; tracking never unlists one. */
  lemma TrackedMetrics(ks: Keyspace, key: string, metricsKey: string, metric: string, now: int, delta: int)
    requires key != metricsKey && Holds(Read(ks, metricsKey, now), false)
    ensures Holds(Read(TrackAt(ks, key, metricsKey, metric, now, delta), metricsKey, now), false)
    ensures forall m | m in MembersAt(ks, metricsKey, now) ::
            m in MembersAt(TrackAt(ks, key, metricsKey, metric, now, delta), metricsKey, now)
    ensures delta > 0 ==> metric in MembersAt(TrackAt(ks, key, metricsKey, metric, now, delta), metricsKey, now)
  {
  }

  /** Tracking one counter leaves every other counter as it was and the namespace well typed. */
  lemma TrackedFrame(ks: Keyspace, prefix: string, t: string, metric: string, now: int, delta: int)
    requires Named(t, metric) && Segment(Month(now)) && Typed(ks, prefix, now)
    ensures Typed(Tracked(ks, prefix, t, metric, now, delta), prefix, now)
    ensures forall t', metric', month', later |
              Named(t', metric') && Segment(month') && !(t' == t && metric' == metric && month' == Month(now)) ::
              Counter(Tracked(ks, prefix, t, metric, now, delta), prefix, t', metric', month', later)
              == Counter(ks, prefix, t', metric', month', later)
  {
    hide UsageKey, MetricsKey, Month, TrackAt;
    var ks' := Tracked(ks, prefix, t, metric, now, delta);
    var key, metricsKey := UsageKey(prefix, t, metric, Month(now)), MetricsKey(prefix, t);
    forall t', metric', month' | Named(t', metric') && Segment(month')
      ensures Holds(Read(ks', UsageKey(prefix, t', metric', month'), now), true)
    {
      OtherCounter(ks, prefix, t, metric, now, delta, t', metric', month');
    }
    forall t' | Segment(t') ensures Holds(Read(ks', MetricsKey(prefix, t'), now), false) {
      OtherMetrics(ks, prefix, t, metric, now, delta, t');
    }
    forall t', metric', month', later |
      Named(t', metric') && Segment(month') && !(t' == t && metric' == metric && month' == Month(now))
      ensures Counter(ks', prefix, t', metric', month', later) == Counter(ks, prefix, t', metric', month', later)
    {
      UsageKeyInjective(prefix, t, metric, Month(now), t', metric', month');
      MetricsApart(prefix, t', metric', month', t);
      TrackedOther(ks, key, metricsKey, metric, now, delta, UsageKey(prefix, t', metric', month'));
    }
  }

  lemma OtherCounter(ks: Keyspace, prefix: string, t: string, metric: string, now: int, delta: int,
                     t': string, metric': string, month': string)
    requires Named(t, metric) && Segment(Month(now)) && Typed(ks, prefix, now)
    requires Named(t', metric') && Segment(month')
    ensures Holds(Read(Tracked(ks, prefix, t, metric, now, delta), UsageKey(prefix, t', metric', month'), now), true)
  {
    hide UsageKey, MetricsKey, Month, TrackAt;
    var key, metricsKey := UsageKey(prefix, t, metric, Month(now)), MetricsKey(prefix, t);
    var other := UsageKey(prefix, t', metric', month');
    UsageKeyInjective(prefix, t, metric, Month(now), t', metric', month');
    MetricsApart(prefix, t', metric', month', t);
    assert Holds(Read(ks, other, now), true) && Holds(Read(ks, key, now), true);
    if delta == 0 {
      TrackedNothing(ks, key, metricsKey, metric, now);
    } else if other == key {
      TrackedCell(ks, key, metricsKey, metric, now, delta);
    } else {
      TrackedOther(ks, key, metricsKey, metric, now, delta, other);
    }
  }

  lemma TrackedNothing(ks: Keyspace, key: string, metricsKey: string, metric: string, now: int)
    ensures TrackAt(ks, key, metricsKey, metric, now, 0) == ks
  {
  }

  lemma OtherMetrics(ks: Keyspace, prefix: string, t: string, metric: string, now: int, delta: int, t': string)
    requires Named(t, metric) && Segment(Month(now)) && Typed(ks, prefix, now) && Segment(t')
    ensures Holds(Read(Tracked(ks, prefix, t, metric, now, delta), MetricsKey(prefix, t'), now), false)
  {
    hide UsageKey, MetricsKey, Month, TrackAt;
    var key, metricsKey := UsageKey(prefix, t, metric, Month(now)), MetricsKey(prefix, t);
    MetricsKeyInjective(prefix, t, t');
    MetricsApart(prefix, t, metric, Month(now), t');
    assert Holds(Read(ks, MetricsKey(prefix, t'), now), false);
    if t' == t {
      TrackedMetrics(ks, key, metricsKey, metric, now, delta);
    } else {
      TrackedOther(ks, key, metricsKey, metric, now, delta, MetricsKey(prefix, t'));
    }
  }

  // ---------- Runs of trackUsage within a month

  function Sum(ds: seq<int>): int {
    if |ds| == 0 then 0 else Sum(ds[..|ds| - 1]) + ds[|ds| - 1]
  }

  function Saturated(c: int, ds: seq<int>): int {
    if |ds| == 0 then c else Saturate(Saturated(c, ds[..|ds| - 1]), ds[|ds| - 1])
  }

  /** No suffix sums to more than `best`, and some suffix sums to it. */
  ghost predicate LargestSuffixSum(ds: seq<int>, best: int) {
    && (forall i | 0 <= i <= |ds| :: Sum(ds[i..]) <= best)
    && (exists i :: 0 <= i <= |ds| && Sum(ds[i..]) == best)
  }

  lemma {:induction false} SaturatedIsLargestSuffixSum(ds: seq<int>)
    ensures LargestSuffixSum(ds, Saturated(0, ds))
    decreases |ds|
  {
    var n := |ds|;
    assert Sum(ds[n..]) == 0;
    if n > 0 {
      var shorter, d := ds[..n - 1], ds[n - 1];
      var c := Saturated(0, shorter);
      SaturatedIsLargestSuffixSum(shorter);
      forall i | 0 <= i < n ensures Sum(ds[i..]) == Sum(shorter[i..]) + d {
        assert ds[i..][..n - i - 1] == shorter[i..];
      }
      var i :| 0 <= i <= n - 1 && Sum(shorter[i..]) == c;
      assert Sum(ds[i..]) == c + d;
      assert Sum(shorter[n - 1..]) == 0;
    }
  }

  /** One call of `trackUsage` and the instant it runs at. */
  datatype Call = Call(at: int, delta: int)

  function Deltas(calls: seq<Call>): seq<int> {
    seq(|calls|, i requires 0 <= i < |calls| => calls[i].delta)
  }

  function TrackedAll(ks: Keyspace, prefix: string, t: string, metric: string, calls: seq<Call>): Keyspace {
    if |calls| == 0 then ks
    else
      var last := calls[|calls| - 1];
      Tracked(TrackedAll(ks, prefix, t, metric, calls[..|calls| - 1]), prefix, t, metric, last.at, last.delta)
  }

  /** The calls run one after the other, at instants of one month of years 0 to 9999. */
  predicate OneMonth(calls: seq<Call>, start: int) {
    && 0 <= Calendar.Civil(Calendar.Day(start)).year <= 9999
    && (forall i | 0 <= i < |calls| :: start <= calls[i].at && Month(calls[i].at) == Month(start))
    && (forall i, j | 0 <= i < j < |calls| :: calls[i].at <= calls[j].at)
  }

  /** From `from` on, until the month ends, the counter reads `c`. */
  ghost predicate Reads(ks: Keyspace, prefix: string, t: string, metric: string, month: string, from: int, c: int) {
    forall later | from <= later && Month(later) == month :: Counter(ks, prefix, t, metric, month, later) == c
  }

  /** Cells only expire with time, so a well-typed namespace stays well typed. */
  lemma TypedLater(ks: Keyspace, prefix: string, now: int, later: int)
    requires Typed(ks, prefix, now) && now <= later
    ensures Typed(ks, prefix, later)
  {
    forall t, metric, month | Named(t, metric) && Segment(month)
      ensures Holds(Read(ks, UsageKey(prefix, t, metric, month), later), true)
    {
      assert Holds(Read(ks, UsageKey(prefix, t, metric, month), now), true);
    }
    forall t | Segment(t) ensures Holds(Read(ks, MetricsKey(prefix, t), later), false) {
      assert Holds(Read(ks, MetricsKey(prefix, t), now), false);
    }
  }

  lemma TrackedReads(ks: Keyspace, prefix: string, t: string, metric: string, from: int, c: int, now: int, delta: int)
    requires Named(t, metric) && 0 <= Calendar.Civil(Calendar.Day(now)).year <= 9999
    requires from <= now && Typed(ks, prefix, now)
    requires Reads(ks, prefix, t, metric, Month(now), from, c)
    ensures Reads(Tracked(ks, prefix, t, metric, now, delta), prefix, t, metric, Month(now), now, Saturate(c, delta))
    ensures Typed(Tracked(ks, prefix, t, metric, now, delta), prefix, now)
  {
    hide UsageKey, MetricsKey, TrackAt, Calendar.Civil, Calendar.MonthText;
    MonthIsSegment(now);
    TrackedFrame(ks, prefix, t, metric, now, delta);
    var key, metricsKey := UsageKey(prefix, t, metric, Month(now)), MetricsKey(prefix, t);
    TrackedNothing(ks, key, metricsKey, metric, now);
    MetricsApart(prefix, t, metric, Month(now), t);
    if delta != 0 {
      assert Holds(Read(ks, key, now), true);
      assert NumberAt(ks, key, now) == Counter(ks, prefix, t, metric, Month(now), now) == c;
      TrackedCell(ks, key, metricsKey, metric, now, delta);
      forall later | now <= later && Month(later) == Month(now)
        ensures Counter(Tracked(ks, prefix, t, metric, now, delta), prefix, t, metric, Month(now), later)
                == Saturate(c, delta)
      {
        Calendar.SameMonthClose(now, later);
      }
    }
  }

  /** A run of `trackUsage` calls within a month leaves the counter at the saturating fold of their deltas. */
  lemma {:induction false} TrackedRun(ks: Keyspace, prefix: string, t: string, metric: string, start: int,
      calls: seq<Call>, c: int)
    returns (from: int)
    requires Named(t, metric) && OneMonth(calls, start) && Typed(ks, prefix, start)
    requires Reads(ks, prefix, t, metric, Month(start), start, c)
    ensures start <= from && (forall i | 0 <= i < |calls| :: calls[i].at <= from)
    ensures from == start || (|calls| > 0 && from == calls[|calls| - 1].at)
    ensures Reads(TrackedAll(ks, prefix, t, metric, calls), prefix, t, metric, Month(start), from,
                  Saturated(c, Deltas(calls)))
    ensures Typed(TrackedAll(ks, prefix, t, metric, calls), prefix, from)
    decreases |calls|
  {
    hide Tracked, Counter, Month, Calendar.Civil, Typed;
    from := start;
    if |calls| > 0 {
      var before, last := calls[..|calls| - 1], calls[|calls| - 1];
      var f := TrackedRun(ks, prefix, t, metric, start, before, c);
      assert Deltas(calls)[..|calls| - 1] == Deltas(before);
      assert f <= last.at;
      SameMonthYears(start, last.at);
      TypedLater(TrackedAll(ks, prefix, t, metric, before), prefix, f, last.at);
      TrackedReads(TrackedAll(ks, prefix, t, metric, before), prefix, t, metric, f, Saturated(c, Deltas(before)),
                   last.at, last.delta);
      from := last.at;
    }
  }

  lemma SameMonthYears(s: int, t: int)
    requires 0 <= Calendar.Civil(Calendar.Day(s)).year <= 9999 && Month(s) == Month(t)
    ensures 0 <= Calendar.Civil(Calendar.Day(t)).year <= 9999
  {
    Calendar.MonthTextInjective(Calendar.Day(s), Calendar.Day(t));
  }

  /** After any run of `trackUsage` calls of one month from zero, the counter is the largest suffix sum of the
      deltas: never negative, and what saturating addition gives. */
  lemma CounterIsLargestSuffixSum(ks: Keyspace, prefix: string, t: string, metric: string, start: int, calls: seq<Call>,
      end: int)
    requires Named(t, metric) && OneMonth(calls, start) && Typed(ks, prefix, start)
    requires Reads(ks, prefix, t, metric, Month(start), start, 0)
    requires start <= end && Month(end) == Month(start) && forall i | 0 <= i < |calls| :: calls[i].at <= end
    ensures LargestSuffixSum(Deltas(calls),
                             Counter(TrackedAll(ks, prefix, t, metric, calls), prefix, t, metric, Month(start), end))
  {
    var from := TrackedRun(ks, prefix, t, metric, start, calls, 0);
    SaturatedIsLargestSuffixSum(Deltas(calls));
  }
}
