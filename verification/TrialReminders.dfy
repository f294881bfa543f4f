/** The trial notices of the daily job and the de-duplication keys in front of them. */
module TrialReminders {
  import opened Wrappers
  import opened Text
  import opened Redis
  import Calendar
  import UsageCounters

  const DEDUP_TTL_SECONDS: nat := 45 * 24 * 60 * 60
  const DEDUP_TTL_MS := 45 * Calendar.MS_PER_DAY

  /** A `trial.reminder` for a number of remaining days, or `trial.expired`. */
  datatype Kind = Reminder(days: int) | Expired
  datatype Notice = Notice(kind: Kind, tenantId: string, trialEndsAt: int, at: int)

  /** The days left, rounded up. */
  function DaysRemaining(trialEndsAt: int, now: int): int
    requires now < trialEndsAt
  {
    (trialEndsAt - now + Calendar.MS_PER_DAY - 1) / Calendar.MS_PER_DAY
  }

  function EndDate(n: Notice): string {
    Calendar.DateText(Calendar.Day(n.trialEndsAt))
  }

  function DaysText(days: int): string {
    if days == 3 then "3" else "1"
  }

  function Pieces(n: Notice): seq<string> {
    if n.kind.Expired? then ["trial", "expired", n.tenantId, EndDate(n)]
    else ["trial", "reminder", n.tenantId, DaysText(n.kind.days), EndDate(n)]
  }

  function DedupKey(prefix: string, n: Notice): string {
    BuildKey(prefix, None, Pieces(n))
  }

  /** The notice a tenant is due when the job visits it. `lapses` says whether an expired trial is acted upon:
      no manual plan and no active subscription. */
  function DueNotice(tenantId: string, trialEndsAt: int, lapses: bool, now: int): Option<Notice> {
    if trialEndsAt <= now then if lapses then Some(Notice(Expired, tenantId, trialEndsAt, now)) else None
    else
      var days := DaysRemaining(trialEndsAt, now);
      if days == 3 || days == 1 then Some(Notice(Reminder(days), tenantId, trialEndsAt, now)) else None
  }

  datatype State = State(ks: Keyspace, emitted: seq<Notice>)

  datatype Visit = Visit(tenantId: string, trialEndsAt: int, lapses: bool, now: int)

  function Visited(prefix: string, st: State, v: Visit): State {
    var due := DueNotice(v.tenantId, v.trialEndsAt, v.lapses, v.now);
    if due.None? || Read(st.ks, DedupKey(prefix, due.value), v.now).Some? then st
    else State(st.ks[DedupKey(prefix, due.value) := Cell(Str("1"), Until(v.now, DEDUP_TTL_SECONDS))],
               st.emitted + [due.value])
  }

  function VisitedAll(prefix: string, st: State, vs: seq<Visit>): State {
    if |vs| == 0 then st else Visited(prefix, VisitedAll(prefix, st, vs[..|vs| - 1]), vs[|vs| - 1])
  }

  class TrialNotices {
    const redis: Redis.Store
    const keyBuilder: Redis.RedisKeyBuilder
    var emitted: seq<Notice>

    constructor (redis: Redis.Store, keyBuilder: Redis.RedisKeyBuilder)
      ensures this.redis == redis && this.keyBuilder == keyBuilder && emitted == []
    {
      this.redis := redis;
      this.keyBuilder := keyBuilder;
      emitted := [];
    }

    method HandleTrialReminder(tenantId: string, trialEndsAt: int, daysRemaining: int)
      requires keyBuilder.tenant.None? && (daysRemaining == 3 || daysRemaining == 1)
      modifies this`emitted, redis`cells
      ensures var n := Notice(Reminder(daysRemaining), tenantId, trialEndsAt, redis.now);
              var key := DedupKey(keyBuilder.prefix, n);
              if Read(old(redis.cells), key, redis.now).Some? then
                redis.cells == old(redis.cells) && emitted == old(emitted)
              else
                redis.cells == old(redis.cells)[key := Cell(Str("1"), Until(redis.now, DEDUP_TTL_SECONDS))]
                && emitted == old(emitted) + [n]
    {
      var date := Calendar.DateText(Calendar.Day(trialEndsAt));
      var dedupKey := keyBuilder.Build(["trial", "reminder", tenantId, if daysRemaining == 3 then "3" else "1", date]);
      var shouldEmit := redis.SetNx(dedupKey, Str("1"), DEDUP_TTL_SECONDS);
      if !shouldEmit {
        return;
      }
      emitted := emitted + [Notice(Reminder(daysRemaining), tenantId, trialEndsAt, redis.now)];
    }

    method EmitTrialExpired(tenantId: string, trialEndsAt: int)
      requires keyBuilder.tenant.None?
      modifies this`emitted, redis`cells
      ensures var n := Notice(Expired, tenantId, trialEndsAt, redis.now);
              var key := DedupKey(keyBuilder.prefix, n);
              if Read(old(redis.cells), key, redis.now).Some? then
                redis.cells == old(redis.cells) && emitted == old(emitted)
              else
                redis.cells == old(redis.cells)[key := Cell(Str("1"), Until(redis.now, DEDUP_TTL_SECONDS))]
                && emitted == old(emitted) + [n]
    {
      var date := Calendar.DateText(Calendar.Day(trialEndsAt));
      var dedupKey := keyBuilder.Build(["trial", "expired", tenantId, date]);
      var shouldEmit := redis.SetNx(dedupKey, Str("1"), DEDUP_TTL_SECONDS);
      if !shouldEmit {
        return;
      }
      emitted := emitted + [Notice(Expired, tenantId, trialEndsAt, redis.now)];
    }

    /** One tenant of the daily run. */
    method VisitTenant(tenantId: string, trialEndsAt: int, lapses: bool)
      requires keyBuilder.tenant.None?
      modifies this`emitted, redis`cells
      ensures State(redis.cells, emitted) ==
              Visited(keyBuilder.prefix, State(old(redis.cells), old(emitted)),
                      Visit(tenantId, trialEndsAt, lapses, redis.now))
    {
      hide DedupKey;
      var msRemaining := trialEndsAt - redis.now;
      if msRemaining <= 0 {
        if lapses {
          EmitTrialExpired(tenantId, trialEndsAt);
        }
        return;
      }
      var daysRemaining := DaysRemaining(trialEndsAt, redis.now);
      if daysRemaining in [3, 1] {
        HandleTrialReminder(tenantId, trialEndsAt, daysRemaining);
      }
    }
  }

  // ---------- Who gets notified, over every run

  /** Notices a subscriber cannot tell apart: same kind, tenant and end date. */
  predicate SameNotice(a: Notice, b: Notice) {
    a.kind == b.kind && a.tenantId == b.tenantId && EndDate(a) == EndDate(b)
  }

  predicate Clocked(vs: seq<Visit>) {
    && (forall i, j | 0 <= i < j < |vs| :: vs[i].now <= vs[j].now)
    && (forall i | 0 <= i < |vs| :: Segment(vs[i].tenantId))
  }

  lemma DateTextFree(d: int)
    ensures Segment(Calendar.DateText(d))
  {
    var c := Calendar.Civil(d);
    hide Calendar.Civil;
    Calendar.IsoLength(d);
    UsageCounters.DigitsOnly(if c.year < 0 then -c.year else c.year, 4);
    UsageCounters.DigitsOnly(if c.year < 0 then -c.year else c.year, 6);
    UsageCounters.DigitsOnly(c.month + 1, 2);
    UsageCounters.DigitsOnly(c.day, 2);
    assert Free(Calendar.IsoDatePart(d), ':');
  }

  /** Keys of genuine notices are equal exactly when the notices are the same. */
  lemma DedupKeyExactly(prefix: string, a: Notice, b: Notice)
    requires Segment(a.tenantId) && Segment(b.tenantId)
    requires (a.kind.Reminder? ==> a.kind.days in {1, 3}) && (b.kind.Reminder? ==> b.kind.days in {1, 3})
    ensures DedupKey(prefix, a) == DedupKey(prefix, b) <==> SameNotice(a, b)
  {
    DateTextFree(Calendar.Day(a.trialEndsAt));
    DateTextFree(Calendar.Day(b.trialEndsAt));
    hide Calendar.DateText;
    BuildDistinct(prefix, Pieces(a), Pieces(b));
    hide BuildKey;
    var x, y := Pieces(a), Pieces(b);
    if x == y {
      assert x[1] == y[1] && x[2] == y[2] && x[3] == y[3];
      assert a.kind.Reminder? ==> x[4] == y[4];
    }
  }

  predicate Genuine(n: Notice) {
    Segment(n.tenantId) && (n.kind.Reminder? ==> n.kind.days in {1, 3})
  }

  lemma DueIsGenuine(v: Visit)
    requires Segment(v.tenantId)
    ensures var due := DueNotice(v.tenantId, v.trialEndsAt, v.lapses, v.now);
            due.Some? ==> Genuine(due.value) && due.value.at == v.now
  {
  }

  /** Every emitted notice holds its key for 45 days, and every key stems from such a notice. */
  predicate Marked(prefix: string, st: State, now: int) {
    && (forall i | 0 <= i < |st.emitted| :: Genuine(st.emitted[i]) && st.emitted[i].at <= now)
    && (forall i | 0 <= i < |st.emitted| :: HoldsKey(prefix, st.ks, st.emitted[i]))
    && (forall key | key in st.ks :: Stems(prefix, st.emitted, key, st.ks[key]))
  }

  predicate HoldsKey(prefix: string, ks: Keyspace, n: Notice) {
    var key := DedupKey(prefix, n);
    key in ks && ks[key].expiresAt.Some? && ks[key].expiresAt.value >= n.at + DEDUP_TTL_MS
  }

  predicate Stems(prefix: string, emitted: seq<Notice>, key: string, cell: Cell) {
    exists i | 0 <= i < |emitted| ::
        DedupKey(prefix, emitted[i]) == key && cell.expiresAt == Some(emitted[i].at + DEDUP_TTL_MS)
  }

  lemma StemsStill(prefix: string, emitted: seq<Notice>, n: Notice, key: string, cell: Cell)
    requires Stems(prefix, emitted, key, cell)
    ensures Stems(prefix, emitted + [n], key, cell)
  {
    hide DedupKey;
    var i :| 0 <= i < |emitted| && DedupKey(prefix, emitted[i]) == key
        && cell.expiresAt == Some(emitted[i].at + DEDUP_TTL_MS);
    assert (emitted + [n])[i] == emitted[i];
  }

  function Claimed(prefix: string, ks: Keyspace, n: Notice): Keyspace {
    ks[DedupKey(prefix, n) := Cell(Str("1"), Some(n.at + DEDUP_TTL_MS))]
  }

  lemma HoldsStill(prefix: string, ks: Keyspace, n: Notice, e: Notice)
    requires HoldsKey(prefix, ks, e) && e.at <= n.at
    ensures HoldsKey(prefix, Claimed(prefix, ks, n), e)
  {
    hide DedupKey;
  }

  lemma HoldsNow(prefix: string, ks: Keyspace, n: Notice)
    ensures HoldsKey(prefix, Claimed(prefix, ks, n), n)
  {
    hide DedupKey;
  }

  lemma ClaimedStems(prefix: string, st: State, n: Notice, key: string)
    requires forall k | k in st.ks :: Stems(prefix, st.emitted, k, st.ks[k])
    requires key in Claimed(prefix, st.ks, n)
    ensures Stems(prefix, st.emitted + [n], key, Claimed(prefix, st.ks, n)[key])
  {
    hide DedupKey;
    if key == DedupKey(prefix, n) {
      assert (st.emitted + [n])[|st.emitted|] == n;
    } else {
      StemsStill(prefix, st.emitted, n, key, st.ks[key]);
    }
  }

  lemma MarkedSend(prefix: string, st: State, n: Notice, before: int)
    requires Marked(prefix, st, before) && before <= n.at && Genuine(n)
    ensures Marked(prefix, State(Claimed(prefix, st.ks, n), st.emitted + [n]), n.at)
  {
    hide DedupKey, HoldsKey, Stems, Genuine, Claimed;
    var after := st.emitted + [n];
    HoldsNow(prefix, st.ks, n);
    forall i | 0 <= i < |after|
      ensures HoldsKey(prefix, Claimed(prefix, st.ks, n), after[i]) && Genuine(after[i]) && after[i].at <= n.at
    {
      if i < |st.emitted| {
        HoldsStill(prefix, st.ks, n, st.emitted[i]);
      }
    }
    forall key | key in Claimed(prefix, st.ks, n) ensures Stems(prefix, after, key, Claimed(prefix, st.ks, n)[key]) {
      ClaimedStems(prefix, st, n, key);
    }
  }

  lemma VisitedSends(prefix: string, st: State, v: Visit)
    requires var due := DueNotice(v.tenantId, v.trialEndsAt, v.lapses, v.now);
             due.Some? && due.value.at == v.now && Read(st.ks, DedupKey(prefix, due.value), v.now).None?
    ensures var n := DueNotice(v.tenantId, v.trialEndsAt, v.lapses, v.now).value;
            Visited(prefix, st, v) == State(Claimed(prefix, st.ks, n), st.emitted + [n])
  {
    hide DedupKey, DueNotice;
  }

  lemma MarkedStep(prefix: string, st: State, v: Visit, before: int)
    requires Marked(prefix, st, before) && before <= v.now && Segment(v.tenantId)
    ensures Marked(prefix, Visited(prefix, st, v), v.now)
  {
    hide DedupKey, Genuine, DueNotice, Marked, Claimed;
    DueIsGenuine(v);
    var due := DueNotice(v.tenantId, v.trialEndsAt, v.lapses, v.now);
    if due.Some? && Read(st.ks, DedupKey(prefix, due.value), v.now).None? {
      MarkedSend(prefix, st, due.value, before);
      VisitedSends(prefix, st, v);
    } else {
      MarkedLater(prefix, st, before, v.now);
    }
  }

  lemma MarkedLater(prefix: string, st: State, now: int, later: int)
    requires Marked(prefix, st, now) && now <= later
    ensures Marked(prefix, st, later)
  {
    hide DedupKey, HoldsKey, Stems;
  }

  lemma MarkedStart(prefix: string, now: int)
    ensures Marked(prefix, State(map[], []), now)
  {
  }

  lemma {:induction false} MarkedAlways(prefix: string, vs: seq<Visit>, now: int)
    requires Clocked(vs) && forall i | 0 <= i < |vs| :: vs[i].now <= now
    ensures Marked(prefix, VisitedAll(prefix, State(map[], []), vs), now)
  {
    hide Visited, Marked;
    if |vs| > 0 {
      var n := |vs| - 1;
      MarkedAlways(prefix, vs[..n], vs[n].now);
      MarkedStep(prefix, VisitedAll(prefix, State(map[], []), vs[..n]), vs[n], vs[n].now);
      MarkedLater(prefix, VisitedAll(prefix, State(map[], []), vs), vs[n].now, now);
    } else {
      MarkedStart(prefix, now);
    }
  }

  /** The notice was sent within the last 45 days. */
  predicate SentRecently(st: State, n: Notice) {
    exists i | 0 <= i < |st.emitted| :: SameNotice(st.emitted[i], n) && n.at < st.emitted[i].at + DEDUP_TTL_MS
  }

  /** The key of a notice is live exactly when the notice was sent recently. */
  lemma LiveExactly(prefix: string, st: State, n: Notice)
    requires Marked(prefix, st, n.at) && Genuine(n)
    ensures Live(st.ks, DedupKey(prefix, n), n.at) <==> SentRecently(st, n)
  {
    hide DedupKey, SameNotice;
    if SentRecently(st, n) {
      var i :| 0 <= i < |st.emitted| && SameNotice(st.emitted[i], n) && n.at < st.emitted[i].at + DEDUP_TTL_MS;
      DedupKeyExactly(prefix, st.emitted[i], n);
      assert HoldsKey(prefix, st.ks, st.emitted[i]);
    }
    if Live(st.ks, DedupKey(prefix, n), n.at) {
      var key := DedupKey(prefix, n);
      var i :| 0 <= i < |st.emitted| && DedupKey(prefix, st.emitted[i]) == key
          && st.ks[key].expiresAt == Some(st.emitted[i].at + DEDUP_TTL_MS);
      DedupKeyExactly(prefix, st.emitted[i], n);
    }
  }

  /** After any run, a visit sends the notice that is due exactly when the same notice was not sent within the
      last 45 days: nothing is sent twice too soon, and no notice keeps another one back. */
  lemma NotifiesExactly(prefix: string, vs: seq<Visit>, v: Visit)
    requires Clocked(vs + [v])
    ensures var st := VisitedAll(prefix, State(map[], []), vs);
            var due := DueNotice(v.tenantId, v.trialEndsAt, v.lapses, v.now);
            Visited(prefix, st, v).emitted ==
            if due.Some? && !SentRecently(st, due.value) then st.emitted + [due.value] else st.emitted
  {
    hide VisitedAll, Marked, DedupKey, SentRecently;
    assert forall i | 0 <= i < |vs| :: (vs + [v])[i] == vs[i];
    assert (vs + [v])[|vs|] == v;
    MarkedAlways(prefix, vs, v.now);
    DueIsGenuine(v);
    hide Genuine, DueNotice;
    var st := VisitedAll(prefix, State(map[], []), vs);
    var due := DueNotice(v.tenantId, v.trialEndsAt, v.lapses, v.now);
    if due.Some? {
      LiveExactly(prefix, st, due.value);
    }
  }

  // ---------- Reminders go out once

  lemma DayPart(d: int)
    requires 0 <= Calendar.Civil(d).year <= 9999
    ensures Calendar.DateText(d)[8..] == Calendar.Pad(Calendar.Civil(d).day, 2)
    ensures Calendar.DateText(d)[..7] == Calendar.MonthText(d)
  {
    Calendar.MonthTextOf(d);
    var c := Calendar.Civil(d);
    hide Calendar.Civil, Calendar.DateText;
    Calendar.TwoDigits(c.day);
    Calendar.TwoDigits(c.month + 1);
    Calendar.YearTextShape(c.year);
    hide Calendar.Pad;
    var head := Calendar.Pad(c.year, 4) + "-" + Calendar.Pad(c.month + 1, 2) + "-";
    assert |head| == 8 && Calendar.IsoDatePart(d) == head + Calendar.Pad(c.day, 2);
  }

  lemma DateTextInjective(a: int, b: int)
    requires 0 <= Calendar.Civil(a).year <= 9999 && 0 <= Calendar.Civil(b).year <= 9999
    requires Calendar.DateText(a) == Calendar.DateText(b)
    ensures a == b
  {
    hide Calendar.Civil, Calendar.DateText, Calendar.MonthText, Calendar.Pad;
    DayPart(a);
    DayPart(b);
    Calendar.MonthTextInjective(a, b);
    Calendar.PadValue(Calendar.Civil(a).day, 2);
    Calendar.PadValue(Calendar.Civil(b).day, 2);
    assert Calendar.DayOf(Calendar.Civil(a)) == a && Calendar.DayOf(Calendar.Civil(b)) == b;
  }

  predicate FourDigitYear(t: int) {
    0 <= Calendar.Civil(Calendar.Day(t)).year <= 9999
  }

  /** Reminders of one number of days about one end date are at most two days apart. */
  lemma RemindersAreClose(v: Visit, w: Visit)
    requires v.now < v.trialEndsAt && w.now < w.trialEndsAt
             && Calendar.Day(v.trialEndsAt) == Calendar.Day(w.trialEndsAt)
    requires DaysRemaining(v.trialEndsAt, v.now) == DaysRemaining(w.trialEndsAt, w.now)
    ensures v.now < w.now + 2 * Calendar.MS_PER_DAY
  {
    Calendar.DayBounds(v.trialEndsAt);
    Calendar.DayBounds(w.trialEndsAt);
    CeilingBounds(v.trialEndsAt, v.now);
    CeilingBounds(w.trialEndsAt, w.now);
  }

  lemma CeilingBounds(end: int, now: int)
    requires now < end
    ensures Calendar.MS_PER_DAY * (DaysRemaining(end, now) - 1) <
            end - now <= Calendar.MS_PER_DAY * DaysRemaining(end, now)
  {
    var x := end - now + Calendar.MS_PER_DAY - 1;
    assert x == Calendar.MS_PER_DAY * (x / Calendar.MS_PER_DAY) + x % Calendar.MS_PER_DAY;
  }

  /** Emitted reminders were due at their own instant. */
  predicate WasDue(n: Notice) {
    n.kind.Reminder? ==>
      n.at < n.trialEndsAt && DaysRemaining(n.trialEndsAt, n.at) == n.kind.days && FourDigitYear(n.trialEndsAt)
  }

  lemma {:induction false} EmittedWereDue(prefix: string, vs: seq<Visit>)
    requires forall i | 0 <= i < |vs| :: FourDigitYear(vs[i].trialEndsAt)
    ensures forall i | 0 <= i < |VisitedAll(prefix, State(map[], []), vs).emitted| ::
              WasDue(VisitedAll(prefix, State(map[], []), vs).emitted[i])
  {
    hide FourDigitYear, DedupKey;
    if |vs| > 0 {
      EmittedWereDue(prefix, vs[..|vs| - 1]);
    }
  }

  lemma NotLongAgo(e: Notice, v: Visit)
    requires WasDue(e) && v.now < v.trialEndsAt && FourDigitYear(v.trialEndsAt)
    requires var due := DueNotice(v.tenantId, v.trialEndsAt, v.lapses, v.now); due.Some? && SameNotice(e, due.value)
    ensures v.now < e.at + DEDUP_TTL_MS && DueNotice(v.tenantId, v.trialEndsAt, v.lapses, v.now).value.at == v.now
  {
    hide Calendar.DateText, Calendar.Day, Calendar.Civil, DaysRemaining;
    DateTextInjective(Calendar.Day(e.trialEndsAt), Calendar.Day(v.trialEndsAt));
    RemindersAreClose(v, Visit(e.tenantId, e.trialEndsAt, true, e.at));
  }

  /** In every run each reminder is sent at most once: a due reminder goes out exactly when the run has not sent
      it before. */
  lemma RemindsOnce(prefix: string, vs: seq<Visit>, v: Visit)
    requires Clocked(vs + [v]) && forall i | 0 <= i <= |vs| :: FourDigitYear((vs + [v])[i].trialEndsAt)
    requires v.now < v.trialEndsAt
    ensures var st := VisitedAll(prefix, State(map[], []), vs);
            var due := DueNotice(v.tenantId, v.trialEndsAt, v.lapses, v.now);
            Visited(prefix, st, v).emitted ==
            if due.Some? && (forall i | 0 <= i < |st.emitted| :: !SameNotice(st.emitted[i], due.value))
            then st.emitted + [due.value] else st.emitted
  {
    assert forall i | 0 <= i < |vs| :: (vs + [v])[i] == vs[i];
    assert (vs + [v])[|vs|] == v;
    NotifiesExactly(prefix, vs, v);
    EmittedWereDue(prefix, vs);
    var st := VisitedAll(prefix, State(map[], []), vs);
    var due := DueNotice(v.tenantId, v.trialEndsAt, v.lapses, v.now);
    hide VisitedAll, Visited, SameNotice, WasDue, FourDigitYear, DueNotice;
    if due.Some? {
      forall i | 0 <= i < |st.emitted| && SameNotice(st.emitted[i], due.value)
        ensures due.value.at < st.emitted[i].at + DEDUP_TTL_MS
      {
        assert WasDue(st.emitted[i]);
        NotLongAgo(st.emitted[i], v);
      }
    }
  }

  // ---------- Which notices have gone out

  /** The visit falls into the day the notice belongs to: the third or the last day before the end of the trial,
      or any time from the end on if the trial lapses. */
  predicate CallsFor(v: Visit, n: Notice) {
    var left := v.trialEndsAt - v.now;
    && v.tenantId == n.tenantId && Calendar.DateText(Calendar.Day(v.trialEndsAt)) == EndDate(n)
    && match n.kind
       case Reminder(days) =>
         (days - 1) * Calendar.MS_PER_DAY < left <= days * Calendar.MS_PER_DAY
       case Expired => left <= 0 && v.lapses
  }

  /** Rounded up, the days left are the day before the end that the visit falls into. */
  lemma DaysLeftExactly(v: Visit, days: int)
    requires v.now < v.trialEndsAt
    ensures DaysRemaining(v.trialEndsAt, v.now) == days <==>
            (days - 1) * Calendar.MS_PER_DAY < v.trialEndsAt - v.now <= days * Calendar.MS_PER_DAY
  {
    CeilingBounds(v.trialEndsAt, v.now);
    hide DaysRemaining;
  }

  lemma DueExactly(v: Visit, n: Notice)
    requires Genuine(n)
    ensures CallsFor(v, n) <==>
            var due := DueNotice(v.tenantId, v.trialEndsAt, v.lapses, v.now); due.Some? && SameNotice(due.value, n)
  {
    hide DaysRemaining, Calendar.DateText, Calendar.Day;
    if v.now < v.trialEndsAt {
      DaysLeftExactly(v, 1);
      DaysLeftExactly(v, 3);
    }
  }

  predicate Emitted(emitted: seq<Notice>, n: Notice) {
    exists i | 0 <= i < |emitted| :: SameNotice(emitted[i], n)
  }

  predicate CalledFor(vs: seq<Visit>, n: Notice) {
    exists k | 0 <= k < |vs| :: CallsFor(vs[k], n)
  }

  lemma CalledForSplit(vs: seq<Visit>, n: Notice)
    requires |vs| > 0
    ensures CalledFor(vs, n) <==> CalledFor(vs[..|vs| - 1], n) || CallsFor(vs[|vs| - 1], n)
  {
    hide CallsFor;
    assert forall k | 0 <= k < |vs| - 1 :: vs[..|vs| - 1][k] == vs[k];
  }

  lemma EmittedMore(emitted: seq<Notice>, e: Notice, n: Notice)
    ensures Emitted(emitted + [e], n) <==> Emitted(emitted, n) || SameNotice(e, n)
  {
    hide SameNotice;
    assert forall i | 0 <= i < |emitted| :: (emitted + [e])[i] == emitted[i];
    assert (emitted + [e])[|emitted|] == e;
  }

  lemma SameAsSame(a: Notice, b: Notice, n: Notice)
    requires SameNotice(a, b)
    ensures SameNotice(a, n) <==> SameNotice(b, n)
  {
    hide EndDate;
  }

  /** In every run, a notice has gone out exactly if the job visited its tenant in the time it is for: no visit in
      that time goes by without it, and it goes out at no other time. */
  lemma {:induction false} GoesOutExactly(prefix: string, vs: seq<Visit>, n: Notice)
    requires Clocked(vs) && Genuine(n)
    ensures Emitted(VisitedAll(prefix, State(map[], []), vs).emitted, n) <==> CalledFor(vs, n)
  {
    hide Visited, CallsFor, SameNotice, Genuine, DueNotice, CalledFor, Emitted;
    if |vs| == 0 {
      NoneOut(n);
    } else {
      var before, v := vs[..|vs| - 1], vs[|vs| - 1];
      var st := VisitedAll(prefix, State(map[], []), before);
      assert vs == before + [v];
      GoesOutExactly(prefix, before, n);
      NotifiesExactly(prefix, before, v);
      CalledForSplit(vs, n);
      DueExactly(v, n);
      var due := DueNotice(v.tenantId, v.trialEndsAt, v.lapses, v.now);
      if due.Some? {
        EmittedMore(st.emitted, due.value, n);
        if SentRecently(st, due.value) {
          var i :| 0 <= i < |st.emitted| && SameNotice(st.emitted[i], due.value)
              && due.value.at < st.emitted[i].at + DEDUP_TTL_MS;
          SameAsSame(st.emitted[i], due.value, n);
          EmittedAt(st.emitted, i, n);
        }
      }
    }
  }

  lemma NoneOut(n: Notice)
    ensures !Emitted([], n) && !CalledFor([], n)
  {
  }

  lemma EmittedAt(emitted: seq<Notice>, i: nat, n: Notice)
    requires i < |emitted|
    ensures SameNotice(emitted[i], n) ==> Emitted(emitted, n)
  {
    hide SameNotice;
  }
}
