/** What a locked tenant has behind it, over every interleaving of the jobs that read and write its row. */
module UnpaidTenants {
  import opened Wrappers
  import opened BillingModel
  import opened PaymentSteps
  import Billing
  import Calendar

  // ---------- Rows come from readings

  /** The reading is the row as it stood after the first `since` steps, taken by the query that came next. */
  predicate ReadingHolds(steps: seq<Step>, id: string, r: Reading) {
    && r.since < |steps|
    && id in Run(steps[..r.since]).tenants && r.row == Run(steps[..r.since]).tenants[id]
    && steps[r.since].Query? && steps[r.since].now == r.at && steps[r.since].job == r.job
  }

  lemma ReadingStays(steps: seq<Step>, id: string, r: Reading)
    requires |steps| > 0 && ReadingHolds(steps[..|steps| - 1], id, r)
    ensures ReadingHolds(steps, id, r)
  {
    hide Run;
    assert steps[..|steps| - 1][..r.since] == steps[..r.since];
  }

  lemma ReadingStep(st: State, s: Step, t: Ticket)
    requires t in Next(st, s).readings
    ensures if t in st.readings then Next(st, s).readings[t] == st.readings[t]
            else
              s.Query? && t.id in st.tenants
              && Next(st, s).readings[t] == Reading(s.job, st.tenants[t.id], s.now, st.taken)
  {
    hide Written;
  }

  lemma {:induction false} Readings(steps: seq<Step>)
    ensures Run(steps).taken == |steps|
    ensures forall t | t in Run(steps).readings :: ReadingHolds(steps, t.id, Run(steps).readings[t])
  {
    if |steps| > 0 {
      var n := |steps| - 1;
      Readings(steps[..n]);
      assert Run(steps) == Next(Run(steps[..n]), steps[n]);
      hide Run, Effect;
      forall t | t in Run(steps).readings ensures ReadingHolds(steps, t.id, Run(steps).readings[t]) {
        ReadingStep(Run(steps[..n]), steps[n], t);
        if t in Run(steps[..n]).readings {
          ReadingStays(steps, t.id, Run(steps).readings[t]);
        }
      }
    }
  }

  lemma PrefixRun(steps: seq<Step>, m: nat, j: nat)
    requires j <= m <= |steps|
    ensures steps[..m][..j] == steps[..j]
    ensures j < m ==> steps[..m][j] == steps[j]
  {
  }

  lemma PrefixSame(steps: seq<Step>, id: string, m: nat, j: nat)
    requires j < m <= |steps|
    ensures WritesAt(steps[..m], id, j) == WritesAt(steps, id, j)
    ensures Finishes(steps[..m], id, j) == Finishes(steps, id, j)
    ensures WritesAt(steps, id, j) || Finishes(steps, id, j) ==> ReadingAt(steps[..m], id, j) == ReadingAt(steps, id, j)
  {
    hide Run, Writes;
    PrefixRun(steps, m, j);
  }

  lemma LastWriteIs(steps: seq<Step>, id: string, j: nat)
    requires WritesAt(steps, id, j) && forall i: nat | j < i < |steps| :: !WritesAt(steps, id, i)
    ensures LastWrite(steps, id) == Some(j)
  {
    hide Run, Writes;
    var k := LastWrite(steps, id);
    assert k.Some? ==> k.value <= j;
  }

  lemma LastWritePrefix(steps: seq<Step>, id: string, m: nat)
    requires m <= |steps| && LastWrite(steps, id).Some? && LastWrite(steps, id).value < m
    ensures LastWrite(steps[..m], id) == LastWrite(steps, id)
  {
    var j := LastWrite(steps, id).value;
    var prefix := steps[..m];
    hide WritesAt, LastWrite;
    forall i: nat | i < m ensures WritesAt(prefix, id, i) == WritesAt(steps, id, i) {
      PrefixSame(steps, id, m, i);
    }
    LastWriteIs(prefix, id, j);
  }

  /** Between two saves a row does not change; before the first it is that of a tenant just registered. */
  predicate RowIsLastWrite(steps: seq<Step>, id: string) {
    var j := LastWrite(steps, id);
    if j.Some? then
      id in Run(steps).tenants
      && Some(Run(steps).tenants[id]) == Written(ReadingAt(steps, id, j.value), steps[j.value].now)
    else
      id in Run(steps).tenants ==>
        Run(steps).tenants[id].paymentStatus == PaymentActive && Run(steps).tenants[id].changedAt.None?
  }

  lemma RowStep(st: State, s: Step, id: string)
    ensures id in st.tenants ==> id in Next(st, s).tenants
    ensures !Writes(st, s, id) && id in st.tenants ==> Next(st, s).tenants[id] == st.tenants[id]
    ensures !Writes(st, s, id) && id !in st.tenants && id in Next(st, s).tenants ==>
              Next(st, s).tenants[id].paymentStatus == PaymentActive && Next(st, s).tenants[id].changedAt.None?
    ensures Writes(st, s, id) ==>
              && id in Next(st, s).tenants
              && Some(Next(st, s).tenants[id]) == Written(st.readings[Ticket(s.tx, id)], s.now)
  {
    hide Written;
  }

  lemma {:induction false} RowsAreWritten(steps: seq<Step>, id: string)
    ensures RowIsLastWrite(steps, id)
  {
    if |steps| > 0 {
      var n := |steps| - 1;
      RowsAreWritten(steps[..n], id);
      RowStep(Run(steps[..n]), steps[n], id);
      assert Run(steps) == Next(Run(steps[..n]), steps[n]);
      var j := LastWrite(steps, id);
      if j.Some? && j.value < n {
        LastWritePrefix(steps, id, n);
        PrefixSame(steps, id, n, j.value);
        hide Run, Written, LastWrite, Writes;
        assert ReadingAt(steps[..n], id, j.value) == ReadingAt(steps, id, j.value);
      } else if j.None? {
        NoWritePrefix(steps, id);
      }
    }
  }

  lemma NoWritePrefix(steps: seq<Step>, id: string)
    requires |steps| > 0 && LastWrite(steps, id).None?
    ensures LastWrite(steps[..|steps| - 1], id).None?
  {
    PrefixWrites(steps, id);
    hide WritesAt, LastWrite;
    var k := LastWrite(steps[..|steps| - 1], id);
  }

  // ---------- Where a status comes from

  predicate Copies(job: Job) {
    job.Escalation? || job.Edit?
  }

  /** The save of a failed invoice that the tenant's present row goes back to, through the readings of the saves
      after it. */
  function MoveOf(steps: seq<Step>, id: string): Option<nat>
    decreases |steps|
  {
    var j := LastWrite(steps, id);
    if j.None? then None
    else
      var r := ReadingAt(steps, id, j.value);
      if r.job == FailedInvoice then j
      else if Copies(r.job) && r.since < j.value then MoveOf(steps[..r.since], id)
      else None
  }

  /** Save `j` is on the way to the tenant's present row. */
  predicate Leads(steps: seq<Step>, id: string, j: nat)
    decreases |steps|
  {
    var last := LastWrite(steps, id);
    && last.Some?
    && (last.value == j
        || (var r := ReadingAt(steps, id, last.value);
            Copies(r.job) && r.since < last.value && Leads(steps[..r.since], id, j)))
  }

  /** How long after the move to past due each status is entered at the earliest. */
  function Delay(p: PaymentStatus): int {
    match p
    case PaymentActive => 0
    case PastDue => 0
    case Restricted => Billing.PAST_DUE_TO_RESTRICTED_MS
    case PaymentLocked => Billing.PAST_DUE_TO_RESTRICTED_MS + Billing.RESTRICTED_TO_LOCKED_MS
  }

  predicate Timed(s: Step) {
    s.Query? || s.Save?
  }

  predicate ClockShown(steps: seq<Step>, at: int) {
    exists q | 0 <= q < |steps| :: Timed(steps[q]) && steps[q].now == at
  }

  /** A row that is not active descends from a failed invoice, and its date keeps the distance its status needs. */
  predicate Descends(steps: seq<Step>, id: string) {
    id in Run(steps).tenants ==>
      var t := Run(steps).tenants[id];
      && (t.changedAt.Some? ==> ClockShown(steps, t.changedAt.value))
      && (t.paymentStatus != PaymentActive ==>
            var k := MoveOf(steps, id);
            && k.Some? && WritesAt(steps, id, k.value) && ReadingAt(steps, id, k.value).job == FailedInvoice
            && t.changedAt.Some? && steps[k.value].now + Delay(t.paymentStatus) <= t.changedAt.value)
  }

  lemma WrittenFrom(r: Reading, now: int)
    requires Written(r, now).Some?
    ensures var row := Written(r, now).value;
            && (row.changedAt.Some? ==> row.changedAt == r.row.changedAt || row.changedAt.value in {now, r.at})
            && (Copies(r.job) && row.paymentStatus != PaymentActive ==>
                  && r.row.paymentStatus != PaymentActive
                  && (r.row.changedAt.Some? ==>
                        && row.changedAt.Some?
                        && row.changedAt.value - Delay(row.paymentStatus)
                           >= r.row.changedAt.value - Delay(r.row.paymentStatus)))
            && (r.job == FailedInvoice ==> row.paymentStatus == PastDue && row.changedAt == Some(now))
            && (r.job == PaidInvoice ==> row.paymentStatus == PaymentActive)
  {
  }

  lemma ClockStays(steps: seq<Step>, m: nat, at: int)
    requires m <= |steps| && ClockShown(steps[..m], at)
    ensures ClockShown(steps, at)
  {
    var q :| 0 <= q < m && Timed(steps[..m][q]) && steps[..m][q].now == at;
    assert steps[q].now == at;
  }

  lemma {:induction false} AllDescend(steps: seq<Step>, id: string)
    ensures Descends(steps, id)
    decreases |steps|
  {
    RowsAreWritten(steps, id);
    var last := LastWrite(steps, id);
    if last.Some? {
      var j := last.value;
      var r := ReadingAt(steps, id, j);
      Readings(steps[..j]);
      PrefixRun(steps, j, r.since);
      AllDescend(steps[..r.since], id);
      WrittenFrom(r, steps[j].now);
      assert WritesAt(steps, id, j);
      assert Timed(steps[j]) && Timed(steps[r.since]) && steps[r.since].now == r.at;
      hide Written, LastWrite, Run, Delay;
      var t := Run(steps).tenants[id];
      if t.changedAt.Some? && t.changedAt == r.row.changedAt {
        ClockStays(steps, r.since, t.changedAt.value);
      }
      if t.paymentStatus != PaymentActive && Copies(r.job) {
        PrefixSame(steps, id, r.since, MoveOf(steps[..r.since], id).value);
      }
    }
  }

  // ---------- Payments that come across

  /** A paid invoice is handled between the reading and the save of `j`, or `j` is saved between the reading and the
      end of the handling of the invoice. */
  predicate Overlap(steps: seq<Step>, id: string, j: nat, s: nat)
    requires WritesAt(steps, id, j) && Finishes(steps, id, s)
  {
    var r := ReadingAt(steps, id, j);
    (Copies(r.job) && r.since < s < j) || ReadingAt(steps, id, s).since < j < s
  }

  predicate OverlapOnTheWay(steps: seq<Step>, id: string, j: nat, s: nat) {
    Leads(steps, id, j) && WritesAt(steps, id, j) && Finishes(steps, id, s) && Overlap(steps, id, j, s)
  }

  /** Some save on the way to the present row overlaps the handling of a paid invoice of the tenant. */
  predicate PaidAcross(steps: seq<Step>, id: string) {
    exists j: nat, s: nat | j < |steps| && s < |steps| :: OverlapOnTheWay(steps, id, j, s)
  }

  predicate PaidAfter(steps: seq<Step>, id: string, k: nat) {
    exists s: nat | s < |steps| :: k < s && Finishes(steps, id, s)
  }

  lemma LeadsAlong(steps: seq<Step>, id: string, since: nat, j: nat)
    requires LastWrite(steps, id).Some? && since < LastWrite(steps, id).value
    requires var r := ReadingAt(steps, id, LastWrite(steps, id).value); Copies(r.job) && r.since == since
    requires Leads(steps[..since], id, j)
    ensures Leads(steps, id, j)
  {
  }

  lemma {:induction false} LeadsAfterMove(steps: seq<Step>, id: string, j: nat)
    requires MoveOf(steps, id).Some? && Leads(steps, id, j)
    ensures WritesAt(steps, id, j) && MoveOf(steps, id).value <= j
    ensures Copies(ReadingAt(steps, id, j).job) ==> MoveOf(steps, id).value < ReadingAt(steps, id, j).since
    decreases |steps|
  {
    var last := LastWrite(steps, id).value;
    var r := ReadingAt(steps, id, last);
    hide Written, Run, Writes;
    if r.job != FailedInvoice {
      MoveBefore(steps[..r.since], id);
      if last != j {
        LeadsAfterMove(steps[..r.since], id, j);
        PrefixSame(steps, id, r.since, j);
      }
    }
  }

  lemma {:induction false} MoveBefore(steps: seq<Step>, id: string)
    requires MoveOf(steps, id).Some?
    ensures MoveOf(steps, id).value < |steps|
    decreases |steps|
  {
    var r := ReadingAt(steps, id, LastWrite(steps, id).value);
    hide Written, Run, Writes;
    if r.job != FailedInvoice {
      MoveBefore(steps[..r.since], id);
    }
  }

  lemma AcrossIsAfter(steps: seq<Step>, id: string, j: nat, s: nat)
    requires MoveOf(steps, id).Some? && OverlapOnTheWay(steps, id, j, s)
    ensures MoveOf(steps, id).value < s
  {
    LeadsAfterMove(steps, id, j);
    hide Leads, MoveOf, Run, Writes, Written;
  }

  /** A payment that saves nothing found the tenant active. */
  lemma IdlePayment(steps: seq<Step>, id: string, s: nat)
    requires Finishes(steps, id, s) && !WritesAt(steps, id, s)
    ensures ReadingAt(steps, id, s).row.paymentStatus == PaymentActive
  {
  }

  /** A row that nothing saves between two moments is the same at both. */
  lemma SameRow(steps: seq<Step>, id: string, m: nat)
    requires m <= |steps| && LastWrite(steps, id).Some? && LastWrite(steps, id).value < m
    ensures id in Run(steps[..m]).tenants && id in Run(steps).tenants
            && Run(steps[..m]).tenants[id] == Run(steps).tenants[id]
  {
    RowsAreWritten(steps, id);
    RowsAreWritten(steps[..m], id);
    LastWritePrefix(steps, id, m);
    PrefixSame(steps, id, m, LastWrite(steps, id).value);
    hide Run, Written, LastWrite, WritesAt;
  }

  /** A save completes a query that came before it. */
  lemma ReadBefore(steps: seq<Step>, id: string, j: nat)
    requires WritesAt(steps, id, j) || Finishes(steps, id, j)
    ensures var r := ReadingAt(steps, id, j);
            && r.since < j && steps[r.since].Query? && steps[j].Save?
            && id in Run(steps[..r.since]).tenants && r.row == Run(steps[..r.since]).tenants[id]
  {
    Readings(steps[..j]);
    var r := ReadingAt(steps, id, j);
    assert ReadingHolds(steps[..j], id, r);
    hide Run, Written;
    PrefixRun(steps, j, r.since);
  }

  /** After the last save, only a payment that read the row before it can end without a save. */
  lemma PaidPastLastWrite(steps: seq<Step>, id: string, s: nat)
    requires LastWrite(steps, id).Some? && LastWrite(steps, id).value < s && Finishes(steps, id, s)
    requires id in Run(steps).tenants && Run(steps).tenants[id].paymentStatus != PaymentActive
    ensures ReadingAt(steps, id, s).since < LastWrite(steps, id).value
  {
    hide Run, Written, Writes;
    var j := LastWrite(steps, id).value;
    var p := ReadingAt(steps, id, s);
    IdlePayment(steps, id, s);
    ReadBefore(steps, id, j);
    ReadBefore(steps, id, s);
    hide LastWrite, Finishes, WritesAt;
    if j < p.since {
      SameRow(steps, id, p.since);
    }
  }

  lemma AcrossEarlier(steps: seq<Step>, id: string, since: nat, s: nat)
    requires LastWrite(steps, id).Some? && since < LastWrite(steps, id).value && s < since
    requires var r := ReadingAt(steps, id, LastWrite(steps, id).value); Copies(r.job) && r.since == since
    requires exists j: nat | j < since :: OverlapOnTheWay(steps[..since], id, j, s)
    ensures exists j: nat | j < |steps| :: OverlapOnTheWay(steps, id, j, s)
  {
    var j: nat :| j < since && OverlapOnTheWay(steps[..since], id, j, s);
    PrefixSame(steps, id, since, j);
    PrefixSame(steps, id, since, s);
    LeadsAlong(steps, id, since, j);
    hide Leads, Run, Writes, Written;
    assert OverlapOnTheWay(steps, id, j, s);
  }

  lemma SameStep(steps: seq<Step>, id: string, j: nat, s: nat)
    requires WritesAt(steps, id, j) && Finishes(steps, id, s) && ReadingAt(steps, id, j).job != PaidInvoice
    ensures j != s
  {
  }

  lemma WrittenAtLast(steps: seq<Step>, id: string)
    requires LastWrite(steps, id).Some? && RowIsLastWrite(steps, id)
    requires Run(steps).tenants[id].paymentStatus != PaymentActive
    ensures var r := ReadingAt(steps, id, LastWrite(steps, id).value);
            r.job != PaidInvoice && (Copies(r.job) ==> r.row.paymentStatus != PaymentActive)
  {
    var j := LastWrite(steps, id).value;
    assert WritesAt(steps, id, j);
    WrittenFrom(ReadingAt(steps, id, j), steps[j].now);
    hide Written, Run, LastWrite;
  }

  lemma {:induction false} AfterIsAcross(steps: seq<Step>, id: string, s: nat)
    requires id in Run(steps).tenants && Run(steps).tenants[id].paymentStatus != PaymentActive
    requires MoveOf(steps, id).Some? && MoveOf(steps, id).value < s && Finishes(steps, id, s)
    ensures exists j: nat | j < |steps| :: OverlapOnTheWay(steps, id, j, s)
    decreases |steps|
  {
    hide Run, Written, Writes, Finishes;
    var j := LastWrite(steps, id).value;
    var r := ReadingAt(steps, id, j);
    RowsAreWritten(steps, id);
    WrittenAtLast(steps, id);
    ReadBefore(steps, id, j);
    ReadBefore(steps, id, s);
    if j < s {
      PaidPastLastWrite(steps, id, s);
      hide LastWrite, MoveOf;
      assert OverlapOnTheWay(steps, id, j, s);
    } else if r.since < s {
      SameStep(steps, id, j, s);
      assert OverlapOnTheWay(steps, id, j, s);
    } else {
      PrefixSame(steps, id, r.since, s);
      AfterIsAcross(steps[..r.since], id, s);
      hide LastWrite, MoveOf, WritesAt;
      AcrossEarlier(steps, id, r.since, s);
    }
  }

  // ---------- Locked tenants

  /** The clock does not run backwards. */
  predicate Monotone(steps: seq<Step>) {
    forall i, j | 0 <= i < j < |steps| && Timed(steps[i]) && Timed(steps[j]) :: steps[i].now <= steps[j].now
  }

  /** The latest clock reading of a run. */
  function LastInstant(steps: seq<Step>): int {
    if |steps| == 0 then 0
    else if Timed(steps[|steps| - 1]) then steps[|steps| - 1].now
    else LastInstant(steps[..|steps| - 1])
  }

  lemma {:induction false} ShownByThen(steps: seq<Step>, at: int)
    requires Monotone(steps) && ClockShown(steps, at)
    ensures at <= LastInstant(steps)
  {
    var q :| 0 <= q < |steps| && Timed(steps[q]) && steps[q].now == at;
    var n := |steps| - 1;
    if !Timed(steps[n]) {
      assert steps[..n][q].now == at;
      ShownByThen(steps[..n], at);
    }
  }

  /** In every run, a locked tenant goes back to a failed invoice that moved it to past due at least 21 days ago. An
      invoice of the tenant was paid after that move exactly when the handling of some paid invoice overlaps a save
      on the way from the move to the lock. */
  lemma LockedMeansUnpaidExactly(steps: seq<Step>, id: string)
    requires Monotone(steps) && id in Run(steps).tenants && Run(steps).tenants[id].paymentStatus == PaymentLocked
    ensures var k := MoveOf(steps, id);
            && k.Some? && WritesAt(steps, id, k.value) && ReadingAt(steps, id, k.value).job == FailedInvoice
            && steps[k.value].now + 21 * Calendar.MS_PER_DAY <= LastInstant(steps)
            && (PaidAfter(steps, id, k.value) <==> PaidAcross(steps, id))
  {
    AllDescend(steps, id);
    ShownByThen(steps, Run(steps).tenants[id].changedAt.value);
    assert Delay(PaymentLocked) == 21 * Calendar.MS_PER_DAY;
    var k := MoveOf(steps, id).value;
    if PaidAfter(steps, id, k) {
      var s: nat :| s < |steps| && k < s && Finishes(steps, id, s);
      AfterIsAcross(steps, id, s);
    }
    if PaidAcross(steps, id) {
      var j: nat, s: nat :| j < |steps| && s < |steps| && OverlapOnTheWay(steps, id, j, s);
      AcrossIsAfter(steps, id, j, s);
    }
  }

  // ---------- The lock that follows a payment

  const WEEK := 7 * Calendar.MS_PER_DAY

  /** Escalation reads a tenant that is due to be locked, its invoice is paid, and the row that was read is saved. */
  const OVERTAKEN: seq<Step> := [
    Register("t", None),
    Query(0, FailedInvoice, {"t"}, 0), Save(0, "t", 0),
    Query(1, Escalation, {"t"}, WEEK), Save(1, "t", WEEK),
    Query(2, Escalation, {"t"}, 3 * WEEK),
    Query(3, PaidInvoice, {"t"}, 3 * WEEK), Save(3, "t", 3 * WEEK),
    Save(2, "t", 3 * WEEK)]

  /** The one row, the readings and the tickets of unannounced changes after `k` steps. */
  predicate Stage(steps: seq<Step>, k: nat, id: string, row: Billing.Tenant, readings: map<Ticket, Reading>,
      tickets: map<Ticket, nat>)
    requires k <= |steps|
  {
    var st := Run(steps[..k]);
    st.taken == k && st.tenants == map[id := row] && st.readings == readings
    && st.unannounced.Keys == tickets.Keys && forall t | t in tickets :: st.unannounced[t].saved == tickets[t]
  }

  lemma RunTo(steps: seq<Step>, k: nat)
    requires k < |steps|
    ensures Run(steps[..k + 1]) == Next(Run(steps[..k]), steps[k])
  {
    assert steps[..k + 1][..k] == steps[..k];
  }

  lemma RegisterStage(steps: seq<Step>, id: string)
    requires |steps| > 0 && steps[0] == Register(id, None)
    ensures Stage(steps, 1, id, Billing.Tenant(Active, PaymentActive, None, None), map[], map[])
  {
    RunTo(steps, 0);
    assert steps[..0] == [];
  }

  lemma QueriedOne(st: State, tx: nat, job: Job, id: string, now: int)
    requires id in st.tenants && Ticket(tx, id) !in st.readings && Ticket(tx, id) !in st.unannounced
    ensures Next(st, Query(tx, job, {id}, now)) ==
            st.(readings := st.readings[Ticket(tx, id) := Reading(job, st.tenants[id], now, st.taken)],
                taken := st.taken + 1)
  {
    var t, r := Ticket(tx, id), Reading(job, st.tenants[id], now, st.taken);
    assert Queried(st, tx, job, {id}, now) == map[t := r];
    hide Queried;
    assert st.readings + map[t := r] == st.readings[t := r];
  }

  lemma QueryStage(steps: seq<Step>, k: nat, id: string, row: Billing.Tenant, readings: map<Ticket, Reading>,
      tickets: map<Ticket, nat>, tx: nat, job: Job, now: int)
    requires k < |steps| && Stage(steps, k, id, row, readings, tickets) && steps[k] == Query(tx, job, {id}, now)
    requires Ticket(tx, id) !in readings && Ticket(tx, id) !in tickets
    ensures Stage(steps, k + 1, id, row, readings[Ticket(tx, id) := Reading(job, row, now, k)], tickets)
  {
    RunTo(steps, k);
    hide Run, Next;
    QueriedOne(Run(steps[..k]), tx, job, id, now);
  }

  lemma SaveStage(steps: seq<Step>, k: nat, id: string, row: Billing.Tenant, readings: map<Ticket, Reading>,
      tickets: map<Ticket, nat>, tx: nat, now: int, next: Billing.Tenant)
    requires k < |steps| && Stage(steps, k, id, row, readings, tickets) && steps[k] == Save(tx, id, now)
    requires Ticket(tx, id) in readings && Written(readings[Ticket(tx, id)], now) == Some(next)
    requires next.paymentStatus != readings[Ticket(tx, id)].row.paymentStatus
    ensures Stage(steps, k + 1, id, next, readings - {Ticket(tx, id)}, tickets[Ticket(tx, id) := k])
    ensures WritesAt(steps, id, k) && ReadingAt(steps, id, k) == readings[Ticket(tx, id)]
  {
    RunTo(steps, k);
    hide Run, Written;
  }

  lemma OvertakenMove(steps: seq<Step>, id: string)
    requires |steps| == 9
    requires WritesAt(steps, id, 2) && ReadingAt(steps, id, 2).job == FailedInvoice
    requires WritesAt(steps, id, 4) && ReadingAt(steps, id, 4).job == Escalation && ReadingAt(steps, id, 4).since == 3
    requires WritesAt(steps, id, 8) && ReadingAt(steps, id, 8).job == Escalation && ReadingAt(steps, id, 8).since == 5
    ensures MoveOf(steps, id) == Some(2)
  {
    hide Run, Writes;
    LastWriteIs(steps, id, 8);
    PrefixSame(steps, id, 5, 4);
    LastWriteIs(steps[..5], id, 4);
    PrefixRun(steps, 5, 3);
    PrefixSame(steps, id, 3, 2);
    LastWriteIs(steps[..3], id, 2);
    hide LastWrite, WritesAt;
    assert MoveOf(steps[..3], id) == Some(2);
    assert MoveOf(steps[..5], id) == Some(2);
  }

  lemma PaymentFinishes(steps: seq<Step>, id: string, s: nat)
    requires WritesAt(steps, id, s) && ReadingAt(steps, id, s).job == PaidInvoice
    ensures Finishes(steps, id, s)
  {
  }

  lemma OvertakenStages(steps: seq<Step>, id: string)
    requires steps == OVERTAKEN && id == "t"
    ensures Stage(steps, 9, id, Row(PaymentLocked, 3 * WEEK), map[],
                  map[Ticket(0, id) := 2, Ticket(1, id) := 4, Ticket(3, id) := 7, Ticket(2, id) := 8])
    ensures WritesAt(steps, id, 7) && ReadingAt(steps, id, 7).job == PaidInvoice
    ensures MoveOf(steps, id) == Some(2)
  {
    hide Stage, WritesAt, Run, MoveOf;
    var past, restricted, active := Row(PastDue, 0), Row(Restricted, WEEK), Row(PaymentActive, 3 * WEEK);
    var newcomer := Billing.Tenant(Active, PaymentActive, None, None);
    var failed := Reading(FailedInvoice, newcomer, 0, 1);
    var first := Reading(Escalation, past, WEEK, 3);
    var second := Reading(Escalation, restricted, 3 * WEEK, 5);
    var paid := Reading(PaidInvoice, restricted, 3 * WEEK, 6);
    var a, b, c, d := Ticket(0, id), Ticket(1, id), Ticket(2, id), Ticket(3, id);
    RegisterStage(steps, id);
    QueryStage(steps, 1, id, newcomer, map[], map[], 0, FailedInvoice, 0);
    SaveStage(steps, 2, id, newcomer, map[a := failed], map[], 0, 0, past);
    assert map[a := failed] - {a} == map[];
    QueryStage(steps, 3, id, past, map[], map[a := 2], 1, Escalation, WEEK);
    SaveStage(steps, 4, id, past, map[b := first], map[a := 2], 1, WEEK, restricted);
    assert map[b := first] - {b} == map[];
    QueryStage(steps, 5, id, restricted, map[], map[a := 2, b := 4], 2, Escalation, 3 * WEEK);
    QueryStage(steps, 6, id, restricted, map[c := second], map[a := 2, b := 4], 3, PaidInvoice, 3 * WEEK);
    SaveStage(steps, 7, id, restricted, map[c := second, d := paid], map[a := 2, b := 4], 3, 3 * WEEK, active);
    assert map[c := second, d := paid] - {d} == map[c := second];
    SaveStage(steps, 8, id, active, map[c := second], map[a := 2, b := 4, d := 7], 2, 3 * WEEK,
              Row(PaymentLocked, 3 * WEEK));
    assert map[c := second] - {c} == map[];
    OvertakenMove(steps, id);
  }

  function Row(p: PaymentStatus, at: int): Billing.Tenant {
    Billing.Tenant(Active, p, Some(at), None)
  }

  /** The tenant ends locked although an invoice was paid after the move to past due. */
  lemma PaidThenLocked()
    ensures Monotone(OVERTAKEN)
    ensures Run(OVERTAKEN).tenants == map["t" := Row(PaymentLocked, 3 * WEEK)]
    ensures MoveOf(OVERTAKEN, "t") == Some(2) && PaidAfter(OVERTAKEN, "t", 2)
  {
    hide Run, MoveOf, Finishes, WritesAt;
    OvertakenStages(OVERTAKEN, "t");
    assert OVERTAKEN[..9] == OVERTAKEN;
    PaymentFinishes(OVERTAKEN, "t", 7);
  }
}
