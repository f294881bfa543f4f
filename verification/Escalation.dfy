/** Timed escalation over every interleaving of the jobs that read and write a tenant's row: when the row keeps what
    escalation has made of it, and by when an unpaid tenant is locked then. */
module Escalation {
  import opened Wrappers
  import opened BillingModel
  import opened PaymentSteps
  import opened UnpaidTenants
  import Billing
  import Calendar

  // ---------- How far a tenant has got

  function Rank(p: PaymentStatus): int {
    match p
    case PaymentActive => 0
    case PastDue => 1
    case Restricted => 2
    case PaymentLocked => 3
  }

  /** The rank of tenant `id` after `m` steps. */
  function RankAt(steps: seq<Step>, id: string, m: nat): int
    requires m <= |steps|
  {
    var tenants := Run(steps[..m]).tenants;
    if id in tenants then Rank(tenants[id].paymentStatus) else 0
  }

  function Ranks(steps: seq<Step>, id: string): (r: seq<int>)
    ensures |r| == |steps| + 1 && forall m | 0 <= m <= |steps| :: r[m] == RankAt(steps, id, m)
  {
    seq(|steps| + 1, m requires 0 <= m <= |steps| => RankAt(steps, id, m))
  }

  /** Step `e` moves the tenant on. */
  predicate MovesOn(steps: seq<Step>, id: string, e: nat) {
    e < |steps| && RankAt(steps, id, e) < RankAt(steps, id, e + 1)
  }

  /** Step `k` is the save of a failed invoice that moves the tenant to past due. */
  predicate FallsDue(steps: seq<Step>, id: string, k: nat) {
    WritesAt(steps, id, k) && ReadingAt(steps, id, k).job == FailedInvoice
  }

  /** From the move at `k` on, the row goes back to that move, and it never falls back behind where it stood. */
  predicate NeverSetBack(steps: seq<Step>, id: string, k: nat) {
    forall m: nat | k < m <= |steps| ::
      MoveOf(steps[..m], id) == Some(k) && (m < |steps| ==> RankAt(steps, id, m) <= RankAt(steps, id, m + 1))
  }

  /** Save `j` goes back to a reading taken since the move at `k`, and no save between the two has moved the tenant
      on; a save of escalation, which itself moves the tenant on, stands up to one. */
  predicate InOrder(steps: seq<Step>, id: string, k: nat, j: nat)
    requires WritesAt(steps, id, j)
  {
    var r := ReadingAt(steps, id, j);
    && Copies(r.job) && k < r.since
    && (r.job.Edit? ==> forall e: nat | r.since < e < j :: !MovesOn(steps, id, e))
    && (r.job.Escalation? ==>
          forall e: nat, f: nat | r.since < e < f < j :: !(MovesOn(steps, id, e) && MovesOn(steps, id, f)))
  }

  predicate AllInOrder(steps: seq<Step>, id: string, k: nat) {
    forall j: nat | k < j < |steps| && WritesAt(steps, id, j) :: InOrder(steps, id, k, j)
  }

  // ---------- Sequences of ranks

  predicate Rises(r: seq<int>, from: nat, to: nat)
    requires to < |r|
  {
    forall i | from <= i < to :: r[i] <= r[i + 1] <= r[i] + 1
  }

  lemma {:induction false} Climbs(r: seq<int>, a: nat, b: nat)
    requires a <= b < |r| && forall i | a <= i < b :: r[i] <= r[i + 1]
    ensures r[a] <= r[b]
  {
    if a < b {
      Climbs(r, a, b - 1);
    }
  }

  lemma {:induction false} StaysLevel(r: seq<int>, a: nat, b: nat)
    requires a <= b < |r| && Rises(r, a, b) && forall i | a <= i < b :: !(r[i] < r[i + 1])
    ensures r[a] == r[b]
  {
    if a < b {
      StaysLevel(r, a, b - 1);
    }
  }

  lemma {:induction false} OneStepUp(r: seq<int>, a: nat, b: nat)
    requires a <= b < |r| && Rises(r, a, b)
    requires forall i, j | a <= i < j < b :: !(r[i] < r[i + 1] && r[j] < r[j + 1])
    ensures r[b] <= r[a] + 1
  {
    if a < b {
      if r[b - 1] < r[b] {
        StaysLevel(r, a, b - 1);
      } else {
        OneStepUp(r, a, b - 1);
      }
    }
  }

  // ---------- One step

  lemma PrefixNext(steps: seq<Step>, j: nat)
    requires j < |steps|
    ensures Run(steps[..j + 1]) == Next(Run(steps[..j]), steps[j])
  {
    assert steps[..j + 1][..j] == steps[..j];
  }

  /** What a reading held after `m` steps shows, and when it was taken. */
  lemma HeldReading(steps: seq<Step>, m: nat, t: Ticket)
    requires m <= |steps| && t in Run(steps[..m]).readings
    ensures var r := Run(steps[..m]).readings[t];
            && r.since < m && steps[r.since].Query? && steps[r.since].now == r.at && steps[r.since].job == r.job
            && t.id in Run(steps[..r.since]).tenants && r.row == Run(steps[..r.since]).tenants[t.id]
  {
    Readings(steps[..m]);
    assert ReadingHolds(steps[..m], t.id, Run(steps[..m]).readings[t]);
    hide Run;
    assert steps[..m][..Run(steps[..m]).readings[t].since] == steps[..Run(steps[..m]).readings[t].since];
  }

  lemma RowKept(steps: seq<Step>, id: string, j: nat)
    requires j < |steps| && !WritesAt(steps, id, j) && id in Run(steps[..j]).tenants
    ensures id in Run(steps[..j + 1]).tenants && Run(steps[..j + 1]).tenants[id] == Run(steps[..j]).tenants[id]
  {
    PrefixNext(steps, j);
    RowStep(Run(steps[..j]), steps[j], id);
    hide Next, Run, Writes;
  }

  /** The save at `j`: the row it leaves, and the row it goes back to. */
  lemma RowSaved(steps: seq<Step>, id: string, j: nat)
    requires WritesAt(steps, id, j)
    ensures var r := ReadingAt(steps, id, j);
            && r.since < j && steps[r.since].Query? && steps[r.since].now == r.at && steps[r.since].job == r.job
            && id in Run(steps[..r.since]).tenants && r.row == Run(steps[..r.since]).tenants[id]
            && id in Run(steps[..j + 1]).tenants
            && Written(r, steps[j].now) == Some(Run(steps[..j + 1]).tenants[id])
  {
    PrefixNext(steps, j);
    RowStep(Run(steps[..j]), steps[j], id);
    HeldReading(steps, j, Ticket(steps[j].tx, id));
    hide Next, Run, Written;
  }

  lemma WrittenRank(r: Reading, now: int)
    requires Written(r, now).Some?
    ensures var row := Written(r, now).value;
            && (r.job.Edit? ==> row.paymentStatus == r.row.paymentStatus && row.changedAt == r.row.changedAt)
            && (r.job.Escalation? ==>
                  Rank(r.row.paymentStatus) <= Rank(row.paymentStatus) <= Rank(r.row.paymentStatus) + 1)
            && (r.job.Escalation? && r.row.changedAt.Some? ==>
                  && Rank(row.paymentStatus) == Rank(r.row.paymentStatus) + 1 && row.changedAt == Some(r.at)
                  && 1 <= Rank(r.row.paymentStatus))
            && (r.job == FailedInvoice ==> row.paymentStatus == PastDue && row.changedAt == Some(now))
  {
  }

  /** Which move the row goes back to after the save at `j`. */
  lemma MoveSaved(steps: seq<Step>, id: string, j: nat)
    requires WritesAt(steps, id, j)
    ensures var r := ReadingAt(steps, id, j);
            MoveOf(steps[..j + 1], id) == if r.job == FailedInvoice then Some(j)
                                          else if Copies(r.job) && r.since < j then MoveOf(steps[..r.since], id)
                                          else None
  {
    PrefixSame(steps, id, j + 1, j);
    hide Run, Written, Writes;
    LastWriteIs(steps[..j + 1], id, j);
    assert ReadingAt(steps, id, j).since < j ==>
        steps[..j + 1][..ReadingAt(steps, id, j).since] == steps[..ReadingAt(steps, id, j).since];
  }

  lemma LastWriteMeans(steps: seq<Step>, id: string)
    ensures var w := LastWrite(steps, id);
            if w.Some? then
              w.value < |steps| && WritesAt(steps, id, w.value)
              && forall j: nat | w.value < j < |steps| :: !WritesAt(steps, id, j)
            else
              forall j: nat | j < |steps| :: !WritesAt(steps, id, j)
  {
  }

  lemma MoveKept(steps: seq<Step>, id: string, j: nat)
    requires j < |steps| && !WritesAt(steps, id, j)
    ensures MoveOf(steps[..j + 1], id) == MoveOf(steps[..j], id)
  {
    hide Run, Written, Writes, MoveOf, WritesAt, LastWrite, ReadingAt;
    var before, after := steps[..j], steps[..j + 1];
    assert after[..j] == before;
    PrefixSame(steps, id, j + 1, j);
    PrefixWrites(after, id);
    LastWriteMeans(before, id);
    LastWriteMeans(after, id);
    var w := LastWrite(before, id);
    if w.Some? {
      assert WritesAt(after, id, w.value);
      LastWriteIs(after, id, w.value);
      PrefixSame(after, id, j, w.value);
      assert before[..ReadingAt(after, id, w.value).since] == after[..ReadingAt(after, id, w.value).since] by {
        RowSaved(after, id, w.value);
      }
      SameMove(before, after, id);
    } else {
      assert LastWrite(after, id).None?;
      SameMove(before, after, id);
    }
  }

  lemma SameMove(a: seq<Step>, b: seq<Step>, id: string)
    requires LastWrite(a, id) == LastWrite(b, id)
    requires LastWrite(a, id).Some? ==>
               var w := LastWrite(a, id).value;
               && ReadingAt(a, id, w) == ReadingAt(b, id, w)
               && (ReadingAt(a, id, w).since < w ==> a[..ReadingAt(a, id, w).since] == b[..ReadingAt(b, id, w).since])
    ensures MoveOf(a, id) == MoveOf(b, id)
  {
    hide LastWrite, Run, Written, WritesAt;
  }

  // ---------- What keeps a tenant from being set back

  /** After each of the steps from the move at `k` up to `n`, the row goes back to that move, and none of them sets it
      back or moves it on by more than one. */
  predicate Firm(steps: seq<Step>, id: string, k: nat, n: nat)
    requires n <= |steps|
  {
    && (forall m: nat | k < m <= n ::
          id in Run(steps[..m]).tenants && MoveOf(steps[..m], id) == Some(k) && 1 <= RankAt(steps, id, m))
    && (forall m: nat | k < m < n :: RankAt(steps, id, m) <= RankAt(steps, id, m + 1) <= RankAt(steps, id, m) + 1)
  }

  /** Rows that are not active carry a date. */
  lemma Dated(steps: seq<Step>, id: string)
    requires id in Run(steps).tenants && 1 <= Rank(Run(steps).tenants[id].paymentStatus)
    ensures Run(steps).tenants[id].changedAt.Some?
  {
    AllDescend(steps, id);
    hide Run, MoveOf;
  }

  lemma RankSaved(steps: seq<Step>, id: string, j: nat)
    requires WritesAt(steps, id, j)
    ensures var r := ReadingAt(steps, id, j);
            && r.since < j
            && (r.job.Edit? ==> RankAt(steps, id, j + 1) == RankAt(steps, id, r.since))
            && (r.job.Escalation? ==>
                  && RankAt(steps, id, r.since) <= RankAt(steps, id, j + 1) <= RankAt(steps, id, r.since) + 1
                  && (1 <= RankAt(steps, id, r.since) ==>
                        RankAt(steps, id, j + 1) == RankAt(steps, id, r.since) + 1))
            && (r.job == FailedInvoice ==> RankAt(steps, id, j + 1) == 1)
  {
    RowSaved(steps, id, j);
    var r := ReadingAt(steps, id, j);
    WrittenRank(r, steps[j].now);
    if 1 <= RankAt(steps, id, r.since) {
      Dated(steps[..r.since], id);
    }
    hide Run, Written, WritesAt;
  }

  lemma RankKept(steps: seq<Step>, id: string, j: nat)
    requires j < |steps| && !WritesAt(steps, id, j) && id in Run(steps[..j]).tenants
    ensures RankAt(steps, id, j + 1) == RankAt(steps, id, j)
  {
    RowKept(steps, id, j);
    hide Run, WritesAt;
  }

  lemma Starts(steps: seq<Step>, id: string, k: nat)
    requires FallsDue(steps, id, k)
    ensures Firm(steps, id, k, k + 1) && RankAt(steps, id, k + 1) == 1
  {
    hide Run, Written, WritesAt, MoveOf, RankAt, ReadingAt;
    RowSaved(steps, id, k);
    RankSaved(steps, id, k);
    MoveSaved(steps, id, k);
  }

  lemma MovesInRanks(steps: seq<Step>, id: string)
    ensures forall e: nat | e < |steps| :: MovesOn(steps, id, e) <==> Ranks(steps, id)[e] < Ranks(steps, id)[e + 1]
  {
    hide RankAt;
  }

  /** Where the ranks stand at a save in order: by what it goes back to they have risen by none or one. */
  lemma RanksInOrder(steps: seq<Step>, id: string, k: nat, j: nat)
    requires k < j < |steps| && WritesAt(steps, id, j) && InOrder(steps, id, k, j)
    requires var r := ReadingAt(steps, id, j); r.since < j && Rises(Ranks(steps, id), r.since + 1, j)
    ensures var r := ReadingAt(steps, id, j);
            && (r.job.Edit? ==> RankAt(steps, id, r.since + 1) == RankAt(steps, id, j))
            && RankAt(steps, id, r.since + 1) <= RankAt(steps, id, j) <= RankAt(steps, id, r.since + 1) + 1
  {
    hide Run, WritesAt, RankAt, Written, ReadingAt;
    var r := ReadingAt(steps, id, j);
    var ranks := Ranks(steps, id);
    MovesInRanks(steps, id);
    hide MovesOn, Ranks;
    Climbs(ranks, r.since + 1, j);
    if r.job.Edit? {
      StaysLevel(ranks, r.since + 1, j);
    } else {
      OneStepUp(ranks, r.since + 1, j);
    }
  }

  /** A save in order moves the tenant on by at most one, and does not set it back. */
  lemma SaveInOrder(steps: seq<Step>, id: string, k: nat, j: nat)
    requires k < j < |steps| && Firm(steps, id, k, j) && WritesAt(steps, id, j) && InOrder(steps, id, k, j)
    ensures RankAt(steps, id, j) <= RankAt(steps, id, j + 1) <= RankAt(steps, id, j) + 1
  {
    hide Run, MoveOf, RankAt, ReadingAt, Written, MovesOn, WritesAt;
    var r := ReadingAt(steps, id, j);
    assert k < r.since && Copies(r.job);
    hide InOrder;
    RowSaved(steps, id, j);
    RankSaved(steps, id, j);
    NoSaveAtQuery(steps, id, r.since);
    RankKept(steps, id, r.since);
    FirmRises(steps, id, k, r.since + 1, j);
    hide Firm;
    RanksInOrder(steps, id, k, j);
  }

  lemma NoSaveAtQuery(steps: seq<Step>, id: string, q: nat)
    requires q < |steps| && steps[q].Query?
    ensures !WritesAt(steps, id, q)
  {
  }

  lemma FirmRises(steps: seq<Step>, id: string, k: nat, a: nat, b: nat)
    requires k < a <= b <= |steps| && Firm(steps, id, k, b)
    ensures Rises(Ranks(steps, id), a, b) && 1 <= RankAt(steps, id, a)
  {
    hide Run, MoveOf, RankAt;
  }

  lemma FirmStep(steps: seq<Step>, id: string, k: nat, j: nat)
    requires k < j < |steps| && Firm(steps, id, k, j)
    requires WritesAt(steps, id, j) ==> InOrder(steps, id, k, j)
    ensures Firm(steps, id, k, j + 1)
  {
    hide Run, WritesAt, MoveOf, RankAt, Written, ReadingAt;
    if WritesAt(steps, id, j) {
      SaveInOrder(steps, id, k, j);
      RowSaved(steps, id, j);
      MoveSaved(steps, id, j);
    } else {
      RankKept(steps, id, j);
      RowKept(steps, id, j);
      MoveKept(steps, id, j);
    }
  }

  lemma {:induction false} FirmThroughout(steps: seq<Step>, id: string, k: nat, n: nat)
    requires FallsDue(steps, id, k) && k < n <= |steps| && AllInOrder(steps, id, k)
    ensures Firm(steps, id, k, n)
  {
    if n == k + 1 {
      Starts(steps, id, k);
    } else {
      FirmThroughout(steps, id, k, n - 1);
      hide Firm, InOrder, WritesAt;
      FirmStep(steps, id, k, n - 1);
    }
  }

  /** Out of order, a save sets the tenant back, or away from the move it went back to. */
  lemma OutOfOrder(steps: seq<Step>, id: string, k: nat, j: nat)
    requires k < j < |steps| && WritesAt(steps, id, j) && NeverSetBack(steps, id, k)
    ensures InOrder(steps, id, k, j)
  {
    hide Run, WritesAt, MoveOf, RankAt, Written, ReadingAt;
    var r := ReadingAt(steps, id, j);
    RankSaved(steps, id, j);
    MoveSaved(steps, id, j);
    assert MoveOf(steps[..j + 1], id) == Some(k);
    assert Copies(r.job);
    MoveBefore(steps[..r.since], id);
    var ranks := Ranks(steps, id);
    assert forall m | k < m <= j :: ranks[m] <= ranks[m + 1];
    forall e: nat | r.since < e < j && MovesOn(steps, id, e) ensures ranks[r.since] < ranks[j] {
      Climbs(ranks, r.since, e);
      Climbs(ranks, e + 1, j);
    }
    if r.job.Escalation? {
      forall e: nat, f: nat | r.since < e < f < j ensures !(MovesOn(steps, id, e) && MovesOn(steps, id, f)) {
        if MovesOn(steps, id, e) && MovesOn(steps, id, f) {
          Climbs(ranks, r.since, e);
          Climbs(ranks, e + 1, f);
          Climbs(ranks, f + 1, j);
        }
      }
    }
  }

  /** Over every interleaving: from a move to past due on, the row goes back to that move and is never set back
      exactly when no save goes back to a reading that a move since has overtaken. */
  lemma NeverSetBackExactly(steps: seq<Step>, id: string, k: nat)
    requires FallsDue(steps, id, k)
    ensures NeverSetBack(steps, id, k) <==> AllInOrder(steps, id, k)
  {
    hide WritesAt, InOrder, MoveOf, RankAt;
    if NeverSetBack(steps, id, k) {
      forall j: nat | k < j < |steps| && WritesAt(steps, id, j) ensures InOrder(steps, id, k, j) {
        OutOfOrder(steps, id, k, j);
      }
    }
    if AllInOrder(steps, id, k) {
      assert k < |steps| by {
        WrittenInside(steps, id, k);
      }
      FirmThroughout(steps, id, k, |steps|);
    }
  }

  lemma WrittenInside(steps: seq<Step>, id: string, k: nat)
    requires WritesAt(steps, id, k)
    ensures k < |steps|
  {
  }

  // ---------- Regular escalation

  /** Step `q` is a query of escalation, which finds tenant `id` if it has to. */
  predicate Asks(steps: seq<Step>, id: string, q: nat) {
    && q < |steps| && steps[q].Query? && steps[q].job.Escalation?
    && var st := Run(steps[..q]);
       && id in st.tenants
       && (Billing.Escalates(st.tenants[id]) ==>
             Ticket(steps[q].tx, id) in Queried(st, steps[q].tx, steps[q].job, steps[q].ids, steps[q].now))
  }

  /** The clock of the last query of escalation since the move at `k`; the move counts as one. */
  function LastAsk(steps: seq<Step>, id: string, k: nat): int
    requires k < |steps| && Timed(steps[k])
  {
    var n := |steps| - 1;
    if n == k then steps[k].now
    else if Asks(steps, id, n) then steps[n].now
    else LastAsk(steps[..n], id, k)
  }

  /** Escalation asks at least every `p` milliseconds: no clock is read more than `p` after its last query. */
  predicate Frequent(steps: seq<Step>, id: string, k: nat, p: nat) {
    k < |steps| && Timed(steps[k])
    && forall m: nat | k < m < |steps| && Timed(steps[m]) :: steps[m].now <= LastAsk(steps[..m], id, k) + p
  }

  /** Escalation saves within `d` milliseconds: no clock is read more than `d` after a query whose save is to come. */
  predicate Prompt(steps: seq<Step>, id: string, k: nat, d: nat) {
    forall m: nat, t | k < m < |steps| && Timed(steps[m]) && t in Run(steps[..m]).readings ::
      var r := Run(steps[..m]).readings[t];
      t.id == id && r.job.Escalation? && k < r.since ==> steps[m].now <= r.at + d
  }

  predicate StaysActive(steps: seq<Step>, id: string, k: nat) {
    forall m: nat | k < m <= |steps| ::
      id in Run(steps[..m]).tenants && Run(steps[..m]).tenants[id].status == Active
  }

  predicate Regular(steps: seq<Step>, id: string, k: nat, p: nat, d: nat) {
    Frequent(steps, id, k, p) && Prompt(steps, id, k, d) && StaysActive(steps, id, k)
  }

  lemma AsksBefore(steps: seq<Step>, id: string, n: nat, q: nat)
    requires q < n <= |steps|
    ensures Asks(steps[..n], id, q) == Asks(steps, id, q)
  {
    assert steps[..n][..q] == steps[..q];
    hide Run, Queried;
  }

  /** The first query of escalation at or after `x`. */
  lemma {:induction false} FirstAsk(steps: seq<Step>, id: string, k: nat, x: int) returns (q: nat)
    requires k < |steps| && Timed(steps[k]) && steps[k].now < x <= LastAsk(steps, id, k)
    ensures k < q < |steps| && Asks(steps, id, q) && x <= steps[q].now && LastAsk(steps[..q], id, k) < x
  {
    var n := |steps| - 1;
    hide Asks;
    if x <= LastAsk(steps[..n], id, k) {
      q := FirstAsk(steps[..n], id, k, x);
      AsksBefore(steps, id, n, q);
      assert steps[..n][..q] == steps[..q];
    } else {
      q := n;
    }
  }

  predicate HeldAs(steps: seq<Step>, m: nat, t: Ticket, r: Reading) {
    m <= |steps| && t in Run(steps[..m]).readings && Run(steps[..m]).readings[t] == r
  }

  predicate EndsHold(steps: seq<Step>, j: nat, t: Ticket, r: Reading) {
    j < |steps| && steps[j].Save? && Ticket(steps[j].tx, steps[j].id) == t && HeldAs(steps, j, t, r)
  }

  /** A reading is held until it is saved. */
  lemma {:induction false} HeldOrSaved(steps: seq<Step>, t: Ticket, r: Reading, from: nat, m: nat) returns (j: nat)
    requires from <= m <= |steps| && HeldAs(steps, from, t, r)
    ensures HeldAs(steps, m, t, r) || (from <= j < m && EndsHold(steps, j, t, r))
    decreases m
  {
    j := 0;
    if from < m {
      hide HeldAs, EndsHold;
      j := HeldOrSaved(steps, t, r, from, m - 1);
      if HeldAs(steps, m - 1, t, r) {
        HeldNext(steps, m - 1, t, r);
        j := m - 1;
      }
    }
  }

  lemma HeldNext(steps: seq<Step>, m: nat, t: Ticket, r: Reading)
    requires m < |steps| && HeldAs(steps, m, t, r)
    ensures HeldAs(steps, m + 1, t, r) || EndsHold(steps, m, t, r)
  {
    PrefixNext(steps, m);
    hide Run, Next;
    ReadingHeld(Run(steps[..m]), steps[m], t);
  }

  lemma ReadingHeld(st: State, s: Step, t: Ticket)
    requires t in st.readings
    ensures || (t in Next(st, s).readings && Next(st, s).readings[t] == st.readings[t])
            || (s.Save? && Ticket(s.tx, s.id) == t)
  {
    hide Written;
  }

  predicate DueAt(t: Billing.Tenant, now: int) {
    Billing.Escalates(t) && t.changedAt.Some? && Billing.Escalated(t, now).paymentStatus != t.paymentStatus
  }

  lemma DueIsWritten(r: Reading, now: int)
    requires r.job.Escalation? && DueAt(r.row, r.at)
    ensures Written(r, now).Some? && 1 <= Rank(r.row.paymentStatus)
  {
  }

  lemma DueReadingIsSaved(steps: seq<Step>, id: string, k: nat, d: nat, m: nat, t: Ticket, r: Reading)
    requires Firm(steps, id, k, |steps|) && Prompt(steps, id, k, d)
    requires k < r.since < m < |steps| && Timed(steps[m]) && r.at + d < steps[m].now
    requires HeldAs(steps, r.since + 1, t, r) && t.id == id && r.job.Escalation? && DueAt(r.row, r.at)
    ensures RankAt(steps, id, r.since) < RankAt(steps, id, m)
  {
    hide Firm, Prompt, HeldAs, EndsHold, DueAt, RankAt;
    var j := HeldOrSaved(steps, t, r, r.since + 1, m);
    if HeldAs(steps, m, t, r) {
      NotHeldSoLong(steps, id, k, d, m, t, r);
    } else {
      SaveOfDue(steps, id, k, j, m, t, r);
    }
  }

  /** A query that finds the tenant due: its save comes before the clock has gone on by more than `d`, and moves the
      tenant on. */
  lemma DueIsSaved(steps: seq<Step>, id: string, k: nat, d: nat, q: nat, m: nat)
    requires Firm(steps, id, k, |steps|) && Prompt(steps, id, k, d)
    requires k < q < m < |steps| && Asks(steps, id, q) && Timed(steps[m]) && steps[q].now + d < steps[m].now
    requires DueAt(Run(steps[..q]).tenants[id], steps[q].now)
    ensures RankAt(steps, id, q) < RankAt(steps, id, m)
  {
    hide Firm, Prompt, HeldAs, RankAt, Run;
    var t := Ticket(steps[q].tx, id);
    QueryTakes(steps, id, q);
    hide Asks, DueAt;
    var r := Run(steps[..q + 1]).readings[t];
    HeldFrom(steps, q + 1, t, r);
    DueReadingIsSaved(steps, id, k, d, m, t, r);
  }

  lemma HeldFrom(steps: seq<Step>, m: nat, t: Ticket, r: Reading)
    requires m <= |steps| && t in Run(steps[..m]).readings && Run(steps[..m]).readings[t] == r
    ensures HeldAs(steps, m, t, r)
  {
  }

  lemma SaveOfDue(steps: seq<Step>, id: string, k: nat, j: nat, m: nat, t: Ticket, r: Reading)
    requires k < j < m < |steps| && Firm(steps, id, k, |steps|) && EndsHold(steps, j, t, r) && t.id == id
    requires r.job.Escalation? && k < r.since && DueAt(r.row, r.at)
    ensures r.since < m && RankAt(steps, id, r.since) < RankAt(steps, id, m)
  {
    assert steps[j].Save? && Ticket(steps[j].tx, steps[j].id) == t;
    assert t in Run(steps[..j]).readings && Run(steps[..j]).readings[t] == r;
    hide *;
    DueIsWritten(r, steps[j].now);
    HeldReading(steps, j, t);
    SavedReading(steps, id, j, t);
    RankSaved(steps, id, j);
    FirmClimbs(steps, id, k, r.since, r.since);
    FirmClimbs(steps, id, k, j + 1, m);
  }

  lemma FirmClimbs(steps: seq<Step>, id: string, k: nat, a: nat, b: nat)
    requires k < a <= b <= |steps| && Firm(steps, id, k, |steps|)
    ensures 1 <= RankAt(steps, id, a) <= RankAt(steps, id, b)
  {
    FirmRises(steps, id, k, a, |steps|);
    hide Run, Firm, RankAt;
    Climbs(Ranks(steps, id), a, b);
  }

  lemma NotHeldSoLong(steps: seq<Step>, id: string, k: nat, d: nat, m: nat, t: Ticket, r: Reading)
    requires Prompt(steps, id, k, d) && k < m < |steps| && Timed(steps[m]) && HeldAs(steps, m, t, r)
    requires t.id == id && r.job.Escalation? && k < r.since
    ensures steps[m].now <= r.at + d
  {
  }

  lemma QueryTakes(steps: seq<Step>, id: string, q: nat)
    requires Asks(steps, id, q) && Billing.Escalates(Run(steps[..q]).tenants[id])
    ensures var t := Ticket(steps[q].tx, id);
            && t in Run(steps[..q + 1]).readings
            && Run(steps[..q + 1]).readings[t] == Reading(Job.Escalation, Run(steps[..q]).tenants[id], steps[q].now, q)
  {
    PrefixNext(steps, q);
    Readings(steps[..q]);
    hide Run;
  }

  lemma SavedReading(steps: seq<Step>, id: string, j: nat, t: Ticket)
    requires j < |steps| && steps[j].Save? && Ticket(steps[j].tx, steps[j].id) == t && t.id == id
    requires t in Run(steps[..j]).readings && Written(Run(steps[..j]).readings[t], steps[j].now).Some?
    ensures WritesAt(steps, id, j) && ReadingAt(steps, id, j) == Run(steps[..j]).readings[t]
  {
  }

  // ---------- The bound

  const WEEK := 7 * Calendar.MS_PER_DAY

  function DateAt(steps: seq<Step>, id: string, m: nat): Option<int>
    requires m <= |steps|
  {
    var tenants := Run(steps[..m]).tenants;
    if id in tenants then tenants[id].changedAt else None
  }

  /** From `x` on, each query of escalation finds the tenant at `level` or above, and due if it is at `level`. */
  predicate DueFrom(steps: seq<Step>, id: string, k: nat, x: int, level: int) {
    forall q: nat | k < q < |steps| && Asks(steps, id, q) && x <= steps[q].now ::
      && level <= RankAt(steps, id, q)
      && (RankAt(steps, id, q) == level ==> DueAt(Run(steps[..q]).tenants[id], steps[q].now))
  }

  lemma RaisedBy(steps: seq<Step>, id: string, k: nat, p: nat, d: nat, x: int, level: int, m: nat)
    requires FallsDue(steps, id, k) && Firm(steps, id, k, |steps|)
    requires Frequent(steps, id, k, p) && Prompt(steps, id, k, d) && DueFrom(steps, id, k, x, level)
    requires steps[k].now < x && k < m < |steps| && Timed(steps[m]) && x + p + d <= steps[m].now
    ensures level < RankAt(steps, id, m)
  {
    hide Run, Firm, Prompt, FallsDue, RankAt, DueAt, Asks;
    var q := FirstAsk(steps[..m], id, k, x);
    AsksBefore(steps, id, m, q);
    assert steps[..m][..q] == steps[..q];
    QueryTimed(steps, id, q);
    hide Frequent;
    FirmClimbs(steps, id, k, q, m);
    if RankAt(steps, id, q) == level {
      DueIsSaved(steps, id, k, d, q, m);
    }
  }

  lemma QueryTimed(steps: seq<Step>, id: string, q: nat)
    requires Asks(steps, id, q)
    ensures q < |steps| && Timed(steps[q]) && id in Run(steps[..q]).tenants
  {
  }

  /** The date a save leaves, by the row it goes back to. */
  lemma DateSaved(steps: seq<Step>, id: string, j: nat)
    requires WritesAt(steps, id, j)
    ensures var r := ReadingAt(steps, id, j);
            && r.since < j && Timed(steps[r.since])
            && (r.job.Edit? ==> DateAt(steps, id, j + 1) == DateAt(steps, id, r.since))
            && (r.job.Escalation? && 1 <= RankAt(steps, id, r.since) ==>
                  DateAt(steps, id, j + 1) == Some(steps[r.since].now))
            && (r.job == FailedInvoice ==> DateAt(steps, id, j + 1) == Some(steps[j].now))
  {
    RowSaved(steps, id, j);
    var r := ReadingAt(steps, id, j);
    WrittenRank(r, steps[j].now);
    if 1 <= RankAt(steps, id, r.since) {
      Dated(steps[..r.since], id);
    }
    hide Run, Written, WritesAt;
  }

  lemma DateKept(steps: seq<Step>, id: string, j: nat)
    requires j < |steps| && !WritesAt(steps, id, j) && id in Run(steps[..j]).tenants
    ensures DateAt(steps, id, j + 1) == DateAt(steps, id, j)
  {
    RowKept(steps, id, j);
    hide Run, WritesAt;
  }

  /** While past due, a tenant carries the date of its move. */
  predicate PastDueSince(steps: seq<Step>, id: string, k: nat, n: nat)
    requires k < |steps| && Timed(steps[k]) && n <= |steps|
  {
    forall m: nat | k < m <= n && RankAt(steps, id, m) == 1 :: DateAt(steps, id, m) == Some(steps[k].now)
  }

  /** Once restricted, it carries a date before `x`. */
  predicate RestrictedBefore(steps: seq<Step>, id: string, k: nat, x: int, n: nat)
    requires n <= |steps|
  {
    forall m: nat | k < m <= n && RankAt(steps, id, m) == 2 ::
      DateAt(steps, id, m).Some? && DateAt(steps, id, m).value < x
  }

  /** A step in order: the rank and the date after it are those of before, of a reading since the move, or new. */
  lemma DateStep(steps: seq<Step>, id: string, k: nat, j: nat)
    requires k < j < |steps| && Firm(steps, id, k, |steps|) && (WritesAt(steps, id, j) ==> InOrder(steps, id, k, j))
    ensures exists i: nat | k < i <= j ::
              || (RankAt(steps, id, j + 1) == RankAt(steps, id, i) && DateAt(steps, id, j + 1) == DateAt(steps, id, i))
              || (i < j && Timed(steps[i]) && RankAt(steps, id, j + 1) == RankAt(steps, id, i) + 1
                  && DateAt(steps, id, j + 1) == Some(steps[i].now))
  {
    FirmClimbs(steps, id, k, j, j);
    InTable(steps, id, k, j);
    hide Firm, Run, RankAt, DateAt, Written, ReadingAt, WritesAt, MovesOn;
    if WritesAt(steps, id, j) {
      var r := ReadingAt(steps, id, j);
      assert k < r.since && Copies(r.job);
      hide InOrder;
      RankSaved(steps, id, j);
      DateSaved(steps, id, j);
      FirmClimbs(steps, id, k, r.since, r.since);
      assert k < r.since <= j;
    } else {
      RankKept(steps, id, j);
      DateKept(steps, id, j);
    }
  }

  lemma InTable(steps: seq<Step>, id: string, k: nat, m: nat)
    requires k < m <= |steps| && Firm(steps, id, k, |steps|)
    ensures id in Run(steps[..m]).tenants
  {
  }

  lemma {:induction false} PastDueDates(steps: seq<Step>, id: string, k: nat, n: nat)
    requires FallsDue(steps, id, k) && k < n <= |steps| && Firm(steps, id, k, |steps|) && AllInOrder(steps, id, k)
    requires Timed(steps[k])
    ensures PastDueSince(steps, id, k, n)
  {
    hide Run, RankAt, DateAt, Written, ReadingAt, WritesAt, Firm, InOrder;
    if n == k + 1 {
      DateSaved(steps, id, k);
    } else {
      PastDueDates(steps, id, k, n - 1);
      DateStep(steps, id, k, n - 1);
      forall m: nat | k < m <= n && RankAt(steps, id, m) == 1 ensures DateAt(steps, id, m) == Some(steps[k].now) {
        if m == n {
          AboveZero(steps, id, k);
        }
      }
    }
  }

  lemma AboveZero(steps: seq<Step>, id: string, k: nat)
    requires Firm(steps, id, k, |steps|)
    ensures forall i: nat | k < i <= |steps| :: 1 <= RankAt(steps, id, i)
  {
    hide Run, RankAt;
  }

  lemma DueWhen(steps: seq<Step>, id: string, k: nat, q: nat)
    requires StaysActive(steps, id, k) && k < q < |steps| && steps[q].Query? && DateAt(steps, id, q).Some?
    requires || (RankAt(steps, id, q) == 1 && DateAt(steps, id, q).value + WEEK <= steps[q].now)
             || (RankAt(steps, id, q) == 2 && DateAt(steps, id, q).value + 2 * WEEK <= steps[q].now)
    ensures id in Run(steps[..q]).tenants && DueAt(Run(steps[..q]).tenants[id], steps[q].now)
  {
  }

  /** The tenant is past due no longer than a week and the time escalation takes. */
  lemma RestrictedInTime(steps: seq<Step>, id: string, k: nat, p: nat, d: nat, m: nat)
    requires FallsDue(steps, id, k) && Firm(steps, id, k, |steps|) && AllInOrder(steps, id, k)
    requires Regular(steps, id, k, p, d)
    requires k < m < |steps| && Timed(steps[m]) && steps[k].now + WEEK + p + d <= steps[m].now
    ensures 1 < RankAt(steps, id, m)
  {
    PastDueDates(steps, id, k, |steps|);
    AboveZero(steps, id, k);
    hide Run, RankAt, DateAt, Firm, AllInOrder, FallsDue, Frequent, Prompt, StaysActive, Asks, DueAt;
    var x := steps[k].now + WEEK;
    forall q: nat | k < q < |steps| && Asks(steps, id, q) && x <= steps[q].now && RankAt(steps, id, q) == 1
      ensures QueriesTenant(steps, id, q) && DueAt(Run(steps[..q]).tenants[id], steps[q].now)
    {
      IsQuery(steps, id, q);
      DueWhen(steps, id, k, q);
    }
    RaisedBy(steps, id, k, p, d, x, 1, m);
  }

  predicate QueriesTenant(steps: seq<Step>, id: string, q: nat) {
    q < |steps| && steps[q].Query? && id in Run(steps[..q]).tenants
  }

  lemma IsQuery(steps: seq<Step>, id: string, q: nat)
    requires Asks(steps, id, q)
    ensures QueriesTenant(steps, id, q)
  {
  }

  lemma RestrictedDate(steps: seq<Step>, id: string, k: nat, p: nat, d: nat, j: nat)
    requires FallsDue(steps, id, k) && k < j < |steps| && Firm(steps, id, k, |steps|) && AllInOrder(steps, id, k)
    requires Regular(steps, id, k, p, d) && RestrictedBefore(steps, id, k, steps[k].now + WEEK + p + d, j)
    requires RankAt(steps, id, j + 1) == 2
    ensures DateAt(steps, id, j + 1).Some? && DateAt(steps, id, j + 1).value < steps[k].now + WEEK + p + d
  {
    assert Timed(steps[k]);
    hide Run, RankAt, DateAt, Written, ReadingAt, WritesAt, Firm, InOrder, Regular, FallsDue;
    AboveZero(steps, id, k);
    DateStep(steps, id, k, j);
    var i: nat :| k < i <= j &&
      (|| (RankAt(steps, id, j + 1) == RankAt(steps, id, i) && DateAt(steps, id, j + 1) == DateAt(steps, id, i))
       || (i < j && Timed(steps[i]) && RankAt(steps, id, j + 1) == RankAt(steps, id, i) + 1
           && DateAt(steps, id, j + 1) == Some(steps[i].now)));
    hide AllInOrder;
    if RankAt(steps, id, i) == 1 && steps[k].now + WEEK + p + d <= steps[i].now {
      RestrictedInTime(steps, id, k, p, d, i);
    }
  }

  lemma {:induction false} RestrictedDates(steps: seq<Step>, id: string, k: nat, p: nat, d: nat, n: nat)
    requires FallsDue(steps, id, k) && k < n <= |steps| && Firm(steps, id, k, |steps|) && AllInOrder(steps, id, k)
    requires Regular(steps, id, k, p, d)
    ensures RestrictedBefore(steps, id, k, steps[k].now + WEEK + p + d, n)
  {
    hide Run, RankAt, DateAt, Firm, AllInOrder, FallsDue, Prompt, StaysActive;
    if n == k + 1 {
      Starts(steps, id, k);
    } else {
      RestrictedDates(steps, id, k, p, d, n - 1);
      if RankAt(steps, id, n) == 2 {
        RestrictedDate(steps, id, k, p, d, n - 1);
      }
    }
  }

  /** A tenant that falls past due and stays active, with no save out of order, while escalation asks at least every
      `p` and saves within `d`: whoever reads the clock 21 days + 2p + 2d after the move finds it locked. */
  lemma UnpaidGetsLocked(steps: seq<Step>, id: string, k: nat, p: nat, d: nat, m: nat)
    requires FallsDue(steps, id, k) && Regular(steps, id, k, p, d) && AllInOrder(steps, id, k)
    requires k < m < |steps| && Timed(steps[m]) && steps[k].now + 3 * WEEK + 2 * p + 2 * d <= steps[m].now
    ensures id in Run(steps[..m]).tenants && Run(steps[..m]).tenants[id].paymentStatus == PaymentLocked
  {
    FirmThroughout(steps, id, k, |steps|);
    RestrictedDates(steps, id, k, p, d, |steps|);
    var first := steps[k].now + WEEK + p + d;
    var x := first + 2 * WEEK;
    forall q: nat | k < q < |steps| && Asks(steps, id, q) && x <= steps[q].now
      ensures QueriesTenant(steps, id, q) && 2 <= RankAt(steps, id, q)
      ensures RankAt(steps, id, q) == 2 ==> DueAt(Run(steps[..q]).tenants[id], steps[q].now)
    {
      hide Run, RankAt, DateAt, Firm, AllInOrder, FallsDue, Frequent, Prompt, StaysActive, Asks, DueAt;
      IsQuery(steps, id, q);
      RestrictedInTime(steps, id, k, p, d, q);
      if RankAt(steps, id, q) == 2 {
        DueWhen(steps, id, k, q);
      }
    }
    hide AllInOrder, FallsDue, Frequent, Prompt, StaysActive, Asks, DueAt, Firm;
    RaisedBy(steps, id, k, p, d, x, 2, m);
  }

  // ---------- The tenant that is never locked

  const UNPAID := Billing.Tenant(Active, PastDue, Some(0), None)

  const FALLEN: seq<Step> := [Register("t", None), Query(0, FailedInvoice, {"t"}, 0), Save(0, "t", 0)]

  /** An edit reads the tenant, escalation reads and saves it, and the edit saves what it has read. */
  function Round(i: nat, at: int): seq<Step> {
    [Query(2 * i + 1, Edit(Active, None), {"t"}, at), Query(2 * i + 2, Job.Escalation, {"t"}, at),
     Save(2 * i + 2, "t", at), Save(2 * i + 1, "t", at)]
  }

  /** A round every `p` milliseconds. */
  function Overtaken(n: nat, p: nat): seq<Step> {
    if n == 0 then FALLEN else Overtaken(n - 1, p) + Round(n - 1, n * p)
  }

  /** Between rounds the tenant is past due since 0, and nobody holds a reading. */
  predicate Resting(st: State, n: nat) {
    && st.tenants == map["t" := UNPAID] && st.readings == map[]
    && forall t | t in st.unannounced :: t.tx <= 2 * n
  }

  lemma QueryUnpaid(st: State, tx: nat, job: Job, at: int)
    requires st.tenants.Keys == {"t"} && Ticket(tx, "t") !in st.readings && Ticket(tx, "t") !in st.unannounced
    ensures var after := Next(st, Query(tx, job, {"t"}, at));
            && Ticket(tx, "t") in Queried(st, tx, job, {"t"}, at)
            && after.tenants == st.tenants && after.unannounced == st.unannounced && after.taken == st.taken + 1
            && after.readings == st.readings[Ticket(tx, "t") := Reading(job, st.tenants["t"], at, st.taken)]
  {
    QueriedOne(st, tx, job, "t", at);
  }

  lemma EscalationSave(st: State, tx: nat, at: int)
    requires st.tenants.Keys == {"t"} && Ticket(tx, "t") in st.readings && st.tenants["t"].status == Active
    requires st.readings[Ticket(tx, "t")].job.Escalation? && st.readings[Ticket(tx, "t")].row.status == Active
    ensures var after := Next(st, Save(tx, "t", at));
            && after.tenants.Keys == {"t"} && after.tenants["t"].status == Active
            && after.readings == st.readings - {Ticket(tx, "t")}
            && after.unannounced.Keys <= st.unannounced.Keys + {Ticket(tx, "t")}
  {
    hide Billing.Escalates;
  }

  lemma EditSave(st: State, tx: nat, at: int)
    requires st.tenants.Keys == {"t"} && Ticket(tx, "t") in st.readings
    requires st.readings[Ticket(tx, "t")].job == Edit(Active, None) && st.readings[Ticket(tx, "t")].row == UNPAID
    ensures var after := Next(st, Save(tx, "t", at));
            && after.tenants == map["t" := UNPAID]
            && after.readings == st.readings - {Ticket(tx, "t")} && after.unannounced == st.unannounced
  {
  }

  lemma RoundStates(st: State, n: nat, at: int)
    requires Resting(st, n)
    ensures var round := Round(n, at);
            var one := Next(st, round[0]);
            var two := Next(one, round[1]);
            var three := Next(two, round[2]);
            var e, c := Ticket(2 * n + 1, "t"), Ticket(2 * n + 2, "t");
            && one.tenants == map["t" := UNPAID] && two.tenants == map["t" := UNPAID]
            && one.readings == map[e := Reading(Edit(Active, None), UNPAID, at, st.taken)]
            && c in Queried(one, c.tx, Job.Escalation, {"t"}, at)
            && two.readings == one.readings[c := Reading(Job.Escalation, UNPAID, at, one.taken)]
            && "t" in three.tenants && three.tenants["t"].status == Active && three.readings == one.readings
            && Resting(Next(three, round[3]), n + 1)
  {
    hide Next, Queried;
    var round := Round(n, at);
    var one := Next(st, round[0]);
    var two := Next(one, round[1]);
    var three := Next(two, round[2]);
    var e, c := Ticket(2 * n + 1, "t"), Ticket(2 * n + 2, "t");
    QueryUnpaid(st, e.tx, Edit(Active, None), at);
    QueryUnpaid(one, c.tx, Job.Escalation, at);
    EscalationSave(two, c.tx, at);
    assert two.readings - {c} == one.readings;
    EditSave(three, e.tx, at);
    assert one.readings - {e} == map[];
  }

  lemma RunGrows(steps: seq<Step>, s: Step)
    ensures Run(steps + [s]) == Next(Run(steps), s)
    ensures forall m | 0 <= m <= |steps| :: (steps + [s])[..m] == steps[..m]
  {
    assert (steps + [s])[..|steps|] == steps;
  }

  /** A regular run goes on regularly with a step whose clock is not late. */
  lemma RegularGrows(steps: seq<Step>, s: Step, id: string, k: nat, p: nat, d: nat)
    requires Regular(steps, id, k, p, d) && k < |steps|
    requires Timed(s) ==> s.now <= LastAsk(steps, id, k) + p
    requires forall t | Timed(s) && t in Run(steps).readings && t.id == id && Run(steps).readings[t].job.Escalation? ::
               s.now <= Run(steps).readings[t].at + d
    requires id in Next(Run(steps), s).tenants && Next(Run(steps), s).tenants[id].status == Active
    ensures Regular(steps + [s], id, k, p, d)
    ensures LastAsk(steps + [s], id, k) ==
            if Asks(steps + [s], id, |steps|) then (steps + [s])[|steps|].now else LastAsk(steps, id, k)
  {
    hide Run, Next, Asks;
    var more := steps + [s];
    RunGrows(steps, s);
    assert more[..|steps|] == steps && more[..|more|] == more;
    forall m: nat | k < m < |more| && Timed(more[m]) ensures more[m].now <= LastAsk(more[..m], id, k) + p {
    }
    hide LastAsk;
    forall m: nat, t | k < m < |more| && Timed(more[m]) && t in Run(more[..m]).readings
      ensures var r := Run(more[..m]).readings[t];
              t.id == id && r.job.Escalation? && k < r.since ==> more[m].now <= r.at + d
    {
      if m < |steps| {
        assert more[m] == steps[m] && t in Run(steps[..m]).readings;
      }
    }
    forall m: nat | k < m <= |more|
      ensures id in Run(more[..m]).tenants && Run(more[..m]).tenants[id].status == Active
    {
    }
  }

  lemma AsksNow(steps: seq<Step>, s: Step, id: string)
    requires s.Query? && s.job.Escalation? && id in Run(steps).tenants
    requires Ticket(s.tx, id) in Queried(Run(steps), s.tx, s.job, s.ids, s.now)
    ensures Asks(steps + [s], id, |steps|)
  {
    assert (steps + [s])[..|steps|] == steps;
    hide Run, Queried;
  }

  lemma FallsDueLater(steps: seq<Step>, s: Step, id: string, k: nat)
    requires FallsDue(steps, id, k)
    ensures FallsDue(steps + [s], id, k)
  {
    assert k < |steps|;
    assert (steps + [s])[..|steps|] == steps;
    PrefixSame(steps + [s], id, |steps|, k);
    hide Run, Writes;
  }

  /** The tenant has fallen past due with the third step, the run is regular since, and escalation asked at `last`. */
  predicate Going(steps: seq<Step>, last: int, p: nat, d: nat) {
    2 < |steps| && FallsDue(steps, "t", 2) && Regular(steps, "t", 2, p, d) && LastAsk(steps, "t", 2) == last
  }

  lemma GoesOn(steps: seq<Step>, s: Step, last: int, p: nat, d: nat)
    requires Going(steps, last, p, d) && Timed(s) && s.now <= last + p
    requires forall t | t in Run(steps).readings && Run(steps).readings[t].job.Escalation? ::
               s.now <= Run(steps).readings[t].at + d
    requires "t" in Next(Run(steps), s).tenants && Next(Run(steps), s).tenants["t"].status == Active
    requires s.Query? && s.job.Escalation? ==>
               && "t" in Run(steps).tenants
               && Ticket(s.tx, "t") in Queried(Run(steps), s.tx, s.job, s.ids, s.now)
    ensures Run(steps + [s]) == Next(Run(steps), s)
    ensures Going(steps + [s], if s.Query? && s.job.Escalation? then s.now else last, p, d)
  {
    hide Run, Next, Queried, Regular, FallsDue, LastAsk, Asks;
    RunGrows(steps, s);
    RegularGrows(steps, s, "t", 2, p, d);
    FallsDueLater(steps, s, "t", 2);
    if s.Query? && s.job.Escalation? {
      AsksNow(steps, s, "t");
    } else {
      AsksNot(steps, s);
    }
  }

  predicate RoundsDone(steps: seq<Step>, n: nat, p: nat, d: nat) {
    Going(steps, n * p, p, d) && Resting(Run(steps), n)
  }

  lemma OneRound(steps: seq<Step>, n: nat, last: int, p: nat, d: nat)
    requires Going(steps, last, p, d) && Resting(Run(steps), n)
    ensures var more := steps + Round(n, last + p); Going(more, last + p, p, d) && Resting(Run(more), n + 1)
  {
    var round := Round(n, last + p);
    hide Next, Queried, Going, Run;
    RoundStates(Run(steps), n, last + p);
    var a := steps + [round[0]];
    var b := a + [round[1]];
    var c := b + [round[2]];
    assert c + [round[3]] == steps + round;
    assert Run(steps).readings == map[];
    hide Resting;
    GoesOn(steps, round[0], last, p, d);
    GoesOn(a, round[1], last, p, d);
    GoesOn(b, round[2], last + p, p, d);
    GoesOn(c, round[3], last + p, p, d);
  }

  lemma AsksNot(steps: seq<Step>, s: Step)
    requires s.Query? ==> !s.job.Escalation?
    ensures !Asks(steps + [s], "t", |steps|)
  {
  }

  lemma Fallen(p: nat, d: nat)
    ensures RoundsDone(FALLEN, 0, p, d)
  {
    FallenRun(FALLEN, p, d);
  }

  lemma FallenStates(steps: seq<Step>)
    requires |steps| == 3 && steps[0] == Register("t", None)
    requires steps[1] == Query(0, FailedInvoice, {"t"}, 0) && steps[2] == Save(0, "t", 0)
    ensures var first := Reading(FailedInvoice, Billing.Tenant(Active, PaymentActive, None, None), 0, 1);
            && Run(steps[..2]).readings == map[Ticket(0, "t") := first]
            && Run(steps[..2]).tenants == map["t" := first.row] && Run(steps[..2]).unannounced == map[]
  {
    var row := Billing.Tenant(Active, PaymentActive, None, None);
    assert steps[..0] == [];
    PrefixNext(steps, 0);
    PrefixNext(steps, 1);
    assert Run(steps[..1]) == State(map["t" := row], 1, map[], map[], []);
    QueryUnpaid(Run(steps[..1]), 0, FailedInvoice, 0);
  }

  lemma FallenRun(steps: seq<Step>, p: nat, d: nat)
    requires |steps| == 3 && steps[0] == Register("t", None)
    requires steps[1] == Query(0, FailedInvoice, {"t"}, 0) && steps[2] == Save(0, "t", 0)
    ensures RoundsDone(steps, 0, p, d)
  {
    hide Run, Queried;
    FallenStates(steps);
    assert steps[..3] == steps;
    PrefixNext(steps, 2);
    var t := Ticket(0, "t");
    assert WritesAt(steps, "t", 2) && ReadingAt(steps, "t", 2).job == FailedInvoice;
    assert Run(steps).tenants == map["t" := UNPAID];
    assert Run(steps[..2]).readings - {t} == map[];
    assert Resting(Run(steps), 0);
    hide FallsDue, Next, Resting;
    assert Regular(steps, "t", 2, p, d);
  }

  lemma Times(n: nat, p: nat)
    ensures (n + 1) * p == n * p + p
  {
  }

  lemma {:induction false} RoundsAreRegular(n: nat, p: nat, d: nat)
    ensures RoundsDone(Overtaken(n, p), n, p, d)
  {
    hide Going, Round, Resting, Run;
    if n == 0 {
      Fallen(p, d);
    } else {
      var before := Overtaken(n - 1, p);
      RoundsAreRegular(n - 1, p, d);
      Times(n - 1, p);
      assert Overtaken(n, p) == before + Round(n - 1, n * p);
      hide Overtaken;
      OneRound(before, n - 1, (n - 1) * p, p, d);
    }
  }

  /** However often escalation asks and however fast it saves: after any number of rounds the run is regular, its
      clock has gone on by a round each, and the tenant is past due still. */
  lemma NeverLocked(n: nat, p: nat, d: nat)
    ensures var steps := Overtaken(n + 1, p);
            && FallsDue(steps, "t", 2) && Regular(steps, "t", 2, p, d)
            && exists m: nat | 2 < m < |steps| && Timed(steps[m]) ::
                 steps[m].now == (n + 1) * p && Run(steps[..m]).tenants == map["t" := UNPAID]
  {
    RoundsAreRegular(n, p, d);
    RoundsAreRegular(n + 1, p, d);
    var before, steps := Overtaken(n, p), Overtaken(n + 1, p);
    var m := |before|;
    assert steps[..m] == before && steps[m] == Round(n, (n + 1) * p)[0];
    hide Run, Regular, FallsDue;
    assert steps[m].now == (n + 1) * p && Run(steps[..m]).tenants == map["t" := UNPAID];
  }

  /** Every regular run locks its tenant in time, `overtaking` telling whether saves may come out of order in it. */
  ghost predicate AlwaysLocks(p: nat, d: nat, overtaking: bool) {
    forall steps: seq<Step>, id: string, k: nat, m: nat |
      && FallsDue(steps, id, k) && Regular(steps, id, k, p, d) && (overtaking || AllInOrder(steps, id, k))
      && k < m < |steps| && Timed(steps[m]) && steps[k].now + 3 * WEEK + 2 * p + 2 * d <= steps[m].now ::
      RankAt(steps, id, m) == 3
  }

  lemma InOrderLocks(p: nat, d: nat)
    ensures AlwaysLocks(p, d, false)
  {
    forall steps: seq<Step>, id: string, k: nat, m: nat |
      && FallsDue(steps, id, k) && Regular(steps, id, k, p, d) && AllInOrder(steps, id, k)
      && k < m < |steps| && Timed(steps[m]) && steps[k].now + 3 * WEEK + 2 * p + 2 * d <= steps[m].now
      ensures RankAt(steps, id, m) == 3
    {
      hide FallsDue, Regular, AllInOrder;
      UnpaidGetsLocked(steps, id, k, p, d, m);
    }
  }

  lemma OvertakingDoesNot(p: nat, d: nat)
    requires 0 < p
    ensures !AlwaysLocks(p, d, true)
  {
    hide FallsDue, Regular, AllInOrder, Overtaken;
    var bound := 3 * WEEK + 2 * p + 2 * d;
    NeverLocked(bound, p, d);
    FirstSteps(bound + 1, p);
    AtLeast(bound, p);
    var steps := Overtaken(bound + 1, p);
    var m: nat :| 2 < m < |steps| && Timed(steps[m]) && steps[m].now == (bound + 1) * p
                  && Run(steps[..m]).tenants == map["t" := UNPAID];
    assert RankAt(steps, "t", m) == 1;
  }

  lemma AtLeast(n: nat, p: nat)
    requires 0 < p
    ensures n <= (n + 1) * p
  {
  }

  /** Whatever its period and delay, escalation locks in time exactly when no save comes out of order. */
  lemma LocksInTimeExactly(p: nat, d: nat, overtaking: bool)
    requires 0 < p
    ensures AlwaysLocks(p, d, overtaking) <==> !overtaking
  {
    hide AlwaysLocks;
    InOrderLocks(p, d);
    OvertakingDoesNot(p, d);
  }

  lemma {:induction false} FirstSteps(n: nat, p: nat)
    ensures 2 < |Overtaken(n, p)| && Overtaken(n, p)[2] == Save(0, "t", 0)
  {
    if n > 0 {
      FirstSteps(n - 1, p);
    }
  }
}
