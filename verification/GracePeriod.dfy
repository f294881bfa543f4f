/** What overlapping operations leave of the 30-day grace period before a tenant is deleted. */
module GracePeriod {
  import opened Wrappers
  import opened BillingModel
  import opened DeletionSteps
  import Calendar
  import Whole = TenantLifecycle

  // ---------- Where a scheduled row comes from

  /** The scheduling save that the tenant's present row goes back to, through the readings of the edits after it. */
  function EntryOf(steps: seq<Step>, id: string): Option<nat>
    decreases |steps|
  {
    if |steps| == 0 then None
    else
      var n := |steps| - 1;
      if Saves(steps, id, n) then
        var r := ReadingAt(steps, id, n);
        if Schedules(r.job) then Some(n)
        else if r.job.Edit? && r.since < n then EntryOf(steps[..r.since], id)
        else None
      else EntryOf(steps[..n], id)
  }

  /** Edit `l` is on the way from the scheduling save to the tenant's present row. */
  predicate Leads(steps: seq<Step>, id: string, l: nat)
    decreases |steps|
  {
    && |steps| > 0
    && var n := |steps| - 1;
       if Saves(steps, id, n) then
         var r := ReadingAt(steps, id, n);
         r.job.Edit? && r.since < n && (l == n || Leads(steps[..r.since], id, l))
       else Leads(steps[..n], id, l)
  }

  /** Save `e` schedules the tenant, at the date of its clock. */
  predicate SchedulesAt(steps: seq<Step>, id: string, e: nat) {
    Saves(steps, id, e) && Schedules(ReadingAt(steps, id, e).job)
  }

  function DateOf(steps: seq<Step>, id: string, e: nat): int
    requires SchedulesAt(steps, id, e)
  {
    ReadingAt(steps, id, e).job.op.now
  }

  predicate Entered(steps: seq<Step>, id: string) {
    var e := EntryOf(steps, id);
    && e.Some? && e.value < |steps| && SchedulesAt(steps, id, e.value) && id in Run(steps).tenants
    && Run(steps).tenants[id].deletionScheduledAt == Some(DateOf(steps, id, e.value))
  }

  lemma EnteredLater(steps: seq<Step>, id: string, m: nat)
    requires m <= |steps| && Entered(steps[..m], id) && EntryOf(steps, id) == EntryOf(steps[..m], id)
    requires id in Run(steps).tenants && Run(steps).tenants[id] == Run(steps[..m]).tenants[id]
    ensures Entered(steps, id)
  {
    PrefixSame(steps, id, m, EntryOf(steps, id).value);
    hide Run, EntryOf, Decided, Ends;
  }

  lemma LegalBefore(steps: seq<Step>, m: nat)
    requires m <= |steps| && Legal(steps)
    ensures Legal(steps[..m])
  {
  }

  /** A scheduled row goes back to a scheduling save, and carries its date. */
  lemma {:induction false} DateIsEntry(steps: seq<Step>, id: string)
    requires Legal(steps) && IsScheduled(steps, id, |steps|)
    ensures Entered(steps, id)
    decreases |steps|
  {
    assert steps[..|steps|] == steps;
    var n := |steps| - 1;
    var m := n;
    hide Run, Decided, Ends;
    if Saves(steps, id, n) {
      ScheduledSaved(steps, id, n);
      m := ReadingAt(steps, id, n).since;
    } else {
      ScheduledKept(steps, id, n);
    }
    if !Saves(steps, id, n) || !Schedules(ReadingAt(steps, id, n).job) {
      assert EntryOf(steps, id) == EntryOf(steps[..m], id);
      hide EntryOf, Entered;
      LegalBefore(steps, m);
      assert steps[..m][..m] == steps[..m];
      DateIsEntry(steps[..m], id);
      EnteredLater(steps, id, m);
    }
  }

  // ---------- What comes across

  /** Step `x` takes the tenant off the schedule: it cancels, locks, suspends, restores or removes it. */
  predicate TakesOff(steps: seq<Step>, id: string, x: nat) {
    x < |steps| && IsScheduled(steps, id, x) && !IsScheduled(steps, id, x + 1)
  }

  /** The tenant is taken off the schedule between the reading and the end of the job that ends at `l`. */
  predicate Crossed(steps: seq<Step>, id: string, l: nat)
    requires Ends(steps, id, l)
  {
    exists x: nat | x < l :: ReadingAt(steps, id, l).since < x && TakesOff(steps, id, x)
  }

  predicate CrossedOnTheWay(steps: seq<Step>, id: string, l: nat) {
    Leads(steps, id, l) && Ends(steps, id, l) && Crossed(steps, id, l)
  }

  predicate EditCrossed(steps: seq<Step>, id: string) {
    exists l: nat | l < |steps| :: CrossedOnTheWay(steps, id, l)
  }

  predicate ScheduledThroughout(steps: seq<Step>, id: string, e: nat, to: nat)
    requires to <= |steps|
  {
    forall m: nat | e < m <= to :: IsScheduled(steps, id, m)
  }

  lemma {:induction false} ScheduledOn(steps: seq<Step>, id: string, a: nat, b: nat)
    requires a <= b <= |steps| && IsScheduled(steps, id, a)
    requires forall x: nat | a <= x < b :: !TakesOff(steps, id, x)
    ensures forall m: nat | a <= m <= b :: IsScheduled(steps, id, m)
  {
    hide IsScheduled;
    if a < b {
      ScheduledOn(steps, id, a, b - 1);
      assert !TakesOff(steps, id, b - 1);
    }
  }

  /** From a reading of a scheduled row on, the tenant stays scheduled exactly when nothing takes it off. */
  lemma ThroughReading(steps: seq<Step>, id: string, l: nat)
    requires Ends(steps, id, l) && ReadingAt(steps, id, l).since < l
    requires steps[ReadingAt(steps, id, l).since].Read? && IsScheduled(steps, id, ReadingAt(steps, id, l).since)
    ensures var since := ReadingAt(steps, id, l).since;
            ScheduledThroughout(steps, id, since, l) <==> !Crossed(steps, id, l)
  {
    var since := ReadingAt(steps, id, l).since;
    ReadTakesNothingOff(steps, id, since);
    hide IsScheduled, Run;
    if !Crossed(steps, id, l) {
      ScheduledOn(steps, id, since, l);
    } else {
      var x: nat :| x < l && since < x && TakesOff(steps, id, x);
      assert !IsScheduled(steps, id, x + 1);
    }
  }

  lemma ReadTakesNothingOff(steps: seq<Step>, id: string, x: nat)
    requires x < |steps| && steps[x].Read?
    ensures !TakesOff(steps, id, x)
  {
    PrefixNext(steps, x);
  }

  lemma CrossedSame(steps: seq<Step>, id: string, m: nat, l: nat)
    requires l < m <= |steps| && Ends(steps, id, l)
    ensures Ends(steps[..m], id, l) && Crossed(steps[..m], id, l) == Crossed(steps, id, l)
  {
    PrefixSame(steps, id, m, l);
    hide Ends;
    forall x: nat | x < l ensures TakesOff(steps[..m], id, x) == TakesOff(steps, id, x) {
      assert steps[..m][..x] == steps[..x] && steps[..m][..x + 1] == steps[..x + 1];
    }
    hide TakesOff, ReadingAt;
  }

  lemma ThroughoutSame(steps: seq<Step>, id: string, m: nat, e: nat)
    requires m <= |steps|
    ensures ScheduledThroughout(steps[..m], id, e, m) == ScheduledThroughout(steps, id, e, m)
  {
    hide Run;
    forall j: nat | j <= m ensures IsScheduled(steps[..m], id, j) == IsScheduled(steps, id, j) {
      assert steps[..m][..j] == steps[..j];
    }
  }

  /** The way of the run is that of its first `m` steps, with the edit `own` if there is one. */
  ghost predicate WayVia(steps: seq<Step>, id: string, m: nat, own: Option<nat>)
    requires m <= |steps|
  {
    forall l: nat :: Leads(steps, id, l) <==> Leads(steps[..m], id, l) || own == Some(l)
  }

  /** The edits on the way of a run that goes back to its first `m` steps, and to the edit `own` if there is one. */
  lemma CrossedLater(steps: seq<Step>, id: string, m: nat, own: Option<nat>)
    requires m <= |steps| && (own.Some? ==> m <= own.value < |steps| && Ends(steps, id, own.value))
    requires WayVia(steps, id, m, own)
    requires forall l: nat | Leads(steps[..m], id, l) :: l < m && Ends(steps[..m], id, l)
    ensures EditCrossed(steps, id) <==>
            EditCrossed(steps[..m], id) || (own.Some? && Crossed(steps, id, own.value))
  {
    hide Leads, Crossed, Ends;
    forall l: nat | l < m && Leads(steps[..m], id, l)
      ensures CrossedOnTheWay(steps[..m], id, l) == CrossedOnTheWay(steps, id, l)
    {
      EndsBefore(steps, id, m, l);
      CrossedSame(steps, id, m, l);
    }
    if EditCrossed(steps, id) {
      var l: nat :| l < |steps| && CrossedOnTheWay(steps, id, l);
      assert Leads(steps[..m], id, l) ==> CrossedOnTheWay(steps[..m], id, l);
    }
    if own.Some? && Crossed(steps, id, own.value) {
      assert CrossedOnTheWay(steps, id, own.value);
    }
    if EditCrossed(steps[..m], id) {
      var l: nat :| l < m && CrossedOnTheWay(steps[..m], id, l);
      assert CrossedOnTheWay(steps, id, l);
    }
  }

  lemma EndsBefore(steps: seq<Step>, id: string, m: nat, l: nat)
    requires l < m <= |steps| && Ends(steps[..m], id, l)
    ensures Ends(steps, id, l)
  {
    PrefixSame(steps, id, m, l);
  }

  lemma {:induction false} LeadsEnd(steps: seq<Step>, id: string, l: nat)
    requires Leads(steps, id, l)
    ensures l < |steps| && Ends(steps, id, l)
    decreases |steps|
  {
    var n := |steps| - 1;
    hide Run, Decided;
    if Saves(steps, id, n) {
      if l != n {
        LeadsEnd(steps[..ReadingAt(steps, id, n).since], id, l);
        EndsBefore(steps, id, ReadingAt(steps, id, n).since, l);
      }
    } else {
      LeadsEnd(steps[..n], id, l);
      EndsBefore(steps, id, n, l);
    }
  }

  /** The row has gone back to one entry through the first `m` steps; it has been scheduled ever since exactly when it
      was until `m`, and from there on. */
  lemma ThroughoutSplits(steps: seq<Step>, id: string, e: nat, m: nat, to: nat)
    requires e < m <= to <= |steps|
    ensures ScheduledThroughout(steps, id, e, to) <==>
            ScheduledThroughout(steps[..m], id, e, m) && ScheduledThroughout(steps, id, m, to)
  {
    ThroughoutSame(steps, id, m, e);
    hide IsScheduled;
  }

  lemma WayKept(steps: seq<Step>, id: string)
    requires |steps| > 0 && !Saves(steps, id, |steps| - 1)
    ensures EntryOf(steps, id) == EntryOf(steps[..|steps| - 1], id)
    ensures WayVia(steps, id, |steps| - 1, None)
  {
    hide Saves;
  }

  lemma WayOfEdit(steps: seq<Step>, id: string)
    requires |steps| > 0 && Saves(steps, id, |steps| - 1)
    requires var r := ReadingAt(steps, id, |steps| - 1); r.job.Edit? && r.since < |steps| - 1
    ensures var since := ReadingAt(steps, id, |steps| - 1).since;
            && EntryOf(steps, id) == EntryOf(steps[..since], id)
            && WayVia(steps, id, since, Some(|steps| - 1))
  {
    hide Saves, ReadingAt;
  }

  lemma SinceKept(steps: seq<Step>, id: string)
    requires |steps| > 0 && !Saves(steps, id, |steps| - 1) && IsScheduled(steps, id, |steps|) && Entered(steps, id)
    requires SinceExactly(steps[..|steps| - 1], id)
    ensures SinceExactly(steps, id)
  {
    var n := |steps| - 1;
    hide Run, Entered, EditCrossed, Saves, EntryOf, Leads, IsScheduled, WayVia;
    WayKept(steps, id);
    CrossedBefore(steps, id, n, None);
    EntryInside(steps[..n], id);
    ThroughoutSplits(steps, id, EntryOf(steps, id).value, n, n + 1);
    LastOnly(steps, id);
  }

  lemma LastOnly(steps: seq<Step>, id: string)
    requires |steps| > 0 && IsScheduled(steps, id, |steps|)
    ensures ScheduledThroughout(steps, id, |steps| - 1, |steps|)
  {
    hide IsScheduled;
  }

  lemma EntryInside(steps: seq<Step>, id: string)
    requires Entered(steps, id)
    ensures EntryOf(steps, id).Some? && EntryOf(steps, id).value < |steps|
  {
  }

  lemma CrossedBefore(steps: seq<Step>, id: string, m: nat, own: Option<nat>)
    requires m <= |steps| && (own.Some? ==> m <= own.value < |steps| && Ends(steps, id, own.value))
    requires WayVia(steps, id, m, own)
    ensures EditCrossed(steps, id) <==>
            EditCrossed(steps[..m], id) || (own.Some? && Crossed(steps, id, own.value))
  {
    hide Leads, Ends, EditCrossed, Crossed, WayVia;
    forall l: nat | Leads(steps[..m], id, l) ensures l < m && Ends(steps[..m], id, l) {
      LeadsEnd(steps[..m], id, l);
    }
    CrossedLater(steps, id, m, own);
  }

  lemma SinceScheduling(steps: seq<Step>, id: string)
    requires |steps| > 0 && Saves(steps, id, |steps| - 1) && Schedules(ReadingAt(steps, id, |steps| - 1).job)
    requires IsScheduled(steps, id, |steps|) && Entered(steps, id)
    ensures SinceExactly(steps, id)
  {
    hide Run, IsScheduled, Decided, Crossed, Entered;
    assert EntryOf(steps, id) == Some(|steps| - 1);
    LastOnly(steps, id);
  }

  lemma SinceEdit(steps: seq<Step>, id: string, since: nat)
    requires |steps| > 0 && since < |steps| - 1 && IsScheduled(steps, id, |steps|) && Entered(steps, id)
    requires Saves(steps, id, |steps| - 1) && ReadingAt(steps, id, |steps| - 1).job.Edit?
    requires since == ReadingAt(steps, id, |steps| - 1).since && IsScheduled(steps, id, since) && steps[since].Read?
    requires SinceExactly(steps[..since], id)
    ensures SinceExactly(steps, id)
  {
    assert Ends(steps, id, |steps| - 1);
    hide Run, Entered, EditCrossed, Saves, EntryOf, Leads, IsScheduled, WayVia, Ends, ReadingAt, ScheduledThroughout;
    WayOfEdit(steps, id);
    CrossedBefore(steps, id, since, Some(|steps| - 1));
    EntryInside(steps[..since], id);
    SinceReading(steps, id, EntryOf(steps, id).value);
  }

  /** The stretch from the entry splits at the reading of the edit that ends with the last step. */
  lemma SinceReading(steps: seq<Step>, id: string, e: nat)
    requires |steps| > 0 && IsScheduled(steps, id, |steps|) && Ends(steps, id, |steps| - 1)
    requires var since := ReadingAt(steps, id, |steps| - 1).since;
             e < since < |steps| - 1 && IsScheduled(steps, id, since) && steps[since].Read?
    ensures var since := ReadingAt(steps, id, |steps| - 1).since;
            ScheduledThroughout(steps, id, e, |steps|) <==>
            ScheduledThroughout(steps[..since], id, e, since) && !Crossed(steps, id, |steps| - 1)
  {
    hide *;
    var since := ReadingAt(steps, id, |steps| - 1).since;
    ThroughReading(steps, id, |steps| - 1);
    ThroughoutSplits(steps, id, e, since, |steps|);
    ThroughoutAnd(steps, id, since, |steps| - 1);
  }

  lemma ThroughoutAnd(steps: seq<Step>, id: string, e: nat, n: nat)
    requires e < n < |steps| && IsScheduled(steps, id, n + 1)
    ensures ScheduledThroughout(steps, id, e, n + 1) <==> ScheduledThroughout(steps, id, e, n)
  {
    hide IsScheduled;
  }

  /** The tenant has been scheduled ever since the scheduling save its row goes back to exactly when nothing took it
      off while an edit on the way was under way. */
  predicate SinceExactly(steps: seq<Step>, id: string) {
    && Entered(steps, id)
    && (ScheduledThroughout(steps, id, EntryOf(steps, id).value, |steps|) <==> !EditCrossed(steps, id))
  }

  lemma {:induction false} ScheduledSinceExactly(steps: seq<Step>, id: string)
    requires Legal(steps) && IsScheduled(steps, id, |steps|)
    ensures SinceExactly(steps, id)
    decreases |steps|
  {
    hide Run, Decided, Ends, SinceExactly, Entered, EntryOf, Legal;
    DateIsEntry(steps, id);
    assert steps[..|steps|] == steps;
    StartsUnscheduled(id);
    var n := |steps| - 1;
    if !Saves(steps, id, n) {
      ScheduledKept(steps, id, n);
      Shorter(steps, id, n);
      ScheduledSinceExactly(steps[..n], id);
      SinceKept(steps, id);
    } else {
      ScheduledSaved(steps, id, n);
      var since := ReadingAt(steps, id, n).since;
      if Schedules(ReadingAt(steps, id, n).job) {
        SinceScheduling(steps, id);
      } else {
        HasRead(steps, id, n);
        Shorter(steps, id, since);
        ScheduledSinceExactly(steps[..since], id);
        SinceEdit(steps, id, since);
      }
    }
  }

  lemma StartsUnscheduled(id: string)
    ensures !IsScheduled([], id, 0)
  {
  }

  lemma Shorter(steps: seq<Step>, id: string, m: nat)
    requires Legal(steps) && m <= |steps| && IsScheduled(steps, id, m)
    ensures Legal(steps[..m]) && IsScheduled(steps[..m], id, |steps[..m]|)
  {
    assert steps[..m][..m] == steps[..m];
  }

  // ---------- Removals

  /** Step `j` ends the execution of a deletion. */
  predicate Executes(steps: seq<Step>, id: string, j: nat) {
    Ends(steps, id, j) && ReadingAt(steps, id, j).job.Transition? && ReadingAt(steps, id, j).job.op.ExecuteDeletion?
  }

  predicate Deletes(steps: seq<Step>, id: string, j: nat) {
    Executes(steps, id, j) && Decided(ReadingAt(steps, id, j)).Delete?
  }

  lemma DecidedByDate(r: Reading)
    requires r.job.Transition? && r.job.op.ExecuteDeletion? && r.row.deletionScheduledAt.Some?
    ensures Decided(r).Delete? <==>
            && r.row.status == DeletionScheduled
            && r.row.deletionScheduledAt.value + Whole.GRACE_DAYS * Calendar.MS_PER_DAY <= r.job.op.now
  {
    Whole.GraceArithmetic(r.row.deletionScheduledAt.value, r.job.op.now);
  }

  lemma UnscheduledStays(r: Reading)
    requires r.job.Transition? && r.job.op.ExecuteDeletion? && r.row.status != DeletionScheduled
    ensures Decided(r).Nothing?
  {
  }

  /** Over every interleaving: an execution deletes exactly when the row it has read goes back to a scheduling at
      least 30 times 24 hours before. The tenant has been scheduled ever since then exactly when nothing took it off
      the schedule while the execution, or an edit on the way to the row it has read, was under way. */
  lemma RemovalGoesBackExactly(steps: seq<Step>, id: string, j: nat)
    requires Legal(steps) && Executes(steps, id, j)
    ensures ReadingAt(steps, id, j).since < j
    ensures var r := ReadingAt(steps, id, j);
            var e := EntryOf(steps[..r.since], id);
            && (Deletes(steps, id, j) <==>
                  && IsScheduled(steps, id, r.since) && e.Some? && SchedulesAt(steps, id, e.value)
                  && DateOf(steps, id, e.value) + Whole.GRACE_DAYS * Calendar.MS_PER_DAY <= r.job.op.now)
            && (Deletes(steps, id, j) ==>
                  (ScheduledThroughout(steps, id, e.value, j) <==>
                     !Crossed(steps, id, j) && !EditCrossed(steps[..r.since], id)))
  {
    HasRead(steps, id, j);
    var r := ReadingAt(steps, id, j);
    if IsScheduled(steps, id, r.since) {
      Shorter(steps, id, r.since);
      ScheduledSinceExactly(steps[..r.since], id);
      RowRead(steps, id, r.since);
      DecidedByDate(r);
      hide Run, Decided, EditCrossed, EntryOf, Leads;
      var e := EntryOf(steps[..r.since], id).value;
      PrefixSame(steps, id, r.since, e);
      ThroughReading(steps, id, j);
      hide IsScheduled, Ends, Crossed;
      ThroughoutSplits(steps, id, e, r.since, j);
    } else {
      UnscheduledStays(r);
    }
  }

  lemma RowRead(steps: seq<Step>, id: string, m: nat)
    requires m <= |steps| && Entered(steps[..m], id)
    ensures id in Run(steps[..m]).tenants && EntryOf(steps[..m], id).Some?
    ensures var e := EntryOf(steps[..m], id).value;
            e < m && SchedulesAt(steps, id, e)
            && Run(steps[..m]).tenants[id].deletionScheduledAt == Some(DateOf(steps, id, e))
  {
    PrefixSame(steps, id, m, EntryOf(steps[..m], id).value);
    hide Run, EntryOf, Decided;
  }

  // ---------- Deleted after a cancellation

  const MONTH := Whole.GRACE_DAYS * Calendar.MS_PER_DAY

  function Scheduling(): Job {
    Transition(Whole.ScheduleDeletion("t", true, None, 0))
  }

  function Cancelling(at: int): Job {
    Transition(Whole.CancelDeletion("t", true, true, at))
  }

  function Executing(at: int): Job {
    Transition(Whole.ExecuteDeletion("t", at))
  }

  /** The deletion is cancelled after its execution has read the row. */
  const CANCELLED_LATE: seq<Step> := [
    Create("t", Active), Read(0, Scheduling()), Write(0),
    Read(1, Executing(MONTH)), Read(2, Cancelling(MONTH)), Write(2), Write(1)]

  /** An edit reads the row before the cancellation and saves it after, and the deletion is executed weeks later. */
  const SCHEDULED_AGAIN: seq<Step> := [
    Create("t", Active), Read(0, Scheduling()), Write(0),
    Read(1, Edit("t")), Read(2, Cancelling(1)), Write(2), Write(1),
    Read(3, Executing(MONTH)), Write(3)]

  function Plain(status: TenantStatus, since: Option<int>): Whole.Tenant {
    Whole.Tenant(status, since, None, None, None, None)
  }

  lemma ScheduledFirst(steps: seq<Step>)
    requires 3 <= |steps|
    requires steps[0] == Create("t", Active) && steps[1] == Read(0, Scheduling()) && steps[2] == Write(0)
    ensures Run(steps[..3]) == State(map["t" := Plain(DeletionScheduled, Some(0))], 3, map[])
  {
    PrefixNext(steps, 0);
    PrefixNext(steps, 1);
    PrefixNext(steps, 2);
    assert Run(steps[..0]) == START;
    assert Run(steps[..1]) == State(map["t" := Plain(Active, None)], 1, map[]);
    assert Run(steps[..2]) == State(map["t" := Plain(Active, None)], 2,
                                    map[0 := Reading(Scheduling(), Plain(Active, None), 1)]);
    assert map[0 := Reading(Scheduling(), Plain(Active, None), 1)] - {0} == map[];
  }

  lemma ReadOne(st: State, tx: nat, job: Job)
    requires Subject(job) in st.tenants && tx !in st.readings
    ensures Next(st, Read(tx, job)) ==
            State(st.tenants, st.taken + 1, st.readings[tx := Reading(job, st.tenants[Subject(job)], st.taken)])
  {
  }

  /** The tenant after a job has been done with it. */
  function After(before: Whole.Tenant, o: Outcome): Whole.Tenants {
    match o
    case Nothing => map["t" := before]
    case Save(row) => map["t" := row]
    case Delete => map[]
  }

  lemma WriteOne(st: State, tx: nat)
    requires st.tenants.Keys == {"t"} && tx in st.readings && Subject(st.readings[tx].job) == "t"
    ensures Next(st, Write(tx)) ==
            State(After(st.tenants["t"], Decided(st.readings[tx])), st.taken + 1, st.readings - {tx})
  {
    hide Decided;
    assert st.tenants == map["t" := st.tenants["t"]];
    assert map["t" := st.tenants["t"]] - {"t"} == map[];
  }

  /** From a scheduled row: `job` reads, the cancellation reads and saves, `job` ends. */
  lemma CancelledBetween(steps: seq<Step>, job: Job, at: int)
    requires 7 <= |steps| && Subject(job) == "t"
    requires Run(steps[..3]) == State(map["t" := Plain(DeletionScheduled, Some(0))], 3, map[])
    requires steps[3] == Read(1, job) && steps[4] == Read(2, Cancelling(at))
    requires steps[5] == Write(2) && steps[6] == Write(1)
    ensures Run(steps[..6]).tenants == map["t" := Plain(Active, None)]
    ensures var r := Reading(job, Plain(DeletionScheduled, Some(0)), 3);
            Run(steps[..7]) == State(After(Plain(Active, None), Decided(r)), 7, map[])
  {
    PrefixNext(steps, 3);
    PrefixNext(steps, 4);
    PrefixNext(steps, 5);
    PrefixNext(steps, 6);
    var row := Plain(DeletionScheduled, Some(0));
    var a, c := Reading(job, row, 3), Reading(Cancelling(at), row, 4);
    assert Decided(c) == Save(Plain(Active, None));
    hide Run, Next, Decided, Cancelling;
    ReadOne(Run(steps[..3]), 1, job);
    assert Subject(Cancelling(at)) == "t" by {
      SubjectOfCancelling(at);
    }
    ReadOne(Run(steps[..4]), 2, Cancelling(at));
    hide Subject;
    assert Run(steps[..5]) == State(map["t" := row], 5, map[1 := a, 2 := c]);
    WriteOne(Run(steps[..5]), 2);
    assert map[1 := a, 2 := c] - {2} == map[1 := a] && map[1 := a] - {1} == map[];
    WriteOne(Run(steps[..6]), 1);
  }

  lemma SubjectOfCancelling(at: int)
    ensures Subject(Cancelling(at)) == "t"
  {
  }

  /** Both runs remove a tenant whose deletion was cancelled, the second one weeks after. */
  lemma CancelledThenRemoved()
    ensures Legal(CANCELLED_LATE) && Legal(SCHEDULED_AGAIN)
    ensures Run(CANCELLED_LATE[..6]).tenants == map["t" := Plain(Active, None)] && Run(CANCELLED_LATE).tenants == map[]
    ensures Run(SCHEDULED_AGAIN[..6]).tenants == map["t" := Plain(Active, None)]
            && Run(SCHEDULED_AGAIN).tenants == map[]
  {
    hide Run, Decided;
    CancelledLate(CANCELLED_LATE);
    ScheduledAgain(SCHEDULED_AGAIN);
    assert CANCELLED_LATE[..7] == CANCELLED_LATE && SCHEDULED_AGAIN[..9] == SCHEDULED_AGAIN;
  }

  lemma CancelledLate(steps: seq<Step>)
    requires |steps| == 7
    requires steps[0] == Create("t", Active) && steps[1] == Read(0, Scheduling()) && steps[2] == Write(0)
    requires steps[3] == Read(1, Executing(MONTH)) && steps[4] == Read(2, Cancelling(MONTH))
    requires steps[5] == Write(2) && steps[6] == Write(1)
    ensures Run(steps[..6]).tenants == map["t" := Plain(Active, None)] && Run(steps[..7]).tenants == map[]
  {
    DecidedByDate(Reading(Executing(MONTH), Plain(DeletionScheduled, Some(0)), 3));
    hide Run, Decided;
    ScheduledFirst(steps);
    CancelledBetween(steps, Executing(MONTH), MONTH);
  }

  lemma ScheduledAgain(steps: seq<Step>)
    requires |steps| == 9
    requires steps[0] == Create("t", Active) && steps[1] == Read(0, Scheduling()) && steps[2] == Write(0)
    requires steps[3] == Read(1, Edit("t")) && steps[4] == Read(2, Cancelling(1))
    requires steps[5] == Write(2) && steps[6] == Write(1) && steps[7] == Read(3, Executing(MONTH))
             && steps[8] == Write(3)
    ensures Run(steps[..6]).tenants == map["t" := Plain(Active, None)] && Run(steps[..9]).tenants == map[]
  {
    var row := Plain(DeletionScheduled, Some(0));
    DecidedByDate(Reading(Executing(MONTH), row, 7));
    assert Decided(Reading(Edit("t"), row, 3)) == Save(row);
    hide Run, Decided;
    ScheduledFirst(steps);
    CancelledBetween(steps, Edit("t"), 1);
    PrefixNext(steps, 7);
    PrefixNext(steps, 8);
    ReadOne(Run(steps[..7]), 3, Executing(MONTH));
    WriteOne(Run(steps[..8]), 3);
  }
}
