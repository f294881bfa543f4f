/** The tenant lifecycle store access by store access: an operation reads the tenant's row, decides by it, and later
    saves or deletes, whatever has happened to the row in between. What this leaves of the 30-day grace period. */
module DeletionSteps {
  import opened Wrappers
  import opened BillingModel
  import Whole = TenantLifecycle

  /** `Edit` stands for the writers that leave the lifecycle fields as they read them: profile, domain and billing. */
  datatype Job =
    | Transition(op: Whole.Step)
    | Edit(id: string)

  function Subject(job: Job): string {
    match job
    case Transition(op) => op.id
    case Edit(id) => id
  }

  /** A row in the hands of a job, with the number of steps at the time it was read. */
  datatype Reading = Reading(job: Job, row: Whole.Tenant, since: nat)

  datatype Outcome = Nothing | Save(row: Whole.Tenant) | Delete

  datatype State = State(tenants: Whole.Tenants, taken: nat, readings: map<nat, Reading>)

  const START := State(map[], 0, map[])

  /** The clock of a transition is the one it reads once it has its row. */
  datatype Step =
    | Create(id: string, status: TenantStatus)
    | Read(tx: nat, job: Job)
    | Write(tx: nat)
    | Remove(id: string)

  /** What a job makes of the row it has read. */
  function Decided(r: Reading): Outcome {
    match r.job
    case Edit(_) => Save(r.row)
    case Transition(op) =>
      var alone := map[op.id := r.row];
      if op.Create? || Whole.Refused(alone, op).Some? || (op.AutoUnlock? && r.row.status != Locked) then Nothing
      else if op.ExecuteDeletion? then Delete
      else Save(Whole.Next(alone, op)[op.id])
  }

  function Written(st: State, tx: nat): State {
    if tx !in st.readings then st
    else
      var r := st.readings[tx];
      var id := Subject(r.job);
      var done := st.(readings := st.readings - {tx});
      match Decided(r)
      case Nothing => done
      case Save(row) => done.(tenants := st.tenants[id := row])
      case Delete => done.(tenants := st.tenants - {id})
  }

  function Effect(st: State, s: Step): State {
    match s
    case Create(id, status) => st.(tenants := Whole.Next(st.tenants, Whole.Step.Create(id, status)))
    case Read(tx, job) =>
      if Subject(job) !in st.tenants || tx in st.readings then st
      else st.(readings := st.readings[tx := Reading(job, st.tenants[Subject(job)], st.taken)])
    case Write(tx) => Written(st, tx)
    case Remove(id) => st.(tenants := st.tenants - {id})
  }

  function Next(st: State, s: Step): State {
    Effect(st, s).(taken := st.taken + 1)
  }

  function Run(steps: seq<Step>): State {
    if |steps| == 0 then START else Next(Run(steps[..|steps| - 1]), steps[|steps| - 1])
  }

  /** Alone, the steps of a transition are the whole operation. */
  lemma TransitionAlone(tenants: Whole.Tenants, op: Whole.Step)
    requires !op.Create?
    ensures Next(Next(State(tenants, 0, map[]), Read(0, Transition(op))), Write(0)).tenants == Whole.Next(tenants, op)
  {
    if op.id in tenants {
      var one := Next(State(tenants, 0, map[]), Read(0, Transition(op)));
      assert one.readings == map[0 := Reading(Transition(op), tenants[op.id], 0)];
      assert tenants[op.id := tenants[op.id]] == tenants;
    }
  }

  // ---------- What a save goes back to

  predicate IsScheduled(steps: seq<Step>, id: string, m: nat)
    requires m <= |steps|
  {
    Whole.IsScheduled(Run(steps[..m]).tenants, id)
  }

  /** New tenants do not start out scheduled for deletion. */
  predicate Legal(steps: seq<Step>) {
    forall k | 0 <= k < |steps| :: steps[k].Create? ==> steps[k].status != DeletionScheduled
  }

  /** Step `j` ends a job on tenant `id`. */
  predicate Ends(steps: seq<Step>, id: string, j: nat) {
    && j < |steps| && steps[j].Write? && steps[j].tx in Run(steps[..j]).readings
    && Subject(Run(steps[..j]).readings[steps[j].tx].job) == id
  }

  function ReadingAt(steps: seq<Step>, id: string, j: nat): Reading
    requires Ends(steps, id, j)
  {
    Run(steps[..j]).readings[steps[j].tx]
  }

  predicate Saves(steps: seq<Step>, id: string, j: nat) {
    Ends(steps, id, j) && Decided(ReadingAt(steps, id, j)).Save?
  }

  predicate Schedules(job: Job) {
    job.Transition? && job.op.ScheduleDeletion?
  }

  lemma PrefixNext(steps: seq<Step>, j: nat)
    requires j < |steps|
    ensures Run(steps[..j + 1]) == Next(Run(steps[..j]), steps[j])
  {
    assert steps[..j + 1][..j] == steps[..j];
  }

  lemma PrefixSame(steps: seq<Step>, id: string, m: nat, j: nat)
    requires j < m <= |steps|
    ensures steps[..m][..j] == steps[..j] && steps[..m][j] == steps[j]
    ensures Ends(steps[..m], id, j) == Ends(steps, id, j) && Saves(steps[..m], id, j) == Saves(steps, id, j)
    ensures Ends(steps, id, j) ==> ReadingAt(steps[..m], id, j) == ReadingAt(steps, id, j)
  {
    hide Run, Decided;
    assert steps[..m][..j] == steps[..j];
  }

  predicate ReadingHolds(steps: seq<Step>, r: Reading) {
    && r.since < |steps| && steps[r.since].Read?
    && Subject(r.job) in Run(steps[..r.since]).tenants && r.row == Run(steps[..r.since]).tenants[Subject(r.job)]
  }

  lemma {:induction false} Readings(steps: seq<Step>)
    ensures Run(steps).taken == |steps|
    ensures forall tx | tx in Run(steps).readings :: ReadingHolds(steps, Run(steps).readings[tx])
  {
    if |steps| > 0 {
      var n := |steps| - 1;
      Readings(steps[..n]);
      var before, after := Run(steps[..n]), Run(steps);
      assert after == Next(before, steps[n]);
      hide Run, Decided, Whole.Next;
      forall tx | tx in after.readings ensures ReadingHolds(steps, after.readings[tx]) {
        if tx in before.readings && after.readings[tx] == before.readings[tx] {
          var r := before.readings[tx];
          assert ReadingHolds(steps[..n], r);
          assert steps[..n][..r.since] == steps[..r.since];
        }
      }
    }
  }

  /** What the job that ends at `j` has read. */
  lemma HasRead(steps: seq<Step>, id: string, j: nat)
    requires Ends(steps, id, j)
    ensures var r := ReadingAt(steps, id, j);
            && r.since < j && steps[r.since].Read?
            && id in Run(steps[..r.since]).tenants && r.row == Run(steps[..r.since]).tenants[id]
  {
    Readings(steps[..j]);
    var r := ReadingAt(steps, id, j);
    assert ReadingHolds(steps[..j], r);
    hide Run;
    assert steps[..j][..r.since] == steps[..r.since];
  }

  /** Between saves a scheduled row does not change. */
  lemma ScheduledKept(steps: seq<Step>, id: string, j: nat)
    requires j < |steps| && Legal(steps) && !Saves(steps, id, j) && IsScheduled(steps, id, j + 1)
    ensures IsScheduled(steps, id, j) && Run(steps[..j + 1]).tenants[id] == Run(steps[..j]).tenants[id]
  {
    PrefixNext(steps, j);
    hide Run, Decided;
  }

  /** A save that leaves a scheduled row schedules, or is an edit that has read one. */
  lemma ScheduledSaved(steps: seq<Step>, id: string, j: nat)
    requires Saves(steps, id, j) && IsScheduled(steps, id, j + 1)
    ensures var r := ReadingAt(steps, id, j);
            && r.since < j
            && (if Schedules(r.job) then Run(steps[..j + 1]).tenants[id].deletionScheduledAt == Some(r.job.op.now)
                else r.job.Edit? && IsScheduled(steps, id, r.since)
                     && Run(steps[..j + 1]).tenants[id] == Run(steps[..r.since]).tenants[id])
  {
    PrefixNext(steps, j);
    HasRead(steps, id, j);
    hide Run;
  }
}
