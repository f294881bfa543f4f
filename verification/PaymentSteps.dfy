/** Payment status store access by store access: every handler and job reads a tenant's row, and later writes the row
    it has read back with its change, whatever happened to the row in between. */
module PaymentSteps {
  import opened Wrappers
  import opened BillingModel
  import Billing

  /** Who reads and writes tenants. `Edit` stands for the writers that leave the payment fields as they read them:
      the end of a trial, the tenant lifecycle, the profile. */
  datatype Job =
    | Escalation
    | PaidInvoice
    | FailedInvoice
    | Edit(status: TenantStatus, trialEndsAt: Option<int>)

  /** A row in the hands of a job, with the clock and the number of steps at the time it was read. */
  datatype Reading = Reading(job: Job, row: Billing.Tenant, at: int, since: nat)
  datatype Ticket = Ticket(tx: nat, id: string)

  /** A change of status and the number of steps taken when it was saved. */
  datatype Emission = Emission(change: Billing.Change, saved: nat)

  /** `unannounced`: saved changes whose event has not been emitted yet; `emitted`: the events, in order. */
  datatype State = State(
    tenants: map<string, Billing.Tenant>, taken: nat, readings: map<Ticket, Reading>,
    unannounced: map<Ticket, Emission>, emitted: seq<Emission>)

  const START := State(map[], 0, map[], map[], [])

  /** One query reads all its tenants at once; each of them is saved, and its change announced, by a step of its own.
      */
  datatype Step =
    | Register(id: string, trialEndsAt: Option<int>)
    | Query(tx: nat, job: Job, ids: set<string>, now: int)
    | Save(tx: nat, id: string, now: int)
    | Announce(tx: nat, id: string)

  /** The row a job saves, if it saves one: escalation goes by the clock of its query, handlers by their own. */
  function Written(r: Reading, now: int): Option<Billing.Tenant> {
    match r.job
    case Escalation =>
      var row := Billing.Escalated(r.row, r.at);
      if row == r.row then None else Some(row)
    case PaidInvoice =>
      if r.row.paymentStatus == PaymentActive then None
      else Some(r.row.(paymentStatus := PaymentActive, changedAt := Some(now)))
    case FailedInvoice =>
      if r.row.paymentStatus == PastDue then None
      else Some(r.row.(paymentStatus := PastDue, changedAt := Some(now)))
    case Edit(status, trialEndsAt) =>
      Some(r.row.(status := status, trialEndsAt := trialEndsAt))
  }

  function Queried(st: State, tx: nat, job: Job, ids: set<string>, now: int): map<Ticket, Reading> {
    map id | id in ids && id in st.tenants && Ticket(tx, id) !in st.readings && Ticket(tx, id) !in st.unannounced ::
      Ticket(tx, id) := Reading(job, st.tenants[id], now, st.taken)
  }

  function ChangeOf(id: string, r: Reading, row: Billing.Tenant, now: int): Billing.Change {
    Billing.Change(id, r.row.paymentStatus, row.paymentStatus, if r.job.Escalation? then r.at else now)
  }

  function Saved(st: State, t: Ticket, now: int): State {
    if t !in st.readings then st
    else
      var r := st.readings[t];
      var row := Written(r, now);
      var done := st.(readings := st.readings - {t});
      if row.None? then done
      else
        done.(tenants := st.tenants[t.id := row.value],
              unannounced := if row.value.paymentStatus == r.row.paymentStatus then st.unannounced
                             else st.unannounced[t := Emission(ChangeOf(t.id, r, row.value, now), st.taken)])
  }

  function Announced(st: State, t: Ticket): State {
    if t !in st.unannounced then st
    else st.(unannounced := st.unannounced - {t}, emitted := st.emitted + [st.unannounced[t]])
  }

  function Effect(st: State, s: Step): State {
    match s
    case Register(id, trialEndsAt) =>
      if id in st.tenants then st
      else st.(tenants := st.tenants[id := Billing.Tenant(Active, PaymentActive, None, trialEndsAt)])
    case Query(tx, job, ids, now) => st.(readings := st.readings + Queried(st, tx, job, ids, now))
    case Save(tx, id, now) => Saved(st, Ticket(tx, id), now)
    case Announce(tx, id) => Announced(st, Ticket(tx, id))
  }

  function Next(st: State, s: Step): State {
    Effect(st, s).(taken := st.taken + 1)
  }

  function Run(steps: seq<Step>): State {
    if |steps| == 0 then START else Next(Run(steps[..|steps| - 1]), steps[|steps| - 1])
  }

  // ---------- Alone, the steps are the whole operations

  function Changes(emitted: seq<Emission>): seq<Billing.Change> {
    seq(|emitted|, i requires 0 <= i < |emitted| => emitted[i].change)
  }

  /** A job that reads, saves and announces one tenant without a step in between. */
  function Alone(tenants: map<string, Billing.Tenant>, id: string, job: Job, now: int): State {
    var st := State(tenants, 0, map[], map[], []);
    Next(Next(Next(st, Query(0, job, {id}, now)), Save(0, id, now)), Announce(0, id))
  }

  /** The state leaves the tenants and announces the changes as the whole operation does. */
  predicate Does(st: State, before: Billing.World, after: Billing.World) {
    st.tenants == after.tenants && before.changes + Changes(st.emitted) == after.changes
  }

  lemma AloneSteps(tenants: map<string, Billing.Tenant>, id: string, job: Job, now: int)
    ensures id !in tenants ==>
              Alone(tenants, id, job, now).tenants == tenants && Alone(tenants, id, job, now).emitted == []
    ensures id in tenants ==>
              var r := Reading(job, tenants[id], now, 0);
              var row := Written(r, now);
              && Alone(tenants, id, job, now).tenants == (if row.Some? then tenants[id := row.value] else tenants)
              && Alone(tenants, id, job, now).emitted ==
                 (if row.Some? && row.value.paymentStatus != r.row.paymentStatus
                  then [Emission(ChangeOf(id, r, row.value, now), 1)] else [])
  {
    var st := State(tenants, 0, map[], map[], []);
    var t := Ticket(0, id);
    var one := Next(st, Query(0, job, {id}, now));
    if id in tenants {
      assert one.readings == map[t := Reading(job, tenants[id], now, 0)];
      hide Written;
      var two := Next(one, Save(0, id, now));
      assert two.unannounced.Keys <= {t};
    } else {
      assert one.readings == map[];
    }
  }

  /** The save of a row that escalation has read is the save its service makes, on any table. */
  lemma EscalationSaves(st: State, t: Ticket, now: int)
    requires t in st.readings && st.readings[t].job == Escalation
    ensures Saved(st, t, now).tenants ==
            Billing.EscalatedFrom(Billing.World([], st.tenants, []), t.id, st.readings[t].row,
                                  st.readings[t].at).tenants
  {
    hide Billing.Escalated;
  }

  lemma HandlerAlone(w: Billing.World, id: string, paid: bool, now: int)
    ensures Does(Alone(w.tenants, id, if paid then PaidInvoice else FailedInvoice, now), w,
                 Billing.SetPayment(w, id, if paid then PaymentActive else PastDue, now))
  {
    AloneSteps(w.tenants, id, if paid then PaidInvoice else FailedInvoice, now);
    hide Alone;
  }

  lemma EscalationAlone(w: Billing.World, id: string, now: int)
    ensures Does(Alone(w.tenants, id, Escalation, now), w, Billing.EscalatedOne(w, id, now))
  {
    AloneSteps(w.tenants, id, Escalation, now);
    hide Alone, Billing.Escalated;
    if id in w.tenants {
      assert w.tenants[id := w.tenants[id]] == w.tenants;
    }
  }

  // ---------- The saves a row goes back to

  /** The step saves a row of tenant `id`. */
  predicate Writes(st: State, s: Step, id: string) {
    && s.Save? && s.id == id && Ticket(s.tx, id) in st.readings
    && Written(st.readings[Ticket(s.tx, id)], s.now).Some?
  }

  predicate WritesAt(steps: seq<Step>, id: string, j: nat) {
    j < |steps| && Writes(Run(steps[..j]), steps[j], id)
  }

  /** Step `j` is the end of the handling of a paid invoice of tenant `id`, whether it saves or finds nothing to do.
      */
  predicate Finishes(steps: seq<Step>, id: string, j: nat) {
    && j < |steps| && steps[j].Save? && steps[j].id == id
    && Ticket(steps[j].tx, id) in Run(steps[..j]).readings
    && Run(steps[..j]).readings[Ticket(steps[j].tx, id)].job == PaidInvoice
  }

  /** The reading a save at `j` completes. */
  function ReadingAt(steps: seq<Step>, id: string, j: nat): Reading
    requires WritesAt(steps, id, j) || Finishes(steps, id, j)
  {
    Run(steps[..j]).readings[Ticket(steps[j].tx, id)]
  }

  function LastWrite(steps: seq<Step>, id: string): (r: Option<nat>)
    ensures r.Some? ==> WritesAt(steps, id, r.value) && forall j: nat | r.value < j < |steps| :: !WritesAt(steps, id, j)
    ensures r.None? ==> forall j: nat | j < |steps| :: !WritesAt(steps, id, j)
  {
    if |steps| == 0 then None
    else
      var n := |steps| - 1;
      var r := LastWrite(steps[..n], id);
      PrefixWrites(steps, id);
      if WritesAt(steps, id, n) then Some(n) else r
  }

  lemma PrefixWrites(steps: seq<Step>, id: string)
    requires |steps| > 0
    ensures forall j: nat | j < |steps| - 1 :: WritesAt(steps[..|steps| - 1], id, j) == WritesAt(steps, id, j)
  {
    hide Run, Writes;
    forall j: nat | j < |steps| - 1 ensures WritesAt(steps[..|steps| - 1], id, j) == WritesAt(steps, id, j) {
      assert steps[..|steps| - 1][..j] == steps[..j];
    }
  }
}
