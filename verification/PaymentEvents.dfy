/** The events published about a tenant's payment status, and what a subscriber can rebuild from them. */
module PaymentEvents {
  import opened Wrappers
  import opened BillingModel
  import opened PaymentSteps
  import opened UnpaidTenants
  import Billing

  /** A published event, as far as a subscriber follows the payment status. */
  datatype Published = Published(tenantId: string, eventType: string, timestamp: int)

  function EventTypes(change: Billing.Change): seq<string> {
    match change.next
    case PastDue => ["payment.failed"]
    case Restricted => ["tenant.restricted"]
    case PaymentLocked => ["tenant.locked"]
    case PaymentActive => if change.previous != PaymentActive then ["payment.restored", "tenant.restored"] else []
  }

  function Publication(change: Billing.Change): seq<Published> {
    var types := EventTypes(change);
    seq(|types|, i requires 0 <= i < |types| => Published(change.tenantId, types[i], change.changedAt))
  }

  function Publications(changes: seq<Billing.Change>): seq<Published> {
    if |changes| == 0 then [] else Publications(changes[..|changes| - 1]) + Publication(changes[|changes| - 1])
  }

  /** The event is one of those the change calls for, and carries its tenant and its instant. */
  predicate CallsFor(change: Billing.Change, e: Published) {
    && e.tenantId == change.tenantId && e.timestamp == change.changedAt
    && if change.next == PaymentActive
       then change.previous != PaymentActive && (e.eventType == "payment.restored" || e.eventType == "tenant.restored")
       else
         && (e.eventType == "payment.failed" <==> change.next == PastDue)
         && (e.eventType == "tenant.restricted" <==> change.next == Restricted)
         && (e.eventType == "tenant.locked" <==> change.next == PaymentLocked)
  }

  lemma PublicationExactly(change: Billing.Change, e: Published)
    ensures e in Publication(change) <==> CallsFor(change, e)
  {
    var types := EventTypes(change);
    assert forall eventType | eventType in types ::
      exists i | 0 <= i < |types| :: types[i] == eventType && Publication(change)[i].eventType == eventType;
    if CallsFor(change, e) {
      assert e.eventType in types;
      var i :| 0 <= i < |types| && types[i] == e.eventType;
      assert Publication(change)[i] == e;
    }
  }

  /** An event is published exactly if one of the changes calls for it. */
  lemma {:induction false} PublishedExactly(changes: seq<Billing.Change>, e: Published)
    ensures e in Publications(changes) <==> exists k | 0 <= k < |changes| :: CallsFor(changes[k], e)
  {
    hide Publication, CallsFor;
    if |changes| > 0 {
      var n := |changes| - 1;
      PublishedExactly(changes[..n], e);
      PublicationExactly(changes[n], e);
      assert forall k | 0 <= k < n :: changes[..n][k] == changes[k];
    }
  }

  class BillingListener {
    /** What has been handed to the topic, in order. */
    var published: seq<Published>

    constructor ()
      ensures published == []
    {
      published := [];
    }

    method HandleTenantPaymentStatusChanged(change: Billing.Change)
      modifies this
      ensures published == old(published) + Publication(change)
      ensures old(published) <= published
      ensures forall e | e in published[|old(published)|..] :: CallsFor(change, e)
      ensures |published| == |old(published)| + (if change.next != PaymentActive then 1
                                                 else if change.previous != PaymentActive then 2 else 0)
    {
      var publishEvents: seq<string> := [];
      if change.next == PastDue {
        publishEvents := publishEvents + ["payment.failed"];
      }
      if change.next == Restricted {
        publishEvents := publishEvents + ["tenant.restricted"];
      }
      if change.next == PaymentLocked {
        publishEvents := publishEvents + ["tenant.locked"];
      }
      if change.next == PaymentActive && change.previous != PaymentActive {
        publishEvents := publishEvents + ["payment.restored"];
        publishEvents := publishEvents + ["tenant.restored"];
      }
      assert publishEvents == EventTypes(change);
      forall e ensures e in Publication(change) <==> CallsFor(change, e) {
        PublicationExactly(change, e);
      }
      for i := 0 to |publishEvents|
        invariant published == old(published) + Publication(change)[..i]
      {
        published := published + [Published(change.tenantId, publishEvents[i], change.changedAt)];
      }
    }
  }

  // ---------- Replay

  /** What a subscriber makes of one event type. */
  function Means(eventType: string, current: PaymentStatus): PaymentStatus {
    if eventType == "payment.failed" then PastDue
    else if eventType == "tenant.restricted" then Restricted
    else if eventType == "tenant.locked" then PaymentLocked
    else if eventType == "payment.restored" || eventType == "tenant.restored" then PaymentActive
    else current
  }

  /** The status of tenant `id` rebuilt from the published events, starting from active. */
  function Replay(published: seq<Published>, id: string): PaymentStatus {
    if |published| == 0 then PaymentActive
    else
      var before := Replay(published[..|published| - 1], id);
      var e := published[|published| - 1];
      if e.tenantId == id then Means(e.eventType, before) else before
  }

  function ReplayFrom(start: PaymentStatus, published: seq<Published>, id: string): PaymentStatus {
    if |published| == 0 then start
    else
      var before := ReplayFrom(start, published[..|published| - 1], id);
      var e := published[|published| - 1];
      if e.tenantId == id then Means(e.eventType, before) else before
  }

  lemma {:induction false} ReplayConcat(a: seq<Published>, b: seq<Published>, id: string)
    ensures Replay(a + b, id) == ReplayFrom(Replay(a, id), b, id)
  {
    hide Means;
    if |b| > 0 {
      ReplayConcat(a, b[..|b| - 1], id);
      assert (a + b)[..|a + b| - 1] == a + b[..|b| - 1];
    } else {
      assert a + b == a;
    }
  }

  /** A genuine change carries its subject to its next status; the others stay where they are. */
  lemma ChangeReplays(change: Billing.Change, start: PaymentStatus, id: string)
    requires change.previous != change.next
    ensures ReplayFrom(start, Publication(change), id) == if id == change.tenantId then change.next else start
  {
    var es := Publication(change);
    assert ReplayFrom(start, es[..0], id) == start;
    if |es| == 2 {
      assert es[..2] == es && es[..2][..1] == es[..1] && es[..1][..0] == es[..0];
    } else {
      assert es[..1] == es;
    }
  }

  /** The last status announced for `id`. */
  function LastAnnounced(changes: seq<Billing.Change>, id: string): PaymentStatus {
    if |changes| == 0 then PaymentActive
    else if changes[|changes| - 1].tenantId == id then changes[|changes| - 1].next
    else LastAnnounced(changes[..|changes| - 1], id)
  }

  predicate Genuine(changes: seq<Billing.Change>) {
    forall k | 0 <= k < |changes| :: changes[k].previous != changes[k].next
  }

  lemma {:induction false} ReplayIsAnnounced(changes: seq<Billing.Change>, id: string)
    requires Genuine(changes)
    ensures Replay(Publications(changes), id) == LastAnnounced(changes, id)
  {
    if |changes| > 0 {
      var n := |changes| - 1;
      ReplayIsAnnounced(changes[..n], id);
      ReplayConcat(Publications(changes[..n]), Publication(changes[n]), id);
      ChangeReplays(changes[n], Replay(Publications(changes[..n]), id), id);
    }
  }

  // ---------- Every reachable state

  /** The events published in a run, in the order of the announcements. */
  function PublishedIn(steps: seq<Step>): seq<Published> {
    Publications(Changes(Run(steps).emitted))
  }

  function LastEmission(emitted: seq<Emission>, id: string): Option<Emission> {
    if |emitted| == 0 then None
    else if emitted[|emitted| - 1].change.tenantId == id then Some(emitted[|emitted| - 1])
    else LastEmission(emitted[..|emitted| - 1], id)
  }

  /** The status a save left; before the first one a tenant is active. */
  function StatusLeft(steps: seq<Step>, id: string, j: Option<nat>): PaymentStatus
    requires j.Some? ==> WritesAt(steps, id, j.value)
  {
    if j.None? then PaymentActive else Written(ReadingAt(steps, id, j.value), steps[j.value].now).value.paymentStatus
  }

  /** An announcement stands for a save that changed the status. */
  predicate StandsFor(steps: seq<Step>, e: Emission) {
    var id := e.change.tenantId;
    && WritesAt(steps, id, e.saved)
    && e.change.next == StatusLeft(steps, id, Some(e.saved)) && e.change.previous != e.change.next
  }

  predicate AllStand(steps: seq<Step>) {
    && (forall t | t in Run(steps).unannounced ::
          Run(steps).unannounced[t].change.tenantId == t.id && StandsFor(steps, Run(steps).unannounced[t]))
    && (forall i | 0 <= i < |Run(steps).emitted| :: StandsFor(steps, Run(steps).emitted[i]))
  }

  lemma StandsStill(steps: seq<Step>, e: Emission)
    requires |steps| > 0 && StandsFor(steps[..|steps| - 1], e)
    ensures StandsFor(steps, e)
  {
    PrefixSame(steps, e.change.tenantId, |steps| - 1, e.saved);
    hide Run, Writes, Written;
  }

  lemma UnannouncedStep(st: State, s: Step, t: Ticket)
    requires t in Next(st, s).unannounced
    ensures if t in st.unannounced && Next(st, s).unannounced[t] == st.unannounced[t] then true
            else
              && s.Save? && t == Ticket(s.tx, s.id) && t in st.readings && Written(st.readings[t], s.now).Some?
              && var row := Written(st.readings[t], s.now).value;
                 && row.paymentStatus != st.readings[t].row.paymentStatus
                 && Next(st, s).unannounced[t] == Emission(ChangeOf(t.id, st.readings[t], row, s.now), st.taken)
  {
    hide Written;
  }

  lemma EmittedStep(st: State, s: Step)
    ensures || Next(st, s).emitted == st.emitted
            || (exists t | t in st.unannounced :: Next(st, s).emitted == st.emitted + [st.unannounced[t]])
  {
    hide Written;
  }

  lemma NewStands(steps: seq<Step>, t: Ticket)
    requires |steps| > 0
    requires var st := Run(steps[..|steps| - 1]);
             var s := steps[|steps| - 1];
             && st.taken == |steps| - 1
             && s.Save? && t == Ticket(s.tx, s.id) && t in st.readings && Written(st.readings[t], s.now).Some?
             && Written(st.readings[t], s.now).value.paymentStatus != st.readings[t].row.paymentStatus
    ensures var st := Run(steps[..|steps| - 1]);
            var s := steps[|steps| - 1];
            StandsFor(steps, Emission(ChangeOf(t.id, st.readings[t], Written(st.readings[t], s.now).value, s.now),
                                      st.taken))
  {
    hide Run, Written;
  }

  lemma {:induction false} EveryoneStands(steps: seq<Step>)
    ensures AllStand(steps)
  {
    if |steps| > 0 {
      var n := |steps| - 1;
      EveryoneStands(steps[..n]);
      Readings(steps[..n]);
      var before, after := Run(steps[..n]), Run(steps);
      assert after == Next(before, steps[n]);
      hide Run, Next, StandsFor, Written;
      forall t | t in after.unannounced
        ensures after.unannounced[t].change.tenantId == t.id && StandsFor(steps, after.unannounced[t])
      {
        UnannouncedStep(before, steps[n], t);
        if t in before.unannounced && after.unannounced[t] == before.unannounced[t] {
          StandsStill(steps, before.unannounced[t]);
        } else {
          NewStands(steps, t);
        }
      }
      EmittedStep(before, steps[n]);
      forall i | 0 <= i < |after.emitted| ensures StandsFor(steps, after.emitted[i]) {
        if i < |before.emitted| {
          StandsStill(steps, before.emitted[i]);
        } else {
          var t :| t in before.unannounced && after.emitted == before.emitted + [before.unannounced[t]];
          StandsStill(steps, before.unannounced[t]);
        }
      }
    }
  }

  lemma {:induction false} AnnouncedIsLast(emitted: seq<Emission>, id: string)
    ensures var e := LastEmission(emitted, id);
            LastAnnounced(Changes(emitted), id) == if e.Some? then e.value.change.next else PaymentActive
    ensures LastEmission(emitted, id).Some? ==>
              && LastEmission(emitted, id).value in emitted
              && LastEmission(emitted, id).value.change.tenantId == id
  {
    if |emitted| > 0 {
      var n := |emitted| - 1;
      AnnouncedIsLast(emitted[..n], id);
      assert Changes(emitted)[..n] == Changes(emitted[..n]);
    }
  }

  function SaveOf(e: Option<Emission>): Option<nat> {
    if e.Some? then Some(e.value.saved) else None
  }

  /** In every reachable state, replaying what was published about a tenant gives the status left by the save that was
      announced last, and the tenant has the status left by the last save: the two agree exactly when these two saves
      left the same status. */
  lemma ReplayRebuildsStatusExactly(steps: seq<Step>, id: string)
    requires id in Run(steps).tenants
    ensures var announced := SaveOf(LastEmission(Run(steps).emitted, id));
            && (announced.Some? ==> WritesAt(steps, id, announced.value))
            && Replay(PublishedIn(steps), id) == StatusLeft(steps, id, announced)
            && Run(steps).tenants[id].paymentStatus == StatusLeft(steps, id, LastWrite(steps, id))
            && (Replay(PublishedIn(steps), id) == Run(steps).tenants[id].paymentStatus <==>
                  StatusLeft(steps, id, announced) == StatusLeft(steps, id, LastWrite(steps, id)))
  {
    EveryoneStands(steps);
    RowsAreWritten(steps, id);
    hide Run, Written, LastWrite, WritesAt;
    var emitted := Run(steps).emitted;
    AnnouncedIsLast(emitted, id);
    ReplayIsAnnounced(Changes(emitted), id);
  }

  // ---------- Saves and announcements in turn

  predicate Outstanding(st: State, id: string) {
    exists t | t in st.unannounced :: t.id == id
  }

  function Current(st: State, id: string): PaymentStatus {
    if id in st.tenants then st.tenants[id].paymentStatus else PaymentActive
  }

  /** A save of `row` by the reading `r` leaves the status it finds, or announces a change with none outstanding. */
  predicate Tells(st: State, id: string, r: Reading, row: Billing.Tenant) {
    || row.paymentStatus == Current(st, id)
    || (row.paymentStatus != r.row.paymentStatus && !Outstanding(st, id))
  }

  predicate TellsAt(steps: seq<Step>, id: string, k: nat) {
    WritesAt(steps, id, k) ==>
      var r := ReadingAt(steps, id, k);
      Tells(Run(steps[..k]), id, r, Written(r, steps[k].now).value)
  }

  predicate InTurn(steps: seq<Step>, id: string) {
    forall k: nat | k < |steps| :: TellsAt(steps, id, k)
  }

  lemma TellsBefore(steps: seq<Step>, id: string, n: nat, k: nat)
    requires k < n <= |steps|
    ensures TellsAt(steps[..n], id, k) == TellsAt(steps, id, k)
  {
    PrefixSame(steps, id, n, k);
    PrefixRun(steps, n, k);
    hide Run, Tells, Written;
  }

  /** The outstanding changes of the tenant lead to its present status; without any, it is the one announced. */
  predicate Caught(st: State, id: string) {
    && (forall t | t in st.unannounced :: st.unannounced[t].change.tenantId == t.id)
    && (forall t | t in st.unannounced && t.id == id :: st.unannounced[t].change.next == Current(st, id))
    && (!Outstanding(st, id) ==> LastAnnounced(Changes(st.emitted), id) == Current(st, id))
  }

  lemma AnnouncedOne(emitted: seq<Emission>, e: Emission, id: string)
    ensures LastAnnounced(Changes(emitted + [e]), id) ==
            if e.change.tenantId == id then e.change.next else LastAnnounced(Changes(emitted), id)
  {
    assert Changes(emitted + [e])[..|emitted|] == Changes(emitted);
  }

  /** A step that neither announces nor touches the tenant's status and outstanding changes. */
  lemma CaughtBeside(st: State, after: State, id: string)
    requires Caught(st, id) && after.emitted == st.emitted && Current(after, id) == Current(st, id)
    requires forall t | t in after.unannounced :: after.unannounced[t].change.tenantId == t.id
    requires forall t: Ticket | t.id == id :: t in after.unannounced <==> t in st.unannounced
    requires forall t: Ticket | t.id == id && t in st.unannounced :: after.unannounced[t] == st.unannounced[t]
    ensures Caught(after, id)
  {
    hide LastAnnounced, Changes, Current;
  }

  lemma CaughtSave(st: State, t: Ticket, now: int)
    requires Caught(st, t.id) && t in st.readings && Written(st.readings[t], now).Some?
    requires Tells(st, t.id, st.readings[t], Written(st.readings[t], now).value)
    ensures Caught(Saved(st, t, now), t.id)
  {
    hide LastAnnounced, Changes, Written;
  }

  lemma CaughtAnnounce(st: State, t: Ticket, id: string)
    requires Caught(st, id) && t in st.unannounced
    ensures Caught(PaymentSteps.Announced(st, t), id)
  {
    AnnouncedOne(st.emitted, st.unannounced[t], id);
    hide LastAnnounced, Changes;
  }

  lemma CaughtStep(st: State, s: Step, id: string)
    requires Caught(st, id)
    requires Writes(st, s, id) ==>
               var r := st.readings[Ticket(s.tx, id)]; Tells(st, id, r, Written(r, s.now).value)
    ensures Caught(Next(st, s), id)
  {
    hide Caught, LastAnnounced, Changes, Written, Outstanding, Tells;
    var after := Effect(st, s);
    assert Caught(after, id) by {
      match s {
        case Announce(tx, other) =>
          if Ticket(tx, other) in st.unannounced {
            CaughtAnnounce(st, Ticket(tx, other), id);
          }
        case Save(tx, other, now) =>
          if Writes(st, s, id) {
            CaughtSave(st, Ticket(tx, id), now);
          } else {
            AllTicketed(st, id);
            CaughtBeside(st, after, id);
          }
        case Register(_, _) =>
          AllTicketed(st, id);
          CaughtBeside(st, after, id);
        case Query(_, _, _, _) =>
          AllTicketed(st, id);
          CaughtBeside(st, after, id);
      }
    }
    CaughtClock(after, st.taken + 1, id);
  }

  lemma AllTicketed(st: State, id: string)
    requires Caught(st, id)
    ensures forall t | t in st.unannounced :: st.unannounced[t].change.tenantId == t.id
  {
  }

  lemma CaughtClock(st: State, taken: nat, id: string)
    requires Caught(st, id)
    ensures Caught(st.(taken := taken), id)
  {
  }

  lemma {:induction false} CaughtAlways(steps: seq<Step>, id: string)
    requires InTurn(steps, id)
    ensures Caught(Run(steps), id)
  {
    if |steps| > 0 {
      var n := |steps| - 1;
      InTurnBefore(steps, id, n);
      CaughtAlways(steps[..n], id);
      assert TellsAt(steps, id, n);
      assert WritesAt(steps, id, n) == Writes(Run(steps[..n]), steps[n], id);
      assert Run(steps) == Next(Run(steps[..n]), steps[n]);
      hide Run, Next, Caught, Writes, Tells;
      CaughtStep(Run(steps[..n]), steps[n], id);
    }
  }

  lemma InTurnBefore(steps: seq<Step>, id: string, n: nat)
    requires n <= |steps| && InTurn(steps, id)
    ensures InTurn(steps[..n], id)
  {
    hide TellsAt;
    forall k: nat | k < n ensures TellsAt(steps[..n], id, k) {
      TellsBefore(steps, id, n, k);
    }
  }

  predicate OnlyAnnounces(steps: seq<Step>) {
    forall k | 0 <= k < |steps| :: steps[k].Announce?
  }

  lemma InTurnStill(steps: seq<Step>, more: seq<Step>, id: string)
    requires InTurn(steps, id) && OnlyAnnounces(more)
    ensures InTurn(steps + more, id)
  {
    var all := steps + more;
    assert all[..|steps|] == steps;
    hide Run, Tells, Written;
    forall k: nat | k < |all| ensures TellsAt(all, id, k) {
      if k < |steps| {
        TellsBefore(all, id, |steps|, k);
      }
    }
  }

  /** A subscriber has caught up once no announcement of the tenant is outstanding. */
  predicate Agrees(steps: seq<Step>, id: string) {
    !Outstanding(Run(steps), id) ==> Replay(PublishedIn(steps), id) == Current(Run(steps), id)
  }

  lemma ReplayedIsAnnounced(steps: seq<Step>, id: string)
    ensures Replay(PublishedIn(steps), id) == LastAnnounced(Changes(Run(steps).emitted), id)
  {
    EveryoneStands(steps);
    hide Run, StandsFor;
    assert forall e | e in Run(steps).emitted :: StandsFor(steps, e);
    GenuineChanges(steps);
    ReplayIsAnnounced(Changes(Run(steps).emitted), id);
  }

  /** When every save tells the truth, replay gives the tenant's status whenever no announcement is outstanding. */
  lemma ReplayRebuildsStatus(steps: seq<Step>, id: string)
    requires InTurn(steps, id)
    ensures Agrees(steps, id)
  {
    CaughtAlways(steps, id);
    ReplayedIsAnnounced(steps, id);
    hide Run;
  }

  lemma GenuineChanges(steps: seq<Step>)
    requires AllStand(steps)
    ensures Genuine(Changes(Run(steps).emitted))
  {
    hide Run, Written, WritesAt;
  }

  // ---------- Saves out of turn

  /** Whatever part of the run has passed, and in whatever order the outstanding changes are then announced, a
      subscriber who has caught up knows the status. */
  ghost predicate AlwaysAgrees(steps: seq<Step>, id: string) {
    forall m: nat, more: seq<Step> | m <= |steps| && OnlyAnnounces(more) :: Agrees(steps[..m] + more, id)
  }

  function OutstandingOf(st: State, id: string): set<Ticket> {
    set t | t in st.unannounced && t.id == id
  }

  lemma AnnounceRuns(steps: seq<Step>, t: Ticket)
    requires t in Run(steps).unannounced
    ensures var st := Run(steps);
            Run(steps + [Announce(t.tx, t.id)]) ==
            st.(unannounced := st.unannounced - {t}, emitted := st.emitted + [st.unannounced[t]], taken := st.taken + 1)
  {
    assert (steps + [Announce(t.tx, t.id)])[..|steps|] == steps;
    assert Ticket(t.tx, t.id) == t;
  }

  /** All outstanding changes of the tenant can be announced with any one of them as the last. */
  lemma {:induction false} AnnounceLast(steps: seq<Step>, id: string, u: Ticket) returns (more: seq<Step>)
    requires u in Run(steps).unannounced && u.id == id
    requires forall t | t in Run(steps).unannounced :: Run(steps).unannounced[t].change.tenantId == t.id
    ensures OnlyAnnounces(more) && !Outstanding(Run(steps + more), id)
    ensures Run(steps + more).tenants == Run(steps).tenants
    ensures LastAnnounced(Changes(Run(steps + more).emitted), id) == Run(steps).unannounced[u].change.next
    decreases OutstandingOf(Run(steps), id)
  {
    hide Run, LastAnnounced, Changes;
    var st := Run(steps);
    var t := u;
    if OutstandingOf(st, id) != {u} {
      t :| t in OutstandingOf(st, id) && t != u;
    }
    var one := [Announce(t.tx, t.id)];
    AnnounceRuns(steps, t);
    AnnouncedOne(st.emitted, st.unannounced[t], id);
    OneFewer(st, Run(steps + one), id, t);
    if t == u {
      more := one;
    } else {
      hide OutstandingOf;
      var rest := AnnounceLast(steps + one, id, u);
      assert steps + one + rest == steps + (one + rest);
      more := one + rest;
    }
  }

  lemma OneFewer(st: State, after: State, id: string, t: Ticket)
    requires t in st.unannounced && t.id == id && after.unannounced == st.unannounced - {t}
    ensures OutstandingOf(after, id) == OutstandingOf(st, id) - {t}
    ensures t in OutstandingOf(st, id)
    ensures OutstandingOf(st, id) == {t} ==> !Outstanding(after, id)
  {
    assert Outstanding(after, id) ==> OutstandingOf(after, id) != {} by {
      if v :| v in after.unannounced && v.id == id {
        assert v in OutstandingOf(after, id);
      }
    }
  }

  /** A ticket is not used for a new reading while a change saved with it is unannounced. */
  lemma {:induction false} TicketsApart(steps: seq<Step>)
    ensures Run(steps).readings.Keys !! Run(steps).unannounced.Keys
  {
    if |steps| > 0 {
      TicketsApart(steps[..|steps| - 1]);
      hide Written;
    }
  }

  /** What a save leaves that does not tell the truth: no outstanding change and a status nobody has announced, or one
      outstanding that leads elsewhere. */
  lemma SaveMisleads(st: State, t: Ticket, now: int)
    requires Caught(st, t.id) && t in st.readings && t !in st.unannounced && Written(st.readings[t], now).Some?
    requires !Tells(st, t.id, st.readings[t], Written(st.readings[t], now).value)
    ensures var after := Saved(st, t, now);
            && (forall v | v in after.unannounced :: after.unannounced[v].change.tenantId == v.id)
            && (if Outstanding(st, t.id)
                then exists u | u in after.unannounced ::
                       u.id == t.id && after.unannounced[u].change.next != Current(after, t.id)
                else !Outstanding(after, t.id) && LastAnnounced(Changes(after.emitted), t.id) != Current(after, t.id))
  {
    hide LastAnnounced, Changes, Written;
    if Outstanding(st, t.id) {
      var u :| u in st.unannounced && u.id == t.id;
      assert u in Saved(st, t, now).unannounced;
    }
  }

  lemma OutOfTurn(steps: seq<Step>, id: string, k: nat)
    requires k < |steps| && InTurn(steps[..k], id) && !TellsAt(steps, id, k)
    ensures var before, after := Run(steps[..k]), Run(steps[..k + 1]);
            && (forall v | v in after.unannounced :: after.unannounced[v].change.tenantId == v.id)
            && (if Outstanding(before, id)
                then exists u | u in after.unannounced ::
                       u.id == id && after.unannounced[u].change.next != Current(after, id)
                else !Outstanding(after, id) && LastAnnounced(Changes(after.emitted), id) != Current(after, id))
  {
    var t := Ticket(steps[k].tx, id);
    PrefixRun(steps, k + 1, k);
    assert Run(steps[..k + 1]) == Saved(Run(steps[..k]), t, steps[k].now).(taken := Run(steps[..k]).taken + 1);
    CaughtAlways(steps[..k], id);
    TicketsApart(steps[..k]);
    hide Run, Written, Tells, LastAnnounced, Changes, Caught, InTurn;
    SaveMisleads(Run(steps[..k]), t, steps[k].now);
  }

  lemma OutOfTurnDisagrees(steps: seq<Step>, id: string, k: nat) returns (more: seq<Step>)
    requires k < |steps| && InTurn(steps[..k], id) && !TellsAt(steps, id, k)
    ensures OnlyAnnounces(more) && !Agrees(steps[..k + 1] + more, id)
  {
    var after := steps[..k + 1];
    hide Run, TellsAt, LastAnnounced, Changes, InTurn;
    OutOfTurn(steps, id, k);
    if Outstanding(Run(steps[..k]), id) {
      var u :| u in Run(after).unannounced && u.id == id
               && Run(after).unannounced[u].change.next != Current(Run(after), id);
      more := AnnounceLast(after, id, u);
    } else {
      more := [];
      assert after + more == after;
    }
    ReplayedIsAnnounced(after + more, id);
  }

  /** Over every interleaving: subscribers who have caught up always know a tenant's status exactly when each save of
      the tenant leaves the status it finds or announces a change while none is outstanding. */
  lemma AlwaysAgreesExactly(steps: seq<Step>, id: string)
    ensures AlwaysAgrees(steps, id) <==> InTurn(steps, id)
  {
    hide Agrees, TellsAt;
    if InTurn(steps, id) {
      forall m: nat, more: seq<Step> | m <= |steps| && OnlyAnnounces(more) ensures Agrees(steps[..m] + more, id) {
        InTurnBefore(steps, id, m);
        InTurnStill(steps[..m], more, id);
        ReplayRebuildsStatus(steps[..m] + more, id);
      }
    } else {
      var k := FirstOutOfTurn(steps, id);
      var more := OutOfTurnDisagrees(steps, id, k);
      assert !Agrees(steps[..k + 1] + more, id);
    }
  }

  lemma {:induction false} FirstOutOfTurn(steps: seq<Step>, id: string) returns (k: nat)
    requires !InTurn(steps, id)
    ensures k < |steps| && InTurn(steps[..k], id) && !TellsAt(steps, id, k)
  {
    hide TellsAt;
    var n := |steps| - 1;
    k := n;
    if !InTurn(steps[..n], id) {
      k := FirstOutOfTurn(steps[..n], id);
      TellsBefore(steps, id, n, k);
      PrefixRun(steps, n, k);
    } else {
      forall j: nat | j < n ensures TellsAt(steps, id, j) {
        TellsBefore(steps, id, n, j);
      }
    }
  }

  /** The lock that overtook a payment is announced before the payment is. */
  const IN_TICKET_ORDER: seq<Step> := [Announce(0, "t"), Announce(1, "t"), Announce(2, "t"), Announce(3, "t")]

  lemma AnnounceStage(steps: seq<Step>, k: nat, id: string, row: Billing.Tenant, tickets: map<Ticket, nat>, tx: nat)
    requires k < |steps| && Stage(steps, k, id, row, map[], tickets) && steps[k] == Announce(tx, id)
             && Ticket(tx, id) in tickets
    ensures Stage(steps, k + 1, id, row, map[], tickets - {Ticket(tx, id)})
    ensures var e := Run(steps[..k]).unannounced[Ticket(tx, id)];
            Run(steps[..k + 1]).emitted == Run(steps[..k]).emitted + [e] && e.saved == tickets[Ticket(tx, id)]
  {
    RunTo(steps, k);
    hide Run;
  }

  lemma FourAnnounced(steps: seq<Step>, id: string, row: Billing.Tenant, tickets: map<Ticket, nat>)
    requires |steps| == 13 && forall i: nat | i < 4 :: steps[9 + i] == Announce(i, id)
    requires tickets.Keys == {Ticket(0, id), Ticket(1, id), Ticket(2, id), Ticket(3, id)}
    requires Stage(steps, 9, id, row, map[], tickets)
    ensures Stage(steps, 13, id, row, map[], map[]) && Ticket(3, id) in Run(steps[..12]).unannounced
    ensures var e := Run(steps[..12]).unannounced[Ticket(3, id)];
            Run(steps).emitted == Run(steps[..12]).emitted + [e] && e.saved == tickets[Ticket(3, id)]
  {
    hide Run;
    var a, b, c, d := Ticket(0, id), Ticket(1, id), Ticket(2, id), Ticket(3, id);
    assert steps[9 + 0] == Announce(0, id) && steps[9 + 1] == Announce(1, id);
    assert steps[9 + 2] == Announce(2, id) && steps[9 + 3] == Announce(3, id);
    AnnounceStage(steps, 9, id, row, tickets, 0);
    AnnounceStage(steps, 10, id, row, tickets - {a}, 1);
    AnnounceStage(steps, 11, id, row, tickets - {a} - {b}, 2);
    AnnounceStage(steps, 12, id, row, tickets - {a} - {b} - {c}, 3);
    assert tickets - {a} - {b} - {c} - {d} == map[];
    assert steps[..13] == steps;
  }

  lemma SameStage(steps: seq<Step>, more: seq<Step>, k: nat, id: string, row: Billing.Tenant, tickets: map<Ticket, nat>)
    requires k <= |steps| <= |more| && more[..|steps|] == steps && Stage(steps, k, id, row, map[], tickets)
    ensures Stage(more, k, id, row, map[], tickets)
  {
    assert more[..k] == steps[..k];
  }

  /** With announcements out of turn a subscriber takes a locked tenant for active, and nothing is outstanding. */
  lemma LateAnnouncement()
    ensures var late := OVERTAKEN + IN_TICKET_ORDER;
            && Run(late).tenants == map["t" := Row(PaymentLocked, 3 * WEEK)] && !Outstanding(Run(late), "t")
            && Replay(PublishedIn(late), "t") == PaymentActive
  {
    hide Run, Stage, WritesAt, Outstanding, PublishedIn, Replay;
    OvertakenStages(OVERTAKEN, "t");
    LateEnd(OVERTAKEN + IN_TICKET_ORDER, OVERTAKEN, IN_TICKET_ORDER, "t",
            map[Ticket(0, "t") := 2, Ticket(1, "t") := 4, Ticket(3, "t") := 7, Ticket(2, "t") := 8]);
  }

  lemma LateEnd(steps: seq<Step>, before: seq<Step>, tail: seq<Step>, id: string, tickets: map<Ticket, nat>)
    requires |before| == 9 && |tail| == 4 && steps == before + tail
             && forall i: nat | i < 4 :: tail[i] == Announce(i, id)
    requires tickets.Keys == {Ticket(0, id), Ticket(1, id), Ticket(2, id), Ticket(3, id)} && tickets[Ticket(3, id)] == 7
    requires Stage(before, 9, id, Row(PaymentLocked, 3 * WEEK), map[], tickets)
    requires WritesAt(before, id, 7) && ReadingAt(before, id, 7).job == PaidInvoice
    ensures Run(steps).tenants == map[id := Row(PaymentLocked, 3 * WEEK)] && !Outstanding(Run(steps), id)
    ensures Replay(PublishedIn(steps), id) == PaymentActive
  {
    assert steps[..9] == before && forall i: nat | i < 4 :: steps[9 + i] == tail[i];
    SameStage(before, steps, 9, id, Row(PaymentLocked, 3 * WEEK), tickets);
    FourAnnounced(steps, id, Row(PaymentLocked, 3 * WEEK), tickets);
    assert steps[..13] == steps;
    PrefixSame(steps, id, 9, 7);
    LeftActive(steps, id, 7);
    EveryoneStands(steps[..12]);
    hide Run, StandsFor, WritesAt, LastWrite, StatusLeft;
    assert LastEmission(Run(steps).emitted, id) == Some(Run(steps[..12]).unannounced[Ticket(3, id)]);
    ReplayRebuildsStatusExactly(steps, id);
  }

  lemma LeftActive(steps: seq<Step>, id: string, j: nat)
    requires WritesAt(steps, id, j) && ReadingAt(steps, id, j).job == PaidInvoice
    ensures StatusLeft(steps, id, Some(j)) == PaymentActive
  {
  }
}
