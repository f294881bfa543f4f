/** What the end of a trial leaves: the free plan, unless the subscription is active. */
module TrialRuns {
  import opened Wrappers
  import opened BillingModel
  import opened Billing
  import SubscriptionRuns

  /** The daily run finds the tenant active, not invoiced manually, and its trial over. */
  predicate RunsOut(w: World, found: seq<string>, manual: set<string>, now: int, id: string) {
    && id in found && id !in manual && id in w.tenants && w.tenants[id].status == Active
    && (match w.tenants[id].trialEndsAt case Some(end) => end <= now case None => false)
  }

  predicate IsFirst(bs: seq<Billing>, i: nat) {
    i < |bs| && forall j | 0 <= j < i :: bs[j].tenantId != bs[i].tenantId
  }

  /** A row of a tenant without a plan, a subscription or anything scheduled. */
  predicate Cleared(b: Billing) {
    && b.plan == Free && b.status == NoSubscription && b.subscription.None? && b.pending.None? && b.downgradeAt.None?
    && b.cancelReason.None? && b.cancelRequestedAt.None? && b.cancelEffectiveAt.None?
  }

  /** An active row, and one on the free plan already, stays as it is; any other is cleared and keeps the rest. */
  predicate FallsBack(before: Billing, after: Billing) {
    if before.status == ActiveSubscription || (before.plan == Free && before.status == NoSubscription)
        then after == before
    else
      && Cleared(after)
      && after.tenantId == before.tenantId && after.customer == before.customer
      && after.transaction == before.transaction
  }

  predicate NewFree(b: Billing) {
    Cleared(b) && b.customer.None? && b.transaction.None?
  }

  /** The tenants whose trial the daily run finds over. */
  function Out(w: World, found: seq<string>, manual: set<string>, now: int): set<string> {
    set id | id in found && RunsOut(w, found, manual, now, id)
  }

  predicate OldRowsFall(before: seq<Billing>, after: seq<Billing>, out: set<string>) {
    && |before| <= |after|
    && forall i: nat | i < |before| ::
         && after[i].tenantId == before[i].tenantId
         && if before[i].tenantId in out && IsFirst(before, i) then FallsBack(before[i], after[i])
            else after[i] == before[i]
  }

  predicate NewRowsFree(before: seq<Billing>, after: seq<Billing>, out: set<string>) {
    forall i: nat | |before| <= i < |after| :: IsFirst(after, i) && after[i].tenantId in out && NewFree(after[i])
  }

  /** The first rows of the tenants in `out` fall back, new free rows are added for those without one, and that is
      all. */
  predicate RowsFall(before: seq<Billing>, after: seq<Billing>, out: set<string>) {
    && OldRowsFall(before, after, out) && NewRowsFree(before, after, out)
    && forall id | id in out :: HasRow(after, id)
  }

  predicate HasRow(bs: seq<Billing>, id: string) {
    exists i: nat | i < |bs| :: bs[i].tenantId == id
  }

  lemma FallsBackTwice(before: Billing, once: Billing)
    requires FallsBack(before, once) || before == once
    ensures FallsBack(before, AfterTrial(once))
  {
  }

  lemma StaysFree(b: Billing)
    requires NewFree(b)
    ensures AfterTrial(b) == b
  {
  }

  lemma FirstByTenant(bs: seq<Billing>, id: string)
    ensures First(bs, ByTenant(id)).Some? ==> IsFirst(bs, First(bs, ByTenant(id)).value)
    ensures First(bs, ByTenant(id)).Some? ==> bs[First(bs, ByTenant(id)).value].tenantId == id
    ensures First(bs, ByTenant(id)).None? ==> forall j | 0 <= j < |bs| :: bs[j].tenantId != id
  {
    var r := First(bs, ByTenant(id));
    assert forall j | 0 <= j < |bs| :: Matches(bs[j], ByTenant(id)) <==> bs[j].tenantId == id;
  }

  lemma OutLater(w: World, found: seq<string>, manual: set<string>, now: int)
    requires |found| > 0
    ensures Out(w, found, manual, now) ==
            Out(w, found[..|found| - 1], manual, now)
            + if TrialOver(w, found[|found| - 1], manual, now) then {found[|found| - 1]} else {}
  {
    assert found == found[..|found| - 1] + [found[|found| - 1]];
  }

  lemma ChangedOldRow(before: seq<Billing>, rows: seq<Billing>, out: set<string>, id: string, i: nat, row: Billing)
    requires OldRowsFall(before, rows, out) && i < |rows| && rows[i].tenantId == id && IsFirst(rows, i)
    requires row == AfterTrial(rows[i])
    ensures OldRowsFall(before, rows[i := row], out + {id})
  {
    var after := rows[i := row];
    assert row.tenantId == rows[i].tenantId;
    hide AfterTrial;
    forall j: nat | j < |before|
      ensures after[j].tenantId == before[j].tenantId
      ensures if before[j].tenantId in out + {id} && IsFirst(before, j) then FallsBack(before[j], after[j])
              else after[j] == before[j]
    {
      OldIsFirst(before, rows, out, j);
      if j == i {
        hide FallsBack, IsFirst;
        FallsBackTwice(before[i], rows[i]);
      } else if before[j].tenantId == id && IsFirst(rows, j) {
        OnlyFirst(rows, i, j);
      }
    }
  }

  lemma OldIsFirst(before: seq<Billing>, rows: seq<Billing>, out: set<string>, j: nat)
    requires OldRowsFall(before, rows, out) && j < |before|
    ensures IsFirst(before, j) <==> IsFirst(rows, j)
  {
    SameFirst(before, rows);
    hide FallsBack, IsFirst;
  }

  lemma ChangedNewRow(before: seq<Billing>, rows: seq<Billing>, out: set<string>, id: string, i: nat, row: Billing)
    requires NewRowsFree(before, rows, out) && i < |rows| && |before| <= |rows| && rows[i].tenantId == id
    requires row == AfterTrial(rows[i])
    ensures NewRowsFree(before, rows[i := row], out + {id})
  {
    var after := rows[i := row];
    assert row.tenantId == rows[i].tenantId;
    SameFirst(rows, after);
    if |before| <= i {
      StaysFree(rows[i]);
    }
    hide AfterTrial, NewFree, IsFirst;
  }

  lemma ChangedRow(before: seq<Billing>, rows: seq<Billing>, out: set<string>, id: string, i: nat)
    requires RowsFall(before, rows, out) && i < |rows| && rows[i].tenantId == id && IsFirst(rows, i)
    ensures RowsFall(before, rows[i := AfterTrial(rows[i])], out + {id})
  {
    var after := rows[i := AfterTrial(rows[i])];
    assert AfterTrial(rows[i]).tenantId == rows[i].tenantId;
    assert |before| <= |rows|;
    hide AfterTrial, OldRowsFall, NewRowsFree, IsFirst;
    ChangedOldRow(before, rows, out, id, i, after[i]);
    ChangedNewRow(before, rows, out, id, i, after[i]);
    forall x | x in out + {id} ensures HasRow(after, x) {
      if x == id {
        assert after[i].tenantId == id;
      } else {
        assert HasRow(rows, x);
        var j: nat :| j < |rows| && rows[j].tenantId == x;
        assert after[j].tenantId == x;
      }
    }
  }

  lemma OnlyFirst(bs: seq<Billing>, i: nat, j: nat)
    requires IsFirst(bs, i) && IsFirst(bs, j) && bs[i].tenantId == bs[j].tenantId
    ensures i == j
  {
  }

  lemma AddedRow(before: seq<Billing>, rows: seq<Billing>, out: set<string>, id: string)
    requires RowsFall(before, rows, out) && forall j | 0 <= j < |rows| :: rows[j].tenantId != id
    ensures RowsFall(before, rows + [NewBilling(id)], out + {id})
  {
    var after := rows + [NewBilling(id)];
    SameFirst(rows, after);
    assert after[|rows|].tenantId == id && IsFirst(after, |rows|);
    hide FallsBack, IsFirst;
    forall x | x in out + {id} ensures HasRow(after, x) {
      if x in out {
        var j: nat :| j < |rows| && rows[j].tenantId == x;
        assert after[j].tenantId == x;
      }
    }
  }

  lemma FreshStays(id: string)
    ensures AfterTrial(NewBilling(id)) == NewBilling(id)
  {
  }

  /** One tenant more: its first row falls back, or it gets a free one. */
  lemma OneMoreFalls(before: seq<Billing>, rows: seq<Billing>, out: set<string>, id: string)
    requires RowsFall(before, rows, out)
    ensures RowsFall(before, Ensured(rows, id)[RowOf(rows, id) := AfterTrial(Ensured(rows, id)[RowOf(rows, id)])],
                     out + {id})
  {
    hide RowsFall, AfterTrial, IsFirst;
    FirstByTenant(rows, id);
    if First(rows, ByTenant(id)).Some? {
      ChangedRow(before, rows, out, id, RowOf(rows, id));
    } else {
      FreshStays(id);
      assert (rows + [NewBilling(id)])[|rows| := NewBilling(id)] == rows + [NewBilling(id)];
      AddedRow(before, rows, out, id);
    }
  }

  lemma OneFalls(bs: seq<Billing>, id: string)
    ensures RowsFall(bs, Ensured(bs, id)[RowOf(bs, id) := AfterTrial(Ensured(bs, id)[RowOf(bs, id)])], {id})
  {
    OneMoreFalls(bs, bs, {}, id);
    assert {} + {id} == {id};
    hide AfterTrial;
  }

  lemma SameFirst(bs: seq<Billing>, after: seq<Billing>)
    requires |bs| <= |after| && forall j: nat | j < |bs| :: after[j].tenantId == bs[j].tenantId
    ensures forall i: nat | i < |bs| :: IsFirst(bs, i) <==> IsFirst(after, i)
  {
  }

  lemma {:induction false} TrialsFall(w: World, found: seq<string>, manual: set<string>, clears: bool, now: int)
    ensures RowsFall(w.billings, TrialsExpired(w, found, manual, clears, now).billings, Out(w, found, manual, now))
  {
    if |found| > 0 {
      var n := |found| - 1;
      TrialsFall(w, found[..n], manual, clears, now);
      OutLater(w, found, manual, now);
      hide RowsFall, Out, TrialOver, Ensured, RowOf, AfterTrial;
      OneMoreFalls(w.billings, TrialsExpired(w, found[..n], manual, clears, now).billings,
                   Out(w, found[..n], manual, now), found[n]);
    }
  }

  /** The tenant's first row is active. */
  predicate IsPaying(bs: seq<Billing>, id: string) {
    exists i: nat | i < |bs| :: bs[i].tenantId == id && IsFirst(bs, i) && bs[i].status == ActiveSubscription
  }

  /** The trials that end leave it to each tenant whether it pays. */
  lemma PayingStays(before: seq<Billing>, rows: seq<Billing>, out: set<string>, id: string)
    requires RowsFall(before, rows, out)
    ensures Ensured(rows, id)[RowOf(rows, id)].status == ActiveSubscription <==> IsPaying(before, id)
  {
    FirstByTenant(rows, id);
    SameFirst(before, rows);
    var r := First(rows, ByTenant(id));
    hide First, HasRow;
    if r.Some? && r.value < |before| {
      assert before[r.value].tenantId == id && IsFirst(before, r.value);
      assert rows[r.value].status == ActiveSubscription <==> before[r.value].status == ActiveSubscription;
      forall j: nat | j < |before| && before[j].tenantId == id && IsFirst(before, j) ensures j == r.value {
        OnlyFirst(before, j, r.value);
      }
    } else {
      assert forall j: nat | j < |before| :: rows[j].tenantId == before[j].tenantId != id;
    }
  }

  /** A daily run: the first row of each tenant whose trial has run out falls back, tenants without one get a free
      one, and every other row is left as it was. Of the tenants' own fields only the trial ends may change: where
      cleared fields are stored, they are taken from exactly the tenants that do not pay. */
  lemma TrialsFallBack(cfg: PriceConfig, w: World, found: seq<string>, manual: set<string>, clears: bool, now: int)
    ensures var after := Next(cfg, w, Trials(found, manual, clears, now));
            && RowsFall(w.billings, after.billings, Out(w, found, manual, now))
            && after.changes == w.changes
            && after.tenants.Keys == w.tenants.Keys
            && forall id | id in w.tenants ::
                 after.tenants[id] == if clears && RunsOut(w, found, manual, now, id) && !IsPaying(w.billings, id)
                                      then w.tenants[id].(trialEndsAt := None) else w.tenants[id]
  {
    TrialsFall(w, found, manual, clears, now);
    TrialTenants(w, found, manual, clears, now);
    hide RowsFall, RunsOut, IsPaying;
  }

  lemma {:induction false} TrialTenants(w: World, found: seq<string>, manual: set<string>, clears: bool, now: int)
    ensures var after := TrialsExpired(w, found, manual, clears, now);
            && after.changes == w.changes
            && after.tenants.Keys == w.tenants.Keys
            && forall id | id in w.tenants ::
                 after.tenants[id] == if clears && RunsOut(w, found, manual, now, id) && !IsPaying(w.billings, id)
                                      then w.tenants[id].(trialEndsAt := None) else w.tenants[id]
  {
    if |found| > 0 {
      var n := |found| - 1;
      TrialTenants(w, found[..n], manual, clears, now);
      TrialsFall(w, found[..n], manual, clears, now);
      PayingStays(w.billings, TrialsExpired(w, found[..n], manual, clears, now).billings,
                  Out(w, found[..n], manual, now), found[n]);
      assert found == found[..n] + [found[n]];
      assert forall id | id != found[n] ::
        RunsOut(w, found[..n], manual, now, id) <==> RunsOut(w, found, manual, now, id);
      assert TrialOver(w, found[n], manual, now) <==> RunsOut(w, found, manual, now, found[n]);
      assert RunsOut(w, found[..n], manual, now, found[n]) ==> RunsOut(w, found, manual, now, found[n]);
      hide RunsOut, TrialOver, AfterTrial, Ensured, RowOf, IsPaying, RowsFall, Out;
    }
  }

  // ---------- Over whole runs

  predicate OneRowEach(bs: seq<Billing>) {
    forall i, j | 0 <= i < j < |bs| :: bs[i].tenantId != bs[j].tenantId
  }

  lemma StepKeepsOneRowEach(cfg: PriceConfig, w: World, s: Step)
    requires OneRowEach(w.billings)
    ensures OneRowEach(Next(cfg, w, s).billings)
  {
    SubscriptionRuns.NextRows(cfg, w, s);
    var after := Next(cfg, w, s).billings;
    forall i | 0 <= i < |w.billings| ensures after[i].tenantId == w.billings[i].tenantId {
      SubscriptionRuns.RowStepIds(cfg, s, w.billings[i], after[i]);
    }
    hide Next, SubscriptionRuns.RowStep;
  }

  lemma {:induction false} OneRowEachAlways(cfg: PriceConfig, steps: seq<Step>)
    ensures OneRowEach(Run(cfg, NEW_WORLD, steps).billings)
  {
    hide Next;
    if |steps| > 0 {
      OneRowEachAlways(cfg, steps[..|steps| - 1]);
      StepKeepsOneRowEach(cfg, Run(cfg, NEW_WORLD, steps[..|steps| - 1]), steps[|steps| - 1]);
    }
  }

  /** In every run, a daily run leaves each tenant whose trial has run out with exactly one row, and that row is
      active or on the free plan without a subscription. */
  lemma NoUnpaidPlanAfterTrial(cfg: PriceConfig, steps: seq<Step>, found: seq<string>, manual: set<string>,
      clears: bool, now: int, id: string)
    requires RunsOut(Run(cfg, NEW_WORLD, steps), found, manual, now, id)
    ensures var rows := Run(cfg, NEW_WORLD, steps + [Trials(found, manual, clears, now)]).billings;
            && (exists i: nat | i < |rows| :: rows[i].tenantId == id)
            && (forall i, j | 0 <= i < |rows| && 0 <= j < |rows| && rows[i].tenantId == id == rows[j].tenantId ::
                i == j)
            && forall i | 0 <= i < |rows| && rows[i].tenantId == id ::
                 rows[i].status == ActiveSubscription || (rows[i].plan == Free && rows[i].status == NoSubscription)
  {
    var w := Run(cfg, NEW_WORLD, steps);
    var s := Trials(found, manual, clears, now);
    assert (steps + [s])[..|steps|] == steps;
    OneRowEachAlways(cfg, steps);
    OneRowEachAlways(cfg, steps + [s]);
    TrialsFallBack(cfg, w, found, manual, clears, now);
    assert Run(cfg, NEW_WORLD, steps + [s]) == Next(cfg, w, s);
    assert id in Out(w, found, manual, now);
    hide Next, RunsOut, Run, Out;
    assert HasRow(Next(cfg, w, s).billings, id);
    assert forall i: nat | i < |w.billings| :: IsFirst(w.billings, i);
  }
}
