/** The tenant-aware repository: one table shared by all tenants, and the operations that rewrite every
    condition and every saved row to carry the tenant of the request context. */
module TenantRepository {
  import opened Wrappers

  datatype Value = Null | Text(s: string) | Num(n: int)
  type Id = string
  /** The non-key columns of a row; a missing column is null. */
  type Row = map<string, Value>
  type Store = map<Id, Row>
  /** Whatever operator the ORM offers for a column, it denotes a test on the column's value. */
  type Cond = Value -> bool
  type Where = map<string, Cond>

  datatype Criteria = Unspecified | One(w: Where) | AnyOf(ws: seq<Where>)

  function Column(id: Id, row: Row, c: string): Value {
    if c == "id" then Text(id) else if c in row then row[c] else Null
  }

  predicate Owned(row: Row, t: string) {
    "tenantId" in row && row["tenantId"] == Text(t)
  }

  predicate Satisfies(id: Id, row: Row, w: Where) {
    forall c | c in w :: w[c](Column(id, row, c))
  }

  /** How the ORM reads criteria. No criteria, and an empty OR-list, put no condition on a row. */
  predicate Selects(crit: Criteria, id: Id, row: Row) {
    match crit
    case Unspecified => true
    case One(w) => Satisfies(id, row, w)
    case AnyOf(ws) => |ws| == 0 || exists i | 0 <= i < |ws| :: Satisfies(id, row, ws[i])
  }

  predicate EmptyList(crit: Criteria) {
    crit.AnyOf? && |crit.ws| == 0
  }

  /** A later `tenantId` key wins over the caller's. */
  function WithTenant(t: string, w: Where): Where {
    w["tenantId" := (v: Value) => v == Text(t)]
  }

  /** `mergeTenantIntoWhere` */
  function Merge(t: string, crit: Criteria): Criteria {
    match crit
    case Unspecified => One(WithTenant(t, map[]))
    case One(w) => One(WithTenant(t, w))
    case AnyOf(ws) => AnyOf(seq(|ws|, i requires 0 <= i < |ws| => WithTenant(t, ws[i])))
  }

  predicate Visible(row: Row) {
    "deletedAt" !in row || row["deletedAt"] == Null
  }

  /** A select never returns a soft-deleted row. */
  function FindRows(s: Store, crit: Criteria): Store {
    map id | id in s && Visible(s[id]) && Selects(crit, id, s[id]) :: s[id]
  }

  function Selected(s: Store, crit: Criteria): set<Id> {
    set id | id in s && Selects(crit, id, s[id])
  }

  function SetOn(s: Store, ids: set<Id>, payload: Row): Store {
    map id | id in s :: if id in ids then s[id] + payload else s[id]
  }

  function UpdateWhere(s: Store, crit: Criteria, payload: Row): Store {
    SetOn(s, Selected(s, crit), payload)
  }

  datatype Entry = Entry(id: Id, fields: Row)

  /** `withTenantOnPartial` */
  function WithTenantOnPartial(t: string, fields: Row): Row {
    fields["tenantId" := Text(t)]
  }

  /** The ORM's save: a row with that id is updated whoever owns it, otherwise one is inserted. */
  function SaveOne(s: Store, e: Entry): Store {
    s[e.id := (if e.id in s then s[e.id] else map[]) + e.fields]
  }

  function SaveAll(s: Store, t: string, es: seq<Entry>): Store
    decreases |es|
  {
    if |es| == 0 then s
    else SaveAll(SaveOne(s, Entry(es[0].id, WithTenantOnPartial(t, es[0].fields))), t, es[1..])
  }

  function Stamped(t: string, es: seq<Entry>): seq<Entry> {
    seq(|es|, i requires 0 <= i < |es| => Entry(es[i].id, WithTenantOnPartial(t, es[i].fields)))
  }

  datatype UpdateTarget = ById(id: Id) | ByIds(ids: seq<Id>) | ByWhere(w: Where) | ByList(ws: seq<Where>)

  function OneOf(ids: seq<Id>): Cond {
    (v: Value) => v.Text? && v.s in ids
  }

  /** `updateTenantContext`: an empty array is read as a list of ids. */
  function UpdateCriteria(t: string, target: UpdateTarget): Criteria {
    match target
    case ById(id) => One(WithTenant(t, map["id" := OneOf([id])]))
    case ByIds(ids) => One(WithTenant(t, map["id" := OneOf(ids)]))
    case ByWhere(w) => One(WithTenant(t, w))
    case ByList(ws) => if |ws| > 0 then Merge(t, AnyOf(ws)) else One(WithTenant(t, map["id" := OneOf([])]))
  }

  // ---------- Outbox claims

  datatype ClaimConfig = ClaimConfig(
    status: string, pending: Value, inProgress: Value,
    createdAt: string, nextAttemptAt: string, scheduleAt: Option<string>)

  predicate Due(v: Value, now: int) {
    v.Null? || (v.Num? && v.n <= now)
  }

  /** The WHERE clause of the claim. */
  predicate Eligible(cfg: ClaimConfig, t: string, now: int, id: Id, row: Row) {
    && Owned(row, t)
    && Column(id, row, cfg.status) == cfg.pending
    && Due(Column(id, row, cfg.nextAttemptAt), now)
    && (cfg.scheduleAt.Some? ==> Due(Column(id, row, cfg.scheduleAt.value), now))
  }

  function EligibleIds(s: Store, cfg: ClaimConfig, t: string, now: int): set<Id> {
    set id | id in s && Eligible(cfg, t, now, id, s[id])
  }

  /** Ascending order with nulls last. */
  predicate NotLater(a: Value, b: Value) {
    !b.Num? || (a.Num? && a.n <= b.n)
  }

  predicate RowNotLater(s: Store, cfg: ClaimConfig, a: Id, b: Id)
    requires a in s && b in s
  {
    NotLater(Column(a, s[a], cfg.createdAt), Column(b, s[b], cfg.createdAt))
  }

  /** ORDER BY createdAt LIMIT n over the candidate ids; ties are the database's choice. */
  ghost predicate OldestBatch(s: Store, cfg: ClaimConfig, candidates: set<Id>, limit: nat, picked: set<Id>)
    requires candidates <= s.Keys
  {
    && picked <= candidates
    && |picked| <= limit
    && (|picked| < limit ==> picked == candidates)
    && forall a, b | a in picked && b in candidates - picked :: RowNotLater(s, cfg, a, b)
  }

  function Pow2(n: nat): nat {
    if n == 0 then 1 else 2 * Pow2(n - 1)
  }

  /** Seconds before a row that failed at the given attempt may be claimed again. */
  function BackoffSec(attempts: nat, baseSec: nat, capSec: nat): nat {
    var d := Pow2(attempts) * baseSec;
    if capSec < d then capSec else d
  }

  function FailurePayload(cfg: ClaimConfig, attemptsColumn: string, attempts: nat, baseSec: nat, capSec: nat,
      now: int): Row
  {
    map[cfg.status := cfg.pending][attemptsColumn := Num(attempts + 1)]
       [cfg.nextAttemptAt := Num(now + 1000 * BackoffSec(attempts, baseSec, capSec))]
  }

  // ---------- Operations as steps on the shared table

  datatype Op =
    | Find(crit: Criteria)
    | FindOne(crit: Criteria)
    | Count(crit: Criteria)
    | Save(entries: seq<Entry>)
    | Delete(w: Where)
    | SoftDelete(w: Where, at: int)
    | Update(target: UpdateTarget, payload: Row)
    | Claim(cfg: ClaimConfig, limit: nat, now: int)
    | UpdateStatusById(id: Id, column: string, status: Value)
    | MarkFailure(id: Id, cfg: ClaimConfig, attemptsColumn: string, attempts: nat, baseSec: nat, capSec: nat, now: int)

  datatype Reply =
    | Rows(rows: Store)
    | Maybe(row: Option<(Id, Row)>)
    | Total(n: nat)
    | Stored(entries: seq<Entry>)
    | Affected(n: nat)
    | Done

  /** What one operation of tenant `t` may do to the table and answer. Only the choice among several
      matches of `FindOne`, and among equally old rows of a claim, is left to the database. */
  ghost predicate Step(t: string, s: Store, op: Op, s2: Store, r: Reply) {
    match op
    case Find(c) => s2 == s && r == Rows(FindRows(s, Merge(t, c)))
    case FindOne(c) => s2 == s && Picks(FindRows(s, Merge(t, c)), r)
    case Count(c) => s2 == s && r == Total(|FindRows(s, Merge(t, c))|)
    case Save(es) => s2 == SaveAll(s, t, es) && r == Stored(Stamped(t, es))
    case Delete(w) =>
      var ids := Selected(s, Merge(t, One(w)));
      s2 == s - ids && r == Affected(|ids|)
    case SoftDelete(w, at) =>
      s2 == UpdateWhere(s, Merge(t, One(w)), map["deletedAt" := Num(at)])
        && r == Affected(|Selected(s, Merge(t, One(w)))|)
    case Update(target, payload) =>
      s2 == UpdateWhere(s, UpdateCriteria(t, target), payload)
        && r == Affected(|Selected(s, UpdateCriteria(t, target))|)
    case Claim(cfg, limit, now) =>
      exists picked ::
        && OldestBatch(s, cfg, EligibleIds(s, cfg, t, now), limit, picked)
        && s2 == SetOn(s, picked, map[cfg.status := cfg.inProgress])
        && r == Rows(map id | id in picked :: s2[id])
    case UpdateStatusById(id, column, status) =>
      s2 == UpdateWhere(s, UpdateCriteria(t, ById(id)), map[column := status]) && r == Done
    case MarkFailure(id, cfg, attemptsColumn, attempts, baseSec, capSec, now) =>
      s2 == UpdateWhere(s, UpdateCriteria(t, ById(id)),
                        FailurePayload(cfg, attemptsColumn, attempts, baseSec, capSec, now)) && r == Done
  }

  ghost predicate Picks(found: Store, r: Reply) {
    if found == map[] then r == Maybe(None)
    else exists id :: id in found && r == Maybe(Some((id, found[id])))
  }

  /** The rows tenant `t` owns. */
  function View(s: Store, t: string): Store {
    map id | id in s && Owned(s[id], t) :: s[id]
  }

  predicate KeepsTenant(t: string, payload: Row) {
    "tenantId" !in payload || payload["tenantId"] == Text(t)
  }

  /** What callers must avoid: an empty OR-list, an id of somebody else's row, a payload that moves rows. */
  predicate Legal(t: string, s: Store, op: Op) {
    match op
    case Find(c) => !EmptyList(c)
    case FindOne(c) => !EmptyList(c)
    case Count(c) => !EmptyList(c)
    case Save(es) => forall i | 0 <= i < |es| :: es[i].id !in s || Owned(s[es[i].id], t)
    case Delete(_) => true
    case SoftDelete(_, _) => true
    case Update(_, payload) => KeepsTenant(t, payload)
    case Claim(cfg, _, _) => cfg.status != "tenantId"
    case UpdateStatusById(_, column, _) => column != "tenantId"
    case MarkFailure(_, cfg, a, _, _, _, _) => "tenantId" !in [cfg.status, a, cfg.nextAttemptAt]
  }

  // ---------- Scoping

  /** A merged condition holds of a row exactly when the row is the tenant's and the caller's other
      conditions hold, except that an empty OR-list is no condition at all. */
  lemma MergedSelects(t: string, crit: Criteria, id: Id, row: Row)
    ensures Selects(Merge(t, crit), id, row)
            <==> EmptyList(crit)
                 || (Owned(row, t) &&
                     match crit
                     case Unspecified => true
                     case One(w) => Satisfies(id, row, w - {"tenantId"})
                     case AnyOf(ws) => exists i | 0 <= i < |ws| :: Satisfies(id, row, ws[i] - {"tenantId"}))
  {
    match crit
    case Unspecified => WithTenantMeans(t, map[], id, row);
    case One(w) => WithTenantMeans(t, w, id, row);
    case AnyOf(ws) =>
      forall i | 0 <= i < |ws|
        ensures Satisfies(id, row, Merge(t, crit).ws[i]) <==> Owned(row, t) && Satisfies(id, row, ws[i] - {"tenantId"})
      {
        WithTenantMeans(t, ws[i], id, row);
      }
  }

  lemma WithTenantMeans(t: string, w: Where, id: Id, row: Row)
    ensures Satisfies(id, row, WithTenant(t, w)) <==> Owned(row, t) && Satisfies(id, row, w - {"tenantId"})
  {
    var m := WithTenant(t, w);
    assert m["tenantId"](Column(id, row, "tenantId")) <==> Owned(row, t);
    if Satisfies(id, row, m) {
      assert Owned(row, t);
      forall c | c in w - {"tenantId"} ensures (w - {"tenantId"})[c](Column(id, row, c)) {
        assert c in m && m[c](Column(id, row, c));
      }
    }
    if Owned(row, t) && Satisfies(id, row, w - {"tenantId"}) {
      forall c | c in m ensures m[c](Column(id, row, c)) {
        if c != "tenantId" {
          assert c in w - {"tenantId"};
        }
      }
    }
  }

  /** A scoped query is confined to the tenant's rows, on every table, exactly when its OR-list is not empty. */
  lemma ScopedExactly(t: string, crit: Criteria)
    ensures (forall s: Store, id | id in FindRows(s, Merge(t, crit)) :: Owned(s[id], t)) <==> !EmptyList(crit)
  {
    if EmptyList(crit) {
      var s: Store := map["r" := map["tenantId" := Null]];
      MergedSelects(t, crit, "r", s["r"]);
      assert "r" in FindRows(s, Merge(t, crit)) && !Owned(s["r"], t);
    } else {
      forall s: Store, id | id in FindRows(s, Merge(t, crit)) ensures Owned(s[id], t) {
        MergedSelects(t, crit, id, s[id]);
      }
    }
  }

  lemma UpdateSelectsOwn(t: string, target: UpdateTarget, id: Id, row: Row)
    requires Selects(UpdateCriteria(t, target), id, row)
    ensures Owned(row, t)
  {
    match target
    case ById(x) => WithTenantMeans(t, map["id" := OneOf([x])], id, row);
    case ByIds(ids) => WithTenantMeans(t, map["id" := OneOf(ids)], id, row);
    case ByWhere(w) => WithTenantMeans(t, w, id, row);
    case ByList(ws) =>
      if |ws| > 0 {
        MergedSelects(t, AnyOf(ws), id, row);
      } else {
        WithTenantMeans(t, map["id" := OneOf([])], id, row);
      }
  }

  /** An update changes the owner of no row, on every table and for every target, exactly when its payload
      names no other tenant. */
  lemma UpdateKeepsOwnersExactly(t: string, payload: Row)
    ensures (forall s: Store, target: UpdateTarget, u, id |
              id in s :: Owned(s[id], u) <==> Owned(UpdateWhere(s, UpdateCriteria(t, target), payload)[id], u))
            <==> KeepsTenant(t, payload)
  {
    if KeepsTenant(t, payload) {
      forall s: Store, target: UpdateTarget, u, id | id in s
        ensures Owned(s[id], u) <==> Owned(UpdateWhere(s, UpdateCriteria(t, target), payload)[id], u)
      {
        if Selects(UpdateCriteria(t, target), id, s[id]) {
          UpdateSelectsOwn(t, target, id, s[id]);
        }
      }
    } else {
      var s: Store := map["r" := map["tenantId" := Text(t)]];
      var target := ByWhere(map[]);
      WithTenantMeans(t, map[], "r", s["r"]);
      assert Selects(UpdateCriteria(t, target), "r", s["r"]);
      assert Owned(s["r"], t) && !Owned(UpdateWhere(s, UpdateCriteria(t, target), payload)["r"], t);
    }
  }

  /** Saving leaves every other tenant's rows as they were exactly when the saved id is not one of theirs. */
  lemma SaveSparesOthersExactly(t: string, s: Store, e: Entry)
    ensures (forall u | u != t :: View(SaveAll(s, t, [e]), u) == View(s, u))
            <==> (e.id in s ==> forall u | u != t :: !Owned(s[e.id], u))
  {
    var s2 := SaveAll(s, t, [e]);
    var e' := Entry(e.id, WithTenantOnPartial(t, e.fields));
    assert [e][0] == e && |[e][1..]| == 0;
    assert SaveAll(SaveOne(s, e'), t, [e][1..]) == SaveOne(s, e');
    assert s2 == SaveOne(s, Entry(e.id, WithTenantOnPartial(t, e.fields)));
    forall u | u != t
      ensures View(s2, u) == View(s, u) <==> (e.id in s ==> !Owned(s[e.id], u))
    {
      assert !Owned(s2[e.id], u);
      if e.id in s && Owned(s[e.id], u) {
        assert e.id in View(s, u) && e.id !in View(s2, u);
      }
    }
  }

  // ---------- Separability

  datatype Call = Call(tenant: string, op: Op, reply: Reply)

  /** The table may go from `s` to `s2` by these calls, in this order, with these replies. */
  ghost predicate Runs(s: Store, calls: seq<Call>, s2: Store)
    decreases |calls|
  {
    if |calls| == 0 then s == s2
    else exists m ::
        && Legal(calls[0].tenant, s, calls[0].op)
        && Step(calls[0].tenant, s, calls[0].op, m, calls[0].reply)
        && Runs(m, calls[1..], s2)
  }

  function CallsOf(calls: seq<Call>, t: string): seq<Call> {
    if |calls| == 0 then []
    else (if calls[0].tenant == t then [calls[0]] else []) + CallsOf(calls[1..], t)
  }

  lemma FindOwn(t: string, s: Store, crit: Criteria)
    requires !EmptyList(crit)
    ensures FindRows(View(s, t), Merge(t, crit)) == FindRows(s, Merge(t, crit))
    ensures Selected(View(s, t), Merge(t, crit)) == Selected(s, Merge(t, crit))
  {
    forall id | id in s && Selects(Merge(t, crit), id, s[id]) ensures id in View(s, t) {
      MergedSelects(t, crit, id, s[id]);
    }
  }

  lemma SaveOwn(t: string, s: Store, es: seq<Entry>)
    requires forall i | 0 <= i < |es| :: es[i].id !in s || Owned(s[es[i].id], t)
    ensures View(SaveAll(s, t, es), t) == SaveAll(View(s, t), t, es)
    ensures forall u | u != t :: View(SaveAll(s, t, es), u) == View(s, u)
    decreases |es|
  {
    if |es| > 0 {
      var e := Entry(es[0].id, WithTenantOnPartial(t, es[0].fields));
      assert View(SaveOne(s, e), t) == SaveOne(View(s, t), e);
      forall u | u != t ensures View(SaveOne(s, e), u) == View(s, u) {
        assert !Owned(SaveOne(s, e)[e.id], u);
      }
      SaveOwn(t, SaveOne(s, e), es[1..]);
    }
  }

  /** Writing into rows the tenant owns acts on the tenant's view alone. */
  lemma SetOwn(t: string, s: Store, ids: set<Id>, payload: Row)
    requires forall id | id in ids && id in s :: Owned(s[id], t)
    requires KeepsTenant(t, payload)
    ensures View(SetOn(s, ids, payload), t) == SetOn(View(s, t), ids, payload)
    ensures forall u | u != t :: View(SetOn(s, ids, payload), u) == View(s, u)
  {
    var s2 := SetOn(s, ids, payload);
    assert forall id, u | id in s :: Owned(s2[id], u) <==> Owned(s[id], u);
    assert View(s2, t).Keys == SetOn(View(s, t), ids, payload).Keys;
    forall u | u != t ensures View(s2, u) == View(s, u) {
      assert View(s2, u).Keys == View(s, u).Keys;
    }
  }

  /** An update confined to the tenant's rows acts on the tenant's view alone. */
  lemma UpdateOwn(t: string, s: Store, crit: Criteria, payload: Row)
    requires forall id | id in s && Selects(crit, id, s[id]) :: Owned(s[id], t)
    requires KeepsTenant(t, payload)
    ensures View(UpdateWhere(s, crit, payload), t) == UpdateWhere(View(s, t), crit, payload)
    ensures Selected(View(s, t), crit) == Selected(s, crit)
    ensures forall u | u != t :: View(UpdateWhere(s, crit, payload), u) == View(s, u)
  {
    assert Selected(View(s, t), crit) == Selected(s, crit);
    SetOwn(t, s, Selected(s, crit), payload);
  }

  lemma ClaimOwn(t: string, s: Store, cfg: ClaimConfig, limit: nat, now: int, picked: set<Id>)
    requires cfg.status != "tenantId"
    requires OldestBatch(s, cfg, EligibleIds(s, cfg, t, now), limit, picked)
    ensures EligibleIds(View(s, t), cfg, t, now) == EligibleIds(s, cfg, t, now)
    ensures OldestBatch(View(s, t), cfg, EligibleIds(View(s, t), cfg, t, now), limit, picked)
    ensures View(SetOn(s, picked, map[cfg.status := cfg.inProgress]), t)
            == SetOn(View(s, t), picked, map[cfg.status := cfg.inProgress])
    ensures forall u | u != t :: View(SetOn(s, picked, map[cfg.status := cfg.inProgress]), u) == View(s, u)
  {
    assert EligibleIds(View(s, t), cfg, t, now) == EligibleIds(s, cfg, t, now);
    SetOwn(t, s, picked, map[cfg.status := cfg.inProgress]);
    forall a, b | a in picked && b in EligibleIds(s, cfg, t, now) - picked
      ensures RowNotLater(View(s, t), cfg, a, b)
    {
      assert RowNotLater(s, cfg, a, b);
    }
  }

  lemma DeleteSeparates(t: string, s: Store, w: Where)
    ensures Selected(View(s, t), Merge(t, One(w))) == Selected(s, Merge(t, One(w)))
    ensures View(s - Selected(s, Merge(t, One(w))), t) == View(s, t) - Selected(s, Merge(t, One(w)))
    ensures forall u | u != t :: View(s - Selected(s, Merge(t, One(w))), u) == View(s, u)
  {
    FindOwn(t, s, One(w));
    var ids := Selected(s, Merge(t, One(w)));
    forall id | id in ids ensures Owned(s[id], t) {
      MergedSelects(t, One(w), id, s[id]);
    }
  }

  lemma SoftDeleteSeparates(t: string, s: Store, w: Where, at: int)
    ensures Selected(View(s, t), Merge(t, One(w))) == Selected(s, Merge(t, One(w)))
    ensures View(UpdateWhere(s, Merge(t, One(w)), map["deletedAt" := Num(at)]), t)
            == UpdateWhere(View(s, t), Merge(t, One(w)), map["deletedAt" := Num(at)])
    ensures forall u | u != t :: View(UpdateWhere(s, Merge(t, One(w)), map["deletedAt" := Num(at)]), u) == View(s, u)
  {
    forall id | id in s && Selects(Merge(t, One(w)), id, s[id]) ensures Owned(s[id], t) {
      MergedSelects(t, One(w), id, s[id]);
    }
    UpdateOwn(t, s, Merge(t, One(w)), map["deletedAt" := Num(at)]);
  }

  lemma ClaimIsStep(t: string, cfg: ClaimConfig, limit: nat, now: int, s: Store, s2: Store, picked: set<Id>)
    requires OldestBatch(s, cfg, EligibleIds(s, cfg, t, now), limit, picked)
    requires s2 == SetOn(s, picked, map[cfg.status := cfg.inProgress])
    ensures Step(t, s, Claim(cfg, limit, now), s2, Rows(map id | id in picked :: s2[id]))
  {
    hide OldestBatch, EligibleIds, SetOn;
  }

  lemma PickedSeparates(t: string, s: Store, cfg: ClaimConfig, limit: nat, now: int, s2: Store, picked: set<Id>)
    requires cfg.status != "tenantId" && OldestBatch(s, cfg, EligibleIds(s, cfg, t, now), limit, picked)
    requires s2 == SetOn(s, picked, map[cfg.status := cfg.inProgress])
    ensures Step(t, View(s, t), Claim(cfg, limit, now), View(s2, t), Rows(map id | id in picked :: s2[id]))
    ensures forall u | u != t :: View(s2, u) == View(s, u)
  {
    ClaimOwn(t, s, cfg, limit, now, picked);
    assert picked <= View(s, t).Keys;
    hide Step, OldestBatch, EligibleIds, SetOn;
    ClaimIsStep(t, cfg, limit, now, View(s, t), View(s2, t), picked);
    assert (map id | id in picked :: s2[id]) == map id | id in picked :: View(s2, t)[id];
  }

  lemma ClaimSeparates(t: string, s: Store, cfg: ClaimConfig, limit: nat, now: int, s2: Store, r: Reply)
    requires cfg.status != "tenantId" && Step(t, s, Claim(cfg, limit, now), s2, r)
    ensures Step(t, View(s, t), Claim(cfg, limit, now), View(s2, t), r)
    ensures forall u | u != t :: View(s2, u) == View(s, u)
  {
    var picked :|
      && OldestBatch(s, cfg, EligibleIds(s, cfg, t, now), limit, picked)
      && s2 == SetOn(s, picked, map[cfg.status := cfg.inProgress])
      && r == Rows(map id | id in picked :: s2[id]);
    hide Step, OldestBatch, EligibleIds, SetOn, View;
    PickedSeparates(t, s, cfg, limit, now, s2, picked);
  }

  lemma UpdateStepSeparates(t: string, s: Store, target: UpdateTarget, payload: Row)
    requires KeepsTenant(t, payload)
    ensures View(UpdateWhere(s, UpdateCriteria(t, target), payload), t)
            == UpdateWhere(View(s, t), UpdateCriteria(t, target), payload)
    ensures Selected(View(s, t), UpdateCriteria(t, target)) == Selected(s, UpdateCriteria(t, target))
    ensures forall u | u != t :: View(UpdateWhere(s, UpdateCriteria(t, target), payload), u) == View(s, u)
  {
    forall id | id in s && Selects(UpdateCriteria(t, target), id, s[id]) ensures Owned(s[id], t) {
      UpdateSelectsOwn(t, target, id, s[id]);
    }
    UpdateOwn(t, s, UpdateCriteria(t, target), payload);
  }

  /** One legal step of tenant `t` is the same step on `t`'s rows alone, and no other tenant can see it. */
  lemma StepSeparates(t: string, s: Store, op: Op, s2: Store, r: Reply)
    requires Legal(t, s, op) && Step(t, s, op, s2, r)
    ensures Legal(t, View(s, t), op) && Step(t, View(s, t), op, View(s2, t), r)
    ensures forall u | u != t :: View(s2, u) == View(s, u)
  {
    match op
    case Find(c) => FindOwn(t, s, c);
    case FindOne(c) => FindOwn(t, s, c);
    case Count(c) => FindOwn(t, s, c);
    case Save(es) => SaveOwn(t, s, es);
    case Delete(w) => DeleteSeparates(t, s, w);
    case SoftDelete(w, at) => SoftDeleteSeparates(t, s, w, at);
    case Update(target, payload) => UpdateStepSeparates(t, s, target, payload);
    case Claim(cfg, limit, now) => ClaimSeparates(t, s, cfg, limit, now, s2, r);
    case UpdateStatusById(id, column, status) => UpdateStepSeparates(t, s, ById(id), map[column := status]);
    case MarkFailure(id, cfg, a, attempts, baseSec, capSec, now) =>
      UpdateStepSeparates(t, s, ById(id), FailurePayload(cfg, a, attempts, baseSec, capSec, now));
  }

  /** Separability: whatever the other tenants do in between, the rows tenant `t` owns and the replies it
      receives are those of `t`'s own calls run alone on `t`'s own rows. */
  lemma {:induction false} Separability(s: Store, calls: seq<Call>, s2: Store, t: string)
    requires Runs(s, calls, s2)
    ensures Runs(View(s, t), CallsOf(calls, t), View(s2, t))
    decreases |calls|
  {
    if |calls| > 0 {
      var c := calls[0];
      var m :| Legal(c.tenant, s, c.op) && Step(c.tenant, s, c.op, m, c.reply) && Runs(m, calls[1..], s2);
      StepSeparates(c.tenant, s, c.op, m, c.reply);
      Separability(m, calls[1..], s2, t);
      if c.tenant == t {
        var own := CallsOf(calls, t);
        assert own[0] == c && own[1..] == CallsOf(calls[1..], t);
        assert Runs(View(m, t), own[1..], View(s2, t));
      } else {
        assert CallsOf(calls, t) == CallsOf(calls[1..], t);
      }
    }
  }

  /** Apart from the two choices left to the database, a tenant's calls determine its rows and replies, so
      the run alone is the only one the interleaved run can be compared with. */
  predicate Determined(op: Op) {
    !op.FindOne? && !op.Claim?
  }

  ghost predicate SameCalls(a: seq<Call>, b: seq<Call>) {
    |a| == |b| && forall i | 0 <= i < |a| :: a[i].tenant == b[i].tenant && a[i].op == b[i].op
  }

  lemma CallDetermined(s: Store, c: Call, m: Store, d: Call, n: Store)
    requires c.tenant == d.tenant && c.op == d.op && Determined(c.op)
    requires Step(c.tenant, s, c.op, m, c.reply) && Step(d.tenant, s, d.op, n, d.reply)
    ensures m == n && c == d
  {
  }

  lemma {:induction false} RunsDetermined(s: Store, a: seq<Call>, s2: Store, b: seq<Call>, s3: Store)
    requires Runs(s, a, s2) && Runs(s, b, s3)
    requires SameCalls(a, b) && forall i | 0 <= i < |a| :: Determined(a[i].op)
    ensures a == b && s2 == s3
    decreases |a|
  {
    hide Step, Legal, Determined;
    if |a| > 0 {
      var m :| Legal(a[0].tenant, s, a[0].op) && Step(a[0].tenant, s, a[0].op, m, a[0].reply) && Runs(m, a[1..], s2);
      var n :| Legal(b[0].tenant, s, b[0].op) && Step(b[0].tenant, s, b[0].op, n, b[0].reply) && Runs(n, b[1..], s3);
      CallDetermined(s, a[0], m, b[0], n);
      forall i | 0 <= i < |a[1..]|
        ensures a[1..][i].tenant == b[1..][i].tenant && a[1..][i].op == b[1..][i].op && Determined(a[1..][i].op)
      {
        assert a[1..][i] == a[i + 1] && b[1..][i] == b[i + 1];
      }
      RunsDetermined(m, a[1..], s2, b[1..], s3);
      assert a == [a[0]] + a[1..] && b == [b[0]] + b[1..];
    }
  }

  // ---------- What the operations mean

  /** The caller's conditions hold of the row, whatever they say about the tenant. */
  predicate Meets(w: Where, id: Id, row: Row) {
    forall c | c in w && c != "tenantId" :: w[c](Column(id, row, c))
  }

  /** The row is the tenant's, and what the caller asks for. */
  predicate Wanted(t: string, crit: Criteria, id: Id, row: Row) {
    && "tenantId" in row && row["tenantId"] == Text(t)
    && match crit
       case Unspecified => true
       case One(w) => Meets(w, id, row)
       case AnyOf(ws) => exists i | 0 <= i < |ws| :: Meets(ws[i], id, row)
  }

  /** A query of the tenant should find the row: it is not soft-deleted, and wanted. No tenant is asked for with an
      empty OR-list. */
  predicate Found(t: string, crit: Criteria, id: Id, row: Row) {
    && ("deletedAt" in row ==> row["deletedAt"].Null?)
    && (EmptyList(crit) || Wanted(t, crit, id, row))
  }

  /** The row is the tenant's, and one the update is aimed at. */
  predicate Aimed(t: string, target: UpdateTarget, id: Id, row: Row) {
    && "tenantId" in row && row["tenantId"] == Text(t)
    && match target
       case ById(x) => id == x
       case ByIds(ids) => id in ids
       case ByWhere(w) => Meets(w, id, row)
       case ByList(ws) => exists i | 0 <= i < |ws| :: Meets(ws[i], id, row)
  }

  lemma OthersMeet(w: Where, id: Id, row: Row)
    ensures Satisfies(id, row, w - {"tenantId"}) <==> Meets(w, id, row)
  {
    if Satisfies(id, row, w - {"tenantId"}) {
      forall c | c in w && c != "tenantId" ensures w[c](Column(id, row, c)) {
        assert c in w - {"tenantId"};
      }
    }
  }

  lemma MergedMeans(t: string, crit: Criteria, id: Id, row: Row)
    ensures Selects(Merge(t, crit), id, row) <==> EmptyList(crit) || Wanted(t, crit, id, row)
  {
    MergedSelects(t, crit, id, row);
    match crit
    case Unspecified =>
    case One(w) => OthersMeet(w, id, row);
    case AnyOf(ws) =>
      forall i | 0 <= i < |ws| ensures Satisfies(id, row, ws[i] - {"tenantId"}) <==> Meets(ws[i], id, row) {
        OthersMeet(ws[i], id, row);
      }
  }

  lemma IdMeans(t: string, ids: seq<Id>, id: Id, row: Row)
    ensures Satisfies(id, row, WithTenant(t, map["id" := OneOf(ids)])) <==> Owned(row, t) && id in ids
  {
    var w: Where := map["id" := OneOf(ids)];
    WithTenantMeans(t, w, id, row);
    assert "id" in w - {"tenantId"};
    assert Satisfies(id, row, w - {"tenantId"}) <==> id in ids;
  }

  lemma TargetMeans(t: string, target: UpdateTarget, id: Id, row: Row)
    ensures Selects(UpdateCriteria(t, target), id, row) <==> Aimed(t, target, id, row)
  {
    match target
    case ById(x) => IdMeans(t, [x], id, row);
    case ByIds(ids) => IdMeans(t, ids, id, row);
    case ByWhere(w) =>
      WithTenantMeans(t, w, id, row);
      OthersMeet(w, id, row);
    case ByList(ws) =>
      if |ws| > 0 {
        MergedMeans(t, AnyOf(ws), id, row);
      } else {
        IdMeans(t, [], id, row);
      }
  }

  lemma FindMeans(t: string, s: Store, crit: Criteria)
    ensures FindRows(s, Merge(t, crit)) == map id | id in s && Found(t, crit, id, s[id]) :: s[id]
  {
    forall id | id in s ensures Selects(Merge(t, crit), id, s[id]) <==> EmptyList(crit) || Wanted(t, crit, id, s[id]) {
      MergedMeans(t, crit, id, s[id]);
    }
    hide Merge, Selects, Wanted;
  }

  lemma SelectedMeans(t: string, s: Store, w: Where)
    ensures Selected(s, One(WithTenant(t, w))) == set id | id in s && Wanted(t, One(w), id, s[id])
  {
    forall id | id in s ensures Selects(One(WithTenant(t, w)), id, s[id]) <==> Wanted(t, One(w), id, s[id]) {
      MergedMeans(t, One(w), id, s[id]);
    }
  }

  lemma SoftDeleteMeans(t: string, s: Store, w: Where, at: int)
    ensures SetOn(s, Selected(s, One(WithTenant(t, w))), map["deletedAt" := Num(at)]) ==
            map id | id in s :: if Wanted(t, One(w), id, s[id]) then s[id]["deletedAt" := Num(at)] else s[id]
  {
    SelectedMeans(t, s, w);
    hide Wanted, Selected;
    assert forall id | id in s :: s[id] + map["deletedAt" := Num(at)] == s[id]["deletedAt" := Num(at)];
  }

  lemma ByIdMeans(t: string, s: Store, id: Id, payload: Row)
    ensures SetOn(s, Selected(s, UpdateCriteria(t, ById(id))), payload) ==
            if id in s && Aimed(t, ById(id), id, s[id]) then s[id := s[id] + payload] else s
  {
    AimedMeans(t, s, ById(id));
    assert forall x | x in s && Aimed(t, ById(id), x, s[x]) :: x == id;
    hide Selected, UpdateCriteria;
  }

  lemma AimedMeans(t: string, s: Store, target: UpdateTarget)
    ensures Selected(s, UpdateCriteria(t, target)) == set id | id in s && Aimed(t, target, id, s[id])
  {
    forall id | id in s ensures Selects(UpdateCriteria(t, target), id, s[id]) <==> Aimed(t, target, id, s[id]) {
      TargetMeans(t, target, id, s[id]);
    }
    hide UpdateCriteria, Selects, Aimed;
  }

  /** The row waits for a claim of the tenant: it is pending, its next attempt is due, and so is its schedule. A
      missing date is due. */
  predicate Waits(t: string, cfg: ClaimConfig, now: int, id: Id, row: Row) {
    && "tenantId" in row && row["tenantId"] == Text(t) && Column(id, row, cfg.status) == cfg.pending
    && (match Column(id, row, cfg.nextAttemptAt) case Null => true case Num(at) => at <= now case Text(_) => false)
    && (cfg.scheduleAt.Some? ==>
          match Column(id, row, cfg.scheduleAt.value) case Null => true case Num(at) => at <= now case Text(_) => false)
  }

  /** Row `a` was created no later than row `b`, a row without a date being the latest. */
  predicate CreatedBy(s: Store, cfg: ClaimConfig, a: Id, b: Id)
    requires a in s && b in s
  {
    var x, y := Column(a, s[a], cfg.createdAt), Column(b, s[b], cfg.createdAt);
    y.Num? ==> x.Num? && x.n <= y.n
  }

  /** A claim takes waiting rows and no others, up to the limit and all of them below it, none created later than a
      waiting row it leaves, and flips the status of exactly these. */
  ghost predicate Claims(t: string, cfg: ClaimConfig, limit: nat, now: int, before: Store, after: Store, taken: Store) {
    && (forall id | id in taken :: id in before && Waits(t, cfg, now, id, before[id]))
    && |taken| <= limit
    && (|taken| < limit ==> forall id | id in before && Waits(t, cfg, now, id, before[id]) :: id in taken)
    && (forall a, b | a in taken && b in before && b !in taken && Waits(t, cfg, now, b, before[b]) ::
          CreatedBy(before, cfg, a, b))
    && after == (map id | id in before ::
                   if id in taken then before[id][cfg.status := cfg.inProgress] else before[id])
    && forall id | id in taken :: taken[id] == after[id]
  }

  lemma WaitsIsEligible(t: string, cfg: ClaimConfig, now: int, s: Store)
    ensures forall id | id in s :: id in EligibleIds(s, cfg, t, now) <==> Waits(t, cfg, now, id, s[id])
  {
  }

  lemma NotLaterMeans(s: Store, cfg: ClaimConfig, a: Id, b: Id)
    requires a in s && b in s && RowNotLater(s, cfg, a, b)
    ensures CreatedBy(s, cfg, a, b)
  {
  }

  lemma FlippedRows(s: Store, picked: set<Id>, column: string, status: Value)
    ensures SetOn(s, picked, map[column := status]) ==
            map id | id in s :: if id in picked then s[id][column := status] else s[id]
  {
    assert forall id | id in s :: s[id] + map[column := status] == s[id][column := status];
  }

  lemma ClaimMeans(t: string, cfg: ClaimConfig, limit: nat, now: int, before: Store, after: Store, picked: set<Id>)
    requires OldestBatch(before, cfg, EligibleIds(before, cfg, t, now), limit, picked)
    requires after == SetOn(before, picked, map[cfg.status := cfg.inProgress])
    ensures Claims(t, cfg, limit, now, before, after, map id | id in picked :: after[id])
  {
    WaitsIsEligible(t, cfg, now, before);
    FlippedRows(before, picked, cfg.status, cfg.inProgress);
    var taken := map id | id in picked :: after[id];
    assert taken.Keys == picked && |taken| == |picked|;
    hide Waits, EligibleIds, Column, RowNotLater, CreatedBy, SetOn;
    forall a, b | a in taken && b in before && b !in taken && Waits(t, cfg, now, b, before[b])
      ensures CreatedBy(before, cfg, a, b)
    {
      assert b in EligibleIds(before, cfg, t, now) - picked;
      NotLaterMeans(before, cfg, a, b);
    }
  }

  predicate DistinctIds(es: seq<Entry>) {
    forall i, j | 0 <= i < j < |es| :: es[i].id != es[j].id
  }

  /** A saved row keeps its other columns, and is the tenant's. */
  lemma {:induction false} SaveMeans(s: Store, t: string, es: seq<Entry>)
    requires DistinctIds(es)
    ensures forall i | 0 <= i < |es| ::
              && es[i].id in SaveAll(s, t, es)
              && SaveAll(s, t, es)[es[i].id] ==
                 (if es[i].id in s then s[es[i].id] else map[]) + es[i].fields["tenantId" := Text(t)]
    ensures forall id | forall i | 0 <= i < |es| :: es[i].id != id ::
              (id in SaveAll(s, t, es) <==> id in s) && (id in s ==> SaveAll(s, t, es)[id] == s[id])
    decreases |es|
  {
    if |es| > 0 {
      var one := SaveOne(s, Entry(es[0].id, WithTenantOnPartial(t, es[0].fields)));
      var rest := es[1..];
      assert forall i | 0 <= i < |rest| :: rest[i] == es[i + 1];
      SaveMeans(one, t, rest);
      assert SaveAll(s, t, es) == SaveAll(one, t, rest);
      forall id | forall i | 0 <= i < |es| :: es[i].id != id
        ensures (id in SaveAll(s, t, es) <==> id in s) && (id in s ==> SaveAll(s, t, es)[id] == s[id])
      {
        assert es[0].id != id;
        assert forall i | 0 <= i < |rest| :: rest[i].id != id;
      }
    }
  }

  // ---------- Soft-deleted rows stay out of sight

  /** The operation removes no row and writes no deletion date. */
  predicate KeepsDeletionDates(op: Op) {
    match op
    case Find(_) => true
    case FindOne(_) => true
    case Count(_) => true
    case Save(es) => forall i | 0 <= i < |es| :: "deletedAt" !in es[i].fields
    case Delete(_) => false
    case SoftDelete(_, _) => true
    case Update(_, payload) => "deletedAt" !in payload
    case Claim(cfg, _, _) => cfg.status != "deletedAt"
    case UpdateStatusById(_, column, _) => column != "deletedAt"
    case MarkFailure(_, cfg, a, _, _, _, _) => "deletedAt" !in [cfg.status, a, cfg.nextAttemptAt]
  }

  predicate Dated(s: Store, id: Id) {
    id in s && "deletedAt" in s[id] && s[id]["deletedAt"].Num?
  }

  lemma {:induction false} SaveKeepsDate(s: Store, t: string, es: seq<Entry>, id: Id)
    requires Dated(s, id) && forall i | 0 <= i < |es| :: "deletedAt" !in es[i].fields
    ensures Dated(SaveAll(s, t, es), id)
    decreases |es|
  {
    if |es| > 0 {
      SaveKeepsDate(SaveOne(s, Entry(es[0].id, WithTenantOnPartial(t, es[0].fields))), t, es[1..], id);
    }
  }

  lemma StepKeepsDate(t: string, s: Store, op: Op, s2: Store, r: Reply, id: Id)
    requires Step(t, s, op, s2, r) && KeepsDeletionDates(op) && Dated(s, id)
    ensures Dated(s2, id)
  {
    match op
    case Save(es) => SaveKeepsDate(s, t, es, id);
    case _ => hide Merge, UpdateCriteria, Selected, OldestBatch, BackoffSec, EligibleIds, FindRows, Picks;
  }

  lemma {:induction false} RunKeepsDate(s: Store, calls: seq<Call>, s2: Store, id: Id)
    requires Runs(s, calls, s2) && Dated(s, id) && forall i | 0 <= i < |calls| :: KeepsDeletionDates(calls[i].op)
    ensures Dated(s2, id)
    decreases |calls|
  {
    hide Legal, Step, KeepsDeletionDates, Dated;
    if |calls| > 0 {
      var c := calls[0];
      var m :| Legal(c.tenant, s, c.op) && Step(c.tenant, s, c.op, m, c.reply) && Runs(m, calls[1..], s2);
      StepKeepsDate(c.tenant, s, c.op, m, c.reply, id);
      forall i | 0 <= i < |calls[1..]| ensures KeepsDeletionDates(calls[1..][i].op) {
        assert calls[1..][i] == calls[i + 1];
      }
      RunKeepsDate(m, calls[1..], s2, id);
    }
  }

  /** A soft delete hides exactly the tenant's matching rows: every query finds what it found before, but for these;
      and no query finds them after any calls of anybody that write no deletion date. */
  lemma SoftDeletedStaysHidden(t: string, w: Where, at: int, s: Store, s1: Store, r: Reply, calls: seq<Call>, s2: Store,
      u: string, crit: Criteria, found: Store, later: Store)
    requires Step(t, s, SoftDelete(w, at), s1, r) && Step(u, s1, Find(crit), s1, Rows(found))
    requires Runs(s1, calls, s2) && forall i | 0 <= i < |calls| :: KeepsDeletionDates(calls[i].op)
    requires Step(u, s2, Find(crit), s2, Rows(later))
    ensures forall id | id in s && Wanted(t, One(w), id, s[id]) :: id !in found && id !in later
    ensures forall id | id in s && !Wanted(t, One(w), id, s[id]) :: id in found <==> Found(u, crit, id, s[id])
  {
    FindMeans(u, s1, crit);
    FindMeans(u, s2, crit);
    SelectedMeans(t, s, w);
    hide Runs, Wanted, WithTenant, Merge, FindRows, Selects;
    assert Selected(s, Merge(t, One(w))) == Selected(s, One(WithTenant(t, w))) by {
      MergeOne(t, w);
    }
    forall id | id in s && Wanted(t, One(w), id, s[id]) ensures id !in found && id !in later {
      RunKeepsDate(s1, calls, s2, id);
    }
  }

  lemma MergeOne(t: string, w: Where)
    ensures Merge(t, One(w)) == One(WithTenant(t, w))
  {
  }

  // ---------- The repository object

  lemma NotLaterTotal(a: Value, b: Value)
    ensures NotLater(a, b) || NotLater(b, a)
  {
  }

  /** Some row of a non-empty candidate set is as old as any other. */
  lemma {:induction false} OldestExists(s: Store, cfg: ClaimConfig, ids: set<Id>) returns (oldest: Id)
    requires ids != {} && ids <= s.Keys
    ensures oldest in ids && forall b | b in ids :: RowNotLater(s, cfg, oldest, b)
    decreases |ids|
  {
    var x :| x in ids;
    oldest := x;
    if ids != {x} {
      var y := OldestExists(s, cfg, ids - {x});
      NotLaterTotal(Column(x, s[x], cfg.createdAt), Column(y, s[y], cfg.createdAt));
      oldest := if RowNotLater(s, cfg, x, y) then x else y;
      forall b | b in ids ensures RowNotLater(s, cfg, oldest, b) {
        if b != x {
          assert b in ids - {x};
        }
      }
    } else {
      assert forall b | b in ids :: b == x;
    }
  }

  const NO_TENANT := "TenantAwareRepository: tenantId missing in CLS context"

  /** A repository bound to the shared table and to the tenant of the current request context. */
  class TenantAwareRepository {
    var rows: Store
    var cls: Option<string>

    constructor (rows: Store, cls: Option<string>)
      ensures this.rows == rows && this.cls == cls
    {
      this.rows := rows;
      this.cls := cls;
    }

    /** A missing and an empty tenant id are both refused. */
    predicate HasTenant()
      reads this`cls
    {
      cls.Some? && cls.value != ""
    }

    method Find(crit: Criteria) returns (r: Result<Store, string>)
      ensures !HasTenant() ==> r == Err(NO_TENANT)
      ensures HasTenant() ==> r.Ok? && Step(cls.value, rows, Op.Find(crit), rows, Rows(r.value))
      ensures HasTenant() ==> forall id :: id in r.value <==> id in rows && Found(cls.value, crit, id, rows[id])
      ensures HasTenant() ==> forall id | id in r.value :: r.value[id] == rows[id]
    {
      if !HasTenant() {
        return Err(NO_TENANT);
      }
      FindMeans(cls.value, rows, crit);
      return Ok(FindRows(rows, Merge(cls.value, crit)));
    }

    method FindOne(crit: Criteria) returns (r: Result<Option<(Id, Row)>, string>)
      ensures !HasTenant() ==> r == Err(NO_TENANT)
      ensures HasTenant() ==> r.Ok? && Step(cls.value, rows, Op.FindOne(crit), rows, Maybe(r.value))
      ensures HasTenant() && r.value.None? ==> forall id | id in rows :: !Found(cls.value, crit, id, rows[id])
      ensures HasTenant() && r.value.Some? ==>
                var (id, row) := r.value.value; id in rows && row == rows[id] && Found(cls.value, crit, id, row)
    {
      if !HasTenant() {
        return Err(NO_TENANT);
      }
      FindMeans(cls.value, rows, crit);
      var found := FindRows(rows, Merge(cls.value, crit));
      if found == map[] {
        assert forall id | id in rows && Found(cls.value, crit, id, rows[id]) :: id in found;
        return Ok(None);
      }
      assert found.Keys != {};
      var id :| id in found.Keys;
      return Ok(Some((id, found[id])));
    }

    method GetTotal(crit: Criteria) returns (r: Result<nat, string>)
      ensures !HasTenant() ==> r == Err(NO_TENANT)
      ensures HasTenant() ==> r.Ok? && Step(cls.value, rows, Count(crit), rows, Total(r.value))
      ensures HasTenant() ==> r.value == |set id | id in rows && Found(cls.value, crit, id, rows[id])|
    {
      if !HasTenant() {
        return Err(NO_TENANT);
      }
      FindMeans(cls.value, rows, crit);
      assert FindRows(rows, Merge(cls.value, crit)).Keys == set id | id in rows && Found(cls.value, crit, id, rows[id]);
      return Ok(|FindRows(rows, Merge(cls.value, crit))|);
    }

    method Save(entries: seq<Entry>) returns (r: Result<seq<Entry>, string>)
      modifies this`rows
      ensures !HasTenant() ==> r == Err(NO_TENANT) && rows == old(rows)
      ensures HasTenant() ==> r.Ok? && Step(cls.value, old(rows), Op.Save(entries), rows, Stored(r.value))
      ensures HasTenant() && DistinctIds(entries) ==>
                forall i | 0 <= i < |entries| ::
                  && entries[i].id in rows
                  && rows[entries[i].id] ==
                     (if entries[i].id in old(rows) then old(rows)[entries[i].id] else map[])
                     + entries[i].fields["tenantId" := Text(cls.value)]
      ensures HasTenant() && DistinctIds(entries) ==>
                forall id | forall i | 0 <= i < |entries| :: entries[i].id != id ::
                  (id in rows <==> id in old(rows)) && (id in old(rows) ==> rows[id] == old(rows)[id])
      ensures HasTenant() ==>
                && |r.value| == |entries|
                && forall i | 0 <= i < |entries| ::
                     r.value[i] == Entry(entries[i].id, entries[i].fields["tenantId" := Text(cls.value)])
    {
      if !HasTenant() {
        return Err(NO_TENANT);
      }
      var t := cls.value;
      if DistinctIds(entries) {
        SaveMeans(rows, t, entries);
      }
      rows := SaveAll(rows, t, entries);
      return Ok(Stamped(t, entries));
    }

    method Delete(w: Where) returns (r: Result<nat, string>)
      modifies this`rows
      ensures !HasTenant() ==> r == Err(NO_TENANT) && rows == old(rows)
      ensures HasTenant() ==> r.Ok? && Step(cls.value, old(rows), Op.Delete(w), rows, Affected(r.value))
      ensures HasTenant() ==>
                && rows == old(rows) - set id | id in old(rows) && Wanted(cls.value, One(w), id, old(rows)[id])
                && r.value == |set id | id in old(rows) && Wanted(cls.value, One(w), id, old(rows)[id])|
    {
      if !HasTenant() {
        return Err(NO_TENANT);
      }
      SelectedMeans(cls.value, rows, w);
      var hit := Selected(rows, One(WithTenant(cls.value, w)));
      rows := rows - hit;
      return Ok(|hit|);
    }

    method SoftDelete(w: Where, at: int) returns (r: Result<nat, string>)
      modifies this`rows
      ensures !HasTenant() ==> r == Err(NO_TENANT) && rows == old(rows)
      ensures HasTenant() ==> r.Ok? && Step(cls.value, old(rows), Op.SoftDelete(w, at), rows, Affected(r.value))
      ensures HasTenant() ==>
                && rows == (map id | id in old(rows) ::
                              if Wanted(cls.value, One(w), id, old(rows)[id])
                              then old(rows)[id]["deletedAt" := Num(at)] else old(rows)[id])
                && r.value == |set id | id in old(rows) && Wanted(cls.value, One(w), id, old(rows)[id])|
    {
      if !HasTenant() {
        return Err(NO_TENANT);
      }
      SelectedMeans(cls.value, rows, w);
      SoftDeleteMeans(cls.value, rows, w, at);
      var hit := Selected(rows, One(WithTenant(cls.value, w)));
      rows := SetOn(rows, hit, map["deletedAt" := Num(at)]);
      return Ok(|hit|);
    }

    method Update(target: UpdateTarget, payload: Row) returns (r: Result<nat, string>)
      modifies this`rows
      ensures !HasTenant() ==> r == Err(NO_TENANT) && rows == old(rows)
      ensures HasTenant() ==> r.Ok? && Step(cls.value, old(rows), Op.Update(target, payload), rows, Affected(r.value))
      ensures HasTenant() ==>
                && rows == (map id | id in old(rows) ::
                              if Aimed(cls.value, target, id, old(rows)[id]) then old(rows)[id] + payload
                              else old(rows)[id])
                && r.value == |set id | id in old(rows) && Aimed(cls.value, target, id, old(rows)[id])|
    {
      if !HasTenant() {
        return Err(NO_TENANT);
      }
      AimedMeans(cls.value, rows, target);
      var hit := Selected(rows, UpdateCriteria(cls.value, target));
      rows := SetOn(rows, hit, payload);
      return Ok(|hit|);
    }

    /** The claim picks eligible rows oldest first until the limit, and flips exactly those. */
    method ClaimPendingBatch(cfg: ClaimConfig, limit: nat, now: int) returns (r: Result<Store, string>)
      modifies this`rows
      ensures !HasTenant() ==> r == Err(NO_TENANT) && rows == old(rows)
      ensures HasTenant() ==> r.Ok? && Step(cls.value, old(rows), Claim(cfg, limit, now), rows, Rows(r.value))
      ensures HasTenant() ==> Claims(cls.value, cfg, limit, now, old(rows), rows, r.value)
    {
      if !HasTenant() {
        return Err(NO_TENANT);
      }
      hide Claims, Step;
      var table := rows;
      var candidates := EligibleIds(table, cfg, cls.value, now);
      var picked: set<Id> := {};
      while |picked| < limit && picked != candidates
        invariant picked <= candidates && |picked| <= limit
        invariant forall a, b | a in picked && b in candidates - picked :: RowNotLater(table, cfg, a, b)
        invariant rows == table
        decreases limit - |picked|
      {
        assert candidates - picked != {};
        ghost var least := OldestExists(table, cfg, candidates - picked);
        var next :| next in candidates - picked &&
          forall b | b in candidates - picked :: RowNotLater(table, cfg, next, b);
        picked := picked + {next};
      }
      assert OldestBatch(table, cfg, candidates, limit, picked);
      rows := SetOn(table, picked, map[cfg.status := cfg.inProgress]);
      ClaimMeans(cls.value, cfg, limit, now, table, rows, picked);
      ClaimIsStep(cls.value, cfg, limit, now, table, rows, picked);
      return Ok(map id | id in picked :: rows[id]);
    }

    method UpdateStatusById(id: Id, column: string, status: Value) returns (r: Result<(), string>)
      modifies this`rows
      ensures !HasTenant() ==> r == Err(NO_TENANT) && rows == old(rows)
      ensures HasTenant() ==> r.Ok? && Step(cls.value, old(rows), Op.UpdateStatusById(id, column, status), rows, Done)
      ensures HasTenant() ==>
                rows == if id in old(rows) && Aimed(cls.value, ById(id), id, old(rows)[id])
                        then old(rows)[id := old(rows)[id][column := status]] else old(rows)
    {
      if !HasTenant() {
        return Err(NO_TENANT);
      }
      ByIdMeans(cls.value, rows, id, map[column := status]);
      assert id in rows ==> rows[id] + map[column := status] == rows[id][column := status];
      hide Aimed;
      rows := SetOn(rows, Selected(rows, UpdateCriteria(cls.value, ById(id))), map[column := status]);
      return Ok(());
    }

    method MarkFailureWithBackoff(id: Id, cfg: ClaimConfig, attemptsColumn: string, attempts: nat,
                                  baseDelaySec: nat, capSec: nat, now: int) returns (r: Result<(), string>)
      modifies this`rows
      ensures !HasTenant() ==> r == Err(NO_TENANT) && rows == old(rows)
      ensures HasTenant() ==>
                && r.Ok?
                && Step(cls.value, old(rows), MarkFailure(id, cfg, attemptsColumn, attempts, baseDelaySec, capSec, now),
                        rows, Done)
      ensures HasTenant() ==>
                rows == if id in old(rows) && Aimed(cls.value, ById(id), id, old(rows)[id])
                        then old(rows)[id := old(rows)[id][cfg.status := cfg.pending]
                                                          [attemptsColumn := Num(attempts + 1)]
                                                          [cfg.nextAttemptAt :=
                                                             Num(now + 1000
                                                                       * BackoffSec(attempts, baseDelaySec, capSec))]]
                        else old(rows)
    {
      if !HasTenant() {
        return Err(NO_TENANT);
      }
      hide Aimed, BackoffSec;
      var payload: Row := map[cfg.status := cfg.pending];
      payload := payload[attemptsColumn := Num(attempts + 1)];
      payload := payload[cfg.nextAttemptAt := Num(now + 1000 * BackoffSec(attempts, baseDelaySec, capSec))];
      ByIdMeans(cls.value, rows, id, payload);
      assert id in rows ==>
          rows[id] + payload ==
          rows[id][cfg.status := cfg.pending][attemptsColumn := Num(attempts + 1)]
                  [cfg.nextAttemptAt := Num(now + 1000 * BackoffSec(attempts, baseDelaySec, capSec))];
      rows := SetOn(rows, Selected(rows, UpdateCriteria(cls.value, ById(id))), payload);
      return Ok(());
    }
  }
}
