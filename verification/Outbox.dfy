/** Concurrent outbox claims: each claim is a transaction that locks the rows it picked until it commits or
    rolls back, and other claims skip locked rows. */
module Outbox {
  import opened Wrappers
  import opened TenantRepository

  datatype Policy = Policy(cfg: ClaimConfig, attemptsColumn: string, baseSec: nat, capSec: nat)

  /** The columns are five different ones, and in-progress is not pending. */
  predicate Sound(p: Policy) {
    && p.cfg.pending != p.cfg.inProgress
    && p.cfg.status !in ["id", "tenantId", p.attemptsColumn, p.cfg.nextAttemptAt]
    && p.cfg.nextAttemptAt !in ["id", "tenantId", p.attemptsColumn]
    && p.attemptsColumn !in ["id", "tenantId"]
  }

  type Tx = nat

  /** Rows a claim transaction has picked, and when its statement read them. */
  datatype Hold = Hold(ids: set<Id>, at: int)

  datatype Event =
    | Claimed(tx: Tx, ids: set<Id>, at: int)
    | Failed(failedId: Id, attempts: nat, failedAt: int)

  datatype State = State(store: Store, held: map<Tx, Hold>, now: int, log: seq<Event>)

  predicate Locked(st: State, id: Id) {
    exists tx | tx in st.held :: id in st.held[tx].ids
  }

  datatype Action =
    | Begin(tx: Tx, t: string, limit: nat)
    | Commit(tx: Tx)
    | Rollback(tx: Tx)
    | Fail(t: string, id: Id, attempts: nat)
    | Other(t: string, op: Op)
    | Advance(ms: nat)

  /** Every other operation of the repository. */
  predicate IsOther(op: Op) {
    !op.Claim? && !op.MarkFailure?
  }

  ghost function Candidates(p: Policy, st: State, t: string): set<Id> {
    set id | id in EligibleIds(st.store, p.cfg, t, st.now) && !Locked(st, id)
  }

  function Due(p: Policy, e: Event): int
    requires e.Failed?
  {
    e.failedAt + 1000 * BackoffSec(e.attempts, p.baseSec, p.capSec)
  }

  /** Writers wait for a locked row, so a step leaves the rows locked by then as they are. */
  ghost predicate Next(p: Policy, st: State, a: Action, st2: State) {
    match a
    case Begin(tx, t, limit) =>
      tx !in st.held && exists picked ::
        && OldestBatch(st.store, p.cfg, Candidates(p, st, t), limit, picked)
        && st2 == st.(held := st.held[tx := Hold(picked, st.now)])
    case Commit(tx) =>
      && tx in st.held
      && st2 == st.(store := SetOn(st.store, st.held[tx].ids, map[p.cfg.status := p.cfg.inProgress]),
                    held := st.held - {tx},
                    log := st.log + [Claimed(tx, st.held[tx].ids, st.held[tx].at)])
    case Rollback(tx) =>
      tx in st.held && st2 == st.(held := st.held - {tx})
    case Fail(t, id, attempts) =>
      && id in st.store && !Locked(st, id) && Owned(st.store[id], t)
      && st2 == st.(store := UpdateWhere(st.store, UpdateCriteria(t, ById(id)),
                                         FailurePayload(p.cfg, p.attemptsColumn, attempts, p.baseSec, p.capSec,
                                                        st.now)),
                    log := st.log + [Failed(id, attempts, st.now)])
    case Other(t, op) =>
      && IsOther(op) && (exists r :: Step(t, st.store, op, st2.store, r))
      && st2 == st.(store := st2.store)
      && forall id | Locked(st, id) && id in st.store :: id in st2.store && st2.store[id] == st.store[id]
    case Advance(ms) =>
      st2 == st.(now := st.now + ms)
  }

  predicate Concerns(e: Event, id: Id) {
    match e
    case Claimed(_, ids, _) => id in ids
    case Failed(x, _, _) => x == id
  }

  predicate FailureOf(id: Id, e: Event) {
    e.Failed? && e.failedId == id
  }

  function LastEvent(log: seq<Event>, id: Id): Option<Event> {
    if |log| == 0 then None
    else if Concerns(log[|log| - 1], id) then Some(log[|log| - 1])
    else LastEvent(log[..|log| - 1], id)
  }

  /** Each claim of a row finds its last event to be a failure, or none at all. */
  predicate GoodLog(log: seq<Event>) {
    forall j, id | 0 <= j < |log| && log[j].Claimed? && id in log[j].ids :: !ClaimedLast(log[..j], id)
  }

  /** The row has been claimed, and has not failed since. */
  predicate ClaimedLast(log: seq<Event>, id: Id) {
    LastEvent(log, id).Some? && LastEvent(log, id).value.Claimed?
  }

  /** Some tenant may claim the row, now or later. */
  ghost predicate Claimable(p: Policy, st: State, id: Id) {
    id in st.store && exists t, at :: Eligible(p.cfg, t, at, id, st.store[id])
  }

  /** A step other than a failure makes a row claimable that has been claimed and has not failed since. */
  ghost predicate Reopens(p: Policy, st: State, st2: State, id: Id) {
    ClaimedLast(st.log, id) && ClaimedLast(st2.log, id) && Claimable(p, st2, id)
  }

  ghost predicate NothingReopens(p: Policy, st: State, st2: State) {
    forall id :: !Reopens(p, st, st2, id)
  }

  ghost predicate HoldValid(p: Policy, st: State, h: Hold) {
    h.ids <= st.store.Keys && forall id | id in h.ids :: !ClaimedLast(st.log, id)
  }

  ghost predicate Inv(p: Policy, st: State) {
    && (forall tx | tx in st.held :: HoldValid(p, st, st.held[tx]))
    && (forall a, b | a in st.held && b in st.held && a != b :: st.held[a].ids !! st.held[b].ids)
    && (forall id | ClaimedLast(st.log, id) :: !Claimable(p, st, id))
    && GoodLog(st.log)
  }

  lemma ByIdSelects(t: string, target: Id, id: Id, row: Row)
    ensures Selects(UpdateCriteria(t, ById(target)), id, row) <==> id == target && Owned(row, t)
  {
    var w: Where := map["id" := OneOf([target])];
    WithTenantMeans(t, w, id, row);
    assert "id" in w - {"tenantId"};
    assert Satisfies(id, row, w - {"tenantId"}) <==> id == target;
  }

  lemma UpdateByIdMeans(t: string, s: Store, id: Id, payload: Row)
    ensures UpdateWhere(s, UpdateCriteria(t, ById(id)), payload)
            == if id in s && Owned(s[id], t) then s[id := s[id] + payload] else s
  {
    forall x | x in s ensures x in Selected(s, UpdateCriteria(t, ById(id))) <==> x == id && Owned(s[id], t) {
      ByIdSelects(t, id, x, s[x]);
    }
  }

  lemma LogGrows(log: seq<Event>, e: Event)
    requires GoodLog(log)
    requires e.Claimed? ==> forall id | id in e.ids :: !ClaimedLast(log, id)
    ensures GoodLog(log + [e])
    ensures forall id :: LastEvent(log + [e], id) == if Concerns(e, id) then Some(e) else LastEvent(log, id)
  {
    assert (log + [e])[..|log|] == log;
    forall j | 0 <= j < |log| ensures (log + [e])[..j] == log[..j] {
    }
  }

  lemma BeginKeeps(p: Policy, st: State, tx: Tx, t: string, limit: nat, st2: State)
    requires Inv(p, st) && Next(p, st, Begin(tx, t, limit), st2)
    ensures Inv(p, st2)
  {
    hide LastEvent, Eligible;
    forall id | id in st2.held[tx].ids ensures !ClaimedLast(st.log, id) && !Locked(st, id) {
      assert Eligible(p.cfg, t, st.now, id, st.store[id]);
      assert Claimable(p, st, id);
    }
    hide Claimable, ClaimedLast, GoodLog;
    forall a | a in st.held ensures st2.held[a].ids !! st2.held[tx].ids {
      assert forall id | id in st2.held[tx].ids :: !Locked(st, id);
    }
    assert forall id :: Claimable(p, st2, id) == Claimable(p, st, id) by {
      SameClaimable(p, st, st2);
    }
  }

  lemma SameClaimable(p: Policy, st: State, st2: State)
    requires st2.store == st.store
    ensures forall id :: Claimable(p, st2, id) == Claimable(p, st, id)
  {
    hide Eligible;
  }

  lemma CommitKeeps(p: Policy, st: State, tx: Tx, st2: State)
    requires Sound(p) && Inv(p, st) && Next(p, st, Commit(tx), st2)
    ensures Inv(p, st2)
  {
    var h := st.held[tx];
    assert HoldValid(p, st, h);
    LogGrows(st.log, Claimed(tx, h.ids, h.at));
    hide LastEvent, GoodLog;
    forall id | ClaimedLast(st2.log, id) ensures !Claimable(p, st2, id) {
      if id in h.ids {
        assert Column(id, st2.store[id], p.cfg.status) == p.cfg.inProgress;
      } else {
        assert ClaimedLast(st.log, id);
        assert id in st.store ==> st2.store[id] == st.store[id];
      }
    }
    hide Claimable;
    forall a | a in st2.held ensures HoldValid(p, st2, st2.held[a]) {
      assert HoldValid(p, st, st.held[a]) && st.held[a].ids !! h.ids;
    }
  }

  lemma FailKeeps(p: Policy, st: State, t: string, id: Id, attempts: nat, st2: State)
    requires Inv(p, st) && Next(p, st, Fail(t, id, attempts), st2)
    ensures Inv(p, st2)
  {
    var payload := FailurePayload(p.cfg, p.attemptsColumn, attempts, p.baseSec, p.capSec, st.now);
    UpdateByIdMeans(t, st.store, id, payload);
    LogGrows(st.log, Failed(id, attempts, st.now));
    hide LastEvent, GoodLog, UpdateWhere, FailurePayload, UpdateCriteria;
    forall x | ClaimedLast(st2.log, x) ensures !Claimable(p, st2, x) {
      assert x != id && ClaimedLast(st.log, x);
    }
    hide Claimable;
    forall a | a in st2.held ensures HoldValid(p, st2, st2.held[a]) {
      assert HoldValid(p, st, st.held[a]) && id !in st.held[a].ids;
    }
  }

  lemma OtherKeeps(p: Policy, st: State, t: string, op: Op, st2: State)
    requires Inv(p, st) && Next(p, st, Other(t, op), st2) && NothingReopens(p, st, st2)
    ensures Inv(p, st2)
  {
    hide Step, Claimable, ClaimedLast, GoodLog;
    forall id | ClaimedLast(st2.log, id) ensures !Claimable(p, st2, id) {
      assert !Reopens(p, st, st2, id);
    }
    forall a | a in st2.held ensures HoldValid(p, st2, st2.held[a]) {
      assert HoldValid(p, st, st.held[a]);
      assert forall id | id in st.held[a].ids :: Locked(st, id);
    }
  }

  lemma NextKeepsInv(p: Policy, st: State, a: Action, st2: State)
    requires Sound(p) && Inv(p, st) && Next(p, st, a, st2) && (a.Other? ==> NothingReopens(p, st, st2))
    ensures Inv(p, st2)
  {
    match a
    case Begin(tx, t, limit) => BeginKeeps(p, st, tx, t, limit, st2);
    case Commit(tx) => CommitKeeps(p, st, tx, st2);
    case Fail(t, id, attempts) => FailKeeps(p, st, t, id, attempts, st2);
    case Other(t, op) => OtherKeeps(p, st, t, op, st2);
    case Rollback(_) =>
      hide Claimable, ClaimedLast, GoodLog;
      SameClaimable(p, st, st2);
      assert forall a | a in st2.held :: HoldValid(p, st, st.held[a]);
    case Advance(_) =>
      hide Claimable, ClaimedLast, GoodLog;
      SameClaimable(p, st, st2);
      assert forall a | a in st2.held :: HoldValid(p, st, st.held[a]);
  }

  /** A run from a table nobody has claimed from yet, in which the other writers keep to `allowed`. */
  ghost predicate Run(p: Policy, allowed: iset<(string, Op)>, states: seq<State>, actions: seq<Action>) {
    && |states| == |actions| + 1
    && states[0].held == map[] && states[0].log == []
    && (forall i | 0 <= i < |actions| :: Next(p, states[i], actions[i], states[i + 1]))
    && (forall i | 0 <= i < |actions| && actions[i].Other? :: (actions[i].t, actions[i].op) in allowed)
  }

  ghost predicate NeverReopens(p: Policy, states: seq<State>, actions: seq<Action>)
    requires |states| == |actions| + 1
  {
    forall i | 0 <= i < |actions| && actions[i].Other? :: NothingReopens(p, states[i], states[i + 1])
  }

  lemma {:induction false} RunKeepsInv(p: Policy, allowed: iset<(string, Op)>, states: seq<State>, actions: seq<Action>,
      n: nat)
    requires Sound(p) && Run(p, allowed, states, actions) && n < |states|
    requires forall i | 0 <= i < n && actions[i].Other? :: NothingReopens(p, states[i], states[i + 1])
    ensures Inv(p, states[n])
  {
    hide Inv, Next, NothingReopens;
    if n > 0 {
      RunKeepsInv(p, allowed, states, actions, n - 1);
      NextKeepsInv(p, states[n - 1], actions[n - 1], states[n]);
    } else {
      StartInv(p, states[0]);
    }
  }

  lemma StartInv(p: Policy, st: State)
    requires st.held == map[] && st.log == []
    ensures Inv(p, st)
  {
  }

  /** The event `LastEvent` finds, with its position, and silence about the row after it. */
  lemma {:induction false} LastEventPosition(log: seq<Event>, id: Id) returns (k: nat)
    requires LastEvent(log, id).Some?
    ensures k < |log| && log[k] == LastEvent(log, id).value && Concerns(log[k], id)
    ensures forall i | k < i < |log| :: !Concerns(log[i], id)
  {
    k := |log| - 1;
    if !Concerns(log[k], id) {
      k := LastEventPosition(log[..|log| - 1], id);
    }
  }

  lemma {:induction false} SomeEvent(log: seq<Event>, id: Id, i: nat)
    requires i < |log| && Concerns(log[i], id)
    ensures LastEvent(log, id).Some?
  {
    if !Concerns(log[|log| - 1], id) {
      SomeEvent(log[..|log| - 1], id, i);
    }
  }

  /** Between two claims that returned the same row lies a failure of that row. */
  ghost predicate Exclusive(log: seq<Event>) {
    forall i, j, id | 0 <= i < j < |log| && log[i].Claimed? && log[j].Claimed? && id in log[i].ids
        && id in log[j].ids ::
      FailedBetween(log, id, i, j)
  }

  predicate FailedBetween(log: seq<Event>, id: Id, i: int, j: int) {
    exists k | 0 <= k < |log| :: i < k < j && FailureOf(id, log[k])
  }

  lemma GoodLogIsExclusive(log: seq<Event>)
    requires GoodLog(log)
    ensures Exclusive(log)
  {
    forall i, j, id | 0 <= i < j < |log| && log[i].Claimed? && log[j].Claimed? && id in log[i].ids && id in log[j].ids
      ensures FailedBetween(log, id, i, j)
    {
      SomeEvent(log[..j], id, i);
      var k := LastEventPosition(log[..j], id);
      assert log[..j][k] == log[k];
      assert Concerns(log[..j][i], id);
      assert !ClaimedLast(log[..j], id);
      assert FailureOf(id, log[k]);
    }
  }

  // ---------- When claims are exclusive

  /** Every run in which the other writers keep to `allowed` is exclusive. */
  ghost predicate AlwaysExclusive(p: Policy, allowed: iset<(string, Op)>) {
    forall states: seq<State>, actions: seq<Action> | Run(p, allowed, states, actions) ::
        Exclusive(states[|actions|].log)
  }

  /** No such run has a step that makes a claimed row claimable again. */
  ghost predicate NobodyReopens(p: Policy, allowed: iset<(string, Op)>) {
    forall states: seq<State>, actions: seq<Action> | Run(p, allowed, states, actions) ::
        NeverReopens(p, states, actions)
  }

  lemma {:induction false} UnusedTx(used: set<Tx>) returns (tx: Tx)
    ensures tx !in used && forall u | u in used :: u < tx
  {
    if used == {} {
      tx := 0;
    } else {
      var u :| u in used;
      var next := UnusedTx(used - {u});
      tx := if u < next then next else u + 1;
      assert forall v | v in used :: v == u || v in used - {u};
    }
  }

  lemma EligibleLater(p: Policy, t: string, at: int, later: int, id: Id, row: Row)
    requires Eligible(p.cfg, t, at, id, row) && at <= later
    ensures Eligible(p.cfg, t, later, id, row)
  {
  }

  function Later(at: int, now: int): nat {
    if at > now then at - now else 0
  }

  /** A claimable row that nobody holds can be claimed: wait, begin, commit. */
  lemma ClaimNow(p: Policy, st: State, id: Id) returns (acts: seq<Action>, sts: seq<State>)
    requires Claimable(p, st, id) && !Locked(st, id)
    ensures |acts| == 3 && |sts| == 3 && forall i | 0 <= i < 3 :: !acts[i].Other?
    ensures Next(p, st, acts[0], sts[0]) && Next(p, sts[0], acts[1], sts[1]) && Next(p, sts[1], acts[2], sts[2])
    ensures |sts[2].log| == |st.log| + 1 && sts[2].log[..|st.log|] == st.log
    ensures sts[2].log[|st.log|].Claimed? && id in sts[2].log[|st.log|].ids && !Locked(sts[2], id)
    ensures id in sts[2].store && sts[2].store[id] == st.store[id][p.cfg.status := p.cfg.inProgress]
  {
    hide Eligible;
    var t, at :| Eligible(p.cfg, t, at, id, st.store[id]);
    var tx := UnusedTx(st.held.Keys);
    var ms := Later(at, st.now);
    var one := st.(now := st.now + ms);
    EligibleLater(p, t, at, one.now, id, st.store[id]);
    var picked := Candidates(p, one, t);
    assert Locked(one, id) == Locked(st, id);
    assert id in picked;
    assert OldestBatch(one.store, p.cfg, picked, |picked|, picked);
    var two := one.(held := one.held[tx := Hold(picked, one.now)]);
    var three := two.(store := SetOn(two.store, picked, map[p.cfg.status := p.cfg.inProgress]),
                      held := two.held - {tx}, log := two.log + [Claimed(tx, picked, one.now)]);
    acts := [Advance(ms), Begin(tx, t, |picked|), Commit(tx)];
    sts := [one, two, three];
  }

  lemma TwoClaims(log: seq<Event>, e: Event, id: Id)
    requires ClaimedLast(log, id) && e.Claimed? && id in e.ids
    ensures !Exclusive(log + [e])
  {
    var k := LastEventPosition(log, id);
    var after := log + [e];
    assert after[k] == log[k] && after[|log|] == e;
    assert forall m | k < m < |log| :: after[m] == log[m] && !FailureOf(id, after[m]);
    assert !FailedBetween(after, id, k, |log|);
  }

  lemma RunPrefix(p: Policy, allowed: iset<(string, Op)>, states: seq<State>, actions: seq<Action>, n: nat)
    requires Run(p, allowed, states, actions) && n <= |actions|
    ensures Run(p, allowed, states[..n + 1], actions[..n])
  {
    hide Next;
  }

  lemma RunGoesOn(p: Policy, allowed: iset<(string, Op)>, states: seq<State>, actions: seq<Action>, acts: seq<Action>,
      sts: seq<State>)
    requires Run(p, allowed, states, actions) && |acts| == |sts| == 3 && forall i | 0 <= i < 3 :: !acts[i].Other?
    requires Next(p, states[|actions|], acts[0], sts[0]) && Next(p, sts[0], acts[1], sts[1])
             && Next(p, sts[1], acts[2], sts[2])
    ensures Run(p, allowed, states + sts, actions + acts)
  {
    hide Next;
    var n, longer, more := |actions|, states + sts, actions + acts;
    forall i | 0 <= i < |more| ensures Next(p, longer[i], more[i], longer[i + 1]) {
      if i < n {
        assert longer[i] == states[i] && more[i] == actions[i] && longer[i + 1] == states[i + 1];
      } else {
        assert more[i] == acts[i - n] && longer[i + 1] == sts[i - n];
      }
    }
  }

  lemma ClaimedAgain(p: Policy, allowed: iset<(string, Op)>, states: seq<State>, actions: seq<Action>, id: Id)
    requires Run(p, allowed, states, actions) && |states| == |actions| + 1
    requires var st := states[|actions|]; ClaimedLast(st.log, id) && Claimable(p, st, id) && !Locked(st, id)
    ensures !AlwaysExclusive(p, allowed)
  {
    hide Run, Next, Claimable, Locked, ClaimedLast, Exclusive;
    var st := states[|actions|];
    var acts, sts := ClaimNow(p, st, id);
    RunGoesOn(p, allowed, states, actions, acts, sts);
    var log := st.log;
    assert sts[2].log == log + [sts[2].log[|log|]];
    TwoClaims(log, sts[2].log[|log|], id);
    var longer, more := states + sts, actions + acts;
    assert Run(p, allowed, longer, more) && !Exclusive(longer[|more|].log) by {
      assert longer[|more|] == sts[2];
    }
  }

  /** A run that reopens a claimed row goes on to a second claim of it without a failure in between. */
  lemma ReopenedIsClaimedTwice(p: Policy, allowed: iset<(string, Op)>, states: seq<State>, actions: seq<Action>, n: nat,
      id: Id)
    requires Sound(p) && Run(p, allowed, states, actions) && n < |actions| && actions[n].Other?
    requires forall i | 0 <= i < n && actions[i].Other? :: NothingReopens(p, states[i], states[i + 1])
    requires Reopens(p, states[n], states[n + 1], id)
    ensures !AlwaysExclusive(p, allowed)
  {
    RunKeepsInv(p, allowed, states, actions, n);
    assert Next(p, states[n], actions[n], states[n + 1]);
    hide Inv, Next, Claimable, Locked, ClaimedLast, AlwaysExclusive;
    ReopenedIsFree(p, states[n], actions[n], states[n + 1], id);
    RunPrefix(p, allowed, states, actions, n + 1);
    hide Run;
    assert states[..n + 2][n + 1] == states[n + 1];
    ClaimedAgain(p, allowed, states[..n + 2], actions[..n + 1], id);
  }

  lemma ReopenedIsFree(p: Policy, st: State, a: Action, st2: State, id: Id)
    requires Inv(p, st) && Next(p, st, a, st2) && a.Other? && Reopens(p, st, st2, id)
    ensures !Locked(st2, id)
  {
    hide Step, Eligible, GoodLog, ClaimedLast;
    assert !Claimable(p, st, id);
  }

  lemma {:induction false} FirstReopening(p: Policy, states: seq<State>, actions: seq<Action>, n: nat) returns (m: nat)
    requires |states| == |actions| + 1 && n < |actions| && actions[n].Other?
             && !NothingReopens(p, states[n], states[n + 1])
    ensures m <= n && actions[m].Other? && !NothingReopens(p, states[m], states[m + 1])
    ensures forall i | 0 <= i < m && actions[i].Other? :: NothingReopens(p, states[i], states[i + 1])
    decreases n
  {
    hide NothingReopens;
    m := n;
    if i: nat :| i < n && actions[i].Other? && !NothingReopens(p, states[i], states[i + 1]) {
      m := FirstReopening(p, states, actions, i);
    }
  }

  /** Over every interleaving of claimers, failures and the writers allowed, claims of a row are separated by a
      failure of it exactly when no allowed write ever makes a claimed row claimable again. */
  lemma ClaimsExclusiveExactly(p: Policy, allowed: iset<(string, Op)>)
    requires Sound(p)
    ensures AlwaysExclusive(p, allowed) <==> NobodyReopens(p, allowed)
  {
    hide Exclusive, Next, Inv, NothingReopens;
    if NobodyReopens(p, allowed) {
      forall states: seq<State>, actions: seq<Action> | Run(p, allowed, states, actions)
        ensures Exclusive(states[|actions|].log)
      {
        assert NeverReopens(p, states, actions);
        RunKeepsInv(p, allowed, states, actions, |actions|);
        InvIsExclusive(p, states[|actions|]);
      }
    }
    if AlwaysExclusive(p, allowed) {
      forall states: seq<State>, actions: seq<Action> | Run(p, allowed, states, actions)
        ensures NeverReopens(p, states, actions)
      {
        if !NeverReopens(p, states, actions) {
          SomeoneReopens(p, allowed, states, actions);
        }
      }
    }
  }

  lemma InvIsExclusive(p: Policy, st: State)
    requires Inv(p, st)
    ensures Exclusive(st.log)
  {
    GoodLogIsExclusive(st.log);
  }

  lemma SomeoneReopens(p: Policy, allowed: iset<(string, Op)>, states: seq<State>, actions: seq<Action>)
    requires Sound(p) && Run(p, allowed, states, actions) && !NeverReopens(p, states, actions)
    ensures !AlwaysExclusive(p, allowed)
  {
    hide Next, AlwaysExclusive, Reopens;
    var n: nat :| n < |actions| && actions[n].Other? && !NothingReopens(p, states[n], states[n + 1]);
    var m := FirstReopening(p, states, actions, n);
    var id :| Reopens(p, states[m], states[m + 1], id);
    ReopenedIsClaimedTwice(p, allowed, states, actions, m, id);
  }

  /** The row of a claimed message, and the write that puts it back to pending. */
  function Message(p: Policy, t: string, status: Value): Row {
    map["tenantId" := Text(t)][p.cfg.status := status]
  }

  function PutBack(p: Policy, t: string, id: Id): (string, Op) {
    (t, UpdateStatusById(id, p.cfg.status, p.cfg.pending))
  }

  lemma MessageEligible(p: Policy, t: string, id: Id, at: int)
    requires Sound(p) && (p.cfg.scheduleAt.Some? ==> p.cfg.scheduleAt.value !in ["id", "tenantId", p.cfg.status])
    ensures Eligible(p.cfg, t, at, id, Message(p, t, p.cfg.pending))
  {
  }

  lemma StatusStep(t: string, s: Store, id: Id, column: string, status: Value)
    requires id in s && Owned(s[id], t)
    ensures Step(t, s, UpdateStatusById(id, column, status), s[id := s[id] + map[column := status]], Done)
  {
    UpdateByIdMeans(t, s, id, map[column := status]);
    hide UpdateWhere, UpdateCriteria;
  }

  lemma PutBackStep(p: Policy, st: State, t: string, id: Id) returns (st2: State)
    requires Sound(p) && id in st.store && st.store[id] == Message(p, t, p.cfg.inProgress) && !Locked(st, id)
    ensures Next(p, st, Other(t, PutBack(p, t, id).1), st2)
    ensures st2 == st.(store := st.store[id := Message(p, t, p.cfg.pending)])
  {
    StatusStep(t, st.store, id, p.cfg.status, p.cfg.pending);
    assert st.store[id] + map[p.cfg.status := p.cfg.pending] == Message(p, t, p.cfg.pending);
    st2 := st.(store := st.store[id := Message(p, t, p.cfg.pending)]);
    hide Step;
  }

  /** `updateStatusById` with the pending status is such a write: it gets a row claimed twice with no failure in
      between. */
  lemma PutBackIsClaimedTwice(p: Policy, allowed: iset<(string, Op)>, t: string, id: Id)
    requires Sound(p) && (p.cfg.scheduleAt.Some? ==> p.cfg.scheduleAt.value !in ["id", "tenantId", p.cfg.status])
    requires PutBack(p, t, id) in allowed
    ensures !AlwaysExclusive(p, allowed)
  {
    hide AlwaysExclusive, Eligible, Next, Exclusive;
    var start := State(map[id := Message(p, t, p.cfg.pending)], map[], 0, []);
    MessageEligible(p, t, id, 0);
    var acts, sts := ClaimNow(p, start, id);
    assert start.store[id][p.cfg.status := p.cfg.inProgress] == Message(p, t, p.cfg.inProgress);
    var put := PutBackStep(p, sts[2], t, id);
    var states := [start, sts[0], sts[1], sts[2], put];
    var actions := [acts[0], acts[1], acts[2], Other(t, PutBack(p, t, id).1)];
    assert Run(p, allowed, states, actions);
    assert sts[2].log == [sts[2].log[0]];
    assert Eligible(p.cfg, t, 0, id, put.store[id]);
    assert Locked(put, id) == Locked(sts[2], id);
    ClaimedAgain(p, allowed, states, actions, id);
  }

  /** The repository calls of a processor beside claims and failures: reads, removals, and `updateStatusById` with a
      status such as sent. */
  predicate Finishing(p: Policy, op: Op) {
    || op.Find? || op.FindOne? || op.Count? || op.Delete?
    || (op.UpdateStatusById? && op.column == p.cfg.status && op.status != p.cfg.pending)
  }

  ghost function FinishingCalls(p: Policy): iset<(string, Op)> {
    iset call: (string, Op) | Finishing(p, call.1)
  }

  /** Such a call leaves a row as it is, takes it away, or gives it a status that is not pending. */
  lemma FinishingKeepsRows(p: Policy, t: string, s: Store, op: Op, s2: Store, r: Reply, id: Id)
    requires Sound(p) && Finishing(p, op) && Step(t, s, op, s2, r) && id in s2
    ensures id in s && (s2[id] == s[id] || Column(id, s2[id], p.cfg.status) != p.cfg.pending)
  {
    if op.UpdateStatusById? {
      UpdateByIdMeans(t, s, op.id, map[op.column := op.status]);
      hide UpdateWhere, UpdateCriteria;
    }
  }

  lemma FinishingReopensNothing(p: Policy, st: State, t: string, op: Op, st2: State)
    requires Sound(p) && Inv(p, st) && Finishing(p, op) && Next(p, st, Other(t, op), st2)
    ensures NothingReopens(p, st, st2)
  {
    var r :| Step(t, st.store, op, st2.store, r);
    hide Step, ClaimedLast, GoodLog, HoldValid;
    forall id | id in st2.store && ClaimedLast(st.log, id) ensures !Claimable(p, st2, id) {
      FinishingKeepsRows(p, t, st.store, op, st2.store, r, id);
      assert !Claimable(p, st, id);
    }
  }

  lemma {:induction false} FinishersReopenNothing(p: Policy, states: seq<State>, actions: seq<Action>, n: nat)
    requires Sound(p) && Run(p, FinishingCalls(p), states, actions) && n <= |actions|
    ensures Inv(p, states[n])
    ensures forall i | 0 <= i < n && actions[i].Other? :: NothingReopens(p, states[i], states[i + 1])
  {
    hide Inv, Next, NothingReopens, Finishing;
    if n > 0 {
      FinishersReopenNothing(p, states, actions, n - 1);
      if actions[n - 1].Other? {
        FinishingReopensNothing(p, states[n - 1], actions[n - 1].t, actions[n - 1].op, states[n]);
      }
      NextKeepsInv(p, states[n - 1], actions[n - 1], states[n]);
    } else {
      StartInv(p, states[0]);
    }
  }

  /** Beside processors that only read, remove and finish messages, claims are exclusive. */
  lemma FinishersClaimOnce(p: Policy)
    requires Sound(p)
    ensures NobodyReopens(p, FinishingCalls(p)) && AlwaysExclusive(p, FinishingCalls(p))
  {
    hide Inv, Next, NothingReopens, Exclusive;
    forall states: seq<State>, actions: seq<Action> | Run(p, FinishingCalls(p), states, actions)
      ensures NeverReopens(p, states, actions)
    {
      FinishersReopenNothing(p, states, actions, |actions|);
    }
    ClaimsExclusiveExactly(p, FinishingCalls(p));
  }

  // ---------- Backoff

  /** No other writer changes the row's next attempt. */
  ghost predicate DelayUntouched(p: Policy, states: seq<State>, actions: seq<Action>, id: Id)
    requires |states| == |actions| + 1
  {
    forall i | 0 <= i < |actions| && actions[i].Other? :: SameDelay(p, states[i], states[i + 1], id)
  }

  predicate SameDelay(p: Policy, st: State, st2: State, id: Id) {
    id in st.store ==>
      id in st2.store && Column(id, st2.store[id], p.cfg.nextAttemptAt) == Column(id, st.store[id], p.cfg.nextAttemptAt)
  }

  /** A failed row carries the end of its delay, and whoever holds the row read it after that. */
  predicate Waits(p: Policy, st: State, id: Id) {
    var last := LastEvent(st.log, id);
    last.Some? && last.value.Failed? ==>
      && id in st.store && Column(id, st.store[id], p.cfg.nextAttemptAt) == Num(Due(p, last.value))
      && (forall tx | tx in st.held && id in st.held[tx].ids :: Due(p, last.value) <= st.held[tx].at)
  }

  /** Claims of the row found the delay of its last failure to be over. */
  predicate ClaimsWaited(p: Policy, log: seq<Event>, id: Id) {
    forall j | 0 <= j < |log| && log[j].Claimed? && id in log[j].ids ::
      var last := LastEvent(log[..j], id);
      last.Some? && last.value.Failed? ==> Due(p, last.value) <= log[j].at
  }

  lemma WaitedGrows(p: Policy, log: seq<Event>, e: Event, id: Id)
    requires ClaimsWaited(p, log, id)
    requires e.Claimed? && id in e.ids && LastEvent(log, id).Some? && LastEvent(log, id).value.Failed? ==>
             Due(p, LastEvent(log, id).value) <= e.at
    ensures ClaimsWaited(p, log + [e], id)
    ensures LastEvent(log + [e], id) == if Concerns(e, id) then Some(e) else LastEvent(log, id)
  {
    assert (log + [e])[..|log|] == log;
    forall j | 0 <= j < |log| ensures (log + [e])[..j] == log[..j] {
    }
  }

  lemma BeginWaits(p: Policy, st: State, tx: Tx, t: string, limit: nat, st2: State, id: Id)
    requires Next(p, st, Begin(tx, t, limit), st2) && Waits(p, st, id)
    ensures Waits(p, st2, id)
  {
    hide LastEvent, BackoffSec;
  }

  lemma CommitWaits(p: Policy, st: State, tx: Tx, st2: State, id: Id)
    requires Sound(p) && Next(p, st, Commit(tx), st2) && Waits(p, st, id) && ClaimsWaited(p, st.log, id)
    ensures Waits(p, st2, id) && ClaimsWaited(p, st2.log, id)
  {
    WaitedGrows(p, st.log, Claimed(tx, st.held[tx].ids, st.held[tx].at), id);
    hide LastEvent, BackoffSec, ClaimsWaited;
  }

  lemma FailWaits(p: Policy, st: State, t: string, x: Id, attempts: nat, st2: State, id: Id)
    requires Sound(p) && Next(p, st, Fail(t, x, attempts), st2) && Waits(p, st, id) && ClaimsWaited(p, st.log, id)
    ensures Waits(p, st2, id) && ClaimsWaited(p, st2.log, id)
  {
    hide BackoffSec;
    UpdateByIdMeans(t, st.store, x, FailurePayload(p.cfg, p.attemptsColumn, attempts, p.baseSec, p.capSec, st.now));
    WaitedGrows(p, st.log, Failed(x, attempts, st.now), id);
    hide LastEvent, ClaimsWaited, UpdateWhere, UpdateCriteria;
  }

  lemma NextWaits(p: Policy, st: State, a: Action, st2: State, id: Id)
    requires Sound(p) && Next(p, st, a, st2) && Waits(p, st, id) && ClaimsWaited(p, st.log, id)
    requires a.Other? ==> SameDelay(p, st, st2, id)
    ensures Waits(p, st2, id) && ClaimsWaited(p, st2.log, id)
  {
    hide LastEvent, BackoffSec, ClaimsWaited, Step;
    match a
    case Begin(tx, t, limit) => BeginWaits(p, st, tx, t, limit, st2, id);
    case Commit(tx) => CommitWaits(p, st, tx, st2, id);
    case Fail(t, x, attempts) => FailWaits(p, st, t, x, attempts, st2, id);
    case _ =>
  }

  lemma {:induction false} RunWaits(p: Policy, allowed: iset<(string, Op)>, states: seq<State>, actions: seq<Action>,
      id: Id, n: nat)
    requires Sound(p) && Run(p, allowed, states, actions) && DelayUntouched(p, states, actions, id) && n < |states|
    ensures Waits(p, states[n], id) && ClaimsWaited(p, states[n].log, id)
  {
    hide Next, SameDelay;
    if n > 0 {
      RunWaits(p, allowed, states, actions, id, n - 1);
      hide Waits, ClaimsWaited;
      NextWaits(p, states[n - 1], actions[n - 1], states[n], id);
    }
  }

  /** In every run whose other writers leave the delay of a row alone, a failed row is claimed again only once the
      delay of its last failure is over. */
  lemma BackoffRespected(p: Policy, allowed: iset<(string, Op)>, states: seq<State>, actions: seq<Action>, i: nat,
      j: nat, id: Id)
    requires Sound(p) && Run(p, allowed, states, actions) && DelayUntouched(p, states, actions, id)
    requires i < j < |states[|actions|].log|
    requires FailureOf(id, states[|actions|].log[i]) && states[|actions|].log[j].Claimed?
             && id in states[|actions|].log[j].ids
    requires forall k | i < k < j :: !Concerns(states[|actions|].log[k], id)
    ensures states[|actions|].log[i].failedAt
            + 1000 * BackoffSec(states[|actions|].log[i].attempts, p.baseSec, p.capSec)
            <= states[|actions|].log[j].at
  {
    RunWaits(p, allowed, states, actions, id, |actions|);
    var log := states[|actions|].log;
    SomeEvent(log[..j], id, i);
    var k := LastEventPosition(log[..j], id);
    assert k == i by {
      assert log[..j][i] == log[i] && log[..j][k] == log[k];
    }
    hide Run, DelayUntouched, BackoffSec;
  }

  /** The delay doubles with each attempt until it meets the cap. */
  lemma BackoffDoubles(n: nat, baseSec: nat, capSec: nat)
    ensures BackoffSec(0, baseSec, capSec) == if capSec < baseSec then capSec else baseSec
    ensures BackoffSec(n + 1, baseSec, capSec)
            == if capSec < 2 * BackoffSec(n, baseSec, capSec) then capSec else 2 * BackoffSec(n, baseSec, capSec)
  {
    assert Pow2(n + 1) * baseSec == 2 * (Pow2(n) * baseSec);
  }

  predicate ScheduleDue(p: Policy, st: State, id: Id, later: int)
    requires id in st.store
  {
    p.cfg.scheduleAt.Some? ==> TenantRepository.Due(Column(id, st.store[id], p.cfg.scheduleAt.value), later)
  }

  /** A failed row is back in the queue from the end of its delay on, and not before, once its schedule is due. */
  lemma FailedRowEligibleExactly(p: Policy, st: State, t: string, id: Id, attempts: nat, st2: State, later: int)
    requires Sound(p) && Next(p, st, Fail(t, id, attempts), st2)
    requires p.cfg.scheduleAt.Some? ==> p.cfg.scheduleAt.value !in [p.cfg.status, p.attemptsColumn, p.cfg.nextAttemptAt]
    ensures id in EligibleIds(st2.store, p.cfg, t, later)
            <==> st.now + 1000 * BackoffSec(attempts, p.baseSec, p.capSec) <= later && ScheduleDue(p, st, id, later)
  {
    hide BackoffSec;
    UpdateByIdMeans(t, st.store, id, FailurePayload(p.cfg, p.attemptsColumn, attempts, p.baseSec, p.capSec, st.now));
    hide UpdateWhere, UpdateCriteria;
  }
}
