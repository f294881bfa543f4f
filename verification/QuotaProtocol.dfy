/** Quota enforcement as the check-then-act protocol it is: the check reads the counter, the increment comes
    later, and a decrement below zero is repaired by a second store command. */
module QuotaProtocol {
  import opened Wrappers
  import PlanLimit
  import Redis
  import UsageCounters

  /** `limit`: quota; `k`: requests allowed between check and increment; `m`: largest amount of a request;
      `split`: whether a decrement may be observed between its two commands. */
  datatype Setting = Setting(limit: int, k: nat, m: int, split: bool)

  /** `admitted`: amounts that passed the check and are not yet added; `repairs`: pending resets to zero. */
  datatype State = State(counter: int, admitted: seq<int>, repairs: nat)

  datatype Action =
    | Check(amount: int)
    | Increment(i: nat)
    | Decrement(amount: int)
    | DecrBy(amount: int)
    | Repair

  predicate Admits(q: Setting, s: State, amount: int) {
    s.counter + amount <= q.limit
  }

  predicate Enabled(q: Setting, s: State, a: Action) {
    match a
    case Check(amount) => 0 < amount <= q.m && (Admits(q, s, amount) ==> |s.admitted| < q.k)
    case Increment(i) => i < |s.admitted|
    case Decrement(amount) => 0 < amount
    case DecrBy(amount) => 0 < amount && q.split
    case Repair => 0 < s.repairs
  }

  function Apply(q: Setting, s: State, a: Action): State
    requires Enabled(q, s, a)
  {
    match a
    case Check(amount) => if Admits(q, s, amount) then s.(admitted := s.admitted + [amount]) else s
    case Increment(i) => s.(counter := s.counter + s.admitted[i], admitted := s.admitted[..i] + s.admitted[i + 1..])
    case Decrement(amount) => s.(counter := UsageCounters.NonNegative(s.counter - amount))
    case DecrBy(amount) =>
      s.(counter := s.counter - amount, repairs := s.repairs + if s.counter - amount < 0 then 1 else 0)
    case Repair => s.(counter := 0, repairs := s.repairs - 1)
  }

  predicate Runs(q: Setting, s: State, acts: seq<Action>)
    decreases |acts|
  {
    |acts| == 0 || (Enabled(q, s, acts[0]) && Runs(q, Apply(q, s, acts[0]), acts[1..]))
  }

  function Final(q: Setting, s: State, acts: seq<Action>): State
    requires Runs(q, s, acts)
    decreases |acts|
  {
    if |acts| == 0 then s else Final(q, Apply(q, s, acts[0]), acts[1..])
  }

  function Start(counter: int): State {
    State(counter, [], 0)
  }

  /** The decision of the protocol's check is the decision of `enforceLimit` once no trial blocks the tenant. */
  lemma CheckIsEnforceLimit(a: PlanLimit.Account, metric: string, q: Setting, s: State, amount: int,
      grace: Option<real>, now: int)
    requires amount > 0 && !PlanLimit.TrialBlocks(a, now)
    requires PlanLimit.Quota(a, metric, grace) == Some(q.limit)
    ensures PlanLimit.EnforceLimit(a, metric, s.counter, amount, grace, now).Ok? <==> Admits(q, s, amount)
  {
    PlanLimit.EnforceLimitExactly(a, metric, s.counter, amount, grace, now);
  }

  // ---------- The commands behind the actions

  /** The key is missing or holds a number, and that number is the counter. */
  predicate Represents(ks: Redis.Keyspace, key: string, now: int, s: State) {
    UsageCounters.Holds(Redis.Read(ks, key, now), true) && Redis.NumberAt(ks, key, now) == s.counter
  }

  /** What an action does to the store: INCRBY and DECRBY, the write of zero, or `decrementUsage` as a whole. */
  function Commanded(q: Setting, s: State, a: Action, ks: Redis.Keyspace, key: string, metricsKey: string,
      metric: string, now: int): Redis.Keyspace
    requires Enabled(q, s, a)
  {
    match a
    case Check(_) => ks
    case Increment(i) => Redis.Incr(ks, key, s.admitted[i], now)
    case Decrement(amount) => UsageCounters.DecrementAt(ks, key, metricsKey, metric, now, amount)
    case DecrBy(amount) => Redis.Incr(ks, key, -amount, now)
    case Repair => ks[key := Redis.Cell(Redis.Num(0), Redis.Until(now, UsageCounters.USAGE_TTL_SECONDS))]
  }

  /** The counter of the protocol is the number in the store: every action is its command on the usage key. */
  lemma CommandsRefine(q: Setting, s: State, a: Action, ks: Redis.Keyspace, key: string, metricsKey: string,
      metric: string, now: int)
    requires Enabled(q, s, a) && Represents(ks, key, now, s) && key != metricsKey
    ensures Represents(Commanded(q, s, a, ks, key, metricsKey, metric, now), key, now, Apply(q, s, a))
  {
  }

  /** No run from a counter within the quota takes it past `bound`. */
  ghost predicate NeverExceeds(q: Setting, bound: int) {
    forall c, acts | 0 <= c <= q.limit && Runs(q, Start(c), acts) :: Final(q, Start(c), acts).counter <= bound
  }

  function Overshoot(q: Setting): int {
    q.limit + (q.k as int - 1) * q.m
  }

  // ---------- The bound

  function Sum(xs: seq<int>): int {
    if |xs| == 0 then 0 else xs[0] + Sum(xs[1..])
  }

  lemma {:induction false} SumSplit(xs: seq<int>, ys: seq<int>)
    ensures Sum(xs + ys) == Sum(xs) + Sum(ys)
    decreases |xs|
  {
    if |xs| == 0 {
      assert xs + ys == ys;
    } else {
      assert (xs + ys)[1..] == xs[1..] + ys;
      SumSplit(xs[1..], ys);
    }
  }

  lemma {:induction false} SumAtMost(xs: seq<int>, m: int)
    requires forall i | 0 <= i < |xs| :: 0 <= xs[i] <= m
    ensures 0 <= Sum(xs) <= |xs| * m
  {
    if |xs| > 0 {
      SumAtMost(xs[1..], m);
      assert |xs| * m == m + |xs[1..]| * m;
    }
  }

  lemma SumRemoved(xs: seq<int>, i: nat)
    requires i < |xs|
    ensures Sum(xs[..i] + xs[i + 1..]) == Sum(xs) - xs[i]
  {
    SumSplit(xs[..i], xs[i + 1..]);
    SumSplit(xs[..i], xs[i..]);
    assert xs == xs[..i] + xs[i..];
    assert xs[i..][1..] == xs[i + 1..];
  }

  lemma AppendedSum(xs: seq<int>, amount: int, m: int)
    requires forall i | 0 <= i < |xs| :: 0 <= xs[i] <= m
    ensures Sum(xs + [amount]) == Sum(xs) + amount <= |xs| * m + amount
  {
    SumSplit(xs, [amount]);
    SumAtMost(xs, m);
    assert [amount][1..] == [];
    assert Sum([amount]) == amount;
  }

  lemma ProductMonotone(a: int, b: int, m: int)
    requires a <= b && 0 <= m
    ensures a * m <= b * m
  {
    assert b * m == a * m + (b - a) * m;
    assert 0 <= (b - a) * m;
  }

  /** What has been counted and what has been promised stay within the bound together. */
  predicate Inv(q: Setting, s: State) {
    && |s.admitted| <= q.k
    && (forall i | 0 <= i < |s.admitted| :: 0 < s.admitted[i] <= q.m)
    && (q.split || s.counter >= 0)
    && UsageCounters.NonNegative(s.counter) + Sum(s.admitted) <= Overshoot(q)
  }

  lemma CheckKeepsInv(q: Setting, s: State, amount: int)
    requires Inv(q, s) && (q.split ==> q.m <= q.limit)
    requires Enabled(q, s, Check(amount)) && Admits(q, s, amount)
    ensures Inv(q, Apply(q, s, Check(amount)))
  {
    var xs := s.admitted;
    AppendedSum(xs, amount, q.m);
    ProductMonotone(|xs|, q.k as int - 1, q.m);
    assert UsageCounters.NonNegative(s.counter) + amount <= q.limit;
    var ys := xs + [amount];
    forall i | 0 <= i < |ys| ensures 0 < ys[i] <= q.m {
      assert i < |xs| ==> ys[i] == xs[i];
    }
  }

  lemma ApplyKeepsInv(q: Setting, s: State, a: Action)
    requires Inv(q, s) && Enabled(q, s, a) && (q.split ==> q.m <= q.limit)
    requires 1 <= q.k && 0 <= q.limit && 0 <= q.m
    ensures Inv(q, Apply(q, s, a))
  {
    match a
    case Check(amount) => if Admits(q, s, amount) { CheckKeepsInv(q, s, amount); }
    case Increment(i) => SumRemoved(s.admitted, i);
    case _ =>
      SumAtMost(s.admitted, q.m);
      assert 0 <= UsageCounters.NonNegative(s.counter);
  }

  lemma {:induction false} RunsWithin(q: Setting, s: State, acts: seq<Action>)
    requires Inv(q, s) && Runs(q, s, acts) && (q.split ==> q.m <= q.limit)
    requires 1 <= q.k && 0 <= q.limit && 0 <= q.m
    ensures Inv(q, Final(q, s, acts))
    decreases |acts|
  {
    if |acts| > 0 {
      ApplyKeepsInv(q, s, acts[0]);
      RunsWithin(q, Apply(q, s, acts[0]), acts[1..]);
    }
  }

  lemma StartInv(q: Setting, c: int)
    requires 1 <= q.k && 0 <= q.m && 0 <= c <= q.limit
    ensures Inv(q, Start(c))
  {
    assert 0 <= (q.k as int - 1) * q.m;
  }

  lemma BoundHolds(q: Setting)
    requires 1 <= q.k && 0 <= q.limit && 0 <= q.m && (q.split ==> q.m <= q.limit)
    ensures NeverExceeds(q, Overshoot(q))
  {
    forall c, acts | 0 <= c <= q.limit && Runs(q, Start(c), acts)
      ensures Final(q, Start(c), acts).counter <= Overshoot(q)
    {
      StartInv(q, c);
      RunsWithin(q, Start(c), acts);
      SumAtMost(Final(q, Start(c), acts).admitted, q.m);
    }
  }

  // ---------- Runs that reach and pass it

  function Copies<T>(x: T, n: nat): seq<T> {
    if n == 0 then [] else [x] + Copies(x, n - 1)
  }

  lemma {:induction false} RunsJoin(q: Setting, s: State, a: seq<Action>, b: seq<Action>)
    requires Runs(q, s, a) && Runs(q, Final(q, s, a), b)
    ensures Runs(q, s, a + b) && Final(q, s, a + b) == Final(q, Final(q, s, a), b)
    decreases |a|
  {
    if |a| == 0 {
      assert a + b == b;
    } else {
      assert (a + b)[1..] == a[1..] + b;
      RunsJoin(q, Apply(q, s, a[0]), a[1..], b);
    }
  }

  lemma OneMore(q: Setting, s: State, acts: seq<Action>, s': State)
    requires |acts| > 0 && Enabled(q, s, acts[0]) && Apply(q, s, acts[0]) == s' && Runs(q, s', acts[1..])
    ensures Runs(q, s, acts) && Final(q, s, acts) == Final(q, s', acts[1..])
  {
  }

  lemma {:induction false} ManyChecks(q: Setting, s: State, n: nat)
    requires 0 < q.m && s.counter + q.m <= q.limit && |s.admitted| + n <= q.k
    ensures Runs(q, s, Copies(Check(q.m), n))
    ensures Final(q, s, Copies(Check(q.m), n)) == s.(admitted := s.admitted + Copies(q.m, n))
    decreases n
  {
    if n == 0 {
      assert s.admitted + Copies(q.m, 0) == s.admitted;
    } else {
      var s' := s.(admitted := s.admitted + [q.m]);
      var acts, rest := Copies(Check(q.m), n), Copies(Check(q.m), n - 1);
      ManyChecks(q, s', n - 1);
      assert s'.admitted + Copies(q.m, n - 1) == s.admitted + Copies(q.m, n);
      assert acts[0] == Check(q.m) && acts[1..] == rest;
      OneMore(q, s, acts, s');
    }
  }

  lemma {:induction false} ManyIncrements(q: Setting, s: State, n: nat)
    requires s.admitted == Copies(q.m, n)
    ensures Runs(q, s, Copies(Increment(0), n))
    ensures Final(q, s, Copies(Increment(0), n)) == State(s.counter + n * q.m, [], s.repairs)
    decreases n
  {
    if n > 0 {
      var s' := Apply(q, s, Increment(0));
      assert s'.admitted == Copies(q.m, n - 1);
      ManyIncrements(q, s', n - 1);
      assert Copies(Increment(0), n)[1..] == Copies(Increment(0), n - 1);
      assert n * q.m == q.m + (n - 1) * q.m;
    }
  }

  /** All k requests pass the check before any is counted. */
  lemma Burst(q: Setting, s: State)
    requires 0 < q.m && s.admitted == [] && s.counter + q.m <= q.limit
    ensures Runs(q, s, Copies(Check(q.m), q.k) + Copies(Increment(0), q.k))
    ensures Final(q, s, Copies(Check(q.m), q.k) + Copies(Increment(0), q.k)).counter == s.counter + q.k * q.m
  {
    ManyChecks(q, s, q.k);
    var mid := Final(q, s, Copies(Check(q.m), q.k));
    assert mid.admitted == Copies(q.m, q.k);
    ManyIncrements(q, mid, q.k);
    RunsJoin(q, s, Copies(Check(q.m), q.k), Copies(Increment(0), q.k));
  }

  /** The bound is reached, so no smaller one holds. */
  lemma BoundReached(q: Setting)
    requires 1 <= q.k && 0 < q.m <= q.limit
    ensures !NeverExceeds(q, Overshoot(q) - 1)
  {
    var c := q.limit - q.m;
    Burst(q, Start(c));
    assert c + q.k * q.m == Overshoot(q);
    var acts := Copies(Check(q.m), q.k) + Copies(Increment(0), q.k);
    assert Runs(q, Start(c), acts) && Final(q, Start(c), acts).counter == Overshoot(q);
  }

  /** A request larger than the whole quota passes while a decrement is half done. */
  lemma SplitDecrementOverruns(q: Setting)
    requires 1 <= q.k && 0 <= q.limit < q.m && q.split
    ensures !NeverExceeds(q, Overshoot(q))
  {
    var s := Start(0);
    var low := Apply(q, s, DecrBy(q.m - q.limit));
    assert low == State(q.limit - q.m, [], 1);
    ManyChecks(q, low, q.k);
    var checks := Copies(Check(q.m), q.k);
    var full := Final(q, low, checks);
    var zero := Apply(q, full, Repair);
    assert zero.admitted == Copies(q.m, q.k);
    ManyIncrements(q, zero, q.k);
    var incs := Copies(Increment(0), q.k);
    assert ([Repair] + incs)[1..] == incs;
    assert Runs(q, full, [Repair] + incs) && Final(q, full, [Repair] + incs).counter == q.k * q.m;
    RunsJoin(q, low, checks, [Repair] + incs);
    var acts := [DecrBy(q.m - q.limit)] + (checks + ([Repair] + incs));
    assert acts[1..] == checks + ([Repair] + incs);
    assert Runs(q, s, acts) && Final(q, s, acts).counter == q.k * q.m;
    assert q.k * q.m > Overshoot(q);
  }

  /** With at most k requests between check and increment, each of at most m, a counter that starts within
      the quota stays within quota + (k-1)*m on every interleaving, exactly when a decrement is one step or
      no request is larger than the quota. */
  lemma OvershootExactly(q: Setting)
    requires 1 <= q.k && 0 <= q.limit && 0 < q.m
    ensures NeverExceeds(q, Overshoot(q)) <==> (q.split ==> q.m <= q.limit)
  {
    if q.split ==> q.m <= q.limit {
      BoundHolds(q);
    } else {
      SplitDecrementOverruns(q);
    }
  }

  /** One request at a time never passes the quota, whatever its size, when decrements are one step. */
  lemma SequentialWithinLimit(q: Setting)
    requires q.k == 1 && 0 <= q.limit && 0 < q.m && !q.split
    ensures NeverExceeds(q, q.limit)
  {
    BoundHolds(q);
    assert Overshoot(q) == q.limit;
  }
}
