/** Webhook deliveries: the processed-event markers, and what redeliveries inside and outside their lifetime do. */
module Webhook {
  import opened Wrappers
  import opened BillingModel
  import opened Billing
  import opened BillingServices
  import Redis

  const TTL_SECONDS: nat := 86400
  /** What the lifetime of a marker should be: a day. */
  const TTL_MS := 24 * 60 * 60 * 1000

  /** One delivery: the event, what Stripe answers meanwhile, the clock (in milliseconds) when the marker is tested,
      and, for a handler that throws, whatever state it leaves behind. An empty id is no id. */
  datatype Delivery = Delivery(id: string, event: Event, peer: Peer, start: int, thrown: Option<World>)

  /** The handling of a delivery, to its end or to its exception. */
  function Handled(cfg: PriceConfig, w: World, d: Delivery): World {
    if d.thrown.Some? then d.thrown.value else Handle(cfg, w, d.peer, d.event, d.start)
  }

  function ProcessedKey(prefix: string, consumer: string, id: string): string {
    Redis.BuildKey(prefix, None, ["event:processed", consumer, id])
  }

  /** The marker's text is not read back. */
  const MARKER := Redis.Str("processed")

  /** `running`: the deliveries being handled, by the step they began with. */
  datatype State = State(world: World, ks: Redis.Keyspace, running: map<nat, Delivery>, taken: nat)

  /** The marker is tested when a delivery begins and written, if at all, when it ends; others come in between. */
  datatype Step =
    | Begin(d: Delivery)
    | End(begun: nat, now: int)

  predicate Skipped(prefix: string, ks: Redis.Keyspace, d: Delivery) {
    d.id != "" && Redis.Live(ks, ProcessedKey(prefix, "stripe-webhook", d.id), d.start)
  }

  function Marked(prefix: string, ks: Redis.Keyspace, d: Delivery, now: int): Redis.Keyspace {
    if d.id == "" || d.thrown.Some? then ks
    else ks[ProcessedKey(prefix, "stripe-webhook", d.id) := Redis.Cell(MARKER, Redis.Until(now, TTL_SECONDS))]
  }

  function Effect(cfg: PriceConfig, prefix: string, st: State, s: Step): State {
    match s
    case Begin(d) =>
      if Skipped(prefix, st.ks, d) then st
      else st.(world := Handled(cfg, st.world, d), running := st.running[st.taken := d])
    case End(begun, now) =>
      if begun !in st.running then st
      else st.(ks := Marked(prefix, st.ks, st.running[begun], now), running := st.running - {begun})
  }

  function Next(cfg: PriceConfig, prefix: string, st: State, s: Step): State {
    Effect(cfg, prefix, st, s).(taken := st.taken + 1)
  }

  function Start(w: World, ks: Redis.Keyspace): State {
    State(w, ks, map[], 0)
  }

  function Run(cfg: PriceConfig, prefix: string, st: State, steps: seq<Step>): State {
    if |steps| == 0 then st else Next(cfg, prefix, Run(cfg, prefix, st, steps[..|steps| - 1]), steps[|steps| - 1])
  }

  /** A delivery that no other comes between. */
  function Delivered(cfg: PriceConfig, prefix: string, w: World, ks: Redis.Keyspace, d: Delivery, finish: int): State {
    Next(cfg, prefix, Next(cfg, prefix, Start(w, ks), Begin(d)), End(0, finish))
  }

  // ---------- The services

  class EventIdempotencyService {
    const redis: Redis.Store
    const keys: Redis.RedisKeyBuilder

    constructor (redis: Redis.Store, keys: Redis.RedisKeyBuilder)
      ensures this.redis == redis && this.keys == keys
    {
      this.redis := redis;
      this.keys := keys;
    }

    method IsProcessed(eventId: string, consumer: string) returns (processed: bool)
      requires keys.tenant.None?
      ensures processed == Redis.Live(redis.cells, ProcessedKey(keys.prefix, consumer, eventId), redis.now)
    {
      var key := keys.Build(["event:processed", consumer, eventId]);
      var count := redis.Exists(key);
      return count > 0;
    }

    method MarkProcessed(eventId: string, consumer: string)
      requires keys.tenant.None?
      modifies redis`cells
      ensures redis.cells == old(redis.cells)[ProcessedKey(keys.prefix, consumer, eventId) :=
                               Redis.Cell(MARKER, Some(redis.now + TTL_MS))]
    {
      var key := keys.Build(["event:processed", consumer, eventId]);
      redis.Set(key, MARKER, TTL_SECONDS);
    }
  }

  class StripeWebhook {
    const billing: BillingService
    const idempotency: EventIdempotencyService

    constructor (billing: BillingService, idempotency: EventIdempotencyService)
      ensures this.billing == billing && this.idempotency == idempotency
    {
      this.billing := billing;
      this.idempotency := idempotency;
    }

    /** Time passes while the handler runs: the marker is written at `finish`, unless the handler throws. */
    method HandleStripeWebhook(d: Delivery, finish: int) returns (thrown: bool)
      requires idempotency.keys.tenant.None? && idempotency.redis.now == d.start
               && billing.stripe.subscriptions == d.peer
      modifies billing.db, idempotency.redis
      ensures var alone := Delivered(billing.stripe.cfg, idempotency.keys.prefix, old(billing.db.Contents()),
                                     old(idempotency.redis.cells), d, finish);
              billing.db.Contents() == alone.world && idempotency.redis.cells == alone.ks
      ensures thrown == (d.thrown.Some? && !Skipped(idempotency.keys.prefix, old(idempotency.redis.cells), d))
    {
      if d.id != "" {
        var alreadyProcessed := idempotency.IsProcessed(d.id, "stripe-webhook");
        if alreadyProcessed {
          return false;
        }
      }
      if d.thrown.Some? {
        billing.db.Restore(d.thrown.value);
        return true;
      }
      billing.Dispatch(d.event, d.start);
      idempotency.redis.now := finish;
      if d.id != "" {
        idempotency.MarkProcessed(d.id, "stripe-webhook");
      }
      return false;
    }
  }

  // ---------- Exactly once

  /** A delivery of the event whose handler does not throw. */
  predicate Completes(s: Step, id: string) {
    s.Begin? && s.d.id == id && s.d.thrown.None?
  }

  /** No delivery of the event with such a handler began before this one. */
  predicate IsOpen(steps: seq<Step>, i: nat) {
    i < |steps| && steps[i].Begin?
      && (steps[i].d.id == "" || forall j | 0 <= j < i :: !Completes(steps[j], steps[i].d.id))
  }

  predicate IsHandled(cfg: PriceConfig, prefix: string, st: State, steps: seq<Step>, i: nat) {
    && i < |steps| && steps[i].Begin?
    && !Skipped(prefix, Run(cfg, prefix, st, steps[..i]).ks, steps[i].d)
  }

  /** When the delivery that began with step `i` ended, if it did. */
  function EndedAt(steps: seq<Step>, i: nat): Option<int> {
    if |steps| <= i + 1 then None
    else
      var n := |steps| - 1;
      var r := EndedAt(steps[..n], i);
      if r.Some? then r else if steps[n].End? && steps[n].begun == i then Some(steps[n].now) else None
  }

  /** The first delivery of an event to complete has ended before any other of it begins, less than 24 hours ago. */
  predicate InWindow(steps: seq<Step>) {
    forall i, j | 0 <= i < j < |steps| && steps[j].Begin? && steps[j].d.id != "" ::
      IsOpen(steps, i) && Completes(steps[i], steps[j].d.id) ==>
        EndedAt(steps[..j], i).Some? && steps[j].d.start < EndedAt(steps[..j], i).value + TTL_MS
  }

  /** The reference: handle the open deliveries in turn, and know nothing of markers. */
  function HandledOnce(cfg: PriceConfig, w: World, steps: seq<Step>): World {
    if |steps| == 0 then w
    else
      var n := |steps| - 1;
      var before := HandledOnce(cfg, w, steps[..n]);
      if IsOpen(steps, n) then Handled(cfg, before, steps[n].d) else before
  }

  ghost predicate Unmarked(prefix: string, ks: Redis.Keyspace) {
    forall id :: ProcessedKey(prefix, "stripe-webhook", id) !in ks || id == ""
  }

  lemma ProcessedKeyInjective(prefix: string, consumer: string, a: string, b: string)
    requires a != "" && b != "" && consumer != ""
    ensures ProcessedKey(prefix, consumer, a) == ProcessedKey(prefix, consumer, b) <==> a == b
  {
    Redis.BuildUnfolds(prefix, ["event:processed", consumer, a]);
    Redis.BuildUnfolds(prefix, ["event:processed", consumer, b]);
    var head := (if |prefix| > 0 then prefix + ":" else "") + "event:processed" + ":" + consumer + ":";
    JoinsThree(consumer, a);
    JoinsThree(consumer, b);
    assert ProcessedKey(prefix, consumer, a) == head + a;
    assert ProcessedKey(prefix, consumer, b) == head + b;
    assert (head + a)[|head|..] == a && (head + b)[|head|..] == b;
  }

  lemma JoinsThree(consumer: string, id: string)
    ensures Redis.Join(["event:processed", consumer, id]) == "event:processed" + ":" + consumer + ":" + id
  {
    assert ["event:processed", consumer, id][1..] == [consumer, id];
    assert [consumer, id][1..] == [id];
    assert Redis.Join([consumer, id]) == consumer + ":" + id;
    assert "event:processed" + ":" + (consumer + ":" + id) == "event:processed" + ":" + consumer + ":" + id;
  }

  function FirstComplete(steps: seq<Step>, id: string): (r: Option<nat>)
    ensures r.Some? ==> r.value < |steps| && Completes(steps[r.value], id)
                        && forall j | 0 <= j < r.value :: !Completes(steps[j], id)
    ensures r.None? ==> forall j | 0 <= j < |steps| :: !Completes(steps[j], id)
  {
    if |steps| == 0 then None
    else
      var r := FirstComplete(steps[..|steps| - 1], id);
      if r.Some? then r else if Completes(steps[|steps| - 1], id) then Some(|steps| - 1) else None
  }

  lemma FirstCompleteIs(steps: seq<Step>, id: string, i: nat)
    requires i < |steps| && Completes(steps[i], id) && forall j | 0 <= j < i :: !Completes(steps[j], id)
    ensures FirstComplete(steps, id) == Some(i)
  {
    var r := FirstComplete(steps, id);
    assert r.Some? ==> r.value <= i;
  }

  /** The end of the first delivery of the event to complete. */
  function FirstEnd(steps: seq<Step>, id: string): Option<int> {
    var first := FirstComplete(steps, id);
    if first.None? then None else EndedAt(steps, first.value)
  }

  predicate MarkerFollows(prefix: string, ks: Redis.Keyspace, steps: seq<Step>, id: string) {
    var key := ProcessedKey(prefix, "stripe-webhook", id);
    var end := FirstEnd(steps, id);
    && (key in ks <==> end.Some?)
    && (end.Some? ==> ks[key].expiresAt == Some(end.value + TTL_MS))
  }

  /** A delivery is being handled from the step it began with until it ends, if it was open. */
  predicate RunningFollows(st: State, steps: seq<Step>, i: nat) {
    && (i in st.running <==> IsOpen(steps, i) && EndedAt(steps, i).None?)
    && (i in st.running ==> st.running[i] == steps[i].d)
  }

  /** While exactly the open deliveries have been handled, an event's marker dates from the end of the first that
      completed. */
  ghost predicate Follows(prefix: string, st: State, steps: seq<Step>) {
    && st.taken == |steps|
    && (forall id :: id != "" ==> MarkerFollows(prefix, st.ks, steps, id))
    && (forall i: nat :: RunningFollows(st, steps, i))
  }

  lemma OpenUntilComplete(steps: seq<Step>, n: nat)
    requires n < |steps| && steps[n].Begin? && steps[n].d.id != ""
    ensures IsOpen(steps, n) <==> FirstComplete(steps[..n], steps[n].d.id).None?
  {
    assert forall j | 0 <= j < n :: steps[..n][j] == steps[j];
  }

  lemma SameOpen(steps: seq<Step>, n: nat, i: nat)
    requires i < n <= |steps|
    ensures IsOpen(steps[..n], i) == IsOpen(steps, i)
  {
    assert steps[..n][i] == steps[i] && forall j | 0 <= j < i :: steps[..n][j] == steps[j];
  }

  lemma EndedLater(steps: seq<Step>, i: nat)
    requires |steps| > 0
    ensures var n := |steps| - 1;
            EndedAt(steps, i) ==
            if EndedAt(steps[..n], i).Some? then EndedAt(steps[..n], i)
            else if i < n && steps[n].End? && steps[n].begun == i then Some(steps[n].now) else None
  {
  }

  lemma FirstLater(steps: seq<Step>, id: string)
    requires |steps| > 0
    ensures var n := |steps| - 1;
            FirstComplete(steps, id) ==
            if FirstComplete(steps[..n], id).Some? then FirstComplete(steps[..n], id)
            else if Completes(steps[n], id) then Some(n) else None
  {
  }

  lemma FirstIsOpen(steps: seq<Step>, id: string)
    requires FirstComplete(steps, id).Some?
    ensures IsOpen(steps, FirstComplete(steps, id).value)
  {
  }

  lemma BeginFollows(cfg: PriceConfig, prefix: string, st: State, steps: seq<Step>)
    requires |steps| > 0 && steps[|steps| - 1].Begin? && Follows(prefix, st, steps[..|steps| - 1])
    requires !Skipped(prefix, st.ks, steps[|steps| - 1].d) <==> IsOpen(steps, |steps| - 1)
    ensures Follows(prefix, Next(cfg, prefix, st, steps[|steps| - 1]), steps)
  {
    hide Handled, ProcessedKey, Skipped, EndedAt, FirstComplete, IsOpen, Completes;
    var n := |steps| - 1;
    var after := Next(cfg, prefix, st, steps[n]);
    assert after.ks == st.ks;
    forall id | id != "" ensures MarkerFollows(prefix, after.ks, steps, id) {
      assert MarkerFollows(prefix, st.ks, steps[..n], id);
      FirstLater(steps, id);
      BeginEndsNothing(steps, id);
    }
    forall i: nat ensures RunningFollows(after, steps, i) {
      assert RunningFollows(st, steps[..n], i);
      RunningBegins(cfg, prefix, st, steps, i);
    }
  }

  /** A beginning ends nothing. */
  lemma BeginEndsNothing(steps: seq<Step>, id: string)
    requires |steps| > 0 && steps[|steps| - 1].Begin?
    ensures FirstEnd(steps, id) == FirstEnd(steps[..|steps| - 1], id)
  {
    var n := |steps| - 1;
    FirstLater(steps, id);
    hide FirstComplete, Completes;
    var first := FirstComplete(steps, id);
    if first.Some? {
      EndedLater(steps, first.value);
      BeforeItself(steps, first.value);
    }
  }

  lemma BeforeItself(steps: seq<Step>, i: nat)
    ensures |steps| <= i + 1 ==> EndedAt(steps, i).None?
    ensures |steps| == i + 1 ==> EndedAt(steps[..i], i).None?
  {
  }

  lemma RunningBegins(cfg: PriceConfig, prefix: string, st: State, steps: seq<Step>, i: nat)
    requires |steps| > 0 && steps[|steps| - 1].Begin? && st.taken == |steps| - 1
    requires RunningFollows(st, steps[..|steps| - 1], i)
    requires !Skipped(prefix, st.ks, steps[|steps| - 1].d) <==> IsOpen(steps, |steps| - 1)
    ensures RunningFollows(Next(cfg, prefix, st, steps[|steps| - 1]), steps, i)
  {
    var n := |steps| - 1;
    EndedLater(steps, i);
    BeforeItself(steps, i);
    if i < n {
      SameOpen(steps, n, i);
    } else {
      assert !IsOpen(steps[..n], i);
      assert i > n ==> !IsOpen(steps, i);
    }
    hide EndedAt, IsOpen, Skipped, Handled;
  }

  lemma EndFollows(cfg: PriceConfig, prefix: string, st: State, steps: seq<Step>)
    requires |steps| > 0 && steps[|steps| - 1].End? && Follows(prefix, st, steps[..|steps| - 1])
    ensures Follows(prefix, Next(cfg, prefix, st, steps[|steps| - 1]), steps)
  {
    hide Handled, ProcessedKey, Skipped, EndedAt, FirstComplete, IsOpen, Completes, FirstEnd, Marked;
    var n := |steps| - 1;
    var after := Next(cfg, prefix, st, steps[n]);
    assert RunningFollows(st, steps[..n], steps[n].begun);
    forall id | id != "" ensures MarkerFollows(prefix, after.ks, steps, id) {
      assert MarkerFollows(prefix, st.ks, steps[..n], id);
      MarkerAtEnd(cfg, prefix, st, steps, id);
    }
    forall i: nat ensures RunningFollows(after, steps, i) {
      assert RunningFollows(st, steps[..n], i);
      RunningEnds(cfg, prefix, st, steps, i);
    }
  }

  lemma RunningEnds(cfg: PriceConfig, prefix: string, st: State, steps: seq<Step>, i: nat)
    requires |steps| > 0 && steps[|steps| - 1].End? && RunningFollows(st, steps[..|steps| - 1], i)
    ensures RunningFollows(Next(cfg, prefix, st, steps[|steps| - 1]), steps, i)
  {
    var n := |steps| - 1;
    EndedLater(steps, i);
    if i < n {
      SameOpen(steps, n, i);
    } else {
      assert !IsOpen(steps[..n], i) && !IsOpen(steps, i);
    }
    hide EndedAt, IsOpen, Marked;
  }

  /** Which end writes the marker of `id`: that of the first delivery of it to complete, when it was still running. */
  lemma MarkerAtEnd(cfg: PriceConfig, prefix: string, st: State, steps: seq<Step>, id: string)
    requires id != "" && |steps| > 0 && steps[|steps| - 1].End?
    requires MarkerFollows(prefix, st.ks, steps[..|steps| - 1], id)
    requires RunningFollows(st, steps[..|steps| - 1], steps[|steps| - 1].begun)
    ensures MarkerFollows(prefix, Next(cfg, prefix, st, steps[|steps| - 1]).ks, steps, id)
  {
    var n := |steps| - 1;
    var begun := steps[n].begun;
    var first := FirstComplete(steps[..n], id);
    FirstLater(steps, id);
    if first.Some? {
      FirstIsOpen(steps[..n], id);
      EndedLater(steps, first.value);
    }
    if begun in st.running && st.running[begun].id != "" {
      ProcessedKeyInjective(prefix, "stripe-webhook", id, st.running[begun].id);
      if st.running[begun].id == id && st.running[begun].thrown.None? {
        FirstCompleteIs(steps[..n], id, begun);
      }
    }
    hide EndedAt, IsOpen, ProcessedKey, FirstComplete;
  }

  ghost predicate ExactlyOnce(cfg: PriceConfig, prefix: string, st: State, steps: seq<Step>) {
    forall i: nat | i < |steps| && steps[i].Begin? :: IsHandled(cfg, prefix, st, steps, i) <==> IsOpen(steps, i)
  }

  lemma PrefixKeeps(cfg: PriceConfig, prefix: string, st: State, steps: seq<Step>, n: nat, i: nat)
    requires i < n <= |steps|
    ensures IsOpen(steps[..n], i) == IsOpen(steps, i)
    ensures IsHandled(cfg, prefix, st, steps[..n], i) == IsHandled(cfg, prefix, st, steps, i)
  {
    SameOpen(steps, n, i);
    assert steps[..n][..i] == steps[..i];
    hide Skipped, Run, IsOpen;
  }

  lemma PrefixOnce(cfg: PriceConfig, prefix: string, st: State, steps: seq<Step>, n: nat)
    requires n <= |steps| && ExactlyOnce(cfg, prefix, st, steps)
    ensures ExactlyOnce(cfg, prefix, st, steps[..n])
  {
    hide IsHandled, IsOpen;
    forall i: nat | i < n && steps[i].Begin?
      ensures IsHandled(cfg, prefix, st, steps[..n], i) <==> IsOpen(steps[..n], i)
    {
      PrefixKeeps(cfg, prefix, st, steps, n, i);
    }
  }

  lemma StartFollows(prefix: string, st: State)
    requires Unmarked(prefix, st.ks) && st.running == map[] && st.taken == 0
    ensures Follows(prefix, st, [])
  {
  }

  lemma {:induction false} RunFollows(cfg: PriceConfig, prefix: string, st: State, steps: seq<Step>)
    requires Unmarked(prefix, st.ks) && st.running == map[] && st.taken == 0
    requires ExactlyOnce(cfg, prefix, st, steps)
    ensures Follows(prefix, Run(cfg, prefix, st, steps), steps)
  {
    hide Follows, Next, IsOpen, Skipped;
    if |steps| > 0 {
      var n := |steps| - 1;
      PrefixOnce(cfg, prefix, st, steps, n);
      RunFollows(cfg, prefix, st, steps[..n]);
      if steps[n].Begin? {
        assert IsHandled(cfg, prefix, st, steps, n) <==> IsOpen(steps, n);
        BeginFollows(cfg, prefix, Run(cfg, prefix, st, steps[..n]), steps);
      } else {
        EndFollows(cfg, prefix, Run(cfg, prefix, st, steps[..n]), steps);
      }
    } else {
      StartFollows(prefix, st);
    }
  }

  /** The delivery that begins with step `n` meets the condition. */
  predicate MeetsMarker(steps: seq<Step>, n: nat)
    requires n < |steps| && steps[n].Begin?
  {
    var first := FirstComplete(steps[..n], steps[n].d.id);
    steps[n].d.id != "" && first.Some? ==>
      EndedAt(steps[..n], first.value).Some? && steps[n].d.start < EndedAt(steps[..n], first.value).value + TTL_MS
  }

  /** One more delivery: handled exactly when open, if and only if it is open or meets the marker. */
  lemma OneMore(cfg: PriceConfig, prefix: string, st: State, steps: seq<Step>, n: nat)
    requires n < |steps| && steps[n].Begin? && ExactlyOnce(cfg, prefix, st, steps[..n])
    requires Unmarked(prefix, st.ks) && st.running == map[] && st.taken == 0
    ensures (IsHandled(cfg, prefix, st, steps, n) <==> IsOpen(steps, n)) <==> MeetsMarker(steps, n)
  {
    hide ProcessedKey, Run, FirstComplete, EndedAt, RunningFollows;
    RunFollows(cfg, prefix, st, steps[..n]);
    if steps[n].d.id != "" {
      OpenUntilComplete(steps, n);
      assert MarkerFollows(prefix, Run(cfg, prefix, st, steps[..n]).ks, steps[..n], steps[n].d.id);
    }
    hide ExactlyOnce, Follows;
  }

  lemma WindowMeetsMarkers(steps: seq<Step>)
    ensures InWindow(steps) <==> forall n: nat | n < |steps| && steps[n].Begin? :: MeetsMarker(steps, n)
  {
    hide EndedAt;
    if InWindow(steps) {
      forall n: nat | n < |steps| && steps[n].Begin? ensures MeetsMarker(steps, n) {
        var first := FirstComplete(steps[..n], steps[n].d.id);
        if steps[n].d.id != "" && first.Some? {
          FirstIsOpen(steps[..n], steps[n].d.id);
          SameOpen(steps, n, first.value);
          assert steps[..n][first.value] == steps[first.value];
        }
      }
    }
    if forall n: nat | n < |steps| && steps[n].Begin? :: MeetsMarker(steps, n) {
      forall i, j | 0 <= i < j < |steps| && steps[j].Begin? && steps[j].d.id != "" && IsOpen(steps, i)
                    && Completes(steps[i], steps[j].d.id)
        ensures EndedAt(steps[..j], i).Some? && steps[j].d.start < EndedAt(steps[..j], i).value + TTL_MS
      {
        assert steps[..j][i] == steps[i] && forall k | 0 <= k < i :: steps[..j][k] == steps[k];
        FirstCompleteIs(steps[..j], steps[j].d.id, i);
        assert MeetsMarker(steps, j);
      }
    }
  }

  lemma {:induction false} MarkersSuffice(cfg: PriceConfig, prefix: string, st: State, steps: seq<Step>, n: nat)
    requires Unmarked(prefix, st.ks) && st.running == map[] && st.taken == 0
    requires n <= |steps| && forall k: nat | k < |steps| && steps[k].Begin? :: MeetsMarker(steps, k)
    ensures ExactlyOnce(cfg, prefix, st, steps[..n])
  {
    hide IsHandled, Unmarked, MeetsMarker, IsOpen;
    if n > 0 {
      MarkersSuffice(cfg, prefix, st, steps, n - 1);
      if steps[n - 1].Begin? {
        OneMore(cfg, prefix, st, steps, n - 1);
      }
      forall i: nat | i < n && steps[i].Begin?
        ensures IsHandled(cfg, prefix, st, steps[..n], i) <==> IsOpen(steps[..n], i)
      {
        PrefixKeeps(cfg, prefix, st, steps, n, i);
        if i < n - 1 {
          PrefixKeeps(cfg, prefix, st, steps, n - 1, i);
          assert steps[..n - 1][i] == steps[i];
        }
      }
    }
  }

  /** Over every interleaving of deliveries, each event is handled until its handler completes, and never again,
      exactly when all its further deliveries begin inside the 24 hours after the end of that handling. */
  lemma HandledOnceExactly(cfg: PriceConfig, prefix: string, w: World, ks: Redis.Keyspace, steps: seq<Step>)
    requires Unmarked(prefix, ks)
    ensures ExactlyOnce(cfg, prefix, Start(w, ks), steps) <==> InWindow(steps)
  {
    var st := Start(w, ks);
    hide IsHandled, Unmarked, MeetsMarker, IsOpen, InWindow;
    WindowMeetsMarkers(steps);
    if InWindow(steps) {
      MarkersSuffice(cfg, prefix, st, steps, |steps|);
      assert steps[..|steps|] == steps;
    }
    if ExactlyOnce(cfg, prefix, st, steps) {
      forall n: nat | n < |steps| && steps[n].Begin? ensures MeetsMarker(steps, n) {
        PrefixOnce(cfg, prefix, st, steps, n);
        OneMore(cfg, prefix, st, steps, n);
        assert IsHandled(cfg, prefix, st, steps, n) <==> IsOpen(steps, n);
      }
    }
  }

  /** A redelivery that begins before the first handling has ended, or a day after it, is handled again. */
  lemma HandledTwice(cfg: PriceConfig, prefix: string, w: World, d: Delivery, end: int, again: Delivery)
    requires d.id != "" && again.id == d.id && d.thrown.None?
    ensures IsHandled(cfg, prefix, Start(w, map[]), [Begin(d), Begin(again)], 1)
    ensures end + TTL_MS <= again.start ==>
              IsHandled(cfg, prefix, Start(w, map[]), [Begin(d), End(0, end), Begin(again)], 2)
  {
    hide Handled, ProcessedKey;
    var st := Start(w, map[]);
    var overlapping, late := [Begin(d), Begin(again)], [Begin(d), End(0, end), Begin(again)];
    assert overlapping[..1] == [Begin(d)] && late[..2] == [Begin(d), End(0, end)];
    assert late[..2][..1] == [Begin(d)] && [Begin(d)][..0] == [];
    assert Run(cfg, prefix, st, [Begin(d)]) == Next(cfg, prefix, st, Begin(d));
    assert Run(cfg, prefix, st, late[..2]) == Next(cfg, prefix, Next(cfg, prefix, st, Begin(d)), End(0, end));
  }

  lemma {:induction false} OnceIsReference(cfg: PriceConfig, prefix: string, st: State, steps: seq<Step>)
    requires ExactlyOnce(cfg, prefix, st, steps)
    ensures Run(cfg, prefix, st, steps).world == HandledOnce(cfg, st.world, steps)
  {
    hide Handled, Skipped, IsOpen, ProcessedKey, Marked;
    if |steps| > 0 {
      var n := |steps| - 1;
      PrefixOnce(cfg, prefix, st, steps, n);
      OnceIsReference(cfg, prefix, st, steps[..n]);
      assert steps[n].Begin? ==> (IsHandled(cfg, prefix, st, steps, n) <==> IsOpen(steps, n));
      assert steps[n].End? ==> !IsOpen(steps, n) by {
        NotOpenAtEnd(steps, n);
      }
    }
  }

  lemma NotOpenAtEnd(steps: seq<Step>, n: nat)
    ensures IsOpen(steps, n) ==> steps[n].Begin?
  {
  }

  /** With all further deliveries inside the window, billing and tenants end as if each event had been handled to its
      end once. */
  lemma RedeliveryIsHarmless(cfg: PriceConfig, prefix: string, w: World, ks: Redis.Keyspace, steps: seq<Step>)
    requires Unmarked(prefix, ks) && InWindow(steps)
    ensures Run(cfg, prefix, Start(w, ks), steps).world == HandledOnce(cfg, w, steps)
  {
    HandledOnceExactly(cfg, prefix, w, ks, steps);
    OnceIsReference(cfg, prefix, Start(w, ks), steps);
  }
}
