/** The token provider: a cache with lifetimes in front of a broker, and one request in flight per key. */
module MachineAuth {
  import opened Wrappers
  import opened Text

  datatype Request = Request(audience: string, tenant: Option<string>)

  function Key(r: Request): string {
    r.audience + "|" + (if r.tenant.Some? then r.tenant.value else "-")
  }

  datatype Entry = Entry(token: string, start: int, ttlMs: int)

  /** The cache still returns an entry at the last millisecond of its lifetime; an empty token counts as a miss. */
  predicate Served(e: Entry, now: int) {
    e.token != "" && now - e.start <= e.ttlMs
  }

  /** Four fifths of the token's life, but at least a minute; five minutes are assumed when none is given. */
  function TtlMs(expiresIn: Option<int>): int {
    var ttlSec := if expiresIn.Some? && expiresIn.value > 0 then expiresIn.value else 300;
    var scaled := ttlSec * 1000 * 8 / 10;
    if scaled > 60000 then scaled else 60000
  }

  // ---------- The provider

  datatype Outcome = Cached(token: string) | Pending(fetch: nat) | Started(started: nat)

  function Looked(cache: map<string, Entry>, inflight: map<string, nat>, r: Request, unused: nat, now: int): Outcome {
    if Key(r) in cache && Served(cache[Key(r)], now) then Cached(cache[Key(r)].token)
    else if Key(r) in inflight then Pending(inflight[Key(r)])
    else Started(unused)
  }

  function Cache(cache: map<string, Entry>, key: string, token: string, expiresIn: Option<int>, fits: bool,
      now: int): map<string, Entry>
  {
    if fits then cache[key := Entry(token, now, TtlMs(expiresIn))] else cache - {key}
  }

  class MachineAuthProvider {
    var cache: map<string, Entry>
    var inflight: map<string, nat>

    constructor ()
      ensures cache == map[] && inflight == map[]
    {
      cache, inflight := map[], map[];
    }

    /** `unused` names the request that is sent when there is no token and none on its way. */
    method GetToken(audience: string, tenant: Option<string>, unused: nat, now: int) returns (o: Outcome)
      modifies this`inflight
      ensures o == Looked(cache, old(inflight), Request(audience, tenant), unused, now)
      ensures inflight == if o.Started? then old(inflight)[Key(Request(audience, tenant)) := unused] else old(inflight)
    {
      var key := audience + "|" + (if tenant.Some? then tenant.value else "-");
      if key in cache {
        var cached := cache[key];
        if now - cached.start <= cached.ttlMs && |cached.token| > 0 {
          return Cached(cached.token);
        }
      }
      if key in inflight {
        return Pending(inflight[key]);
      }
      inflight := inflight[key := unused];
      return Started(unused);
    }

    /** `fits`: the cache takes the token; one that is too large for it drops the entry of its key. */
    method OnResponse(key: string, token: string, expiresIn: Option<int>, fits: bool, now: int)
      modifies this`cache
      ensures cache == Cache(old(cache), key, token, expiresIn, fits, now)
      ensures cache - {key} == old(cache) - {key} && (key in cache <==> fits)
      ensures fits ==> cache[key].token == token && cache[key].start == now
    {
      var ttlSec := 300;
      if expiresIn.Some? && expiresIn.value > 0 {
        ttlSec := expiresIn.value;
      }
      var ttlMs := ttlSec * 1000 * 8 / 10;
      if ttlMs < 60000 {
        ttlMs := 60000;
      }
      if fits {
        cache := cache[key := Entry(token, now, ttlMs)];
      } else {
        cache := cache - {key};
      }
    }

    method OnFinally(key: string)
      modifies this`inflight
      ensures inflight == old(inflight) - {key}
    {
      inflight := inflight - {key};
    }
  }

  // ---------- Interleaved calls and completions

  datatype Phase = Outstanding | Responded(token: string) | Broken
  datatype Fetch = Fetch(request: Request, phase: Phase)
  datatype Wait = Wait(request: Request, fetch: nat)

  /** A token the broker issued at `issuedAt` for a request, received at `receivedAt`. */
  datatype Issue = Issue(request: Request, token: string, expiresIn: Option<int>, issuedAt: int, receivedAt: int)
  datatype Answer = Answer(caller: nat, request: Request, token: string, at: int, cached: bool)

  datatype State = State(
    now: int, cache: map<string, Entry>, inflight: map<string, nat>,
    fetches: map<nat, Fetch>, waiting: map<nat, Wait>, issues: set<Issue>, answers: set<Answer>)

  const START := State(0, map[], map[], map[], map[], {}, {})

  /** `Settle` is the `finally` of a fetch, which runs after the response has been stored; calls may come between. */
  datatype Step =
    | Call(caller: nat, request: Request, unused: nat)
    | Respond(responded: nat, token: string, expiresIn: Option<int>, fits: bool, issuedAt: int)
    | Break(broken: nat)
    | Settle(settled: nat)
    | Evict(key: string)
    | Tick(ms: nat)

  function Called(st: State, caller: nat, r: Request, unused: nat): State {
    if caller in st.waiting || unused in st.fetches then st
    else match Looked(st.cache, st.inflight, r, unused, st.now)
      case Cached(token) => st.(answers := st.answers + {Answer(caller, r, token, st.now, true)})
      case Pending(f) => st.(waiting := st.waiting[caller := Wait(r, f)])
      case Started(f) => st.(inflight := st.inflight[Key(r) := f],
                             fetches := st.fetches[f := Fetch(r, Outstanding)],
                             waiting := st.waiting[caller := Wait(r, f)])
  }

  function Answered(st: State, f: nat, token: string): set<Answer> {
    set c | c in st.waiting && st.waiting[c].fetch == f :: Answer(c, st.waiting[c].request, token, st.now, false)
  }

  function Next(st: State, s: Step): State {
    match s
    case Call(caller, r, unused) => Called(st, caller, r, unused)
    case Respond(f, token, expiresIn, fits, issuedAt) =>
      if f !in st.fetches || st.fetches[f].phase != Outstanding || issuedAt > st.now then st
      else
        var r := st.fetches[f].request;
        st.(cache := Cache(st.cache, Key(r), token, expiresIn, fits, st.now),
            fetches := st.fetches[f := Fetch(r, Responded(token))],
            issues := st.issues + {Issue(r, token, expiresIn, issuedAt, st.now)})
    case Break(f) =>
      if f !in st.fetches || st.fetches[f].phase != Outstanding then st
      else st.(fetches := st.fetches[f := st.fetches[f].(phase := Broken)])
    case Settle(f) =>
      if f !in st.fetches || st.fetches[f].phase == Outstanding then st
      else
        var answers := if st.fetches[f].phase.Responded? then Answered(st, f, st.fetches[f].phase.token) else {};
        st.(inflight := st.inflight - {Key(st.fetches[f].request)}, fetches := st.fetches - {f},
            waiting := map c | c in st.waiting && st.waiting[c].fetch != f :: st.waiting[c],
            answers := st.answers + answers)
    case Evict(key) => st.(cache := st.cache - {key})
    case Tick(ms) => st.(now := st.now + ms)
  }

  function Run(steps: seq<Step>): State {
    if |steps| == 0 then START else Next(Run(steps[..|steps| - 1]), steps[|steps| - 1])
  }

  // ---------- What every step keeps

  /** The in-flight table and the unsettled fetches are inverse to each other. */
  ghost predicate SingleFlight(st: State) {
    && (forall f | f in st.fetches ::
        Key(st.fetches[f].request) in st.inflight && st.inflight[Key(st.fetches[f].request)] == f)
    && (forall k | k in st.inflight :: st.inflight[k] in st.fetches && Key(st.fetches[st.inflight[k]].request) == k)
    && (forall c | c in st.waiting ::
          && st.waiting[c].fetch in st.fetches
          && Key(st.waiting[c].request) == Key(st.fetches[st.waiting[c].fetch].request))
  }

  predicate IssuedFor(issues: set<Issue>, key: string, token: string, i: Issue) {
    i in issues && Key(i.request) == key && i.token == token
  }

  predicate TokenSourced(issues: set<Issue>, key: string, token: string) {
    exists i | i in issues :: IssuedFor(issues, key, token, i)
  }

  predicate EntrySourced(issues: set<Issue>, key: string, e: Entry) {
    exists i | i in issues :: IssuedFor(issues, key, e.token, i) && e.start == i.receivedAt
        && e.ttlMs == TtlMs(i.expiresIn)
  }

  predicate AnswerSourced(issues: set<Issue>, a: Answer) {
    exists i | i in issues :: IssuedFor(issues, Key(a.request), a.token, i)
        && (a.cached ==> a.at <= i.receivedAt + TtlMs(i.expiresIn))
  }

  /** Tokens in the cache, in responses and in answers were issued under the key they are found at. */
  predicate Sourced(st: State) {
    && (forall k | k in st.cache :: EntrySourced(st.issues, k, st.cache[k]))
    && (forall f | f in st.fetches && st.fetches[f].phase.Responded? ::
          TokenSourced(st.issues, Key(st.fetches[f].request), st.fetches[f].phase.token))
    && (forall a | a in st.answers :: AnswerSourced(st.issues, a))
  }

  /** Everything that is asked for lies in `rs`. */
  ghost predicate Within(st: State, rs: iset<Request>) {
    && (forall f | f in st.fetches :: st.fetches[f].request in rs)
    && (forall c | c in st.waiting :: st.waiting[c].request in rs)
    && (forall i | i in st.issues :: i.request in rs)
    && (forall a | a in st.answers :: a.request in rs)
  }

  ghost predicate CallsWithin(s: Step, rs: iset<Request>) {
    s.Call? ==> s.request in rs
  }

  lemma SingleFlightStep(st: State, s: Step)
    requires SingleFlight(st)
    ensures SingleFlight(Next(st, s))
  {
    hide Key, TtlMs, Served;
  }

  lemma SourcedMonotone(st: State, issues: set<Issue>)
    requires Sourced(st) && st.issues <= issues
    ensures Sourced(st.(issues := issues))
  {
    hide Key, TtlMs;
    forall k | k in st.cache ensures EntrySourced(issues, k, st.cache[k]) {
      var i :| i in st.issues && IssuedFor(st.issues, k, st.cache[k].token, i)
        && st.cache[k].start == i.receivedAt && st.cache[k].ttlMs == TtlMs(i.expiresIn);
      assert IssuedFor(issues, k, st.cache[k].token, i);
    }
    forall f | f in st.fetches && st.fetches[f].phase.Responded?
      ensures TokenSourced(issues, Key(st.fetches[f].request), st.fetches[f].phase.token)
    {
      var i :| i in st.issues && IssuedFor(st.issues, Key(st.fetches[f].request), st.fetches[f].phase.token, i);
      assert IssuedFor(issues, Key(st.fetches[f].request), st.fetches[f].phase.token, i);
    }
    forall a | a in st.answers ensures AnswerSourced(issues, a) {
      var i :| i in st.issues && IssuedFor(st.issues, Key(a.request), a.token, i)
          && (a.cached ==> a.at <= i.receivedAt + TtlMs(i.expiresIn));
      assert IssuedFor(issues, Key(a.request), a.token, i);
    }
  }

  lemma FromCache(issues: set<Issue>, e: Entry, caller: nat, r: Request, now: int)
    requires EntrySourced(issues, Key(r), e) && Served(e, now)
    ensures AnswerSourced(issues, Answer(caller, r, e.token, now, true))
  {
    var i :| i in issues && IssuedFor(issues, Key(r), e.token, i) && e.start == i.receivedAt
        && e.ttlMs == TtlMs(i.expiresIn);
    assert IssuedFor(issues, Key(r), e.token, i);
    hide Key, TtlMs;
  }

  lemma FromFetch(issues: set<Issue>, key: string, token: string, a: Answer)
    requires TokenSourced(issues, key, token) && Key(a.request) == key && a.token == token && !a.cached
    ensures AnswerSourced(issues, a)
  {
    var i :| i in issues && IssuedFor(issues, key, token, i);
    assert IssuedFor(issues, Key(a.request), a.token, i);
    hide Key, TtlMs;
  }

  lemma RespondSourced(st: State, s: Step)
    requires Sourced(st) && s.Respond?
    ensures Sourced(Next(st, s))
  {
    if s.responded in st.fetches && st.fetches[s.responded].phase == Outstanding && s.issuedAt <= st.now {
      var r := st.fetches[s.responded].request;
      var i := Issue(r, s.token, s.expiresIn, s.issuedAt, st.now);
      var issues := st.issues + {i};
      SourcedMonotone(st, issues);
      assert IssuedFor(issues, Key(r), s.token, i);
      assert EntrySourced(issues, Key(r), Entry(s.token, st.now, TtlMs(s.expiresIn)));
      assert TokenSourced(issues, Key(r), s.token);
      hide EntrySourced, TokenSourced, AnswerSourced, Key, TtlMs;
    }
  }

  lemma SettleSourced(st: State, s: Step)
    requires SingleFlight(st) && Sourced(st) && s.Settle?
    ensures Sourced(Next(st, s))
  {
    hide EntrySourced, TokenSourced, AnswerSourced, Key, TtlMs;
    var after := Next(st, s);
    forall a | a in after.answers ensures AnswerSourced(st.issues, a) {
      if a !in st.answers {
        var fetch := st.fetches[s.settled];
        assert Key(a.request) == Key(fetch.request);
        FromFetch(st.issues, Key(fetch.request), fetch.phase.token, a);
      }
    }
  }

  lemma SourcedStep(st: State, s: Step)
    requires SingleFlight(st) && Sourced(st)
    ensures Sourced(Next(st, s))
  {
    match s {
      case Call(caller, r, unused) =>
        hide EntrySourced, TokenSourced, AnswerSourced, Key, TtlMs;
        if Key(r) in st.cache && Served(st.cache[Key(r)], st.now) {
          FromCache(st.issues, st.cache[Key(r)], caller, r, st.now);
        }
      case Respond(_, _, _, _, _) => RespondSourced(st, s);
      case Settle(_) => SettleSourced(st, s);
      case Break(_) =>
      case Evict(_) =>
      case Tick(_) =>
    }
  }

  lemma WithinStep(st: State, s: Step, rs: iset<Request>)
    requires Within(st, rs) && CallsWithin(s, rs)
    ensures Within(Next(st, s), rs)
  {
    hide Key, TtlMs, Served;
  }

  lemma StartKeeps()
    ensures SingleFlight(START) && Sourced(START)
  {
  }

  lemma {:induction false} RunKeeps(steps: seq<Step>)
    ensures SingleFlight(Run(steps)) && Sourced(Run(steps))
  {
    hide SingleFlight, Sourced, Next;
    if |steps| > 0 {
      RunKeeps(steps[..|steps| - 1]);
      SingleFlightStep(Run(steps[..|steps| - 1]), steps[|steps| - 1]);
      SourcedStep(Run(steps[..|steps| - 1]), steps[|steps| - 1]);
    } else {
      StartKeeps();
    }
  }

  lemma StartWithin(rs: iset<Request>)
    ensures Within(START, rs)
  {
  }

  lemma {:induction false} RunWithin(steps: seq<Step>, rs: iset<Request>)
    requires forall k | 0 <= k < |steps| :: CallsWithin(steps[k], rs)
    ensures Within(Run(steps), rs)
  {
    hide Within, Next;
    if |steps| > 0 {
      RunWithin(steps[..|steps| - 1], rs);
      WithinStep(Run(steps[..|steps| - 1]), steps[|steps| - 1], rs);
    } else {
      StartWithin(rs);
    }
  }

  // ---------- One request per key

  /** Over every interleaving, two requests that are under way have different keys. */
  lemma OneInFlight(steps: seq<Step>, f: nat, g: nat)
    requires f in Run(steps).fetches && g in Run(steps).fetches
    requires Key(Run(steps).fetches[f].request) == Key(Run(steps).fetches[g].request)
    ensures f == g
  {
    RunKeeps(steps);
    assert Run(steps).inflight[Key(Run(steps).fetches[f].request)] == f;
  }

  // ---------- Everyone gets its own token

  predicate OwnToken(st: State, a: Answer) {
    exists i | i in st.issues :: i.request == a.request && i.token == a.token
  }

  /** Every caller among `rs`, in every run, gets a token issued for its own audience and tenant. */
  ghost predicate Separates(rs: iset<Request>) {
    forall steps: seq<Step> | (forall k | 0 <= k < |steps| :: CallsWithin(steps[k], rs)) ::
      forall a | a in Run(steps).answers :: OwnToken(Run(steps), a)
  }

  ghost predicate KeysApart(rs: iset<Request>) {
    forall r, q | r in rs && q in rs && Key(r) == Key(q) :: r == q
  }

  /** The second caller of a colliding pair is served the first one's token. */
  function Collision(r: Request, q: Request): seq<Step> {
    [Call(0, r, 0), Respond(0, "token", Some(300), true, 0), Call(1, q, 1)]
  }

  lemma CollisionServes(r: Request, q: Request)
    requires Key(r) == Key(q)
    ensures Run(Collision(r, q)).issues == {Issue(r, "token", Some(300), 0, 0)}
    ensures Answer(1, q, "token", 0, true) in Run(Collision(r, q)).answers
  {
    var steps := Collision(r, q);
    assert Run(steps[..0]) == START;
    assert steps[..1][..0] == steps[..0] && steps[..2][..1] == steps[..1] && steps[..3][..2] == steps[..2]
      && steps[..3] == steps;
    var one := Next(START, steps[0]);
    assert Run(steps[..1]) == one;
    assert one.fetches == map[0 := Fetch(r, Outstanding)] && one.cache == map[] && one.now == 0 && one.issues == {}
      && one.waiting == map[0 := Wait(r, 0)];
    var two := Next(one, steps[1]);
    assert Run(steps[..2]) == two;
    assert two.cache == map[Key(r) := Entry("token", 0, TtlMs(Some(300)))] && two.now == 0;
    assert two.issues == {Issue(r, "token", Some(300), 0, 0)};
    assert two.fetches == map[0 := Fetch(r, Responded("token"))] && two.waiting == map[0 := Wait(r, 0)];
    assert Served(two.cache[Key(q)], 0);
    hide Key, TtlMs;
  }

  /** Callers are kept apart exactly when no two different requests compose to the same key. */
  lemma SeparatesExactly(rs: iset<Request>)
    ensures Separates(rs) <==> KeysApart(rs)
  {
    hide Key, Run;
    if KeysApart(rs) {
      forall steps: seq<Step>, a | (forall k | 0 <= k < |steps| :: CallsWithin(steps[k], rs)) && a in Run(steps).answers
        ensures OwnToken(Run(steps), a)
      {
        RunKeeps(steps);
        RunWithin(steps, rs);
        var i :| i in Run(steps).issues && IssuedFor(Run(steps).issues, Key(a.request), a.token, i);
        assert i.request == a.request;
      }
    }
    if Separates(rs) {
      forall r, q | r in rs && q in rs && Key(r) == Key(q) ensures r == q {
        CollisionServes(r, q);
        var steps := Collision(r, q);
        assert forall k | 0 <= k < |steps| :: CallsWithin(steps[k], rs);
        assert OwnToken(Run(steps), Answer(1, q, "token", 0, true));
      }
    }
  }

  /** An audience without the separator and a tenant that is not the placeholder. */
  predicate Clean(r: Request) {
    Free(r.audience, '|') && r.tenant != Some("-")
  }

  lemma CleanKeysApart()
    ensures KeysApart(iset r: Request | Clean(r))
  {
    forall r: Request, q: Request | Clean(r) && Clean(q) && Key(r) == Key(q) ensures r == q {
      HeadDetermined(r.audience, if r.tenant.Some? then r.tenant.value else "-",
                     q.audience, if q.tenant.Some? then q.tenant.value else "-", '|');
    }
  }

  lemma CleanCallersGetTheirOwn(steps: seq<Step>, a: Answer)
    requires forall k | 0 <= k < |steps| :: steps[k].Call? ==> Clean(steps[k].request)
    requires a in Run(steps).answers
    ensures OwnToken(Run(steps), a)
  {
    hide Key, Run, Clean, OwnToken;
    CleanKeysApart();
    SeparatesExactly(iset r: Request | Clean(r));
    assert forall k | 0 <= k < |steps| :: CallsWithin(steps[k], iset r: Request | Clean(r));
  }

  /** Neither condition can be dropped. */
  lemma DirtyKeysCollide()
    ensures !KeysApart(iset{Request("a", None), Request("a", Some("-"))})
    ensures !KeysApart(iset{Request("a|b", Some("c")), Request("a", Some("b|c"))})
  {
    var r, q := Request("a|b", Some("c")), Request("a", Some("b|c"));
    assert Key(r) == "a|b|c" && Key(q) == "a|b|c";
    assert r in iset{r, q} && q in iset{r, q} && r.audience != q.audience;
    var n, m := Request("a", None), Request("a", Some("-"));
    assert Key(n) == "a|-" && Key(m) == "a|-";
    assert n in iset{n, m} && m in iset{n, m};
  }

  // ---------- No token outlives itself

  /** The token was received soon enough for its time in the cache to end before its own life does. */
  predicate Timely(i: Issue) {
    i.expiresIn.Some? && TtlMs(i.expiresIn) + (i.receivedAt - i.issuedAt) <= 1000 * i.expiresIn.value
  }

  /** An entry is never served past the life of its token exactly when the response was timely; with no delay
      between issue and receipt that means a life of at least 60 seconds. */
  lemma TimelyExactly(token: string, expiresIn: int, issuedAt: int, receivedAt: int)
    requires token != "" && expiresIn > 0
    ensures (forall now :: Served(Entry(token, receivedAt, TtlMs(Some(expiresIn))), now) ==>
             now <= issuedAt + 1000 * expiresIn) <==>
            Timely(Issue(Request("", None), token, Some(expiresIn), issuedAt, receivedAt))
    ensures Timely(Issue(Request("", None), token, Some(expiresIn), issuedAt, issuedAt)) <==> expiresIn >= 60
  {
    var last := receivedAt + TtlMs(Some(expiresIn));
    assert Served(Entry(token, receivedAt, TtlMs(Some(expiresIn))), last);
  }

  /** In every run whose responses are timely, a token served from the cache is still alive. */
  lemma CachedTokensAreAlive(steps: seq<Step>, a: Answer)
    requires forall i | i in Run(steps).issues :: Timely(i)
    requires a in Run(steps).answers && a.cached
    ensures exists i | i in Run(steps).issues ::
            i.token == a.token && Key(i.request) == Key(a.request) && i.expiresIn.Some?
              && a.at <= i.issuedAt + 1000 * i.expiresIn.value
  {
    RunKeeps(steps);
    hide Run, Key, TtlMs;
    var i :| i in Run(steps).issues && IssuedFor(Run(steps).issues, Key(a.request), a.token, i)
        && (a.cached ==> a.at <= i.receivedAt + TtlMs(i.expiresIn));
    assert Timely(i);
  }

  // ---------- How long a token is served

  /** The token may be served at this age: for its first minute, and for four fifths of the life it came with. A
      missing or non-positive life counts as 300 seconds. */
  predicate YoungEnough(expiresIn: Option<int>, ageMs: int) {
    var seconds := if expiresIn.Some? && expiresIn.value > 0 then expiresIn.value else 300;
    ageMs <= 60000 || 10 * ageMs <= 8 * 1000 * seconds
  }

  /** The step leaves the cache entry of the key alone. */
  predicate Spares(st: State, s: Step, key: string) {
    && (s.Evict? ==> s.key != key)
    && (s.Respond? && s.responded in st.fetches ==> Key(st.fetches[s.responded].request) != key)
  }

  lemma SparedEntry(st: State, s: Step, key: string)
    requires Spares(st, s, key)
    ensures key in Next(st, s).cache <==> key in st.cache
    ensures key in st.cache ==> Next(st, s).cache[key] == st.cache[key]
  {
    hide Key, TtlMs, Served, Answered;
  }

  /** No step of the run from position `n` on touches the entry of the key. */
  predicate SparedFrom(steps: seq<Step>, n: nat, key: string) {
    n <= |steps| && forall k | n <= k < |steps| :: Spares(Run(steps[..k]), steps[k], key)
  }

  lemma {:induction false} EntryStays(steps: seq<Step>, n: nat, key: string)
    requires SparedFrom(steps, n, key) && key in Run(steps[..n]).cache
    ensures key in Run(steps).cache && Run(steps).cache[key] == Run(steps[..n]).cache[key]
  {
    hide Key, Spares, Next;
    if n == |steps| {
      assert steps[..n] == steps;
    } else {
      var before := steps[..|steps| - 1];
      assert forall k | 0 <= k <= |before| :: before[..k] == steps[..k];
      assert forall k | n <= k < |before| :: Spares(Run(before[..k]), before[k], key);
      EntryStays(before, n, key);
      SparedEntry(Run(before), steps[|steps| - 1], key);
    }
  }

  lemma LifetimeExactly(token: string, expiresIn: Option<int>, start: int, now: int)
    ensures Served(Entry(token, start, TtlMs(expiresIn)), now) <==> token != "" && YoungEnough(expiresIn, now - start)
  {
  }

  lemma CallServed(st: State, caller: nat, r: Request, unused: nat, e: Entry)
    requires caller !in st.waiting && unused !in st.fetches
    requires Key(r) in st.cache && st.cache[Key(r)] == e
    ensures var after := Next(st, Call(caller, r, unused));
            if Served(e, st.now)
            then after == st.(answers := st.answers + {Answer(caller, r, e.token, st.now, true)})
            else after.answers == st.answers && caller in after.waiting
  {
    hide Key, Served, TtlMs;
  }

  /** In every run, once a response has been cached, a later caller with its key is answered from the cache
      exactly as long as the token is young enough; afterwards the caller waits for a request. */
  lemma ServedFromCacheExactly(steps: seq<Step>, n: nat, caller: nat, r: Request, unused: nat)
    requires n < |steps| && steps[n].Respond? && steps[n].fits
    requires var st := Run(steps[..n]);
             && steps[n].responded in st.fetches && st.fetches[steps[n].responded].phase == Outstanding
             && Key(st.fetches[steps[n].responded].request) == Key(r) && steps[n].issuedAt <= st.now
    requires SparedFrom(steps, n + 1, Key(r))
    requires caller !in Run(steps).waiting && unused !in Run(steps).fetches
    ensures var st, after := Run(steps), Next(Run(steps), Call(caller, r, unused));
            var age := st.now - Run(steps[..n]).now;
            if steps[n].token != "" && YoungEnough(steps[n].expiresIn, age)
            then after == st.(answers := st.answers + {Answer(caller, r, steps[n].token, st.now, true)})
            else after.answers == st.answers && caller in after.waiting
  {
    hide *;
    var st := Run(steps[..n]);
    var e := Entry(steps[n].token, st.now, TtlMs(steps[n].expiresIn));
    RunUnfolds(steps, n);
    ResponseCached(st, steps[n], Key(r));
    EntryStays(steps, n + 1, Key(r));
    LifetimeExactly(e.token, steps[n].expiresIn, st.now, Run(steps).now);
    CallServed(Run(steps), caller, r, unused, e);
  }

  lemma RunUnfolds(steps: seq<Step>, n: nat)
    requires n < |steps|
    ensures Run(steps[..n + 1]) == Next(Run(steps[..n]), steps[n])
  {
    hide Next;
    assert steps[..n + 1][..n] == steps[..n];
  }

  lemma ResponseCached(st: State, s: Step, key: string)
    requires s.Respond? && s.fits && s.responded in st.fetches && st.fetches[s.responded].phase == Outstanding
    requires Key(st.fetches[s.responded].request) == key && s.issuedAt <= st.now
    ensures key in Next(st, s).cache && Next(st, s).cache[key] == Entry(s.token, st.now, TtlMs(s.expiresIn))
  {
    hide Key, TtlMs;
  }
}
