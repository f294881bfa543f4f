/** Feature flags behind a five-minute cache: exact when calls run one after another, and boundedly stale when
    their steps interleave. */
module FeatureFlag {
  import opened Wrappers
  import opened Text
  import opened Redis

  /** A flag whose overrides column may be null. */
  datatype Flag = Flag(defaultValue: bool, overrides: Option<map<string, bool>>)
  type Table = map<string, Flag>

  /** An entity asking about a flag. */
  datatype Question = Question(entity: string, key: string)

  const CACHE_TTL: nat := 300

  function CacheKey(q: Question): string {
    "feature_flag:" + q.entity + ":" + q.key
  }

  function OverridesOf(f: Flag): map<string, bool> {
    if f.overrides.Some? then f.overrides.value else map[]
  }

  /** The answer without a cache: override, else default, else false. */
  function Lookup(db: Table, q: Question): bool {
    if q.key !in db then false
    else if q.entity in OverridesOf(db[q.key]) then OverridesOf(db[q.key])[q.entity]
    else db[q.key].defaultValue
  }

  function Spelled(b: bool): string {
    if b then "true" else "false"
  }

  function Overridden(db: Table, q: Question, enabled: bool): Table {
    if q.key in db then db[q.key := db[q.key].(overrides := Some(OverridesOf(db[q.key])[q.entity := enabled]))] else db
  }

  function WithoutOverride(db: Table, q: Question): Table {
    if q.key in db then db[q.key := db[q.key].(overrides := Some(OverridesOf(db[q.key]) - {q.entity}))] else db
  }

  // ---------- One call after another

  datatype Call =
    | IsEnabled(q: Question)
    | SetOverride(q: Question, enabled: bool)
    | RemoveOverride(q: Question)
    | Wait(ms: nat)

  datatype Flags = Flags(db: Table, ks: Keyspace, now: int)

  function Answer(st: Flags, q: Question): bool {
    match Read(st.ks, CacheKey(q), st.now)
    case Some(v) => v == Str("true")
    case None => Lookup(st.db, q)
  }

  function Done(st: Flags, c: Call): Flags {
    match c
    case IsEnabled(q) =>
      if Read(st.ks, CacheKey(q), st.now).Some? then st
      else st.(ks := st.ks[CacheKey(q) := Cell(Str(Spelled(Lookup(st.db, q))), Until(st.now, CACHE_TTL))])
    case SetOverride(q, enabled) =>
      if q.key in st.db then st.(db := Overridden(st.db, q, enabled), ks := st.ks - {CacheKey(q)}) else st
    case RemoveOverride(q) =>
      if q.key in st.db && st.db[q.key].overrides.Some?
      then st.(db := WithoutOverride(st.db, q), ks := st.ks - {CacheKey(q)}) else st
    case Wait(ms) => st.(now := st.now + ms)
  }

  function DoneAll(st: Flags, calls: seq<Call>): Flags {
    if |calls| == 0 then st else Done(DoneAll(st, calls[..|calls| - 1]), calls[|calls| - 1])
  }

  /** The cache holds the answer that the flag is on. */
  predicate CacheSays(st: Flags, q: Question) {
    Read(st.ks, CacheKey(q), st.now) == Some(Str("true"))
  }

  class FlagRepository {
    var rows: Table

    constructor (rows: Table)
      ensures this.rows == rows
    {
      this.rows := rows;
    }
  }

  class FeatureFlagService {
    const repository: FlagRepository
    const redis: Redis.Store

    constructor (repository: FlagRepository, redis: Redis.Store)
      ensures this.repository == repository && this.redis == redis
    {
      this.repository := repository;
      this.redis := redis;
    }

    ghost function State(): Flags
      reads repository, redis
    {
      Flags(repository.rows, redis.cells, redis.now)
    }

    method IsEnabled(key: string, entityId: string) returns (enabled: bool)
      modifies redis`cells
      ensures enabled == Answer(old(State()), Question(entityId, key))
      ensures State() == Done(old(State()), Call.IsEnabled(Question(entityId, key)))
      ensures enabled <==> CacheSays(State(), Question(entityId, key))
    {
      var cacheKey := "feature_flag:" + entityId + ":" + key;
      var cached := redis.Get(cacheKey);
      if cached.Some? {
        return cached.value == Str("true");
      }
      if key !in repository.rows {
        redis.Set(cacheKey, Str("false"), CACHE_TTL);
        return false;
      }
      var flagDef := repository.rows[key];
      enabled := if flagDef.overrides.Some? && entityId in flagDef.overrides.value
                 then flagDef.overrides.value[entityId] else flagDef.defaultValue;
      redis.Set(cacheKey, Str(if enabled then "true" else "false"), CACHE_TTL);
    }

    /** Refuses an unknown flag. */
    method SetOverride(key: string, entityId: string, isEnabled: bool) returns (ok: bool)
      modifies repository, redis`cells
      ensures ok == (key in old(repository.rows))
      ensures State() == Done(old(State()), Call.SetOverride(Question(entityId, key), isEnabled))
    {
      if key !in repository.rows {
        return false;
      }
      var flagDef := repository.rows[key];
      var overrides := if flagDef.overrides.Some? then flagDef.overrides.value else map[];
      flagDef := flagDef.(overrides := Some(overrides[entityId := isEnabled]));
      repository.rows := repository.rows[key := flagDef];
      redis.Del("feature_flag:" + entityId + ":" + key);
      return true;
    }

    /** Throws on overrides that are null. */
    method RemoveOverride(key: string, entityId: string) returns (ok: bool)
      modifies repository, redis`cells
      ensures ok == (key in old(repository.rows) ==> old(repository.rows)[key].overrides.Some?)
      ensures State() == Done(old(State()), Call.RemoveOverride(Question(entityId, key)))
    {
      if key !in repository.rows {
        return true;
      }
      var flagDef := repository.rows[key];
      if flagDef.overrides.None? {
        return false;
      }
      var remainingOverrides := flagDef.overrides.value - {entityId};
      flagDef := flagDef.(overrides := Some(remainingOverrides));
      repository.rows := repository.rows[key := flagDef];
      redis.Del("feature_flag:" + entityId + ":" + key);
      return true;
    }
  }

  predicate Asks(c: Call, q: Question) {
    !c.Wait? && c.q == q
  }

  ghost predicate Among(calls: seq<Call>, qs: iset<Question>) {
    forall k, q | 0 <= k < |calls| && Asks(calls[k], q) :: q in qs
  }

  /** The cache says what the table says, for the questions in `qs`. */
  ghost predicate Coherent(st: Flags, qs: iset<Question>) {
    forall q | q in qs :: Answer(st, q) == Lookup(st.db, q)
  }

  ghost predicate KeysApart(qs: iset<Question>) {
    forall q, r | q in qs && r in qs && CacheKey(q) == CacheKey(r) :: q == r
  }

  /** From an empty cache, every answer in every run over `qs` is the cache-free one. */
  ghost predicate Transparent(qs: iset<Question>) {
    forall db: Table, now: int, calls: seq<Call> | Among(calls, qs) ::
        Coherent(DoneAll(Flags(db, map[], now), calls), qs)
  }

  lemma OtherLookups(db: Table, q: Question, r: Question, enabled: bool)
    requires q != r
    ensures Lookup(Overridden(db, q, enabled), r) == Lookup(db, r) == Lookup(WithoutOverride(db, q), r)
  {
  }

  lemma CallKeepsCoherent(st: Flags, c: Call, qs: iset<Question>)
    requires KeysApart(qs) && Coherent(st, qs) && forall q | Asks(c, q) :: q in qs
    ensures Coherent(Done(st, c), qs)
  {
    hide CacheKey;
    var after := Done(st, c);
    if !c.Wait? {
      assert Asks(c, c.q);
    }
    forall r | r in qs ensures Answer(after, r) == Lookup(after.db, r) {
      assert Answer(st, r) == Lookup(st.db, r);
      if !c.Wait? && c.q != r {
        assert CacheKey(c.q) != CacheKey(r);
        OtherLookups(st.db, c.q, r, if c.SetOverride? then c.enabled else true);
        hide Lookup, Overridden, WithoutOverride;
      }
    }
  }

  lemma {:induction false} RunKeepsCoherent(st: Flags, calls: seq<Call>, qs: iset<Question>)
    requires KeysApart(qs) && Coherent(st, qs) && Among(calls, qs)
    ensures Coherent(DoneAll(st, calls), qs)
  {
    hide Coherent, Done, KeysApart;
    if |calls| > 0 {
      RunKeepsCoherent(st, calls[..|calls| - 1], qs);
      CallKeepsCoherent(DoneAll(st, calls[..|calls| - 1]), calls[|calls| - 1], qs);
    }
  }

  lemma SameFlag(a: string, b: string, key: string)
    requires CacheKey(Question(a, key)) == CacheKey(Question(b, key))
    ensures a == b
  {
    var c, d := CacheKey(Question(a, key)), CacheKey(Question(b, key));
    assert c[13..|c| - |key| - 1] == a && d[13..|d| - |key| - 1] == b;
  }

  /** Questions that share a cache key ask about different flags, so one table answers them differently. */
  lemma CollisionDiffers(q: Question, r: Question)
    requires CacheKey(q) == CacheKey(r) && q != r
    ensures var db := map[q.key := Flag(true, Some(map[])), r.key := Flag(false, Some(map[]))];
            var st := DoneAll(Flags(db, map[], 0), [IsEnabled(q)]);
            Answer(st, r) != Lookup(st.db, r)
  {
    if q.key == r.key {
      SameFlag(q.entity, r.entity, q.key);
    }
    var db := map[q.key := Flag(true, Some(map[])), r.key := Flag(false, Some(map[]))];
    var calls := [IsEnabled(q)];
    assert calls[..0] == [];
    assert DoneAll(Flags(db, map[], 0), calls) == Done(Flags(db, map[], 0), IsEnabled(q));
    hide CacheKey;
  }

  lemma CollisionShows(q: Question, r: Question, qs: iset<Question>)
    requires q in qs && r in qs && CacheKey(q) == CacheKey(r) && q != r
    ensures !Transparent(qs)
  {
    hide CacheKey, Answer, Lookup, Done;
    CollisionDiffers(q, r);
    assert Among([IsEnabled(q)], qs);
    assert !Coherent(DoneAll(Flags(map[q.key := Flag(true, Some(map[])), r.key := Flag(false, Some(map[]))], map[], 0),
                             [IsEnabled(q)]), qs);
  }

  /** Run one after another, the cached service is the cache-free lookup exactly when the questions asked compose
      to different cache keys. */
  lemma TransparentExactly(qs: iset<Question>)
    ensures Transparent(qs) <==> KeysApart(qs)
  {
    hide CacheKey;
    if KeysApart(qs) {
      forall db: Table, now: int, calls: seq<Call> | Among(calls, qs)
        ensures Coherent(DoneAll(Flags(db, map[], now), calls), qs)
      {
        RunKeepsCoherent(Flags(db, map[], now), calls, qs);
      }
    }
    if Transparent(qs) {
      forall q, r | q in qs && r in qs && CacheKey(q) == CacheKey(r) ensures q == r {
        if q != r {
          CollisionShows(q, r, qs);
        }
      }
    }
  }

  // ---------- What decides an answer

  /** Call `j` is the last one that sets or removes the override of `q`. */
  predicate LastWord(calls: seq<Call>, q: Question, j: nat) {
    && j < |calls| && (calls[j] == RemoveOverride(q) || (calls[j].SetOverride? && calls[j].q == q))
    && forall k | j < k < |calls| :: calls[k] != RemoveOverride(q) && !(calls[k].SetOverride? && calls[k].q == q)
  }

  /** What the calls leave of a flag that was `f` before them: the override set last, unless it was removed since; the
      override it had, if no call touched it; the default otherwise. */
  predicate IsOn(f: Flag, calls: seq<Call>, q: Question) {
    if exists j: nat | j < |calls| :: LastWord(calls, q, j) then
      exists j: nat | j < |calls| ::
          LastWord(calls, q, j) && (if calls[j].SetOverride? then calls[j].enabled else f.defaultValue)
    else if f.overrides.Some? && q.entity in f.overrides.value then
      f.overrides.value[q.entity]
    else
      f.defaultValue
  }

  lemma LastWordLater(calls: seq<Call>, q: Question, j: nat)
    requires |calls| > 0
    ensures var c := calls[|calls| - 1];
            LastWord(calls, q, j) <==>
            if c == RemoveOverride(q) || (c.SetOverride? && c.q == q) then j == |calls| - 1
            else LastWord(calls[..|calls| - 1], q, j)
  {
  }

  lemma IsOnLater(f: Flag, calls: seq<Call>, q: Question)
    requires |calls| > 0
    ensures var c := calls[|calls| - 1];
            IsOn(f, calls, q) <==>
            if c == RemoveOverride(q) then f.defaultValue
            else if c.SetOverride? && c.q == q then c.enabled
            else IsOn(f, calls[..|calls| - 1], q)
  {
    var n := |calls| - 1;
    forall j: nat
      ensures LastWord(calls, q, j) <==>
              if calls[n] == RemoveOverride(q) || (calls[n].SetOverride? && calls[n].q == q) then j == n
              else LastWord(calls[..n], q, j)
    {
      LastWordLater(calls, q, j);
    }
    assert forall j: nat | LastWord(calls[..n], q, j) :: j < n && calls[..n][j] == calls[j];
    hide LastWord;
    if calls[n] == RemoveOverride(q) || (calls[n].SetOverride? && calls[n].q == q) {
      assert LastWord(calls, q, n);
    }
  }

  /** The table follows the calls; a flag without an overrides column has no override of anybody. */
  lemma {:induction false} TableFollows(st: Flags, calls: seq<Call>, q: Question)
    ensures var db := DoneAll(st, calls).db;
            && db.Keys == st.db.Keys
            && (q.key in db ==>
                  && db[q.key].defaultValue == st.db[q.key].defaultValue
                  && (Lookup(db, q) <==> IsOn(st.db[q.key], calls, q)))
            && (q.key !in db ==> !Lookup(db, q))
  {
    if |calls| > 0 {
      var n := |calls| - 1;
      TableFollows(st, calls[..n], q);
      if q.key in st.db {
        IsOnLater(st.db[q.key], calls, q);
      }
      hide IsOn, CacheKey;
    }
  }

  /** Over every run of calls with keys apart, a flag is answered on exactly when it is known and the last word on its
      override says so, or its override from before, or its default. */
  lemma OverrideDecidesExactly(db: Table, now: int, calls: seq<Call>, q: Question, qs: iset<Question>)
    requires q in qs && KeysApart(qs) && Among(calls, qs)
    ensures CacheSays(DoneAll(Flags(db, map[], now), calls + [IsEnabled(q)]), q)
            <==> q.key in db && IsOn(db[q.key], calls, q)
  {
    var st := Flags(db, map[], now);
    var all := calls + [IsEnabled(q)];
    assert all[..|calls|] == calls;
    RunKeepsCoherent(st, calls, qs);
    TableFollows(st, calls, q);
    hide CacheKey, Lookup, IsOn;
    var before := DoneAll(st, calls);
    assert Answer(before, q) == Lookup(before.db, q);
    assert DoneAll(st, all) == Done(before, IsEnabled(q));
  }

  predicate ColonFree(q: Question) {
    Free(q.entity, ':')
  }

  lemma ColonFreeKeysApart()
    ensures KeysApart(iset q: Question | ColonFree(q))
  {
    forall q: Question, r: Question | ColonFree(q) && ColonFree(r) && CacheKey(q) == CacheKey(r) ensures q == r {
      assert CacheKey(q)[13..] == q.entity + ":" + q.key;
      assert CacheKey(r)[13..] == r.entity + ":" + r.key;
      HeadDetermined(q.entity, q.key, r.entity, r.key, ':');
    }
  }

  // ---------- Interleaved reads and writes

  /** A reader that missed the cache, and then has the table's answer. */
  datatype Reader = Missed(q: Question, since: int) | Loaded(q: Question, since: int, value: bool)

  datatype Given = Given(q: Question, value: bool, at: int)

  datatype State = State(flags: Flags, readers: map<nat, Reader>, given: set<Given>)

  /** The steps of `isEnabled` are the cache read, the table read and the cache write. Writers may change the table
      in any way and drop any cache entry, at any time. */
  datatype Step =
    | Get(reader: nat, q: Question)
    | Load(reader: nat)
    | Fill(reader: nat)
    | Save(db: Table)
    | Drop(key: string)
    | Tick(ms: nat)

  function Next(st: State, s: Step): State {
    var fl := st.flags;
    match s
    case Get(c, q) =>
      if c in st.readers then st
      else if Read(fl.ks, CacheKey(q), fl.now).Some?
      then st.(given := st.given + {Given(q, Read(fl.ks, CacheKey(q), fl.now).value == Str("true"), fl.now)})
      else st.(readers := st.readers[c := Missed(q, fl.now)])
    case Load(c) =>
      if c in st.readers && st.readers[c].Missed?
      then st.(readers := st.readers[c := Loaded(st.readers[c].q, st.readers[c].since, Lookup(fl.db, st.readers[c].q))])
      else st
    case Fill(c) =>
      if c in st.readers && st.readers[c].Loaded?
      then
        var r := st.readers[c];
        State(fl.(ks := fl.ks[CacheKey(r.q) := Cell(Str(Spelled(r.value)), Until(fl.now, CACHE_TTL))]),
              st.readers - {c}, st.given + {Given(r.q, r.value, fl.now)})
      else st
    case Save(db) => st.(flags := fl.(db := db))
    case Drop(key) => st.(flags := fl.(ks := fl.ks - {key}))
    case Tick(ms) => st.(flags := fl.(now := fl.now + ms))
  }

  function Run(st: State, steps: seq<Step>): State {
    if |steps| == 0 then st else Next(Run(st, steps[..|steps| - 1]), steps[|steps| - 1])
  }

  /** No call takes longer than `d` from its cache read to its cache write. */
  predicate Quick(st: State, steps: seq<Step>, d: nat) {
    forall k | 0 <= k < |steps| && steps[k].Fill? ::
      var before := Run(st, steps[..k]);
      steps[k].reader in before.readers ==> before.flags.now - before.readers[steps[k].reader].since <= d
  }

  /** At some moment of the run between `from` and `to`, the table gave this answer. */
  predicate TrueAt(st: State, steps: seq<Step>, q: Question, value: bool, from: int, to: int) {
    exists k | 0 <= k <= |steps| ::
      && Lookup(Run(st, steps[..k]).flags.db, q) == value
      && from <= Run(st, steps[..k]).flags.now <= to
  }

  const TTL_MS: int := 1000 * CACHE_TTL

  predicate GivenTrue(st: State, steps: seq<Step>, d: nat, g: Given) {
    ColonFree(g.q) ==> TrueAt(st, steps, g.q, g.value, g.at - TTL_MS - d, g.at)
  }

  predicate ReaderTrue(st: State, steps: seq<Step>, r: Reader) {
    r.since <= Run(st, steps).flags.now
      && (r.Loaded? ==> TrueAt(st, steps, r.q, r.value, r.since, Run(st, steps).flags.now))
  }

  /** A cache entry was true of the table at some moment up to `d` before it was written, and not in the future. */
  predicate EntryTrue(st: State, steps: seq<Step>, d: nat, q: Question, cell: Cell) {
    && cell.expiresAt.Some?
    && exists value ::
        cell.value == Str(Spelled(value))
        && TrueAt(st, steps, q, value, cell.expiresAt.value - TTL_MS - d, Run(st, steps).flags.now)
  }

  predicate CellTrue(st: State, steps: seq<Step>, d: nat, q: Question) {
    var ks := Run(st, steps).flags.ks;
    CacheKey(q) in ks ==> EntryTrue(st, steps, d, q, ks[CacheKey(q)])
  }

  ghost predicate Honest(st: State, steps: seq<Step>, d: nat) {
    && (forall g | g in Run(st, steps).given :: GivenTrue(st, steps, d, g))
    && (forall c | c in Run(st, steps).readers :: ReaderTrue(st, steps, Run(st, steps).readers[c]))
    && (forall q | ColonFree(q) :: CellTrue(st, steps, d, q))
  }

  lemma TrueExtends(st: State, steps: seq<Step>, q: Question, value: bool, from: int, to: int, from2: int, to2: int)
    requires |steps| > 0 && TrueAt(st, steps[..|steps| - 1], q, value, from, to) && from2 <= from && to <= to2
    ensures TrueAt(st, steps, q, value, from2, to2)
  {
    hide Run, Lookup;
    var n := |steps| - 1;
    var k :| 0 <= k <= n && Lookup(Run(st, steps[..n][..k]).flags.db, q) == value
        && from <= Run(st, steps[..n][..k]).flags.now <= to;
    assert steps[..n][..k] == steps[..k];
  }

  lemma TrueNow(st: State, steps: seq<Step>, q: Question, from: int, to: int)
    requires from <= Run(st, steps).flags.now <= to
    ensures TrueAt(st, steps, q, Lookup(Run(st, steps).flags.db, q), from, to)
  {
    assert steps[..|steps|] == steps;
  }

  lemma GivenStep(st: State, steps: seq<Step>, d: nat, g: Given)
    requires |steps| > 0 && Honest(st, steps[..|steps| - 1], d) && Quick(st, steps, d) && g in Run(st, steps).given
    ensures GivenTrue(st, steps, d, g)
  {
    var n := |steps| - 1;
    var before := Run(st, steps[..n]);
    var s := steps[n];
    assert Run(st, steps) == Next(before, s);
    hide TrueAt, Lookup, CacheKey, Run;
    if ColonFree(g.q) {
      if g in before.given {
        assert GivenTrue(st, steps[..n], d, g);
        TrueExtends(st, steps, g.q, g.value, g.at - TTL_MS - d, g.at, g.at - TTL_MS - d, g.at);
      } else if s.Get? {
        assert CellTrue(st, steps[..n], d, s.q);
        var cell := before.flags.ks[CacheKey(s.q)];
        var value :| cell.value == Str(Spelled(value)) &&
          TrueAt(st, steps[..n], s.q, value, cell.expiresAt.value - TTL_MS - d, before.flags.now);
        TrueExtends(st, steps, s.q, value, cell.expiresAt.value - TTL_MS - d, before.flags.now, g.at - TTL_MS - d,
                    g.at);
      } else {
        var r := before.readers[s.reader];
        assert ReaderTrue(st, steps[..n], r);
        TrueExtends(st, steps, g.q, g.value, r.since, before.flags.now, g.at - TTL_MS - d, g.at);
      }
    }
  }

  lemma ReaderCases(before: State, s: Step, c: nat)
    requires c in Next(before, s).readers
    ensures before.flags.now <= Next(before, s).flags.now
    ensures var r := Next(before, s).readers[c];
            || (c in before.readers && before.readers[c] == r)
            || r == Missed(r.q, Next(before, s).flags.now)
            || (c in before.readers && before.readers[c] == Missed(r.q, r.since)
                && Next(before, s).flags == before.flags
                && r == Loaded(r.q, r.since, Lookup(before.flags.db, r.q)))
  {
    hide Lookup, CacheKey;
  }

  lemma ReaderStep(st: State, steps: seq<Step>, d: nat, c: nat)
    requires |steps| > 0 && Honest(st, steps[..|steps| - 1], d) && c in Run(st, steps).readers
    ensures ReaderTrue(st, steps, Run(st, steps).readers[c])
  {
    var n := |steps| - 1;
    var before := Run(st, steps[..n]);
    var after := Run(st, steps);
    assert after == Next(before, steps[n]);
    ReaderCases(before, steps[n], c);
    hide TrueAt, Lookup, CacheKey, Run, Next, GivenTrue, CellTrue;
    var r := after.readers[c];
    if c in before.readers && before.readers[c] == r {
      assert ReaderTrue(st, steps[..n], r);
      if r.Loaded? {
        TrueExtends(st, steps, r.q, r.value, r.since, before.flags.now, r.since, after.flags.now);
      }
    } else if r.Loaded? {
      assert ReaderTrue(st, steps[..n], before.readers[c]);
      TrueNow(st, steps, r.q, r.since, after.flags.now);
    }
  }

  predicate ReadersColonFree(st: State) {
    forall c | c in st.readers :: ColonFree(st.readers[c].q)
  }

  lemma CellCases(before: State, s: Step, key: string)
    requires key in Next(before, s).flags.ks
    ensures before.flags.now <= Next(before, s).flags.now
    ensures var cell := Next(before, s).flags.ks[key];
            || (key in before.flags.ks && before.flags.ks[key] == cell)
            || (s.Fill? && s.reader in before.readers && Next(before, s).flags.now == before.flags.now
                && var r := before.readers[s.reader];
                   r.Loaded? && CacheKey(r.q) == key
                   && cell == Cell(Str(Spelled(r.value)), Some(before.flags.now + TTL_MS)))
  {
    hide Lookup, CacheKey, Spelled, Read;
  }

  lemma CellFilled(st: State, steps: seq<Step>, d: nat, q: Question, r: Reader)
    requires |steps| > 0 && r.Loaded? && r.q == q && ReaderTrue(st, steps[..|steps| - 1], r)
    requires var fl := Run(st, steps).flags;
             && CacheKey(q) in fl.ks && fl.ks[CacheKey(q)] == Cell(Str(Spelled(r.value)), Some(fl.now + TTL_MS))
             && fl.now - r.since <= d && Run(st, steps[..|steps| - 1]).flags.now == fl.now
    ensures CellTrue(st, steps, d, q)
  {
    hide Run, TrueAt, Spelled, CacheKey;
    var now := Run(st, steps).flags.now;
    TrueExtends(st, steps, q, r.value, r.since, now, now - d, now);
  }

  lemma EntryKept(st: State, steps: seq<Step>, d: nat, q: Question, cell: Cell)
    requires |steps| > 0 && EntryTrue(st, steps[..|steps| - 1], d, q, cell)
    requires Run(st, steps[..|steps| - 1]).flags.now <= Run(st, steps).flags.now
    ensures EntryTrue(st, steps, d, q, cell)
  {
    hide Run, TrueAt, Spelled;
    var from := cell.expiresAt.value - TTL_MS - d;
    var was := Run(st, steps[..|steps| - 1]).flags.now;
    var value :| cell.value == Str(Spelled(value)) && TrueAt(st, steps[..|steps| - 1], q, value, from, was);
    TrueExtends(st, steps, q, value, from, was, from, Run(st, steps).flags.now);
  }

  lemma CellStep(st: State, steps: seq<Step>, d: nat, q: Question)
    requires |steps| > 0 && Honest(st, steps[..|steps| - 1], d) && Quick(st, steps, d) && ColonFree(q)
    requires ReadersColonFree(Run(st, steps[..|steps| - 1]))
    ensures CellTrue(st, steps, d, q)
  {
    var n := |steps| - 1;
    var before := Run(st, steps[..n]);
    var after := Run(st, steps);
    var s := steps[n];
    var key := CacheKey(q);
    assert after == Next(before, s);
    assert CellTrue(st, steps[..n], d, q);
    hide TrueAt, Lookup, CacheKey, Run, Spelled, Next, GivenTrue;
    if key in after.flags.ks {
      CellCases(before, s, key);
      if key in before.flags.ks && after.flags.ks[key] == before.flags.ks[key] {
        hide EntryTrue, ReaderTrue, Honest, Quick;
        EntryKept(st, steps, d, q, before.flags.ks[key]);
      } else {
        var r := before.readers[s.reader];
        ColonFreeKeysApart();
        assert r.q == q;
        assert ReaderTrue(st, steps[..n], r);
        hide CellTrue, ReaderTrue;
        CellFilled(st, steps, d, q, r);
      }
    }
  }

  /** Entities without a colon ask. */
  predicate ColonFreeSteps(steps: seq<Step>) {
    forall k | 0 <= k < |steps| && steps[k].Get? :: ColonFree(steps[k].q)
  }

  lemma {:induction false} ColonFreeReaders(st: State, steps: seq<Step>)
    requires st.readers == map[] && ColonFreeSteps(steps)
    ensures ReadersColonFree(Run(st, steps))
  {
    hide ColonFree;
    if |steps| > 0 {
      ColonFreeReaders(st, steps[..|steps| - 1]);
    }
  }

  lemma {:induction false} HonestAlways(st: State, steps: seq<Step>, d: nat)
    requires st.flags.ks == map[] && st.readers == map[] && st.given == {}
    requires ColonFreeSteps(steps) && Quick(st, steps, d)
    ensures Honest(st, steps, d)
  {
    if |steps| > 0 {
      var n := |steps| - 1;
      assert forall k | 0 <= k < n :: steps[..n][..k] == steps[..k] && steps[..n][k] == steps[k];
      assert Quick(st, steps[..n], d) by {
        hide Run;
      }
      HonestAlways(st, steps[..n], d);
      ColonFreeReaders(st, steps[..n]);
      hide Run, GivenTrue, ReaderTrue, CellTrue, Quick, ColonFree;
      forall g | g in Run(st, steps).given ensures GivenTrue(st, steps, d, g) {
        GivenStep(st, steps, d, g);
      }
      forall c | c in Run(st, steps).readers ensures ReaderTrue(st, steps, Run(st, steps).readers[c]) {
        ReaderStep(st, steps, d, c);
      }
      forall q | ColonFree(q) ensures CellTrue(st, steps, d, q) {
        CellStep(st, steps, d, q);
      }
    }
  }

  /** Over every interleaving with calls of at most `d`, an answer was true of the table at some moment no more than
      300 seconds plus `d` before it was given. */
  lemma AnswersAreRecent(st: State, steps: seq<Step>, d: nat, g: Given)
    requires st.flags.ks == map[] && st.readers == map[] && st.given == {}
    requires ColonFreeSteps(steps) && Quick(st, steps, d) && g in Run(st, steps).given
    ensures TrueAt(st, steps, g.q, g.value, g.at - 300000 - d, g.at)
  {
    HonestAlways(st, steps, d);
    assert GivenTrue(st, steps, d, g);
    hide Run, TrueAt;
    assert ColonFree(g.q) by {
      GivenColonFree(st, steps, g);
    }
  }

  lemma {:induction false} GivenColonFree(st: State, steps: seq<Step>, g: Given)
    requires st.readers == map[] && st.given == {} && ColonFreeSteps(steps) && g in Run(st, steps).given
    ensures ColonFree(g.q)
  {
    if |steps| > 0 {
      ColonFreeReaders(st, steps[..|steps| - 1]);
      hide ColonFree;
      if g in Run(st, steps[..|steps| - 1]).given {
        GivenColonFree(st, steps[..|steps| - 1], g);
      }
    }
  }

  // ---------- The bound is reached

  function OldTable(q: Question): Table {
    map[q.key := Flag(true, Some(map[]))]
  }

  /** A slow reader stores an answer that was overwritten meanwhile, and it is read a millisecond before expiry. */
  function SlowReader(q: Question, d: nat): seq<Step> {
    [Get(0, q), Load(0), Save(map[]), Tick(d), Fill(0), Tick(299999), Get(1, q)]
  }

  lemma PrefixRun(st: State, steps: seq<Step>, k: nat)
    requires k < |steps|
    ensures Run(st, steps[..k + 1]) == Next(Run(st, steps[..k]), steps[k])
  {
    assert steps[..k + 1][..k] == steps[..k];
  }

  lemma SlowReaderStates(q: Question, d: nat)
    ensures var st := State(Flags(OldTable(q), map[], 0), map[], {});
            var steps := SlowReader(q, d);
            var cell := Cell(Str("true"), Some(d + 300000));
            && Run(st, steps[..0]) == st
            && Run(st, steps[..1]) == State(Flags(OldTable(q), map[], 0), map[0 := Missed(q, 0)], {})
            && Run(st, steps[..2]) == State(Flags(OldTable(q), map[], 0), map[0 := Loaded(q, 0, true)], {})
            && Run(st, steps[..3]) == State(Flags(map[], map[], 0), map[0 := Loaded(q, 0, true)], {})
            && Run(st, steps[..4]) == State(Flags(map[], map[], d), map[0 := Loaded(q, 0, true)], {})
            && Run(st, steps[..5]) == State(Flags(map[], map[CacheKey(q) := cell], d), map[], {Given(q, true, d)})
            && Run(st, steps[..6]) == State(Flags(map[], map[CacheKey(q) := cell], d + 299999), map[],
                                            {Given(q, true, d)})
            && Run(st, steps[..7]) == State(Flags(map[], map[CacheKey(q) := cell], d + 299999), map[],
                                            {Given(q, true, d), Given(q, true, d + 299999)})
  {
    hide CacheKey;
    var st := State(Flags(OldTable(q), map[], 0), map[], {});
    for k := 0 to 7
      invariant forall j | 0 <= j < k ::
        Run(st, SlowReader(q, d)[..j + 1]) == Next(Run(st, SlowReader(q, d)[..j]), SlowReader(q, d)[j])
    {
      PrefixRun(st, SlowReader(q, d), k);
    }
    var steps := SlowReader(q, d);
    assert Run(st, steps[..1]) == Next(Run(st, steps[..0]), steps[0]);
    assert Run(st, steps[..2]) == Next(Run(st, steps[..1]), steps[1]);
    assert Run(st, steps[..3]) == Next(Run(st, steps[..2]), steps[2]);
    assert Run(st, steps[..4]) == Next(Run(st, steps[..3]), steps[3]);
    assert Run(st, steps[..5]) == Next(Run(st, steps[..4]), steps[4]);
    assert Run(st, steps[..6]) == Next(Run(st, steps[..5]), steps[5]);
    assert Run(st, steps[..7]) == Next(Run(st, steps[..6]), steps[6]);
  }

  /** For every call length there is a run whose answer was last true 299,999 milliseconds plus that length ago. */
  lemma BoundIsReached(q: Question, d: nat)
    ensures var st := State(Flags(OldTable(q), map[], 0), map[], {});
            var steps := SlowReader(q, d);
            && Quick(st, steps, d)
            && Given(q, true, d + 299999) in Run(st, steps).given
            && !TrueAt(st, steps, q, true, 1, d + 299999)
  {
    var st := State(Flags(OldTable(q), map[], 0), map[], {});
    var steps := SlowReader(q, d);
    SlowReaderStates(q, d);
    assert steps[..7] == steps;
    hide Run, CacheKey;
    assert forall k | 0 <= k < |steps| && steps[k].Fill? :: k == 4;
    forall k | 0 <= k <= |steps|
      ensures !(Lookup(Run(st, steps[..k]).flags.db, q) == true && 1 <= Run(st, steps[..k]).flags.now <= d + 299999)
    {
      assert k in {0, 1, 2, 3, 4, 5, 6, 7};
    }
  }
}
