/** The key-value store: cells with expiry, counters, sets, and the builder of composed keys. */
module Redis {
  import opened Wrappers
  import opened Text

  datatype Value = Num(n: int) | Str(s: string) | Members(ms: seq<string>)
  /** A cell without `expiresAt` lives until it is deleted. Times are milliseconds. */
  datatype Cell = Cell(value: Value, expiresAt: Option<int>)
  type Keyspace = map<string, Cell>

  predicate Live(ks: Keyspace, key: string, now: int) {
    key in ks && (ks[key].expiresAt.None? || now < ks[key].expiresAt.value)
  }

  function Read(ks: Keyspace, key: string, now: int): Option<Value> {
    if Live(ks, key, now) then Some(ks[key].value) else None
  }

  function Until(now: int, ttlSeconds: nat): Option<int> {
    if ttlSeconds > 0 then Some(now + 1000 * ttlSeconds) else None
  }

  /** INCRBY starts a missing key at zero and keeps the expiry of an existing one. A key that holds something
      else than a number is refused by the store; this function leaves it as it is. */
  function Incr(ks: Keyspace, key: string, amount: int, now: int): Keyspace {
    match Read(ks, key, now)
    case None => ks[key := Cell(Num(amount), None)]
    case Some(Num(n)) => ks[key := Cell(Num(n + amount), ks[key].expiresAt)]
    case Some(_) => ks
  }

  function WithExpiry(ks: Keyspace, key: string, ttlSeconds: nat, now: int): Keyspace {
    if Live(ks, key, now) then ks[key := ks[key].(expiresAt := Some(now + 1000 * ttlSeconds))] else ks
  }

  function MembersAt(ks: Keyspace, key: string, now: int): seq<string> {
    match Read(ks, key, now)
    case Some(Members(ms)) => ms
    case _ => []
  }

  function AddMember(ks: Keyspace, key: string, member: string, now: int): Keyspace {
    match Read(ks, key, now)
    case None => ks[key := Cell(Members([member]), None)]
    case Some(Members(ms)) => if member in ms then ks else ks[key := Cell(Members(ms + [member]), ks[key].expiresAt)]
    case Some(_) => ks
  }

  /** The number a counter key holds, as `getUsage` reads it: missing and non-numeric count as zero. */
  function NumberAt(ks: Keyspace, key: string, now: int): int {
    match Read(ks, key, now)
    case Some(Num(n)) => n
    case _ => 0
  }

  class Store {
    var cells: Keyspace
    var now: int

    constructor (now: int)
      ensures cells == map[] && this.now == now
    {
      cells := map[];
      this.now := now;
    }

    method Get(key: string) returns (v: Option<Value>)
      ensures v == Read(cells, key, now)
    {
      v :=
        if key in cells && (cells[key].expiresAt.None? || now < cells[key].expiresAt.value) then
          Some(cells[key].value)
        else
          None;
    }

    method Exists(key: string) returns (n: nat)
      ensures n == if Read(cells, key, now).Some? then 1 else 0
    {
      var v := Get(key);
      n := if v.Some? then 1 else 0;
    }

    method Set(key: string, value: Value, ttlSeconds: nat)
      modifies this`cells
      ensures cells == old(cells)[key := Cell(value, Until(now, ttlSeconds))]
    {
      cells := cells[key := Cell(value, Until(now, ttlSeconds))];
    }

    /** SET with NX: writes only when the key is not there. */
    method SetNx(key: string, value: Value, ttlSeconds: nat) returns (written: bool)
      modifies this`cells
      ensures written == Read(old(cells), key, now).None?
      ensures cells == if written then old(cells)[key := Cell(value, Until(now, ttlSeconds))] else old(cells)
    {
      var v := Get(key);
      if v.Some? {
        return false;
      }
      cells := cells[key := Cell(value, Until(now, ttlSeconds))];
      return true;
    }

    method Del(key: string)
      modifies this`cells
      ensures cells == old(cells) - {key}
    {
      cells := cells - {key};
    }

    method IncrBy(key: string, amount: int) returns (n: int)
      requires Read(cells, key, now).Some? ==> Read(cells, key, now).value.Num?
      modifies this`cells
      ensures cells == Incr(old(cells), key, amount, now)
      ensures n == NumberAt(old(cells), key, now) + amount == NumberAt(cells, key, now)
      ensures key in cells && cells[key].expiresAt == if Live(old(cells), key, now) then old(cells)[key].expiresAt
                                                      else None
      ensures cells - {key} == old(cells) - {key}
    {
      var v := Get(key);
      if v.None? {
        cells := cells[key := Cell(Num(amount), None)];
        n := amount;
      } else {
        n := v.value.n + amount;
        cells := cells[key := Cell(Num(n), cells[key].expiresAt)];
      }
    }

    method Expire(key: string, ttlSeconds: nat)
      modifies this`cells
      ensures cells == WithExpiry(old(cells), key, ttlSeconds, now)
    {
      var v := Get(key);
      if v.Some? {
        cells := cells[key := Cell(v.value, Some(now + 1000 * ttlSeconds))];
      }
    }

    method SAdd(key: string, member: string)
      requires Read(cells, key, now).Some? ==> Read(cells, key, now).value.Members?
      modifies this`cells
      ensures cells == AddMember(old(cells), key, member, now)
      ensures MembersAt(cells, key, now) == MembersAt(old(cells), key, now)
                                            + if member in MembersAt(old(cells), key, now) then [] else [member]
      ensures key in cells && cells[key].expiresAt == if Live(old(cells), key, now) then old(cells)[key].expiresAt
                                                      else None
      ensures cells - {key} == old(cells) - {key}
    {
      var v := Get(key);
      if v.None? {
        cells := cells[key := Cell(Members([member]), None)];
      } else if member !in v.value.ms {
        cells := cells[key := Cell(Members(v.value.ms + [member]), cells[key].expiresAt)];
      }
    }

    method SMembers(key: string) returns (ms: seq<string>)
      ensures ms == MembersAt(cells, key, now)
    {
      var v := Get(key);
      ms := if v.Some? && v.value.Members? then v.value.ms else [];
    }
  }

  // ---------- Keys

  function Join(parts: seq<string>): string {
    if |parts| == 0 then ""
    else if |parts| == 1 then parts[0]
    else parts[0] + ":" + Join(parts[1..])
  }

  function NonEmpty(parts: seq<string>): seq<string> {
    if |parts| == 0 then []
    else (if |parts[0]| > 0 then [parts[0]] else []) + NonEmpty(parts[1..])
  }

  /** `<prefix>[:<tenant>]:<segment>...`, empty pieces skipped. */
  function BuildKey(prefix: string, tenant: Option<string>, segments: seq<string>): string {
    Join(NonEmpty([prefix] + (if tenant.Some? then [tenant.value] else []) + segments))
  }

  lemma {:induction false} NonEmptyConcat(a: seq<string>, b: seq<string>)
    ensures NonEmpty(a + b) == NonEmpty(a) + NonEmpty(b)
    decreases |a|
  {
    if |a| == 0 {
      assert a + b == b;
    } else {
      assert (a + b)[1..] == a[1..] + b;
      NonEmptyConcat(a[1..], b);
    }
  }

  class RedisKeyBuilder {
    const prefix: string
    const tenant: Option<string>

    constructor (prefix: string, tenant: Option<string>)
      ensures this.prefix == prefix && this.tenant == tenant
    {
      this.prefix := prefix;
      this.tenant := tenant;
    }

    method Build(segments: seq<string>) returns (key: string)
      ensures key == BuildKey(prefix, tenant, segments)
    {
      var parts: seq<string> := [];
      if |prefix| > 0 {
        parts := parts + [prefix];
      }
      if tenant.Some? && |tenant.value| > 0 {
        parts := parts + [tenant.value];
      }
      ghost var head := [prefix] + (if tenant.Some? then [tenant.value] else []);
      NonEmptyConcat([prefix], if tenant.Some? then [tenant.value] else []);
      assert [prefix][1..] == [];
      assert tenant.Some? ==> [tenant.value][1..] == [];
      assert parts == NonEmpty(head);
      for i := 0 to |segments|
        invariant parts == NonEmpty(head + segments[..i])
      {
        NonEmptyConcat(head + segments[..i], [segments[i]]);
        assert head + segments[..i + 1] == head + segments[..i] + [segments[i]];
        assert [segments[i]][1..] == [];
        if |segments[i]| > 0 {
          parts := parts + [segments[i]];
        }
      }
      assert segments[..|segments|] == segments;
      return Join(parts);
    }
  }

  /** A piece no separator can be found in. */
  predicate Segment(s: string) {
    |s| > 0 && Free(s, ':')
  }

  lemma {:induction false} JoinInjective(a: seq<string>, b: seq<string>)
    requires forall i | 0 <= i < |a| :: Segment(a[i])
    requires forall i | 0 <= i < |b| :: Segment(b[i])
    requires Join(a) == Join(b)
    ensures a == b
    decreases |a|
  {
    assert |a| > 1 ==> Join(a)[|a[0]|] == ':';
    assert |b| > 1 ==> Join(b)[|b[0]|] == ':';
    if |a| > 1 && |b| > 1 {
      HeadDetermined(a[0], Join(a[1..]), b[0], Join(b[1..]), ':');
      JoinInjective(a[1..], b[1..]);
      assert a == [a[0]] + a[1..] && b == [b[0]] + b[1..];
    }
  }

  lemma AllKept(parts: seq<string>)
    requires forall i | 0 <= i < |parts| :: |parts[i]| > 0
    ensures NonEmpty(parts) == parts
  {
    if |parts| > 0 {
      AllKept(parts[1..]);
      assert parts == [parts[0]] + parts[1..];
    }
  }

  lemma JoinCons(head: string, tail: seq<string>)
    requires |tail| > 0
    ensures Join([head] + tail) == head + ":" + Join(tail)
  {
    assert ([head] + tail)[1..] == tail;
  }

  lemma BuildUnfolds(prefix: string, segments: seq<string>)
    requires |segments| > 0 && forall i | 0 <= i < |segments| :: |segments[i]| > 0
    ensures BuildKey(prefix, None, segments) == (if |prefix| > 0 then prefix + ":" else "") + Join(segments)
  {
    NonEmptyConcat([prefix], segments);
    AllKept(segments);
    assert [prefix] + [] + segments == [prefix] + segments;
    assert [prefix][1..] == [];
    JoinCons(prefix, segments);
    hide Join;
    if |prefix| > 0 {
      assert NonEmpty([prefix] + segments) == [prefix] + segments;
    } else {
      assert NonEmpty([prefix] + segments) == [] + segments == segments;
    }
  }

  /** Keys built from separator-free pieces are equal exactly when the pieces are. */
  lemma BuildDistinct(prefix: string, a: seq<string>, b: seq<string>)
    requires |a| > 0 && |b| > 0
    requires forall i | 0 <= i < |a| :: Segment(a[i])
    requires forall i | 0 <= i < |b| :: Segment(b[i])
    ensures BuildKey(prefix, None, a) == BuildKey(prefix, None, b) <==> a == b
  {
    BuildUnfolds(prefix, a);
    BuildUnfolds(prefix, b);
    if BuildKey(prefix, None, a) == BuildKey(prefix, None, b) {
      var head := if |prefix| > 0 then prefix + ":" else "";
      assert BuildKey(prefix, None, a)[|head|..] == Join(a);
      assert BuildKey(prefix, None, b)[|head|..] == Join(b);
      JoinInjective(a, b);
    }
  }
}
