/** Reconciling the plan table with Stripe's price list: cursor paging, and the two passes of the sync. */
module PlanSync {
  import opened Wrappers
  import opened BillingModel

  datatype Product = Product(id: string, name: string, deleted: bool, metadata: map<string, string>)
  datatype ProductRef = NoProduct | Unexpanded(productId: string) | Expanded(product: Product)
  datatype Price = Price(
    id: string, active: bool, recurring: bool, interval: Option<string>, product: ProductRef,
    metadata: map<string, string>)

  // ---------- Paging

  /** Ids are non-empty and different. */
  predicate Listed(all: seq<Price>) {
    && (forall i | 0 <= i < |all| :: all[i].id != "")
    && (forall i, j | 0 <= i < j < |all| :: all[i].id != all[j].id)
  }

  function After(all: seq<Price>, id: string): (n: nat)
    ensures n <= |all|
    ensures n > 0 ==> all[n - 1].id == id
  {
    if |all| == 0 then 0
    else if all[|all| - 1].id == id then |all| else After(all[..|all| - 1], id)
  }

  datatype Page = Page(data: seq<Price>, hasMore: bool)

  function Cursor(startingAfter: Option<string>): string {
    if startingAfter.Some? then startingAfter.value else ""
  }

  /** What Stripe answers: some of the next prices after the cursor, and whether any are left. How many come with a
      page is up to Stripe. */
  function ListPage(all: seq<Price>, size: string -> nat, startingAfter: Option<string>): Page {
    var cursor := Cursor(startingAfter);
    var from := if cursor != "" then After(all, cursor) else 0;
    var n := size(cursor);
    if |all| - from <= n then Page(all[from..], false) else Page(all[from..from + n], true)
  }

  lemma {:induction false} AfterAt(all: seq<Price>, k: nat)
    requires Listed(all) && k < |all|
    ensures After(all, all[k].id) == k + 1
  {
    if k < |all| - 1 {
      AfterAt(all[..|all| - 1], k);
    }
  }

  /** A page continues the list where it stands. */
  lemma PageContinues(all: seq<Price>, size: string -> nat, startingAfter: Option<string>, n: nat)
    requires n == if Cursor(startingAfter) != "" then After(all, Cursor(startingAfter)) else 0
    ensures n <= |all|
    ensures var page := ListPage(all, size, startingAfter);
            && n + |page.data| <= |all| && all[..n] + page.data == all[..n + |page.data|]
            && (!page.hasMore ==> n + |page.data| == |all|)
            && (page.hasMore ==> |page.data| == size(Cursor(startingAfter)))
  {
    hide After, Cursor;
  }

  /** The loop ends, whatever the sizes of the pages. It has every price once and in order, unless a page is empty
      although more prices are left: then it has those before that page. */
  method ListActiveRecurringPricesWithProducts(all: seq<Price>, size: string -> nat) returns (prices: seq<Price>)
    requires Listed(all)
    ensures prices <= all
    ensures prices != all ==> size(if |prices| == 0 then "" else prices[|prices| - 1].id) == 0
    ensures (forall cursor :: size(cursor) > 0) ==> prices == all
  {
    hide After, ListPage;
    prices := [];
    var startingAfter: Option<string> := None;
    while true
      invariant |prices| <= |all| && prices == all[..|prices|]
      invariant Cursor(startingAfter) == if |prices| == 0 then "" else prices[|prices| - 1].id
      invariant |prices| == (if Cursor(startingAfter) != "" then After(all, Cursor(startingAfter)) else 0)
      decreases |all| - |prices|
    {
      var page := ListPage(all, size, startingAfter);
      PageContinues(all, size, startingAfter, |prices|);
      prices := prices + page.data;
      if !page.hasMore {
        break;
      }
      if |page.data| == 0 {
        break;
      }
      AfterAt(all, |prices| - 1);
      startingAfter := Some(page.data[|page.data| - 1].id);
    }
  }

  // ---------- Recognizing a price

  /** What the sync takes from its surroundings: `Number()` with `None` for non-finite results, `trim()`, the ids
      of new rows, and the prices whose row cannot be saved, when it is written and when it is deactivated. */
  datatype Env = Env(
    number: string -> Option<real>, trim: string -> string, newId: string -> string,
    failing: set<string>, stuck: set<string>)

  const LIMIT_KEYS: seq<string> := ["referred_users", "campaigns", "seats", "leaderboard_entries", "email_sends"]

  function ActiveProduct(p: Price): Option<Product> {
    if p.product.Expanded? && !p.product.product.deleted then Some(p.product.product) else None
  }

  function RawLimit(p: Price, product: Option<Product>, key: string): Option<string> {
    if key in p.metadata then Some(p.metadata[key])
    else if product.Some? && key in product.value.metadata then Some(product.value.metadata[key])
    else None
  }

  /** The limit a price sets for a key: its own metadata first, then its product's; invalid values set none. */
  function LimitFor(env: Env, p: Price, key: string): Option<real> {
    var raw := RawLimit(p, ActiveProduct(p), key);
    if raw.None? then None
    else
      var num := env.number(raw.value);
      if num.None? || num.value < 0.0 then None else num
  }

  function LimitsOf(env: Env, p: Price, keys: seq<string>): (limits: map<string, real>)
    ensures forall key | key in limits :: limits[key] >= 0.0
  {
    if |keys| == 0 then map[]
    else
      var before := LimitsOf(env, p, keys[..|keys| - 1]);
      var key := keys[|keys| - 1];
      if LimitFor(env, p, key).Some? then before[key := LimitFor(env, p, key).value] else before
  }

  function Limits(env: Env, p: Price): map<string, real> {
    LimitsOf(env, p, LIMIT_KEYS)
  }

  predicate Recognized(env: Env, p: Price) {
    p.active && p.recurring && Limits(env, p) != map[]
  }

  /** A recognized price whose row gets saved. */
  predicate Synced(env: Env, p: Price) {
    Recognized(env, p) && p.id !in env.failing
  }

  function Snapshot(p: Price): Option<Metadata> {
    var product := ActiveProduct(p);
    var productMetadata := if product.Some? then Some(product.value.metadata) else None;
    if |p.metadata| > 0 || (productMetadata.Some? && |productMetadata.value| > 0)
    then Some(Metadata(p.metadata, productMetadata)) else None
  }

  function NameOf(env: Env, p: Price): string {
    var product := ActiveProduct(p);
    if product.Some? && |env.trim(product.value.name)| > 0 then env.trim(product.value.name) else "Stripe price " + p.id
  }

  function ProductIdOf(p: Price): Option<string> {
    if ActiveProduct(p).Some? then Some(ActiveProduct(p).value.id) else None
  }

  // ---------- The two passes

  function Updated(env: Env, row: PlanRow, p: Price): PlanRow {
    row.(name := NameOf(env, p), stripeProductId := ProductIdOf(p), interval := p.interval,
         limits := Some(Limits(env, p)), metadata := Snapshot(p), isActive := true)
  }

  function NewRow(env: Env, p: Price): PlanRow {
    PlanRow(env.newId(p.id), NameOf(env, p), Some(p.id), ProductIdOf(p), p.interval,
            Some(Limits(env, p)), None, true, false, Snapshot(p))
  }

  function RowOf(rows: seq<PlanRow>, priceId: string): (r: Option<nat>)
    ensures r.Some? ==> r.value < |rows| && rows[r.value].stripePriceId == Some(priceId)
    ensures r.None? ==> forall j | 0 <= j < |rows| :: rows[j].stripePriceId != Some(priceId)
  {
    if |rows| == 0 then None
    else
      var r := RowOf(rows[..|rows| - 1], priceId);
      if r.Some? then r else if rows[|rows| - 1].stripePriceId == Some(priceId) then Some(|rows| - 1) else None
  }

  function SyncPrice(env: Env, rows: seq<PlanRow>, p: Price): seq<PlanRow> {
    if !Synced(env, p) then rows
    else
      var i := RowOf(rows, p.id);
      if i.Some? then rows[i.value := Updated(env, rows[i.value], p)] else rows + [NewRow(env, p)]
  }

  function SyncPrices(env: Env, rows: seq<PlanRow>, ps: seq<Price>): seq<PlanRow> {
    if |ps| == 0 then rows else SyncPrice(env, SyncPrices(env, rows, ps[..|ps| - 1]), ps[|ps| - 1])
  }

  function Seen(env: Env, ps: seq<Price>): set<string> {
    if |ps| == 0 then {}
    else Seen(env, ps[..|ps| - 1]) + if Synced(env, ps[|ps| - 1]) then {ps[|ps| - 1].id} else {}
  }

  predicate Linked(row: PlanRow) {
    row.stripePriceId.Some? && row.stripePriceId.value != ""
  }

  predicate Unseen(row: PlanRow, seen: set<string>) {
    Linked(row) && row.stripePriceId.value !in seen
  }

  function Retired(row: PlanRow, seen: set<string>): PlanRow {
    if Unseen(row, seen) then row.(isActive := false) else row
  }

  /** The first row whose deactivation fails, or the number of rows. */
  function FirstStuck(rows: seq<PlanRow>, seen: set<string>, stuck: set<string>): (n: nat)
    ensures n <= |rows| && (n < |rows| ==> Unseen(rows[n], seen) && rows[n].stripePriceId.value in stuck)
    ensures forall i | 0 <= i < n :: Unseen(rows[i], seen) ==> rows[i].stripePriceId.value !in stuck
  {
    if |rows| == 0 then 0
    else
      var n := FirstStuck(rows[..|rows| - 1], seen, stuck);
      if n < |rows| - 1 then n
      else if Unseen(rows[n], seen) && rows[n].stripePriceId.value in stuck then n else |rows|
  }

  /** Rows of prices that were not seen are deactivated, unless no price was seen at all; the first one that cannot be
      saved ends the pass. */
  function Retire(rows: seq<PlanRow>, seen: set<string>, stuck: set<string>): seq<PlanRow> {
    if seen == {} then rows
    else
      seq(|rows|, i requires 0 <= i < |rows| =>
          if i < FirstStuck(rows, seen, stuck) then Retired(rows[i], seen) else rows[i])
  }

  function Sync(env: Env, rows: seq<PlanRow>, ps: seq<Price>): seq<PlanRow> {
    Retire(SyncPrices(env, rows, ps), Seen(env, ps), env.stuck)
  }

  /** The sync ends normally: no deactivation fails. */
  predicate Completes(env: Env, rows: seq<PlanRow>, ps: seq<Price>) {
    var synced := SyncPrices(env, rows, ps);
    Seen(env, ps) == {} || FirstStuck(synced, Seen(env, ps), env.stuck) == |synced|
  }

  class PlanStripeSyncService {
    var rows: seq<PlanRow>
    const env: Env

    constructor (env: Env, rows: seq<PlanRow>)
      ensures this.env == env && this.rows == rows
    {
      this.env := env;
      this.rows := rows;
    }

    method BuildLimitsFromMetadata(p: Price, product: Option<Product>) returns (limits: map<string, real>)
      requires product == ActiveProduct(p)
      ensures limits == Limits(env, p)
      ensures forall key | key in limits :: limits[key] >= 0.0
    {
      limits := map[];
      for k := 0 to |LIMIT_KEYS|
        invariant limits == LimitsOf(env, p, LIMIT_KEYS[..k])
      {
        assert LIMIT_KEYS[..k + 1][..k] == LIMIT_KEYS[..k];
        var key := LIMIT_KEYS[k];
        var rawValue := if key in p.metadata then Some(p.metadata[key])
                        else if product.Some? && key in product.value.metadata then Some(product.value.metadata[key])
                        else None;
        if rawValue.Some? {
          var num := env.number(rawValue.value);
          if num.Some? && num.value >= 0.0 {
            limits := limits[key := num.value];
          }
        }
      }
      assert LIMIT_KEYS[..|LIMIT_KEYS|] == LIMIT_KEYS;
    }

    /** `prices` is `None` when the listing failed; the sync is skipped then. A failing deactivation is thrown on. */
    method SyncFromStripe(prices: Option<seq<Price>>) returns (ok: bool)
      modifies this
      ensures rows == if prices.Some? then Sync(env, old(rows), prices.value) else old(rows)
      ensures ok == (prices.Some? ==> Completes(env, old(rows), prices.value))
    {
      if prices.None? {
        return true;
      }
      var ps := prices.value;
      var seen: set<string> := {};
      for k := 0 to |ps|
        invariant rows == SyncPrices(env, old(rows), ps[..k])
        invariant seen == Seen(env, ps[..k])
      {
        assert ps[..k + 1][..k] == ps[..k];
        var saved := SyncOne(ps[k]);
        if saved {
          seen := seen + {ps[k].id};
        }
      }
      assert ps[..|ps|] == ps;
      ok := true;
      if |seen| > 0 {
        ok := RetireUnseen(seen);
      }
    }

    /** The body of the loop over the prices. */
    method SyncOne(p: Price) returns (saved: bool)
      modifies this
      ensures saved == Synced(env, p)
      ensures rows == SyncPrice(env, old(rows), p)
    {
      if !p.active || !p.recurring {
        return false;
      }
      var product := ActiveProduct(p);
      var limits := BuildLimitsFromMetadata(p, product);
      if |limits| == 0 {
        return false;
      }
      var metadata := Snapshot(p);
      var name := NameOf(env, p);
      var found := RowOf(rows, p.id);
      if p.id in env.failing {
        return false;
      }
      var stripeProductId := if product.Some? then Some(product.value.id) else None;
      if found.None? {
        rows := rows + [PlanRow(env.newId(p.id), name, Some(p.id), stripeProductId, p.interval, Some(limits), None,
                                true, false, metadata)];
      } else {
        var plan := rows[found.value];
        plan := plan.(name := name);
        plan := plan.(stripeProductId := stripeProductId);
        plan := plan.(interval := p.interval);
        plan := plan.(limits := Some(limits));
        plan := plan.(metadata := metadata);
        plan := plan.(isActive := true);
        rows := rows[found.value := plan];
      }
      return true;
    }

    method RetireUnseen(seen: set<string>) returns (ok: bool)
      requires seen != {}
      modifies this
      ensures rows == Retire(old(rows), seen, env.stuck)
      ensures ok == (FirstStuck(old(rows), seen, env.stuck) == |old(rows)|)
    {
      ghost var stop := FirstStuck(rows, seen, env.stuck);
      hide FirstStuck;
      for i := 0 to |rows|
        invariant |rows| == |old(rows)| && i <= stop
        invariant forall j | 0 <= j < |rows| :: rows[j] == if j < i then Retired(old(rows)[j], seen) else old(rows)[j]
      {
        var plan := rows[i];
        if plan.stripePriceId.Some? && plan.stripePriceId.value != "" && plan.stripePriceId.value !in seen {
          if plan.stripePriceId.value in env.stuck {
            return false;
          }
          rows := rows[i := plan.(isActive := false)];
        }
      }
      return true;
    }
  }

  // ---------- What a sync achieves

  /** No two rows are linked to the same price. */
  predicate UniqueLinks(rows: seq<PlanRow>) {
    forall i, j | 0 <= i < j < |rows| ::
        Linked(rows[i]) && Linked(rows[j]) ==> rows[i].stripePriceId != rows[j].stripePriceId
  }

  /** The row of a price says what the price says. */
  predicate UpToDate(env: Env, rows: seq<PlanRow>, p: Price) {
    exists i | 0 <= i < |rows| :: rows[i].stripePriceId == Some(p.id) && Updated(env, rows[i], p) == rows[i]
  }

  lemma {:induction false} SeenExactly(env: Env, ps: seq<Price>, id: string)
    ensures id in Seen(env, ps) <==> exists k | 0 <= k < |ps| :: Synced(env, ps[k]) && ps[k].id == id
  {
    hide Synced;
    if |ps| > 0 {
      SeenExactly(env, ps[..|ps| - 1], id);
      if id in Seen(env, ps[..|ps| - 1]) {
        var k :| 0 <= k < |ps| - 1 && Synced(env, ps[..|ps| - 1][k]) && ps[..|ps| - 1][k].id == id;
        assert Synced(env, ps[k]) && ps[k].id == id;
      }
      if exists k | 0 <= k < |ps| :: Synced(env, ps[k]) && ps[k].id == id {
        var k :| 0 <= k < |ps| && Synced(env, ps[k]) && ps[k].id == id;
        assert k < |ps| - 1 ==> Synced(env, ps[..|ps| - 1][k]) && ps[..|ps| - 1][k].id == id;
      }
    }
  }

  /** Old rows stay in place; those linked to a price outside `touched`, and unlinked ones, stay as they are. */
  predicate Extends(before: seq<PlanRow>, after: seq<PlanRow>, touched: set<string>) {
    && |before| <= |after|
    && (forall i | 0 <= i < |before| ::
          && after[i].stripePriceId == before[i].stripePriceId
          && (before[i].stripePriceId.None? || before[i].stripePriceId.value !in touched ==> after[i] == before[i]))
    && (forall i | |before| <= i < |after| :: Linked(after[i]) && after[i].stripePriceId.value in touched)
  }

  lemma OnePrice(env: Env, rows: seq<PlanRow>, p: Price)
    requires UniqueLinks(rows) && p.id != ""
    ensures UniqueLinks(SyncPrice(env, rows, p))
    ensures Extends(rows, SyncPrice(env, rows, p), if Synced(env, p) then {p.id} else {})
    ensures Synced(env, p) ==> UpToDate(env, SyncPrice(env, rows, p), p)
  {
    hide Limits, NameOf, Snapshot, ProductIdOf, Recognized;
    var after := SyncPrice(env, rows, p);
    if Synced(env, p) {
      var i := RowOf(rows, p.id);
      var at := if i.Some? then i.value else |rows|;
      assert after[at].stripePriceId == Some(p.id) && Updated(env, after[at], p) == after[at];
    }
  }

  lemma StaysUpToDate(env: Env, rows: seq<PlanRow>, after: seq<PlanRow>, p: Price, touched: set<string>)
    requires UpToDate(env, rows, p) && Extends(rows, after, touched) && p.id !in touched
    ensures UpToDate(env, after, p)
  {
    hide Updated;
    var i :| 0 <= i < |rows| && rows[i].stripePriceId == Some(p.id) && Updated(env, rows[i], p) == rows[i];
    assert after[i] == rows[i];
  }

  lemma {:induction false} AllPrices(env: Env, rows: seq<PlanRow>, ps: seq<Price>)
    requires UniqueLinks(rows) && Listed(ps)
    ensures UniqueLinks(SyncPrices(env, rows, ps))
    ensures Extends(rows, SyncPrices(env, rows, ps), Seen(env, ps))
    ensures forall k | 0 <= k < |ps| && Synced(env, ps[k]) :: UpToDate(env, SyncPrices(env, rows, ps), ps[k])
  {
    hide SyncPrice, Synced, UpToDate, UniqueLinks;
    if |ps| > 0 {
      var n := |ps| - 1;
      AllPrices(env, rows, ps[..n]);
      var before := SyncPrices(env, rows, ps[..n]);
      OnePrice(env, before, ps[n]);
      forall k | 0 <= k < |ps| && Synced(env, ps[k]) ensures UpToDate(env, SyncPrices(env, rows, ps), ps[k]) {
        if k < n {
          assert UpToDate(env, before, ps[..n][k]);
          StaysUpToDate(env, before, SyncPrice(env, before, ps[n]), ps[k],
                        if Synced(env, ps[n]) then {ps[n].id} else {});
        }
      }
    }
  }

  /** The prices that active plans are linked to. */
  function ActivePrices(rows: seq<PlanRow>): set<string> {
    set i | 0 <= i < |rows| && Linked(rows[i]) && rows[i].isActive :: rows[i].stripePriceId.value
  }

  /** Active plans of prices that were not seen, from the first row on whose deactivation fails. */
  function LeftActive(rows: seq<PlanRow>, seen: set<string>, stuck: set<string>): set<string> {
    set i | FirstStuck(rows, seen, stuck) <= i < |rows| && Unseen(rows[i], seen) && rows[i].isActive ::
      rows[i].stripePriceId.value
  }

  lemma FirstStuckIs(rows: seq<PlanRow>, seen: set<string>, stuck: set<string>, n: nat)
    requires n < |rows| && Unseen(rows[n], seen) && rows[n].stripePriceId.value in stuck
    requires forall i | 0 <= i < n :: Unseen(rows[i], seen) ==> rows[i].stripePriceId.value !in stuck
    ensures FirstStuck(rows, seen, stuck) == n
  {
    var m := FirstStuck(rows, seen, stuck);
    hide FirstStuck;
    assert n < |rows| && (m < n || m == n || m > n);
  }

  /** The first pass moves no unseen row, and what it adds is seen. */
  lemma SameStuck(rows: seq<PlanRow>, after: seq<PlanRow>, seen: set<string>, stuck: set<string>)
    requires Extends(rows, after, seen)
    ensures FirstStuck(after, seen, stuck) == if FirstStuck(rows, seen, stuck) < |rows|
            then FirstStuck(rows, seen, stuck) else |after|
    ensures LeftActive(after, seen, stuck) == LeftActive(rows, seen, stuck)
  {
    var n, m := FirstStuck(rows, seen, stuck), FirstStuck(after, seen, stuck);
    hide FirstStuck;
    assert forall i | 0 <= i < |after| && Unseen(after[i], seen) :: i < |rows| && after[i] == rows[i];
    assert forall i | 0 <= i < |rows| && Unseen(rows[i], seen) :: after[i] == rows[i];
    if n < |rows| {
      FirstStuckIs(after, seen, stuck, n);
    }
    forall id ensures id in LeftActive(after, seen, stuck) <==> id in LeftActive(rows, seen, stuck) {
      if id in LeftActive(rows, seen, stuck) {
        var i :| n <= i < |rows| && Unseen(rows[i], seen) && rows[i].isActive && rows[i].stripePriceId.value == id;
        assert after[i] == rows[i];
      }
    }
  }

  lemma RetiredActive(rows: seq<PlanRow>, seen: set<string>, stuck: set<string>, id: string)
    requires seen != {}
    ensures id in ActivePrices(Retire(rows, seen, stuck)) <==>
            || id in LeftActive(rows, seen, stuck)
            || exists i | 0 <= i < |rows| ::
               Linked(rows[i]) && rows[i].isActive && rows[i].stripePriceId.value == id && id in seen
  {
    var after := Retire(rows, seen, stuck);
    hide FirstStuck;
    if id in ActivePrices(after) {
      var i :| 0 <= i < |after| && Linked(after[i]) && after[i].isActive && after[i].stripePriceId.value == id;
      assert Linked(rows[i]) && rows[i].isActive;
    }
    if i :| 0 <= i < |rows| && Linked(rows[i]) && rows[i].isActive && rows[i].stripePriceId.value == id && id in seen {
      assert after[i] == rows[i];
    }
    if id in LeftActive(rows, seen, stuck) {
      var i :| FirstStuck(rows, seen, stuck) <= i < |rows| && Unseen(rows[i], seen) && rows[i].isActive
          && rows[i].stripePriceId.value == id;
      assert after[i] == rows[i];
    }
  }

  lemma SameActive(env: Env, rows: seq<PlanRow>, ps: seq<Price>)
    requires UniqueLinks(rows) && Listed(ps) && Seen(env, ps) != {}
    ensures ActivePrices(Sync(env, rows, ps)) == Seen(env, ps) + LeftActive(rows, Seen(env, ps), env.stuck)
  {
    AllPrices(env, rows, ps);
    var synced, seen := SyncPrices(env, rows, ps), Seen(env, ps);
    SameStuck(rows, synced, seen, env.stuck);
    forall id ensures id in ActivePrices(Sync(env, rows, ps)) <==> id in seen + LeftActive(rows, seen, env.stuck) {
      SeenExactly(env, ps, id);
      RetiredActive(synced, seen, env.stuck, id);
      hide SyncPrices, Seen, Synced, LeftActive, Retire, ActivePrices;
      if id in seen {
        var k :| 0 <= k < |ps| && Synced(env, ps[k]) && ps[k].id == id;
        assert UpToDate(env, synced, ps[k]);
      }
    }
  }

  /** After a sync the active linked plans are the recognized prices that could be saved, and those that were active
      from the first plan on that could not be deactivated; when no price was saved, the same ones as before. */
  lemma ActiveExactly(env: Env, rows: seq<PlanRow>, ps: seq<Price>)
    requires UniqueLinks(rows) && Listed(ps)
    ensures ActivePrices(Sync(env, rows, ps)) ==
            if Seen(env, ps) != {} then Seen(env, ps) + LeftActive(rows, Seen(env, ps), env.stuck)
            else ActivePrices(rows)
  {
    if Seen(env, ps) == {} {
      NothingSeen(env, rows, ps);
    } else {
      SameActive(env, rows, ps);
    }
  }

  lemma {:induction false} NothingSeen(env: Env, rows: seq<PlanRow>, ps: seq<Price>)
    requires Seen(env, ps) == {}
    ensures SyncPrices(env, rows, ps) == rows
  {
    if |ps| > 0 {
      assert Seen(env, ps[..|ps| - 1]) == {};
      NothingSeen(env, rows, ps[..|ps| - 1]);
      SeenExactly(env, ps, ps[|ps| - 1].id);
      hide Synced;
      assert !Synced(env, ps[|ps| - 1]);
    }
  }

  /** With at least one recognized price and all saves succeeding, active linked plans and recognized prices
      correspond, and each plan says what its price says. */
  lemma SyncReconciles(env: Env, rows: seq<PlanRow>, ps: seq<Price>)
    requires UniqueLinks(rows) && Listed(ps) && env.failing == {} && env.stuck == {}
    requires exists k | 0 <= k < |ps| :: Recognized(env, ps[k])
    ensures forall id :: id in ActivePrices(Sync(env, rows, ps)) <==>
            exists k | 0 <= k < |ps| :: Recognized(env, ps[k]) && ps[k].id == id
    ensures forall k | 0 <= k < |ps| && Recognized(env, ps[k]) :: UpToDate(env, Sync(env, rows, ps), ps[k])
  {
    hide Recognized, UpToDate, UniqueLinks, Sync;
    assert forall k | 0 <= k < |ps| :: Synced(env, ps[k]) <==> Recognized(env, ps[k]);
    var k :| 0 <= k < |ps| && Recognized(env, ps[k]);
    SeenExactly(env, ps, ps[k].id);
    ActiveExactly(env, rows, ps);
    assert LeftActive(rows, Seen(env, ps), env.stuck) == {};
    hide LeftActive;
    forall id
      ensures id in ActivePrices(Sync(env, rows, ps)) <==>
              exists k | 0 <= k < |ps| :: Recognized(env, ps[k]) && ps[k].id == id
    {
      SeenExactly(env, ps, id);
    }
    forall k | 0 <= k < |ps| && Recognized(env, ps[k]) ensures UpToDate(env, Sync(env, rows, ps), ps[k]) {
      SeenExactly(env, ps, ps[k].id);
      SyncUpToDate(env, rows, ps, k);
    }
  }

  lemma SyncUpToDate(env: Env, rows: seq<PlanRow>, ps: seq<Price>, k: nat)
    requires UniqueLinks(rows) && Listed(ps) && k < |ps| && Synced(env, ps[k]) && ps[k].id in Seen(env, ps)
    ensures UpToDate(env, Sync(env, rows, ps), ps[k])
  {
    AllPrices(env, rows, ps);
    var synced := SyncPrices(env, rows, ps);
    hide Synced, Updated, SyncPrices, Seen;
    var i :| 0 <= i < |synced| && synced[i].stripePriceId == Some(ps[k].id)
        && Updated(env, synced[i], ps[k]) == synced[i];
    assert Sync(env, rows, ps)[i] == synced[i];
  }

  /** Plans without a price id, such as manual ones, come through untouched and in place. */
  lemma UnlinkedUntouched(env: Env, rows: seq<PlanRow>, ps: seq<Price>)
    requires UniqueLinks(rows) && Listed(ps)
    ensures |rows| <= |Sync(env, rows, ps)|
    ensures forall i | 0 <= i < |rows| && !Linked(rows[i]) :: Sync(env, rows, ps)[i] == rows[i]
    ensures forall i | |rows| <= i < |Sync(env, rows, ps)| :: Linked(Sync(env, rows, ps)[i])
  {
    AllPrices(env, rows, ps);
    SeenExactly(env, ps, "");
    hide SyncPrices, Seen, Synced;
  }

  lemma {:induction false} UpToDateFixed(env: Env, rows: seq<PlanRow>, ps: seq<Price>)
    requires UniqueLinks(rows) && Listed(ps)
    requires forall k | 0 <= k < |ps| && Synced(env, ps[k]) :: UpToDate(env, rows, ps[k])
    ensures SyncPrices(env, rows, ps) == rows
  {
    hide Updated, Synced;
    if |ps| > 0 {
      var n := |ps| - 1;
      assert forall k | 0 <= k < n :: ps[..n][k] == ps[k];
      UpToDateFixed(env, rows, ps[..n]);
      if Synced(env, ps[n]) {
        var i :| 0 <= i < |rows| && rows[i].stripePriceId == Some(ps[n].id) && Updated(env, rows[i], ps[n]) == rows[i];
        assert RowOf(rows, ps[n].id) == Some(i) by {
          var j := RowOf(rows, ps[n].id).value;
          assert Linked(rows[i]) && Linked(rows[j]);
        }
      }
    }
  }

  lemma RetireAgain(rows: seq<PlanRow>, seen: set<string>, stuck: set<string>)
    ensures Retire(Retire(rows, seen, stuck), seen, stuck) == Retire(rows, seen, stuck)
  {
    var once := Retire(rows, seen, stuck);
    var n := FirstStuck(rows, seen, stuck);
    hide FirstStuck;
    if seen != {} {
      assert forall i | 0 <= i < |rows| ::
        Unseen(once[i], seen) == Unseen(rows[i], seen) && once[i].stripePriceId == rows[i].stripePriceId;
      if n < |rows| {
        FirstStuckIs(once, seen, stuck, n);
      }
    }
  }

  /** A second sync of the same list changes nothing. */
  lemma SyncIdempotent(env: Env, rows: seq<PlanRow>, ps: seq<Price>)
    requires UniqueLinks(rows) && Listed(ps)
    ensures Sync(env, Sync(env, rows, ps), ps) == Sync(env, rows, ps)
  {
    AllPrices(env, rows, ps);
    var once := Sync(env, rows, ps);
    assert UniqueLinks(once) by {
      hide SyncPrices, Seen;
    }
    forall k | 0 <= k < |ps| && Synced(env, ps[k]) ensures UpToDate(env, once, ps[k]) {
      SeenExactly(env, ps, ps[k].id);
      SyncUpToDate(env, rows, ps, k);
    }
    UpToDateFixed(env, once, ps);
    hide SyncPrices, Seen, UpToDate, Synced;
    RetireAgain(SyncPrices(env, rows, ps), Seen(env, ps), env.stuck);
  }

  // ---------- What a plan row says about its price

  /** The metadata text counts as this limit: a finite number that is not negative. */
  predicate ReadsAs(env: Env, text: string, limit: real) {
    env.number(text) == Some(limit) && limit >= 0.0
  }

  /** The text under `key` that decides: the price's own, or else that of its product, if that came along and is
      not deleted. */
  predicate Decides(p: Price, key: string, text: string) {
    if key in p.metadata then p.metadata[key] == text
    else
      && p.product.Expanded? && !p.product.product.deleted
      && key in p.product.product.metadata && p.product.product.metadata[key] == text
  }

  predicate IsLimitName(key: string) {
    key == "referred_users" || key == "campaigns" || key == "seats" || key == "leaderboard_entries"
    || key == "email_sends"
  }

  /** The price sets this limit. An invalid text of its own is not made good by its product's. */
  ghost predicate SetsLimit(env: Env, p: Price, key: string, limit: real) {
    IsLimitName(key) && exists text :: Decides(p, key, text) && ReadsAs(env, text, limit)
  }

  lemma LimitForMeans(env: Env, p: Price, key: string, limit: real)
    requires IsLimitName(key)
    ensures LimitFor(env, p, key) == Some(limit) <==> SetsLimit(env, p, key, limit)
  {
    var raw := RawLimit(p, ActiveProduct(p), key);
    assert raw.Some? ==> Decides(p, key, raw.value);
    assert forall text :: Decides(p, key, text) ==> raw == Some(text);
  }

  lemma {:induction false} LimitsOfMeans(env: Env, p: Price, keys: seq<string>, key: string, limit: real)
    ensures (key in LimitsOf(env, p, keys) && LimitsOf(env, p, keys)[key] == limit) <==>
            key in keys && LimitFor(env, p, key) == Some(limit)
    decreases |keys|
  {
    hide LimitFor;
    if |keys| > 0 {
      var before, last := keys[..|keys| - 1], keys[|keys| - 1];
      LimitsOfMeans(env, p, before, key, limit);
      assert keys == before + [last];
      if last == key && LimitFor(env, p, key).Some? {
        LimitsOfMeans(env, p, before, key, LimitFor(env, p, key).value);
      }
      if key in LimitsOf(env, p, before) {
        LimitsOfMeans(env, p, before, key, LimitsOf(env, p, before)[key]);
      }
    }
  }

  /** The limits of a price are the ones it sets. */
  lemma LimitsExactly(env: Env, p: Price, key: string, limit: real)
    ensures (key in Limits(env, p) && Limits(env, p)[key] == limit) <==> SetsLimit(env, p, key, limit)
  {
    LimitsOfMeans(env, p, LIMIT_KEYS, key, limit);
    assert key in LIMIT_KEYS <==> IsLimitName(key);
    hide LimitsOf, LimitFor, SetsLimit;
    if IsLimitName(key) {
      LimitForMeans(env, p, key, limit);
    } else {
      NoLimitName(env, p, key, limit);
    }
  }

  lemma NoLimitName(env: Env, p: Price, key: string, limit: real)
    requires !IsLimitName(key)
    ensures !SetsLimit(env, p, key, limit)
  {
  }

  /** A price is recognized exactly if it is active and recurring and sets some limit. */
  lemma RecognizedExactly(env: Env, p: Price)
    ensures Recognized(env, p) <==> p.active && p.recurring && exists key, limit :: SetsLimit(env, p, key, limit)
  {
    hide Limits, SetsLimit;
    if key: string, limit: real :| SetsLimit(env, p, key, limit) {
      LimitsExactly(env, p, key, limit);
    }
    if Limits(env, p) != map[] {
      var key :| key in Limits(env, p);
      LimitsExactly(env, p, key, Limits(env, p)[key]);
    }
  }

  /** The row offers the price: its limits, the name, id and metadata of its product, or a name made of its own id
      if there is none, its interval, and its own metadata. */
  ghost predicate Offers(env: Env, row: PlanRow, p: Price) {
    && row.stripePriceId == Some(p.id) && row.isActive && row.interval == p.interval
    && row.limits.Some?
    && (forall key, limit :: key in row.limits.value && row.limits.value[key] == limit <==>
                             SetsLimit(env, p, key, limit))
    && (if p.product.Expanded? && !p.product.product.deleted
        then OffersProduct(env, row, p, p.product.product)
        else
          && row.stripeProductId == None && row.name == "Stripe price " + p.id
          && row.metadata == if p.metadata == map[] then None else Some(Metadata(p.metadata, None)))
  }

  predicate OffersProduct(env: Env, row: PlanRow, p: Price, product: Product) {
    && row.stripeProductId == Some(product.id)
    && row.name == (if env.trim(product.name) == "" then "Stripe price " + p.id else env.trim(product.name))
    && row.metadata == if p.metadata == map[] && product.metadata == map[] then None
                       else Some(Metadata(p.metadata, Some(product.metadata)))
  }

  lemma UpdatedOffers(env: Env, row: PlanRow, p: Price)
    requires row.stripePriceId == Some(p.id)
    ensures Offers(env, Updated(env, row, p), p)
    ensures row.(name := "", stripeProductId := None, interval := None, limits := None, metadata := None,
                 isActive := true)
            == Updated(env, row, p).(name := "", stripeProductId := None, interval := None, limits := None,
                                     metadata := None)
  {
    forall key, limit
      ensures key in Limits(env, p) && Limits(env, p)[key] == limit <==> SetsLimit(env, p, key, limit)
    {
      LimitsExactly(env, p, key, limit);
    }
    hide Limits, SetsLimit;
    assert p.metadata == map[] <==> |p.metadata| == 0;
  }

  /** Some row offers the price. */
  ghost predicate Offered(env: Env, rows: seq<PlanRow>, p: Price) {
    exists i | 0 <= i < |rows| :: Offers(env, rows[i], p)
  }

  /** After a sync, every recognized price that could be saved is offered by a row, whatever happened to the
      others. */
  lemma SyncOffers(env: Env, rows: seq<PlanRow>, ps: seq<Price>)
    requires UniqueLinks(rows) && Listed(ps)
    ensures forall k | 0 <= k < |ps| && Recognized(env, ps[k]) && ps[k].id !in env.failing ::
              Offered(env, Sync(env, rows, ps), ps[k])
  {
    hide Recognized, Sync, Updated, Offers, Seen;
    forall k | 0 <= k < |ps| && Recognized(env, ps[k]) && ps[k].id !in env.failing
      ensures Offered(env, Sync(env, rows, ps), ps[k])
    {
      assert Synced(env, ps[k]);
      SeenExactly(env, ps, ps[k].id);
      SyncUpToDate(env, rows, ps, k);
      var after := Sync(env, rows, ps);
      var i :| 0 <= i < |after| && after[i].stripePriceId == Some(ps[k].id)
          && Updated(env, after[i], ps[k]) == after[i];
      UpdatedOffers(env, after[i], ps[k]);
    }
  }

  /** What no sync changes in a row: its id, its price, its tenant, and whether it is billed by hand. */
  predicate SameIdentity(a: PlanRow, b: PlanRow) {
    a.id == b.id && a.stripePriceId == b.stripePriceId && a.tenantId == b.tenantId
    && a.manualInvoicing == b.manualInvoicing
  }

  lemma {:induction false} SyncPricesKeepIdentity(env: Env, rows: seq<PlanRow>, ps: seq<Price>)
    ensures |rows| <= |SyncPrices(env, rows, ps)|
    ensures forall i | 0 <= i < |rows| :: SameIdentity(rows[i], SyncPrices(env, rows, ps)[i])
    ensures forall i | |rows| <= i < |SyncPrices(env, rows, ps)| :: AddedFor(env, SyncPrices(env, rows, ps)[i])
  {
    hide Limits, NameOf, Snapshot, ProductIdOf, Recognized;
    if |ps| > 0 {
      SyncPricesKeepIdentity(env, rows, ps[..|ps| - 1]);
      hide SyncPrices;
    }
  }

  /** An added row belongs to no tenant and is billed by Stripe. */
  predicate AddedFor(env: Env, row: PlanRow) {
    row.stripePriceId.Some? && row.id == env.newId(row.stripePriceId.value) && row.tenantId == None
    && !row.manualInvoicing
  }

  /** Rows are added at the end and never removed, and the identity of a row never changes. A row whose price was
      not seen is at most deactivated. */
  lemma SyncKeepsIdentity(env: Env, rows: seq<PlanRow>, ps: seq<Price>)
    requires UniqueLinks(rows) && Listed(ps)
    ensures var after := Sync(env, rows, ps);
            && |rows| <= |after|
            && (forall i | 0 <= i < |rows| :: SameIdentity(rows[i], after[i]))
            && (forall i | |rows| <= i < |after| :: AddedFor(env, after[i]))
            && forall i | 0 <= i < |rows| && Unseen(rows[i], Seen(env, ps)) ::
                 after[i] == rows[i] || after[i] == rows[i].(isActive := false)
  {
    SyncPricesKeepIdentity(env, rows, ps);
    AllPrices(env, rows, ps);
    hide SyncPrices, Seen, FirstStuck;
  }
}
