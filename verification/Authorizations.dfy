/** Rows of the authorizations, draws and settlements tables, and what the capacity
    queries of capacity_enforcement.js compute over them. */
module Authorizations {
  import opened TextOrder
  import opened Wrappers

  const CAPACITY_CURRENCY := "USDC"

  datatype AuthState = Active | Revoked

  datatype Auth = Auth(
    id: string,
    principal: string,
    fundingSource: string,
    signer: string,
    currency: string,
    cap: int,
    consumed: int,
    validAfter: int,
    validBefore: int,
    state: AuthState,
    version: nat)

  /** What one call asks of the authorization layer, with the clock reading it captured.
      `only` targets a single row. */
  datatype Ask = Ask(principal: string, now: int, cost: nat, only: Option<string>)

  datatype Denial =
    | NoAuthorization
    | AuthorizationRevoked
    | AuthorizationExpired
    | InsufficientCapacity
    | PrepaidDenial(code: string)

  predicate InScope(a: Auth, ask: Ask)
  {
    a.principal == ask.principal && (ask.only == None || ask.only == Some(a.id))
  }

  /** Active, in the capacity currency, and inside its validity window at the captured time. */
  predicate Usable(a: Auth, now: int)
  {
    a.state == Active && a.currency == CAPACITY_CURRENCY && a.validAfter <= now <= a.validBefore
  }

  /** A row the capacity queries count for this call. */
  predicate Counted(a: Auth, ask: Ask)
  {
    InScope(a, ask) && Usable(a, ask.now)
  }

  function Left(a: Auth): int
  {
    a.cap - a.consumed
  }

  predicate Drawable(a: Auth, ask: Ask)
  {
    Counted(a, ask) && Left(a) >= ask.cost
  }

  /** What a caller may rely on of a row that is counted for a call, in terms of its columns. */
  ghost predicate InForce(a: Auth, principal: string, now: int, only: Option<string>)
  {
    && a.principal == principal && (only.Some? ==> a.id == only.value)
    && a.state == Active && a.currency == "USDC"
    && a.validAfter <= now && now <= a.validBefore
  }

  /** And of a row that can be drawn on: after the draw it is still within its cap. */
  ghost predicate MayBearCost(a: Auth, ask: Ask)
  {
    InForce(a, ask.principal, ask.now, ask.only) && a.consumed + ask.cost <= a.cap
  }

  lemma {:induction false} ColumnsExact(a: Auth, ask: Ask)
    ensures Counted(a, ask) <==> InForce(a, ask.principal, ask.now, ask.only)
    ensures Drawable(a, ask) <==> MayBearCost(a, ask)
  {
  }

  /** Draw order: soonest expiry first, ties by id. */
  predicate Earlier(a: Auth, b: Auth)
  {
    a.validBefore < b.validBefore || (a.validBefore == b.validBefore && Below(a.id, b.id))
  }

  lemma {:induction false} EarlierTransitive(a: Auth, b: Auth, c: Auth)
    requires Earlier(a, b) && Earlier(b, c)
    ensures Earlier(a, c)
  {
    if a.validBefore == b.validBefore == c.validBefore {
      BelowTransitive(a.id, b.id, c.id);
    }
  }

  lemma {:induction false} EarlierTotal(a: Auth, b: Auth)
    requires a.id != b.id
    ensures Earlier(a, b) <==> !Earlier(b, a)
  {
    BelowTrichotomy(a.id, b.id);
    BelowTrichotomy(b.id, a.id);
  }

  ghost predicate DistinctIds(rows: seq<Auth>)
  {
    forall i, j :: 0 <= i < j < |rows| ==> rows[i].id != rows[j].id
  }

  // ---------------------------------------------------------------- aggregates

  function Count(rows: seq<Auth>, p: Auth -> bool): nat
  {
    if rows == [] then 0
    else Count(rows[..|rows| - 1], p) + if p(rows[|rows| - 1]) then 1 else 0
  }

  lemma {:induction false} CountZero(rows: seq<Auth>, p: Auth -> bool)
    ensures Count(rows, p) == 0 <==> forall i :: 0 <= i < |rows| ==> !p(rows[i])
  {
    if rows != [] {
      var n := |rows| - 1;
      CountZero(rows[..n], p);
      assert forall i :: 0 <= i < n ==> rows[..n][i] == rows[i];
    }
  }

  /** COALESCE(sum(cap - consumed) FILTER (usable), 0) over the rows in scope. */
  function Available(rows: seq<Auth>, ask: Ask): int
  {
    if rows == [] then 0
    else
      var a := rows[|rows| - 1];
      Available(rows[..|rows| - 1], ask) + if Counted(a, ask) then Left(a) else 0
  }

  // ---------------------------------------------------------------- selection

  predicate Candidate(rows: seq<Auth>, ask: Ask, locked: set<nat>, i: nat)
    requires i < |rows|
  {
    i !in locked && Drawable(rows[i], ask)
  }

  /** No candidate among the first n rows precedes row k in draw order. */
  ghost predicate NonePrecedes(rows: seq<Auth>, ask: Ask, locked: set<nat>, n: nat, k: nat)
    requires n <= |rows| && k < |rows|
  {
    forall i: nat :: i < n && Candidate(rows, ask, locked, i) ==> !Earlier(rows[i], rows[k])
  }

  lemma {:induction false} NewLeast(rows: seq<Auth>, ask: Ask, locked: set<nat>, n: nat, k: nat)
    requires n < |rows| && k < n
    requires NonePrecedes(rows, ask, locked, n, k) && Earlier(rows[n], rows[k])
    ensures NonePrecedes(rows, ask, locked, n, n)
  {
    forall i: nat | i < n && Candidate(rows, ask, locked, i) && Earlier(rows[i], rows[n])
      ensures false
    {
      EarlierTransitive(rows[i], rows[n], rows[k]);
    }
  }

  /** ORDER BY valid_before, id LIMIT 1 FOR UPDATE SKIP LOCKED, over the first n rows:
      no candidate precedes the chosen one, and none is missed. */
  function SelectUpTo(rows: seq<Auth>, ask: Ask, locked: set<nat>, n: nat): (r: Option<nat>)
    requires n <= |rows|
    ensures r.None? ==> forall i: nat :: i < n ==> !Candidate(rows, ask, locked, i)
    ensures r.Some? ==> r.value < n && Candidate(rows, ask, locked, r.value)
    ensures r.Some? ==> NonePrecedes(rows, ask, locked, n, r.value)
  {
    if n == 0 then None
    else
      BelowTrichotomy(rows[n - 1].id, rows[n - 1].id);
      var best := SelectUpTo(rows, ask, locked, n - 1);
      if !Candidate(rows, ask, locked, n - 1) then best
      else if best.None? then Some(n - 1)
      else if Earlier(rows[n - 1], rows[best.value]) then
        NewLeast(rows, ask, locked, n - 1, best.value);
        Some(n - 1)
      else best
  }

  function Select(rows: seq<Auth>, ask: Ask, locked: set<nat>): (r: Option<nat>)
    ensures r.None? <==> forall i: nat :: i < |rows| ==> !Candidate(rows, ask, locked, i)
    ensures r.Some? ==> r.value < |rows| && Candidate(rows, ask, locked, r.value)
    ensures r.Some? ==> NonePrecedes(rows, ask, locked, |rows|, r.value)
  {
    SelectUpTo(rows, ask, locked, |rows|)
  }

  // ---------------------------------------------------------------- entitlement, capacity

  /** None when entitled, otherwise the refusal, from the three counts of the one query. */
  function CheckEntitlement(rows: seq<Auth>, principal: Option<string>, now: int, only: Option<string>): Option<Denial>
  {
    if principal.None? then Some(NoAuthorization)
    else
      var ask := Ask(principal.value, now, 0, only);
      if Count(rows, a => InScope(a, ask) && a.state == Active) == 0 then
        if Count(rows, a => InScope(a, ask) && a.state != Active) > 0 then Some(AuthorizationRevoked)
        else Some(NoAuthorization)
      else if Count(rows, a => InScope(a, ask) && Usable(a, now)) == 0 then Some(AuthorizationExpired)
      else None
  }

  ghost predicate BelongsTo(a: Auth, ask: Ask)
  {
    a.principal == ask.principal && (ask.only.Some? ==> a.id == ask.only.value)
  }

  /** The four answers are exhaustive and mutually exclusive over all row sets, each with its own cause. */
  lemma {:induction false} EntitlementExact(rows: seq<Auth>, principal: Option<string>, ask: Ask)
    requires principal.Some? ==> principal.value == ask.principal
    ensures var r := CheckEntitlement(rows, principal, ask.now, ask.only);
      && (r == Some(NoAuthorization) <==> principal.None? || forall i :: 0 <= i < |rows| ==> !BelongsTo(rows[i], ask))
      && (r == Some(AuthorizationRevoked) <==>
          && principal.Some?
          && (exists i :: 0 <= i < |rows| && BelongsTo(rows[i], ask))
          && (forall i :: 0 <= i < |rows| && BelongsTo(rows[i], ask) ==> rows[i].state == Revoked))
      && (r == Some(AuthorizationExpired) <==>
          && principal.Some?
          && (exists i :: 0 <= i < |rows| && BelongsTo(rows[i], ask) && rows[i].state == Active)
          && (forall i :: 0 <= i < |rows| ==> !InForce(rows[i], ask.principal, ask.now, ask.only)))
      && (r == None <==>
          principal.Some? && exists i :: 0 <= i < |rows| && InForce(rows[i], ask.principal, ask.now, ask.only))
  {
    if principal.Some? {
      var q := Ask(principal.value, ask.now, 0, ask.only);
      assert forall a: Auth :: InScope(a, q) == InScope(a, ask);
      CountZero(rows, a => InScope(a, q) && a.state == Active);
      CountZero(rows, a => InScope(a, q) && a.state != Active);
      CountZero(rows, a => InScope(a, q) && Usable(a, ask.now));
    }
  }

  /** Entitlement first, then the summed remaining capacity against the cost. None means allow. */
  function Classify(rows: seq<Auth>, principal: Option<string>, now: int, cost: nat, only: Option<string>)
    : Option<Denial>
  {
    var refusal := CheckEntitlement(rows, principal, now, only);
    if refusal.Some? then refusal
    else if principal.Some? && Available(rows, Ask(principal.value, now, cost, only)) >= cost then None
    else Some(InsufficientCapacity)
  }

  /** A row with enough left on its own makes the sum suffice, provided no row is overdrawn. */
  lemma {:induction false} AvailableCoversRow(rows: seq<Auth>, ask: Ask, k: nat)
    requires k < |rows| && Counted(rows[k], ask)
    requires forall i :: 0 <= i < |rows| ==> rows[i].consumed <= rows[i].cap
    ensures Available(rows, ask) >= Left(rows[k])
  {
    var n := |rows| - 1;
    if k == n {
      AvailableNonNegative(rows[..n], ask);
    } else {
      assert rows[..n][k] == rows[k];
      AvailableCoversRow(rows[..n], ask, k);
    }
  }

  lemma {:induction false} AvailableNonNegative(rows: seq<Auth>, ask: Ask)
    requires forall i :: 0 <= i < |rows| ==> rows[i].consumed <= rows[i].cap
    ensures Available(rows, ask) >= 0
  {
    if rows != [] {
      AvailableNonNegative(rows[..|rows| - 1], ask);
    }
  }

  /** With at most one usable row the sum is at most what that one row has left. */
  lemma {:induction false} AvailableOfOne(rows: seq<Auth>, ask: Ask, k: nat)
    ensures (forall i :: 0 <= i < |rows| && Counted(rows[i], ask) ==> i == k) ==>
      Available(rows, ask) == (if k < |rows| && Counted(rows[k], ask) then Left(rows[k]) else 0)
  {
    if rows != [] {
      var n := |rows| - 1;
      assert forall i :: 0 <= i < n ==> rows[..n][i] == rows[i];
      AvailableOfOne(rows[..n], ask, k);
    }
  }

  /** The summed read and the single-row draw disagree only when the remaining capacity is
      spread over at least two usable rows, each below the cost. */
  lemma {:induction false} SumWithoutRowIsSplit(rows: seq<Auth>, ask: Ask)
    requires ask.cost >= 1 && Available(rows, ask) >= ask.cost
    requires Select(rows, ask, {}) == None
    ensures exists i: nat, j: nat :: i < j < |rows| && SplitOver(rows[i], rows[j], ask)
  {
    assert forall i: nat :: i < |rows| ==> !Candidate(rows, ask, {}, i);
    AvailableOfOne(rows, ask, |rows|);
    var k: nat :| k < |rows| && Counted(rows[k], ask);
    assert !Candidate(rows, ask, {}, k);
    AvailableOfOne(rows, ask, k);
    var m: nat :| m < |rows| && Counted(rows[m], ask) && m != k;
    assert !Candidate(rows, ask, {}, m);
    assert if k < m then SplitOver(rows[k], rows[m], ask) else SplitOver(rows[m], rows[k], ask);
  }

  ghost predicate SplitOver(a: Auth, b: Auth, ask: Ask)
  {
    Counted(a, ask) && Counted(b, ask) && Left(a) < ask.cost && Left(b) < ask.cost
  }

  // ---------------------------------------------------------------- draws and settlements

  /** The state values of a draw row; only "rejected" matters to revocation. */
  datatype DrawState = Settling | Settled | Rejected | Failed

  datatype Draw = Draw(key: string, principal: string, authorization: string, fundingSource: string, amount: nat,
      state: DrawState)

  datatype Settlement = Settlement(drawId: string)

  function DrawId(key: string): string
  {
    "draw_" + key
  }

  predicate HasKey(draws: seq<Draw>, key: string)
  {
    exists j :: 0 <= j < |draws| && draws[j].key == key
  }

  predicate HasSettlement(settlements: seq<Settlement>, drawId: string)
  {
    exists j :: 0 <= j < |settlements| && settlements[j].drawId == drawId
  }

  /** A live draw: one that is not rejected blocks revocation. */
  predicate HasLiveDraw(draws: seq<Draw>, id: string)
  {
    exists j :: 0 <= j < |draws| && draws[j].authorization == id && draws[j].state != Rejected
  }

  /** Sum of the draws recorded against one authorization. */
  function DrawnOn(draws: seq<Draw>, id: string): nat
  {
    if draws == [] then 0
    else
      var d := draws[|draws| - 1];
      DrawnOn(draws[..|draws| - 1], id) + if d.authorization == id then d.amount else 0
  }

  lemma {:induction false} DrawnOnAppend(draws: seq<Draw>, d: Draw, id: string)
    ensures DrawnOn(draws + [d], id) == DrawnOn(draws, id) + if d.authorization == id then d.amount else 0
  {
    assert (draws + [d])[..|draws|] == draws;
  }

  /** Every draw has exactly one settlement, at its own position, and every settlement its draw. */
  ghost predicate Paired(draws: seq<Draw>, settlements: seq<Settlement>)
  {
    && |draws| == |settlements|
    && (forall j :: 0 <= j < |draws| ==> settlements[j].drawId == DrawId(draws[j].key))
    && (forall i, j :: 0 <= i < j < |draws| ==> draws[i].key != draws[j].key)
  }

  datatype Tables = Tables(rows: seq<Auth>, draws: seq<Draw>, settlements: seq<Settlement>, accounts: set<string>)

  ghost predicate Sound(t: Tables)
  {
    && DistinctIds(t.rows)
    && (forall i :: 0 <= i < |t.rows| ==> 0 <= t.rows[i].consumed <= t.rows[i].cap)
    && Paired(t.draws, t.settlements)
  }

  function NewDraw(a: Auth, ask: Ask, key: string): Draw
  {
    Draw(key, ask.principal, a.id, a.fundingSource, ask.cost, Settling)
  }

  /** A draw of zero breaks the table's amount check; a principal without a capacity account breaks the lookup. */
  predicate DrawInsertable(t: Tables, ask: Ask)
  {
    ask.principal in t.accounts && ask.cost > 0
  }

  function AddDraw(draws: seq<Draw>, d: Draw): seq<Draw>
  {
    if HasKey(draws, d.key) then draws else draws + [d]
  }

  function AddSettlement(settlements: seq<Settlement>, drawId: string): seq<Settlement>
  {
    if HasSettlement(settlements, drawId) then settlements else settlements + [Settlement(drawId)]
  }

  /** Repeating a key changes neither table; a new key extends both by its own pair. */
  lemma {:induction false} AddKeepsPairs(draws: seq<Draw>, settlements: seq<Settlement>, d: Draw)
    requires Paired(draws, settlements)
    ensures Paired(AddDraw(draws, d), AddSettlement(settlements, DrawId(d.key)))
    ensures HasKey(draws, d.key) <==> HasSettlement(settlements, DrawId(d.key))
  {
    DrawIdInjective();
    if HasKey(draws, d.key) {
      var j :| 0 <= j < |draws| && draws[j].key == d.key;
      assert settlements[j].drawId == DrawId(d.key);
    }
  }

  lemma {:induction false} DrawIdInjective()
    ensures forall a, b :: DrawId(a) == DrawId(b) ==> a == b
  {
    forall a, b | DrawId(a) == DrawId(b)
      ensures a == b
    {
      assert DrawId(a)[5..] == a && DrawId(b)[5..] == b;
    }
  }

  function Debit(rows: seq<Auth>, k: nat, cost: nat): seq<Auth>
    requires k < |rows|
  {
    rows[k := rows[k].(consumed := rows[k].consumed + cost)]
  }
}
