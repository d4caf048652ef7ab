/** Closing an epoch: the revenue split into earnings rows, inserted all or not at all under the earnings
    table's primary key (epoch, role, payee), and the reward posting. */
module EpochFinalization {
  import opened Wrappers
  import opened OpsTables

  const PLATFORM_TREASURY: string := "PLATFORM_TREASURY"
  const DIST_LCO_POOL: string := "DIST_LCO_POOL"
  const DIST_INF_POOL: string := "DIST_INF_POOL"
  const DAO_POOL: string := "DAO_POOL"
  const INFRA_RESERVE_POOL: string := "INFRA_RESERVE_POOL"

  datatype NodeUptime = NodeUptime(wallet: string, uptime: nat, managed: bool)

  function TotalUptime(nodes: seq<NodeUptime>): nat
  {
    if nodes == [] then 0 else TotalUptime(nodes[..|nodes| - 1]) + nodes[|nodes| - 1].uptime
  }

  function Share(n: NodeUptime, total: nat, pool: real): real
    requires total > 0
  {
    (n.uptime as real / total as real) * pool
  }

  /** One node's rows: a managed node gives up a tenth to the reserve, and a zero share writes no operator row. */
  function RowsFor(id: nat, n: NodeUptime, share: real): seq<Earning>
  {
    var deduction := if n.managed then share * 0.10 else 0.0;
    var net := share - deduction;
    (if n.managed then [Earning(id, InfraReserve, INFRA_RESERVE_POOL, deduction)] else []) +
    (if net > 0.0 then [Earning(id, NodeOperator, n.wallet, net)] else [])
  }

  function NodeRows(id: nat, nodes: seq<NodeUptime>, total: nat, pool: real): seq<Earning>
    requires total > 0
  {
    if nodes == [] then []
    else
      var n := nodes[|nodes| - 1];
      NodeRows(id, nodes[..|nodes| - 1], total, pool) + RowsFor(id, n, Share(n, total, pool))
  }

  /** The platform's and the distribution branch's rows. */
  function HeadRows(id: nat, revenue: real, hasDistributors: bool): seq<Earning>
  {
    var distro := revenue * 0.20;
    [Earning(id, Platform, PLATFORM_TREASURY, revenue * 0.30)] +
    if hasDistributors then
      [Earning(id, DistributorLco, DIST_LCO_POOL, distro * 0.60),
        Earning(id, DistributorInfluencer, DIST_INF_POOL, distro * 0.40)]
    else [Earning(id, DistributionPool, DAO_POOL, distro)]
  }

  function EarningRows(id: nat, revenue: real, hasDistributors: bool, nodes: seq<NodeUptime>): seq<Earning>
  {
    if revenue <= 0.0 then []
    else if TotalUptime(nodes) == 0 then HeadRows(id, revenue, hasDistributors)
    else HeadRows(id, revenue, hasDistributors) + NodeRows(id, nodes, TotalUptime(nodes), revenue * 0.50)
  }

  // ---------------------------------------------------------------- inserting

  predicate HasRow(rows: seq<Earning>, e: Earning)
  {
    exists i :: 0 <= i < |rows| && rows[i].epoch == e.epoch && rows[i].role == e.role && rows[i].payee == e.payee
  }

  /** Insert the rows one by one; the transaction fails on a key already present, or where the database faults. */
  function InsertAll(earnings: seq<Earning>, rows: seq<Earning>, fault: Option<nat>): Option<seq<Earning>>
  {
    if rows == [] then Some(earnings)
    else
      var n := |rows| - 1;
      var before := InsertAll(earnings, rows[..n], fault);
      if before.None? || fault == Some(n) || HasRow(before.value, rows[n]) then None
      else Some(before.value + [rows[n]])
  }

  lemma {:induction false} InsertAllAppends(earnings: seq<Earning>, rows: seq<Earning>, fault: Option<nat>)
    ensures InsertAll(earnings, rows, fault).Some? ==> InsertAll(earnings, rows, fault).value == earnings + rows
  {
    if rows == [] {
      assert earnings + rows == earnings;
    } else {
      var n := |rows| - 1;
      InsertAllAppends(earnings, rows[..n], fault);
      assert earnings + rows == earnings + rows[..n] + [rows[n]];
    }
  }

  lemma {:induction false} FailedStaysFailed(earnings: seq<Earning>, a: seq<Earning>, b: seq<Earning>,
      fault: Option<nat>)
    requires InsertAll(earnings, a, fault).None?
    ensures InsertAll(earnings, a + b, fault).None?
  {
    if b == [] {
      assert a + b == a;
    } else {
      var n := |b| - 1;
      FailedStaysFailed(earnings, a, b[..n], fault);
      assert (a + b)[..|a| + n] == a + b[..n];
    }
  }

  ghost predicate DistinctKeys(rows: seq<Earning>)
  {
    forall i, j :: 0 <= i < j < |rows| ==>
      !(rows[i].epoch == rows[j].epoch && rows[i].role == rows[j].role && rows[i].payee == rows[j].payee)
  }

  /** The database does not fault within the first n inserts. */
  predicate Faultless(fault: Option<nat>, n: nat)
  {
    fault.None? || fault.value >= n
  }

  /** For an epoch that has no earnings yet the inserts succeed exactly when the rows' keys differ and no insert
      faults. */
  lemma {:induction false} InsertsExactly(earnings: seq<Earning>, rows: seq<Earning>, id: nat, fault: Option<nat>)
    requires forall i :: 0 <= i < |earnings| ==> earnings[i].epoch != id
    requires forall i :: 0 <= i < |rows| ==> rows[i].epoch == id
    ensures InsertAll(earnings, rows, fault).Some? <==> DistinctKeys(rows) && Faultless(fault, |rows|)
  {
    if rows != [] {
      var n := |rows| - 1;
      InsertsExactly(earnings, rows[..n], id, fault);
      InsertAllAppends(earnings, rows[..n], fault);
      OldKeysApart(earnings, rows[..n], rows[n], id);
      assert rows == rows[..n] + [rows[n]];
      DistinctConcat(rows[..n], [rows[n]]);
    }
  }

  lemma {:induction false} OldKeysApart(earnings: seq<Earning>, rows: seq<Earning>, e: Earning, id: nat)
    requires e.epoch == id && forall i :: 0 <= i < |earnings| ==> earnings[i].epoch != id
    ensures HasRow(earnings + rows, e) <==> HasRow(rows, e)
  {
    HasRowConcat(earnings, rows, e);
  }

  lemma {:induction false} HasRowConcat(a: seq<Earning>, b: seq<Earning>, e: Earning)
    ensures HasRow(a + b, e) <==> HasRow(a, e) || HasRow(b, e)
  {
    if HasRow(a, e) {
      var i :| 0 <= i < |a| && a[i].epoch == e.epoch && a[i].role == e.role && a[i].payee == e.payee;
      assert (a + b)[i] == a[i];
    }
    if HasRow(b, e) {
      var i :| 0 <= i < |b| && b[i].epoch == e.epoch && b[i].role == e.role && b[i].payee == e.payee;
      assert (a + b)[|a| + i] == b[i];
    }
  }

  /** No row of b has the key of a row of a. */
  ghost predicate KeysApart(a: seq<Earning>, b: seq<Earning>)
  {
    forall j :: 0 <= j < |b| ==> !HasRow(a, b[j])
  }

  lemma {:induction false} DistinctConcat(a: seq<Earning>, b: seq<Earning>)
    ensures DistinctKeys(a + b) <==> DistinctKeys(a) && DistinctKeys(b) && KeysApart(a, b)
  {
    var all := a + b;
    if DistinctKeys(all) {
      DistinctParts(a, b);
    }
    if DistinctKeys(a) && DistinctKeys(b) && KeysApart(a, b) {
      forall i, j | 0 <= i < j < |all|
        ensures !(all[i].epoch == all[j].epoch && all[i].role == all[j].role && all[i].payee == all[j].payee)
      {
        if i < |a| <= j {
          assert !HasRow(a, b[j - |a|]);
        }
      }
    }
  }

  lemma {:induction false} DistinctParts(a: seq<Earning>, b: seq<Earning>)
    requires DistinctKeys(a + b)
    ensures DistinctKeys(a) && DistinctKeys(b) && KeysApart(a, b)
  {
    var all := a + b;
    assert forall i :: 0 <= i < |a| ==> all[i] == a[i];
    assert forall j :: 0 <= j < |b| ==> all[|a| + j] == b[j];
  }

  // ---------------------------------------------------------------- conservation

  lemma {:induction false} RowsForSum(id: nat, n: NodeUptime, share: real)
    requires share >= 0.0
    ensures Earned(RowsFor(id, n, share), id) == share
  {
    var deduction := if n.managed then share * 0.10 else 0.0;
    var net := share - deduction;
    var a: seq<Earning> := if n.managed then [Earning(id, InfraReserve, INFRA_RESERVE_POOL, deduction)] else [];
    var b: seq<Earning> := if net > 0.0 then [Earning(id, NodeOperator, n.wallet, net)] else [];
    assert a != [] ==> a[..0] == [];
    assert b != [] ==> b[..0] == [];
    EarnedConcat(a, b, id);
  }

  lemma {:induction false} OneNodeMore(id: nat, nodes: seq<NodeUptime>, total: nat, pool: real, share: real)
    requires total > 0 && nodes != [] && share == Share(nodes[|nodes| - 1], total, pool) && share >= 0.0
    ensures Earned(NodeRows(id, nodes, total, pool), id) ==
      Earned(NodeRows(id, nodes[..|nodes| - 1], total, pool), id) + share
  {
    var k := |nodes| - 1;
    RowsForSum(id, nodes[k], share);
    EarnedConcat(NodeRows(id, nodes[..k], total, pool), RowsFor(id, nodes[k], share), id);
  }

  function Shares(nodes: seq<NodeUptime>, total: nat, pool: real): real
    requires total > 0
  {
    if nodes == [] then 0.0 else Shares(nodes[..|nodes| - 1], total, pool) + Share(nodes[|nodes| - 1], total, pool)
  }

  lemma {:induction false} NodeRowsSum(id: nat, nodes: seq<NodeUptime>, total: nat, pool: real)
    requires total > 0 && pool > 0.0
    ensures Earned(NodeRows(id, nodes, total, pool), id) == Shares(nodes, total, pool)
  {
    if nodes != [] {
      var k := |nodes| - 1;
      NodeRowsSum(id, nodes[..k], total, pool);
      ShareExact(nodes[k], total, pool);
      OneNodeMore(id, nodes, total, pool, Share(nodes[k], total, pool));
    }
  }

  lemma {:induction false} AddProducts(a: real, b: real, t: real, u: nat, v: nat, pool: real)
    requires a * t == u as real * pool && b * t == v as real * pool
    ensures (a + b) * t == (u + v) as real * pool
  {
    assert (u + v) as real == u as real + v as real;
  }

  lemma {:induction false} OneShareMore(rest: real, uptime: nat, n: NodeUptime, total: nat, pool: real)
    requires total > 0 && pool > 0.0 && rest * total as real == uptime as real * pool
    ensures (rest + Share(n, total, pool)) * total as real == (uptime + n.uptime) as real * pool
  {
    ShareExact(n, total, pool);
    AddProducts(rest, Share(n, total, pool), total as real, uptime, n.uptime, pool);
  }

  lemma {:induction false} SharesProportional(nodes: seq<NodeUptime>, total: nat, pool: real)
    requires total > 0 && pool > 0.0
    ensures Shares(nodes, total, pool) * total as real == TotalUptime(nodes) as real * pool
  {
    if nodes != [] {
      var k := |nodes| - 1;
      SharesProportional(nodes[..k], total, pool);
      OneShareMore(Shares(nodes[..k], total, pool), TotalUptime(nodes[..k]), nodes[k], total, pool);
    }
  }

  lemma {:induction false} Cancel(a: real, b: real, t: nat, u: nat)
    requires t == u > 0 && a * t as real == u as real * b
    ensures a == b
  {
    var r := t as real;
    assert (a - b) * r == 0.0;
    assert a - b == 0.0 / r;
  }

  lemma {:induction false} SharesTakePool(nodes: seq<NodeUptime>, pool: real)
    requires TotalUptime(nodes) > 0 && pool > 0.0
    ensures Shares(nodes, TotalUptime(nodes), pool) == pool
  {
    var total := TotalUptime(nodes);
    SharesProportional(nodes, total, pool);
    Cancel(Shares(nodes, total, pool), pool, total, TotalUptime(nodes));
  }

  /** The nodes' rows are the whole pool. */
  lemma {:induction false} NodesTakePool(id: nat, nodes: seq<NodeUptime>, pool: real)
    requires TotalUptime(nodes) > 0 && pool > 0.0
    ensures Earned(NodeRows(id, nodes, TotalUptime(nodes), pool), id) == pool
  {
    NodeRowsSum(id, nodes, TotalUptime(nodes), pool);
    SharesTakePool(nodes, pool);
  }

  lemma {:induction false} HeadRowsSum(id: nat, revenue: real, hasDistributors: bool)
    ensures Earned(HeadRows(id, revenue, hasDistributors), id) == revenue * 0.50
  {
    var rows := HeadRows(id, revenue, hasDistributors);
    EarnedOne(rows[0]);
    EarnedOne(rows[1]);
    EarnedConcat([rows[0]], [rows[1]], id);
    if hasDistributors {
      EarnedOne(rows[2]);
      EarnedConcat([rows[0]] + [rows[1]], [rows[2]], id);
      assert rows == [rows[0]] + [rows[1]] + [rows[2]];
    } else {
      assert rows == [rows[0]] + [rows[1]];
    }
  }

  /** The recorded earnings are the whole revenue when some node was up, half of it when none was, and nothing
      without revenue; what is owed plus the platform's and the reserve's part is all of it. */
  lemma {:induction false} EarningsConserve(id: nat, revenue: real, hasDistributors: bool, nodes: seq<NodeUptime>)
    ensures var rows := EarningRows(id, revenue, hasDistributors, nodes);
      && Earned(rows, id) ==
        (if revenue <= 0.0 then 0.0 else if TotalUptime(nodes) > 0 then revenue else revenue * 0.50)
      && Liability(rows, id) + Kept(rows, id) == Earned(rows, id)
  {
    var rows := EarningRows(id, revenue, hasDistributors, nodes);
    EarnedSplits(rows, id);
    if revenue > 0.0 {
      HeadRowsSum(id, revenue, hasDistributors);
      var total := TotalUptime(nodes);
      if total > 0 {
        NodesTakePool(id, nodes, revenue * 0.50);
        EarnedConcat(HeadRows(id, revenue, hasDistributors), NodeRows(id, nodes, total, revenue * 0.50), id);
      }
    }
  }

  /** The operator's net share of the pool. */
  function NetShare(n: NodeUptime, total: nat, pool: real): real
    requires total > 0
  {
    var share := Share(n, total, pool);
    if n.managed then share - share * 0.10 else share
  }

  /** Every node that was up gets an operator row with its net share. */
  lemma {:induction false} OperatorPaid(id: nat, nodes: seq<NodeUptime>, total: nat, pool: real, k: nat)
    requires total > 0 && pool > 0.0 && k < |nodes| && nodes[k].uptime > 0
    ensures Earning(id, NodeOperator, nodes[k].wallet, NetShare(nodes[k], total, pool))
      in NodeRows(id, nodes, total, pool)
  {
    var last := |nodes| - 1;
    if k < last {
      OperatorPaid(id, nodes[..last], total, pool, k);
    } else {
      var n := nodes[k];
      var share := Share(n, total, pool);
      ShareExact(n, total, pool);
      var rows := RowsFor(id, n, share);
      assert rows[if n.managed then 1 else 0] == Earning(id, NodeOperator, n.wallet, NetShare(n, total, pool));
    }
  }

  /** A share is its uptime's proportion of the pool: share * total == uptime * pool. */
  lemma {:induction false} ShareExact(n: NodeUptime, total: nat, pool: real)
    requires total > 0 && pool > 0.0
    ensures Share(n, total, pool) * total as real == n.uptime as real * pool
    ensures Share(n, total, pool) >= 0.0
    ensures n.uptime > 0 ==> Share(n, total, pool) > 0.0
  {
    var u, t := n.uptime as real, total as real;
    var q := u / t;
    assert q * t == u;
    assert (q * pool) * t == (q * t) * pool;
    assert q >= 0.0 && (u > 0.0 ==> q > 0.0);
  }

  // ---------------------------------------------------------------- who gets what

  /** The part of a node's uptime that is paid to this role and payee: a managed node's a tenth to the reserve and
      the rest to its wallet, another's all to its wallet. */
  function UptimeFor(n: NodeUptime, role: Role, payee: string): real
  {
    if role == InfraReserve && payee == "INFRA_RESERVE_POOL" && n.managed then n.uptime as real * 0.1
    else if role == NodeOperator
      && payee == n.wallet then (if n.managed then n.uptime as real * 0.9 else n.uptime as real)
    else 0.0
  }

  function PaidUptime(nodes: seq<NodeUptime>, role: Role, payee: string): real
  {
    if nodes == [] then 0.0
    else PaidUptime(nodes[..|nodes| - 1], role, payee) + UptimeFor(nodes[|nodes| - 1], role, payee)
  }

  /** paid : pool == uptime : total, without the division. */
  ghost predicate InProportion(paid: real, total: nat, uptime: real, pool: real)
  {
    paid * total as real == uptime * pool
  }

  /** The rows give the platform three tenths of the revenue and distribution two, in one pool or divided three to two;
      and of the nodes' half, the reserve and each wallet get their part in proportion to uptime. */
  ghost predicate SharedOut(rows: seq<Earning>, id: nat, revenue: real, hasDistributors: bool, nodes: seq<NodeUptime>)
  {
    && PaidTo(rows, id, Platform, "PLATFORM_TREASURY") == revenue * 0.30
    && PaidTo(rows, id, DistributorLco, "DIST_LCO_POOL") == (if hasDistributors then revenue * 0.12 else 0.0)
    && PaidTo(rows, id, DistributorInfluencer, "DIST_INF_POOL") == (if hasDistributors then revenue * 0.08 else 0.0)
    && PaidTo(rows, id, DistributionPool, "DAO_POOL") == (if hasDistributors then 0.0 else revenue * 0.20)
    && forall role, payee :: role == InfraReserve || role == NodeOperator ==>
         InProportion(PaidTo(rows, id, role, payee), TotalUptime(nodes), PaidUptime(nodes, role, payee), revenue * 0.50)
  }

  lemma {:induction false} HeadPays(id: nat, revenue: real, hasDistributors: bool, role: Role, payee: string)
    ensures PaidTo(HeadRows(id, revenue, hasDistributors), id, role, payee) ==
      if role == Platform && payee == "PLATFORM_TREASURY" then revenue * 0.30
      else if hasDistributors && role == DistributorLco && payee == "DIST_LCO_POOL" then revenue * 0.12
      else if hasDistributors && role == DistributorInfluencer && payee == "DIST_INF_POOL" then revenue * 0.08
      else if !hasDistributors && role == DistributionPool && payee == "DAO_POOL" then revenue * 0.20
      else 0.0
  {
    var rows := HeadRows(id, revenue, hasDistributors);
    PaidSingle(rows[0], id, role, payee);
    PaidSingle(rows[1], id, role, payee);
    PaidConcat([rows[0]], [rows[1]], id, role, payee);
    if hasDistributors {
      PaidSingle(rows[2], id, role, payee);
      PaidConcat([rows[0]] + [rows[1]], [rows[2]], id, role, payee);
      assert rows == [rows[0]] + [rows[1]] + [rows[2]];
    } else {
      assert rows == [rows[0]] + [rows[1]];
    }
  }

  lemma {:induction false} NodePays(id: nat, n: NodeUptime, share: real, role: Role, payee: string)
    requires share >= 0.0
    ensures PaidTo(RowsFor(id, n, share), id, role, payee) ==
      if role == InfraReserve && payee == "INFRA_RESERVE_POOL" && n.managed then share * 0.10
      else if role == NodeOperator && payee == n.wallet then (if n.managed then share * 0.9 else share)
      else 0.0
  {
    var deduction := if n.managed then share * 0.10 else 0.0;
    var reserve, operator :=
      Earning(id, InfraReserve, INFRA_RESERVE_POOL, deduction), Earning(id, NodeOperator, n.wallet, share - deduction);
    var a: seq<Earning> := if n.managed then [reserve] else [];
    var b: seq<Earning> := if share - deduction > 0.0 then [operator] else [];
    PaidSingle(reserve, id, role, payee);
    PaidSingle(operator, id, role, payee);
    PaidConcat(a, b, id, role, payee);
  }

  lemma {:induction false} AddShares(rest: real, paid: real, total: nat, units: real, u: real, pool: real)
    requires InProportion(rest, total, units, pool) && InProportion(paid, total, u, pool)
    ensures InProportion(rest + paid, total, units + u, pool)
  {
  }

  lemma {:induction false} NothingInProportion(total: nat, pool: real)
    ensures InProportion(0.0, total, 0.0, pool)
  {
  }

  lemma {:induction false} ShareInProportion(n: NodeUptime, total: nat, pool: real)
    requires total > 0 && pool > 0.0
    ensures Share(n, total, pool) >= 0.0 && InProportion(Share(n, total, pool), total, n.uptime as real, pool)
  {
    ShareExact(n, total, pool);
  }

  lemma {:induction false} PartOfShare(share: real, total: nat, u: real, pool: real, part: real)
    requires InProportion(share, total, u, pool)
    ensures InProportion(share * part, total, u, pool * part) && InProportion(share * part, total, u * part, pool)
  {
    var t := total as real;
    assert (share * part) * t == (share * t) * part;
    assert (u * pool) * part == u * (pool * part);
    assert (u * pool) * part == (u * part) * pool;
  }

  /** What one node adds to a role and payee. */
  lemma {:induction false} NodeAdds(id: nat, n: NodeUptime, share: real, total: nat, pool: real, role: Role,
      payee: string)
      returns (paid: real)
    requires share >= 0.0 && InProportion(share, total, n.uptime as real, pool)
    ensures paid == PaidTo(RowsFor(id, n, share), id, role, payee)
    ensures InProportion(paid, total, UptimeFor(n, role, payee), pool)
  {
    NodePays(id, n, share, role, payee);
    PartOfShare(share, total, n.uptime as real, pool, 0.1);
    PartOfShare(share, total, n.uptime as real, pool, 0.9);
    NothingInProportion(total, pool);
    paid := PaidTo(RowsFor(id, n, share), id, role, payee);
  }

  function Flatten(parts: seq<seq<Earning>>): seq<Earning>
  {
    if parts == [] then [] else Flatten(parts[..|parts| - 1]) + parts[|parts| - 1]
  }

  function Total(s: seq<real>): real
  {
    if s == [] then 0.0 else Total(s[..|s| - 1]) + s[|s| - 1]
  }

  /** paid is what the part gives the role and payee. */
  ghost predicate Pays(part: seq<Earning>, id: nat, role: Role, payee: string, paid: real)
  {
    paid == PaidTo(part, id, role, payee)
  }

  lemma {:induction false} FlattenStep(parts: seq<seq<Earning>>, id: nat, role: Role, payee: string)
      returns (paid: real)
    requires parts != []
    ensures var k := |parts| - 1;
      && Pays(parts[k], id, role, payee, paid)
      && PaidTo(Flatten(parts), id, role, payee) == PaidTo(Flatten(parts[..k]), id, role, payee) + paid
  {
    var k := |parts| - 1;
    PaidConcat(Flatten(parts[..k]), parts[k], id, role, payee);
    paid := PaidTo(parts[k], id, role, payee);
  }

  lemma {:induction false} PaidFlatten(parts: seq<seq<Earning>>, id: nat, role: Role, payee: string)
      returns (paids: seq<real>)
    ensures |paids| == |parts| && PaidTo(Flatten(parts), id, role, payee) == Total(paids)
    ensures forall i :: 0 <= i < |parts| ==> Pays(parts[i], id, role, payee, paids[i])
  {
    paids := [];
    if parts != [] {
      var k := |parts| - 1;
      var before := PaidFlatten(parts[..k], id, role, payee);
      var paid := FlattenStep(parts, id, role, payee);
      paids := before + [paid];
      assert paids[..k] == before;
    }
  }

  ghost predicate FairShare(share: real, n: NodeUptime, total: nat, pool: real)
  {
    share >= 0.0 && InProportion(share, total, n.uptime as real, pool)
  }

  /** The part is a node's rows for some fair share. */
  ghost predicate FairPart(part: seq<Earning>, id: nat, n: NodeUptime, total: nat, pool: real)
  {
    exists share :: FairShare(share, n, total, pool) && part == RowsFor(id, n, share)
  }

  lemma {:induction false} OwnPart(id: nat, n: NodeUptime, total: nat, pool: real)
    requires total > 0 && pool > 0.0
    ensures FairPart(RowsFor(id, n, Share(n, total, pool)), id, n, total, pool)
  {
    ShareInProportion(n, total, pool);
    assert FairShare(Share(n, total, pool), n, total, pool);
  }

  lemma {:induction false} NodeRowsAre(id: nat, nodes: seq<NodeUptime>, total: nat, pool: real)
      returns (parts: seq<seq<Earning>>)
    requires total > 0 && pool > 0.0
    ensures |parts| == |nodes| && NodeRows(id, nodes, total, pool) == Flatten(parts)
    ensures forall i :: 0 <= i < |nodes| ==> FairPart(parts[i], id, nodes[i], total, pool)
  {
    parts := [];
    if nodes != [] {
      var k := |nodes| - 1;
      var before := NodeRowsAre(id, nodes[..k], total, pool);
      OwnPart(id, nodes[k], total, pool);
      parts := before + [RowsFor(id, nodes[k], Share(nodes[k], total, pool))];
      assert parts[..k] == before;
    }
  }

  lemma {:induction false} TotalsInProportion(paids: seq<real>, uptimes: seq<real>, total: nat, pool: real)
    requires |paids| == |uptimes| && forall i :: 0 <= i < |paids| ==> InProportion(paids[i], total, uptimes[i], pool)
    ensures InProportion(Total(paids), total, Total(uptimes), pool)
  {
    if paids == [] {
      NothingInProportion(total, pool);
    } else {
      var k := |paids| - 1;
      TotalsInProportion(paids[..k], uptimes[..k], total, pool);
      AddShares(Total(paids[..k]), paids[k], total, Total(uptimes[..k]), uptimes[k], pool);
    }
  }

  lemma {:induction false} UptimeIsTotal(nodes: seq<NodeUptime>, role: Role, payee: string) returns (uptimes: seq<real>)
    ensures |uptimes| == |nodes| && PaidUptime(nodes, role, payee) == Total(uptimes)
    ensures forall i :: 0 <= i < |nodes| ==> uptimes[i] == UptimeFor(nodes[i], role, payee)
  {
    uptimes := [];
    if nodes != [] {
      var k := |nodes| - 1;
      var before := UptimeIsTotal(nodes[..k], role, payee);
      uptimes := before + [UptimeFor(nodes[k], role, payee)];
      assert uptimes[..k] == before;
    }
  }

  lemma {:induction false} FairPartPays(part: seq<Earning>, id: nat, n: NodeUptime, total: nat, pool: real, role: Role,
      payee: string)
    requires FairPart(part, id, n, total, pool)
    ensures InProportion(PaidTo(part, id, role, payee), total, UptimeFor(n, role, payee), pool)
  {
    var share :| FairShare(share, n, total, pool) && part == RowsFor(id, n, share);
    var paid := NodeAdds(id, n, share, total, pool, role, payee);
  }

  lemma {:induction false} NodesShare(id: nat, nodes: seq<NodeUptime>, total: nat, pool: real, role: Role,
      payee: string)
    requires total > 0 && pool > 0.0
    ensures InProportion(PaidTo(NodeRows(id, nodes, total, pool), id, role, payee), total,
      PaidUptime(nodes, role, payee), pool)
  {
    var parts := NodeRowsAre(id, nodes, total, pool);
    var paids := PaidFlatten(parts, id, role, payee);
    var uptimes := UptimeIsTotal(nodes, role, payee);
    forall i | 0 <= i < |nodes|
      ensures InProportion(paids[i], total, uptimes[i], pool)
    {
      assert Pays(parts[i], id, role, payee, paids[i]);
      FairPartPays(parts[i], id, nodes[i], total, pool, role, payee);
    }
    TotalsInProportion(paids, uptimes, total, pool);
  }

  lemma {:induction false} NodesPayNoOthers(id: nat, nodes: seq<NodeUptime>, total: nat, pool: real, role: Role,
      payee: string)
    requires total > 0 && role != InfraReserve && role != NodeOperator
    ensures PaidTo(NodeRows(id, nodes, total, pool), id, role, payee) == 0.0
  {
    RowsOfEpoch(id, nodes, total, pool);
    var rows := NodeRows(id, nodes, total, pool);
    forall i | 0 <= i < |rows|
      ensures rows[i].role != role
    {
      assert rows[i] in rows;
    }
    PaidNone(rows, id, role, payee);
  }

  /** What is owed, the platform and the reserve each got are all there is. */
  lemma {:induction false} LiabilityIsRest(rows: seq<Earning>, id: nat)
    requires forall i :: 0 <= i < |rows| ==>
      && (rows[i].role == Platform ==> rows[i].payee == "PLATFORM_TREASURY")
      && (rows[i].role == InfraReserve ==> rows[i].payee == "INFRA_RESERVE_POOL")
    ensures Liability(rows, id) == Earned(rows, id) - PaidTo(rows, id, Platform, "PLATFORM_TREASURY")
      - PaidTo(rows, id, InfraReserve, "INFRA_RESERVE_POOL")
  {
    if rows != [] {
      LiabilityIsRest(rows[..|rows| - 1], id);
    }
  }

  /** Split a payee's part of all the rows into the head rows' and the nodes'. */
  lemma {:induction false} PartsAdd(id: nat, revenue: real, hasDistributors: bool, nodes: seq<NodeUptime>, pool: real,
      role: Role, payee: string)
    requires revenue > 0.0 && pool == revenue * 0.50
    ensures PaidTo(EarningRows(id, revenue, hasDistributors, nodes), id, role, payee) ==
      PaidTo(HeadRows(id, revenue, hasDistributors), id, role, payee) +
      if TotalUptime(nodes) == 0 then 0.0 else PaidTo(NodeRows(id, nodes, TotalUptime(nodes), pool), id, role, payee)
  {
    var head := HeadRows(id, revenue, hasDistributors);
    if TotalUptime(nodes) > 0 {
      var tail := NodeRows(id, nodes, TotalUptime(nodes), pool);
      assert EarningRows(id, revenue, hasDistributors, nodes) == head + tail;
      PaidConcat(head, tail, id, role, payee);
    }
  }

  lemma {:induction false} HeadPart(id: nat, revenue: real, hasDistributors: bool, nodes: seq<NodeUptime>, role: Role,
      payee: string)
    requires revenue > 0.0 && role != InfraReserve && role != NodeOperator
    ensures PaidTo(EarningRows(id, revenue, hasDistributors, nodes), id, role, payee) ==
      PaidTo(HeadRows(id, revenue, hasDistributors), id, role, payee)
  {
    var total, pool := TotalUptime(nodes), revenue * 0.50;
    PartsAdd(id, revenue, hasDistributors, nodes, pool, role, payee);
    if total > 0 {
      NodesPayNoOthers(id, nodes, total, pool, role, payee);
    }
  }

  lemma {:induction false} NoneUp(nodes: seq<NodeUptime>, role: Role, payee: string)
    requires TotalUptime(nodes) == 0
    ensures PaidUptime(nodes, role, payee) == 0.0
  {
    if nodes != [] {
      NoneUp(nodes[..|nodes| - 1], role, payee);
    }
  }

  lemma {:induction false} NodePart(id: nat, revenue: real, hasDistributors: bool, nodes: seq<NodeUptime>, pool: real,
      role: Role, payee: string)
    requires revenue > 0.0 && pool == revenue * 0.50 && (role == InfraReserve || role == NodeOperator)
    ensures InProportion(PaidTo(EarningRows(id, revenue, hasDistributors, nodes), id, role, payee), TotalUptime(nodes),
      PaidUptime(nodes, role, payee), pool)
  {
    PartsAdd(id, revenue, hasDistributors, nodes, pool, role, payee);
    HeadPays(id, revenue, hasDistributors, role, payee);
    if TotalUptime(nodes) == 0 {
      NoneUp(nodes, role, payee);
      NothingInProportion(0, pool);
    } else {
      NodesShare(id, nodes, TotalUptime(nodes), pool, role, payee);
    }
  }

  lemma {:induction false} HeadPartsExact(id: nat, revenue: real, hasDistributors: bool, nodes: seq<NodeUptime>)
    requires revenue > 0.0
    ensures var rows := EarningRows(id, revenue, hasDistributors, nodes);
      && PaidTo(rows, id, Platform, "PLATFORM_TREASURY") == revenue * 0.30
      && PaidTo(rows, id, DistributorLco, "DIST_LCO_POOL") == (if hasDistributors then revenue * 0.12 else 0.0)
      && PaidTo(rows, id, DistributorInfluencer, "DIST_INF_POOL") == (if hasDistributors then revenue * 0.08 else 0.0)
      && PaidTo(rows, id, DistributionPool, "DAO_POOL") == (if hasDistributors then 0.0 else revenue * 0.20)
  {
    HeadPart(id, revenue, hasDistributors, nodes, Platform, "PLATFORM_TREASURY");
    HeadPart(id, revenue, hasDistributors, nodes, DistributorLco, "DIST_LCO_POOL");
    HeadPart(id, revenue, hasDistributors, nodes, DistributorInfluencer, "DIST_INF_POOL");
    HeadPart(id, revenue, hasDistributors, nodes, DistributionPool, "DAO_POOL");
    HeadPays(id, revenue, hasDistributors, Platform, "PLATFORM_TREASURY");
    HeadPays(id, revenue, hasDistributors, DistributorLco, "DIST_LCO_POOL");
    HeadPays(id, revenue, hasDistributors, DistributorInfluencer, "DIST_INF_POOL");
    HeadPays(id, revenue, hasDistributors, DistributionPool, "DAO_POOL");
  }

  /** The rows of a closing epoch share its revenue out as the split says. */
  lemma {:induction false} EarningsShareOut(id: nat, revenue: real, hasDistributors: bool, nodes: seq<NodeUptime>)
    requires revenue > 0.0
    ensures SharedOut(EarningRows(id, revenue, hasDistributors, nodes), id, revenue, hasDistributors, nodes)
  {
    var rows, pool := EarningRows(id, revenue, hasDistributors, nodes), revenue * 0.50;
    HeadPartsExact(id, revenue, hasDistributors, nodes);
    forall role, payee | role == InfraReserve || role == NodeOperator
      ensures InProportion(PaidTo(rows, id, role, payee), TotalUptime(nodes), PaidUptime(nodes, role, payee), pool)
    {
      NodePart(id, revenue, hasDistributors, nodes, pool, role, payee);
    }
  }

  lemma {:induction false} FixedPayees(id: nat, revenue: real, hasDistributors: bool, nodes: seq<NodeUptime>)
    ensures forall e :: e in EarningRows(id, revenue, hasDistributors, nodes) ==>
      && (e.role == Platform ==> e.payee == "PLATFORM_TREASURY")
      && (e.role == InfraReserve ==> e.payee == "INFRA_RESERVE_POOL")
  {
    if revenue > 0.0 && TotalUptime(nodes) > 0 {
      RowsOfEpoch(id, nodes, TotalUptime(nodes), revenue * 0.50);
    }
  }

  /** What is owed for an epoch: seven tenths of its revenue less the reserve when some node was up, else two tenths. */
  lemma {:induction false} OwedExactly(id: nat, revenue: real, hasDistributors: bool, nodes: seq<NodeUptime>)
    requires revenue > 0.0
    ensures var rows := EarningRows(id, revenue, hasDistributors, nodes);
      Liability(rows, id) == if TotalUptime(nodes) == 0 then revenue * 0.20
        else revenue * 0.70 - PaidTo(rows, id, InfraReserve, "INFRA_RESERVE_POOL")
  {
    var rows := EarningRows(id, revenue, hasDistributors, nodes);
    FixedPayees(id, revenue, hasDistributors, nodes);
    assert forall i :: 0 <= i < |rows| ==> rows[i] in rows;
    LiabilityIsRest(rows, id);
    EarningsConserve(id, revenue, hasDistributors, nodes);
    HeadPartsExact(id, revenue, hasDistributors, nodes);
    if TotalUptime(nodes) == 0 {
      HeadPays(id, revenue, hasDistributors, InfraReserve, "INFRA_RESERVE_POOL");
    }
  }

  /** Rows of an epoch that had none are all there is of it. */
  lemma {:induction false} NewRowsOnly(earnings: seq<Earning>, rows: seq<Earning>, id: nat)
    requires forall i :: 0 <= i < |earnings| ==> earnings[i].epoch != id
    ensures Earned(earnings + rows, id) == Earned(rows, id) && Liability(earnings + rows, id) == Liability(rows, id)
    ensures forall role, payee :: PaidTo(earnings + rows, id, role, payee) == PaidTo(rows, id, role, payee)
  {
    EarnedNone(earnings, id);
    EarnedConcat(earnings, rows, id);
    forall role, payee
      ensures PaidTo(earnings + rows, id, role, payee) == PaidTo(rows, id, role, payee)
    {
      PaidNone(earnings, id, role, payee);
      PaidConcat(earnings, rows, id, role, payee);
    }
  }

  lemma {:induction false} SharedOutAfter(earnings: seq<Earning>, rows: seq<Earning>, id: nat, revenue: real,
      hasDistributors: bool, nodes: seq<NodeUptime>)
    requires forall i :: 0 <= i < |earnings| ==> earnings[i].epoch != id
    requires SharedOut(rows, id, revenue, hasDistributors, nodes)
    ensures SharedOut(earnings + rows, id, revenue, hasDistributors, nodes)
  {
    NewRowsOnly(earnings, rows, id);
  }

  /** What the earnings table says of an epoch once its rows are in: what it earned, to whom, and what is owed. */
  ghost predicate Settles(earnings: seq<Earning>, id: nat, revenue: real, hasDistributors: bool, nodes: seq<NodeUptime>)
  {
    var up := TotalUptime(nodes) > 0;
    && Earned(earnings, id) == (if revenue <= 0.0 then 0.0 else if up then revenue else revenue * 0.50)
    && (revenue > 0.0 ==> SharedOut(earnings, id, revenue, hasDistributors, nodes))
    && Liability(earnings, id) == (
         if revenue <= 0.0 then 0.0
         else if up then revenue * 0.70 - PaidTo(earnings, id, InfraReserve, "INFRA_RESERVE_POOL")
         else revenue * 0.20)
  }

  lemma {:induction false} RowsSettle(earnings: seq<Earning>, id: nat, revenue: real, hasDistributors: bool,
      nodes: seq<NodeUptime>)
    requires forall i :: 0 <= i < |earnings| ==> earnings[i].epoch != id
    ensures Settles(earnings + EarningRows(id, revenue, hasDistributors, nodes), id, revenue, hasDistributors, nodes)
  {
    var rows := EarningRows(id, revenue, hasDistributors, nodes);
    NewRowsOnly(earnings, rows, id);
    EarningsConserve(id, revenue, hasDistributors, nodes);
    if revenue > 0.0 {
      EarningsShareOut(id, revenue, hasDistributors, nodes);
      SharedOutAfter(earnings, rows, id, revenue, hasDistributors, nodes);
      OwedExactly(id, revenue, hasDistributors, nodes);
    }
  }

  // ---------------------------------------------------------------- when the inserts go through

  lemma {:induction false} RowsOfEpoch(id: nat, nodes: seq<NodeUptime>, total: nat, pool: real)
    requires total > 0
    ensures forall e :: e in NodeRows(id, nodes, total, pool) ==>
      e.epoch == id && (e.role == InfraReserve || e.role == NodeOperator)
    ensures forall e :: e in NodeRows(id, nodes, total, pool) && e.role == InfraReserve ==>
      e.payee == INFRA_RESERVE_POOL
  {
    if nodes != [] {
      RowsOfEpoch(id, nodes[..|nodes| - 1], total, pool);
    }
  }

  /** The node writes a row under this role and payee: a managed node one for the reserve, a node that was up one
      for its operator. */
  predicate Writes(n: NodeUptime, role: Role, payee: string)
  {
    || (role == InfraReserve && n.managed && payee == INFRA_RESERVE_POOL)
    || (role == NodeOperator && n.uptime > 0 && payee == n.wallet)
  }

  lemma {:induction false} NetPositive(n: NodeUptime, total: nat, pool: real)
    requires total > 0 && pool > 0.0
    ensures NetShare(n, total, pool) > 0.0 <==> n.uptime > 0
  {
    ShareExact(n, total, pool);
  }

  lemma {:induction false} RowsForExactly(id: nat, n: NodeUptime, total: nat, pool: real, e: Earning)
    requires total > 0 && pool > 0.0 && e.epoch == id
    ensures HasRow(RowsFor(id, n, Share(n, total, pool)), e) <==> Writes(n, e.role, e.payee)
  {
    NetPositive(n, total, pool);
    var rows := RowsFor(id, n, Share(n, total, pool));
    if n.managed {
      assert rows[0].role == InfraReserve && rows[0].payee == INFRA_RESERVE_POOL;
    }
    if n.uptime > 0 {
      var last := rows[|rows| - 1];
      assert last.role == NodeOperator && last.payee == n.wallet;
    }
  }

  lemma {:induction false} OwnKeysDistinct(id: nat, n: NodeUptime, share: real)
    ensures DistinctKeys(RowsFor(id, n, share))
  {
  }

  ghost predicate SomeWrites(nodes: seq<NodeUptime>, role: Role, payee: string)
  {
    exists k :: 0 <= k < |nodes| && Writes(nodes[k], role, payee)
  }

  lemma {:induction false} NodeRowsExactly(id: nat, nodes: seq<NodeUptime>, total: nat, pool: real, e: Earning)
    requires total > 0 && pool > 0.0 && e.epoch == id
    ensures HasRow(NodeRows(id, nodes, total, pool), e) <==> SomeWrites(nodes, e.role, e.payee)
  {
    if nodes != [] {
      var last := |nodes| - 1;
      var n := nodes[last];
      NodeRowsExactly(id, nodes[..last], total, pool, e);
      RowsForExactly(id, n, total, pool, e);
      HasRowConcat(NodeRows(id, nodes[..last], total, pool), RowsFor(id, n, Share(n, total, pool)), e);
      assert nodes == nodes[..last] + [n];
    }
  }

  /** Two nodes write one key: both are managed, or both were up under one wallet. */
  predicate Clash(m: NodeUptime, n: NodeUptime)
  {
    (m.managed && n.managed) || (m.uptime > 0 && n.uptime > 0 && m.wallet == n.wallet)
  }

  ghost predicate Clashing(nodes: seq<NodeUptime>)
  {
    exists j, k :: 0 <= j < k < |nodes| && Clash(nodes[j], nodes[k])
  }

  lemma {:induction false} LastApart(id: nat, nodes: seq<NodeUptime>, n: NodeUptime, total: nat, pool: real)
    requires total > 0 && pool > 0.0
    ensures KeysApart(NodeRows(id, nodes, total, pool), RowsFor(id, n, Share(n, total, pool)))
      <==> forall j :: 0 <= j < |nodes| ==> !Clash(nodes[j], n)
  {
    var before, own := NodeRows(id, nodes, total, pool), RowsFor(id, n, Share(n, total, pool));
    NodeRowsExactly(id, nodes, total, pool, Earning(id, InfraReserve, INFRA_RESERVE_POOL, 0.0));
    NodeRowsExactly(id, nodes, total, pool, Earning(id, NodeOperator, n.wallet, 0.0));
    NetPositive(n, total, pool);
    forall i | 0 <= i < |own|
      ensures HasRow(before, own[i]) <==> SomeWrites(nodes, own[i].role, own[i].payee)
    {
      NodeRowsExactly(id, nodes, total, pool, own[i]);
    }
    if j :| 0 <= j < |nodes| && Clash(nodes[j], n) {
      ClashShows(id, nodes, n, total, pool, j);
    }
  }

  lemma {:induction false} ClashShows(id: nat, nodes: seq<NodeUptime>, n: NodeUptime, total: nat, pool: real, j: nat)
    requires total > 0 && pool > 0.0 && j < |nodes| && Clash(nodes[j], n)
    ensures !KeysApart(NodeRows(id, nodes, total, pool), RowsFor(id, n, Share(n, total, pool)))
  {
    var own := RowsFor(id, n, Share(n, total, pool));
    NetPositive(n, total, pool);
    var i := if nodes[j].managed && n.managed then 0 else |own| - 1;
    NodeRowsExactly(id, nodes, total, pool, own[i]);
    assert Writes(nodes[j], own[i].role, own[i].payee);
  }

  lemma {:induction false} NodeKeysExactly(id: nat, nodes: seq<NodeUptime>, total: nat, pool: real)
    requires total > 0 && pool > 0.0
    ensures DistinctKeys(NodeRows(id, nodes, total, pool)) <==> !Clashing(nodes)
  {
    if nodes != [] {
      var last := |nodes| - 1;
      var n, init := nodes[last], nodes[..last];
      NodeKeysExactly(id, init, total, pool);
      LastApart(id, init, n, total, pool);
      OwnKeysDistinct(id, n, Share(n, total, pool));
      DistinctConcat(NodeRows(id, init, total, pool), RowsFor(id, n, Share(n, total, pool)));
      ClashingLast(nodes);
    }
  }

  lemma {:induction false} ClashingLast(nodes: seq<NodeUptime>)
    requires nodes != []
    ensures var last := |nodes| - 1;
      Clashing(nodes) <==> Clashing(nodes[..last]) || exists j :: 0 <= j < last && Clash(nodes[..last][j], nodes[last])
  {
    var last := |nodes| - 1;
    assert forall j :: 0 <= j < last ==> nodes[..last][j] == nodes[j];
  }

  lemma {:induction false} HeadApart(id: nat, head: seq<Earning>, nodes: seq<NodeUptime>, total: nat, pool: real)
    requires total > 0 && forall e :: e in head ==> e.role != InfraReserve && e.role != NodeOperator
    ensures KeysApart(head, NodeRows(id, nodes, total, pool))
  {
    RowsOfEpoch(id, nodes, total, pool);
    var tail := NodeRows(id, nodes, total, pool);
    forall j | 0 <= j < |tail|
      ensures !HasRow(head, tail[j])
    {
      assert tail[j] in tail;
    }
  }

  lemma {:induction false} AllOfEpoch(id: nat, revenue: real, hasDistributors: bool, nodes: seq<NodeUptime>)
    ensures forall i :: 0 <= i < |EarningRows(id, revenue, hasDistributors, nodes)| ==>
      EarningRows(id, revenue, hasDistributors, nodes)[i].epoch == id
  {
    if revenue > 0.0 && TotalUptime(nodes) > 0 {
      var head, tail := HeadRows(id, revenue, hasDistributors), NodeRows(id, nodes, TotalUptime(nodes), revenue * 0.50);
      RowsOfEpoch(id, nodes, TotalUptime(nodes), revenue * 0.50);
      var rows := head + tail;
      forall i | |head| <= i < |rows|
        ensures rows[i].epoch == id
      {
        assert rows[i] in tail;
      }
    }
  }

  /** Closing one epoch leaves the earnings of every other as they were. */
  lemma {:induction false} OthersEarnNothing(earnings: seq<Earning>, id: nat, revenue: real, hasDistributors: bool,
                                             nodes: seq<NodeUptime>, fault: Option<nat>, k: nat)
    requires k != id
    ensures var r := InsertAll(earnings, EarningRows(id, revenue, hasDistributors, nodes), fault);
      r.Some? ==> Earned(r.value, k) == Earned(earnings, k)
  {
    var rows := EarningRows(id, revenue, hasDistributors, nodes);
    AllOfEpoch(id, revenue, hasDistributors, nodes);
    InsertAllAppends(earnings, rows, fault);
    EarnedConcat(earnings, rows, k);
    EarnedNone(rows, k);
  }

  lemma {:induction false} HeadKeysDistinct(id: nat, revenue: real, hasDistributors: bool)
    ensures DistinctKeys(HeadRows(id, revenue, hasDistributors))
    ensures forall e :: e in HeadRows(id, revenue, hasDistributors) ==> e.role != InfraReserve && e.role != NodeOperator
  {
  }

  /** Over all earnings, revenues, node lists and faults: an epoch without earnings can be closed unless an insert
      faults, or it earned something while some node was up and two nodes clash. */
  lemma {:induction false} ClosesExactly(earnings: seq<Earning>, id: nat, revenue: real, hasDistributors: bool,
                                         nodes: seq<NodeUptime>, fault: Option<nat>)
    requires forall i :: 0 <= i < |earnings| ==> earnings[i].epoch != id
    ensures var rows := EarningRows(id, revenue, hasDistributors, nodes);
      InsertAll(earnings, rows, fault).Some?
      <==> Faultless(fault, |rows|) && !(revenue > 0.0 && TotalUptime(nodes) > 0 && Clashing(nodes))
  {
    var head, total, pool := HeadRows(id, revenue, hasDistributors), TotalUptime(nodes), revenue * 0.50;
    AllOfEpoch(id, revenue, hasDistributors, nodes);
    InsertsExactly(earnings, EarningRows(id, revenue, hasDistributors, nodes), id, fault);
    HeadKeysDistinct(id, revenue, hasDistributors);
    if revenue > 0.0 && total > 0 {
      NodeKeysExactly(id, nodes, total, pool);
      HeadApart(id, head, nodes, total, pool);
      DistinctConcat(head, NodeRows(id, nodes, total, pool));
    }
  }
}
