/** The paid-operations engine: executeOp, finalizeEpoch and initEpoch as one class over the tables,
    each proved against a function of the tables. Collaborators that may fail enter as flags. */
module OperationsEngine {
  import opened Wrappers
  import opened OpsTables
  import opened EpochFinalization

  /** An enabled row of ops_pricing; a limit of zero falls back to the default. */
  datatype Pricing = Pricing(price: real, perClient: int, perNode: int)

  datatype Rule = Rule(base: real, surgeEnabled: bool, surgeThreshold: nat, surgeMultiplier: real)

  datatype Config = Config(pricing: map<string, Pricing>, rules: map<string, Rule>, hasLedger: bool)

  datatype Request = Request(op: string, node: string, client: string, request: string, amount: real)

  datatype OpEnv = OpEnv(now: int, safeMode: bool, throttled: bool, epoch: EpochEnv, eventInsertFails: bool,
      ledgerFails: bool)

  datatype Refusal = SafeMode | Throttled | UnknownOperation | RateLimited | InsufficientBalance | StorageError

  datatype OpResult =
    | Accepted(eventId: nat, amount: real)
    | AlreadyProcessed(eventId: nat)
    | Refused(why: Refusal)

  const WINDOW: int := 60

  function Limit(raw: int, default: int): int
  {
    if raw == 0 then default else raw
  }

  function ClientLimit(p: Pricing): int
  {
    Limit(p.perClient, 60)
  }

  function NodeLimit(p: Pricing): int
  {
    Limit(p.perNode, 120)
  }

  predicate OverLimit(events: seq<Event>, p: Pricing, req: Request, now: int)
  {
    || (ClientLimit(p) > 0 && ClientSince(events, req.client, now - WINDOW) >= ClientLimit(p))
    || (NodeLimit(p) > 0 && NodeSince(events, req.node, now - WINDOW) >= NodeLimit(p))
  }

  function FinalPrice(c: Config, events: seq<Event>, p: Pricing, req: Request, now: int): real
  {
    if req.amount > 0.0 then req.amount
    else if req.op in c.rules then
      var rule := c.rules[req.op];
      if rule.surgeEnabled && AllSince(events, now - WINDOW) > rule.surgeThreshold
      then rule.base * rule.surgeMultiplier else rule.base
    else p.price
  }

  function Available(postings: seq<Posting>, client: string): real
  {
    -Balance(postings, Client(client))
  }

  /** The checks before anything is written: the refusal, the earlier event, or the price to record. */
  datatype Gate = Stop(result: OpResult) | Go(price: real)

  function Checks(c: Config, t: Tables, req: Request, env: OpEnv): Gate
  {
    if env.safeMode then Stop(Refused(SafeMode))
    else if req.client != "" && env.throttled then Stop(Refused(Throttled))
    else if req.op !in c.pricing then Stop(Refused(UnknownOperation))
    else
      var existing := FindEvent(t.events, req.client, req.op, req.request);
      if existing.Some? then Stop(AlreadyProcessed(existing.value))
      else
        var p := c.pricing[req.op];
        if OverLimit(t.events, p, req, env.now) then Stop(Refused(RateLimited))
        else
          var price := FinalPrice(c, t.events, p, req, env.now);
          if c.hasLedger && req.client != "" && price > 0.0 && Available(t.postings, req.client) < price
          then Stop(Refused(InsufficientBalance))
          else Go(price)
  }

  function EventOf(epoch: nat, req: Request, price: real, now: int): Event
  {
    Event(epoch, req.op, req.node, req.client, price, req.request, now)
  }

  function ExecuteOp(c: Config, t: Tables, req: Request, env: OpEnv): (OpResult, Tables)
  {
    match Checks(c, t, req, env)
    case Stop(result) => (result, t)
    case Go(price) =>
      var (id, epochs, current) := InitEpoch(t.epochs, t.current, env.epoch);
      var t1 := t.(epochs := epochs, current := current);
      if id.None? || env.eventInsertFails then (Refused(StorageError), t1)
      else
        var events := t.events + [EventOf(id.value, req, price, env.now)];
        var posts :=
          if c.hasLedger && price > 0.0 && !env.ledgerFails
          then Transfer(Client(req.client), PlatformRevenue, price) else [];
        (Accepted(|events|, price), t1.(events := events, postings := t.postings + posts))
  }

  datatype CloseEnv = CloseEnv(hasDistributors: bool, nodes: seq<NodeUptime>, fault: Option<nat>, ledgerFails: bool,
      epoch: EpochEnv)

  datatype CloseResult = Closed(id: nat) | CloseThrew

  /** The transaction of finalizeEpoch: None when it rolls back. */
  function CloseEpoch(t: Tables, id: nat, env: CloseEnv): Option<Tables>
  {
    if !IsOpen(t.epochs, id) then None
    else
      var rows := EarningRows(id, Revenue(t.events, id), env.hasDistributors, env.nodes);
      var earnings := InsertAll(t.earnings, rows, env.fault);
      if earnings.None? then None
      else Some(t.(epochs := t.epochs[id - 1 := t.epochs[id - 1].(open := false)], earnings := earnings.value))
  }

  function RewardPostings(c: Config, t: Tables, id: nat, ledgerFails: bool): seq<Posting>
  {
    var owed := Liability(t.earnings, id);
    if c.hasLedger && owed > 0.0 && !ledgerFails then Transfer(Treasury, RewardsPayable, owed) else []
  }

  function FinalizeEpoch(c: Config, t: Tables, epochId: nat, env: CloseEnv): (CloseResult, Tables)
  {
    var id := if epochId != 0 then epochId else if t.current.Some? then t.current.value else 0;
    var closed := CloseEpoch(t, id, env);
    if closed.None? then (CloseThrew, t)
    else
      var t1 := closed.value.(postings := t.postings + RewardPostings(c, closed.value, id, env.ledgerFails));
      var (next, epochs, current) := InitEpoch(t1.epochs, t1.current, env.epoch);
      (if next.None? then CloseThrew else Closed(id), t1.(epochs := epochs, current := current))
  }

  // ---------------------------------------------------------------- the engine

  class Engine {
    var epochs: seq<Epoch>
    var events: seq<Event>
    var earnings: seq<Earning>
    var postings: seq<Posting>
    var current: Option<nat>
    var config: Config

    ghost function Tabled(): Tables
      reads this
    {
      Tables(epochs, events, earnings, postings, current)
    }

    constructor (config: Config)
      ensures this.config == config && Tabled() == Tables([], [], [], [], None)
    {
      this.config := config;
      epochs, events, earnings, postings, current := [], [], [], [], None;
    }

    /** initEpoch: fast path, slot insert, recheck, last resort. None stands for the error of the last resort. */
    method OpenEpoch(env: EpochEnv) returns (id: Option<nat>)
      modifies this`epochs, this`current
      ensures (id, epochs, current) == InitEpoch(old(epochs), old(current), env)
    {
      var existing := LastOpen(epochs);
      if existing.Some? {
        current := existing;
        return existing;
      }
      var slot := env.now / 3600;
      if env.slotInsert.Works? && !SlotTaken(epochs, slot) {
        epochs := epochs + [Epoch(true, Some(slot), env.now)];
        if env.slotInsert.reportsId {
          current := Some(|epochs|);
          return current;
        }
      }
      var recheck := LastOpen(epochs);
      if recheck.Some? {
        current := recheck;
        return recheck;
      }
      if !env.fallbackWorks {
        return None;
      }
      epochs := epochs + [Epoch(true, None, env.now)];
      current := Some(|epochs|);
      return current;
    }

    method Execute(req: Request, env: OpEnv) returns (r: OpResult)
      modifies this`epochs, this`current, this`events, this`postings
      ensures (r, Tabled()) == ExecuteOp(config, old(Tabled()), req, env)
    {
      if env.safeMode {
        return Refused(SafeMode);
      }
      if req.client != "" && env.throttled {
        return Refused(Throttled);
      }
      if req.op !in config.pricing {
        return Refused(UnknownOperation);
      }
      var pricing := config.pricing[req.op];
      var existing := FindEvent(events, req.client, req.op, req.request);
      if existing.Some? {
        return AlreadyProcessed(existing.value);
      }
      if OverLimit(events, pricing, req, env.now) {
        return Refused(RateLimited);
      }
      var price := FinalPrice(config, events, pricing, req, env.now);
      if config.hasLedger && req.client != "" && price > 0.0 {
        if Available(postings, req.client) < price {
          return Refused(InsufficientBalance);
        }
      }
      var id := OpenEpoch(env.epoch);
      if id.None? || env.eventInsertFails {
        return Refused(StorageError);
      }
      events := events + [EventOf(id.value, req, price, env.now)];
      assert postings + [] == postings;
      if config.hasLedger && price > 0.0 && !env.ledgerFails {
        postings := postings + Transfer(Client(req.client), PlatformRevenue, price);
      }
      return Accepted(|events|, price);
    }

    /** One INSERT of the closing transaction; n counts the inserts before it. */
    method InsertEarning(e: Earning, n: nat, fault: Option<nat>) returns (ok: bool)
      modifies this`earnings
      ensures ok <==> fault != Some(n) && !HasRow(old(earnings), e)
      ensures earnings == if ok then old(earnings) + [e] else old(earnings)
    {
      ok := fault != Some(n) && !HasRow(earnings, e);
      if ok {
        earnings := earnings + [e];
      }
    }

    /** Insert some rows in turn, after `done` of the transaction's rows. */
    method InsertRows(ghost start: seq<Earning>, ghost done: seq<Earning>, rows: seq<Earning>, n: nat,
        fault: Option<nat>) returns (ok: bool)
      requires n == |done| && InsertAll(start, done, fault) == Some(earnings)
      modifies this`earnings
      ensures ok ==> InsertAll(start, done + rows, fault) == Some(earnings)
      ensures !ok ==> InsertAll(start, done + rows, fault) == None
    {
      var i := 0;
      assert done + rows[..0] == done;
      while i < |rows|
        invariant 0 <= i <= |rows|
        invariant InsertAll(start, done + rows[..i], fault) == Some(earnings)
      {
        InsertsOneMore(start, earnings, done, rows, i, fault);
        ok := InsertEarning(rows[i], n + i, fault);
        if !ok {
          return false;
        }
        i := i + 1;
      }
      assert rows[..i] == rows;
      return true;
    }

    /** The node loop of finalizeEpoch: recompute each share and insert the node's rows. */
    method InsertNodeRows(ghost start: seq<Earning>, ghost done: seq<Earning>, id: nat, nodes: seq<NodeUptime>,
        total: nat, pool: real, n: nat, fault: Option<nat>)
      returns (ok: bool)
      requires total > 0 && n == |done| && InsertAll(start, done, fault) == Some(earnings)
      modifies this`earnings
      ensures ok ==> InsertAll(start, done + NodeRows(id, nodes, total, pool), fault) == Some(earnings)
      ensures !ok ==> InsertAll(start, done + NodeRows(id, nodes, total, pool), fault) == None
    {
      var i, count := 0, n;
      assert done + NodeRows(id, nodes[..0], total, pool) == done;
      while i < |nodes|
        invariant 0 <= i <= |nodes|
        invariant count == |done + NodeRows(id, nodes[..i], total, pool)|
        invariant InsertAll(start, done + NodeRows(id, nodes[..i], total, pool), fault) == Some(earnings)
      {
        var rows := RowsFor(id, nodes[i], Share(nodes[i], total, pool));
        OneNodeFurther(start, done, id, nodes, total, pool, i, fault);
        ok := InsertRows(start, done + NodeRows(id, nodes[..i], total, pool), rows, count, fault);
        if !ok {
          return false;
        }
        count := count + |rows|;
        i := i + 1;
      }
      assert nodes[..i] == nodes;
      return true;
    }

    /** Platform and distribution rows, then the nodes' rows. */
    method InsertEarnings(id: nat, revenue: real, env: CloseEnv) returns (ok: bool)
      modifies this`earnings
      ensures var spec := InsertAll(old(earnings), EarningRows(id, revenue, env.hasDistributors, env.nodes), env.fault);
        ok == spec.Some? && (ok ==> earnings == spec.value)
    {
      if revenue <= 0.0 {
        return true;
      }
      ghost var start := earnings;
      var head, nodePool := HeadRows(id, revenue, env.hasDistributors), revenue * 0.50;
      assert [] + head == head;
      ok := InsertRows(start, [], head, 0, env.fault);
      var total := TotalUptime(env.nodes);
      HeadThenNodes(id, revenue, env.hasDistributors, env.nodes, nodePool);
      if total > 0 {
        if ok {
          ok := InsertNodeRows(start, head, id, env.nodes, total, nodePool, |head|, env.fault);
        } else {
          FailedStaysFailed(start, head, NodeRows(id, env.nodes, total, nodePool), env.fault);
        }
      }
    }

    /** The closing transaction, with its rollback. */
    method CloseTransaction(id: nat, env: CloseEnv) returns (ok: bool)
      modifies this`epochs, this`earnings
      ensures var spec := CloseEpoch(old(Tabled()), id, env);
        && ok == spec.Some?
        && Tabled() == if ok then spec.value else old(Tabled())
    {
      var savedEpochs, savedEarnings := epochs, earnings;  // BEGIN
      if !IsOpen(epochs, id) {
        return false;
      }
      epochs := epochs[id - 1 := epochs[id - 1].(open := false)];
      ok := InsertEarnings(id, Revenue(events, id), env);
      if !ok {
        epochs, earnings := savedEpochs, savedEarnings;  // ROLLBACK
      }
    }

    method Finalize(epochId: nat, env: CloseEnv) returns (r: CloseResult)
      modifies this`epochs, this`current, this`earnings, this`postings
      ensures (r, Tabled()) == FinalizeEpoch(config, old(Tabled()), epochId, env)
    {
      var id := if epochId != 0 then epochId else if current.Some? then current.value else 0;
      var ok := CloseTransaction(id, env);
      if !ok {
        return CloseThrew;
      }
      assert postings + [] == postings;
      if config.hasLedger {
        var owed := Liability(earnings, id);
        if owed > 0.0 && !env.ledgerFails {
          postings := postings + Transfer(Treasury, RewardsPayable, owed);
        }
      }
      var next := OpenEpoch(env.epoch);
      return if next.None? then CloseThrew else Closed(id);
    }
  }

  lemma {:induction false} HeadThenNodes(id: nat, revenue: real, hasDistributors: bool, nodes: seq<NodeUptime>,
      pool: real)
    requires revenue > 0.0 && pool == revenue * 0.50
    ensures var rows, head := EarningRows(id, revenue, hasDistributors, nodes), HeadRows(id, revenue, hasDistributors);
      if TotalUptime(nodes) == 0 then rows == head else rows == head + NodeRows(id, nodes, TotalUptime(nodes), pool)
  {
  }

  /** One insert decides whether the rows up to it go in, and a refusal whether all of them do. */
  lemma {:induction false} InsertsOneMore(start: seq<Earning>, earnings: seq<Earning>, done: seq<Earning>,
      rows: seq<Earning>, i: nat, fault: Option<nat>)
    requires i < |rows| && InsertAll(start, done + rows[..i], fault) == Some(earnings)
    ensures var ok := fault != Some(|done| + i) && !HasRow(earnings, rows[i]);
      && (ok ==> InsertAll(start, done + rows[..i + 1], fault) == Some(earnings + [rows[i]]))
      && (!ok ==> InsertAll(start, done + rows, fault) == None)
  {
    var next := done + rows[..i + 1];
    assert next[..|done| + i] == done + rows[..i] && next[|done| + i] == rows[i];
    if fault == Some(|done| + i) || HasRow(earnings, rows[i]) {
      FailedStaysFailed(start, next, rows[i + 1..], fault);
      assert next + rows[i + 1..] == done + rows;
    }
  }

  /** The same for all the rows of one node. */
  lemma {:induction false} OneNodeFurther(start: seq<Earning>, done: seq<Earning>, id: nat, nodes: seq<NodeUptime>,
      total: nat, pool: real, i: nat, fault: Option<nat>)
    requires total > 0 && i < |nodes|
    ensures var rows := RowsFor(id, nodes[i], Share(nodes[i], total, pool));
      var here := (done + NodeRows(id, nodes[..i], total, pool)) + rows;
      && here == done + NodeRows(id, nodes[..i + 1], total, pool)
      && (InsertAll(start, here, fault) == None ==>
        InsertAll(start, done + NodeRows(id, nodes, total, pool), fault) == None)
  {
    assert nodes[..i + 1][..i] == nodes[..i];
    var before, rows := NodeRows(id, nodes[..i], total, pool), RowsFor(id, nodes[i], Share(nodes[i], total, pool));
    var here := (done + before) + rows;
    assert here == done + (before + rows);
    if InsertAll(start, here, fault) == None {
      var rest := NodeRowsTail(id, nodes, total, pool, i + 1);
      FailedStaysFailed(start, here, rest, fault);
      assert here + rest == done + ((before + rows) + rest);
    }
  }

  ghost function NodeRowsTail(id: nat, nodes: seq<NodeUptime>, total: nat, pool: real, i: nat): (rest: seq<Earning>)
    requires total > 0 && i <= |nodes|
    ensures NodeRows(id, nodes, total, pool) == NodeRows(id, nodes[..i], total, pool) + rest
    decreases |nodes| - i
  {
    if i == |nodes| then assert nodes[..i] == nodes; []
    else
      assert nodes[..i + 1][..i] == nodes[..i];
      RowsFor(id, nodes[i], Share(nodes[i], total, pool)) + NodeRowsTail(id, nodes, total, pool, i + 1)
  }
}
