/** Whole runs of the operations engine, one operation at a time: what every reachable state keeps. */
module EngineRuns {
  import opened Wrappers
  import opened OpsTables
  import opened EpochFinalization
  import opened OperationsEngine

  datatype Step =
    | Op(req: Request, env: OpEnv)
    | Close(epochId: nat, closeEnv: CloseEnv)
    | Open(epochEnv: EpochEnv)
    | Deposit(client: string, amount: real)

  predicate Enabled(s: Step)
  {
    s.Deposit? ==> s.amount >= 0.0
  }

  function Next(c: Config, t: Tables, s: Step): Tables
  {
    match s
    case Op(req, env) => ExecuteOp(c, t, req, env).1
    case Close(epochId, env) => FinalizeEpoch(c, t, epochId, env).1
    case Open(env) =>
      var (_, epochs, current) := InitEpoch(t.epochs, t.current, env);
      t.(epochs := epochs, current := current)
    case Deposit(client, amount) => t.(postings := t.postings + Transfer(Outside, Client(client), amount))
  }

  /** A step under the pricing and settings of its moment. */
  datatype Turn = Turn(c: Config, step: Step)

  function Exec(t: Tables, turns: seq<Turn>): Tables
    decreases |turns|
  {
    if turns == [] then t else Exec(Next(turns[0].c, t, turns[0].step), turns[1..])
  }

  /** A run goes step by step, and a step is the engine's own operation, an opening, or a deposit to a client from
      outside. */
  lemma {:induction false} RunSteps(t: Tables, turns: seq<Turn>, turn: Turn)
    ensures var u, u' := Exec(t, turns), Exec(t, turns + [turn]);
      match turn.step
      case Op(req, env) => u' == ExecuteOp(turn.c, u, req, env).1
      case Close(epochId, env) => u' == FinalizeEpoch(turn.c, u, epochId, env).1
      case Open(env) =>
        var (_, epochs, current) := InitEpoch(u.epochs, u.current, env);
        u' == Tables(epochs, u.events, u.earnings, u.postings, current)
      case Deposit(client, amount) =>
        u' == u.(postings := u.postings + [Posting(Outside, true, amount), Posting(Client(client), false, amount)])
    decreases |turns|
  {
    if turns == [] {
      assert turns + [turn] == [turn] && [turn][1..] == [];
      assert Exec(Next(turn.c, t, turn.step), [turn][1..]) == Next(turn.c, t, turn.step);
    } else {
      assert (turns + [turn])[1..] == turns[1..] + [turn];
      RunSteps(Next(turns[0].c, t, turns[0].step), turns[1..], turn);
    }
  }

  // ---------------------------------------------------------------- what every step keeps

  ghost predicate EventsPlaced(t: Tables)
  {
    forall k :: 0 <= k < |t.events| ==> 1 <= t.events[k].epoch <= |t.epochs|
  }

  /** Only closed epochs have earnings. */
  ghost predicate EarningsPlaced(t: Tables)
  {
    forall i :: 0 <= i < |t.earnings| ==> IsClosed(t.epochs, t.earnings[i].epoch)
  }

  /** At most one event per client, operation and request id. */
  ghost predicate KeysOnce(events: seq<Event>)
  {
    forall i, j :: 0 <= i < j < |events| ==> !SameKey(events[j], events[i].client, events[i].op, events[i].request)
  }

  /** Postings balance and no named client is overdrawn. */
  ghost predicate Solvent(postings: seq<Posting>)
  {
    Net(postings) == 0.0 && forall client :: client != "" ==> Available(postings, client) >= 0.0
  }

  /** A closed epoch has paid out its revenue, or half of it, or nothing when it had none. */
  ghost predicate Settled(t: Tables, id: nat)
  {
    var revenue, earned := Revenue(t.events, id), Earned(t.earnings, id);
    if revenue <= 0.0 then earned == 0.0 else earned == revenue || earned == revenue * 0.50
  }

  ghost predicate AllSettled(t: Tables)
  {
    forall id :: IsClosed(t.epochs, id) ==> Settled(t, id)
  }

  ghost predicate Inv(t: Tables)
  {
    && AtMostOneOpen(t.epochs)
    && EventsPlaced(t)
    && EarningsPlaced(t)
    && KeysOnce(t.events)
    && Solvent(t.postings)
    && AllSettled(t)
  }

  // ---- opening

  lemma {:induction false} OpenKeeps(t: Tables, env: EpochEnv)
    requires Inv(t)
    ensures var (id, epochs, current) := InitEpoch(t.epochs, t.current, env);
      Inv(t.(epochs := epochs, current := current))
  {
    var (id, epochs, current) := InitEpoch(t.epochs, t.current, env);
    var t' := t.(epochs := epochs, current := current);
    InitEpochExact(t.epochs, t.current, env);
    ExtendKeeps(t.epochs, epochs);
    forall k | IsClosed(epochs, k)
      ensures Settled(t', k)
    {
      InitOnlyOpens(t.epochs, t.current, env, k);
    }
  }

  lemma {:induction false} ExtendKeeps(epochs: seq<Epoch>, epochs': seq<Epoch>)
    requires epochs <= epochs'
    ensures forall id :: IsClosed(epochs, id) ==> IsClosed(epochs', id)
    ensures forall id :: IsOpen(epochs, id) ==> IsOpen(epochs', id)
  {
    assert forall i :: 0 <= i < |epochs| ==> epochs'[i] == epochs[i];
  }

  lemma {:induction false} InitOnlyOpens(epochs: seq<Epoch>, current: Option<nat>, env: EpochEnv, id: nat)
    ensures IsClosed(InitEpoch(epochs, current, env).1, id) ==> IsClosed(epochs, id)
  {
  }

  // ---- operations

  /** An accepted operation appends one event, to an epoch that is open from then on. */
  lemma {:induction false} OpRecords(c: Config, t: Tables, req: Request, env: OpEnv)
    requires AtMostOneOpen(t.epochs)
    ensures var (r, t') := ExecuteOp(c, t, req, env);
      && t'.earnings == t.earnings && t.epochs <= t'.epochs
      && (r.Accepted? ==>
            && t'.events == t.events + [t'.events[|t.events|]]
            && IsOpen(t'.epochs, t'.events[|t.events|].epoch)
            && r.eventId == |t'.events| && r.amount == t'.events[|t.events|].amount
            && SameKey(t'.events[|t.events|], req.client, req.op, req.request)
            && FindEvent(t.events, req.client, req.op, req.request) == None)
      && (!r.Accepted? ==> t'.events == t.events && t'.postings == t.postings)
  {
    InitEpochExact(t.epochs, t.current, env.epoch);
  }

  /** What an operation posts: nothing, or the recorded price moved from the client to the platform, which a named
      client could afford. */
  lemma {:induction false} OpPosts(c: Config, t: Tables, req: Request, env: OpEnv)
    ensures var t' := ExecuteOp(c, t, req, env).1;
      t'.postings == t.postings ||
      exists price :: price > 0.0 && t'.postings == t.postings + Transfer(Client(req.client), PlatformRevenue, price)
        && (req.client != "" ==> Available(t.postings, req.client) >= price)
  {
    match Checks(c, t, req, env)
    case Stop(_) =>
    case Go(price) =>
      assert t.postings + [] == t.postings;
  }

  lemma {:induction false} OpSolvent(c: Config, t: Tables, req: Request, env: OpEnv)
    requires Solvent(t.postings)
    ensures Solvent(ExecuteOp(c, t, req, env).1.postings)
  {
    OpPosts(c, t, req, env);
    var posts := ExecuteOp(c, t, req, env).1.postings;
    if posts != t.postings {
      var price :| price > 0.0 && posts == t.postings + Transfer(Client(req.client), PlatformRevenue, price)
        && (req.client != "" ==> Available(t.postings, req.client) >= price);
      TransferEffect(t.postings, Client(req.client), PlatformRevenue, price, PlatformRevenue);
      forall client | client != ""
        ensures Available(posts, client) >= 0.0
      {
        TransferEffect(t.postings, Client(req.client), PlatformRevenue, price, Client(client));
        assert Available(t.postings, client) >= 0.0;
      }
    }
  }

  lemma {:induction false} OpKeeps(c: Config, t: Tables, req: Request, env: OpEnv)
    requires Inv(t)
    ensures Inv(ExecuteOp(c, t, req, env).1)
  {
    OpSolvent(c, t, req, env);
    match Checks(c, t, req, env)
    case Stop(_) =>
    case Go(price) =>
      var (id, epochs, current) := InitEpoch(t.epochs, t.current, env.epoch);
      var t1 := t.(epochs := epochs, current := current);
      OpenKeeps(t, env.epoch);
      InitEpochExact(t.epochs, t.current, env.epoch);
      if id.Some? && !env.eventInsertFails {
        AppendKeeps(t1, EventOf(id.value, req, price, env.now), ExecuteOp(c, t, req, env).1);
      }
  }

  lemma {:induction false} AppendKeeps(t: Tables, e: Event, t': Tables)
    requires Inv(t) && IsOpen(t.epochs, e.epoch) && FindEvent(t.events, e.client, e.op, e.request) == None
    requires t' == t.(events := t.events + [e], postings := t'.postings) && Solvent(t'.postings)
    ensures Inv(t')
  {
    forall id | IsClosed(t'.epochs, id)
      ensures Settled(t', id)
    {
      assert Settled(t, id);
      RevenueAppend(t.events, e, id);
    }
  }

  // ---- closing

  lemma {:induction false} CloseFlips(epochs: seq<Epoch>, id: nat)
    requires IsOpen(epochs, id)
    ensures var epochs' := epochs[id - 1 := epochs[id - 1].(open := false)];
      && (forall k: nat :: IsClosed(epochs', k) <==> IsClosed(epochs, k) || k == id)
      && (forall k: nat :: IsOpen(epochs', k) ==> IsOpen(epochs, k))
  {
  }

  lemma {:induction false} ClosePlaces(t: Tables, id: nat, env: CloseEnv)
    requires Inv(t) && CloseEpoch(t, id, env).Some?
    ensures EarningsPlaced(CloseEpoch(t, id, env).value)
  {
    var t' := CloseEpoch(t, id, env).value;
    var rows := EarningRows(id, Revenue(t.events, id), env.hasDistributors, env.nodes);
    InsertAllAppends(t.earnings, rows, env.fault);
    AllOfEpoch(id, Revenue(t.events, id), env.hasDistributors, env.nodes);
    CloseFlips(t.epochs, id);
    forall i | 0 <= i < |t'.earnings|
      ensures IsClosed(t'.epochs, t'.earnings[i].epoch)
    {
      if i < |t.earnings| {
        assert t'.earnings[i] == t.earnings[i];
      } else {
        assert t'.earnings[i] == rows[i - |t.earnings|];
      }
    }
  }

  lemma {:induction false} CloseKeepsTables(t: Tables, id: nat, env: CloseEnv)
    requires Inv(t) && CloseEpoch(t, id, env).Some?
    ensures Inv(CloseEpoch(t, id, env).value)
  {
    var t' := CloseEpoch(t, id, env).value;
    CloseFlips(t.epochs, id);
    ClosePlaces(t, id, env);
    forall k: nat | IsClosed(t'.epochs, k)
      ensures Settled(t', k)
    {
      CloseSettles(t, id, env, k);
    }
  }

  lemma {:induction false} CloseSettles(t: Tables, id: nat, env: CloseEnv, k: nat)
    requires Inv(t) && CloseEpoch(t, id, env).Some? && IsClosed(CloseEpoch(t, id, env).value.epochs, k)
    ensures Settled(CloseEpoch(t, id, env).value, k)
  {
    var revenue := Revenue(t.events, id);
    var rows := EarningRows(id, revenue, env.hasDistributors, env.nodes);
    InsertAllAppends(t.earnings, rows, env.fault);
    EarnedConcat(t.earnings, rows, k);
    AllOfEpoch(id, revenue, env.hasDistributors, env.nodes);
    if k == id {
      EarnedNone(t.earnings, id);
      EarningsConserve(id, revenue, env.hasDistributors, env.nodes);
    } else {
      EarnedNone(rows, k);
      assert IsClosed(t.epochs, k) && Settled(t, k);
    }
  }

  lemma {:induction false} RewardSolvent(c: Config, t: Tables, id: nat, ledgerFails: bool)
    requires Solvent(t.postings)
    ensures Solvent(t.postings + RewardPostings(c, t, id, ledgerFails))
  {
    var owed := Liability(t.earnings, id);
    assert t.postings + [] == t.postings;
    TransferEffect(t.postings, Treasury, RewardsPayable, owed, Treasury);
    forall client | client != ""
      ensures Available(t.postings + RewardPostings(c, t, id, ledgerFails), client) >= 0.0
    {
      TransferEffect(t.postings, Treasury, RewardsPayable, owed, Client(client));
      assert Available(t.postings, client) >= 0.0;
    }
  }

  lemma {:induction false} CloseKeeps(c: Config, t: Tables, epochId: nat, env: CloseEnv)
    requires Inv(t)
    ensures Inv(FinalizeEpoch(c, t, epochId, env).1)
  {
    var id := if epochId != 0 then epochId else if t.current.Some? then t.current.value else 0;
    var closed := CloseEpoch(t, id, env);
    if closed.Some? {
      CloseKeepsTables(t, id, env);
      RewardSolvent(c, closed.value, id, env.ledgerFails);
      var t1 := closed.value.(postings := t.postings + RewardPostings(c, closed.value, id, env.ledgerFails));
      SamePlaces(closed.value, t1);
      OpenKeeps(t1, env.epoch);
    }
  }

  lemma {:induction false} SamePlaces(t: Tables, t': Tables)
    requires Inv(t) && t' == t.(postings := t'.postings) && Solvent(t'.postings)
    ensures Inv(t')
  {
    forall id | IsClosed(t'.epochs, id)
      ensures Settled(t', id)
    {
      assert Settled(t, id);
    }
  }

  lemma {:induction false} DepositKeeps(t: Tables, client: string, amount: real)
    requires Inv(t) && amount >= 0.0
    ensures Inv(t.(postings := t.postings + Transfer(Outside, Client(client), amount)))
  {
    var t' := t.(postings := t.postings + Transfer(Outside, Client(client), amount));
    TransferEffect(t.postings, Outside, Client(client), amount, Outside);
    forall other | other != ""
      ensures Available(t'.postings, other) >= 0.0
    {
      TransferEffect(t.postings, Outside, Client(client), amount, Client(other));
      assert Available(t.postings, other) >= 0.0;
    }
    SamePlaces(t, t');
  }

  lemma {:induction false} StepKeeps(c: Config, t: Tables, s: Step)
    requires Inv(t) && Enabled(s)
    ensures Inv(Next(c, t, s))
  {
    match s
    case Op(req, env) => OpKeeps(c, t, req, env);
    case Close(epochId, env) => CloseKeeps(c, t, epochId, env);
    case Open(env) => OpenKeeps(t, env);
    case Deposit(client, amount) => DepositKeeps(t, client, amount);
  }

  ghost predicate Possible(turns: seq<Turn>)
  {
    forall i :: 0 <= i < |turns| ==> Enabled(turns[i].step)
  }

  /** Over every run, under settings that may change at every step: at most one epoch is open, there is at most
      one event per idempotency key, postings balance, no named client is overdrawn even when ledger writes fail,
      and every closed epoch has paid out its revenue or half of it. */
  lemma {:induction false} RunKeeps(t: Tables, turns: seq<Turn>)
    requires Inv(t) && Possible(turns)
    ensures Inv(Exec(t, turns))
    decreases |turns|
  {
    if turns != [] {
      StepKeeps(turns[0].c, t, turns[0].step);
      RunKeeps(Next(turns[0].c, t, turns[0].step), turns[1..]);
    }
  }

  /** So from empty tables: the engine's own start. */
  lemma {:induction false} FromEmpty(turns: seq<Turn>)
    requires Possible(turns)
    ensures Inv(Exec(Tables([], [], [], [], None), turns))
  {
    RunKeeps(Tables([], [], [], [], None), turns);
  }

  // ---------------------------------------------------------------- freezing

  /** A closed epoch stays as it is over every run: still closed, its revenue and its earnings unchanged. */
  lemma {:induction false} ClosedIsFrozen(t: Tables, turns: seq<Turn>, id: nat)
    requires Inv(t) && Possible(turns) && IsClosed(t.epochs, id)
    ensures var t' := Exec(t, turns);
      && IsClosed(t'.epochs, id)
      && Revenue(t'.events, id) == Revenue(t.events, id)
      && Earned(t'.earnings, id) == Earned(t.earnings, id)
    decreases |turns|
  {
    if turns != [] {
      StepKeeps(turns[0].c, t, turns[0].step);
      StepFreezes(turns[0].c, t, turns[0].step, id);
      ClosedIsFrozen(Next(turns[0].c, t, turns[0].step), turns[1..], id);
    }
  }

  lemma {:induction false} StepFreezes(c: Config, t: Tables, s: Step, id: nat)
    requires Inv(t) && IsClosed(t.epochs, id)
    ensures var t' := Next(c, t, s);
      IsClosed(t'.epochs, id) && Revenue(t'.events, id) == Revenue(t.events, id)
        && Earned(t'.earnings, id) == Earned(t.earnings, id)
  {
    match s
    case Op(req, env) =>
      OpRecords(c, t, req, env);
      var t' := Next(c, t, s);
      ExtendKeeps(t.epochs, t'.epochs);
      if ExecuteOp(c, t, req, env).0.Accepted? {
        RevenueAppend(t.events, t'.events[|t.events|], id);
      }
    case Close(epochId, env) => CloseFreezes(c, t, epochId, env, id);
    case Open(env) =>
      InitEpochExact(t.epochs, t.current, env);
      ExtendKeeps(t.epochs, InitEpoch(t.epochs, t.current, env).1);
    case Deposit(_, _) =>
  }

  lemma {:induction false} CloseFreezes(c: Config, t: Tables, epochId: nat, env: CloseEnv, k: nat)
    requires Inv(t) && IsClosed(t.epochs, k)
    ensures var t' := FinalizeEpoch(c, t, epochId, env).1;
      IsClosed(t'.epochs, k) && t'.events == t.events && Earned(t'.earnings, k) == Earned(t.earnings, k)
  {
    var id := if epochId != 0 then epochId else if t.current.Some? then t.current.value else 0;
    var closed := CloseEpoch(t, id, env);
    if closed.Some? {
      OthersStayClosed(t, id, env, k);
      InitEpochExact(closed.value.epochs, closed.value.current, env.epoch);
      ExtendKeeps(closed.value.epochs, InitEpoch(closed.value.epochs, closed.value.current, env.epoch).1);
    }
  }

  lemma {:induction false} OthersStayClosed(t: Tables, id: nat, env: CloseEnv, k: nat)
    requires Inv(t) && IsClosed(t.epochs, k) && CloseEpoch(t, id, env).Some?
    ensures var t' := CloseEpoch(t, id, env).value;
      && AtMostOneOpen(t'.epochs) && IsClosed(t'.epochs, k)
      && t'.events == t.events && Earned(t'.earnings, k) == Earned(t.earnings, k)
  {
    OthersEarnNothing(t.earnings, id, Revenue(t.events, id), env.hasDistributors, env.nodes, env.fault, k);
    CloseFlips(t.epochs, id);
    CloseKeepsTables(t, id, env);
  }

  // ---------------------------------------------------------------- closing, all or nothing

  /** Whether an open epoch can be closed, from the tables and the nodes before the call: no insert faults, and no
      two nodes clash over an earnings key when there is revenue to share among nodes that were up. */
  predicate Closable(t: Tables, id: nat, env: CloseEnv)
  {
    var revenue := Revenue(t.events, id);
    && Faultless(env.fault, |EarningRows(id, revenue, env.hasDistributors, env.nodes)|)
    && (revenue <= 0.0 || TotalUptime(env.nodes) == 0 ||
        forall j, k :: 0 <= j < k < |env.nodes| ==> !Clash(env.nodes[j], env.nodes[k]))
  }

  lemma {:induction false} ClosableExactly(t: Tables, id: nat, env: CloseEnv)
    requires EarningsPlaced(t) && IsOpen(t.epochs, id)
    ensures Closable(t, id, env) <==> CloseEpoch(t, id, env).Some?
  {
    ClosesExactly(t.earnings, id, Revenue(t.events, id), env.hasDistributors, env.nodes, env.fault);
  }

  /** What closing an epoch leaves: the epoch closed, every other epoch and all events as they were, its revenue
      shared out, and owed what the split owes. */
  ghost predicate ClosedAndShared(t: Tables, t': Tables, id: nat, env: CloseEnv)
  {
    && IsClosed(t'.epochs, id)
    && t'.events == t.events
    && Settles(t'.earnings, id, Revenue(t.events, id), env.hasDistributors, env.nodes)
  }

  /** What the reward posting changes: the treasury owes the payees what is owed, and no other account moves. */
  ghost predicate Rewarded(postings: seq<Posting>, postings': seq<Posting>, amount: real)
  {
    && Balance(postings', Treasury) == Balance(postings, Treasury) + amount
    && Balance(postings', RewardsPayable) == Balance(postings, RewardsPayable) - amount
    && forall a: Account :: a != Treasury && a != RewardsPayable ==> Balance(postings', a) == Balance(postings, a)
  }

  /** Finalizing an open epoch: if it is not closable everything stays as it was, the epoch open with no earnings;
      if it is, it closes, shares its revenue out, and posts as reward exactly what is owed, unless that ledger
      write fails; and another epoch is open, unless that fails too. */
  lemma {:induction false} FinalizeAllOrNothing(c: Config, t: Tables, id: nat, env: CloseEnv)
    requires Inv(t) && IsOpen(t.epochs, id)
    ensures var (r, t') := FinalizeEpoch(c, t, id, env);
      if !Closable(t, id, env) then r == CloseThrew && t' == t && Earned(t.earnings, id) == 0.0
      else
        && ClosedAndShared(t, t', id, env)
        && Rewarded(t.postings, t'.postings,
             if c.hasLedger && !env.ledgerFails && Liability(t'.earnings, id) > 0.0 then Liability(t'.earnings, id)
               else 0.0)
        && (r == Closed(id) <==> exists next :: IsOpen(t'.epochs, next))
        && (r != Closed(id) ==> r == CloseThrew)
  {
    ClosableExactly(t, id, env);
    EarnedNone(t.earnings, id);
    var closed := CloseEpoch(t, id, env);
    if closed.Some? {
      CloseShares(t, id, env);
      RewardEffect(c, closed.value, id, env.ledgerFails);
      Reopens(c, t, id, env);
    }
  }

  lemma {:induction false} Reopens(c: Config, t: Tables, id: nat, env: CloseEnv)
    requires Inv(t) && IsOpen(t.epochs, id) && CloseEpoch(t, id, env).Some?
    ensures var (r, t') := FinalizeEpoch(c, t, id, env);
      && IsClosed(t'.epochs, id)
      && (r == Closed(id) <==> exists next :: IsOpen(t'.epochs, next))
      && (r != Closed(id) ==> r == CloseThrew)
  {
    var closed := CloseEpoch(t, id, env).value;
    CloseFlips(t.epochs, id);
    CloseKeepsTables(t, id, env);
    InitEpochExact(closed.epochs, closed.current, env.epoch);
    ExtendKeeps(closed.epochs, InitEpoch(closed.epochs, closed.current, env.epoch).1);
  }

  lemma {:induction false} CloseShares(t: Tables, id: nat, env: CloseEnv)
    requires Inv(t) && CloseEpoch(t, id, env).Some?
    ensures ClosedAndShared(t, CloseEpoch(t, id, env).value, id, env)
  {
    var revenue := Revenue(t.events, id);
    InsertAllAppends(t.earnings, EarningRows(id, revenue, env.hasDistributors, env.nodes), env.fault);
    RowsSettle(t.earnings, id, revenue, env.hasDistributors, env.nodes);
    CloseFlips(t.epochs, id);
  }

  /** Without an epoch id the current one is finalized, and without either the call throws. */
  lemma {:induction false} FinalizesCurrent(c: Config, t: Tables, env: CloseEnv)
    ensures FinalizeEpoch(c, t, 0, env) ==
      if t.current.Some? && t.current.value != 0 then FinalizeEpoch(c, t, t.current.value, env) else (CloseThrew, t)
  {
  }

  const ONE_SALE :=
    Tables([Epoch(true, Some(0), 0)], [Event(1, "rpc_call", "n", "c", 10.0, "r", 0)], [], [], Some(1))

  const TWO_MANAGED :=
    CloseEnv(false, [NodeUptime("w1", 60, true), NodeUptime("w2", 60, true)], None, false, EPOCH_WORKS)

  const EPOCH_WORKS := EpochEnv(0, Works(true), true)

  /** Two managed nodes that were up in an epoch with revenue: closing it throws and changes nothing. */
  lemma {:induction false} TwoManagedCannotClose(c: Config)
    ensures FinalizeEpoch(c, ONE_SALE, 1, TWO_MANAGED) == (CloseThrew, ONE_SALE)
  {
    var t, env := ONE_SALE, TWO_MANAGED;
    assert t.events[..0] == [];
    assert Revenue(t.events, 1) == 10.0;
    assert TotalUptime(env.nodes) >= env.nodes[1].uptime;
    assert Clash(env.nodes[0], env.nodes[1]);
    ClosableExactly(t, 1, env);
  }

  lemma {:induction false} RewardEffect(c: Config, t: Tables, id: nat, ledgerFails: bool)
    ensures var owed := Liability(t.earnings, id);
      Rewarded(t.postings, t.postings + RewardPostings(c, t, id, ledgerFails),
        if c.hasLedger && !ledgerFails && owed > 0.0 then owed else 0.0)
  {
    assert t.postings + [] == t.postings;
    var owed := Liability(t.earnings, id);
    forall a: Account
      ensures Balance(t.postings + Transfer(Treasury, RewardsPayable, owed), a) ==
        Balance(t.postings, a) + (if a == Treasury then owed else 0.0) - (if a == RewardsPayable then owed else 0.0)
    {
      TransferEffect(t.postings, Treasury, RewardsPayable, owed, a);
    }
  }

  // ---------------------------------------------------------------- exactly once

  lemma {:induction false} EventsOnlyGrow(t: Tables, turns: seq<Turn>)
    requires Inv(t) && Possible(turns)
    ensures t.events <= Exec(t, turns).events
    decreases |turns|
  {
    if turns != [] {
      var c, step := turns[0].c, turns[0].step;
      StepKeeps(c, t, step);
      var t1 := Next(c, t, step);
      if step.Op? {
        OpRecords(c, t, step.req, step.env);
      } else {
        assert t1.events == t.events;
      }
      EventsOnlyGrow(t1, turns[1..]);
    }
  }

  lemma {:induction false} FindsTheOne(events: seq<Event>, k: nat)
    requires KeysOnce(events) && k < |events|
    ensures FindEvent(events, events[k].client, events[k].op, events[k].request) == Some(k + 1)
  {
    var e := events[k];
    var r := FindEvent(events, e.client, e.op, e.request);
    assert SameKey(events[k], e.client, e.op, e.request);
    assert SameKey(events[r.value - 1], e.client, e.op, e.request);
  }

  /** A replay of an accepted request, however much later and under whatever settings, changes nothing: it is
      answered with the first event's id, or turned away at the door. */
  lemma {:induction false} ReplayChangesNothing(c: Config, t: Tables, req: Request, env: OpEnv, turns: seq<Turn>,
      c2: Config, env2: OpEnv)
    requires Inv(t) && Possible(turns) && ExecuteOp(c, t, req, env).0.Accepted?
    ensures var (first, t1) := ExecuteOp(c, t, req, env);
      var t2 := Exec(t1, turns);
      ExecuteOp(c2, t2, req, env2) ==
        (if env2.safeMode then Refused(SafeMode)
         else if req.client != "" && env2.throttled then Refused(Throttled)
         else if req.op !in c2.pricing then Refused(UnknownOperation)
         else AlreadyProcessed(first.eventId), t2)
  {
    var t1 := ExecuteOp(c, t, req, env).1;
    OpRecords(c, t, req, env);
    OpKeeps(c, t, req, env);
    RunKeeps(t1, turns);
    EventsOnlyGrow(t1, turns);
    var events := Exec(t1, turns).events;
    assert events[|t.events|] == t1.events[|t.events|];
    FindsTheOne(events, |t.events|);
  }

  // ---------------------------------------------------------------- what an operation decides

  /** The stored events of the last minute, of one client, of one node. */
  ghost function Recent(events: seq<Event>, now: int): set<nat>
  {
    set i: nat | i < |events| && events[i].at > now - 60
  }

  ghost function RecentOf(events: seq<Event>, client: string, now: int): set<nat>
  {
    set i: nat | i < |events| && events[i].client == client && events[i].at > now - 60
  }

  ghost function RecentOn(events: seq<Event>, node: string, now: int): set<nat>
  {
    set i: nat | i < |events| && events[i].node == node && events[i].at > now - 60
  }

  lemma {:induction false} CountsAreCards(events: seq<Event>, client: string, node: string, now: int)
    ensures AllSince(events, now - 60) == |Recent(events, now)|
    ensures ClientSince(events, client, now - 60) == |RecentOf(events, client, now)|
    ensures NodeSince(events, node, now - 60) == |RecentOn(events, node, now)|
  {
    var all, mine, there := (e: Event) => e.at > now - 60, (e: Event) => e.client == client && e.at > now - 60,
      (e: Event) => e.node == node && e.at > now - 60;
    AllSinceCounts(events, now - 60, all);
    ClientSinceCounts(events, client, now - 60, mine);
    NodeSinceCounts(events, node, now - 60, there);
    assert Positions(events, all) == Recent(events, now);
    assert Positions(events, mine) == RecentOf(events, client, now);
    assert Positions(events, there) == RecentOn(events, node, now);
  }

  /** What is charged: the amount asked for if positive; else the rule's base price, multiplied if and only if
      surge is on and more than the threshold of events fell in the last minute; else, without a rule, the listed
      price. */
  ghost function Charge(c: Config, t: Tables, req: Request, now: int): real
    requires req.op in c.pricing
  {
    if req.amount > 0.0 then req.amount
    else if req.op !in c.rules then c.pricing[req.op].price
    else
      var rule := c.rules[req.op];
      rule.base * if rule.surgeEnabled && |Recent(t.events, now)| > rule.surgeThreshold then rule.surgeMultiplier
        else 1.0
  }

  /** One more event would exceed a limit; a limit of zero stands for 60 per client and 120 per node, a negative
      one for none. */
  ghost predicate Crowded(p: Pricing, t: Tables, req: Request, now: int)
  {
    var perClient, perNode := if p.perClient == 0 then 60 else p.perClient, if p.perNode == 0 then 120 else p.perNode;
    || (perClient > 0 && |RecentOf(t.events, req.client, now)| + 1 > perClient)
    || (perNode > 0 && |RecentOn(t.events, req.node, now)| + 1 > perNode)
  }

  ghost predicate Recorded(events: seq<Event>, req: Request, i: nat)
  {
    i < |events| && events[i].client == req.client && events[i].op == req.op && events[i].request == req.request
  }

  /** A request that is neither locked out, unknown nor already processed. */
  ghost predicate IsNew(c: Config, t: Tables, req: Request, env: OpEnv)
  {
    && !env.safeMode && !(req.client != "" && env.throttled) && req.op in c.pricing
    && forall i: nat :: !Recorded(t.events, req, i)
  }

  /** The balance falls short: only a named client is checked, only on a ledger, and having exactly the charge is
      enough. */
  ghost predicate Short(c: Config, t: Tables, req: Request, now: int)
    requires req.op in c.pricing
  {
    var charge := Charge(c, t, req, now);
    c.hasLedger && req.client != "" && charge > 0.0 && -Balance(t.postings, Client(req.client)) < charge
  }

  lemma {:induction false} ChargeIsPrice(c: Config, t: Tables, req: Request, now: int)
    requires req.op in c.pricing
    ensures FinalPrice(c, t.events, c.pricing[req.op], req, now) == Charge(c, t, req, now)
    ensures OverLimit(t.events, c.pricing[req.op], req, now) <==> Crowded(c.pricing[req.op], t, req, now)
  {
    CountsAreCards(t.events, req.client, req.node, now);
  }

  lemma {:induction false} ChecksExact(c: Config, t: Tables, req: Request, env: OpEnv)
    ensures var gate := Checks(c, t, req, env);
      && (gate == Stop(Refused(SafeMode)) <==> env.safeMode)
      && (gate == Stop(Refused(Throttled)) <==> !env.safeMode && req.client != "" && env.throttled)
      && (gate == Stop(Refused(UnknownOperation)) <==>
            !env.safeMode && !(req.client != "" && env.throttled) && req.op !in c.pricing)
      && (gate.Stop? && gate.result.AlreadyProcessed? ==>
            gate.result.eventId >= 1 && Recorded(t.events, req, gate.result.eventId - 1))
      && (gate == Stop(Refused(RateLimited)) <==> IsNew(c, t, req, env) && Crowded(c.pricing[req.op], t, req, env.now))
      && (gate == Stop(Refused(InsufficientBalance)) <==>
            IsNew(c, t, req, env) && !Crowded(c.pricing[req.op], t, req, env.now) && Short(c, t, req, env.now))
      && (gate.Go? <==>
            IsNew(c, t, req, env) && !Crowded(c.pricing[req.op], t, req, env.now) && !Short(c, t, req, env.now))
      && (gate.Go? ==> gate.price == Charge(c, t, req, env.now))
  {
    if req.op in c.pricing {
      ChargeIsPrice(c, t, req, env.now);
    }
    var existing := FindEvent(t.events, req.client, req.op, req.request);
    if existing.Some? {
      assert Recorded(t.events, req, existing.value - 1);
    } else {
      NotRecorded(t.events, req);
    }
  }

  lemma {:induction false} NotRecorded(events: seq<Event>, req: Request)
    requires FindEvent(events, req.client, req.op, req.request).None?
    ensures forall i: nat :: !Recorded(events, req, i)
  {
    forall i: nat | i < |events|
      ensures !Recorded(events, req, i)
    {
      assert !SameKey(events[i], req.client, req.op, req.request);
    }
  }

  /** An operation is accepted exactly when it is new, its client and node have room, its client can pay, an epoch
      is to be had and the event can be stored; then what was recorded and what was posted is the charge, and
      nothing else changed. */
  lemma {:induction false} AcceptsExactly(c: Config, t: Tables, req: Request, env: OpEnv)
    ensures var (r, t') := ExecuteOp(c, t, req, env);
      && (r.Accepted? <==>
            && IsNew(c, t, req, env) && !Crowded(c.pricing[req.op], t, req, env.now) && !Short(c, t, req, env.now)
            && InitEpoch(t.epochs, t.current, env.epoch).0.Some? && !env.eventInsertFails)
      && (r.Accepted? ==>
            var charge := Charge(c, t, req, env.now);
            && r == Accepted(|t.events| + 1, charge)
            && t'.current.Some?
            && t'.events == t.events + [Event(t'.current.value, req.op, req.node, req.client, charge, req.request,
              env.now)]
            && t'.postings == t.postings +
                 (if c.hasLedger && charge > 0.0 && !env.ledgerFails
                  then [Posting(Client(req.client), true, charge), Posting(PlatformRevenue, false, charge)] else []))
      && (!r.Accepted? ==> t'.events == t.events && t'.postings == t.postings)
      && t'.earnings == t.earnings
  {
    ChecksExact(c, t, req, env);
    assert t.postings + [] == t.postings;
  }

  // ---------------------------------------------------------------- solvency

  /** What one operation takes from a client, read off before the call: the charge, if the operation is the
      client's own, will be let through and stored, and the ledger takes the posting. */
  ghost function Taken(c: Config, t: Tables, req: Request, env: OpEnv, client: string): real
  {
    if && client == req.client
       && IsNew(c, t, req, env) && !Crowded(c.pricing[req.op], t, req, env.now) && !Short(c, t, req, env.now)
       && InitEpoch(t.epochs, t.current, env.epoch).0.Some? && !env.eventInsertFails
       && c.hasLedger && !env.ledgerFails && Charge(c, t, req, env.now) > 0.0
    then Charge(c, t, req, env.now) else 0.0
  }

  lemma {:induction false} OpTakes(c: Config, t: Tables, req: Request, env: OpEnv, client: string)
    ensures Available(ExecuteOp(c, t, req, env).1.postings, client) ==
      Available(t.postings, client) - Taken(c, t, req, env, client)
  {
    AcceptsExactly(c, t, req, env);
    assert t.postings + [] == t.postings;
    if ExecuteOp(c, t, req, env).0.Accepted? {
      TransferEffect(t.postings, Client(req.client), PlatformRevenue, Charge(c, t, req, env.now), Client(client));
    }
  }

  /** An operation overdraws a client that was not overdrawn if and only if it is the empty client's own and its
      price, which the checks then do not compare with the balance, is more than is there. */
  lemma {:induction false} OverdrawsExactly(c: Config, t: Tables, req: Request, env: OpEnv, client: string)
    requires Available(t.postings, client) >= 0.0
    ensures Available(ExecuteOp(c, t, req, env).1.postings, client) < 0.0 <==>
      client == "" && Taken(c, t, req, env, "") > Available(t.postings, "")
  {
    OpTakes(c, t, req, env, client);
  }

  const RPC_ONLY := Config(map["rpc_call" := Pricing(0.01, 100, 200)], map[], true)

  const NO_CLIENT := Request("rpc_call", "n", "", "r", 0.0)

  const ALL_WORKS := OpEnv(0, false, false, EPOCH_WORKS, false, false)

  const EMPTY := Tables([], [], [], [], None)

  lemma {:induction false} NothingToCheck()
    ensures Checks(RPC_ONLY, EMPTY, NO_CLIENT, ALL_WORKS) == Go(0.01)
  {
  }

  /** The empty client's first operation takes it below zero. */
  lemma {:induction false} EmptyClientOverdraws()
    ensures Available(ExecuteOp(RPC_ONLY, EMPTY, NO_CLIENT, ALL_WORKS).1.postings, "") < 0.0
  {
    NothingToCheck();
    OverdrawsExactly(RPC_ONLY, EMPTY, NO_CLIENT, ALL_WORKS, "");
  }

  // ---------------------------------------------------------------- the sliding window

  /** When each event was accepted, its client and its node had room under the largest limits. */
  ghost predicate Spaced(events: seq<Event>, perClient: int, perNode: int)
  {
    events == [] ||
    (var n := |events| - 1;
     && Spaced(events[..n], perClient, perNode)
     && ClientSince(events[..n], events[n].client, events[n].at - WINDOW) < perClient
     && NodeSince(events[..n], events[n].node, events[n].at - WINDOW) < perNode)
  }

  /** Every enabled operation has positive limits, none above the given ones. */
  ghost predicate LimitsWithin(c: Config, perClient: int, perNode: int)
  {
    forall op :: op in c.pricing ==>
      && 0 < (if c.pricing[op].perClient == 0 then 60 else c.pricing[op].perClient) <= perClient
      && 0 < (if c.pricing[op].perNode == 0 then 120 else c.pricing[op].perNode) <= perNode
  }

  lemma {:induction false} OpSpaces(c: Config, t: Tables, req: Request, env: OpEnv, perClient: int, perNode: int)
    requires LimitsWithin(c, perClient, perNode) && Spaced(t.events, perClient, perNode)
    ensures Spaced(ExecuteOp(c, t, req, env).1.events, perClient, perNode)
  {
    match Checks(c, t, req, env)
    case Stop(_) =>
    case Go(price) =>
      var id := InitEpoch(t.epochs, t.current, env.epoch).0;
      if id.Some? && !env.eventInsertFails {
        AppendSpaces(t.events, EventOf(id.value, req, price, env.now), c.pricing[req.op], req, env.now, perClient,
          perNode);
      }
  }

  lemma {:induction false} AppendSpaces(events: seq<Event>, e: Event, p: Pricing, req: Request, now: int,
      perClient: int,
      perNode: int)
    requires Spaced(events, perClient, perNode) && !OverLimit(events, p, req, now)
    requires 0 < ClientLimit(p) <= perClient && 0 < NodeLimit(p) <= perNode
    requires e.client == req.client && e.node == req.node && e.at == now
    ensures Spaced(events + [e], perClient, perNode)
  {
    assert (events + [e])[..|events|] == events;
  }

  ghost predicate AllWithin(turns: seq<Turn>, perClient: int, perNode: int)
  {
    forall i :: 0 <= i < |turns| ==> LimitsWithin(turns[i].c, perClient, perNode)
  }

  lemma {:induction false} RunSpaces(t: Tables, turns: seq<Turn>, perClient: int, perNode: int)
    requires AllWithin(turns, perClient, perNode) && Spaced(t.events, perClient, perNode)
    ensures Spaced(Exec(t, turns).events, perClient, perNode)
    decreases |turns|
  {
    if turns != [] {
      var c, step := turns[0].c, turns[0].step;
      var t1 := Next(c, t, step);
      if step.Op? {
        OpSpaces(c, t, step.req, step.env, perClient, perNode);
      } else {
        assert t1.events == t.events;
      }
      RunSpaces(t1, turns[1..], perClient, perNode);
    }
  }

  /** Events of one client in the window (until - 60, until]. */
  function ClientWithin(events: seq<Event>, client: string, until: int): nat
  {
    if events == [] then 0
    else
      var e := events[|events| - 1];
      ClientWithin(events[..|events| - 1], client, until)
      + if e.client == client && until - WINDOW < e.at <= until then 1 else 0
  }

  function NodeWithin(events: seq<Event>, node: string, until: int): nat
  {
    if events == [] then 0
    else
      var e := events[|events| - 1];
      NodeWithin(events[..|events| - 1], node, until)
      + if e.node == node && until - WINDOW < e.at <= until then 1 else 0
  }

  lemma {:induction false} WithinAtMostSince(events: seq<Event>, client: string, node: string, until: int, since: int)
    requires since <= until - WINDOW
    ensures ClientWithin(events, client, until) <= ClientSince(events, client, since)
    ensures NodeWithin(events, node, until) <= NodeSince(events, node, since)
  {
    if events != [] {
      WithinAtMostSince(events[..|events| - 1], client, node, until, since);
    }
  }

  lemma {:induction false} SpacedBounds(events: seq<Event>, client: string, node: string, until: int, perClient: int,
      perNode: int)
    requires Spaced(events, perClient, perNode) && perClient >= 0 && perNode >= 0
    ensures ClientWithin(events, client, until) <= perClient && NodeWithin(events, node, until) <= perNode
  {
    if events != [] {
      var n := |events| - 1;
      var e := events[n];
      SpacedBounds(events[..n], client, node, until, perClient, perNode);
      if e.at <= until {
        WithinAtMostSince(events[..n], client, node, until, e.at - WINDOW);
      }
    }
  }

  /** In every run, from empty tables or any whose events were let in under the same bounds, with pricing that may
      change at every step: any 60-second window, ending at whatever instant, holds no more events of one client,
      or of one node, than the largest limit that was ever configured, although limits differ by operation and are
      checked only on acceptance. */
  lemma {:induction false} WindowBound(t: Tables, turns: seq<Turn>, client: string, node: string, until: int,
      perClient: int, perNode: int)
    requires AllWithin(turns, perClient, perNode) && Spaced(t.events, perClient, perNode) && perClient >= 0
      && perNode >= 0
    ensures var events := Exec(t, turns).events;
      && |set i: nat | i < |events| && events[i].client == client && until - 60 < events[i].at <= until| <= perClient
      && |set i: nat | i < |events| && events[i].node == node && until - 60 < events[i].at <= until| <= perNode
  {
    var events := Exec(t, turns).events;
    RunSpaces(t, turns, perClient, perNode);
    SpacedBounds(events, client, node, until, perClient, perNode);
    var mine, there := (e: Event) => e.client == client && until - 60 < e.at <= until,
      (e: Event) => e.node == node && until - 60 < e.at <= until;
    ClientWithinCounts(events, client, until, mine);
    NodeWithinCounts(events, node, until, there);
    assert Positions(events, mine) ==
      set i: nat | i < |events| && events[i].client == client && until - 60 < events[i].at <= until;
    assert Positions(events, there) ==
      set i: nat | i < |events| && events[i].node == node && until - 60 < events[i].at <= until;
  }

  lemma {:induction false} ClientWithinCounts(events: seq<Event>, client: string, until: int, p: Event -> bool)
    requires forall e :: p(e) <==> e.client == client && until - 60 < e.at <= until
    ensures ClientWithin(events, client, until) == |Positions(events, p)|
  {
    if events == [] {
      NoPositions(p);
    } else {
      ClientWithinCounts(events[..|events| - 1], client, until, p);
      PositionsStep(events, p);
    }
  }

  lemma {:induction false} NodeWithinCounts(events: seq<Event>, node: string, until: int, p: Event -> bool)
    requires forall e :: p(e) <==> e.node == node && until - 60 < e.at <= until
    ensures NodeWithin(events, node, until) == |Positions(events, p)|
  {
    if events == [] {
      NoPositions(p);
    } else {
      NodeWithinCounts(events[..|events| - 1], node, until, p);
      PositionsStep(events, p);
    }
  }
}
