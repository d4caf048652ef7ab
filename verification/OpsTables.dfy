/** The operations engine's tables: epochs, revenue events, earnings, and the ledger's postings.
    Amounts are exact reals. An epoch's id is its position plus one. */
module OpsTables {
  import opened Wrappers

  datatype Epoch = Epoch(open: bool, slot: Option<int>, startsAt: int)

  datatype Event = Event(epoch: nat, op: string, node: string, client: string, amount: real, request: string, at: int)

  datatype Role = Platform | DistributorLco | DistributorInfluencer | DistributionPool | InfraReserve | NodeOperator

  datatype Earning = Earning(epoch: nat, role: Role, payee: string, amount: real)

  datatype Account = Client(id: string) | PlatformRevenue | Treasury | RewardsPayable | Outside

  datatype Posting = Posting(account: Account, debit: bool, amount: real)

  datatype Tables = Tables(
    epochs: seq<Epoch>,
    events: seq<Event>,
    earnings: seq<Earning>,
    postings: seq<Posting>,
    current: Option<nat>)

  predicate IsOpen(epochs: seq<Epoch>, id: nat)
  {
    1 <= id <= |epochs| && epochs[id - 1].open
  }

  predicate IsClosed(epochs: seq<Epoch>, id: nat)
  {
    1 <= id <= |epochs| && !epochs[id - 1].open
  }

  ghost predicate AtMostOneOpen(epochs: seq<Epoch>)
  {
    forall i, j :: IsOpen(epochs, i) && IsOpen(epochs, j) ==> i == j
  }

  // ---------------------------------------------------------------- aggregates

  /** SUM(amount) of one epoch's events. */
  function Revenue(events: seq<Event>, id: nat): real
  {
    if events == [] then 0.0
    else
      var e := events[|events| - 1];
      Revenue(events[..|events| - 1], id) + if e.epoch == id then e.amount else 0.0
  }

  function Earned(rows: seq<Earning>, id: nat): real
  {
    if rows == [] then 0.0
    else Earned(rows[..|rows| - 1], id) + if rows[|rows| - 1].epoch == id then rows[|rows| - 1].amount else 0.0
  }

  /** The part owed to others: everything but the platform's and the infrastructure reserve's rows. */
  predicate Owed(r: Role)
  {
    r != Platform && r != InfraReserve
  }

  function Liability(rows: seq<Earning>, id: nat): real
  {
    if rows == [] then 0.0
    else
      var e := rows[|rows| - 1];
      Liability(rows[..|rows| - 1], id) + if e.epoch == id && Owed(e.role) then e.amount else 0.0
  }

  /** The part the platform keeps: its fee and the infrastructure reserve. */
  function Kept(rows: seq<Earning>, id: nat): real
  {
    if rows == [] then 0.0
    else
      var e := rows[|rows| - 1];
      Kept(rows[..|rows| - 1], id) + if e.epoch == id && !Owed(e.role) then e.amount else 0.0
  }

  /** What one role and payee was given for an epoch. */
  function PaidTo(rows: seq<Earning>, id: nat, role: Role, payee: string): real
  {
    if rows == [] then 0.0
    else
      var e := rows[|rows| - 1];
      PaidTo(rows[..|rows| - 1], id, role, payee)
      + if e.epoch == id && e.role == role && e.payee == payee then e.amount else 0.0
  }

  lemma {:induction false} PaidConcat(a: seq<Earning>, b: seq<Earning>, id: nat, role: Role, payee: string)
    ensures PaidTo(a + b, id, role, payee) == PaidTo(a, id, role, payee) + PaidTo(b, id, role, payee)
  {
    if b == [] {
      assert a + b == a;
    } else {
      var n := |b| - 1;
      assert (a + b)[..|a| + n] == a + b[..n];
      PaidConcat(a, b[..n], id, role, payee);
    }
  }

  lemma {:induction false} PaidSingle(e: Earning, id: nat, role: Role, payee: string)
    ensures PaidTo([e], id, role, payee) == if e.epoch == id && e.role == role && e.payee == payee then e.amount
      else 0.0
  {
    assert [e][..0] == [];
  }

  lemma {:induction false} PaidNone(rows: seq<Earning>, id: nat, role: Role, payee: string)
    requires forall i :: 0 <= i < |rows| ==> !(rows[i].epoch == id && rows[i].role == role && rows[i].payee == payee)
    ensures PaidTo(rows, id, role, payee) == 0.0
  {
    if rows != [] {
      PaidNone(rows[..|rows| - 1], id, role, payee);
    }
  }

  /** Debits minus credits, as the ledger keeps a balance. */
  function Signed(p: Posting): real
  {
    if p.debit then p.amount else -p.amount
  }

  function Balance(postings: seq<Posting>, a: Account): real
  {
    if postings == [] then 0.0
    else
      var p := postings[|postings| - 1];
      Balance(postings[..|postings| - 1], a) + if p.account == a then Signed(p) else 0.0
  }

  function Net(postings: seq<Posting>): real
  {
    if postings == [] then 0.0 else Net(postings[..|postings| - 1]) + Signed(postings[|postings| - 1])
  }

  /** A two-line transaction moving an amount. */
  function Transfer(from: Account, to: Account, amount: real): seq<Posting>
  {
    [Posting(from, true, amount), Posting(to, false, amount)]
  }

  lemma {:induction false} TransferEffect(postings: seq<Posting>, from: Account, to: Account, amount: real, a: Account)
    ensures Net(postings + Transfer(from, to, amount)) == Net(postings)
    ensures Balance(postings + Transfer(from, to, amount), a) ==
      Balance(postings, a) + (if a == from then amount else 0.0) - (if a == to then amount else 0.0)
  {
    var first, second := Posting(from, true, amount), Posting(to, false, amount);
    assert postings + Transfer(from, to, amount) == postings + [first] + [second];
    PostingAppend(postings, first, a);
    PostingAppend(postings + [first], second, a);
  }

  lemma {:induction false} PostingAppend(postings: seq<Posting>, p: Posting, a: Account)
    ensures Net(postings + [p]) == Net(postings) + Signed(p)
    ensures Balance(postings + [p], a) == Balance(postings, a) + if p.account == a then Signed(p) else 0.0
  {
    assert (postings + [p])[..|postings|] == postings;
  }

  /** Events of one client recorded after an instant. */
  function ClientSince(events: seq<Event>, client: string, since: int): nat
  {
    if events == [] then 0
    else
      var e := events[|events| - 1];
      ClientSince(events[..|events| - 1], client, since) + if e.client == client && e.at > since then 1 else 0
  }

  function NodeSince(events: seq<Event>, node: string, since: int): nat
  {
    if events == [] then 0
    else
      var e := events[|events| - 1];
      NodeSince(events[..|events| - 1], node, since) + if e.node == node && e.at > since then 1 else 0
  }

  function AllSince(events: seq<Event>, since: int): nat
  {
    if events == [] then 0
    else AllSince(events[..|events| - 1], since) + if events[|events| - 1].at > since then 1 else 0
  }

  /** Where in the list the events with a property are. */
  ghost function Positions(events: seq<Event>, p: Event -> bool): set<nat>
  {
    set i: nat | i < |events| && p(events[i])
  }

  lemma {:induction false} PositionsStep(events: seq<Event>, p: Event -> bool)
    requires events != []
    ensures var n := |events| - 1;
      |Positions(events, p)| == |Positions(events[..n], p)| + if p(events[n]) then 1 else 0
  {
    var n := |events| - 1;
    var here, before := Positions(events, p), Positions(events[..n], p);
    assert forall i: nat :: i < n ==> events[..n][i] == events[i];
    assert n !in before;
    assert here == if p(events[n]) then before + {n} else before;
  }

  lemma {:induction false} NoPositions(p: Event -> bool)
    ensures |Positions([], p)| == 0
  {
    assert Positions([], p) == {};
  }

  /** The three counts of the queries are numbers of events. */
  lemma {:induction false} AllSinceCounts(events: seq<Event>, since: int, p: Event -> bool)
    requires forall e :: p(e) <==> e.at > since
    ensures AllSince(events, since) == |Positions(events, p)|
  {
    if events == [] {
      NoPositions(p);
    } else {
      AllSinceCounts(events[..|events| - 1], since, p);
      PositionsStep(events, p);
    }
  }

  lemma {:induction false} ClientSinceCounts(events: seq<Event>, client: string, since: int, p: Event -> bool)
    requires forall e :: p(e) <==> e.client == client && e.at > since
    ensures ClientSince(events, client, since) == |Positions(events, p)|
  {
    if events == [] {
      NoPositions(p);
    } else {
      ClientSinceCounts(events[..|events| - 1], client, since, p);
      PositionsStep(events, p);
    }
  }

  lemma {:induction false} NodeSinceCounts(events: seq<Event>, node: string, since: int, p: Event -> bool)
    requires forall e :: p(e) <==> e.node == node && e.at > since
    ensures NodeSince(events, node, since) == |Positions(events, p)|
  {
    if events == [] {
      NoPositions(p);
    } else {
      NodeSinceCounts(events[..|events| - 1], node, since, p);
      PositionsStep(events, p);
    }
  }

  predicate SameKey(e: Event, client: string, op: string, request: string)
  {
    e.client == client && e.op == op && e.request == request
  }

  /** The event with this idempotency key: its id is its position plus one. */
  function FindEvent(events: seq<Event>, client: string, op: string, request: string): (r: Option<nat>)
    ensures r.Some? ==> 1 <= r.value <= |events| && SameKey(events[r.value - 1], client, op, request)
    ensures r.None? ==> forall i :: 0 <= i < |events| ==> !SameKey(events[i], client, op, request)
  {
    if events == [] then None
    else if SameKey(events[|events| - 1], client, op, request) then Some(|events|)
    else FindEvent(events[..|events| - 1], client, op, request)
  }

  // ---------------------------------------------------------------- initEpoch

  /** What the slot insert does apart from a conflict: it goes through (reporting the new id or not), or it raises
      an error. */
  datatype SlotInsert = Works(reportsId: bool) | Errors

  datatype EpochEnv = EpochEnv(now: int, slotInsert: SlotInsert, fallbackWorks: bool)

  /** SELECT id WHERE status = 'OPEN' ORDER BY id DESC LIMIT 1. */
  function LastOpen(epochs: seq<Epoch>): (r: Option<nat>)
    ensures r.Some? ==> IsOpen(epochs, r.value)
    ensures r.None? ==> forall id :: !IsOpen(epochs, id)
  {
    if epochs == [] then None
    else if epochs[|epochs| - 1].open then Some(|epochs|)
    else
      var r := LastOpen(epochs[..|epochs| - 1]);
      assert forall id :: IsOpen(epochs, id) ==> IsOpen(epochs[..|epochs| - 1], id);
      r
  }

  predicate SlotTaken(epochs: seq<Epoch>, slot: int)
  {
    exists i :: 0 <= i < |epochs| && epochs[i].slot == Some(slot)
  }

  /** The epoch initEpoch ends up with, and the epochs and current id it leaves; None when even the last resort
      fails. */
  function InitEpoch(epochs: seq<Epoch>, current: Option<nat>, env: EpochEnv): (Option<nat>, seq<Epoch>, Option<nat>)
  {
    var existing := LastOpen(epochs);
    if existing.Some? then (existing, epochs, existing)
    else
      var slot := env.now / 3600;
      if env.slotInsert.Works? && !SlotTaken(epochs, slot) then
        var epochs' := epochs + [Epoch(true, Some(slot), env.now)];
        var id := if env.slotInsert.reportsId then Some(|epochs'|) else LastOpen(epochs');
        (id, epochs', id)
      else if env.fallbackWorks then
        var epochs' := epochs + [Epoch(true, None, env.now)];
        (Some(|epochs'|), epochs', Some(|epochs'|))
      else (None, epochs, current)
  }

  /** Whichever path is taken, initEpoch returns the one epoch that is then open, and never touches another. */
  lemma {:induction false} InitEpochExact(epochs: seq<Epoch>, current: Option<nat>, env: EpochEnv)
    requires AtMostOneOpen(epochs)
    ensures var (id, epochs', current') := InitEpoch(epochs, current, env);
      && AtMostOneOpen(epochs')
      && epochs <= epochs'
      && (id.Some? ==> IsOpen(epochs', id.value) && current' == id && forall j :: IsOpen(epochs', j) ==> j == id.value)
      && (id.None? ==> epochs' == epochs && current' == current)
      && (LastOpen(epochs).Some? ==> epochs' == epochs)
      && (LastOpen(epochs).None? && id.Some? ==>
            var slot := env.now / 3600;
            var free := env.slotInsert.Works? && forall i :: 0 <= i < |epochs| ==> epochs[i].slot != Some(slot);
            epochs' == epochs + [Epoch(true, if free then Some(slot) else None, env.now)])
      && (id.None? <==>
            && LastOpen(epochs).None? && !env.fallbackWorks
            && (env.slotInsert.Errors? || SlotTaken(epochs, env.now / 3600)))
  {
    var (id, epochs', current') := InitEpoch(epochs, current, env);
    if LastOpen(epochs).None? {
      forall j: nat | IsOpen(epochs', j)
        ensures j == |epochs'| && |epochs'| == |epochs| + 1
      {
        if j <= |epochs| {
          assert IsOpen(epochs, j);
        }
      }
    }
  }

  // ---------------------------------------------------------------- appending

  lemma {:induction false} RevenueAppend(events: seq<Event>, e: Event, id: nat)
    ensures Revenue(events + [e], id) == Revenue(events, id) + if e.epoch == id then e.amount else 0.0
  {
    assert (events + [e])[..|events|] == events;
  }

  lemma {:induction false} EarnedConcat(a: seq<Earning>, b: seq<Earning>, id: nat)
    ensures Earned(a + b, id) == Earned(a, id) + Earned(b, id)
    ensures Liability(a + b, id) == Liability(a, id) + Liability(b, id)
    ensures Kept(a + b, id) == Kept(a, id) + Kept(b, id)
  {
    if b == [] {
      assert a + b == a;
    } else {
      var n := |b| - 1;
      assert (a + b)[..|a| + n] == a + b[..n];
      EarnedConcat(a, b[..n], id);
    }
  }

  lemma {:induction false} EarnedOne(e: Earning)
    ensures Earned([e], e.epoch) == e.amount
  {
    assert [e][..0] == [];
  }

  lemma {:induction false} EarnedNone(rows: seq<Earning>, id: nat)
    requires forall i :: 0 <= i < |rows| ==> rows[i].epoch != id
    ensures Earned(rows, id) == 0.0 && Liability(rows, id) == 0.0 && Kept(rows, id) == 0.0
  {
    if rows != [] {
      EarnedNone(rows[..|rows| - 1], id);
    }
  }

  /** Every earning is either owed or kept. */
  lemma {:induction false} EarnedSplits(rows: seq<Earning>, id: nat)
    ensures Earned(rows, id) == Liability(rows, id) + Kept(rows, id)
  {
    if rows != [] {
      EarnedSplits(rows[..|rows| - 1], id);
    }
  }
}
