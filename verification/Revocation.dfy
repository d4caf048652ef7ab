/** The operator's revocation tool: resolve the target rows, then revoke them one at a time in
    (valid_before, id) order, stopping at the first one that still has a live draw. Dry by default. */
module Revocation {
  import opened TextOrder
  import opened Wrappers
  import opened Authorizations

  /** Ids take precedence; without any, the signer pattern (ILIKE against the envelope's signer) selects. */
  datatype Selector = Selector(ids: seq<string>, signer: Option<string -> bool>)

  datatype Action = Revoke | NoopAlreadyRevoked | SkipNotFound

  datatype Result = Result(authId: string, signer: string, consumed: int, validBefore: int, previous: AuthState,
      action: Action, mutated: bool)

  datatype Outcome =
    | Finished(results: seq<Result>)
    | Blocked(authId: string)
    | BadSelector

  predicate Selected(a: Auth, sel: Selector)
  {
    if sel.ids != [] then a.id in sel.ids else sel.signer.Some? && sel.signer.value(a.signer)
  }

  predicate SelectsNothing(sel: Selector)
  {
    sel.ids == [] && sel.signer.None?
  }

  // ---------------------------------------------------------------- resolving targets

  ghost predicate InOrder(ts: seq<Auth>)
  {
    forall i, j :: 0 <= i < j < |ts| ==> Earlier(ts[i], ts[j])
  }

  function InsertInOrder(a: Auth, ts: seq<Auth>): seq<Auth>
  {
    if ts == [] || Earlier(a, ts[0]) then [a] + ts else [ts[0]] + InsertInOrder(a, ts[1..])
  }

  /** SELECT ... WHERE selected ORDER BY valid_before, id. */
  function Resolve(rows: seq<Auth>, sel: Selector): seq<Auth>
  {
    if rows == [] then []
    else if Selected(rows[0], sel) then InsertInOrder(rows[0], Resolve(rows[1..], sel))
    else Resolve(rows[1..], sel)
  }

  lemma {:induction false} InsertMembers(a: Auth, ts: seq<Auth>)
    ensures forall b :: b in InsertInOrder(a, ts) <==> b == a || b in ts
  {
    if ts != [] && !Earlier(a, ts[0]) {
      InsertMembers(a, ts[1..]);
      assert ts == [ts[0]] + ts[1..];
    }
  }

  lemma {:induction false} InsertKeepsOrder(a: Auth, ts: seq<Auth>)
    requires InOrder(ts) && forall b :: b in ts ==> b.id != a.id
    ensures InOrder(InsertInOrder(a, ts))
  {
    if ts == [] {
    } else if Earlier(a, ts[0]) {
      forall j | 0 < j < |ts|
        ensures Earlier(a, ts[j])
      {
        EarlierTransitive(a, ts[0], ts[j]);
      }
    } else {
      assert ts[0] in ts;
      EarlierTotal(a, ts[0]);
      assert forall b :: b in ts[1..] ==> b in ts;
      InsertKeepsOrder(a, ts[1..]);
      InsertMembers(a, ts[1..]);
      var r := InsertInOrder(a, ts[1..]);
      forall j | 0 <= j < |r|
        ensures Earlier(ts[0], r[j])
      {
        assert r[j] in r;
        if r[j] != a {
          var i :| 0 <= i < |ts[1..]| && ts[1..][i] == r[j];
          assert r[j] == ts[i + 1];
        }
      }
    }
  }

  /** The targets are exactly the rows with a given id, or without ids the rows whose signer matches, each once, in
      draw order. */
  lemma {:induction false} ResolveExact(rows: seq<Auth>, sel: Selector)
    requires DistinctIds(rows)
    ensures sel.ids != [] ==> forall a :: a in Resolve(rows, sel) <==> a in rows && a.id in sel.ids
    ensures sel.ids == [] ==> forall a :: a in Resolve(rows, sel) <==>
      a in rows && sel.signer.Some? && sel.signer.value(a.signer)
    ensures InOrder(Resolve(rows, sel))
  {
    if rows != [] {
      var rest := rows[1..];
      assert rows == [rows[0]] + rest;
      ResolveExact(rest, sel);
      if Selected(rows[0], sel) {
        InsertMembers(rows[0], Resolve(rest, sel));
        forall b | b in Resolve(rest, sel)
          ensures b.id != rows[0].id
        {
          var i :| 0 <= i < |rest| && rest[i] == b;
          assert rows[i + 1] == b;
        }
        InsertKeepsOrder(rows[0], Resolve(rest, sel));
      }
    }
  }

  // ---------------------------------------------------------------- specification

  /** The first target that is active and has a live draw stops the run. */
  predicate Stops(a: Auth, draws: seq<Draw>)
  {
    a.state == Active && HasLiveDraw(draws, a.id)
  }

  function FirstStop(ts: seq<Auth>, draws: seq<Draw>): (n: nat)
    ensures n <= |ts|
    ensures n < |ts| ==> Stops(ts[n], draws)
    ensures forall i :: 0 <= i < n ==> !Stops(ts[i], draws)
  {
    if ts == [] || Stops(ts[0], draws) then 0 else 1 + FirstStop(ts[1..], draws)
  }

  function Entry(t: Auth, action: Action, mutated: bool): Result
  {
    Result(t.id, t.signer, t.consumed, t.validBefore, t.state, action, mutated)
  }

  function ResultFor(a: Auth, dryRun: bool): Result
  {
    if a.state == Active then Entry(a, Revoke, !dryRun) else Entry(a, NoopAlreadyRevoked, false)
  }

  /** The report, from the rows as they were before the run. */
  function Report(ts: seq<Auth>, draws: seq<Draw>, dryRun: bool): Outcome
  {
    var n := FirstStop(ts, draws);
    if n < |ts| then Blocked(ts[n].id) else Finished(Entries(ts, dryRun))
  }

  function Entries(ts: seq<Auth>, dryRun: bool): (es: seq<Result>)
    ensures |es| == |ts| && forall i :: 0 <= i < |ts| ==> es[i] == ResultFor(ts[i], dryRun)
  {
    if ts == [] then [] else Entries(ts[..|ts| - 1], dryRun) + [ResultFor(ts[|ts| - 1], dryRun)]
  }

  function RevokedRow(a: Auth): Auth
  {
    if a.state == Active then a.(state := Revoked, version := a.version + 1) else a
  }

  /** The rows after a confirmed run: the targets before the stop are revoked, everything else is untouched. */
  function RevokeAll(rows: seq<Auth>, done: seq<Auth>): (r: seq<Auth>)
    ensures |r| == |rows|
    ensures forall i :: 0 <= i < |rows| ==> r[i] == if rows[i] in done then RevokedRow(rows[i]) else rows[i]
  {
    seq(|rows|, i requires 0 <= i < |rows| => if rows[i] in done then RevokedRow(rows[i]) else rows[i])
  }

  /** The outcome of one whole run of the tool. */
  function Run(rows: seq<Auth>, draws: seq<Draw>, sel: Selector, dryRun: bool): (Outcome, seq<Auth>)
  {
    if SelectsNothing(sel) then (BadSelector, rows)
    else
      var ts := Resolve(rows, sel);
      (Report(ts, draws, dryRun), if dryRun then rows else RevokeAll(rows, ts[..FirstStop(ts, draws)]))
  }

  function IndexOf(rows: seq<Auth>, id: string): (r: Option<nat>)
    ensures r.Some? ==> r.value < |rows| && rows[r.value].id == id
    ensures r.None? ==> forall i :: 0 <= i < |rows| ==> rows[i].id != id
  {
    if rows == [] then None
    else if rows[0].id == id then Some(0)
    else
      var r := IndexOf(rows[1..], id);
      if r.None? then None else Some(r.value + 1)
  }

  lemma {:induction false} FindsRow(rows: seq<Auth>, a: Auth, k: nat)
    requires DistinctIds(rows) && k < |rows| && rows[k].id == a.id
    ensures IndexOf(rows, a.id) == Some(k)
  {
    var r := IndexOf(rows, a.id);
    assert r.Some?;
    if r.value < k { assert false; } else if k < r.value { assert false; }
  }

  /** One turn of the loop, on whatever row now has the target's id; None stands for the thrown stop. */
  function Turn(rows: seq<Auth>, draws: seq<Draw>, t: Auth, dryRun: bool): (Option<Result>, seq<Auth>)
  {
    var found := IndexOf(rows, t.id);
    if found.None? then (Some(Entry(t, SkipNotFound, false)), rows)
    else
      var a := rows[found.value];
      if a.state == Revoked then (Some(Entry(t, NoopAlreadyRevoked, false)), rows)
      else if HasLiveDraw(draws, t.id) then (None, rows)
      else (Some(Entry(t, Revoke, !dryRun)), if dryRun then rows else rows[found.value := RevokedRow(a)])
  }

  // ---------------------------------------------------------------- the tool

  class RevocationTool {
    var rows: seq<Auth>
    var draws: seq<Draw>

    constructor (rows: seq<Auth>, draws: seq<Draw>)
      ensures this.rows == rows && this.draws == draws
    {
      this.rows, this.draws := rows, draws;
    }

    method RevokeOne(t: Auth, dryRun: bool) returns (r: Option<Result>)
      modifies this`rows
      ensures (r, rows) == Turn(old(rows), draws, t, dryRun)
    {
      var found := IndexOf(rows, t.id);
      if found.None? {
        return Some(Entry(t, SkipNotFound, false));
      }
      var a := rows[found.value];
      if a.state == Revoked {
        return Some(Entry(t, NoopAlreadyRevoked, false));
      }
      if HasLiveDraw(draws, t.id) {
        return None;
      }
      if !dryRun {
        rows := rows[found.value := a.(state := Revoked, version := a.version + 1)];
      }
      return Some(Entry(t, Revoke, !dryRun));
    }

    /** revokeAuthorizations. The dry run and the confirmed run report the same actions and stop at the
        same target, although the confirmed run changes rows as it goes. */
    method RevokeAuthorizations(sel: Selector, dryRun: bool) returns (o: Outcome)
      requires DistinctIds(rows)
      modifies this`rows
      ensures (o, rows) == Run(old(rows), draws, sel, dryRun)
    {
      if SelectsNothing(sel) {
        return BadSelector;
      }
      ghost var before := rows;
      var ts := Resolve(rows, sel);
      NothingRevoked(before, draws, ts, dryRun);
      var results: seq<Result> := [];
      var i := 0;
      while i < |ts|
        invariant 0 <= i <= |ts|
        invariant Reached(before, rows, draws, ts, i, results, dryRun)
      {
        TurnIs(before, rows, draws, ts, i, results, sel, dryRun);
        var r := RevokeOne(ts[i], dryRun);
        if r.None? {
          return Blocked(ts[i].id);
        }
        results := results + [r.value];
        i := i + 1;
      }
      AllReached(before, rows, draws, ts, results, sel, dryRun);
      return Finished(results);
    }
  }

  /** When target i's turn comes, its row is still what was resolved, wherever the earlier targets were. */
  lemma {:induction false} TargetRow(before: seq<Auth>, rows: seq<Auth>, ts: seq<Auth>, i: nat, sel: Selector,
      dryRun: bool) returns (k: nat)
    requires DistinctIds(before) && ts == Resolve(before, sel) && i < |ts|
    requires rows == if dryRun then before else RevokeAll(before, ts[..i])
    ensures k < |before| && |rows| == |before| && before[k] == ts[i] && rows[k] == ts[i]
      && IndexOf(rows, ts[i].id) == Some(k)
  {
    ResolveExact(before, sel);
    assert ts[i] in ts;
    k :| 0 <= k < |before| && before[k] == ts[i];
    if ts[i] in ts[..i] {
      var j :| 0 <= j < i && ts[j] == ts[i];
      EarlierIrreflexive(ts[i]);
      assert false;
    }
    assert forall j :: 0 <= j < |rows| ==> rows[j].id == before[j].id;
    FindsRow(rows, ts[i], k);
  }

  lemma {:induction false} EarlierIrreflexive(a: Auth)
    ensures !Earlier(a, a)
  {
    BelowTrichotomy(a.id, a.id);
  }

  lemma {:induction false} OneMore(before: seq<Auth>, ts: seq<Auth>, i: nat, k: nat)
    requires DistinctIds(before) && i < |ts| && k < |before| && before[k] == ts[i]
    ensures RevokeAll(before, ts[..i + 1]) == RevokeAll(before, ts[..i])[k := RevokedRow(ts[i])]
  {
    assert ts[..i + 1] == ts[..i] + [ts[i]];
    forall j | 0 <= j < |before| && j != k
      ensures before[j] != ts[i]
    {
      assert before[j].id != before[k].id;
    }
  }

  /** The loop has come to target i without a stop. */
  ghost predicate Reached(before: seq<Auth>, rows: seq<Auth>, draws: seq<Draw>, ts: seq<Auth>, i: nat,
      results: seq<Result>, dryRun: bool)
  {
    && i <= FirstStop(ts, draws)
    && rows == (if dryRun then before else RevokeAll(before, ts[..i]))
    && results == Entries(ts[..i], dryRun)
  }

  lemma {:induction false} NothingRevoked(rows: seq<Auth>, draws: seq<Draw>, ts: seq<Auth>, dryRun: bool)
    ensures Reached(rows, rows, draws, ts, 0, [], dryRun)
  {
    assert RevokeAll(rows, ts[..0]) == rows;
  }

  lemma {:induction false} AllReached(before: seq<Auth>, rows: seq<Auth>, draws: seq<Draw>, ts: seq<Auth>,
      results: seq<Result>, sel: Selector, dryRun: bool)
    requires !SelectsNothing(sel) && ts == Resolve(before, sel)
      && Reached(before, rows, draws, ts, |ts|, results, dryRun)
    ensures (Finished(results), rows) == Run(before, draws, sel, dryRun)
  {
    assert ts[..|ts|] == ts;
  }

  lemma {:induction false} EntriesGrow(ts: seq<Auth>, i: nat, dryRun: bool)
    requires i < |ts|
    ensures Entries(ts[..i + 1], dryRun) == Entries(ts[..i], dryRun) + [ResultFor(ts[i], dryRun)]
  {
    assert ts[..i + 1][..i] == ts[..i];
  }

  /** What a turn of the loop means: although earlier turns changed rows, target i is handled from its row as it
      was before the run. Either this is the first target that must stop the run, and the run's outcome is
      settled, or its entry is the one due and the loop has come to the next target. */
  lemma {:induction false} TurnIs(before: seq<Auth>, rows: seq<Auth>, draws: seq<Draw>, ts: seq<Auth>, i: nat,
      results: seq<Result>, sel: Selector, dryRun: bool)
    requires DistinctIds(before) && !SelectsNothing(sel) && ts == Resolve(before, sel)
    requires i < |ts| && Reached(before, rows, draws, ts, i, results, dryRun)
    ensures var (r, rows') := Turn(rows, draws, ts[i], dryRun);
      if r.None? then (Blocked(ts[i].id), rows') == Run(before, draws, sel, dryRun)
      else Reached(before, rows', draws, ts, i + 1, results + [r.value], dryRun)
  {
    TurnOnRow(before, rows, draws, ts, i, sel, dryRun);
    if Stops(ts[i], draws) {
      StopSettles(before, rows, draws, ts, i, results, sel, dryRun);
    } else {
      EntriesGrow(ts, i, dryRun);
    }
  }

  lemma {:induction false} StopSettles(before: seq<Auth>, rows: seq<Auth>, draws: seq<Draw>, ts: seq<Auth>, i: nat,
      results: seq<Result>, sel: Selector, dryRun: bool)
    requires !SelectsNothing(sel) && ts == Resolve(before, sel)
    requires i < |ts| && Reached(before, rows, draws, ts, i, results, dryRun) && Stops(ts[i], draws)
    ensures (Blocked(ts[i].id), rows) == Run(before, draws, sel, dryRun)
  {
  }

  lemma {:induction false} TurnOnRow(before: seq<Auth>, rows: seq<Auth>, draws: seq<Draw>, ts: seq<Auth>, i: nat,
      sel: Selector, dryRun: bool)
    requires DistinctIds(before) && ts == Resolve(before, sel) && i < |ts|
    requires rows == if dryRun then before else RevokeAll(before, ts[..i])
    ensures Turn(rows, draws, ts[i], dryRun) ==
      if Stops(ts[i], draws) then (None, rows)
      else (Some(ResultFor(ts[i], dryRun)), if dryRun then before else RevokeAll(before, ts[..i + 1]))
  {
    var k := TargetRow(before, rows, ts, i, sel, dryRun);
    OneMore(before, ts, i, k);
    assert rows[k := rows[k]] == rows;
  }

  // ---------------------------------------------------------------- what the tool promises

  /** The dry run changes nothing and predicts the confirmed run: the same stop, or the same actions in the same
      order. */
  lemma {:induction false} DryRunPredicts(rows: seq<Auth>, draws: seq<Draw>, sel: Selector)
    ensures Run(rows, draws, sel, true).1 == rows
    ensures var (dry, _) := Run(rows, draws, sel, true);
      var (wet, _) := Run(rows, draws, sel, false);
      if dry.Finished? then
        && wet.Finished? && |wet.results| == |dry.results|
        && forall i :: 0 <= i < |dry.results| ==>
             && wet.results[i].authId == dry.results[i].authId
             && wet.results[i].action == dry.results[i].action
             && !dry.results[i].mutated && (wet.results[i].mutated <==> wet.results[i].action == Revoke)
      else wet == dry
  {
  }

  /** A confirmed run flips only active rows without a live draw, and keeps every consumed amount. With ids given it
      flips only rows with such an id, and a run that finishes flips every active one of them, whatever the signer;
      without ids, the same for the rows whose signer matches; with neither it refuses. */
  lemma {:induction false} OnlyTargetsChange(rows: seq<Auth>, draws: seq<Draw>, sel: Selector, i: nat)
    requires DistinctIds(rows) && i < |rows|
    ensures var (o, rows') := Run(rows, draws, sel, false);
      && |rows'| == |rows|
      && (rows'[i] != rows[i] ==>
            && rows[i].state == Active && !HasLiveDraw(draws, rows[i].id)
            && rows'[i] == rows[i].(state := Revoked, version := rows[i].version + 1))
      && (sel.ids != [] ==>
            && (rows'[i] != rows[i] ==> rows[i].id in sel.ids)
            && (o.Finished? && rows[i].id in sel.ids ==> rows'[i].state == Revoked))
      && (sel.ids == [] && sel.signer.Some? ==>
            && (rows'[i] != rows[i] ==> sel.signer.value(rows[i].signer))
            && (o.Finished? && sel.signer.value(rows[i].signer) ==> rows'[i].state == Revoked))
      && (o == BadSelector <==> sel.ids == [] && sel.signer.None?)
      && (o == BadSelector ==> rows' == rows)
  {
    ResolveExact(rows, sel);
    if !SelectsNothing(sel) {
      TargetsChange(rows, draws, sel, i);
    }
  }

  lemma {:induction false} TargetsChange(rows: seq<Auth>, draws: seq<Draw>, sel: Selector, i: nat)
    requires i < |rows| && !SelectsNothing(sel)
    ensures var (o, rows') := Run(rows, draws, sel, false);
      && |rows'| == |rows| && o != BadSelector
      && (rows'[i] != rows[i] ==>
            && rows[i] in Resolve(rows, sel)
            && rows[i].state == Active && !HasLiveDraw(draws, rows[i].id)
            && rows'[i] == rows[i].(state := Revoked, version := rows[i].version + 1))
      && (o.Finished? && rows[i] in Resolve(rows, sel) ==> rows'[i].state == Revoked)
  {
    var ts := Resolve(rows, sel);
    var n := FirstStop(ts, draws);
    if rows[i] in ts[..n] {
      var j :| 0 <= j < n && ts[j] == rows[i];
      assert !Stops(ts[j], draws);
    }
    if n == |ts| {
      assert ts[..n] == ts;
    }
  }

  /** A run that finishes reports every target once, in draw order, each with its own row's values before the run. */
  lemma {:induction false} ReportExact(rows: seq<Auth>, draws: seq<Draw>, sel: Selector, dryRun: bool)
    requires DistinctIds(rows)
    ensures var o := Run(rows, draws, sel, dryRun).0;
      && (o.Finished? ==>
            && |o.results| == |Resolve(rows, sel)|
            && forall k :: 0 <= k < |o.results| ==>
                 var row, entry := Resolve(rows, sel)[k], o.results[k];
                 && entry.authId == row.id && entry.signer == row.signer
                 && entry.consumed == row.consumed && entry.validBefore == row.validBefore
                 && entry.previous == row.state
                 && entry.action == (if row.state == Active then Revoke else NoopAlreadyRevoked)
                 && (entry.mutated <==> row.state == Active && !dryRun))
      && (o.Blocked? ==>
            exists k :: 0 <= k < |Resolve(rows, sel)| && o.authId == Resolve(rows, sel)[k].id
              && Resolve(rows, sel)[k].state == Active && HasLiveDraw(draws, o.authId))
  {
    if !SelectsNothing(sel) && Run(rows, draws, sel, dryRun).0.Blocked? {
      var ts := Resolve(rows, sel);
      var n := FirstStop(ts, draws);
      assert Stops(ts[n], draws);
    }
  }

  lemma {:induction false} UntouchedExactly(rows: seq<Auth>, done: seq<Auth>)
    requires forall a :: a in done ==> a in rows
    ensures RevokeAll(rows, done) == rows <==> forall a :: a in done ==> a.state == Revoked
  {
    if a :| a in done && a.state != Revoked {
      var i :| 0 <= i < |rows| && rows[i] == a;
      assert RevokeAll(rows, done)[i] != rows[i];
    }
  }

  /** Where the comment promises to refuse the whole run rather than revoke partially: a stopped run
      leaves the table untouched if and only if no target before the stop was active. */
  lemma {:induction false} StoppedRunUntouchedExactly(rows: seq<Auth>, draws: seq<Draw>, sel: Selector)
    requires DistinctIds(rows) && !SelectsNothing(sel)
    ensures var ts := Resolve(rows, sel);
      Run(rows, draws, sel, false).1 == rows <==> forall a :: a in ts[..FirstStop(ts, draws)] ==> a.state == Revoked
  {
    ResolveExact(rows, sel);
    var ts := Resolve(rows, sel);
    UntouchedExactly(rows, ts[..FirstStop(ts, draws)]);
  }

  /** Two rows of one signer, the later one with a live draw: the run stops on the later and has revoked the earlier. */
  lemma {:induction false} StopsHalfway()
    ensures var a := Auth("a", "p", "f", "s", "USDC", 9, 0, 0, 1, Active, 0);
      var b := Auth("b", "p", "f", "s", "USDC", 9, 4, 0, 2, Active, 0);
      Run([a, b], [Draw("k", "p", "b", "f", 4, Settling)], Selector([], Some(x => x == "s")), false)
        == (Blocked("b"), [a.(state := Revoked, version := 1), b])
  {
    var a := Auth("a", "p", "f", "s", "USDC", 9, 0, 0, 1, Active, 0);
    var b := Auth("b", "p", "f", "s", "USDC", 9, 4, 0, 2, Active, 0);
    var draws := [Draw("k", "p", "b", "f", 4, Settling)];
    var sel := Selector([], Some(x => x == "s"));
    assert [a, b][1..] == [b] && [b][1..] == [];
    assert Resolve([], sel) == [];
    assert Resolve([b], sel) == [b];
    assert Resolve([a, b], sel) == [a, b];
    assert draws[0].authorization == "b" != "a";
    assert Stops(b, draws) && !Stops(a, draws);
    assert FirstStop([b], draws) == 0 && FirstStop([a, b], draws) == 1;
    assert [a, b][..1] == [a];
    assert RevokeAll([a, b], [a]) == [RevokedRow(a), b];
  }

  // ---------------------------------------------------------------- rerunning

  function Touch(a: Auth, done: seq<Auth>): Auth
  {
    if a in done then RevokedRow(a) else a
  }

  lemma {:induction false} InsertCommutes(a: Auth, ts: seq<Auth>, done: seq<Auth>)
    ensures RevokeAll(InsertInOrder(a, ts), done) == InsertInOrder(Touch(a, done), RevokeAll(ts, done))
  {
    if ts == [] || Earlier(a, ts[0]) {
      assert RevokeAll([a] + ts, done) == [Touch(a, done)] + RevokeAll(ts, done);
    } else {
      InsertCommutes(a, ts[1..], done);
      assert RevokeAll(ts, done) == [Touch(ts[0], done)] + RevokeAll(ts[1..], done);
      assert RevokeAll([ts[0]] + InsertInOrder(a, ts[1..]), done) ==
        [Touch(ts[0], done)] + RevokeAll(InsertInOrder(a, ts[1..]), done);
    }
  }

  /** Revoking rows does not change which rows a selector names, nor their order. */
  lemma {:induction false} ResolveCommutes(rows: seq<Auth>, done: seq<Auth>, sel: Selector)
    ensures Resolve(RevokeAll(rows, done), sel) == RevokeAll(Resolve(rows, sel), done)
  {
    if rows != [] {
      ResolveCommutes(rows[1..], done, sel);
      assert RevokeAll(rows, done) == [Touch(rows[0], done)] + RevokeAll(rows[1..], done);
      if Selected(rows[0], sel) {
        InsertCommutes(rows[0], Resolve(rows[1..], sel), done);
      }
    }
  }

  lemma {:induction false} StopStays(ts: seq<Auth>, draws: seq<Draw>, n: nat)
    requires InOrder(ts) && n == FirstStop(ts, draws)
    ensures var ts' := RevokeAll(ts, ts[..n]);
      && FirstStop(ts', draws) == n
      && (forall i :: 0 <= i < n ==> ts'[i].state == Revoked)
      && (n < |ts| ==> ts'[n] == ts[n])
  {
    var ts' := RevokeAll(ts, ts[..n]);
    forall i | 0 <= i < n
      ensures ts'[i].state == Revoked
    {
      assert ts[i] in ts[..n];
    }
    if n < |ts| {
      EarlierIrreflexive(ts[n]);
      assert ts[n] !in ts[..n];
    }
  }

  /** Running the same confirmed command again revokes nothing: a finished run finds only revoked
      targets, a stopped run stops at the same target, and the table stays as it is. */
  lemma {:induction false} RerunRevokesNothing(rows: seq<Auth>, draws: seq<Draw>, sel: Selector)
    requires DistinctIds(rows)
    ensures var (o, rows') := Run(rows, draws, sel, false);
      var (o', rows'') := Run(rows', draws, sel, false);
      && rows'' == rows'
      && (!o.Finished? ==> o' == o)
      && (o.Finished? ==> o'.Finished? && forall i :: 0 <= i < |o'.results| ==>
        o'.results[i].action == NoopAlreadyRevoked)
  {
    if !SelectsNothing(sel) {
      var ts := Resolve(rows, sel);
      var n := FirstStop(ts, draws);
      var rows' := RevokeAll(rows, ts[..n]);
      ResolveExact(rows, sel);
      ResolveCommutes(rows, ts[..n], sel);
      var ts' := Resolve(rows', sel);
      StopStays(ts, draws, n);
      assert forall i :: 0 <= i < |rows| ==> rows'[i].id == rows[i].id;
      ResolveExact(rows', sel);
      UntouchedExactly(rows', ts'[..n]);
    }
  }
}
