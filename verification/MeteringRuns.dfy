/** What holds over every run of the metering protocol: caps, commits, conservation, whether consumption ever goes back,
    and whether a row is revoked under a draw. */
module MeteringRuns {
  import opened Wrappers
  import opened Authorizations
  import opened MeteringProtocol

  /** However workers and revocations interleave, no authorization is overdrawn and every draw has exactly one
      settlement. */
  lemma {:induction false} NeverOverdrawn(s: State, es: seq<Event>)
    requires Initial(s) && Possible(s, es)
    ensures var t := Exec(s, es).t;
      (forall i :: 0 <= i < |t.rows| ==> 0 <= t.rows[i].consumed <= t.rows[i].cap) && Paired(t.draws, t.settlements)
  {
    RunKeeps(s, es);
  }

  /** What a commit does: the row bears the cost, and the draw and its settlement are added, unless the key is there
      already. */
  ghost predicate Lands(t: Tables, t': Tables, ask: Ask, key: string, k: nat)
  {
    && k < |t.rows|
    && MayBearCost(t.rows[k], ask)
    && t'.rows == t.rows[k := t.rows[k].(consumed := t.rows[k].consumed + ask.cost)]
    && (if exists j :: 0 <= j < |t.draws| && t.draws[j].key == key
        then t'.draws == t.draws && t'.settlements == t.settlements
        else
          && t'.draws ==
             t.draws + [Draw(key, ask.principal, t.rows[k].id, t.rows[k].fundingSource, ask.cost, Settling)]
          && t'.settlements == t.settlements + [Settlement("draw_" + key)])
    && t'.accounts == t.accounts
  }

  lemma {:induction false} CommitLands(s: State, w: nat)
    requires Inv(s) && Enabled(s, Commit(w))
    ensures var p := s.workers[w]; Lands(s.t, Next(s, Commit(w)).t, p.ask, p.key, p.row)
  {
    var p := s.workers[w];
    assert HolderOk(s, p);
    ColumnsExact(s.t.rows[p.row], p.ask);
    assert p.draw.None? <==> exists j :: 0 <= j < |s.t.draws| && s.t.draws[j].key == p.key;
  }

  /** A debit commits only on a row that is, at the instant of the commit, active, in currency, in
      window for the time captured at the start of the call, and able to bear the cost, however
      stale the entitlement check was; and then the debit, the draw and the settlement land together,
      as one uninterrupted insert would leave them. */
  lemma {:induction false} CommitsOnDrawableRow(s: State, es: seq<Event>, w: nat)
    requires Initial(s) && Possible(s, es)
    requires Enabled(Exec(s, es), Commit(w))
    ensures var u := Exec(s, es);
      var p := u.workers[w];
      Lands(u.t, Next(u, Commit(w)).t, p.ask, p.key, p.row)
  {
    RunKeeps(s, es);
    CommitLands(Exec(s, es), w);
  }

  lemma {:induction false} InitialHolds(s: State)
    requires Initial(s)
    ensures Inv(s) && KeysApart(s)
  {
  }

  /** The accounting identity between any two moments of a run, so also for an authorization granted during it: consumed
      plus written over rises by the recorded draws and the repeated debits. */
  lemma {:induction false} Conservation(s: State, es: seq<Event>, i: nat)
    requires Inv(s) && Possible(s, es) && i < |s.t.rows|
    ensures var u, id := Exec(s, es), s.t.rows[i].id;
      && i < |u.t.rows| && u.t.rows[i].id == id
      && u.t.rows[i].consumed + u.lost[i] + DrawnOn(s.t.draws, id) + s.repeated[i] ==
         s.t.rows[i].consumed + s.lost[i] + DrawnOn(u.t.draws, id) + u.repeated[i]
  {
    RunKeeps(s, es);
    RunKeepsIdentity(s, es, i);
  }

  lemma {:induction false} RunKeepsIdentity(s: State, es: seq<Event>, i: nat)
    requires WellSized(s) && Possible(s, es) && i < |s.t.rows|
    ensures var u := Exec(s, es);
      i < |u.t.rows| && u.t.rows[i].id == s.t.rows[i].id && u.base[i] == s.base[i] && u.t.rows[i].cap == s.t.rows[i].cap
    decreases |es|
  {
    if es != [] {
      NextWellSized(s, es[0]);
      RunKeepsIdentity(Next(s, es[0]), es[1..], i);
    }
  }

  // ---------------------------------------------------------------- does consumption ever go back?

  function Consumed(s: State, i: nat): int
    requires i < |s.t.rows|
  {
    s.t.rows[i].consumed
  }

  /** At no step of the run does the committed consumption of row i drop. */
  ghost predicate NeverDrops(s: State, es: seq<Event>, i: nat)
    requires WellSized(s) && Possible(s, es) && i < |s.t.rows|
    decreases |es|
  {
    es == [] ||
    (NextWellSized(s, es[0]);
     Consumed(s, i) <= Consumed(Next(s, es[0]), i) && NeverDrops(Next(s, es[0]), es[1..], i))
  }

  /** A save of row i that its version check lets through while the row has consumed something since it was loaded. */
  predicate StaleSave(s: State, e: Event, i: nat)
    requires Enabled(s, e) && i < |s.t.rows|
  {
    && e.Save?
    && var p := s.revokers[e.r];
       p.row == i && p.version == s.t.rows[i].version && p.consumed != s.t.rows[i].consumed
  }

  /** Every save of row i that goes through finds the consumption it loaded: no draw committed in between. */
  ghost predicate SavesUndisturbed(s: State, es: seq<Event>, i: nat)
    requires WellSized(s) && Possible(s, es) && i < |s.t.rows|
    decreases |es|
  {
    es == [] ||
    (NextWellSized(s, es[0]);
     !StaleSave(s, es[0], i) && SavesUndisturbed(Next(s, es[0]), es[1..], i))
  }

  /** One step drops a row's consumption exactly when it is a stale save, and then by the amount written over. */
  lemma {:induction false} DropsExactlyOnStaleSave(s: State, e: Event, i: nat)
    requires Inv(s) && Enabled(s, e) && i < |s.t.rows|
    ensures Consumed(Next(s, e), i) < Consumed(s, i) <==> StaleSave(s, e, i)
    ensures Consumed(Next(s, e), i) + Next(s, e).lost[i] >= Consumed(s, i) + s.lost[i]
    ensures Next(s, e).lost[i] >= s.lost[i]
    ensures Next(s, e).lost[i] > s.lost[i] <==> StaleSave(s, e, i)
  {
    if e.Save? {
      assert RevokerOk(s, s.revokers[e.r]);
    }
  }

  lemma {:induction false} LostNeverShrinks(s: State, es: seq<Event>, i: nat)
    requires Inv(s) && Possible(s, es) && i < |s.t.rows|
    ensures i < |Exec(s, es).t.rows| && Exec(s, es).lost[i] >= s.lost[i]
    ensures Consumed(Exec(s, es), i) + Exec(s, es).lost[i] >= Consumed(s, i) + s.lost[i]
    decreases |es|
  {
    if es != [] {
      StepKeeps(s, es[0]);
      DropsExactlyOnStaleSave(s, es[0], i);
      LostNeverShrinks(Next(s, es[0]), es[1..], i);
    }
  }

  /** Over every run: committed consumption never drops if and only if no save is stale, if and only if nothing
      was written over. */
  lemma {:induction false} NeverDropsExactly(s: State, es: seq<Event>, i: nat)
    requires Inv(s) && Possible(s, es) && i < |s.t.rows|
    ensures NeverDrops(s, es, i) <==> SavesUndisturbed(s, es, i)
    ensures i < |Exec(s, es).t.rows| && (SavesUndisturbed(s, es, i) <==> Exec(s, es).lost[i] == s.lost[i])
    decreases |es|
  {
    if es != [] {
      StepKeeps(s, es[0]);
      DropsExactlyOnStaleSave(s, es[0], i);
      NeverDropsExactly(Next(s, es[0]), es[1..], i);
      LostNeverShrinks(Next(s, es[0]), es[1..], i);
    }
  }

  // ---------------------------------------------------------------- fresh request ids

  /** Every call of the run brings a key no earlier call and no stored draw has used. */
  ghost predicate FreshKeys(s: State, es: seq<Event>)
    requires WellSized(s) && Possible(s, es)
    decreases |es|
  {
    es == [] ||
    (NextWellSized(s, es[0]);
     (es[0].Begin? ==> es[0].key !in s.used) && FreshKeys(Next(s, es[0]), es[1..]))
  }

  ghost predicate KeysApart(s: State)
  {
    && (forall j :: 0 <= j < |s.t.draws| ==> s.t.draws[j].key in s.used)
    && (forall w :: 0 <= w < |s.workers| && !s.workers[w].Idle? ==>
      s.workers[w].key in s.used && !HasKey(s.t.draws, s.workers[w].key))
    && (forall v, w :: 0 <= v < w < |s.workers| && !s.workers[v].Idle? && !s.workers[w].Idle? ==>
      s.workers[v].key != s.workers[w].key)
  }

  lemma {:induction false} FreshStep(s: State, e: Event)
    requires Inv(s) && KeysApart(s) && Enabled(s, e)
    requires e.Begin? ==> e.key !in s.used
    ensures KeysApart(Next(s, e)) && s.repeated <= Next(s, e).repeated
  {
    if e.Commit? {
      FreshCommit(s, e.w);
    } else if e.Begin? {
      FreshBegin(s, e);
    } else {
      KeepsKeys(s, e);
      KeysStayApart(s, Next(s, e));
    }
  }

  lemma {:induction false} FreshBegin(s: State, e: Event)
    requires Inv(s) && KeysApart(s) && Enabled(s, e) && e.Begin? && e.key !in s.used
    ensures KeysApart(Next(s, e))
  {
  }

  /** The stored draws have the same keys, and every busy worker had its key before. */
  ghost predicate KeysKept(s: State, s': State)
  {
    && s'.used == s.used
    && |s'.t.draws| == |s.t.draws|
    && (forall j :: 0 <= j < |s.t.draws| ==> s'.t.draws[j].key == s.t.draws[j].key)
    && |s'.workers| == |s.workers|
    && (forall v :: 0 <= v < |s.workers| && !s'.workers[v].Idle? ==>
          !s.workers[v].Idle? && s'.workers[v].key == s.workers[v].key)
  }

  lemma {:induction false} KeepsKeys(s: State, e: Event)
    requires WellSized(s) && Enabled(s, e) && !e.Begin? && !e.Commit?
    ensures KeysKept(s, Next(s, e))
  {
  }

  lemma {:induction false} KeysStayApart(s: State, s': State)
    requires KeysApart(s) && KeysKept(s, s')
    ensures KeysApart(s')
  {
  }

  lemma {:induction false} FreshCommit(s: State, w: nat)
    requires Inv(s) && KeysApart(s) && Enabled(s, Commit(w))
    ensures KeysApart(Next(s, Commit(w))) && s.repeated == Next(s, Commit(w)).repeated
  {
    assert HolderOk(s, s.workers[w]);
    var d := s.workers[w].draw.value;
    var s' := Next(s, Commit(w));
    forall v | 0 <= v < |s.workers| && !s'.workers[v].Idle?
      ensures !HasKey(s'.t.draws, s.workers[v].key)
    {
      assert s.workers[v].key != s.workers[w].key;
      assert d.key == s.workers[w].key;
    }
  }

  lemma {:induction false} FreshRun(s: State, es: seq<Event>)
    requires Inv(s) && KeysApart(s) && Possible(s, es) && FreshKeys(s, es)
    ensures s.repeated <= Exec(s, es).repeated && KeysApart(Exec(s, es))
    decreases |es|
  {
    if es != [] {
      StepKeeps(s, es[0]);
      FreshStep(s, es[0]);
      FreshRun(Next(s, es[0]), es[1..]);
    }
  }

  /** With fresh keys the rise in consumption is exactly the new draws if and only if no draw disturbed a save. */
  lemma {:induction false} FreshConservation(s: State, es: seq<Event>, i: nat)
    requires Inv(s) && KeysApart(s) && Possible(s, es) && FreshKeys(s, es) && i < |s.t.rows|
    ensures var u := Exec(s, es);
      && i < |u.t.rows| && u.t.rows[i].id == s.t.rows[i].id
      && (Consumed(u, i) - Consumed(s, i) == DrawnOn(u.t.draws, s.t.rows[i].id) - DrawnOn(s.t.draws, s.t.rows[i].id)
          <==> SavesUndisturbed(s, es, i))
  {
    Conservation(s, es, i);
    NeverDropsExactly(s, es, i);
    FreshRun(s, es);
  }

  // ---------------------------------------------------------------- reused request ids

  /** A commit on row i of a call whose key already has its draw. */
  predicate RepeatedCommit(s: State, e: Event, i: nat)
    requires Enabled(s, e)
  {
    e.Commit? && s.workers[e.w].row == i && HasKey(s.t.draws, s.workers[e.w].key)
  }

  /** No commit on row i repeats a key. */
  ghost predicate NoRepeats(s: State, es: seq<Event>, i: nat)
    requires WellSized(s) && Possible(s, es)
    decreases |es|
  {
    es == [] ||
    (NextWellSized(s, es[0]);
     !RepeatedCommit(s, es[0], i) && NoRepeats(Next(s, es[0]), es[1..], i))
  }

  /** One step counts a repeated debit of row i exactly when it is a commit that repeats a key, and never uncounts
      one. */
  lemma {:induction false} RepeatsExactly(s: State, e: Event, i: nat)
    requires Inv(s) && Enabled(s, e) && i < |s.t.rows|
    ensures i < |Next(s, e).repeated| && Next(s, e).repeated[i] >= s.repeated[i]
    ensures Next(s, e).repeated[i] > s.repeated[i] <==> RepeatedCommit(s, e, i)
  {
    if e.Commit? {
      assert HolderOk(s, s.workers[e.w]);
    }
  }

  lemma {:induction false} NoRepeatsExactly(s: State, es: seq<Event>, i: nat)
    requires Inv(s) && Possible(s, es) && i < |s.t.rows|
    ensures i < |Exec(s, es).repeated| && Exec(s, es).repeated[i] >= s.repeated[i]
    ensures NoRepeats(s, es, i) <==> Exec(s, es).repeated[i] == s.repeated[i]
    decreases |es|
  {
    if es != [] {
      StepKeeps(s, es[0]);
      NextWellSized(s, es[0]);
      RepeatsExactly(s, es[0], i);
      NoRepeatsExactly(Next(s, es[0]), es[1..], i);
    }
  }

  /** With any keys and undisturbed saves the rise in consumption is never below the new draws, and equals them if
      and only if no commit repeats a key: a repeated key debits again without a second draw. */
  lemma {:induction false} ReusedKeysExactly(s: State, es: seq<Event>, i: nat)
    requires Inv(s) && Possible(s, es) && i < |s.t.rows| && SavesUndisturbed(s, es, i)
    ensures var u := Exec(s, es);
      && i < |u.t.rows| && u.t.rows[i].id == s.t.rows[i].id
      && var rise, drawn :=
        Consumed(u, i) - Consumed(s, i), DrawnOn(u.t.draws, s.t.rows[i].id) - DrawnOn(s.t.draws, s.t.rows[i].id);
         rise >= drawn && (rise == drawn <==> NoRepeats(s, es, i))
  {
    Conservation(s, es, i);
    NeverDropsExactly(s, es, i);
    NoRepeatsExactly(s, es, i);
  }

  // ---------------------------------------------------------------- revoking under a draw

  predicate LiveAt(draws: seq<Draw>, j: nat, id: string)
  {
    j < |draws| && draws[j].authorization == id && draws[j].state != Rejected
  }

  /** The step gives authorization id its draw j: it commits that draw, or takes it out of Rejected. */
  predicate Wakes(s: State, e: Event, j: nat, id: string)
    requires Enabled(s, e)
  {
    || (e.Commit? && s.workers[e.w].draw.Some? && j == |s.t.draws| && s.t.rows[s.workers[e.w].row].id == id)
    || (e.Advance? && e.draw == j && e.to != Rejected
        && s.t.draws[j].authorization == id && s.t.draws[j].state == Rejected)
  }

  predicate Rejects(e: Event, j: nat)
  {
    e.Advance? && e.draw == j && e.to == Rejected
  }

  lemma {:induction false} LiveStep(s: State, e: Event, j: nat, id: string)
    requires Inv(s) && Enabled(s, e)
    ensures LiveAt(Next(s, e).t.draws, j, id) <==> (LiveAt(s.t.draws, j, id) && !Rejects(e, j)) || Wakes(s, e, j, id)
  {
    if e.Commit? {
      assert HolderOk(s, s.workers[e.w]);
    }
  }

  ghost predicate NeverRejected(es: seq<Event>, j: nat)
  {
    forall i :: 0 <= i < |es| ==> !Rejects(es[i], j)
  }

  /** Some step of the run gives the authorization its draw j, and no later one rejects that draw. */
  ghost predicate Woken(s: State, es: seq<Event>, j: nat, id: string)
    requires WellSized(s) && Possible(s, es)
    decreases |es|
  {
    es != [] &&
    (NextWellSized(s, es[0]);
     (Wakes(s, es[0], j, id) && NeverRejected(es[1..], j)) || Woken(Next(s, es[0]), es[1..], j, id))
  }

  lemma {:induction false} LiveExactly(s: State, es: seq<Event>, j: nat, id: string)
    requires Inv(s) && Possible(s, es)
    ensures LiveAt(Exec(s, es).t.draws, j, id) <==>
      (LiveAt(s.t.draws, j, id) && NeverRejected(es, j)) || Woken(s, es, j, id)
    decreases |es|
  {
    if es != [] {
      StepKeeps(s, es[0]);
      LiveStep(s, es[0], j, id);
      LiveExactly(Next(s, es[0]), es[1..], j, id);
      RejectedFirst(es, j);
    }
  }

  lemma {:induction false} RejectedFirst(es: seq<Event>, j: nat)
    requires es != []
    ensures NeverRejected(es, j) <==> !Rejects(es[0], j) && NeverRejected(es[1..], j)
  {
    assert es == [es[0]] + es[1..];
  }

  /** A revoker past its preflight waits unchanged until its own save. */
  lemma {:induction false} ClearedStays(s: State, es: seq<Event>, r: nat)
    requires WellSized(s) && Possible(s, es) && r < |s.revokers| && s.revokers[r].Cleared?
    requires forall i :: 0 <= i < |es| ==> es[i] != Save(r)
    ensures r < |Exec(s, es).revokers| && Exec(s, es).revokers[r] == s.revokers[r]
    decreases |es|
  {
    if es != [] {
      NextWellSized(s, es[0]);
      ClearedStays(Next(s, es[0]), es[1..], r);
    }
  }

  /** A save of r that its version check lets through. */
  predicate GoesThrough(s: State, r: nat)
    requires Enabled(s, Save(r))
  {
    s.revokers[r].version == s.t.rows[s.revokers[r].row].version
  }

  ghost predicate SomeWoken(s: State, es: seq<Event>, id: string)
    requires WellSized(s) && Possible(s, es)
  {
    exists j: nat :: Woken(s, es, j, id)
  }

  lemma {:induction false} LiveIffWoken(s: State, es: seq<Event>, id: string)
    requires Inv(s) && Possible(s, es) && !HasLiveDraw(s.t.draws, id)
    ensures HasLiveDraw(Exec(s, es).t.draws, id) <==> SomeWoken(s, es, id)
  {
    var draws := Exec(s, es).t.draws;
    forall j: nat
      ensures LiveAt(draws, j, id) <==> Woken(s, es, j, id)
    {
      LiveExactly(s, es, j, id);
      NoneLive(s.t.draws, id, j);
    }
    LiveSomewhere(draws, id);
  }

  /** A preflight lets the revoker on exactly when its row has no live draw, and changes no table. */
  lemma {:induction false} PreflightPasses(s: State, r: nat)
    requires WellSized(s) && Enabled(s, Preflight(r))
    ensures var s1, row := Next(s, Preflight(r)), s.revokers[r].row;
      && WellSized(s1) && s1.t == s.t && r < |s1.revokers|
      && (s1.revokers[r].Cleared? <==> !HasLiveDraw(s.t.draws, s.t.rows[row].id))
      && (s1.revokers[r].Cleared? ==> s1.revokers[r].row == row)
  {
  }

  lemma {:induction false} SaveRevokes(s: State, r: nat)
    requires WellSized(s) && Enabled(s, Save(r)) && GoesThrough(s, r)
    ensures var t, row := Next(s, Save(r)).t, s.revokers[r].row;
      && t.draws == s.t.draws && |t.rows| == |s.t.rows|
      && t.rows[row].id == s.t.rows[row].id && t.rows[row].state == Revoked
  {
  }

  /** Whatever happens between a preflight that lets the revoker on and the save that then goes through: the
      authorization is revoked out from under a live draw if and only if in between a draw on it was committed, or
      taken out of Rejected, and not rejected again. */
  lemma {:induction false} RevokedUnderDrawExactly(s: State, r: nat, es: seq<Event>)
    requires Inv(s) && Enabled(s, Preflight(r)) && WellSized(Next(s, Preflight(r)))
    requires Next(s, Preflight(r)).revokers[r].Cleared? && Possible(Next(s, Preflight(r)), es)
    requires forall i :: 0 <= i < |es| ==> es[i] != Save(r)
    requires var u := Exec(Next(s, Preflight(r)), es); Enabled(u, Save(r)) && GoesThrough(u, r)
    ensures var s1, row := Next(s, Preflight(r)), s.revokers[r].row;
      var id, end := s.t.rows[row].id, Next(Exec(s1, es), Save(r)).t;
      && row < |end.rows| && end.rows[row].id == id && end.rows[row].state == Revoked
      && (HasLiveDraw(end.draws, id) <==> SomeWoken(s1, es, id))
  {
    var s1, row := Next(s, Preflight(r)), s.revokers[r].row;
    PreflightPasses(s, r);
    StepKeeps(s, Preflight(r));
    ClearedStays(s1, es, r);
    RunKeepsIdentity(s1, es, row);
    LiveIffWoken(s1, es, s.t.rows[row].id);
    SaveRevokes(Exec(s1, es), r);
  }

  lemma {:induction false} NoneLive(draws: seq<Draw>, id: string, j: nat)
    requires !HasLiveDraw(draws, id)
    ensures !LiveAt(draws, j, id)
  {
  }

  lemma {:induction false} LiveSomewhere(draws: seq<Draw>, id: string)
    ensures HasLiveDraw(draws, id) <==> exists j: nat :: LiveAt(draws, j, id)
  {
    if HasLiveDraw(draws, id) {
      var j :| 0 <= j < |draws| && draws[j].authorization == id && draws[j].state != Rejected;
      assert LiveAt(draws, j, id);
    }
  }
}
