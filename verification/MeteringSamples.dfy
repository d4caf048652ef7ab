/** Two runs of the metering protocol on one row: a save that writes over a draw, and a repeated request id. */
module MeteringSamples {
  import opened Wrappers
  import opened Authorizations
  import opened MeteringProtocol
  import opened MeteringRuns

  const SAMPLE_ROW := Auth("a1", "p1", "f1", "0xsigner", "USDC", 100, 0, 0, 10, Active, 0)
  const SAMPLE_ASK := Ask("p1", 5, 30, None)
  const SAMPLE := State(Tables([SAMPLE_ROW], [], [], {"p1"}), [Idle], [Waiting], {}, [0], [0], [0])

  lemma {:induction false} EntitledAlone(a: Auth, ask: Ask)
    requires Drawable(a, ask) && ask.only == None
    ensures CheckEntitlement([a], Some(ask.principal), ask.now, ask.only) == None
    ensures Select([a], ask, {}) == Some(0)
  {
    EntitlementExact([a], Some(ask.principal), ask);
    assert Counted([a][0], ask);
    assert Candidate([a], ask, {}, 0);
  }

  lemma {:induction false} Chain(s: State, e: Event, es: seq<Event>)
    requires WellSized(s) && Enabled(s, e) && WellSized(Next(s, e)) && Possible(Next(s, e), es)
    ensures Possible(s, [e] + es) && Exec(s, [e] + es) == Exec(Next(s, e), es)
  {
    assert ([e] + es)[1..] == es;
  }

  /** The worker's half of a call on a table of one drawable row, from an idle worker to the point where it may
      commit. */
  lemma {:induction false} CallAlone(s: State, key: string)
    requires WellSized(s) && s.workers == [Idle] && |s.t.rows| == 1 && Drawable(s.t.rows[0], SAMPLE_ASK)
      && "p1" in s.t.accounts
    ensures Enabled(s, Begin(0, SAMPLE_ASK, key))
    ensures var s1 := Next(s, Begin(0, SAMPLE_ASK, key));
      WellSized(s1) && Enabled(s1, LockAndDebit(0, {})) &&
      var s2 := Next(s1, LockAndDebit(0, {}));
      WellSized(s2) && Enabled(s2, Record(0)) &&
      Next(s2, Record(0)) == s.(used := s.used + {key},
        workers := [Recorded(SAMPLE_ASK, key, 0, if HasKey(s.t.draws, key) then None
          else Some(NewDraw(s.t.rows[0], SAMPLE_ASK, key)))])
  {
    EntitledAlone(s.t.rows[0], SAMPLE_ASK);
    assert s.t.rows == [s.t.rows[0]];
    var s1 := Next(s, Begin(0, SAMPLE_ASK, key));
    assert s1.workers == [Entitled(SAMPLE_ASK, key)];
    assert Locked(s1) == {};
    var s2 := Next(s1, LockAndDebit(0, {}));
    assert s2.workers == [Debited(SAMPLE_ASK, key, 0)];
  }

  /** A whole call of the sample worker, and what happens after it. */
  function CallThen(es: seq<Event>): seq<Event>
  {
    [Begin(0, SAMPLE_ASK, "k1")] + ([LockAndDebit(0, {})] + ([Record(0)] + ([Commit(0)] + es)))
  }

  /** A whole call from the state s: a second call with the same key debits again and records nothing. */
  lemma {:induction false} WholeCall(s: State, es: seq<Event>)
    requires WellSized(s) && s.workers == [Idle] && |s.t.rows| == 1 && Drawable(s.t.rows[0], SAMPLE_ASK)
      && "p1" in s.t.accounts
    requires WellSized(AfterCall(s)) && Possible(AfterCall(s), es)
    ensures Possible(s, CallThen(es)) && Exec(s, CallThen(es)) == Exec(AfterCall(s), es)
  {
    CallSteps(s);
    Chain4(s, Begin(0, SAMPLE_ASK, "k1"), LockAndDebit(0, {}), Record(0), Commit(0), AfterCall(s), es);
  }

  /** The four events can happen in turn and lead from s to u. */
  ghost predicate Leads(s: State, e1: Event, e2: Event, e3: Event, e4: Event, u: State)
  {
    WellSized(s) && Enabled(s, e1) &&
    var s1 := Next(s, e1);
    WellSized(s1) && Enabled(s1, e2) &&
    var s2 := Next(s1, e2);
    WellSized(s2) && Enabled(s2, e3) &&
    var s3 := Next(s2, e3);
    WellSized(s3) && Enabled(s3, e4) && Next(s3, e4) == u
  }

  lemma {:induction false} CallSteps(s: State)
    requires WellSized(s) && s.workers == [Idle] && |s.t.rows| == 1 && Drawable(s.t.rows[0], SAMPLE_ASK)
      && "p1" in s.t.accounts
    ensures Leads(s, Begin(0, SAMPLE_ASK, "k1"), LockAndDebit(0, {}), Record(0), Commit(0), AfterCall(s))
  {
    CallAlone(s, "k1");
    CommitAlone(s);
  }

  lemma {:induction false} CommitAlone(s: State)
    requires WellSized(s) && s.workers == [Idle] && |s.t.rows| == 1
    ensures var draw := if HasKey(s.t.draws, "k1") then None else Some(NewDraw(s.t.rows[0], SAMPLE_ASK, "k1"));
      var s3 := s.(used := s.used + {"k1"}, workers := [Recorded(SAMPLE_ASK, "k1", 0, draw)]);
      WellSized(s3) && Enabled(s3, Commit(0)) && Next(s3, Commit(0)) == AfterCall(s)
  {
  }

  lemma {:induction false} Chain4(s: State, e1: Event, e2: Event, e3: Event, e4: Event, u: State, es: seq<Event>)
    requires Leads(s, e1, e2, e3, e4, u) && WellSized(u) && Possible(u, es)
    ensures var all := [e1] + ([e2] + ([e3] + ([e4] + es)));
      Possible(s, all) && Exec(s, all) == Exec(u, es)
  {
    var s1 := Next(s, e1);
    var s2 := Next(s1, e2);
    var s3 := Next(s2, e3);
    Chain(s3, e4, es);
    Chain(s2, e3, [e4] + es);
    Chain(s1, e2, [e3] + ([e4] + es));
    Chain(s, e1, [e2] + ([e3] + ([e4] + es)));
  }

  function AfterCall(s: State): State
    requires WellSized(s) && |s.t.rows| == 1
  {
    var t := s.t.(rows := Debit(s.t.rows, 0, 30));
    if HasKey(s.t.draws, "k1") then s.(used := s.used + {"k1"}, t := t, repeated := s.repeated[0 := s.repeated[0] + 30])
    else s.(used := s.used + {"k1"}, t := t.(draws := t.draws + [NewDraw(s.t.rows[0], SAMPLE_ASK, "k1")],
                                              settlements := t.settlements + [Settlement(DrawId("k1"))]))
  }

  lemma {:induction false} SaveAlone(s: State)
    requires WellSized(s) && s.workers == [Idle] && |s.revokers| == 1 && s.revokers[0].Cleared?
      && s.revokers[0].row < |s.t.rows|
    ensures Possible(s, [Save(0)]) && Exec(s, [Save(0)]) == Next(s, Save(0))
  {
    assert Locked(s) == {};
    Chain(s, Save(0), []);
    assert [Save(0)] + [] == [Save(0)];
  }

  const CLEARED := SAMPLE.(revokers := [Cleared(0, 0, 0)])

  lemma {:induction false} LoadedAndCleared(es: seq<Event>)
    requires Possible(CLEARED, es)
    ensures var all := [Load(0, 0)] + ([Preflight(0)] + es);
      Possible(SAMPLE, all) && Exec(SAMPLE, all) == Exec(CLEARED, es)
  {
    var s1 := Next(SAMPLE, Load(0, 0));
    assert s1.revokers == [Loaded(0, 0, 0)];
    assert Next(s1, Preflight(0)).revokers == [Cleared(0, 0, 0)];
    Chain(s1, Preflight(0), es);
    Chain(SAMPLE, Load(0, 0), [Preflight(0)] + es);
  }

  lemma {:induction false} CallThenSave(s: State)
    requires WellSized(s) && s.workers == [Idle] && s.revokers == [Cleared(0, 0, 0)]
    requires |s.t.rows| == 1 && Drawable(s.t.rows[0], SAMPLE_ASK) && "p1" in s.t.accounts
    ensures var u := AfterCall(s);
      && WellSized(u) && Enabled(u, Save(0))
      && Possible(s, CallThen([Save(0)])) && Exec(s, CallThen([Save(0)])) == Next(u, Save(0))
  {
    SaveAlone(AfterCall(s));
    WholeCall(s, [Save(0)]);
  }

  /** The sample row revoked with nothing consumed, and a draw of 30 on it that is still live. */
  ghost predicate RevokedOverDraw(t: Tables)
  {
    && t.rows == [SAMPLE_ROW.(consumed := 0, state := Revoked, version := 1)]
    && DrawnOn(t.draws, "a1") == 30 && HasLiveDraw(t.draws, "a1")
  }

  lemma {:induction false} DrawThenSave()
    ensures Possible(CLEARED, CallThen([Save(0)])) && RevokedOverDraw(Exec(CLEARED, CallThen([Save(0)])).t)
  {
    CallThenSave(CLEARED);
    SavedOverDraw();
  }

  lemma {:induction false} SavedOverDraw()
    ensures var u := AfterCall(CLEARED);
      WellSized(u) && Enabled(u, Save(0)) && RevokedOverDraw(Next(u, Save(0)).t)
  {
    Drawn();
    OneLiveDraw();
    DrawnThenSaved(AfterCall(CLEARED));
  }

  const SAMPLE_DRAW := NewDraw(SAMPLE_ROW, SAMPLE_ASK, "k1")

  lemma {:induction false} Drawn()
    ensures var s := AfterCall(CLEARED);
      && WellSized(s) && s.workers == [Idle] && s.revokers == [Cleared(0, 0, 0)]
      && s.t.rows == [SAMPLE_ROW.(consumed := 30)] && s.t.draws == [SAMPLE_DRAW]
  {
  }

  lemma {:induction false} OneLiveDraw()
    ensures DrawnOn([SAMPLE_DRAW], "a1") == 30 && HasLiveDraw([SAMPLE_DRAW], "a1")
  {
    assert [SAMPLE_DRAW][..0] == [];
    assert [SAMPLE_DRAW][0].state == Settling;
  }

  lemma {:induction false} DrawnThenSaved(s: State)
    requires WellSized(s) && s.workers == [Idle] && s.revokers == [Cleared(0, 0, 0)]
    requires s.t.rows == [SAMPLE_ROW.(consumed := 30)]
    ensures Enabled(s, Save(0)) && Next(s, Save(0)).t.draws == s.t.draws
    ensures Next(s, Save(0)).t.rows == [SAMPLE_ROW.(consumed := 0, state := Revoked, version := 1)]
  {
    assert Locked(s) == {};
  }

  /** A revocation loads the row and finds no draw, a call draws 30, the revocation saves: the row is revoked and back
      at 0 consumed while the draw of 30 is recorded and settling. */
  lemma {:induction false} SaveWritesOverDraw()
    ensures Initial(SAMPLE)
    ensures var es := [Load(0, 0)] + ([Preflight(0)] + (CallThen([Save(0)])));
      Possible(SAMPLE, es) && RevokedOverDraw(Exec(SAMPLE, es).t)
  {
    SampleIsInitial();
    DrawThenSave();
    LoadedAndCleared(CallThen([Save(0)]));
  }

  lemma {:induction false} SampleIsInitial()
    ensures Initial(SAMPLE)
  {
  }

  /** Two calls with one request id: 60 consumed, one draw of 30. */
  lemma {:induction false} RepeatedKeyDebitsTwice()
    ensures Possible(SAMPLE, CallThen(CallThen([])))
    ensures var u := Exec(SAMPLE, CallThen(CallThen([])));
      |u.t.rows| == 1 && Consumed(u, 0) == 60 && DrawnOn(u.t.draws, "a1") == 30 && |u.t.settlements| == 1
  {
    var s1 := AfterCall(SAMPLE);
    assert s1.t.draws == [NewDraw(SAMPLE_ROW, SAMPLE_ASK, "k1")];
    assert s1.t.draws[0].key == "k1";
    assert s1.t.draws[..0] == [];
    WholeCall(s1, []);
    WholeCall(SAMPLE, CallThen([]));
  }
}
