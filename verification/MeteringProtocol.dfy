/** Any number of gateway workers drawing capacity, interleaved with any number of
    revocation runs, at the grain of their database statements.

    A worker checks entitlement outside any transaction, then opens one: it locks and debits a
    row (skipping locked rows), records the draw and its settlement, and commits or rolls back.
    A revocation loads a row, checks that no live draw hangs on it, and saves the loaded row back
    with a version comparison. The save writes the consumed amount it loaded; a draw does not
    touch the version. A save is one step; that its row stays locked from its update to its commit
    shows in that a draw may skip any further set of busy rows. */
module MeteringProtocol {
  import opened Wrappers
  import opened Authorizations

  datatype Worker =
    | Idle
    | Entitled(ask: Ask, key: string)
    | Debited(ask: Ask, key: string, row: nat)
    | Recorded(ask: Ask, key: string, row: nat, draw: Option<Draw>)

  datatype Revoker =
    | Waiting
    | Loaded(row: nat, consumed: int, version: nat)
    | Cleared(row: nat, consumed: int, version: nat)

  /** The committed tables, the processes, and three running totals per authorization that no
      process reads: what was consumed before the run beyond its draws, what draws that found
      their key already recorded consumed again, and what saves wrote over. */
  datatype State = State(
    t: Tables,
    workers: seq<Worker>,
    revokers: seq<Revoker>,
    used: set<string>,
    base: seq<int>,
    repeated: seq<nat>,
    lost: seq<int>)

  datatype Event =
    | Begin(w: nat, ask: Ask, key: string)
    | LockAndDebit(w: nat, busy: set<nat>)
    | Record(w: nat)
    | Commit(w: nat)
    | RollBack(w: nat)
    | Load(r: nat, row: nat)
    | Preflight(r: nat)
    | Save(r: nat)
    | Advance(draw: nat, to: DrawState)
    | Provision(principal: string)
    | Grant(auth: Auth)

  predicate Holds(w: Worker)
  {
    w.Debited? || w.Recorded?
  }

  function Locked(s: State): set<nat>
  {
    set w | 0 <= w < |s.workers| && Holds(s.workers[w]) :: s.workers[w].row
  }

  /** Another transaction has inserted this key and not yet ended: the insert waits for it. */
  predicate KeyPending(s: State, key: string)
  {
    exists w :: 0 <= w < |s.workers| && s.workers[w].Recorded? && s.workers[w].draw.Some? && s.workers[w].key == key
  }

  predicate Enabled(s: State, e: Event)
  {
    match e
    case Begin(w, _, _) => w < |s.workers| && s.workers[w].Idle?
    case LockAndDebit(w, _) => w < |s.workers| && s.workers[w].Entitled?
    case Record(w) => w < |s.workers| && s.workers[w].Debited? && !KeyPending(s, s.workers[w].key)
    case Commit(w) => w < |s.workers| && s.workers[w].Recorded? && s.workers[w].row < |s.t.rows|
    case RollBack(w) => w < |s.workers| && !s.workers[w].Idle?
    case Load(r, row) => r < |s.revokers| && s.revokers[r].Waiting? && row < |s.t.rows|
    case Preflight(r) => r < |s.revokers| && s.revokers[r].Loaded? && s.revokers[r].row < |s.t.rows|
    case Save(r) => r < |s.revokers| && s.revokers[r].Cleared? && s.revokers[r].row < |s.t.rows|
      && s.revokers[r].row !in Locked(s)
    case Advance(draw, _) => draw < |s.t.draws|
    case Provision(_) => true
    case Grant(auth) => 0 <= auth.consumed <= auth.cap && forall i :: 0 <= i < |s.t.rows| ==> s.t.rows[i].id != auth.id
  }

  function SetWorker(s: State, w: nat, p: Worker): State
    requires w < |s.workers|
  {
    s.(workers := s.workers[w := p])
  }

  function SetRevoker(s: State, r: nat, p: Revoker): State
    requires r < |s.revokers|
  {
    s.(revokers := s.revokers[r := p])
  }

  predicate WellSized(s: State)
  {
    |s.base| == |s.repeated| == |s.lost| == |s.t.rows|
  }

  function CommitStep(s: State, w: nat): State
    requires WellSized(s) && Enabled(s, Commit(w))
  {
    var p := s.workers[w];
    var t := s.t.(rows := Debit(s.t.rows, p.row, p.ask.cost));
    var s' := SetWorker(s.(t := t), w, Idle);
    match p.draw
    case Some(d) => s'.(t := t.(draws := t.draws + [d], settlements := t.settlements + [Settlement(DrawId(d.key))]))
    case None => s'.(repeated := s.repeated[p.row := s.repeated[p.row] + p.ask.cost])
  }

  /** UPDATE ... SET consumed_amount = loaded, state = 'revoked', version = version + 1 WHERE version = loaded. */
  function SaveStep(s: State, r: nat): State
    requires WellSized(s) && Enabled(s, Save(r))
  {
    var p := s.revokers[r];
    var a := s.t.rows[p.row];
    var s' := SetRevoker(s, r, Waiting);
    if a.version != p.version then s'
    else s'.(
      t := s.t.(rows := s.t.rows[p.row := a.(consumed := p.consumed, state := Revoked, version := a.version + 1)]),
      lost := s.lost[p.row := s.lost[p.row] + (a.consumed - p.consumed)])
  }

  function Next(s: State, e: Event): State
    requires WellSized(s) && Enabled(s, e)
  {
    match e
    case Begin(w, ask, key) =>
      var s' := s.(used := s.used + {key});
      if CheckEntitlement(s.t.rows, Some(ask.principal), ask.now, ask.only).Some? then s'
      else SetWorker(s', w, Entitled(ask, key))
    case LockAndDebit(w, busy) =>
      var p := s.workers[w];
      (match Select(s.t.rows, p.ask, Locked(s) + busy)
       case Some(k) => SetWorker(s, w, Debited(p.ask, p.key, k))
       case None => SetWorker(s, w, Idle))
    case Record(w) =>
      var p := s.workers[w];
      if !DrawInsertable(s.t, p.ask) || p.row >= |s.t.rows| then SetWorker(s, w, Idle)
      else if HasKey(s.t.draws, p.key) then SetWorker(s, w, Recorded(p.ask, p.key, p.row, None))
      else SetWorker(s, w, Recorded(p.ask, p.key, p.row, Some(NewDraw(s.t.rows[p.row], p.ask, p.key))))
    case Commit(w) => CommitStep(s, w)
    case RollBack(w) => SetWorker(s, w, Idle)
    case Load(r, row) =>
      var a := s.t.rows[row];
      if a.state == Active then SetRevoker(s, r, Loaded(row, a.consumed, a.version)) else s
    case Preflight(r) =>
      var p := s.revokers[r];
      if HasLiveDraw(s.t.draws, s.t.rows[p.row].id) then SetRevoker(s, r, Waiting)
      else SetRevoker(s, r, Cleared(p.row, p.consumed, p.version))
    case Save(r) => SaveStep(s, r)
    case Advance(draw, to) => s.(t := s.t.(draws := s.t.draws[draw := s.t.draws[draw].(state := to)]))
    case Provision(principal) => s.(t := s.t.(accounts := s.t.accounts + {principal}))
    case Grant(auth) =>
      s.(t := s.t.(rows := s.t.rows + [auth]),
         base := s.base + [auth.consumed - DrawnOn(s.t.draws, auth.id)],
         repeated := s.repeated + [0], lost := s.lost + [0])
  }

  lemma {:induction false} NextWellSized(s: State, e: Event)
    requires WellSized(s) && Enabled(s, e)
    ensures WellSized(Next(s, e))
    ensures |Next(s, e).t.rows| >= |s.t.rows|
  {
  }

  /** A run: every event is enabled when its turn comes. */
  ghost predicate Possible(s: State, es: seq<Event>)
    requires WellSized(s)
    decreases |es|
  {
    es == [] || (Enabled(s, es[0]) && (NextWellSized(s, es[0]); Possible(Next(s, es[0]), es[1..])))
  }

  ghost function Exec(s: State, es: seq<Event>): (s': State)
    requires WellSized(s) && Possible(s, es)
    ensures WellSized(s')
    decreases |es|
  {
    if es == [] then s else NextWellSized(s, es[0]); Exec(Next(s, es[0]), es[1..])
  }

  // ---------------------------------------------------------------- what every step keeps

  /** A lock holder's row is still drawable for the captured time and cost: nothing that could
      spoil it can happen while the lock is held. */
  ghost predicate HolderOk(s: State, w: Worker)
  {
    Holds(w) ==>
      && w.row < |s.t.rows|
      && Drawable(s.t.rows[w.row], w.ask)
      && (w.Recorded? ==>
            && DrawInsertable(s.t, w.ask)
            && (w.draw.None? <==> HasKey(s.t.draws, w.key))
            && (w.draw.Some? ==> w.draw.value == NewDraw(s.t.rows[w.row], w.ask, w.key)))
  }

  ghost predicate LocksExclusive(ws: seq<Worker>)
  {
    forall v, w :: 0 <= v < w < |ws| && Holds(ws[v]) && Holds(ws[w]) ==>
      && ws[v].row != ws[w].row
      && (ws[v].Recorded? && ws[w].Recorded? && ws[v].draw.Some? && ws[w].draw.Some? ==> ws[v].key != ws[w].key)
  }

  /** While the version has not moved, the row is still active and can only have consumed more since it was loaded. */
  ghost predicate RevokerOk(s: State, r: Revoker)
  {
    !r.Waiting? ==>
      && r.row < |s.t.rows|
      && r.version <= s.t.rows[r.row].version
      && 0 <= r.consumed
      && (r.version == s.t.rows[r.row].version ==>
        s.t.rows[r.row].state == Active && r.consumed <= s.t.rows[r.row].consumed)
  }

  /** consumed + written over == before the run + recorded draws + repeated draws, for every authorization. */
  ghost predicate Accounted(s: State)
    requires WellSized(s)
  {
    forall i :: 0 <= i < |s.t.rows| ==>
      s.t.rows[i].consumed + s.lost[i] == s.base[i] + DrawnOn(s.t.draws, s.t.rows[i].id) + s.repeated[i]
  }

  /** The committed tables and the totals beside them. */
  ghost predicate Books(s: State)
  {
    && WellSized(s)
    && Sound(s.t)
    && (forall i :: 0 <= i < |s.lost| ==> s.lost[i] >= 0)
    && Accounted(s)
  }

  ghost predicate HoldersOk(s: State)
  {
    forall w :: 0 <= w < |s.workers| ==> HolderOk(s, s.workers[w])
  }

  ghost predicate RevokersOk(s: State)
  {
    forall r :: 0 <= r < |s.revokers| ==> RevokerOk(s, s.revokers[r])
  }

  ghost predicate Inv(s: State)
  {
    Books(s) && HoldersOk(s) && LocksExclusive(s.workers) && RevokersOk(s)
  }

  /** Before any process starts: tables of any content, and totals that square with them. */
  ghost predicate Initial(s: State)
  {
    && WellSized(s)
    && Sound(s.t)
    && (forall w :: 0 <= w < |s.workers| ==> s.workers[w].Idle?)
    && (forall r :: 0 <= r < |s.revokers| ==> s.revokers[r].Waiting?)
    && (forall j :: 0 <= j < |s.t.draws| ==> s.t.draws[j].key in s.used)
    && (forall i :: 0 <= i < |s.t.rows| ==>
          s.lost[i] == 0 && s.repeated[i] == 0
            && s.base[i] == s.t.rows[i].consumed - DrawnOn(s.t.draws, s.t.rows[i].id))
  }

  lemma {:induction false} LockedContains(s: State, w: nat)
    requires w < |s.workers| && Holds(s.workers[w])
    ensures s.workers[w].row in Locked(s)
  {
  }

  lemma {:induction false} LockKeeps(s: State, w: nat, busy: set<nat>)
    requires Inv(s) && Enabled(s, LockAndDebit(w, busy))
    ensures Inv(Next(s, LockAndDebit(w, busy)))
  {
    var s' := Next(s, LockAndDebit(w, busy));
    SameBooks(s, s');
    SameRowsKeepRevokers(s, s');
    LockHolders(s, w, busy);
    LockExclusive(s, w, busy);
  }

  lemma {:induction false} LockHolders(s: State, w: nat, busy: set<nat>)
    requires Inv(s) && Enabled(s, LockAndDebit(w, busy))
    ensures HoldersOk(Next(s, LockAndDebit(w, busy)))
  {
    var s' := Next(s, LockAndDebit(w, busy));
    forall v | 0 <= v < |s'.workers|
      ensures HolderOk(s', s'.workers[v])
    {
      assert HolderOk(s, s.workers[v]);
    }
  }

  lemma {:induction false} LockExclusive(s: State, w: nat, busy: set<nat>)
    requires Inv(s) && Enabled(s, LockAndDebit(w, busy))
    ensures LocksExclusive(Next(s, LockAndDebit(w, busy)).workers)
  {
    var pick := Select(s.t.rows, s.workers[w].ask, Locked(s) + busy);
    if pick.Some? {
      forall v | 0 <= v < |s.workers| && Holds(s.workers[v])
        ensures s.workers[v].row != pick.value
      {
        LockedContains(s, v);
      }
    }
  }

  /** A step that leaves rows, draws, settlements and totals alone keeps the books. */
  lemma {:induction false} SameBooks(s: State, s': State)
    requires Books(s) && s'.t == s.t.(accounts := s'.t.accounts)
    requires s'.base == s.base && s'.repeated == s.repeated && s'.lost == s.lost
    ensures Books(s')
  {
  }

  lemma {:induction false} RecordKeeps(s: State, w: nat)
    requires Inv(s) && Enabled(s, Record(w))
    ensures Inv(Next(s, Record(w)))
  {
    var s' := Next(s, Record(w));
    forall v | 0 <= v < |s.workers|
      ensures HolderOk(s', s'.workers[v])
    {
      assert HolderOk(s, s.workers[v]) && HolderOk(s, s.workers[w]);
    }
    SameBooks(s, s');
    SameRowsKeepRevokers(s, s');
    RecordExclusive(s, w);
  }

  lemma {:induction false} RecordExclusive(s: State, w: nat)
    requires Inv(s) && Enabled(s, Record(w))
    ensures LocksExclusive(Next(s, Record(w)).workers)
  {
    assert LocksExclusive(s.workers);
  }

  lemma {:induction false} CommitSound(s: State, w: nat)
    requires Inv(s) && Enabled(s, Commit(w))
    ensures Sound(Next(s, Commit(w)).t)
  {
    var p := s.workers[w];
    assert HolderOk(s, p);
    if p.draw.Some? {
      CommitKeepsPairs(s, p.draw.value);
    }
  }

  lemma {:induction false} CommitAccounted(s: State, w: nat)
    requires Inv(s) && Enabled(s, Commit(w))
    ensures Accounted(Next(s, Commit(w)))
  {
    var s' := Next(s, Commit(w));
    var p := s.workers[w];
    assert HolderOk(s, p);
    if p.draw.Some? {
      forall i | 0 <= i < |s.t.rows|
        ensures DrawnOn(s'.t.draws, s.t.rows[i].id) == DrawnOn(s.t.draws, s.t.rows[i].id)
          + if i == p.row then p.ask.cost else 0
      {
        DrawnOnAppend(s.t.draws, p.draw.value, s.t.rows[i].id);
      }
    }
  }

  lemma {:induction false} CommitHolder(s: State, w: nat, v: nat)
    requires Inv(s) && Enabled(s, Commit(w)) && v < |s.workers|
    ensures HolderOk(Next(s, Commit(w)), Next(s, Commit(w)).workers[v])
  {
    assert HolderOk(s, s.workers[v]) && HolderOk(s, s.workers[w]);
    if v != w && s.workers[w].draw.Some? {
      HasKeyAppend(s.t.draws, s.workers[w].draw.value, s.workers[v]);
      assert LocksExclusive(s.workers);
    }
  }

  lemma {:induction false} CommitRevoker(s: State, w: nat, r: nat)
    requires Inv(s) && Enabled(s, Commit(w)) && r < |s.revokers|
    ensures RevokerOk(Next(s, Commit(w)), Next(s, Commit(w)).revokers[r])
  {
    assert RevokerOk(s, s.revokers[r]);
  }

  lemma {:induction false} CommitKeeps(s: State, w: nat)
    requires Inv(s) && Enabled(s, Commit(w))
    ensures Inv(Next(s, Commit(w)))
  {
    CommitBooks(s, w);
    var s' := Next(s, Commit(w));
    forall v: nat | v < |s'.workers| ensures HolderOk(s', s'.workers[v]) { CommitHolder(s, w, v); }
    forall r: nat | r < |s'.revokers| ensures RevokerOk(s', s'.revokers[r]) { CommitRevoker(s, w, r); }
    FewerLocks(s.workers, s'.workers);
  }

  lemma {:induction false} CommitBooks(s: State, w: nat)
    requires Inv(s) && Enabled(s, Commit(w))
    ensures Books(Next(s, Commit(w)))
  {
    CommitSound(s, w);
    CommitAccounted(s, w);
  }

  lemma {:induction false} HasKeyAppend(draws: seq<Draw>, d: Draw, w: Worker)
    ensures w.Recorded? ==> (HasKey(draws + [d], w.key) <==> HasKey(draws, w.key) || d.key == w.key)
  {
    if w.Recorded? && HasKey(draws, w.key) {
      var j :| 0 <= j < |draws| && draws[j].key == w.key;
      assert (draws + [d])[j].key == w.key;
    }
    if w.Recorded? && d.key == w.key {
      assert (draws + [d])[|draws|].key == w.key;
    }
  }

  lemma {:induction false} CommitKeepsPairs(s: State, d: Draw)
    requires Sound(s.t) && !HasKey(s.t.draws, d.key)
    ensures Paired(s.t.draws + [d], s.t.settlements + [Settlement(DrawId(d.key))])
  {
  }

  lemma {:induction false} SaveKeeps(s: State, r: nat)
    requires Inv(s) && Enabled(s, Save(r))
    ensures Inv(Next(s, Save(r)))
  {
    SaveBooks(s, r);
    SaveProcesses(s, r);
  }

  lemma {:induction false} SaveBooks(s: State, r: nat)
    requires Inv(s) && Enabled(s, Save(r))
    ensures Books(Next(s, Save(r)))
  {
    assert RevokerOk(s, s.revokers[r]);
  }

  lemma {:induction false} SaveProcesses(s: State, r: nat)
    requires Inv(s) && Enabled(s, Save(r))
    ensures HoldersOk(Next(s, Save(r))) && RevokersOk(Next(s, Save(r)))
  {
    var s' := Next(s, Save(r));
    assert RevokerOk(s, s.revokers[r]);
    forall v | 0 <= v < |s.workers|
      ensures HolderOk(s', s'.workers[v])
    {
      assert HolderOk(s, s.workers[v]);
      if Holds(s.workers[v]) {
        LockedContains(s, v);
      }
    }
    forall q | 0 <= q < |s.revokers|
      ensures RevokerOk(s', s'.revokers[q])
    {
      assert RevokerOk(s, s.revokers[q]);
    }
  }

  lemma {:induction false} DrawnOnAdvance(draws: seq<Draw>, k: nat, to: DrawState, id: string)
    requires k < |draws|
    ensures DrawnOn(draws[k := draws[k].(state := to)], id) == DrawnOn(draws, id)
  {
    var draws' := draws[k := draws[k].(state := to)];
    var n := |draws| - 1;
    if k == n {
      assert draws'[..n] == draws[..n];
    } else {
      DrawnOnAdvance(draws[..n], k, to, id);
      assert draws'[..n] == draws[..n][k := draws[k].(state := to)];
    }
  }

  lemma {:induction false} AdvanceBooks(s: State, k: nat, to: DrawState)
    requires Inv(s) && Enabled(s, Advance(k, to))
    ensures Books(Next(s, Advance(k, to)))
  {
    var s' := Next(s, Advance(k, to));
    assert forall j :: 0 <= j < |s.t.draws| ==> s'.t.draws[j].key == s.t.draws[j].key;
    forall i | 0 <= i < |s.t.rows|
      ensures DrawnOn(s'.t.draws, s.t.rows[i].id) == DrawnOn(s.t.draws, s.t.rows[i].id)
    {
      DrawnOnAdvance(s.t.draws, k, to, s.t.rows[i].id);
    }
  }

  lemma {:induction false} AdvanceKeeps(s: State, k: nat, to: DrawState)
    requires Inv(s) && Enabled(s, Advance(k, to))
    ensures Inv(Next(s, Advance(k, to)))
  {
    var s' := Next(s, Advance(k, to));
    assert forall j :: 0 <= j < |s.t.draws| ==> s'.t.draws[j].key == s.t.draws[j].key;
    AdvanceBooks(s, k, to);
    forall v | 0 <= v < |s.workers|
      ensures HolderOk(s', s'.workers[v])
    {
      assert HolderOk(s, s.workers[v]);
    }
    SameRowsKeepRevokers(s, s');
  }

  lemma {:induction false} GrantKeeps(s: State, a: Auth)
    requires Inv(s) && Enabled(s, Grant(a))
    ensures Inv(Next(s, Grant(a)))
  {
    var s' := Next(s, Grant(a));
    forall v | 0 <= v < |s.workers|
      ensures HolderOk(s', s'.workers[v])
    {
      assert HolderOk(s, s.workers[v]);
    }
    assert forall q :: 0 <= q < |s.revokers| ==> RevokerOk(s, s.revokers[q]);
  }

  /** Steps that touch neither a row nor a draw. */
  lemma {:induction false} QuietKeeps(s: State, e: Event)
    requires Inv(s) && Enabled(s, e)
    requires e.Begin? || e.RollBack? || e.Provision?
    ensures Inv(Next(s, e))
  {
    var s' := Next(s, e);
    forall v | 0 <= v < |s.workers|
      ensures HolderOk(s', s'.workers[v])
    {
      assert HolderOk(s, s.workers[v]);
    }
    SameBooks(s, s');
    SameRowsKeepRevokers(s, s');
    FewerLocks(s.workers, s'.workers);
  }

  lemma {:induction false} SameRowsKeepRevokers(s: State, s': State)
    requires RevokersOk(s) && s'.t.rows == s.t.rows && s'.revokers == s.revokers
    ensures RevokersOk(s')
  {
    assert forall r :: 0 <= r < |s.revokers| ==> RevokerOk(s, s.revokers[r]);
  }

  lemma {:induction false} SameTablesKeepHolders(s: State, s': State)
    requires HoldersOk(s) && s'.t == s.t && s'.workers == s.workers
    ensures HoldersOk(s')
  {
    assert forall v :: 0 <= v < |s.workers| ==> HolderOk(s, s.workers[v]);
  }

  lemma {:induction false} FewerLocks(ws: seq<Worker>, ws': seq<Worker>)
    requires LocksExclusive(ws) && |ws'| == |ws| && forall v :: 0 <= v < |ws| ==> ws'[v] == ws[v] || !Holds(ws'[v])
    ensures LocksExclusive(ws')
  {
  }

  lemma {:induction false} RevokerReadKeeps(s: State, e: Event)
    requires Inv(s) && Enabled(s, e)
    requires e.Load? || e.Preflight?
    ensures Inv(Next(s, e))
  {
    var s' := Next(s, e);
    SameBooks(s, s');
    SameTablesKeepHolders(s, s');
    forall q | 0 <= q < |s.revokers|
      ensures RevokerOk(s', s'.revokers[q])
    {
      assert RevokerOk(s, s.revokers[q]);
    }
  }

  lemma {:induction false} StepKeeps(s: State, e: Event)
    requires Inv(s) && Enabled(s, e)
    ensures Inv(Next(s, e))
  {
    match e
    case LockAndDebit(w, busy) => LockKeeps(s, w, busy);
    case Record(w) => RecordKeeps(s, w);
    case Commit(w) => CommitKeeps(s, w);
    case Save(r) => SaveKeeps(s, r);
    case Advance(k, to) => AdvanceKeeps(s, k, to);
    case Grant(a) => GrantKeeps(s, a);
    case Load(_, _) => RevokerReadKeeps(s, e);
    case Preflight(_) => RevokerReadKeeps(s, e);
    case _ => QuietKeeps(s, e);
  }

  lemma {:induction false} RunKeeps(s: State, es: seq<Event>)
    requires Inv(s) && Possible(s, es)
    ensures Inv(Exec(s, es))
    decreases |es|
  {
    if es != [] {
      StepKeeps(s, es[0]);
      RunKeeps(Next(s, es[0]), es[1..]);
    }
  }

  // ---------------------------------------------------------------- nobody is stuck

  /** From every reachable state each worker can take its next step at once, except that recording waits while
      another call with the same key has recorded and not ended; and a call that has begun can be abandoned at any
      point. */
  lemma {:induction false} WorkersProceed(s: State, w: nat, ask: Ask, key: string, busy: set<nat>)
    requires Inv(s) && w < |s.workers|
    ensures s.workers[w].Idle? <==> Enabled(s, Begin(w, ask, key))
    ensures s.workers[w].Entitled? <==> Enabled(s, LockAndDebit(w, busy))
    ensures Enabled(s, Record(w)) <==>
      && s.workers[w].Debited?
      && forall v :: 0 <= v < |s.workers| && s.workers[v].Recorded? && s.workers[v].key == s.workers[w].key ==>
           s.workers[v].draw.None?
    ensures s.workers[w].Recorded? <==> Enabled(s, Commit(w))
    ensures !s.workers[w].Idle? <==> Enabled(s, RollBack(w))
  {
    assert HolderOk(s, s.workers[w]);
  }

  /** A call goes on past its entitlement check exactly when some row of its principal is in force; either way no
      table changes. */
  lemma {:induction false} BeginsExactly(s: State, w: nat, ask: Ask, key: string)
    requires WellSized(s) && Enabled(s, Begin(w, ask, key))
    ensures var s' := Next(s, Begin(w, ask, key));
      && s'.t == s.t && s'.revokers == s.revokers && s'.used == s.used + {key}
      && s'.workers == s.workers[w :=
           if exists i :: 0 <= i < |s.t.rows| && InForce(s.t.rows[i], ask.principal, ask.now, ask.only)
           then Entitled(ask, key) else Idle]
  {
    EntitlementExact(s.t.rows, Some(ask.principal), ask);
  }

  /** The lock goes to the soonest-expiring row that is neither held by a worker nor busy and can bear the cost, ties
      by id; without one the call ends. */
  lemma {:induction false} LocksLeast(s: State, w: nat, busy: set<nat>)
    requires Inv(s) && Enabled(s, LockAndDebit(w, busy))
    ensures var s', ask := Next(s, LockAndDebit(w, busy)), s.workers[w].ask;
      && s' == s.(workers := s'.workers) && |s'.workers| == |s.workers|
      && (forall v :: 0 <= v < |s.workers| && v != w ==> s'.workers[v] == s.workers[v])
      && (s'.workers[w] == Idle <==> forall i: nat :: !Free(s, ask, busy, i))
      && (s'.workers[w] != Idle ==>
            && s'.workers[w].Debited? && s'.workers[w].ask == ask && s'.workers[w].key == s.workers[w].key
            && var k := s'.workers[w].row;
               && Free(s, ask, busy, k)
               && forall i: nat :: Free(s, ask, busy, i) ==> !Earlier(s.t.rows[i], s.t.rows[k]))
  {
    var ask, locked := s.workers[w].ask, Locked(s) + busy;
    var pick := Select(s.t.rows, ask, locked);
    forall i: nat | i < |s.t.rows|
      ensures Candidate(s.t.rows, ask, locked, i) <==> Free(s, ask, busy, i)
    {
      ColumnsExact(s.t.rows[i], ask);
      HeldExactly(s, i);
    }
  }

  ghost predicate Free(s: State, ask: Ask, busy: set<nat>, i: nat)
  {
    i < |s.t.rows| && MayBearCost(s.t.rows[i], ask) && i !in busy && !HeldBySome(s, i)
  }

  ghost predicate HeldBySome(s: State, i: nat)
  {
    exists v :: 0 <= v < |s.workers| && (s.workers[v].Debited? || s.workers[v].Recorded?) && s.workers[v].row == i
  }

  lemma {:induction false} HeldExactly(s: State, i: nat)
    ensures i in Locked(s) <==> HeldBySome(s, i)
  {
  }

  /** A run goes step by step. */
  lemma {:induction false} RunSteps(s: State, es: seq<Event>, e: Event)
    requires WellSized(s) && Possible(s, es)
    ensures Possible(s, es + [e]) <==> Enabled(Exec(s, es), e)
    ensures Possible(s, es + [e]) ==> Exec(s, es + [e]) == Next(Exec(s, es), e)
    decreases |es|
  {
    if es == [] {
      assert es + [e] == [e] && [e][1..] == [];
      if Enabled(s, e) {
        NextWellSized(s, e);
        assert Possible(Next(s, e), [e][1..]);
        assert Exec(Next(s, e), [e][1..]) == Next(s, e);
      }
    } else {
      NextWellSized(s, es[0]);
      assert (es + [e])[1..] == es[1..] + [e];
      RunSteps(Next(s, es[0]), es[1..], e);
    }
  }

  /** Each revoker can too, except that a save waits while a worker holds the row; and any new authorization
      within its cap can be granted. */
  lemma {:induction false} RevokersProceed(s: State, r: nat, row: nat, auth: Auth)
    requires Inv(s) && r < |s.revokers|
    ensures s.revokers[r].Waiting? && row < |s.t.rows| ==> Enabled(s, Load(r, row))
    ensures s.revokers[r].Loaded? ==> Enabled(s, Preflight(r))
    ensures s.revokers[r].Cleared? ==>
      (Enabled(s, Save(r)) <==>
        forall v :: 0 <= v < |s.workers| && (s.workers[v].Debited? || s.workers[v].Recorded?) ==>
          s.workers[v].row != s.revokers[r].row)
    ensures 0 <= auth.consumed <= auth.cap && (forall i :: 0 <= i < |s.t.rows| ==> s.t.rows[i].id != auth.id) ==>
      Enabled(s, Grant(auth))
  {
    assert RevokerOk(s, s.revokers[r]);
  }

  /** An abandoned call leaves the tables as they were and its row unlocked; so does one whose draw cannot be
      recorded, for want of a capacity account or of a cost. */
  lemma {:induction false} AbandonedLeavesNothing(s: State, w: nat)
    requires Inv(s) && w < |s.workers|
    ensures Enabled(s, RollBack(w)) ==> Next(s, RollBack(w)) == s.(workers := s.workers[w := Idle])
    ensures Enabled(s, Record(w)) && (s.workers[w].ask.principal !in s.t.accounts || s.workers[w].ask.cost == 0) ==>
      Next(s, Record(w)) == s.(workers := s.workers[w := Idle])
  {
  }
}
