/** The request-path gate: the prepaid-then-authorization waterfall ('new'), the legacy path, the
    dual path that serves legacy while evaluating the new one, and the read-only preflight.

    The prepaid layer and the principal lookup belong to other files; they enter as functions. */
module CapacityGate {
  import opened TextOrder
  import opened Wrappers
  import opened Authorizations
  import PR = ParityRecorder

  datatype Path = LegacyPath | DualPath | NewPath

  /** "" stands for an absent key or wallet. */
  datatype Caller = Caller(apiKey: string, wallet: string)

  datatype PrepaidAnswer = Allowed | Declined(code: string, terminal: bool)

  /** What a served call draws on; the preflight names the authorization layer without a row. */
  datatype Source = PrepaidCredits | AuthorizationCap(id: string, remaining: int) | SomeAuthorization

  datatype Verdict =
    | Served(source: Source)
    | Refused(denial: Denial, terminal: bool)
    | Threw

  datatype Collaborators<!P> = Collaborators(
    meter: (P, Caller) -> (PrepaidAnswer, P),
    precheck: (P, Caller) -> PrepaidAnswer,
    lookup: Caller -> Option<string>)

  /** What the waterfall relies on in the prepaid layer: a declined charge has changed nothing. */
  ghost predicate DeclineIsFree<P>(c: Collaborators<P>, prepaid: P, who: Caller)
  {
    c.meter(prepaid, who).0.Declined? ==> c.meter(prepaid, who).1 == prepaid
  }

  /** Everything a call may change, except the recorder. */
  datatype Service<P> = Service(t: Tables, prepaid: P)

  datatype Call = Call(who: Caller, now: int, cost: nat, key: string)

  // ---------------------------------------------------------------- specification

  function AskOf(principal: string, call: Call): Ask
  {
    Ask(principal, call.now, call.cost, None)
  }

  function Refusal(d: Denial): Verdict
  {
    Refused(d, false)
  }

  function InsertDraw(t: Tables, a: Auth, ask: Ask, key: string): Tables
  {
    t.(draws := AddDraw(t.draws, NewDraw(a, ask, key)), settlements := AddSettlement(t.settlements, DrawId(key)))
  }

  /** One draw under one transaction: the tables after it and the verdict. */
  function DrawOnce(t: Tables, ask: Ask, key: string): (Verdict, Tables)
  {
    match CheckEntitlement(t.rows, Some(ask.principal), ask.now, ask.only)
    case Some(d) => (Refusal(d), t)
    case None =>
      match Select(t.rows, ask, {})
      case Some(k) =>
        if !DrawInsertable(t, ask) then (Threw, t)
        else
          var rows := Debit(t.rows, k, ask.cost);
          (Served(AuthorizationCap(rows[k].id, Left(rows[k]))), InsertDraw(t.(rows := rows), t.rows[k], ask, key))
      case None =>
        match Classify(t.rows, Some(ask.principal), ask.now, ask.cost, ask.only)
        case Some(d) => (Refusal(d), t)
        case None => (Refusal(InsufficientCapacity), t)
  }

  function EnforceNew(t: Tables, principal: Option<string>, call: Call): (Verdict, Tables)
  {
    if principal.None? then (Refusal(NoAuthorization), t) else DrawOnce(t, AskOf(principal.value, call), call.key)
  }

  /** The machine-readable refusal codes. */
  function Code(v: Verdict): string
  {
    match v
    case Refused(NoAuthorization, _) => "no_authorization"
    case Refused(AuthorizationRevoked, _) => "authorization_revoked"
    case Refused(AuthorizationExpired, _) => "authorization_expired"
    case Refused(InsufficientCapacity, _) => "insufficient_capacity"
    case Refused(PrepaidDenial(code), _) => code
    case _ => ""
  }

  function OfPrepaid(a: PrepaidAnswer): Verdict
  {
    match a
    case Allowed => Served(PrepaidCredits)
    case Declined(code, terminal) => Refused(PrepaidDenial(code), terminal)
  }

  function Legacy<P>(c: Collaborators<P>, sv: Service<P>, call: Call): (Verdict, Service<P>)
  {
    var (answer, prepaid) := c.meter(sv.prepaid, call.who);
    (OfPrepaid(answer), sv.(prepaid := prepaid))
  }

  /** A key holder who merely ran out of credits is told so, whatever the authorization layer said. */
  predicate TellPrepaid(who: Caller, code: string)
  {
    who.apiKey != "" && code == "insufficient_credits"
  }

  function Waterfall<P>(c: Collaborators<P>, sv: Service<P>, call: Call): (Verdict, Service<P>)
  {
    var (answer, prepaid) := c.meter(sv.prepaid, call.who);
    var sv1 := sv.(prepaid := prepaid);
    if answer.Allowed? || answer.terminal then (OfPrepaid(answer), sv1)
    else
      var (v, t) := EnforceNew(sv.t, c.lookup(call.who), call);
      if v.Refused? && TellPrepaid(call.who, answer.code) then (OfPrepaid(answer), sv1.(t := t))
      else (v, sv1.(t := t))
  }

  function Precheck<P>(path: Path, c: Collaborators<P>, sv: Service<P>, call: Call): Verdict
  {
    var pre := c.precheck(sv.prepaid, call.who);
    if pre.Allowed? || path != NewPath then OfPrepaid(pre)
    else
      match Classify(sv.t.rows, c.lookup(call.who), call.now, call.cost, None)
      case None => Served(SomeAuthorization)
      case Some(d) => if TellPrepaid(call.who, pre.code) then OfPrepaid(pre) else Refusal(d)
  }

  // ---------------------------------------------------------------- one draw, one layer

  /** A draw succeeds exactly when some row can bear the cost alone and the draw can be recorded;
      it throws exactly when only the recording is impossible; it is refused otherwise. */
  lemma {:induction false} DrawExact(t: Tables, ask: Ask, key: string)
    ensures var v := DrawOnce(t, ask, key).0;
      var able := exists i: nat :: i < |t.rows| && MayBearCost(t.rows[i], ask);
      var recordable := ask.principal in t.accounts && ask.cost > 0;
      && (v.Served? <==> able && recordable)
      && (v.Threw? <==> able && !recordable)
      && (v.Refused? <==> !able)
      && (v == Refused(InsufficientCapacity, false) <==>
            !able && exists i: nat :: i < |t.rows| && InForce(t.rows[i], ask.principal, ask.now, ask.only))
      && (v.Refused? ==> !v.terminal && !v.denial.PrepaidDenial?)
  {
    EntitlementExact(t.rows, Some(ask.principal), ask);
    assert forall i: nat :: i < |t.rows| ==> Candidate(t.rows, ask, {}, i) == Drawable(t.rows[i], ask);
    assert forall i: nat :: i < |t.rows| && Drawable(t.rows[i], ask) ==> Counted(t.rows[i], ask);
  }

  /** The row drawn on is the soonest-expiring drawable one, ties by id: every other drawable row comes strictly
      later. */
  lemma {:induction false} DrawsOnLeast(t: Tables, ask: Ask, key: string)
    requires DistinctIds(t.rows) && DrawOnce(t, ask, key).0.Served?
    ensures var (v, t') := DrawOnce(t, ask, key); exists k: nat :: DrawnFrom(t, v, t', ask, key, k)
  {
    DrawExact(t, ask, key);
    var k := Select(t.rows, ask, {}).value;
    ServedFrom(t, ask, key, k);
    InsertedFrom(t, ask, key, k);
  }

  lemma {:induction false} InsertedFrom(t: Tables, ask: Ask, key: string, k: nat)
    requires DistinctIds(t.rows) && Select(t.rows, ask, {}) == Some(k) && k < |t.rows|
    ensures DrawnFrom(t, Served(AuthorizationCap(t.rows[k].id, Left(t.rows[k]) - ask.cost)),
      InsertDraw(t.(rows := Debit(t.rows, k, ask.cost)), t.rows[k], ask, key), ask, key, k)
  {
    SelectedIsLeast(t.rows, ask, k);
    InsertRecords(t.(rows := Debit(t.rows, k, ask.cost)), t.rows[k], ask, key);
  }

  lemma {:induction false} InsertRecords(t: Tables, a: Auth, ask: Ask, key: string)
    ensures RecordedOnce(t.draws, t.settlements, InsertDraw(t, a, ask, key),
      Draw(key, ask.principal, a.id, a.fundingSource, ask.cost, Settling))
  {
  }

  lemma {:induction false} ServedFrom(t: Tables, ask: Ask, key: string, k: nat)
    requires DrawOnce(t, ask, key).0.Served? && Select(t.rows, ask, {}) == Some(k) && k < |t.rows|
    ensures DrawOnce(t, ask, key) ==
      (Served(AuthorizationCap(t.rows[k].id, Left(t.rows[k]) - ask.cost)),
       InsertDraw(t.(rows := Debit(t.rows, k, ask.cost)), t.rows[k], ask, key))
  {
  }

  lemma {:induction false} SelectedIsLeast(rows: seq<Auth>, ask: Ask, k: nat)
    requires DistinctIds(rows) && Select(rows, ask, {}) == Some(k)
    ensures k < |rows| && MayBearCost(rows[k], ask)
    ensures forall i: nat :: i < |rows| && MayBearCost(rows[i], ask) && i != k ==> Sooner(rows[k], rows[i])
  {
    ColumnsExact(rows[k], ask);
    forall i: nat | i < |rows| && MayBearCost(rows[i], ask) && i != k
      ensures Sooner(rows[k], rows[i])
    {
      ColumnsExact(rows[i], ask);
      assert Candidate(rows, ask, {}, i);
      assert rows[i].id != rows[k].id;
      EarlierTotal(rows[i], rows[k]);
    }
  }

  /** Expires first, or at the same time and comes first by id. */
  ghost predicate Sooner(a: Auth, b: Auth)
  {
    a.validBefore < b.validBefore || (a.validBefore == b.validBefore && Below(a.id, b.id))
  }

  /** The draw and its settlement are each added unless one with the same key, or the same draw id, is there already. */
  ghost predicate RecordedOnce(draws: seq<Draw>, settlements: seq<Settlement>, t': Tables, d: Draw)
  {
    var id := "draw_" + d.key;
    && t'.draws == (if exists j :: 0 <= j < |draws| && draws[j].key == d.key then draws else draws + [d])
    && t'.settlements == (
         if exists j :: 0 <= j < |settlements| && settlements[j].drawId == id then settlements
         else settlements + [Settlement(id)])
  }

  /** Verdict and tables after a draw on row k. */
  ghost predicate DrawnFrom(t: Tables, v: Verdict, t': Tables, ask: Ask, key: string, k: nat)
  {
    && k < |t.rows|
    && MayBearCost(t.rows[k], ask)
    && (forall i: nat :: i < |t.rows| && MayBearCost(t.rows[i], ask) && i != k ==> Sooner(t.rows[k], t.rows[i]))
    && v == Served(AuthorizationCap(t.rows[k].id, t.rows[k].cap - t.rows[k].consumed - ask.cost))
    && t'.rows == t.rows[k := t.rows[k].(consumed := t.rows[k].consumed + ask.cost)]
    && RecordedOnce(t.draws, t.settlements, t',
      Draw(key, ask.principal, t.rows[k].id, t.rows[k].fundingSource, ask.cost, Settling))
    && t'.accounts == t.accounts
  }

  /** The tables stay sound, and a call that is not served leaves them as they were. */
  lemma {:induction false} DrawKeepsSound(t: Tables, ask: Ask, key: string)
    requires Sound(t)
    ensures Sound(DrawOnce(t, ask, key).1)
    ensures !DrawOnce(t, ask, key).0.Served? ==> DrawOnce(t, ask, key).1 == t
  {
    DrawExact(t, ask, key);
    var pick := Select(t.rows, ask, {});
    if DrawOnce(t, ask, key).0.Served? {
      InsertKeepsSound(t, ask, key, pick.value);
    }
  }

  lemma {:induction false} InsertKeepsSound(t: Tables, ask: Ask, key: string, k: nat)
    requires Sound(t) && k < |t.rows| && Drawable(t.rows[k], ask)
    ensures Sound(InsertDraw(t.(rows := Debit(t.rows, k, ask.cost)), t.rows[k], ask, key))
  {
    AddKeepsPairs(t.draws, t.settlements, NewDraw(t.rows[k], ask, key));
  }

  /** Waterfall exclusivity: each call charges prepaid, or draws on one authorization, or changes nothing at all. */
  lemma {:induction false} OneLayerAtMost<P>(c: Collaborators<P>, sv: Service<P>, call: Call)
    requires DeclineIsFree(c, sv.prepaid, call.who) && Sound(sv.t)
    ensures var (v, sv') := Waterfall(c, sv, call);
      && Sound(sv'.t)
      && (v == Served(PrepaidCredits) ==> sv' == sv.(prepaid := c.meter(sv.prepaid, call.who).1))
      && (v.Served? && v.source.AuthorizationCap? ==>
            && sv'.prepaid == sv.prepaid
            && c.lookup(call.who).Some?
            && (v, sv'.t) == DrawOnce(sv.t, AskOf(c.lookup(call.who).value, call), call.key)
            && exists k: nat :: DrawnFrom(sv.t, v, sv'.t, AskOf(c.lookup(call.who).value, call), call.key, k))
      && (!v.Served? ==> sv' == sv)
  {
    var answer := c.meter(sv.prepaid, call.who).0;
    if answer.Declined? && !answer.terminal && c.lookup(call.who).Some? {
      var ask := AskOf(c.lookup(call.who).value, call);
      DrawKeepsSound(sv.t, ask, call.key);
      if DrawOnce(sv.t, ask, call.key).0.Served? {
        DrawsOnLeast(sv.t, ask, call.key);
      }
    }
  }

  // ---------------------------------------------------------------- preflight

  /** Some row can bear the cost on its own. */
  ghost predicate RowSuffices(rows: seq<Auth>, principal: Option<string>, call: Call)
  {
    principal.Some? && exists i: nat :: i < |rows| && Drawable(rows[i], AskOf(principal.value, call))
  }

  lemma {:induction false} RowSufficesMeansAllow(t: Tables, principal: Option<string>, call: Call)
    requires Sound(t) && RowSuffices(t.rows, principal, call)
    ensures Classify(t.rows, principal, call.now, call.cost, None) == None
  {
    var ask := AskOf(principal.value, call);
    var i: nat :| i < |t.rows| && Drawable(t.rows[i], ask);
    EntitlementExact(t.rows, principal, ask);
    assert Counted(t.rows[i], ask);
    AvailableCoversRow(t.rows, ask, i);
  }

  /** What is served passes the preflight on the same state, except exactly when prepaid charges what its own precheck
      declines and the authorization layer has nothing to offer. */
  lemma {:induction false} PreflightSound<P>(c: Collaborators<P>, sv: Service<P>, call: Call)
    requires Sound(sv.t)
    ensures Waterfall(c, sv, call).0.Served? && !Precheck(NewPath, c, sv, call).Served? <==>
      && c.meter(sv.prepaid, call.who).0.Allowed?
      && c.precheck(sv.prepaid, call.who).Declined?
      && Classify(sv.t.rows, c.lookup(call.who), call.now, call.cost, None) != None
  {
    var p := c.lookup(call.who);
    if p.Some? {
      DrawExact(sv.t, AskOf(p.value, call), call.key);
      if RowSuffices(sv.t.rows, p, call) {
        RowSufficesMeansAllow(sv.t, p, call);
      }
    }
  }

  /** Whether a charge and its precheck, both declined, end in the same denial. */
  predicate SameDenial(who: Caller, charged: PrepaidAnswer, pre: PrepaidAnswer)
    requires charged.Declined? && pre.Declined?
  {
    if charged.terminal then TellPrepaid(who, pre.code) && charged.code == pre.code
    else TellPrepaid(who, charged.code) == TellPrepaid(who, pre.code)
  }

  /** After a preflight refusal enforcement serves exactly what prepaid charges after all; otherwise it refuses,
      with the very denial of the preflight if and only if the two prepaid codes say so: for one code, always,
      unless the charge is terminal. */
  lemma {:induction false} PreflightSameDenial<P>(c: Collaborators<P>, sv: Service<P>, call: Call)
    requires Sound(sv.t) && Precheck(NewPath, c, sv, call).Refused?
    ensures var v, charged := Waterfall(c, sv, call).0, c.meter(sv.prepaid, call.who).0;
      var pre := c.precheck(sv.prepaid, call.who);
      && pre.Declined?
      && (v.Served? <==> charged.Allowed?)
      && (charged.Declined? ==>
            v.Refused? && (v.denial == Precheck(NewPath, c, sv, call).denial <==> SameDenial(call.who, charged, pre)))
  {
    var p := c.lookup(call.who);
    if p.Some? {
      var ask := AskOf(p.value, call);
      DrawExact(sv.t, ask, call.key);
      if RowSuffices(sv.t.rows, p, call) {
        RowSufficesMeansAllow(sv.t, p, call);
        assert false;
      }
      assert ask == Ask(p.value, call.now, call.cost, None);
    }
  }

  /** The preflight allows what enforcement then does not serve exactly when prepaid declines and one of
      these holds: the decline is terminal, no single row can bear the cost, or the draw cannot be recorded. */
  lemma {:induction false} PreflightGapExact<P>(c: Collaborators<P>, sv: Service<P>, call: Call)
    ensures var answer := c.meter(sv.prepaid, call.who).0;
      var p := c.lookup(call.who);
      Precheck(NewPath, c, sv, call).Served? && !Waterfall(c, sv, call).0.Served? <==>
        && answer.Declined?
        && (c.precheck(sv.prepaid, call.who).Allowed? || Classify(sv.t.rows, p, call.now, call.cost, None) == None)
        && (answer.terminal || !RowSuffices(sv.t.rows, p, call) || !DrawInsertable(sv.t, AskOf(p.value, call)))
  {
    var p := c.lookup(call.who);
    if p.Some? {
      DrawExact(sv.t, AskOf(p.value, call), call.key);
    }
  }

  /** When the precheck declines too, a gap that is not a terminal decline, at a real cost, means the
      remaining capacity is split over at least two rows, each below the cost. */
  lemma {:induction false} PreflightGapIsSplit<P>(c: Collaborators<P>, sv: Service<P>, call: Call)
    requires call.cost >= 1 && c.precheck(sv.prepaid, call.who).Declined?
    requires var v := Waterfall(c, sv, call).0; v.Refused? && !v.terminal
    requires Precheck(NewPath, c, sv, call).Served?
    ensures c.lookup(call.who).Some?
    ensures var ask := AskOf(c.lookup(call.who).value, call);
      exists i: nat, j: nat :: i < j < |sv.t.rows| && SplitOver(sv.t.rows[i], sv.t.rows[j], ask)
  {
    var ask := AskOf(c.lookup(call.who).value, call);
    DrawExact(sv.t, ask, call.key);
    assert Select(sv.t.rows, ask, {}) == None;
    SumWithoutRowIsSplit(sv.t.rows, ask);
  }

  /** Off the new path the preflight is the prepaid precheck and nothing else, with its code and its terminal
      flag; and where precheck and charge give one answer it is the verdict that enforcement then serves. */
  lemma {:induction false} PreflightOffNewPath<P>(path: Path, c: Collaborators<P>, sv: Service<P>, log: PR.Log,
      call: Call, trial: Trial)
    requires path == LegacyPath || path == DualPath
    ensures var v, pre := Precheck(path, c, sv, call), c.precheck(sv.prepaid, call.who);
      && (v.Served? <==> pre.Allowed?)
      && (pre.Declined? ==> v.Refused? && v.denial == PrepaidDenial(pre.code) && v.terminal == pre.terminal)
      && (pre == c.meter(sv.prepaid, call.who).0 ==> v == Enforce(path, c, sv, log, call, trial).0)
  {
  }

  /** On the new path the preflight serves what prepaid's precheck or the summed capacity allows; a refusal is
      prepaid's own for a key holder out of credits, and otherwise that of the authorization layer. */
  lemma {:induction false} PreflightOnNewPath<P>(c: Collaborators<P>, sv: Service<P>, call: Call)
    ensures var v, pre := Precheck(NewPath, c, sv, call), c.precheck(sv.prepaid, call.who);
      var why := Classify(sv.t.rows, c.lookup(call.who), call.now, call.cost, None);
      && (v.Served? <==> pre.Allowed? || why.None?)
      && (v.Served? ==> v.source == if pre.Allowed? then PrepaidCredits else SomeAuthorization)
      && (v.Refused? ==>
            if call.who.apiKey != "" && pre.code == "insufficient_credits"
            then v.denial == PrepaidDenial("insufficient_credits") && v.terminal == pre.terminal
            else Some(v.denial) == why && !v.terminal)
  {
  }

  // ---------------------------------------------------------------- the two gaps, on an input each

  /** A prepaid layer that gives one answer to every charge and another to every precheck, with one known principal. */
  function Fixed(charged: PrepaidAnswer, pre: PrepaidAnswer): Collaborators<int>
  {
    Collaborators((p, who) => (charged, p), (p, who) => pre, who => Some("p1"))
  }

  function Row(id: string, cap: int): Auth
  {
    Auth(id, "p1", "f1", "0xsigner", CAPACITY_CURRENCY, cap, 0, 0, 10, Active, 0)
  }

  const SAMPLE_CALL := Call(Caller("key", ""), 5, 30, "k1")

  /** Two rows with 20 left each pass the preflight of a call that costs 30, and the call is refused. */
  lemma {:induction false} SplitCapacityPassesPreflight()
    ensures var c := Fixed(Declined("account_not_found", false), Declined("account_not_found", false));
      var sv := Service(Tables([Row("a1", 20), Row("a2", 20)], [], [], {"p1"}), 0);
      && Precheck(NewPath, c, sv, SAMPLE_CALL).Served?
      && Waterfall(c, sv, SAMPLE_CALL) == (Refusal(InsufficientCapacity), sv)
  {
    var rows := [Row("a1", 20), Row("a2", 20)];
    var ask := AskOf("p1", SAMPLE_CALL);
    EntitlementExact(rows, Some("p1"), ask);
    assert Counted(rows[0], ask) && Counted(rows[1], ask);
    assert rows[..1] == [Row("a1", 20)] && [Row("a1", 20)][..0] == [];
    assert Available(rows[..1], ask) == 20;
    assert Available(rows, ask) == 40;
    assert !Drawable(rows[0], ask) && !Drawable(rows[1], ask);
  }

  /** A paused key without credits and with a funded row passes the preflight, and the call is refused terminally. */
  lemma {:induction false} TerminalDeclinePassesPreflight()
    ensures var c := Fixed(Declined("agent_paused", true), Declined("insufficient_credits", false));
      var sv := Service(Tables([Row("a1", 100)], [], [], {"p1"}), 0);
      && Precheck(NewPath, c, sv, SAMPLE_CALL).Served?
      && Waterfall(c, sv, SAMPLE_CALL) == (Refused(PrepaidDenial("agent_paused"), true), sv)
  {
    var t := Tables([Row("a1", 100)], [], [], {"p1"});
    assert Drawable(t.rows[0], AskOf("p1", SAMPLE_CALL));
    RowSufficesMeansAllow(t, Some("p1"), SAMPLE_CALL);
  }

  // ---------------------------------------------------------------- dual mode

  /** How the dual path's read-only evaluation went: its error message if it failed, and the measurements. */
  datatype Trial = Trial(evalError: Option<string>, timing: PR.Timing)

  /** The new path's decision as the dual path records it; an error is its own kind of refusal. */
  function Evaluated(rows: seq<Auth>, principal: Option<string>, call: Call, evalError: Option<string>): PR.Decision
  {
    if evalError.Some? then PR.Decision(false, "eval_error:" + evalError.value)
    else
      match Classify(rows, principal, call.now, call.cost, None)
      case None => PR.Decision(true, "")
      case Some(d) => PR.Decision(false, Code(Refusal(d)))
  }

  /** Charge, evaluate the other path on what the charge left, record both decisions, serve the charge's. */
  function DualCall<P>(c: Collaborators<P>, sv: Service<P>, log: PR.Log, call: Call, trial: Trial)
    : (Verdict, Service<P>, PR.Log)
  {
    var (answer, prepaid) := c.meter(sv.prepaid, call.who);
    var v, sv1 := OfPrepaid(answer), sv.(prepaid := prepaid);
    var evaluated := Evaluated(sv1.t.rows, c.lookup(call.who), call, trial.evalError);
    (v, sv1, PR.Observe(log, PR.Decision(v.Served?, Code(v)), evaluated, trial.timing))
  }

  /** What a call serves and leaves behind, by path. */
  function Enforce<P>(path: Path, c: Collaborators<P>, sv: Service<P>, log: PR.Log, call: Call, trial: Trial)
    : (Verdict, Service<P>, PR.Log)
  {
    match path
    case LegacyPath => var (v, sv1) := Legacy(c, sv, call); (v, sv1, log)
    case NewPath => var (v, sv1) := Waterfall(c, sv, call); (v, sv1, log)
    case DualPath => DualCall(c, sv, log, call, trial)
  }

  /** A call, under the path the flag had at that moment. */
  datatype Turn = Turn(path: Path, call: Call, trial: Trial)

  function Serve<P>(c: Collaborators<P>, sv: Service<P>, log: PR.Log, turns: seq<Turn>)
    : (seq<Verdict>, Service<P>, PR.Log)
    decreases |turns|
  {
    if turns == [] then ([], sv, log)
    else
      var (v, sv1, log1) := Enforce(turns[0].path, c, sv, log, turns[0].call, turns[0].trial);
      var (vs, sv2, log2) := Serve(c, sv1, log1, turns[1..]);
      ([v] + vs, sv2, log2)
  }

  /** A run goes call by call. */
  lemma {:induction false} ServesInTurn<P>(c: Collaborators<P>, sv: Service<P>, log: PR.Log, turns: seq<Turn>,
      turn: Turn)
    ensures var (vs, sv', log') := Serve(c, sv, log, turns);
      var (v, sv2, log2) := Enforce(turn.path, c, sv', log', turn.call, turn.trial);
      Serve(c, sv, log, turns + [turn]) == (vs + [v], sv2, log2)
    decreases |turns|
  {
    if turns == [] {
      assert turns + [turn] == [turn] && [turn][1..] == [];
      var (v, sv1, log1) := Enforce(turn.path, c, sv, log, turn.call, turn.trial);
      assert Serve(c, sv1, log1, [turn][1..]) == ([], sv1, log1);
      assert [v] + [] == [v] && [] + [v] == [v];
    } else {
      var (v, sv1, log1) := Enforce(turns[0].path, c, sv, log, turns[0].call, turns[0].trial);
      assert (turns + [turn])[1..] == turns[1..] + [turn];
      ServesInTurn(c, sv1, log1, turns[1..], turn);
      var vs := Serve(c, sv1, log1, turns[1..]).0;
      assert forall w :: [v] + (vs + [w]) == ([v] + vs) + [w];
    }
  }

  /** The same calls with the dual path switched back to legacy. */
  function DualOff(turns: seq<Turn>): seq<Turn>
  {
    if turns == [] then []
    else [if turns[0].path == DualPath then turns[0].(path := LegacyPath) else turns[0]] + DualOff(turns[1..])
  }

  function DualCalls(turns: seq<Turn>): nat
  {
    if turns == [] then 0 else (if turns[0].path == DualPath then 1 else 0) + DualCalls(turns[1..])
  }

  /** How many of the dual calls the two paths agree on, counted along the run that never evaluates the new path. */
  function Agreeing<P>(c: Collaborators<P>, sv: Service<P>, turns: seq<Turn>): nat
    decreases |turns|
  {
    if turns == [] then 0
    else
      var turn := turns[0];
      if turn.path == NewPath then Agreeing(c, Waterfall(c, sv, turn.call).1, turns[1..])
      else
        var (v, sv1) := Legacy(c, sv, turn.call);
        var allowed := turn.trial.evalError.None?
          && Classify(sv.t.rows, c.lookup(turn.call.who), turn.call.now, turn.call.cost, None) == None;
        (if turn.path == DualPath && v.Served? == allowed then 1 else 0) + Agreeing(c, sv1, turns[1..])
  }

  lemma {:induction false} OneTurn<P>(c: Collaborators<P>, sv: Service<P>, log: PR.Log, turn: Turn)
    requires PR.Consistent(log)
    ensures var (v, sv1, log1) := Enforce(turn.path, c, sv, log, turn.call, turn.trial);
      var dual := if turn.path == DualPath then 1 else 0;
      var agree := Agreeing(c, sv, [turn]);
      && Enforce(if turn.path == DualPath then LegacyPath else turn.path, c, sv, log, turn.call, turn.trial) ==
        (v, sv1, log)
      && PR.Consistent(log1)
      && log1.evaluated == log.evaluated + dual && log1.agreements == log.agreements + agree
      && PR.Total(log1.byReason) == PR.Total(log.byReason) + dual - agree
  {
    assert [turn][1..] == [];
    if turn.path == DualPath {
      var v := Legacy(c, sv, turn.call).0;
      var n := Evaluated(sv.t.rows, c.lookup(turn.call.who), turn.call, turn.trial.evalError);
      PR.ObserveKeeps(log, PR.Decision(v.Served?, Code(v)), n, turn.trial.timing);
    }
  }

  /** The verdicts and the stored state do not depend on what was recorded. */
  lemma {:induction false} LogUntouched<P>(c: Collaborators<P>, sv: Service<P>, log: PR.Log, log': PR.Log,
      turns: seq<Turn>)
    ensures Serve(c, sv, log, DualOff(turns)).0 == Serve(c, sv, log', DualOff(turns)).0
    ensures Serve(c, sv, log, DualOff(turns)).1 == Serve(c, sv, log', DualOff(turns)).1
    ensures Serve(c, sv, log, DualOff(turns)).2 == log
    decreases |turns|
  {
    if turns != [] {
      var turn := DualOff(turns)[0];
      assert DualOff(turns)[1..] == DualOff(turns[1..]);
      LogUntouched(c, Enforce(turn.path, c, sv, log, turn.call, turn.trial).1, log, log', turns[1..]);
    }
  }

  /** The new path's reason, in the words of the API. */
  ghost function ReasonWord(why: Option<Denial>, evalError: Option<string>): string
  {
    if evalError.Some? then "eval_error:" + evalError.value
    else if why == Some(NoAuthorization) then "no_authorization"
    else if why == Some(AuthorizationRevoked) then "authorization_revoked"
    else if why == Some(AuthorizationExpired) then "authorization_expired"
    else "insufficient_capacity"
  }

  /** The label a dual call's disagreement is counted under: who allowed, and the other's reason; an agreement is
      counted under none. */
  lemma {:induction false} LabelsExact<P>(c: Collaborators<P>, sv: Service<P>, log: PR.Log, call: Call, trial: Trial)
    ensures var charged := c.meter(sv.prepaid, call.who).0;
      var why := Classify(sv.t.rows, c.lookup(call.who), call.now, call.cost, None);
      var denied := trial.evalError.Some? || why.Some?;
      var counted := DualCall(c, sv, log, call, trial).2.byReason;
      if charged.Allowed? && denied then
        counted == OneMore(log.byReason, "legacy=allow|new=deny:" + ReasonWord(why, trial.evalError))
      else if charged.Declined? && !denied then
        counted == OneMore(log.byReason,
          (if charged.code == "" then "legacy=deny" else "legacy=deny:" + charged.code) + "|new=allow")
      else counted == log.byReason
  {
    var charged := c.meter(sv.prepaid, call.who).0;
    var why := Classify(sv.t.rows, c.lookup(call.who), call.now, call.cost, None);
    var l, n := ChargeDecision(charged), EvaluatedDecision(why, trial.evalError);
    DualTallies(c, sv, log, call, trial);
    if charged.Allowed? && !n.allow {
      AllowedLabel(n.reason);
    } else if charged.Declined? && n.allow {
      DeclinedLabel(charged.code);
    }
  }

  ghost function ChargeDecision(charged: PrepaidAnswer): PR.Decision
  {
    if charged.Allowed? then PR.Decision(true, "") else PR.Decision(false, charged.code)
  }

  ghost function EvaluatedDecision(why: Option<Denial>, evalError: Option<string>): PR.Decision
  {
    if evalError.Some? || why.Some? then PR.Decision(false, ReasonWord(why, evalError)) else PR.Decision(true, "")
  }

  lemma {:induction false} DualTallies<P>(c: Collaborators<P>, sv: Service<P>, log: PR.Log, call: Call, trial: Trial)
    ensures var why := Classify(sv.t.rows, c.lookup(call.who), call.now, call.cost, None);
      DualCall(c, sv, log, call, trial).2.byReason ==
        PR.Tally(log.byReason, ChargeDecision(c.meter(sv.prepaid, call.who).0), EvaluatedDecision(why, trial.evalError))
  {
    ClassifyDenials(sv.t.rows, c.lookup(call.who), call.now, call.cost, None);
  }

  lemma {:induction false} AllowedLabel(reason: string)
    ensures reason != "" ==>
      PR.Label("legacy=", PR.Decision(true, "")) + "|" + PR.Label("new=", PR.Decision(false, reason)) ==
      "legacy=allow|new=deny:" + reason
  {
    PR.LabelsSpelled(reason);
    assert "legacy=allow" + "|" + ("new=deny:" + reason) == "legacy=allow|new=deny:" + reason;
  }

  lemma {:induction false} DeclinedLabel(code: string)
    ensures PR.Label("legacy=", PR.Decision(false, code)) + "|" + PR.Label("new=", PR.Decision(true, "")) ==
      (if code == "" then "legacy=deny" else "legacy=deny:" + code) + "|new=allow"
  {
    PR.LabelsSpelled(code);
    var left := if code == "" then "legacy=deny" else "legacy=deny:" + code;
    assert left + "|" + "new=allow" == left + "|new=allow";
  }

  function OneMore(m: map<string, nat>, key: string): map<string, nat>
  {
    m[key := (if key in m then m[key] else 0) + 1]
  }

  lemma {:induction false} ClassifyDenials(rows: seq<Auth>, principal: Option<string>, now: int, cost: nat,
      only: Option<string>)
    ensures Classify(rows, principal, now, cost, only) in
      {None, Some(NoAuthorization), Some(AuthorizationRevoked), Some(AuthorizationExpired), Some(InsufficientCapacity)}
  {
  }

  /** In every run of mixed paths, whatever the evaluations and their errors, the verdicts and the stored state
      are those of the run with dual off; and the recorder has counted every dual call, as an agreement exactly
      where the paths agree. */
  lemma {:induction false} DualServesLegacy<P>(c: Collaborators<P>, sv: Service<P>, log: PR.Log, turns: seq<Turn>)
    requires PR.Consistent(log)
    ensures var (vs, sv', log') := Serve(c, sv, log, turns);
      && Serve(c, sv, log, DualOff(turns)) == (vs, sv', log)
      && PR.Consistent(log')
      && log'.evaluated == log.evaluated + DualCalls(turns)
      && log'.agreements == log.agreements + Agreeing(c, sv, turns)
      && PR.Total(log'.byReason) == PR.Total(log.byReason) + DualCalls(turns) - Agreeing(c, sv, turns)
    decreases |turns|
  {
    if turns != [] {
      var turn := turns[0];
      var (v, sv1, log1) := Enforce(turn.path, c, sv, log, turn.call, turn.trial);
      OneTurn(c, sv, log, turn);
      DualServesLegacy(c, sv1, log1, turns[1..]);
      assert DualOff(turns)[1..] == DualOff(turns[1..]);
      LogUntouched(c, sv1, log, log1, turns[1..]);
    }
  }

  // ---------------------------------------------------------------- the gate

  class Gate<P(!new)> {
    var rows: seq<Auth>
    var draws: seq<Draw>
    var settlements: seq<Settlement>
    var accounts: set<string>
    var prepaid: P
    const recorder: PR.Recorder
    const c: Collaborators<P>

    ghost function Tabled(): Tables
      reads this
    {
      Tables(rows, draws, settlements, accounts)
    }

    ghost function Now(): Service<P>
      reads this
    {
      Service(Tabled(), prepaid)
    }

    constructor (c: Collaborators<P>, t: Tables, prepaid: P, recorder: PR.Recorder)
      ensures this.c == c && this.recorder == recorder && Now() == Service(t, prepaid)
    {
      this.c, this.recorder, this.prepaid := c, recorder, prepaid;
      rows, draws, settlements, accounts := t.rows, t.draws, t.settlements, t.accounts;
    }

    /** insertDraw: false stands for the thrown error, which leaves both tables alone. */
    method RecordDraw(a: Auth, ask: Ask, key: string) returns (ok: bool)
      modifies this`draws, this`settlements
      ensures ok <==> DrawInsertable(old(Tabled()), ask)
      ensures ok ==> Tabled() == InsertDraw(old(Tabled()), a, ask, key)
      ensures !ok ==> Tabled() == old(Tabled())
    {
      if ask.principal !in accounts || ask.cost == 0 {
        return false;
      }
      if !HasKey(draws, key) {
        draws := draws + [NewDraw(a, ask, key)];
      }
      if !HasSettlement(settlements, DrawId(key)) {
        settlements := settlements + [Settlement(DrawId(key))];
      }
      return true;
    }

    method EnforceNewPath(principal: Option<string>, call: Call) returns (v: Verdict)
      modifies this`rows, this`draws, this`settlements
      ensures (v, Tabled()) == EnforceNew(old(Tabled()), principal, call)
    {
      if principal.None? {
        return Refusal(NoAuthorization);
      }
      var ask := AskOf(principal.value, call);
      var refusal := CheckEntitlement(rows, Some(ask.principal), ask.now, ask.only);
      if refusal.Some? {
        return Refusal(refusal.value);
      }
      var before := rows;  // BEGIN
      var pick := Select(rows, ask, {});
      if pick.Some? {
        var k := pick.value;
        rows := Debit(rows, k, ask.cost);
        var ok := RecordDraw(before[k], ask, call.key);
        if !ok {
          rows := before;  // ROLLBACK
          return Threw;
        }
        return Served(AuthorizationCap(rows[k].id, Left(rows[k])));
      }
      var why := Classify(rows, principal, ask.now, ask.cost, ask.only);
      return Refusal(if why.Some? then why.value else InsufficientCapacity);
    }

    /** enforceCapacity: verdict, stored state and recorder are those of Enforce, whether or not the dual path's
        read-only evaluation fails. */
    method EnforceCapacity(path: Path, call: Call, trial: Trial) returns (v: Verdict)
      requires recorder.Valid()
      modifies this, recorder
      ensures (v, Now(), recorder.View()) == Enforce(path, c, old(Now()), old(recorder.View()), call, trial)
      ensures recorder.Valid()
    {
      var charged := c.meter(prepaid, call.who);
      prepaid := charged.1;
      v := OfPrepaid(charged.0);
      match path {
        case LegacyPath =>
        case NewPath =>
          if charged.0.Declined? && !charged.0.terminal {
            var w := EnforceNewPath(c.lookup(call.who), call);
            if !(w.Refused? && TellPrepaid(call.who, charged.0.code)) {
              v := w;
            }
          }
        case DualPath =>
          var neu := Evaluated(rows, c.lookup(call.who), call, trial.evalError);
          recorder.Record(PR.Decision(v.Served?, Code(v)), neu, trial.timing);
      }
    }
  }
}
