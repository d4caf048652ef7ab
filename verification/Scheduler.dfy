/** The reconciler's self-scheduling loop: one cycle at a time, a hook after it, then the next timer.
    Each method is one event of the host: a timer firing, a promise settling, or a stop. */
module Scheduler {

  datatype Phase = Resting | InCycle | InHook

  /** `armed` says whether a timer is pending; `cycles` counts the cycles started. */
  datatype State = State(stopped: bool, armed: bool, phase: Phase, cycles: nat, hasHook: bool)

  /** A settled promise either resolved, or threw and was reported, or threw and the report threw too. */
  datatype Settling = Resolved | ThrewReported | ThrewUnreported

  datatype Event = TimerFires | CycleSettles(how: Settling) | HookSettles(how: Settling) | Stop

  predicate Enabled(s: State, e: Event)
  {
    match e
    case TimerFires => s.armed
    case CycleSettles(_) => s.phase == InCycle
    case HookSettles(_) => s.phase == InHook
    case Stop => true
  }

  function Start(hasHook: bool): State
  {
    State(false, false, InCycle, 1, hasHook)
  }

  function Finish(s: State): State
  {
    s.(phase := Resting, armed := !s.stopped || s.armed)
  }

  function Next(s: State, e: Event): State
  {
    match e
    case TimerFires =>
      if s.stopped then s.(armed := false) else s.(armed := false, phase := InCycle, cycles := s.cycles + 1)
    case CycleSettles(how) =>
      if how.ThrewUnreported? then s.(phase := Resting)
      else if s.hasHook then s.(phase := InHook)
      else Finish(s)
    case HookSettles(how) => if how.ThrewUnreported? then s.(phase := Resting) else Finish(s)
    case Stop => s.(stopped := true, armed := false)
  }

  class Loop {
    var stopped: bool
    var armed: bool
    var phase: Phase
    var cycles: nat
    const hasHook: bool

    ghost function Now(): State
      reads this
    {
      State(stopped, armed, phase, cycles, hasHook)
    }

    constructor (hasHook: bool)
      ensures Now() == Start(hasHook)
    {
      this.hasHook := hasHook;
      stopped, armed, phase, cycles := false, false, InCycle, 1;
    }

    /** tick, up to its first await. */
    method FireTimer()
      requires Enabled(Now(), TimerFires)
      modifies this
      ensures Now() == Next(old(Now()), TimerFires)
      ensures old(SingleFlight(Now())) ==> SingleFlight(Now()) && (old(stopped) ==> stopped && cycles == old(cycles))
    {
      armed := false;
      if stopped {
        return;
      }
      phase, cycles := InCycle, cycles + 1;
    }

    method SettleCycle(how: Settling)
      requires Enabled(Now(), CycleSettles(how))
      modifies this
      ensures Now() == Next(old(Now()), CycleSettles(how))
      ensures old(SingleFlight(Now())) ==> SingleFlight(Now()) && (old(stopped) ==> stopped && cycles == old(cycles))
    {
      if how.ThrewUnreported? {
        phase := Resting;
      } else if hasHook {
        phase := InHook;
      } else {
        Rearm();
      }
    }

    method SettleHook(how: Settling)
      requires Enabled(Now(), HookSettles(how))
      modifies this
      ensures Now() == Next(old(Now()), HookSettles(how))
      ensures old(SingleFlight(Now())) ==> SingleFlight(Now()) && (old(stopped) ==> stopped && cycles == old(cycles))
    {
      if how.ThrewUnreported? {
        phase := Resting;
      } else {
        Rearm();
      }
    }

    method Rearm()
      modifies this
      ensures Now() == Finish(old(Now()))
    {
      phase := Resting;
      if !stopped {
        armed := true;
      }
    }

    method Halt()
      modifies this
      ensures Now() == Next(old(Now()), Stop)
      ensures old(SingleFlight(Now())) ==> SingleFlight(Now()) && (old(stopped) ==> stopped && cycles == old(cycles))
    {
      stopped := true;
      armed := false;
    }
  }

  // ---------------------------------------------------------------- every interleaving

  ghost predicate Possible(s: State, es: seq<Event>)
    decreases |es|
  {
    es == [] || (Enabled(s, es[0]) && Possible(Next(s, es[0]), es[1..]))
  }

  function Exec(s: State, es: seq<Event>): State
    decreases |es|
  {
    if es == [] then s else Exec(Next(s, es[0]), es[1..])
  }

  /** Some error's own report threw. */
  predicate ReportThrew(es: seq<Event>)
  {
    exists i :: 0 <= i < |es| && (es[i] == CycleSettles(ThrewUnreported) || es[i] == HookSettles(ThrewUnreported))
  }

  predicate Alive(s: State)
  {
    s.armed || s.phase != Resting
  }

  ghost predicate SingleFlight(s: State)
  {
    !(s.armed && s.phase != Resting) && (s.stopped ==> !s.armed)
  }

  lemma {:induction false} ReportStep(es: seq<Event>)
    requires es != []
    ensures ReportThrew(es) <==>
      es[0] == CycleSettles(ThrewUnreported) || es[0] == HookSettles(ThrewUnreported) || ReportThrew(es[1..])
  {
    assert es == [es[0]] + es[1..];
    if ReportThrew(es[1..]) {
      var i :| 0 <= i < |es[1..]|
        && (es[1..][i] == CycleSettles(ThrewUnreported) || es[1..][i] == HookSettles(ThrewUnreported));
      assert es[i + 1] == es[1..][i];
    }
  }

  lemma {:induction false} DeadStaysDead(s: State, es: seq<Event>)
    requires SingleFlight(s) && !Alive(s) && Possible(s, es)
    ensures !Alive(Exec(s, es)) && SingleFlight(Exec(s, es)) && !ReportThrew(es) && Exec(s, es).cycles == s.cycles
    decreases |es|
  {
    if es != [] {
      DeadStaysDead(Next(s, es[0]), es[1..]);
      ReportStep(es);
    }
  }

  lemma {:induction false} FlightKept(s: State, es: seq<Event>)
    requires SingleFlight(s) && Possible(s, es)
    ensures SingleFlight(Exec(s, es))
    decreases |es|
  {
    if es != [] {
      FlightKept(Next(s, es[0]), es[1..]);
    }
  }

  lemma {:induction false} AliveExactly(s: State, es: seq<Event>)
    requires SingleFlight(s) && Possible(s, es) && (!s.stopped ==> Alive(s))
    ensures !Exec(s, es).stopped ==> (Alive(Exec(s, es)) <==> !ReportThrew(es))
    decreases |es|
  {
    if es != [] {
      var s1 := Next(s, es[0]);
      ReportStep(es);
      if !s1.stopped && !Alive(s1) {
        DeadStaysDead(s1, es[1..]);
      } else {
        AliveExactly(s1, es[1..]);
        if s1.stopped {
          StoppedStays(s1, es[1..]);
        }
      }
    }
  }

  lemma {:induction false} StoppedStays(s: State, es: seq<Event>)
    requires s.stopped && SingleFlight(s) && Possible(s, es)
    ensures Exec(s, es).stopped && Exec(s, es).cycles == s.cycles
    decreases |es|
  {
    if es != [] {
      StoppedStays(Next(s, es[0]), es[1..]);
    }
  }

  /** In every interleaving, a tick and a pending timer never coexist; and until it is stopped the loop has
      exactly one of them, cycles and hooks throwing or not, unless the report of an error itself threw. */
  lemma {:induction false} OneAtATime(hasHook: bool, es: seq<Event>)
    requires Possible(Start(hasHook), es)
    ensures var s := Exec(Start(hasHook), es);
      && !(s.armed && s.phase != Resting)
      && (!s.stopped ==> (s.armed || s.phase != Resting <==> !ReportThrew(es)))
  {
    FlightKept(Start(hasHook), es);
    AliveExactly(Start(hasHook), es);
  }

  /** Without a hook, a first cycle whose error report throws leaves a running loop with no tick and no timer. */
  lemma {:induction false} UnreportedErrorWedges()
    ensures var es := [CycleSettles(ThrewUnreported)];
      Possible(Start(false), es) && !Exec(Start(false), es).stopped && !Alive(Exec(Start(false), es))
  {
    var es := [CycleSettles(ThrewUnreported)];
    assert es[1..] == [];
    assert Possible(Next(Start(false), es[0]), es[1..]);
    assert Exec(Next(Start(false), es[0]), es[1..]) == Next(Start(false), es[0]);
  }

  lemma {:induction false} ExecSplit(s: State, es: seq<Event>, fs: seq<Event>)
    requires Possible(s, es + fs)
    ensures Possible(s, es) && Possible(Exec(s, es), fs) && Exec(s, es + fs) == Exec(Exec(s, es), fs)
    decreases |es|
  {
    if es == [] {
      assert es + fs == fs;
    } else {
      assert (es + fs)[1..] == es[1..] + fs;
      ExecSplit(Next(s, es[0]), es[1..], fs);
    }
  }

  /** No cycle starts after a stop, whatever was pending. */
  lemma {:induction false} NoCycleAfterStop(hasHook: bool, es: seq<Event>, fs: seq<Event>)
    requires Possible(Start(hasHook), es + ([Stop] + fs))
    ensures Possible(Start(hasHook), es)
    ensures Exec(Start(hasHook), es + ([Stop] + fs)).cycles == Exec(Start(hasHook), es).cycles
  {
    ExecSplit(Start(hasHook), es, [Stop] + fs);
    var s := Exec(Start(hasHook), es);
    FlightKept(Start(hasHook), es);
    assert ([Stop] + fs)[1..] == fs;
    StoppedStays(Next(s, Stop), fs);
  }
}
