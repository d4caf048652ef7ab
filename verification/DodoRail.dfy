/** The boot-time schema unit of the Dodo rail: the payment_sources CHECK, recreated once so that it
    allows 'dodo' and every value it allowed or the table holds, and a readiness flag. */
module DodoRail {
  import opened Wrappers
  import opened SqlLiterals

  const KNOWN_SOURCES: seq<string> := ["polygon_usdt_vault", "x402", "dodo", "marketplace", "other"]

  /** The constraint's allowed values, if the constraint exists, and the source column (null allowed). */
  datatype Db = Db(check: Option<seq<string>>, sources: seq<Option<string>>)

  datatype Report = Report(ok: bool, ready: bool, skipped: bool, unknown: seq<string>) | Threw

  /** [...new Set(s)]. */
  function Dedupe(s: seq<string>): (r: seq<string>)
    ensures forall v :: v in r <==> v in s
    ensures forall i, j :: 0 <= i < j < |r| ==> r[i] != r[j]
  {
    if s == [] then []
    else
      var r := Dedupe(s[..|s| - 1]);
      assert s == s[..|s| - 1] + [s[|s| - 1]];
      if s[|s| - 1] in r then r else r + [s[|s| - 1]]
  }

  function NonNull(s: seq<Option<string>>): (r: seq<string>)
    ensures forall v :: v in r <==> Some(v) in s
  {
    if s == [] then []
    else
      assert s == s[..|s| - 1] + [s[|s| - 1]];
      NonNull(s[..|s| - 1]) + if s[|s| - 1].Some? then [s[|s| - 1].value] else []
  }

  function Unknown(s: seq<string>): (r: seq<string>)
    ensures forall v :: v in r <==> v in s && v !in KNOWN_SOURCES
  {
    if s == [] then []
    else
      assert s == s[..|s| - 1] + [s[|s| - 1]];
      Unknown(s[..|s| - 1]) + if s[|s| - 1] in KNOWN_SOURCES then [] else [s[|s| - 1]]
  }

  function Listed(check: Option<seq<string>>): seq<string>
  {
    if check.None? then [] else check.value
  }

  /** The boot takes the constraint as already done when its text matches. */
  predicate TakenAsDone(check: Option<seq<string>>)
  {
    check.Some? && exists v :: v in check.value && LooksLikeDodo(v)
  }

  function Recreated(db: Db): seq<string>
  {
    Dedupe(KNOWN_SOURCES + NonNull(db.sources) + Listed(db.check))
  }

  /** One boot's effect: a fault anywhere undoes all of it. */
  function Boot(db: Db, fault: bool): Db
  {
    if fault || TakenAsDone(db.check) then db else db.(check := Some(Recreated(db)))
  }

  /** The place where the database fails, if any. */
  datatype Fault = NoFault | NoPool | AtConnect | AtRead | AtDrop | AtAdd | AtColumns | AtCommit

  class DodoSchema {
    var check: Option<seq<string>>
    var sources: seq<Option<string>>
    var ready: bool

    ghost function State(): Db
      reads this
    {
      Db(check, sources)
    }

    constructor (db: Db)
      ensures State() == db && !ready
    {
      check, sources, ready := db.check, db.sources, false;
    }

    /** ensureDodoRailSchema changes the constraint at most as Boot says. It reports, and is ready exactly when
        nothing failed, unless connecting fails: that happens outside its error handling, so it throws and the
        flag keeps its old value. */
    method EnsureDodoRailSchema(f: Format, fault: Fault) returns (r: Report)
      requires ValidFormat(f) && f.sep != DODO
      modifies this`check, this`ready
      ensures State() == Boot(old(State()), fault != NoFault)
      ensures r.Threw? <==> fault == AtConnect
      ensures ready == if r.Threw? then old(ready) else fault == NoFault
      ensures r.Report? ==> r.ready == r.ok == ready
      ensures r.Report? && r.ok ==> (r.skipped <==> TakenAsDone(old(check)))
      ensures r.Report? && r.ok && !r.skipped ==>
        forall v :: v in r.unknown <==> v !in KNOWN_SOURCES && (Some(v) in sources || v in Listed(old(check)))
    {
      if fault == NoPool {
        ready := false;
        return Report(false, false, false, []);
      }
      if fault == AtConnect {
        return Threw;
      }
      var before := check;  // BEGIN
      var unknown: seq<string> := [];
      if fault == AtRead {
        ready := false;
        return Report(false, false, false, []);
      }
      var def := if check.None? then None else Some(Render(f, check.value));
      var done := def.Some? && HasQuotedDodo(def.value);
      if check.Some? {
        SearchRender(f, check.value);
      }
      if !done {
        var present := NonNull(sources);  // repeats go with the Set below
        var fromDef := ParseAllowedValues(def);
        if check.Some? {
          ScanRender(f, check.value);
        }
        unknown := Unknown(Dedupe(present + fromDef));
        var allowed := Dedupe(KNOWN_SOURCES + present + fromDef);
        check := None;  // DROP CONSTRAINT
        if fault == AtDrop {
          check, ready := before, false;  // ROLLBACK
          return Report(false, false, false, []);
        }
        check := Some(allowed);  // ADD CONSTRAINT ... NOT VALID
        if fault == AtAdd {
          check, ready := before, false;
          return Report(false, false, false, []);
        }
      }
      if fault != NoFault {
        check, ready := before, false;
        return Report(false, false, false, []);
      }
      ready := true;
      return Report(true, true, done, unknown);
    }
  }

  // ---------------------------------------------------------------- any sequence of boots and writes

  datatype Event = Booted(fault: bool) | Inserted(source: Option<string>)

  /** A row is accepted when there is no CHECK, the value is null, or the CHECK lists it. */
  predicate Enabled(db: Db, e: Event)
  {
    e.Inserted? ==> db.check.None? || e.source.None? || e.source.value in db.check.value
  }

  function Next(db: Db, e: Event): Db
  {
    match e
    case Booted(fault) => Boot(db, fault)
    case Inserted(source) => db.(sources := db.sources + [source])
  }

  ghost predicate Possible(db: Db, es: seq<Event>)
    decreases |es|
  {
    es == [] || (Enabled(db, es[0]) && Possible(Next(db, es[0]), es[1..]))
  }

  ghost function Exec(db: Db, es: seq<Event>): Db
    decreases |es|
  {
    if es == [] then db else Exec(Next(db, es[0]), es[1..])
  }

  /** A run goes step by step; a row is accepted when there is no constraint, it is null or its value is listed,
      and is then there. */
  lemma {:induction false} RunSteps(db: Db, es: seq<Event>, e: Event)
    requires Possible(db, es)
    ensures var u, u' := Exec(db, es), Exec(db, es + [e]);
      && (e.Booted? ==> u' == Boot(u, e.fault))
      && (e.Inserted? ==> u' == Db(u.check, u.sources + [e.source]))
      && (Possible(db, es + [e]) <==>
        (e.Inserted? && u.check.Some? && e.source.Some? ==> e.source.value in u.check.value))
    decreases |es|
  {
    if es == [] {
      assert es + [e] == [e] && [e][1..] == [];
      assert Exec(Next(db, e), [e][1..]) == Next(db, e);
    } else {
      assert (es + [e])[1..] == es[1..] + [e];
      RunSteps(Next(db, es[0]), es[1..], e);
    }
  }

  /** A value the constraint lists, or a row holds, is never dropped by any sequence of boots and writes: it stays
      listed if it was, and a recreated constraint lists it. */
  lemma {:induction false} NeverDropsValue(db: Db, es: seq<Event>, v: string)
    requires Possible(db, es)
    requires v in Listed(db.check) || Some(v) in db.sources
    ensures var end := Exec(db, es);
      && (v in Listed(db.check) ==> v in Listed(end.check))
      && (Some(v) in db.sources ==> Some(v) in end.sources)
      && (end.check != db.check ==> v in Listed(end.check))
    decreases |es|
  {
    if es != [] {
      NeverDropsValue(Next(db, es[0]), es[1..], v);
    }
  }

  lemma {:induction false} RecreatedIsDone(db: Db)
    ensures TakenAsDone(Some(Recreated(db))) && DODO in Recreated(db)
    ensures forall v :: v in KNOWN_SOURCES || Some(v) in db.sources || v in Listed(db.check) ==> v in Recreated(db)
  {
    assert KNOWN_SOURCES[2] == DODO;
    assert DODO in KNOWN_SOURCES;
    assert DODO in Recreated(db);
    SplitQuoteFree(DODO);
    assert LooksLikeDodo(DODO);
  }

  lemma {:induction false} DoneStays(db: Db, es: seq<Event>)
    requires TakenAsDone(db.check)
    ensures Exec(db, es).check == db.check
    decreases |es|
  {
    if es != [] {
      DoneStays(Next(db, es[0]), es[1..]);
    }
  }

  /** A recreated constraint lists the five sources the code knows, what the rows hold and what was listed before,
      each once, and nothing else. */
  lemma {:induction false} RecreatedExactly(db: Db, v: string)
    requires !TakenAsDone(db.check)
    ensures var check := Boot(db, false).check;
      && check.Some?
      && (v in check.value <==>
            || v in {"polygon_usdt_vault", "x402", "dodo", "marketplace", "other"}
            || Some(v) in db.sources || v in Listed(db.check))
      && forall i, j :: 0 <= i < j < |check.value| ==> check.value[i] != check.value[j]
  {
    assert KNOWN_SOURCES == ["polygon_usdt_vault", "x402", "dodo", "marketplace", "other"];
    assert v in KNOWN_SOURCES <==> v in {"polygon_usdt_vault", "x402", "dodo", "marketplace", "other"};
  }

  /** After the first boot that succeeds, no later boot or write changes the constraint, and it allows
      'dodo' exactly when it already did or no listed value set it off in quotes. */
  lemma {:induction false} FirstSuccessSettles(db: Db, es: seq<Event>)
    ensures var first := Boot(db, false);
      && Exec(first, es).check == first.check && first.check.Some?
      && (DODO in first.check.value <==> DODO in Listed(db.check) || !TakenAsDone(db.check))
  {
    RecreatedIsDone(db);
    DoneStays(Boot(db, false), es);
  }

  ghost predicate RowsWithin(db: Db)
  {
    db.check.Some? && forall v :: Some(v) in db.sources ==> v in db.check.value
  }

  /** Once the constraint has been recreated, every row, old or written later, satisfies it. */
  lemma {:induction false} RowsStayWithin(db: Db, es: seq<Event>)
    requires !TakenAsDone(db.check) && Possible(Boot(db, false), es)
    ensures RowsWithin(Exec(Boot(db, false), es))
  {
    RecreatedIsDone(db);
    WithinStays(Boot(db, false), es);
  }

  lemma {:induction false} WithinStays(db: Db, es: seq<Event>)
    requires RowsWithin(db) && TakenAsDone(db.check) && Possible(db, es)
    ensures RowsWithin(Exec(db, es))
    decreases |es|
  {
    if es != [] {
      WithinStays(Next(db, es[0]), es[1..]);
    }
  }

  const QUOTED: string := "x'dodo'y"

  lemma {:induction false} SplitSample()
    ensures Split(QUOTED) == ["x", "dodo", "y"]
  {
    SplitThree("x", "dodo", "y");
    assert QUOTED == "x" + ([Q] + ("dodo" + ([Q] + "y")));
  }

  lemma {:induction false} SplitThree(a: string, b: string, c: string)
    requires QuoteFree(a) && QuoteFree(b) && QuoteFree(c)
    ensures Split(a + ([Q] + (b + ([Q] + c)))) == [a, b, c]
  {
    SplitAtQuote(a, b + ([Q] + c));
    SplitAtQuote(b, c);
    SplitQuoteFree(a);
    SplitQuoteFree(b);
    SplitQuoteFree(c);
  }

  /** A constraint that allows only x'dodo'y: the boot reports success and leaves 'dodo' refused. */
  lemma {:induction false} QuotedDodoFoolsTheSearch()
    ensures var db := Db(Some([QUOTED]), []);
      TakenAsDone(db.check) && Boot(db, false) == db && DODO !in Listed(db.check)
  {
    SplitSample();
    assert Split(QUOTED)[1] == DODO;
    assert QUOTED in [QUOTED];
    assert |QUOTED| != |DODO|;
  }
}
