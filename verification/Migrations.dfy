/** The forward-only migration runner: discover, migrate, status, verify. The schema and the effect of a
    file's SQL on it are parameters, as is the checksum. */
module Migrations {
  import opened TextOrder
  import opened Wrappers
  import opened DigitStrings

  datatype Migration = Migration(filename: string, sql: string, checksum: string)

  datatype Applied = Applied(filename: string, checksum: string)

  // ---------------------------------------------------------------- discovery

  predicate IsSql(name: string)
  {
    |name| >= 4 && name[|name| - 4..] == ".sql"
  }

  function LeadingDigits(s: string): (r: string)
    ensures AllDigits(r) && |r| <= |s| && s[..|r|] == r
    ensures |r| < |s| ==> !IsDigit(s[|r|])
  {
    if s == "" || !IsDigit(s[0]) then "" else [s[0]] + LeadingDigits(s[1..])
  }

  /** The digits of a name that matches ^(\d+)_. */
  function NumberPrefix(name: string): Option<string>
  {
    var d := LeadingDigits(name);
    if d != "" && |d| < |name| && name[|d|] == '_' then Some(d) else None
  }

  ghost predicate Increasing(names: seq<string>)
  {
    forall i, j :: 0 <= i < j < |names| ==> Below(names[i], names[j])
  }

  function InsertName(x: string, names: seq<string>): seq<string>
  {
    if names == [] || Below(x, names[0]) then [x] + names else [names[0]] + InsertName(x, names[1..])
  }

  /** The .sql names of a directory listing, in text order. */
  function SortedNames(listing: seq<string>): seq<string>
  {
    if listing == [] then []
    else if IsSql(listing[0]) then InsertName(listing[0], SortedNames(listing[1..]))
    else SortedNames(listing[1..])
  }

  lemma {:induction false} InsertNameShape(x: string, names: seq<string>)
    requires Increasing(names) && x !in names
    ensures Increasing(InsertName(x, names))
    ensures forall y :: y in InsertName(x, names) <==> y == x || y in names
  {
    if names == [] {
    } else if Below(x, names[0]) {
      forall j | 0 < j < |names| ensures Below(x, names[j]) { BelowTransitive(x, names[0], names[j]); }
    } else {
      var rest := names[1..];
      assert names == [names[0]] + rest;
      InsertNameShape(x, rest);
      BelowTrichotomy(x, names[0]);
      var r := InsertName(x, rest);
      forall j | 0 <= j < |r|
        ensures Below(names[0], r[j])
      {
        assert r[j] in r;
        if r[j] != x {
          var i :| 0 <= i < |rest| && rest[i] == r[j];
          assert names[i + 1] == r[j];
        }
      }
    }
  }

  ghost predicate EndsInSql(name: string)
  {
    exists stem: string :: name == stem + ".sql"
  }

  lemma {:induction false} IsSqlExact(name: string)
    ensures IsSql(name) <==> EndsInSql(name)
  {
    if IsSql(name) {
      assert name == name[..|name| - 4] + ".sql";
    }
    if EndsInSql(name) {
      var stem: string :| name == stem + ".sql";
      assert name[|name| - 4..] == ".sql";
    }
  }

  /** The name is a number, an underscore and something more. */
  ghost predicate StartsWithNumber(name: string)
  {
    exists digits: string, rest: string :: digits != "" && AllDigits(digits) && name == digits + ("_" + rest)
  }

  lemma {:induction false} NumberPrefixExact(name: string)
    ensures NumberPrefix(name).Some? <==> StartsWithNumber(name)
  {
    var d := LeadingDigits(name);
    if NumberPrefix(name).Some? {
      assert name == d + ("_" + name[|d| + 1..]);
    }
    if StartsWithNumber(name) {
      var digits: string, rest: string :| digits != "" && AllDigits(digits) && name == digits + ("_" + rest);
      PrefixOfName(digits, "_" + rest);
      assert name[|digits|] == '_';
    }
  }

  /** A listing without repeats sorts to exactly its .sql names, strictly increasing. */
  lemma {:induction false} SortedNamesExact(listing: seq<string>)
    requires forall i, j :: 0 <= i < j < |listing| ==> listing[i] != listing[j]
    ensures Increasing(SortedNames(listing))
    ensures forall y :: y in SortedNames(listing) <==> y in listing && IsSql(y)
  {
    if listing != [] {
      var rest := listing[1..];
      assert listing == [listing[0]] + rest;
      SortedNamesExact(rest);
      if IsSql(listing[0]) {
        assert listing[0] !in rest;
        InsertNameShape(listing[0], SortedNames(rest));
      }
    }
  }

  /** Read the named files in order; None stands for the thrown error on a name without a number. */
  function Load(names: seq<string>, read: string -> string, checksum: string -> string): (r: Option<seq<Migration>>)
    ensures r.Some? ==> |r.value| == |names|
    ensures r.Some? ==> forall i :: 0 <= i < |names| ==>
      r.value[i] == Migration(names[i], read(names[i]), checksum(read(names[i])))
    ensures r.Some? <==> forall i :: 0 <= i < |names| ==> NumberPrefix(names[i]).Some?
  {
    if names == [] then Some([])
    else
      var n := |names| - 1;
      var rest := Load(names[..n], read, checksum);
      assert rest.None? ==> exists i :: 0 <= i < n && names[..n][i] == names[i] && NumberPrefix(names[i]).None?;
      if rest.None? || NumberPrefix(names[n]).None? then None
      else Some(rest.value + [Migration(names[n], read(names[n]), checksum(read(names[n])))])
  }

  function DiscoverMigrations(listing: seq<string>, read: string -> string, checksum: string -> string)
    : Option<seq<Migration>>
  {
    Load(SortedNames(listing), read, checksum)
  }

  /** What discovery hands to the runner: every .sql file of the directory once, in strict text order, or the
      error if one has no number. */
  lemma {:induction false} DiscoverExact(listing: seq<string>, read: string -> string, checksum: string -> string)
    requires forall i, j :: 0 <= i < j < |listing| ==> listing[i] != listing[j]
    ensures var r := DiscoverMigrations(listing, read, checksum);
      && (r.None? <==> exists y :: y in listing && EndsInSql(y) && !StartsWithNumber(y))
      && (r.Some? ==>
            && DistinctNames(r.value)
            && (forall i, j :: 0 <= i < j < |r.value| ==> Below(r.value[i].filename, r.value[j].filename))
            && (forall f :: f in r.value ==> f.filename in listing && EndsInSql(f.filename))
            && forall y :: y in listing && EndsInSql(y) ==> Migration(y, read(y), checksum(read(y))) in r.value)
  {
    SortedNamesExact(listing);
    forall y: string
      ensures (IsSql(y) <==> EndsInSql(y)) && (NumberPrefix(y).Some? <==> StartsWithNumber(y))
    {
      IsSqlExact(y);
      NumberPrefixExact(y);
    }
    var names := SortedNames(listing);
    var r := DiscoverMigrations(listing, read, checksum);
    if r.None? {
      var i :| 0 <= i < |names| && NumberPrefix(names[i]).None?;
      assert names[i] in names;
    } else {
      forall y | y in listing && IsSql(y)
        ensures NumberPrefix(y).Some? && Migration(y, read(y), checksum(read(y))) in r.value
      {
        assert y in names;
        var i :| 0 <= i < |names| && names[i] == y;
        assert r.value[i] in r.value;
      }
      forall i, j | 0 <= i < j < |r.value|
        ensures r.value[i].filename != r.value[j].filename
      {
        BelowTrichotomy(names[i], names[j]);
      }
    }
  }

  ghost predicate DistinctNames(files: seq<Migration>)
  {
    forall i, j :: 0 <= i < j < |files| ==> files[i].filename != files[j].filename
  }

  // ---------------------------------------------------------------- text order against numeric order

  lemma {:induction false} ValueFront(c: char, t: string)
    requires IsDigit(c) && AllDigits(t)
    ensures AllDigits([c] + t) && Value([c] + t) == DigitOf(c) * Pow10(|t|) + Value(t)
  {
    ValueJoin([c], t);
    assert [c][..0] == "";
  }

  lemma {:induction false} NextMultiple(x: int, y: int, p: nat)
    requires x + 1 <= y
    ensures x * p + p <= y * p
  {
    var d := y - x - 1;
    assert y * p == (x + 1 + d) * p == x * p + p + d * p;
    assert d * p >= 0;
  }

  lemma {:induction false} LeadDecides(x: nat, y: nat, p: nat, s: nat, t: nat)
    requires x < y && s < p
    ensures x * p + s < y * p + t
  {
    NextMultiple(x, y, p);
  }

  /** Digit strings of one width compare as text exactly as they compare as numbers. */
  lemma {:induction false} TextIsNumeric(a: string, b: string)
    requires AllDigits(a) && AllDigits(b) && |a| == |b|
    ensures Below(a, b) <==> Value(a) < Value(b)
  {
    if a != "" {
      var s, t := a[1..], b[1..];
      assert a == [a[0]] + s && b == [b[0]] + t;
      ValueFront(a[0], s);
      ValueFront(b[0], t);
      ValueBound(s);
      ValueBound(t);
      TextIsNumeric(s, t);
      if a[0] < b[0] {
        LeadDecides(DigitOf(a[0]), DigitOf(b[0]), Pow10(|s|), Value(s), Value(t));
      } else if b[0] < a[0] {
        LeadDecides(DigitOf(b[0]), DigitOf(a[0]), Pow10(|s|), Value(t), Value(s));
      }
    }
  }

  /** Different starts of one width decide the comparison, whatever follows. */
  lemma {:induction false} StartDecides(a: string, b: string, x: string, y: string)
    requires |a| == |b| && a != b
    ensures Below(a + x, b + y) <==> Below(a, b)
  {
    assert (a + x)[1..] == a[1..] + x && (b + y)[1..] == b[1..] + y;
    if a[0] == b[0] {
      assert a == [a[0]] + a[1..] && b == [b[0]] + b[1..];
      StartDecides(a[1..], b[1..], x, y);
    }
  }

  /** A migration's name as discovery accepts it, with a number of this many digits. */
  predicate Numbered(name: string, width: nat)
  {
    IsSql(name) && NumberPrefix(name).Some? && |NumberPrefix(name).value| == width
  }

  /** parseInt of the prefix. */
  function Number(name: string): nat
    requires NumberPrefix(name).Some?
  {
    Value(NumberPrefix(name).value)
  }

  /** For every two migrations whose numbers have these widths, the smaller number sorts first. */
  ghost predicate WidthsAgree(m: nat, n: nat)
  {
    forall p: string, q: string :: Numbered(p, m) && Numbered(q, n) ==>
      && (Number(p) < Number(q) ==> Below(p, q))
      && (Number(q) < Number(p) ==> Below(q, p))
  }

  /** With one width, the smaller number sorts first. */
  lemma {:induction false} NumberDecides(p: string, q: string, width: nat)
    requires Numbered(p, width) && Numbered(q, width) && Number(p) < Number(q)
    ensures Below(p, q)
  {
    var a, b := NumberPrefix(p).value, NumberPrefix(q).value;
    TextIsNumeric(a, b);
    StartDecides(a, b, p[width..], q[width..]);
    assert p == a + p[width..] && q == b + q[width..];
  }

  function NameOf(digits: string, title: string): string
  {
    digits + ("_" + title + ".sql")
  }

  lemma {:induction false} PrefixOfName(digits: string, rest: string)
    requires AllDigits(digits) && rest != "" && !IsDigit(rest[0])
    ensures LeadingDigits(digits + rest) == digits
  {
    var name := digits + rest;
    assert forall i :: 0 <= i < |digits| ==> IsDigit(name[i]);
    assert !IsDigit(name[|digits|]);
    assert |LeadingDigits(name)| == |digits|;
    assert name[..|digits|] == digits;
  }

  lemma {:induction false} NameIsNumbered(digits: string, title: string)
    requires AllDigits(digits) && digits != ""
    ensures var name := NameOf(digits, title);
      Numbered(name, |digits|) && Number(name) == Value(digits) && name[0] == digits[0]
  {
    var name := NameOf(digits, title);
    PrefixOfName(digits, "_" + title + ".sql");
    assert name == (digits + ("_" + title)) + ".sql";
    assert name[|digits|] == '_';
  }

  function Nines(m: nat): (s: string)
    ensures |s| == m && AllDigits(s) && forall i :: 0 <= i < m ==> s[i] == '9'
  {
    if m == 0 then "" else "9" + Nines(m - 1)
  }

  /** Migrations numbered by m nines and by a one with more zeros: the second has the larger number, and sorts first. */
  lemma {:induction false} LongerSortsFirst(m: nat, n: nat, title: string)
    requires 1 <= m < n
    ensures var p, q := NameOf(Nines(m), title), NameOf("1" + Zeros(n - 1), title);
      Numbered(p, m) && Numbered(q, n) && Number(p) < Number(q) && Below(q, p) && !Below(p, q)
  {
    var b := "1" + Zeros(n - 1);
    NinesBelow(m, n);
    NameIsNumbered(Nines(m), title);
    NameIsNumbered(b, title);
    assert Nines(m)[0] == '9' && b[0] == '1';
  }

  lemma {:induction false} NinesBelow(m: nat, n: nat)
    requires m < n
    ensures var b := "1" + Zeros(n - 1); AllDigits(b) && |b| == n && Value(Nines(m)) < Value(b)
  {
    ValueFront('1', Zeros(n - 1));
    ValueBound(Nines(m));
    Pow10Monotone(m, n - 1);
  }

  /** Text order agrees with number order for all migrations of two widths if and only if the widths are equal. */
  lemma {:induction false} EqualWidthsExactly(m: nat, n: nat)
    requires m >= 1 && n >= 1
    ensures WidthsAgree(m, n) <==> m == n
  {
    if m == n {
      forall p: string, q: string | Numbered(p, m) && Numbered(q, n)
        ensures Number(p) < Number(q) ==> Below(p, q)
        ensures Number(q) < Number(p) ==> Below(q, p)
      {
        if Number(p) < Number(q) {
          NumberDecides(p, q, m);
        } else if Number(q) < Number(p) {
          NumberDecides(q, p, m);
        }
      }
    } else if m < n {
      LongerSortsFirst(m, n, "");
    } else {
      LongerSortsFirst(n, m, "");
    }
  }

  /** What "sorted by number" needs: when all the numbers of a directory have one width, discovery hands over every
      .sql file in the order of the numbers. */
  lemma {:induction false} DiscoveredInNumberOrder(listing: seq<string>, read: string -> string,
      checksum: string -> string, width: nat)
    requires forall i, j :: 0 <= i < j < |listing| ==> listing[i] != listing[j]
    requires forall name :: name in listing && IsSql(name) ==> Numbered(name, width)
    ensures var r := DiscoverMigrations(listing, read, checksum);
      r.Some? && forall i, j :: 0 <= i < j < |r.value| ==>
        && Numbered(r.value[i].filename, width) && Numbered(r.value[j].filename, width)
        && Number(r.value[i].filename) <= Number(r.value[j].filename)
  {
    SortedNamesExact(listing);
    var names := SortedNames(listing);
    assert forall i :: 0 <= i < |names| ==> names[i] in names;
    forall i, j | 0 <= i < j < |names|
      ensures Number(names[i]) <= Number(names[j])
    {
      if Number(names[j]) < Number(names[i]) {
        NumberDecides(names[j], names[i], width);
        BelowTrichotomy(names[i], names[j]);
        BelowTrichotomy(names[j], names[i]);
      }
    }
  }

  /** A directory of 9_a.sql and 10_b.sql is handed over with the tenth migration first. */
  lemma {:induction false} TenthBeforeNinth(read: string -> string, checksum: string -> string)
    ensures DiscoverMigrations(["9_a.sql", "10_b.sql"], read, checksum) == Some([
      Migration("10_b.sql", read("10_b.sql"), checksum(read("10_b.sql"))),
      Migration("9_a.sql", read("9_a.sql"), checksum(read("9_a.sql")))])
  {
    var nine, ten := NameOf("9", "a"), NameOf("10", "b");
    assert nine == "9_a.sql" && ten == "10_b.sql";
    NameIsNumbered("9", "a");
    NameIsNumbered("10", "b");
    assert Below(ten, nine) && !Below(nine, ten);
    SortsPair(nine, ten);
    LoadsPair(ten, nine, read, checksum);
  }

  lemma {:induction false} LoadsPair(p: string, q: string, read: string -> string, checksum: string -> string)
    requires NumberPrefix(p).Some? && NumberPrefix(q).Some?
    ensures Load([p, q], read, checksum) ==
      Some([Migration(p, read(p), checksum(read(p))), Migration(q, read(q), checksum(read(q)))])
  {
    var r := Load([p, q], read, checksum);
    assert r.Some? && r.value == [r.value[0], r.value[1]];
  }

  lemma {:induction false} SortsPair(p: string, q: string)
    requires IsSql(p) && IsSql(q) && !Below(p, q)
    ensures SortedNames([p, q]) == [q, p]
  {
    assert [p, q][1..] == [q] && [q][1..] == [];
    assert SortedNames([]) == [];
    assert SortedNames([q]) == InsertName(q, []) == [q];
    assert InsertName(p, []) == [p];
    assert InsertName(p, [q]) == [q] + [p];
  }

  // ---------------------------------------------------------------- migrate

  datatype Db<S> = Db(tracking: seq<Applied>, schema: S)

  datatype Outcome =
    | Done(applied: seq<string>, skipped: seq<string>)
    | Mismatch(filename: string)
    | Failed(filename: string)
    | Crashed

  function Lookup(tracking: seq<Applied>, name: string): (r: Option<Applied>)
    ensures r.Some? ==> r.value in tracking && r.value.filename == name
    ensures r.None? ==> forall a :: a in tracking ==> a.filename != name
  {
    if tracking == [] then None
    else if tracking[|tracking| - 1].filename == name then Some(tracking[|tracking| - 1])
    else Lookup(tracking[..|tracking| - 1], name)
  }

  function Names(files: seq<Migration>): (r: seq<string>)
    ensures |r| == |files|
  {
    if files == [] then [] else Names(files[..|files| - 1]) + [files[|files| - 1].filename]
  }

  function Track(files: seq<Migration>): (r: seq<Applied>)
    ensures |r| == |files|
  {
    if files == [] then []
    else Track(files[..|files| - 1]) + [Applied(files[|files| - 1].filename, files[|files| - 1].checksum)]
  }

  lemma {:induction false} NamesFront(files: seq<Migration>)
    requires files != []
    ensures Names(files) == [files[0].filename] + Names(files[1..])
  {
    var n := |files| - 1;
    if n > 0 {
      NamesFront(files[..n]);
      assert files[..n][1..] == files[1..][..n - 1];
    }
  }

  /** Applying files in order from a schema; None once one of them fails. */
  function Fold<S>(apply: (S, string) -> Option<S>, start: S, files: seq<Migration>): Option<S>
  {
    if files == [] then Some(start)
    else
      var before := Fold(apply, start, files[..|files| - 1]);
      if before.None? then None else apply(before.value, files[|files| - 1].sql)
  }

  /** One run: `known` is the tracking table as read at the start; the process dies on reaching file `crashAt`,
      with whatever transaction it had open rolled back. */
  function MigrateFrom<S>(apply: (S, string) -> Option<S>, files: seq<Migration>, known: seq<Applied>,
                          db: Db<S>, crashAt: nat, i: nat, applied: seq<string>, skipped: seq<string>): (Outcome, Db<S>)
    requires i <= |files|
    decreases |files| - i
  {
    if i == |files| then (Done(applied, skipped), db)
    else if i == crashAt then (Crashed, db)
    else
      var f := files[i];
      var existing := Lookup(known, f.filename);
      if existing.Some? then
        if existing.value.checksum != f.checksum then (Mismatch(f.filename), db)
        else MigrateFrom(apply, files, known, db, crashAt, i + 1, applied, skipped + [f.filename])
      else
        var s := apply(db.schema, f.sql);
        if s.None? then (Failed(f.filename), db)
        else MigrateFrom(apply, files, known, Db(db.tracking + [Applied(f.filename, f.checksum)], s.value),
                         crashAt, i + 1, applied + [f.filename], skipped)
  }

  function Migrate<S>(apply: (S, string) -> Option<S>, files: seq<Migration>, db: Db<S>, crashAt: nat): (Outcome, Db<S>)
  {
    MigrateFrom(apply, files, db.tracking, db, crashAt, 0, [], [])
  }

  datatype VerifyError = NotOnDisk(filename: string) | Changed(filename: string)

  function FindFile(files: seq<Migration>, name: string): (r: Option<Migration>)
    ensures r.Some? ==> r.value in files && r.value.filename == name
    ensures r.None? ==> forall f :: f in files ==> f.filename != name
  {
    if files == [] then None
    else if files[|files| - 1].filename == name then Some(files[|files| - 1])
    else FindFile(files[..|files| - 1], name)
  }

  function VerifyOne(files: seq<Migration>, a: Applied): seq<VerifyError>
  {
    var f := FindFile(files, a.filename);
    if f.None? then [NotOnDisk(a.filename)] else if f.value.checksum != a.checksum then [Changed(a.filename)] else []
  }

  function VerifyErrors(files: seq<Migration>, tracking: seq<Applied>): seq<VerifyError>
  {
    if tracking == [] then []
    else VerifyErrors(files, tracking[..|tracking| - 1]) + VerifyOne(files, tracking[|tracking| - 1])
  }

  class Runner<S> {
    var tracking: seq<Applied>
    var schema: S
    const apply: (S, string) -> Option<S>

    constructor (apply: (S, string) -> Option<S>, start: S)
      ensures this.apply == apply && tracking == [] && schema == start
    {
      this.apply, tracking, schema := apply, [], start;
    }

    method RunMigrations(files: seq<Migration>, crashAt: nat) returns (o: Outcome)
      modifies this
      ensures (o, Db(tracking, schema)) == Migrate(apply, files, old(Db(tracking, schema)), crashAt)
    {
      var known := tracking;
      var applied: seq<string>, skipped: seq<string> := [], [];
      var i := 0;
      while i < |files|
        invariant 0 <= i <= |files|
        invariant MigrateFrom(apply, files, known, Db(tracking, schema), crashAt, i, applied, skipped)
               == Migrate(apply, files, old(Db(tracking, schema)), crashAt)
      {
        if i == crashAt {
          return Crashed;
        }
        var f := files[i];
        var existing := Lookup(known, f.filename);
        if existing.Some? {
          if existing.value.checksum != f.checksum {
            return Mismatch(f.filename);
          }
          skipped := skipped + [f.filename];
        } else {
          var s := apply(schema, f.sql);
          if s.None? {
            return Failed(f.filename);
          }
          schema := s.value;
          tracking := tracking + [Applied(f.filename, f.checksum)];
          applied := applied + [f.filename];
        }
        i := i + 1;
      }
      return Done(applied, skipped);
    }

    method Verify(files: seq<Migration>) returns (errors: seq<VerifyError>)
      ensures errors == VerifyErrors(files, tracking)
    {
      errors := [];
      var i := 0;
      while i < |tracking|
        invariant 0 <= i <= |tracking|
        invariant errors == VerifyErrors(files, tracking[..i])
      {
        assert tracking[..i + 1][..i] == tracking[..i];
        errors := errors + VerifyOne(files, tracking[i]);
        i := i + 1;
      }
      assert tracking[..i] == tracking;
    }
  }

  // ---------------------------------------------------------------- convergence

  /** The table holds exactly the first k files, and the schema is what applying just those gives. */
  ghost predicate PrefixApplied<S>(apply: (S, string) -> Option<S>, start: S, files: seq<Migration>, db: Db<S>, k: nat)
  {
    k <= |files| && db.tracking == Track(files[..k]) && Fold(apply, start, files[..k]) == Some(db.schema)
  }

  lemma {:induction false} LookupInPrefix(files: seq<Migration>, k: nat, i: nat)
    requires DistinctNames(files) && k <= |files| && i < |files|
    ensures Lookup(Track(files[..k]), files[i].filename) ==
      if i < k then Some(Applied(files[i].filename, files[i].checksum)) else None
    decreases k
  {
    if k > 0 {
      LookupInPrefix(files, k - 1, i);
      assert files[..k][..k - 1] == files[..k - 1];
      var t := Track(files[..k]);
      assert t[..k - 1] == Track(files[..k - 1]);
      assert i != k - 1 ==> files[i].filename != files[k - 1].filename;
    }
  }

  lemma {:induction false} OneMoreFile<S>(apply: (S, string) -> Option<S>, start: S, files: seq<Migration>, db: Db<S>,
      k: nat)
    requires PrefixApplied(apply, start, files, db, k) && k < |files| && apply(db.schema, files[k].sql).Some?
    ensures PrefixApplied(apply, start, files,
      Db(db.tracking + [Applied(files[k].filename, files[k].checksum)], apply(db.schema, files[k].sql).value), k + 1)
  {
    assert files[..k + 1][..k] == files[..k];
  }

  /** The files already in the table are passed over. */
  lemma {:induction false} SkipPhase<S>(apply: (S, string) -> Option<S>, files: seq<Migration>, k: nat, db: Db<S>,
      crashAt: nat, i: nat, skipped: seq<string>)
    requires DistinctNames(files) && i <= k <= |files|
    ensures MigrateFrom(apply, files, Track(files[..k]), db, crashAt, i, [], skipped) ==
      if i <= crashAt < k then (Crashed, db)
      else MigrateFrom(apply, files, Track(files[..k]), db, crashAt, k, [], skipped + Names(files[i..k]))
    decreases k - i
  {
    if i == k {
      assert skipped + Names(files[i..k]) == skipped;
    } else if i != crashAt {
      LookupInPrefix(files, k, i);
      SkipPhase(apply, files, k, db, crashAt, i + 1, skipped + [files[i].filename]);
      NamesFront(files[i..k]);
      assert files[i..k][1..] == files[i + 1..k];
      assert (skipped + [files[i].filename]) + Names(files[i + 1..k]) == skipped + Names(files[i..k]);
    }
  }

  /** Where applying from file i stops: the prefix only grows, in order, and a failure is that of the next file. */
  lemma {:induction false} ApplyPhase<S>(apply: (S, string) -> Option<S>, start: S, files: seq<Migration>, k: nat,
                                         db: Db<S>, crashAt: nat, i: nat, applied: seq<string>, skipped: seq<string>)
    returns (k': nat)
    requires DistinctNames(files) && k <= i <= |files| && PrefixApplied(apply, start, files, db, i)
    ensures var (o, db') := MigrateFrom(apply, files, Track(files[..k]), db, crashAt, i, applied, skipped);
      && k' >= i && PrefixApplied(apply, start, files, db', k')
      && !o.Mismatch?
      && (o.Done? ==> k' == |files|)
      && (o.Failed? ==> k' < |files| && o.filename == files[k'].filename && apply(db'.schema, files[k'].sql).None?)
    decreases |files| - i
  {
    k' := i;
    if i < |files| && i != crashAt {
      LookupInPrefix(files, k, i);
      if apply(db.schema, files[i].sql).Some? {
        OneMoreFile(apply, start, files, db, i);
        k' := ApplyPhase(apply, start, files, k, Db(db.tracking + [Applied(files[i].filename, files[i].checksum)],
                         apply(db.schema, files[i].sql).value), crashAt, i + 1, applied + [files[i].filename], skipped);
      }
    }
  }

  /** A run that finishes has applied every file from i on, in order. */
  lemma {:induction false} ApplyLists<S>(apply: (S, string) -> Option<S>, files: seq<Migration>, k: nat,
                                         db: Db<S>, crashAt: nat, i: nat, applied: seq<string>, skipped: seq<string>)
    requires DistinctNames(files) && k <= i <= |files|
    ensures var o := MigrateFrom(apply, files, Track(files[..k]), db, crashAt, i, applied, skipped).0;
      o.Done? ==> o == Done(applied + Names(files[i..]), skipped)
    decreases |files| - i
  {
    if i == |files| {
      assert applied + Names(files[i..]) == applied;
    } else if i != crashAt {
      LookupInPrefix(files, k, i);
      if apply(db.schema, files[i].sql).Some? {
        ApplyLists(apply, files, k, Db(db.tracking + [Applied(files[i].filename, files[i].checksum)],
                   apply(db.schema, files[i].sql).value), crashAt, i + 1, applied + [files[i].filename], skipped);
        NamesFront(files[i..]);
        assert files[i..][1..] == files[i + 1..];
        assert (applied + [files[i].filename]) + Names(files[i + 1..]) == applied + Names(files[i..]);
      }
    }
  }

  /** One run from a prefix of length k: it ends in a prefix at least as long; a finished run holds every file,
      having skipped the first k and applied the rest; a failed one names the file that failed. */
  lemma {:induction false} MigrateExtends<S>(apply: (S, string) -> Option<S>, start: S, files: seq<Migration>, k: nat,
      db: Db<S>, crashAt: nat) returns (k': nat)
    requires DistinctNames(files) && PrefixApplied(apply, start, files, db, k)
    ensures var (o, db') := Migrate(apply, files, db, crashAt);
      && k' >= k && PrefixApplied(apply, start, files, db', k')
      && !o.Mismatch?
      && (o.Done? ==> k' == |files| && o == Done(Names(files[k..]), Names(files[..k])))
      && (o.Failed? ==> k' < |files| && o.filename == files[k'].filename && apply(db'.schema, files[k'].sql).None?)
  {
    SkipPhase(apply, files, k, db, crashAt, 0, []);
    assert files[0..k] == files[..k] && [] + Names(files[..k]) == Names(files[..k]);
    if crashAt < k {
      k' := k;
    } else {
      k' := ApplyPhase(apply, start, files, k, db, crashAt, k, [], Names(files[..k]));
      ApplyLists(apply, files, k, db, crashAt, k, [], Names(files[..k]));
      assert [] + Names(files[k..]) == Names(files[k..]);
    }
  }

  /** Any number of runs, each dying at its own place or not at all. */
  function Runs<S>(apply: (S, string) -> Option<S>, files: seq<Migration>, db: Db<S>, crashes: seq<nat>): Db<S>
    decreases |crashes|
  {
    if crashes == [] then db else Runs(apply, files, Migrate(apply, files, db, crashes[0]).1, crashes[1..])
  }

  lemma {:induction false} RunsKeepPrefix<S>(apply: (S, string) -> Option<S>, start: S, files: seq<Migration>,
      db: Db<S>, crashes: seq<nat>, k: nat) returns (k': nat)
    requires DistinctNames(files) && PrefixApplied(apply, start, files, db, k)
    ensures k' >= k && PrefixApplied(apply, start, files, Runs(apply, files, db, crashes), k')
    decreases |crashes|
  {
    k' := k;
    if crashes != [] {
      k' := MigrateExtends(apply, start, files, k, db, crashes[0]);
      k' := RunsKeepPrefix(apply, start, files, Migrate(apply, files, db, crashes[0]).1, crashes[1..], k');
    }
  }

  /** From an empty table, after any number of failed or crashed runs the table is a prefix of the sorted
      files and the schema is the fold of exactly that prefix. */
  lemma {:induction false} AlwaysAPrefix<S>(apply: (S, string) -> Option<S>, start: S, files: seq<Migration>,
      crashes: seq<nat>)
    requires DistinctNames(files)
    ensures exists k :: PrefixApplied(apply, start, files, Runs(apply, files, Db([], start), crashes), k)
  {
    assert files[..0] == [];
    var k := RunsKeepPrefix(apply, start, files, Db([], start), crashes, 0);
  }

  lemma {:induction false} FoldPrefixes<S>(apply: (S, string) -> Option<S>, start: S, files: seq<Migration>, k: nat)
    requires Fold(apply, start, files).Some? && k <= |files|
    ensures Fold(apply, start, files[..k]).Some?
  {
    if k < |files| {
      var n := |files| - 1;
      FoldPrefixes(apply, start, files[..n], k);
      assert files[..n][..k] == files[..k];
    } else {
      assert files[..k] == files;
    }
  }

  /** However many runs failed before, a run that finishes leaves what one clean run on an empty table leaves;
      the next run applies nothing, skips everything, and verification finds nothing wrong. */
  lemma {:induction false} Converges<S>(apply: (S, string) -> Option<S>, start: S, files: seq<Migration>,
      crashes: seq<nat>, crashAt: nat, again: nat)
    requires DistinctNames(files) && again >= |files|
    requires Migrate(apply, files, Runs(apply, files, Db([], start), crashes), crashAt).0.Done?
    ensures var end := Migrate(apply, files, Runs(apply, files, Db([], start), crashes), crashAt).1;
      && Migrate(apply, files, Db([], start), again) == (Done(Names(files), []), end)
      && Migrate(apply, files, end, again) == (Done([], Names(files)), end)
      && VerifyErrors(files, end.tracking) == []
  {
    var empty := Db([], start);
    assert files[..0] == [];
    var k := RunsKeepPrefix(apply, start, files, empty, crashes, 0);
    var k1 := MigrateExtends(apply, start, files, k, Runs(apply, files, empty, crashes), crashAt);
    var end := Migrate(apply, files, Runs(apply, files, empty, crashes), crashAt).1;
    CleanRun(apply, start, files, empty, 0, again, end);
    assert files[0..] == files;
    CleanRun(apply, start, files, end, |files|, again, end);
    assert files[|files|..] == [] && files[..|files|] == files;
    AllTrackedVerify(files, |files|);
  }

  lemma {:induction false} NextApplies<S>(apply: (S, string) -> Option<S>, start: S, files: seq<Migration>, db: Db<S>,
      k: nat)
    requires PrefixApplied(apply, start, files, db, k) && k < |files| && Fold(apply, start, files).Some?
    ensures apply(db.schema, files[k].sql).Some?
  {
    FoldPrefixes(apply, start, files, k + 1);
    assert files[..k + 1][..k] == files[..k];
  }

  /** A run that meets no crash, from a prefix of files that all apply, finishes with all of them. */
  lemma {:induction false} CleanRun<S>(apply: (S, string) -> Option<S>, start: S, files: seq<Migration>, db: Db<S>,
      k: nat, crashAt: nat, end: Db<S>)
    requires DistinctNames(files) && PrefixApplied(apply, start, files, db, k) && crashAt >= |files|
    requires PrefixApplied(apply, start, files, end, |files|)
    ensures Migrate(apply, files, db, crashAt) == (Done(Names(files[k..]), Names(files[..k])), end)
  {
    var k' := MigrateExtends(apply, start, files, k, db, crashAt);
    var (o, db') := Migrate(apply, files, db, crashAt);
    assert files[..|files|] == files;
    NoCrash(apply, files, db.tracking, db, crashAt, 0, [], []);
    if k' < |files| {
      NextApplies(apply, start, files, db', k');
    }
  }

  lemma {:induction false} NoCrash<S>(apply: (S, string) -> Option<S>, files: seq<Migration>, known: seq<Applied>,
                                      db: Db<S>, crashAt: nat, i: nat, applied: seq<string>, skipped: seq<string>)
    requires i <= |files| <= crashAt
    ensures !MigrateFrom(apply, files, known, db, crashAt, i, applied, skipped).0.Crashed?
    decreases |files| - i
  {
    if i < |files| {
      var f := files[i];
      if Lookup(known, f.filename).Some? {
        NoCrash(apply, files, known, db, crashAt, i + 1, applied, skipped + [f.filename]);
      } else if apply(db.schema, f.sql).Some? {
        NoCrash(apply, files, known, Db(db.tracking + [Applied(f.filename, f.checksum)], apply(db.schema, f.sql).value),
                crashAt, i + 1, applied + [f.filename], skipped);
      }
    }
  }

  lemma {:induction false} FindsOwnFile(files: seq<Migration>, k: nat)
    requires DistinctNames(files) && k < |files|
    ensures FindFile(files, files[k].filename) == Some(files[k])
  {
    var n := |files| - 1;
    if k < n {
      FindsOwnFile(files[..n], k);
      assert files[k].filename != files[n].filename;
    }
  }

  lemma {:induction false} AllTrackedVerify(files: seq<Migration>, k: nat)
    requires DistinctNames(files) && k <= |files|
    ensures VerifyErrors(files, Track(files[..k])) == []
  {
    if k > 0 {
      AllTrackedVerify(files, k - 1);
      assert files[..k][..k - 1] == files[..k - 1];
      var t := Track(files[..k]);
      assert t[..k - 1] == Track(files[..k - 1]);
      FindsOwnFile(files, k - 1);
    }
  }

  /** On any tables and files: verification is clean exactly when every tracked migration is on disk with its
      recorded checksum. */
  lemma {:induction false} VerifyExact(files: seq<Migration>, tracking: seq<Applied>)
    ensures VerifyErrors(files, tracking) == [] <==>
      forall a :: a in tracking ==>
        FindFile(files, a.filename).Some? && FindFile(files, a.filename).value.checksum == a.checksum
  {
    if tracking != [] {
      var n := |tracking| - 1;
      VerifyExact(files, tracking[..n]);
      assert tracking == tracking[..n] + [tracking[n]];
      assert |VerifyErrors(files, tracking)| == |VerifyErrors(files, tracking[..n])| + |VerifyOne(files, tracking[n])|;
    }
  }

  /** Which errors verification reports: a tracked name without a file as not on disk, a tracked name whose file
      has another checksum as changed, and nothing else. */
  lemma {:induction false} VerifyReports(files: seq<Migration>, tracking: seq<Applied>, name: string)
    requires DistinctNames(files)
    ensures NotOnDisk(name) in VerifyErrors(files, tracking) <==>
      (exists a :: a in tracking && a.filename == name) && forall f :: f in files ==> f.filename != name
    ensures Changed(name) in VerifyErrors(files, tracking) <==>
      exists a, f :: a in tracking && f in files && a.filename == name && f.filename == name && a.checksum != f.checksum
  {
    if tracking != [] {
      var n := |tracking| - 1;
      VerifyReports(files, tracking[..n], name);
      VerifyOneReports(files, tracking[n], name);
      assert tracking == tracking[..n] + [tracking[n]];
    }
  }

  lemma {:induction false} VerifyOneReports(files: seq<Migration>, a: Applied, name: string)
    requires DistinctNames(files)
    ensures NotOnDisk(name) in VerifyOne(files, a) <==>
      a.filename == name && forall f :: f in files ==> f.filename != name
    ensures Changed(name) in VerifyOne(files, a) <==>
      exists f :: f in files && a.filename == name && f.filename == name && a.checksum != f.checksum
  {
    var found := FindFile(files, a.filename);
    if found.Some? {
      forall f | f in files && f.filename == a.filename
        ensures f == found.value
      {
        var i :| 0 <= i < |files| && files[i] == f;
        FindsOwnFile(files, i);
      }
    }
  }

  /** On any tables and files: a run that finishes has found every already applied file unchanged. */
  lemma {:induction false} FinishedMeansUnchanged<S>(apply: (S, string) -> Option<S>, files: seq<Migration>,
      known: seq<Applied>, db: Db<S>, crashAt: nat, i: nat, applied: seq<string>, skipped: seq<string>, j: nat)
    requires i <= j < |files| && Lookup(known, files[j].filename).Some?
    requires MigrateFrom(apply, files, known, db, crashAt, i, applied, skipped).0.Done?
    ensures Lookup(known, files[j].filename).value.checksum == files[j].checksum
    decreases |files| - i
  {
    var f := files[i];
    if i < j {
      if Lookup(known, f.filename).Some? {
        FinishedMeansUnchanged(apply, files, known, db, crashAt, i + 1, applied, skipped + [f.filename], j);
      } else {
        FinishedMeansUnchanged(apply, files, known,
          Db(db.tracking + [Applied(f.filename, f.checksum)], apply(db.schema, f.sql).value),
                               crashAt, i + 1, applied + [f.filename], skipped, j);
      }
    }
  }
}
