/** The in-memory recorder of the dual-evaluation window: agreement counters, a count per
    disagreement label, and a bounded latency sample per path. Latencies are whole microseconds,
    which is the resolution of the clock that produces them. */
module ParityRecorder {
  import opened Wrappers

  const RESERVOIR: nat := 2000

  datatype Decision = Decision(allow: bool, reason: string)

  datatype Reservoir = Reservoir(samples: seq<int>, count: nat)

  /** Sum of the counts under the given labels. */
  ghost function TotalOver(keys: set<string>, m: map<string, nat>): nat
    requires keys <= m.Keys
    decreases |keys|
  {
    if keys == {} then 0
    else
      var k :| k in keys;
      m[k] + TotalOver(keys - {k}, m)
  }

  ghost function Total(m: map<string, nat>): nat
  {
    TotalOver(m.Keys, m)
  }

  lemma {:induction false} TotalWithout(keys: set<string>, m: map<string, nat>, k: string)
    requires keys <= m.Keys && k in keys
    ensures TotalOver(keys, m) == m[k] + TotalOver(keys - {k}, m)
    decreases |keys|
  {
    var c :| c in keys && TotalOver(keys, m) == m[c] + TotalOver(keys - {c}, m);
    if c != k {
      TotalWithout(keys - {c}, m, k);
      TotalWithout(keys - {k}, m, c);
      assert keys - {c} - {k} == keys - {k} - {c};
    }
  }

  lemma {:induction false} TotalSame(keys: set<string>, m: map<string, nat>, m': map<string, nat>)
    requires keys <= m.Keys && keys <= m'.Keys && forall k :: k in keys ==> m[k] == m'[k]
    ensures TotalOver(keys, m) == TotalOver(keys, m')
    decreases |keys|
  {
    if keys != {} {
      var c :| c in keys && TotalOver(keys, m) == m[c] + TotalOver(keys - {c}, m);
      TotalWithout(keys, m', c);
      TotalSame(keys - {c}, m, m');
    }
  }

  /** Counting one more under any label, new or old, raises the total by one. */
  lemma {:induction false} TotalBump(m: map<string, nat>, k: string)
    ensures Total(m[k := (if k in m then m[k] else 0) + 1]) == Total(m) + 1
  {
    var m' := m[k := (if k in m then m[k] else 0) + 1];
    var rest := m.Keys - {k};
    assert m'.Keys == rest + {k};
    TotalWithout(m'.Keys, m', k);
    assert m'.Keys - {k} == rest;
    TotalSame(rest, m, m');
    if k in m {
      TotalWithout(m.Keys, m, k);
    } else {
      assert m.Keys == rest;
    }
  }

  ghost predicate ReservoirOk(r: Reservoir)
  {
    |r.samples| == if r.count <= RESERVOIR then r.count else RESERVOIR
  }

  /** addSample; slot stands for the random index. */
  function AddSample(r: Reservoir, ms: int, slot: nat): (r': Reservoir)
    ensures r'.count == r.count + 1
    ensures ReservoirOk(r) ==> ReservoirOk(r')
    ensures |r.samples| < 2000 ==> r'.samples == r.samples + [ms]
    ensures |r.samples| == 2000 ==>
      && |r'.samples| == 2000
      && forall i :: 0 <= i < 2000 ==> r'.samples[i] == if i == slot then ms else r.samples[i]
  {
    var samples :=
      if |r.samples| < RESERVOIR then r.samples + [ms]
      else if slot < RESERVOIR then r.samples[slot := ms]
      else r.samples;
    Reservoir(samples, r.count + 1)
  }

  function Label(prefix: string, d: Decision): string
  {
    prefix + (if d.allow then "allow" else "deny") + (if d.reason != "" then ":" + d.reason else "")
  }

  /** The two kinds of disagreement, spelled out. */
  lemma {:induction false} LabelsSpelled(reason: string)
    ensures Label("new=", Decision(true, "")) == "new=allow" && Label("legacy=", Decision(true, "")) == "legacy=allow"
    ensures Label("legacy=", Decision(false, "")) == "legacy=deny"
    ensures reason != "" ==> Label("legacy=", Decision(false, reason)) == "legacy=deny:" + reason
    ensures reason != "" ==> Label("new=", Decision(false, reason)) == "new=deny:" + reason
  {
    assert "legacy=" + "allow" + "" == "legacy=allow" && "new=" + "allow" + "" == "new=allow";
    assert "legacy=" + "deny" + "" == "legacy=deny";
    assert "legacy=" + "deny" + (":" + reason) == "legacy=deny:" + reason;
    assert "new=" + "deny" + (":" + reason) == "new=deny:" + reason;
  }

  /** The counts per disagreement label after one observation. */
  function Tally(byReason: map<string, nat>, l: Decision, n: Decision): map<string, nat>
  {
    if l.allow == n.allow then byReason
    else
      var key := Label("legacy=", l) + "|" + Label("new=", n);
      byReason[key := (if key in byReason then byReason[key] else 0) + 1]
  }

  /** The two latencies of one observation and the random indices drawn for them. */
  datatype Timing = Timing(legacyMs: int, newMs: int, legacySlot: nat, newSlot: nat)

  datatype Log = Log(
    evaluated: nat,
    agreements: nat,
    disagreements: nat,
    byReason: map<string, nat>,
    legacy: Reservoir,
    candidate: Reservoir)

  /** Every evaluation is an agreement or a disagreement, every disagreement has one label, and both samples
      are full up to their bound. */
  ghost predicate Consistent(log: Log)
  {
    && log.evaluated == log.agreements + log.disagreements
    && Total(log.byReason) == log.disagreements
    && log.legacy.count == log.candidate.count == log.evaluated
    && ReservoirOk(log.legacy) && ReservoirOk(log.candidate)
  }

  function Observe(log: Log, l: Decision, n: Decision, t: Timing): Log
  {
    var agree := l.allow == n.allow;
    Log(log.evaluated + 1,
        log.agreements + if agree then 1 else 0,
        log.disagreements + if agree then 0 else 1,
        Tally(log.byReason, l, n),
        AddSample(log.legacy, t.legacyMs, t.legacySlot),
        AddSample(log.candidate, t.newMs, t.newSlot))
  }

  /** An observation keeps the log consistent, and raises the sum of the labels' counts exactly when it is a
      disagreement. */
  lemma {:induction false} ObserveKeeps(log: Log, l: Decision, n: Decision, t: Timing)
    requires Consistent(log)
    ensures Consistent(Observe(log, l, n, t))
    ensures Total(Observe(log, l, n, t).byReason) == Total(log.byReason) + if l.allow == n.allow then 0 else 1
  {
    if l.allow != n.allow {
      TotalBump(log.byReason, Label("legacy=", l) + "|" + Label("new=", n));
    }
  }

  class Recorder {
    var evaluated: nat
    var agreements: nat
    var disagreements: nat
    var byReason: map<string, nat>
    var legacy: Reservoir
    var candidate: Reservoir

    ghost function View(): Log
      reads this
    {
      Log(evaluated, agreements, disagreements, byReason, legacy, candidate)
    }

    ghost predicate Valid()
      reads this
    {
      Consistent(View())
    }

    constructor ()
      ensures Valid() && evaluated == 0 && byReason == map[]
    {
      evaluated, agreements, disagreements := 0, 0, 0;
      byReason := map[];
      legacy, candidate := Reservoir([], 0), Reservoir([], 0);
    }

    method Record(l: Decision, n: Decision, t: Timing)
      requires Valid()
      modifies this
      ensures Valid()
      ensures evaluated == old(evaluated) + 1
      ensures legacy == AddSample(old(legacy), t.legacyMs, t.legacySlot)
      ensures candidate == AddSample(old(candidate), t.newMs, t.newSlot)
      ensures agreements == old(agreements) + if l.allow == n.allow then 1 else 0
      ensures byReason == Tally(old(byReason), l, n)
    {
      evaluated := evaluated + 1;
      legacy := AddSample(legacy, t.legacyMs, t.legacySlot);
      candidate := AddSample(candidate, t.newMs, t.newSlot);
      if l.allow == n.allow {
        agreements := agreements + 1;
      } else {
        disagreements := disagreements + 1;
        var key := Label("legacy=", l) + "|" + Label("new=", n);
        TotalBump(byReason, key);
        byReason := byReason[key := (if key in byReason then byReason[key] else 0) + 1];
      }
    }
  }

  // ---------------------------------------------------------------- percentiles

  ghost predicate Ascending(s: seq<int>)
  {
    forall i, j :: 0 <= i < j < |s| ==> s[i] <= s[j]
  }

  function Insert(x: int, s: seq<int>): (r: seq<int>)
  {
    if s == [] || x <= s[0] then [x] + s else [s[0]] + Insert(x, s[1..])
  }

  function SortedCopy(s: seq<int>): (r: seq<int>)
    ensures |r| == |s|
  {
    if s == [] then [] else InsertShape(s[0], SortedCopy(s[1..])); Insert(s[0], SortedCopy(s[1..]))
  }

  lemma {:induction false} InsertShape(x: int, s: seq<int>)
    ensures |Insert(x, s)| == |s| + 1
    ensures Ascending(s) ==> Ascending(Insert(x, s))
    ensures forall y :: y in Insert(x, s) <==> y == x || y in s
  {
    if s != [] && x > s[0] {
      var r := Insert(x, s[1..]);
      InsertShape(x, s[1..]);
      assert s == [s[0]] + s[1..];
      assert forall i :: 0 <= i < |r| ==> r[i] in r;
      assert Ascending(s) ==> Ascending(s[1..]) && forall y :: y in s[1..] ==> s[0] <= y;
    }
  }

  /** How many samples lie below v. */
  function CountBelow(s: seq<int>, v: int): nat
  {
    if s == [] then 0 else (if s[0] < v then 1 else 0) + CountBelow(s[1..], v)
  }

  lemma {:induction false} InsertCount(x: int, s: seq<int>, v: int)
    ensures CountBelow(Insert(x, s), v) == CountBelow(s, v) + if x < v then 1 else 0
  {
    if s == [] || x <= s[0] {
      assert ([x] + s)[1..] == s;
    } else {
      InsertCount(x, s[1..], v);
      assert ([s[0]] + Insert(x, s[1..]))[1..] == Insert(x, s[1..]);
    }
  }

  lemma {:induction false} SortedCopyAscending(s: seq<int>)
    ensures Ascending(SortedCopy(s))
    ensures forall i :: 0 <= i < |s| ==> SortedCopy(s)[i] in s
  {
    if s != [] {
      var r := SortedCopy(s[1..]);
      SortedCopyAscending(s[1..]);
      InsertShape(s[0], r);
      assert forall i :: 0 <= i < |r| ==> r[i] in s;
      forall i | 0 <= i < |s|
        ensures SortedCopy(s)[i] in s
      {
        assert SortedCopy(s)[i] in Insert(s[0], r);
      }
    }
  }

  /** The sorted copy is a rearrangement: it has as many samples below any value. */
  lemma {:induction false} SortedCopyCount(s: seq<int>, v: int)
    ensures CountBelow(SortedCopy(s), v) == CountBelow(s, v)
  {
    if s != [] {
      SortedCopyCount(s[1..], v);
      InsertCount(s[0], SortedCopy(s[1..]), v);
    }
  }

  function Clamp(scaled: nat, n: nat): (k: nat)
    requires n > 0
    ensures k < n
  {
    if scaled / 100 < n - 1 then scaled / 100 else n - 1
  }

  function Rank(n: nat, p: nat): (k: nat)
    requires n > 0
    ensures k < n
  {
    Clamp(p * n, n)
  }

  function Percentile(samples: seq<int>, p: nat): Option<int>
  {
    if samples == [] then None else Some(SortedCopy(samples)[Rank(|samples|, p)])
  }

  lemma {:induction false} CountNone(s: seq<int>, v: int)
    requires forall i :: 0 <= i < |s| ==> v <= s[i]
    ensures CountBelow(s, v) == 0
  {
    if s != [] {
      CountNone(s[1..], v);
    }
  }

  /** In an ascending list, at most k elements lie below the one at k, and more than k lie below anything larger. */
  lemma {:induction false} CountInAscending(s: seq<int>, k: nat, v: int)
    requires Ascending(s) && k < |s|
    ensures v <= s[k] ==> CountBelow(s, v) <= k
    ensures v > s[k] ==> CountBelow(s, v) > k
  {
    if k > 0 {
      CountInAscending(s[1..], k - 1, v);
    } else if v <= s[0] {
      CountNone(s, v);
    }
  }

  lemma {:induction false} RankedValue(samples: seq<int>, k: nat)
    requires k < |samples|
    ensures var v := SortedCopy(samples)[k]; v in samples && CountBelow(samples, v) <= k < CountBelow(samples, v + 1)
  {
    var sorted := SortedCopy(samples);
    var v := sorted[k];
    SortedCopyAscending(samples);
    CountInAscending(sorted, k, v);
    CountInAscending(sorted, k, v + 1);
    SortedCopyCount(samples, v);
    SortedCopyCount(samples, v + 1);
  }

  /** What the p-th percentile of n samples is: one of them, with at most p percent of the samples below it and more
      than p percent not above it; from 100 on it is the largest. */
  lemma {:induction false} PercentileHasRank(samples: seq<int>, p: nat)
    requires samples != []
    ensures var r := Percentile(samples, p);
      && r.Some? && r.value in samples
      && (p < 100 ==> 100 * CountBelow(samples, r.value) <= p * |samples| < 100 * CountBelow(samples, r.value + 1))
      && (p >= 100 ==> forall x :: x in samples ==> x <= r.value)
  {
    var n := |samples|;
    RankedValue(samples, Rank(n, p));
    if p < 100 {
      RankBelowHundred(n, p);
      PercentOf(p * n, Rank(n, p));
    } else {
      RankFromHundred(n, p);
      LastIsLargest(samples);
    }
  }

  lemma {:induction false} RankBelowHundred(n: nat, p: nat)
    requires n > 0 && p < 100
    ensures Rank(n, p) == p * n / 100
  {
    ScaleMonotone(n, p, 99);
  }

  lemma {:induction false} PercentOf(x: nat, k: nat)
    requires k == x / 100
    ensures 100 * k <= x < 100 * (k + 1)
  {
  }

  lemma {:induction false} RankFromHundred(n: nat, p: nat)
    requires n > 0 && p >= 100
    ensures Rank(n, p) == n - 1
  {
    ScaleMonotone(n, 100, p);
  }

  lemma {:induction false} LastIsLargest(samples: seq<int>)
    requires samples != []
    ensures forall x :: x in samples ==> x <= SortedCopy(samples)[|samples| - 1]
  {
    SortedCopyAscending(samples);
    SortedCopyHolds(samples);
  }

  lemma {:induction false} SortedCopyHolds(s: seq<int>)
    ensures forall x :: x in s ==> x in SortedCopy(s)
  {
    if s != [] {
      SortedCopyHolds(s[1..]);
      InsertShape(s[0], SortedCopy(s[1..]));
      assert s == [s[0]] + s[1..];
    }
  }

  lemma {:induction false} CountAppend(s: seq<int>, x: int, v: int)
    ensures CountBelow(s + [x], v) == CountBelow(s, v) + if x < v then 1 else 0
  {
    if s == [] {
      assert s + [x] == [x] && [x][1..] == [];
      assert CountBelow([], v) == 0;
    } else {
      assert (s + [x])[1..] == s[1..] + [x];
      CountAppend(s[1..], x, v);
    }
  }

  /** Where in the list the values below v are. */
  ghost function BelowAt(s: seq<int>, v: int): set<nat>
  {
    set i: nat | i < |s| && s[i] < v
  }

  lemma {:induction false} BelowAtAppend(s: seq<int>, x: int, v: int)
    ensures |BelowAt(s + [x], v)| == |BelowAt(s, v)| + if x < v then 1 else 0
  {
    var here, before := BelowAt(s + [x], v), BelowAt(s, v);
    assert |s| !in before;
    assert here == if x < v then before + {|s|} else before;
  }

  /** How many samples lie below v, as the size of a set of positions. */
  lemma {:induction false} CountBelowIsCard(s: seq<int>, v: int)
    ensures CountBelow(s, v) == |set i: nat | i < |s| && s[i] < v|
  {
    CountIsSize(s, v);
    assert BelowAt(s, v) == set i: nat | i < |s| && s[i] < v;
  }

  lemma {:induction false} CountIsSize(s: seq<int>, v: int)
    ensures CountBelow(s, v) == |BelowAt(s, v)|
  {
    if s == [] {
      assert BelowAt(s, v) == {};
    } else {
      var n := |s| - 1;
      CountIsSize(s[..n], v);
      CountAppend(s[..n], s[n], v);
      BelowAtAppend(s[..n], s[n], v);
      assert s == s[..n] + [s[n]];
    }
  }

  lemma {:induction false} ScaleMonotone(n: nat, p: nat, q: nat)
    requires p <= q
    ensures p * n <= q * n
  {
  }

  lemma {:induction false} ClampMonotone(x: nat, y: nat, n: nat)
    requires x <= y && n > 0
    ensures Clamp(x, n) <= Clamp(y, n)
  {
  }

  lemma {:induction false} RankMonotone(n: nat, p: nat, q: nat)
    requires p <= q && n > 0
    ensures Rank(n, p) <= Rank(n, q)
  {
    ScaleMonotone(n, p, q);
    ClampMonotone(p * n, q * n, n);
  }

  /** A higher percentile is never below a lower one; in particular p50 <= p99. */
  lemma {:induction false} PercentileMonotone(samples: seq<int>, p: nat, q: nat)
    requires p <= q && samples != []
    ensures Percentile(samples, p).Some? && Percentile(samples, q).Some?
    ensures Percentile(samples, p).value <= Percentile(samples, q).value
  {
    RankMonotone(|samples|, p, q);
    SortedCopyAscending(samples);
  }
}
