/** Splitting an amount by ratios with the residual on the first part. Ratios are exact reals here;
    the scaling to integers by 10^18, rounding half up, is modelled. */
module Allocation {
  import opened Money

  const SCALE: real := 1000000000000000000.0

  // ---------------------------------------------------------------- sums

  function Sum(s: seq<int>): int
  {
    if s == [] then 0 else Sum(s[..|s| - 1]) + s[|s| - 1]
  }

  function SumReal(s: seq<real>): real
  {
    if s == [] then 0.0 else SumReal(s[..|s| - 1]) + s[|s| - 1]
  }

  lemma {:induction false} SumUpdate(s: seq<int>, k: nat, v: int)
    requires k < |s|
    ensures Sum(s[k := v]) == Sum(s) - s[k] + v
  {
    var n := |s| - 1;
    if k == n {
      assert s[k := v][..n] == s[..n];
    } else {
      assert s[k := v][..n] == s[..n][k := v];
      SumUpdate(s[..n], k, v);
    }
  }

  lemma {:induction false} SumFirst(s: seq<int>)
    requires s != []
    ensures Sum(s) == s[0] + Sum(s[1..])
  {
    if |s| > 1 {
      var n := |s| - 1;
      SumFirst(s[..n]);
      assert s[..n][1..] == s[1..][..n - 1];
    } else {
      assert s[..0] == [] && s[1..] == [];
    }
  }

  // ---------------------------------------------------------------- specification

  /** The share of a magnitude, rounded down. */
  function Share(magnitude: nat, scaled: nat, total: nat): nat
    requires total > 0
  {
    magnitude * scaled / total
  }

  function Shares(magnitude: nat, scaled: seq<nat>, total: nat): (r: seq<int>)
    requires total > 0
    ensures |r| == |scaled|
  {
    if scaled == [] then []
    else Shares(magnitude, scaled[..|scaled| - 1], total) + [Share(magnitude, scaled[|scaled| - 1], total)]
  }

  lemma {:induction false} SharesAt(magnitude: nat, scaled: seq<nat>, total: nat, i: nat)
    requires total > 0 && i < |scaled|
    ensures Shares(magnitude, scaled, total)[i] == Share(magnitude, scaled[i], total)
  {
    if i < |scaled| - 1 {
      SharesAt(magnitude, scaled[..|scaled| - 1], total, i);
    }
  }

  lemma {:induction false} SharesTail(magnitude: nat, scaled: seq<nat>, total: nat)
    requires total > 0 && scaled != []
    ensures Shares(magnitude, scaled, total)[1..] == Shares(magnitude, scaled[1..], total)
  {
    forall i | 0 <= i < |scaled| - 1
      ensures Shares(magnitude, scaled, total)[i + 1] == Shares(magnitude, scaled[1..], total)[i]
    {
      SharesAt(magnitude, scaled, total, i + 1);
      SharesAt(magnitude, scaled[1..], total, i);
    }
  }

  function Negated(s: seq<int>): (r: seq<int>)
    ensures |r| == |s| && forall i :: 0 <= i < |s| ==> r[i] == -s[i]
  {
    if s == [] then [] else Negated(s[..|s| - 1]) + [-s[|s| - 1]]
  }

  /** The parts before the residual is placed. */
  function RawParts(amount: int, scaled: seq<nat>, total: nat): (r: seq<int>)
    requires total > 0
    ensures |r| == |scaled|
  {
    var shares := Shares(Abs(amount), scaled, total);
    if amount < 0 then Negated(shares) else shares
  }

  function Residual(amount: int, scaled: seq<nat>, total: nat): int
    requires total > 0
  {
    amount - Sum(RawParts(amount, scaled, total))
  }

  function Parts(amount: int, scaled: seq<nat>, total: nat): (r: seq<int>)
    requires scaled != [] && total > 0
    ensures |r| == |scaled|
  {
    var raw := RawParts(amount, scaled, total);
    raw[0 := raw[0] + Residual(amount, scaled, total)]
  }

  /** Math.round(r * 10^18). */
  function Scaled(r: real): (n: nat)
    requires r >= 0.0
    ensures n as real - 0.5 <= r * 1000000000000000000.0 < n as real + 0.5
  {
    (r * SCALE + 0.5).Floor
  }

  ghost predicate NonNegative(ratios: seq<real>)
  {
    forall i :: 0 <= i < |ratios| ==> ratios[i] >= 0.0
  }

  function ScaledAll(ratios: seq<real>): (r: seq<nat>)
    requires NonNegative(ratios)
    ensures |r| == |ratios|
  {
    if ratios == [] then [] else ScaledAll(ratios[..|ratios| - 1]) + [Scaled(ratios[|ratios| - 1])]
  }

  lemma {:induction false} SumRealNonNegative(ratios: seq<real>)
    requires NonNegative(ratios)
    ensures SumReal(ratios) >= 0.0
  {
    if ratios != [] {
      SumRealNonNegative(ratios[..|ratios| - 1]);
    }
  }

  // ---------------------------------------------------------------- the algorithm

  /** The first loop: the index of the first negative ratio, or the length. */
  method FirstNegative(ratios: seq<real>) returns (k: nat)
    ensures k <= |ratios| && NonNegative(ratios[..k])
    ensures k < |ratios| ==> ratios[k] < 0.0
  {
    k := 0;
    while k < |ratios|
      invariant 0 <= k <= |ratios|
      invariant NonNegative(ratios[..k])
    {
      if ratios[k] < 0.0 {
        return;
      }
      assert ratios[..k + 1] == ratios[..k] + [ratios[k]];
      k := k + 1;
    }
  }

  /** Cut the raw parts, sum them in a loop, and put what is missing on the first. */
  method AllocateScaled(amount: int, scaled: seq<nat>, total: nat) returns (parts: seq<int>)
    requires scaled != [] && total > 0
    ensures parts == Parts(amount, scaled, total)
  {
    parts := RawParts(amount, scaled, total);
    var partsSum := 0;
    var j := 0;
    while j < |parts|
      invariant 0 <= j <= |parts|
      invariant partsSum == Sum(parts[..j])
    {
      SumOneMore(parts, j);
      partsSum := partsSum + parts[j];
      j := j + 1;
    }
    assert parts[..j] == parts;
    var residual := amount - partsSum;
    NoResidual(parts);
    if residual != 0 {
      parts := parts[0 := parts[0] + residual];
    }
  }

  lemma {:induction false} SumOneMore(s: seq<int>, j: nat)
    requires j < |s|
    ensures Sum(s[..j + 1]) == Sum(s[..j]) + s[j]
  {
    assert s[..j + 1][..j] == s[..j];
  }

  lemma {:induction false} NoResidual(s: seq<int>)
    requires s != []
    ensures s[0 := s[0] + 0] == s
  {
  }

  method Allocate(amount: int, ratios: seq<real>) returns (r: Result<seq<int>>)
    ensures r == Err(EmptyRatios) <==> ratios == []
    ensures r.Err? && r.reason.NegativeRatio? <==> exists i :: 0 <= i < |ratios| && ratios[i] < 0.0
    ensures r.Err? && r.reason.NegativeRatio? ==>
      var k := r.reason.index; k < |ratios| && ratios[k] < 0.0 && NonNegative(ratios[..k])
    ensures ratios != [] && NonNegative(ratios) ==>
      if SumReal(ratios) == 0.0 then r == Err(ZeroTotal)
      else SumReal(ratios) > 0.0 &&
           if Scaled(SumReal(ratios)) == 0 then r == Err(DivisionByZero)
           else r == Ok(Parts(amount, ScaledAll(ratios), Scaled(SumReal(ratios))))
  {
    if ratios == [] {
      return Err(EmptyRatios);
    }
    var k := FirstNegative(ratios);
    if k < |ratios| {
      return Err(NegativeRatio(k));
    }
    assert ratios[..|ratios|] == ratios;
    SumRealNonNegative(ratios);
    var sum := SumReal(ratios);
    if sum == 0.0 {
      return Err(ZeroTotal);
    }
    var total := Scaled(sum);
    if total == 0 {
      return Err(DivisionByZero);
    }
    var parts := AllocateScaled(amount, ScaledAll(ratios), total);
    return Ok(parts);
  }

  // ---------------------------------------------------------------- what the parts promise

  /** The parts add up to the amount exactly, for every amount, ratios and total. */
  lemma {:induction false} SumsExactly(amount: int, scaled: seq<nat>, total: nat)
    requires scaled != [] && total > 0
    ensures Sum(Parts(amount, scaled, total)) == amount
  {
    var raw := RawParts(amount, scaled, total);
    SumUpdate(raw, 0, raw[0] + Residual(amount, scaled, total));
  }

  lemma {:induction false} DivisionFacts(x: nat, d: nat)
    requires d > 0
    ensures (x / d) * d <= x < (x / d) * d + d
  {
  }

  /** Every part but the first is its exact share truncated toward zero, with the amount's sign. */
  lemma {:induction false} OthersTruncated(amount: int, scaled: seq<nat>, total: nat, i: nat)
    requires total > 0 && 1 <= i < |scaled|
    ensures var part := Parts(amount, scaled, total)[i];
      && Abs(part) * total <= Abs(amount) * scaled[i] < Abs(part) * total + total
      && (amount >= 0 ==> part >= 0) && (amount <= 0 ==> part <= 0)
  {
    OtherPart(amount, scaled, total, i);
    DivisionFacts(Abs(amount) * scaled[i], total);
    ShareOfNothing(scaled[i], total);
    SignedShare(amount, Share(Abs(amount), scaled[i], total));
  }

  lemma {:induction false} SignedShare(amount: int, q: nat)
    requires amount == 0 ==> q == 0
    ensures var part := Signed(amount < 0, q);
      Abs(part) == q && (amount >= 0 ==> part >= 0) && (amount <= 0 ==> part <= 0)
  {
  }

  lemma {:induction false} Quotient(x: int, d: int)
    requires d > 0
    ensures (x / d) * d <= x < (x / d) * d + d
    ensures x % d == 0 <==> (x / d) * d == x
  {
  }

  lemma {:induction false} ProductOfSum(a: int, b: int, d: int)
    ensures (a + b) * d == a * d + b * d
  {
  }

  lemma {:induction false} SmallMultiple(k: int, d: int)
    requires d > 0 && -d < k * d <= 0
    ensures k == 0
  {
    if k < 0 {
      NextBelow(k, d);
    }
  }

  lemma {:induction false} NextBelow(k: int, d: int)
    requires k <= -1 && d > 0
    ensures k * d <= -d
  {
  }

  lemma {:induction false} FloorOfNegative(x: int, d: int)
    requires d > 0
    ensures (-x) / d == -(x / d) <==> x % d == 0
  {
    Quotient(x, d);
    Quotient(-x, d);
    NegativeQuotient(x, d, x / d, (-x) / d);
  }

  lemma {:induction false} NegativeQuotient(x: int, d: int, a: int, b: int)
    requires d > 0 && a * d <= x < a * d + d && b * d <= -x < b * d + d
    ensures b == -a <==> a * d == x
  {
    ProductOfSum(a, b, d);
    if a * d == x {
      SmallMultiple(a + b, d);
    }
  }

  /** A part after the first is its exact share rounded down if and only if the amount is not negative or the
      share is whole. */
  lemma {:induction false} FloorExactly(amount: int, scaled: seq<nat>, total: nat, i: nat)
    requires total > 0 && 1 <= i < |scaled|
    ensures Parts(amount, scaled, total)[i] == amount * scaled[i] / total <==>
      amount >= 0 || Abs(amount) * scaled[i] % total == 0
  {
    OtherPart(amount, scaled, total, i);
    if amount < 0 {
      var x := Abs(amount) * scaled[i];
      assert amount * scaled[i] == -x;
      FloorOfNegative(x, total);
    }
  }

  const UNIT: nat := 1000000000000000000

  /** Half of -3 is -2 rounded down; with ratios 1 and 1 the second part is -1. */
  lemma {:induction false} HalvesTruncate()
    ensures ScaledAll([1.0, 1.0]) == [UNIT, UNIT] && SumReal([1.0, 1.0]) == 2.0 && Scaled(2.0) == 2 * UNIT
    ensures Parts(-3, [UNIT, UNIT], 2 * UNIT)[1] == -1 && -3 * UNIT / (2 * UNIT) == -2
  {
    EqualHalvesScale();
    OtherPart(-3, [UNIT, UNIT], 2 * UNIT, 1);
  }

  lemma {:induction false} EqualHalvesScale()
    ensures ScaledAll([1.0, 1.0]) == [UNIT, UNIT] && SumReal([1.0, 1.0]) == 2.0 && Scaled(2.0) == 2 * UNIT
  {
    assert Scaled(1.0) == UNIT;
    AllScaleTo([1.0, 1.0], UNIT);
    SumAppend([], 1.0);
    SumAppend([1.0], 1.0);
    assert [] + [1.0] == [1.0] && [1.0] + [1.0] == [1.0, 1.0];
  }

  /** total times the shares' sum misses magnitude times the ratios' sum by at most total - 1 per share. */
  lemma {:induction false} SharesBound(magnitude: nat, scaled: seq<nat>, total: nat)
    requires total > 0
    ensures Sum(Shares(magnitude, scaled, total)) * total <= magnitude * Sum(scaled)
    ensures magnitude * Sum(scaled) <= Sum(Shares(magnitude, scaled, total)) * total + |scaled| * (total - 1)
    ensures Sum(Shares(magnitude, scaled, total)) >= 0
  {
    if scaled != [] {
      var n := |scaled| - 1;
      SharesBound(magnitude, scaled[..n], total);
      var rest, last := Sum(Shares(magnitude, scaled[..n], total)), Share(magnitude, scaled[n], total);
      assert Shares(magnitude, scaled, total)[..n] == Shares(magnitude, scaled[..n], total);
      DivisionFacts(magnitude * scaled[n], total);
      BoundStep(magnitude, Sum(scaled[..n]), scaled[n], rest, last, n, total);
    }
  }

  lemma {:induction false} BoundStep(m: int, sum: int, s: int, rest: int, last: int, n: int, total: int)
    requires rest * total <= m * sum <= rest * total + n * (total - 1)
    requires last * total <= m * s <= last * total + (total - 1)
    ensures (rest + last) * total <= m * (sum + s) <= (rest + last) * total + (n + 1) * (total - 1)
  {
    assert (rest + last) * total == rest * total + last * total;
    assert m * (sum + s) == m * sum + m * s;
    assert (n + 1) * (total - 1) == n * (total - 1) + (total - 1);
  }

  lemma {:induction false} SumNegated(s: seq<int>)
    ensures Sum(Negated(s)) == -Sum(s)
  {
    if s != [] {
      var n := |s| - 1;
      SumNegated(s[..n]);
      assert Negated(s)[..n] == Negated(s[..n]);
    }
  }

  lemma {:induction false} CancelPositive(a: int, b: int, c: int)
    requires c > 0 && a * c <= b * c
    ensures a <= b
  {
  }

  lemma {:induction false} CancelStrict(a: int, b: int, c: int)
    requires c > 0 && a * c < b * c
    ensures a < b
  {
  }

  lemma {:induction false} CancelExact(a: nat, c: nat)
    requires c > 0
    ensures c * a / c == a
  {
    DivisionFacts(c * a, c);
    CancelPositive(c * a / c, a, c);
    CancelStrict(a, c * a / c + 1, c);
  }

  /** When the scaled total is the sum of the scaled ratios, the residual carries the amount's sign and is smaller
      than the number of parts. */
  lemma {:induction false} ResidualSmall(amount: int, scaled: seq<nat>, total: nat)
    requires scaled != [] && total > 0 && Sum(scaled) == total
    ensures amount >= 0 ==> 0 <= Residual(amount, scaled, total) <= |scaled| - 1
    ensures amount <= 0 ==> -(|scaled| - 1) <= Residual(amount, scaled, total) <= 0
  {
    var m := Abs(amount);
    var shares := Shares(m, scaled, total);
    var n := |scaled|;
    SharesBound(m, scaled, total);
    CancelPositive(Sum(shares), m, total);
    ResidualRange(m, Sum(shares), n, total);
    SumNegated(shares);
  }

  lemma {:induction false} ResidualRange(m: int, sum: int, n: int, total: int)
    requires total > 0 && n >= 1 && m * total <= sum * total + n * (total - 1)
    ensures m - sum <= n - 1
  {
    assert (m - sum) * total == m * total - sum * total;
    assert n * (total - 1) == n * total - n;
    CancelStrict(m - sum, n, total);
  }

  ghost predicate OppositeSign(amount: int, part: int)
  {
    (amount >= 0 && part < 0) || (amount <= 0 && part > 0)
  }

  lemma {:induction false} RawTail(amount: int, scaled: seq<nat>, total: nat)
    requires scaled != [] && total > 0
    ensures RawParts(amount, scaled, total)[1..] == RawParts(amount, scaled[1..], total)
  {
    SharesTail(Abs(amount), scaled, total);
    NegatedTail(Shares(Abs(amount), scaled, total));
  }

  lemma {:induction false} NegatedTail(s: seq<int>)
    requires s != []
    ensures Negated(s)[1..] == Negated(s[1..])
  {
  }

  lemma {:induction false} RawSum(amount: int, scaled: seq<nat>, total: nat)
    requires total > 0
    ensures Sum(RawParts(amount, scaled, total)) == Signed(amount < 0, Sum(Shares(Abs(amount), scaled, total)))
  {
    SumNegated(Shares(Abs(amount), scaled, total));
  }

  lemma {:induction false} FirstPart(amount: int, scaled: seq<nat>, total: nat)
    requires scaled != [] && total > 0
    ensures Parts(amount, scaled, total)[0] ==
      Signed(amount < 0, Abs(amount) - Sum(Shares(Abs(amount), scaled[1..], total)))
  {
    SumFirst(RawParts(amount, scaled, total));
    RawTail(amount, scaled, total);
    RawSum(amount, scaled[1..], total);
  }

  lemma {:induction false} SharesOfTotal(scaled: seq<nat>, total: nat)
    requires total > 0
    ensures Sum(Shares(total, scaled, total)) == Sum(scaled)
  {
    if scaled != [] {
      var n := |scaled| - 1;
      SharesOfTotal(scaled[..n], total);
      assert Shares(total, scaled, total)[..n] == Shares(total, scaled[..n], total);
      CancelExact(scaled[n], total);
    }
  }

  /** No part ever takes the opposite sign of the amount, whatever the amount, exactly when the scaled ratios
      after the first fit in the scaled total. */
  lemma {:induction false} NoOppositeSignExactly(scaled: seq<nat>, total: nat)
    requires scaled != [] && total > 0
    ensures (forall amount: int, i: nat :: i < |scaled| ==> !OppositeSign(amount, Parts(amount, scaled, total)[i]))
      <==> Sum(scaled[1..]) <= total
  {
    if Sum(scaled[1..]) <= total {
      forall amount: int, i: nat | i < |scaled|
        ensures !OppositeSign(amount, Parts(amount, scaled, total)[i])
      {
        if i >= 1 {
          OthersTruncated(amount, scaled, total, i);
        } else {
          FirstKeepsSign(amount, scaled, total);
        }
      }
    } else {
      FirstTurns(scaled, total);
    }
  }

  lemma {:induction false} FirstKeepsSign(amount: int, scaled: seq<nat>, total: nat)
    requires scaled != [] && total > 0 && Sum(scaled[1..]) <= total
    ensures !OppositeSign(amount, Parts(amount, scaled, total)[0])
  {
    FirstIsLead(amount, scaled, total, Abs(amount));
    SharesBound(Abs(amount), scaled[1..], total);
    TailFits(Abs(amount), Sum(scaled[1..]), Sum(Shares(Abs(amount), scaled[1..], total)), total);
  }

  lemma {:induction false} FirstTurns(scaled: seq<nat>, total: nat)
    requires scaled != [] && total > 0 && Sum(scaled[1..]) > total
    ensures OppositeSign(total, Parts(total, scaled, total)[0])
  {
    FirstPart(total, scaled, total);
    SharesOfTotal(scaled[1..], total);
  }

  lemma {:induction false} TailFits(m: nat, tail: int, sum: int, total: nat)
    requires total > 0 && tail <= total && sum * total <= m * tail
    ensures sum <= m
  {
    assert m * tail <= m * total;
    CancelPositive(sum, m, total);
  }

  lemma {:induction false} OtherPart(amount: int, scaled: seq<nat>, total: nat, i: nat)
    requires total > 0 && 1 <= i < |scaled|
    ensures Parts(amount, scaled, total)[i] == Signed(amount < 0, Share(Abs(amount), scaled[i], total))
  {
    SharesAt(Abs(amount), scaled, total, i);
  }

  lemma {:induction false} ShareOfNothing(s: nat, total: nat)
    requires total > 0
    ensures Share(0, s, total) == 0
  {
    assert 0 * s == 0;
  }

  lemma {:induction false} SignedFlips(amount: int, v: int)
    requires amount == 0 ==> v == 0
    ensures Signed(-amount < 0, v) == -Signed(amount < 0, v)
  {
  }

  /** The magnitude left for the first part. */
  function Lead(magnitude: nat, scaled: seq<nat>, total: nat): int
    requires total > 0 && scaled != []
  {
    magnitude - Sum(Shares(magnitude, scaled[1..], total))
  }

  lemma {:induction false} FirstIsLead(amount: int, scaled: seq<nat>, total: nat, m: nat)
    requires total > 0 && scaled != [] && m == Abs(amount)
    ensures Parts(amount, scaled, total)[0] == Signed(amount < 0, Lead(m, scaled, total))
    ensures m == 0 ==> Lead(m, scaled, total) == 0
  {
    FirstPart(amount, scaled, total);
    ZeroAmount(scaled[1..], total);
  }

  lemma {:induction false} NegatedFirst(amount: int, scaled: seq<nat>, total: nat)
    requires total > 0 && scaled != []
    ensures Parts(-amount, scaled, total)[0] == -Parts(amount, scaled, total)[0]
  {
    var m := Abs(amount);
    FirstIsLead(amount, scaled, total, m);
    FirstIsLead(-amount, scaled, total, m);
    var lead := Lead(m, scaled, total);
    SignedFlips(amount, lead);
  }

  lemma {:induction false} NegatedOther(amount: int, scaled: seq<nat>, total: nat, i: nat)
    requires total > 0 && 1 <= i < |scaled|
    ensures Parts(-amount, scaled, total)[i] == -Parts(amount, scaled, total)[i]
  {
    var q := Share(Abs(amount), scaled[i], total);
    ShareOfNothing(scaled[i], total);
    SignedFlips(amount, q);
    OtherPart(amount, scaled, total, i);
    OtherPart(-amount, scaled, total, i);
  }

  /** Allocating the negated amount negates every part. */
  lemma {:induction false} NegationCommutes(amount: int, scaled: seq<nat>, total: nat)
    requires scaled != [] && total > 0
    ensures Parts(-amount, scaled, total) == Negated(Parts(amount, scaled, total))
  {
    var parts, negated := Parts(amount, scaled, total), Parts(-amount, scaled, total);
    forall i | 0 <= i < |parts|
      ensures negated[i] == -parts[i]
    {
      NegatedAt(amount, scaled, total, i);
    }
    SameAsNegated(negated, parts);
  }

  lemma {:induction false} NegatedAt(amount: int, scaled: seq<nat>, total: nat, i: nat)
    requires total > 0 && i < |scaled|
    ensures Parts(-amount, scaled, total)[i] == -Parts(amount, scaled, total)[i]
  {
    if i == 0 {
      NegatedFirst(amount, scaled, total);
    } else {
      NegatedOther(amount, scaled, total, i);
    }
  }

  lemma {:induction false} SameAsNegated(a: seq<int>, b: seq<int>)
    requires |a| == |b| && forall i :: 0 <= i < |b| ==> a[i] == -b[i]
    ensures a == Negated(b)
  {
  }

  lemma {:induction false} ZeroAmount(scaled: seq<nat>, total: nat)
    requires total > 0
    ensures Sum(Shares(0, scaled, total)) == 0
  {
    SharesBound(0, scaled, total);
    CancelPositive(Sum(Shares(0, scaled, total)), 0, total);
  }

  const HALF_UNIT: real := 0.5 / SCALE

  const TINY: seq<real> := [HALF_UNIT, HALF_UNIT, HALF_UNIT, HALF_UNIT]

  lemma {:induction false} HalfRounds(r: real)
    requires r >= 0.0 && r * SCALE == 0.5
    ensures Scaled(r) == 1 && Scaled(4.0 * r) == 2
  {
  }

  lemma {:induction false} ScaledAt(ratios: seq<real>, i: nat)
    requires NonNegative(ratios) && i < |ratios|
    ensures ScaledAll(ratios)[i] == Scaled(ratios[i])
  {
    if i < |ratios| - 1 {
      ScaledAt(ratios[..|ratios| - 1], i);
    }
  }

  lemma {:induction false} AllScaleTo(ratios: seq<real>, k: nat)
    requires forall i :: 0 <= i < |ratios| ==> ratios[i] >= 0.0 && Scaled(ratios[i]) == k
    ensures forall i :: 0 <= i < |ratios| ==> ScaledAll(ratios)[i] == k
  {
    forall i | 0 <= i < |ratios|
      ensures ScaledAll(ratios)[i] == k
    {
      ScaledAt(ratios, i);
    }
  }

  lemma {:induction false} SumAppend(ratios: seq<real>, r: real)
    ensures SumReal(ratios + [r]) == SumReal(ratios) + r
  {
    assert (ratios + [r])[..|ratios|] == ratios;
  }

  lemma {:induction false} SumOfFour(r: real)
    ensures SumReal([r, r, r, r]) == r + r + r + r
  {
    SumAppend([], r);
    SumAppend([r], r);
    SumAppend([r, r], r);
    SumAppend([r, r, r], r);
    assert [] + [r] == [r] && [r] + [r] == [r, r] && [r, r] + [r] == [r, r, r] && [r, r, r] + [r] == [r, r, r, r];
  }

  lemma {:induction false} HalfUnitsScale()
    ensures NonNegative(TINY) && ScaledAll(TINY) == [1, 1, 1, 1]
    ensures SumReal(TINY) == 4.0 * HALF_UNIT && Scaled(4.0 * HALF_UNIT) == 2
  {
    HalfRounds(HALF_UNIT);
    AllScaleTo(TINY, 1);
    SumOfFour(HALF_UNIT);
  }

  /** Four equal ratios of half a scale unit each round up to one unit, while their sum is two units: the first
      part of 2 comes out as -1. */
  lemma {:induction false} TinyRatiosTurnNegative()
    ensures NonNegative(TINY) && ScaledAll(TINY) == [1, 1, 1, 1]
    ensures SumReal(TINY) == 4.0 * HALF_UNIT && Scaled(4.0 * HALF_UNIT) == 2
    ensures Parts(2, [1, 1, 1, 1], 2)[0] == -1
  {
    HalfUnitsScale();
    FirstPart(2, [1, 1, 1, 1], 2);
    SharesOfTotal([1, 1, 1], 2);
    assert [1, 1, 1, 1][1..] == [1, 1, 1] && [1, 1, 1][..2] == [1, 1] && [1, 1][..1] == [1] && [1][..0] == [];
    assert Sum([1]) == 1 && Sum([1, 1]) == 2 && Sum([1, 1, 1]) == 3;
  }
}
