/** Load-dependent node weights and the weighted draw, in exact arithmetic. */
module AutoScaler {
  import opened Wrappers

  datatype Node = Node(id: string, base: real, load: nat, capacity: real)

  function Utilization(load: nat, capacity: real): real
    requires capacity > 0.0
  {
    if load as real / capacity < 1.0 then load as real / capacity else 1.0
  }

  function AtLeastOne(w: int): int
  {
    if w > 1 then w else 1
  }

  /** The weight by utilization band, from the three products the bands use. */
  function ByBand(u: real, high: real, low: real, middle: real): int
  {
    if u >= 0.8 then AtLeastOne(high.Floor)
    else if u <= 0.3 then low.Floor
    else AtLeastOne(middle.Floor)
  }

  function ScaledWeight(base: real, u: real, scaleFactor: real): int
  {
    ByBand(u, base * 0.2, base * 1.5, base * scaleFactor)
  }

  function BandWeight(base: real, u: real): int
  {
    ScaledWeight(base, u, 1.0 - u)
  }

  function DynamicWeight(base: real, load: nat, capacity: real): int
    requires capacity > 0.0
  {
    BandWeight(base, Utilization(load, capacity))
  }

  lemma {:induction false} UtilizationMonotone(l1: nat, l2: nat, capacity: real)
    requires capacity > 0.0 && l1 <= l2
    ensures 0.0 <= Utilization(l1, capacity) <= Utilization(l2, capacity) <= 1.0
  {
    var a, b := l1 as real, l2 as real;
    assert a / capacity <= b / capacity;
  }

  lemma {:induction false} ScaleDown(base: real, x: real, y: real)
    requires base >= 0.0 && x <= y
    ensures base * x <= base * y
  {
  }

  lemma {:induction false} FloorMonotone(x: real, y: real)
    requires x <= y
    ensures x.Floor <= y.Floor
  {
  }

  /** How the products of two utilizations u <= v stand to each other. */
  ghost predicate ProductsOrdered(u: real, v: real, high: real, low: real, middle: real, middle': real)
  {
    && u <= v && 1.0 <= low && high <= low && middle' <= middle
    && (u < 0.8 ==> high <= middle)
    && (v > 0.3 ==> middle' <= low)
  }

  lemma {:induction false} ByBandDescends(u: real, v: real, high: real, low: real, middle: real, middle': real)
    requires ProductsOrdered(u, v, high, low, middle, middle')
    ensures ByBand(u, high, low, middle) >= ByBand(v, high, low, middle') >= 1
  {
    FloorMonotone(1.0, low);
    FloorMonotone(high, low);
    FloorMonotone(middle', middle);
    if u < 0.8 {
      FloorMonotone(high, middle);
    }
    if v > 0.3 {
      FloorMonotone(middle', low);
    }
  }

  lemma {:induction false} AtLeastHigh(base: real, x: real)
    requires base >= 0.0
    ensures x >= 0.2 ==> base * 0.2 <= base * x
  {
    if x >= 0.2 {
      ScaleDown(base, 0.2, x);
    }
  }

  lemma {:induction false} AtMostLow(base: real, y: real)
    requires base >= 0.0
    ensures y <= 1.5 ==> base * y <= base * 1.5
  {
    if y <= 1.5 {
      ScaleDown(base, y, 1.5);
    }
  }

  lemma {:induction false} OrderProducts(base: real, u: real, v: real, x: real, y: real)
    requires base >= 2.0 / 3.0 && u <= v && y <= x
    requires u < 0.8 ==> x >= 0.2
    requires v > 0.3 ==> y <= 1.5
    ensures ProductsOrdered(u, v, base * 0.2, base * 1.5, base * x, base * y)
  {
    ScaleDown(base, y, x);
    AtLeastHigh(base, x);
    AtMostLow(base, y);
  }

  lemma {:induction false} ScaledDescends(base: real, u: real, v: real, x: real, y: real)
    requires ProductsOrdered(u, v, base * 0.2, base * 1.5, base * x, base * y)
    ensures ScaledWeight(base, u, x) >= ScaledWeight(base, v, y) >= 1
  {
    ByBandDescends(u, v, base * 0.2, base * 1.5, base * x, base * y);
  }

  lemma {:induction false} BandsDescend(base: real, u: real, v: real)
    requires base >= 2.0 / 3.0 && u <= v
    ensures BandWeight(base, u) >= BandWeight(base, v) >= 1
  {
    OrderProducts(base, u, v, 1.0 - u, 1.0 - v);
    ScaledDescends(base, u, v, 1.0 - u, 1.0 - v);
  }

  /** The integer part of x, or one if that is less. */
  ghost predicate WholeAtLeastOne(w: int, x: real)
  {
    if x < 2.0 then w == 1 else w as real <= x < w as real + 1.0
  }

  /** The weight in terms of the load: half as much again up to three tenths of the capacity, a fifth from eight
      tenths on, and in between the base in proportion to the capacity left; whole, and from three tenths on at
      least one. */
  lemma {:induction false} WeightByLoad(base: real, load: nat, capacity: real)
    requires capacity > 0.0
    ensures var w, l := DynamicWeight(base, load, capacity), load as real;
      if l <= 0.3 * capacity then w as real <= base * 1.5 < w as real + 1.0
      else if l >= 0.8 * capacity then WholeAtLeastOne(w, base * 0.2)
      else WholeAtLeastOne(w, base * (1.0 - l / capacity))
  {
    BandsByLoad(load, capacity);
    WeightByBand(base, Utilization(load, capacity));
  }

  lemma {:induction false} WeightByBand(base: real, u: real)
    ensures var w := BandWeight(base, u);
      if u <= 0.3 then w as real <= base * 1.5 < w as real + 1.0
      else if u >= 0.8 then WholeAtLeastOne(w, base * 0.2)
      else WholeAtLeastOne(w, base * (1.0 - u))
  {
    AtLeastOneIs(base * 0.2);
    AtLeastOneIs(base * (1.0 - u));
  }

  lemma {:induction false} BandsByLoad(load: nat, capacity: real)
    requires capacity > 0.0
    ensures var u, l := Utilization(load, capacity), load as real;
      && (u <= 0.3 <==> l <= 0.3 * capacity)
      && (u >= 0.8 <==> l >= 0.8 * capacity)
      && (u < 0.8 ==> u == l / capacity)
  {
    var l := load as real;
    var q := Ratio(l, capacity);
    ThresholdOf(q, l, 0.3, capacity);
    ThresholdOf(q, l, 0.8, capacity);
  }

  lemma {:induction false} Ratio(l: real, capacity: real) returns (q: real)
    requires capacity > 0.0
    ensures q == l / capacity && RatioOf(q, l, capacity)
  {
    q := l / capacity;
  }

  ghost predicate RatioOf(q: real, l: real, capacity: real)
  {
    q * capacity == l
  }

  lemma {:induction false} ThresholdOf(q: real, l: real, s: real, capacity: real)
    requires capacity > 0.0 && RatioOf(q, l, capacity)
    ensures q < s <==> l < s * capacity
    ensures q <= s <==> l <= s * capacity
  {
    Threshold(q, s, capacity);
  }

  lemma {:induction false} Threshold(u: real, q: real, capacity: real)
    requires capacity > 0.0
    ensures u < q <==> u * capacity < q * capacity
    ensures u <= q <==> u * capacity <= q * capacity
  {
    if u < q {
      Strictly(u, q, capacity);
    } else if q < u {
      Strictly(q, u, capacity);
    }
  }

  lemma {:induction false} Strictly(x: real, y: real, capacity: real)
    requires capacity > 0.0 && x < y
    ensures x * capacity < y * capacity
  {
    assert (y - x) * capacity > 0.0;
  }

  lemma {:induction false} AtLeastOneIs(x: real)
    ensures WholeAtLeastOne(AtLeastOne(x.Floor), x)
  {
  }

  /** More load never means more weight, across all three bands. */
  ghost predicate NeverRises(base: real)
  {
    forall l1: nat, l2: nat, capacity: real :: capacity > 0.0 && l1 <= l2 ==>
      DynamicWeight(base, l1, capacity) >= DynamicWeight(base, l2, capacity)
  }

  ghost predicate AlwaysPositive(base: real)
  {
    forall load: nat, capacity: real :: capacity > 0.0 ==> DynamicWeight(base, load, capacity) >= 1
  }

  /** A base weight of one half: an idle node gets no weight at all, a full one gets one. */
  lemma {:induction false} HalfWeightRises()
    ensures DynamicWeight(0.5, 0, 1.0) == 0 && DynamicWeight(0.5, 1, 1.0) == 1
  {
    assert Utilization(0, 1.0) == 0.0 && Utilization(1, 1.0) == 1.0;
    assert (0.5 * 1.5).Floor == 0;
    assert (0.5 * 0.2).Floor == 0;
  }

  /** A node's weight never rises with its load, and is at least one, exactly when its base weight is at least two
      thirds. */
  lemma {:induction false} WeightExact(base: real)
    ensures NeverRises(base) <==> base >= 2.0 / 3.0
    ensures AlwaysPositive(base) <==> base >= 2.0 / 3.0
  {
    if base >= 2.0 / 3.0 {
      forall l1: nat, l2: nat, capacity: real | capacity > 0.0 && l1 <= l2
        ensures DynamicWeight(base, l1, capacity) >= DynamicWeight(base, l2, capacity) >= 1
      {
        UtilizationMonotone(l1, l2, capacity);
        BandsDescend(base, Utilization(l1, capacity), Utilization(l2, capacity));
      }
      forall load: nat, capacity: real | capacity > 0.0
        ensures DynamicWeight(base, load, capacity) >= 1
      {
        assert DynamicWeight(base, load, capacity) >= DynamicWeight(base, load, capacity) >= 1;
      }
    } else {
      assert base * 1.5 < 1.0;
      assert (base * 1.5).Floor < 1;
      assert Utilization(0, 1.0) == 0.0 && Utilization(1, 1.0) == 1.0;
      assert DynamicWeight(base, 0, 1.0) < 1 <= DynamicWeight(base, 1, 1.0);
    }
  }

  // ---------------------------------------------------------------- the draw

  /** Sum of the first k weights. */
  function Prefix(weights: seq<int>, k: nat): int
    requires k <= |weights|
  {
    if k == 0 then 0 else Prefix(weights, k - 1) + weights[k - 1]
  }

  /** The draw values that select node k: its own stretch of the line, as long as its weight. */
  predicate InStretch(weights: seq<int>, k: nat, x: real)
    requires k < |weights|
  {
    (k == 0 || Prefix(weights, k) as real < x) && x <= Prefix(weights, k + 1) as real
  }

  /** Where the selection loop stops: no earlier cumulative weight reaches the draw, and this one does unless it
      is the last. */
  ghost predicate StopsAt(weights: seq<int>, x: real, k: nat)
  {
    && k < |weights|
    && (forall j: nat :: 1 <= j <= k ==> x > Prefix(weights, j) as real)
    && (x <= Prefix(weights, k + 1) as real || k == |weights| - 1)
  }

  method Draw(weights: seq<int>, x: real) returns (k: nat)
    requires |weights| >= 1
    ensures StopsAt(weights, x, k)
  {
    var cumulative := 0;
    var i := 0;
    while i < |weights|
      invariant 0 <= i <= |weights|
      invariant cumulative == Prefix(weights, i)
      invariant forall j: nat :: 1 <= j <= i ==> x > Prefix(weights, j) as real
    {
      cumulative := cumulative + weights[i];
      if x <= cumulative as real {
        return i;
      }
      i := i + 1;
    }
    return |weights| - 1;
  }

  function Weights(nodes: seq<Node>): (r: seq<int>)
    requires forall i :: 0 <= i < |nodes| ==> nodes[i].capacity > 0.0
    ensures |r| == |nodes| && forall i :: 0 <= i < |nodes| ==>
      r[i] == DynamicWeight(nodes[i].base, nodes[i].load, nodes[i].capacity)
  {
    if nodes == [] then []
    else
      var n := nodes[|nodes| - 1];
      Weights(nodes[..|nodes| - 1]) + [DynamicWeight(n.base, n.load, n.capacity)]
  }

  lemma {:induction false} PrefixGrows(weights: seq<int>, j: nat, k: nat)
    requires j <= k <= |weights| && forall i :: 0 <= i < |weights| ==> weights[i] >= 1
    ensures Prefix(weights, j) <= Prefix(weights, k)
    decreases k - j
  {
    if j < k {
      PrefixGrows(weights, j, k - 1);
    }
  }

  /** Node k and no other owns the stretch that holds the draw. */
  ghost predicate OwnsDraw(weights: seq<int>, x: real, k: nat)
  {
    k < |weights| && forall i: nat :: i < |weights| ==> (InStretch(weights, i, x) <==> i == k)
  }

  /** selectNode: x stands for Math.random() * totalWeight, None for null on an empty list. For two or more
      nodes with base weights of at least two thirds, the selected node is the one whose stretch holds the draw. */
  method SelectNode(nodes: seq<Node>, x: real) returns (k: Option<nat>)
    requires forall i :: 0 <= i < |nodes| ==> nodes[i].capacity > 0.0
    requires var total := Prefix(Weights(nodes), |nodes|); total > 0 ==> 0.0 <= x < total as real
    ensures k.None? <==> nodes == []
    ensures k.Some? ==> k.value < |nodes|
    ensures |nodes| >= 2 && (forall i :: 0 <= i < |nodes| ==> nodes[i].base >= 2.0 / 3.0) ==>
      OwnsDraw(Weights(nodes), x, k.value)
  {
    if nodes == [] {
      return None;
    }
    if |nodes| == 1 {
      return Some(0);
    }
    var weights := Weights(nodes);
    TotalPositive(nodes);
    if Prefix(weights, |weights|) == 0 {
      return Some(0);
    }
    var pick := Draw(weights, x);
    if forall i :: 0 <= i < |nodes| ==> nodes[i].base >= 2.0 / 3.0 {
      StretchesPartition(weights, x, pick);
    }
    return Some(pick);
  }

  lemma {:induction false} TotalPositive(nodes: seq<Node>)
    requires |nodes| >= 1 && forall i :: 0 <= i < |nodes| ==> nodes[i].capacity > 0.0
    ensures (forall i :: 0 <= i < |nodes| ==> nodes[i].base >= 2.0 / 3.0) ==>
      (forall i :: 0 <= i < |nodes| ==> Weights(nodes)[i] >= 1) && Prefix(Weights(nodes), |nodes|) >= 1
  {
    var weights := Weights(nodes);
    if forall i :: 0 <= i < |nodes| ==> nodes[i].base >= 2.0 / 3.0 {
      forall i | 0 <= i < |nodes|
        ensures weights[i] >= 1
      {
        WeightExact(nodes[i].base);
      }
      PrefixGrows(weights, 1, |nodes|);
      assert Prefix(weights, 1) == Prefix(weights, 0) + weights[0];
    }
  }

  /** A draw below the total never falls past the last stretch, so the loop's fallback is never what selects; and
      stretches do not overlap. */
  lemma {:induction false} StretchesPartition(weights: seq<int>, x: real, k: nat)
    requires (forall i :: 0 <= i < |weights| ==> weights[i] >= 1) && StopsAt(weights, x, k)
    requires 0.0 <= x < Prefix(weights, |weights|) as real
    ensures OwnsDraw(weights, x, k)
    ensures x <= Prefix(weights, k + 1) as real
  {
    forall i: nat | i < |weights|
      ensures InStretch(weights, i, x) <==> i == k
    {
      if i > k {
        PrefixGrows(weights, k + 1, i);
      } else if i < k {
        assert x > Prefix(weights, i + 1) as real;
      }
    }
  }
}
