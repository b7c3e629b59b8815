/**
 Weighted sales velocity (apps/catalog/services.py): a linear ramp from weight 0.5 on the oldest
 month to 1.5 on the newest.
 */
module Velocity {
  import opened RealFacts
  import opened Sums

  function Weight(n: nat, i: nat): real
    requires i < n
  {
    0.5 + i as real / (if n - 1 > 1 then n - 1 else 1) as real
  }

  /** The first k weights of a history of n months. */
  function Weights(n: nat, k: nat): (w: seq<real>)
    requires k <= n
    ensures |w| == k
  {
    seq(k, i requires 0 <= i < k => Weight(n, i))
  }

  /** Sum of sale times weight over the zipped series. */
  function Dot(sales: seq<real>, weights: seq<real>): real
    requires |sales| == |weights|
  {
    if sales == [] then 0.0
    else
      var k := |sales| - 1;
      Dot(sales[..k], weights[..k]) + sales[k] * weights[k]
  }

  function WeightedVelocity(sales: seq<real>): real {
    if sales == [] then 0.0
    else
      var weights := Weights(|sales|, |sales|);
      var total := Sum(weights);
      if total == 0.0 then 0.0 else Dot(sales, weights) / total
  }

  function Mean(sales: seq<real>): real
    requires sales != []
  {
    Sum(sales) / |sales| as real
  }

  // ----- the weights

  /** 0 + 1 + ... + (k - 1). */
  function Triangle(k: nat): nat {
    if k == 0 then 0 else Triangle(k - 1) + k - 1
  }

  lemma {:induction false} TriangleClosed(k: nat)
    ensures 2 * Triangle(k) == k * (k - 1)
  {
    if k > 0 {
      TriangleClosed(k - 1);
    }
  }

  lemma {:induction false} WeightPrefixTotal(n: nat, k: nat)
    requires 2 <= n && k <= n
    ensures Sum(Weights(n, k)) == 0.5 * k as real + Triangle(k) as real / (n - 1) as real
  {
    if k > 0 {
      WeightPrefixTotal(n, k - 1);
      assert Weights(n, k)[..k - 1] == Weights(n, k - 1);
      AddQuotients(Triangle(k - 1) as real, (k - 1) as real, (n - 1) as real);
    }
  }

  lemma HalfTriangle(n: nat)
    requires 2 <= n
    ensures Triangle(n) as real / (n - 1) as real == n as real / 2.0
  {
    TriangleClosed(n);
    var t, m := Triangle(n) as real, (n - 1) as real;
    assert 2.0 * t == n as real * m by {
      assert (2 * Triangle(n)) as real == (n * (n - 1)) as real;
      assert (n * (n - 1)) as real == n as real * m;
    }
    assert t == (n as real / 2.0) * m;
  }

  /** The weights add up to the number of months, so the average needs no further scaling. */
  lemma WeightsSumToLength(n: nat)
    requires 1 <= n
    ensures Sum(Weights(n, n)) == if n == 1 then 0.5 else n as real
  {
    if n == 1 {
      SumAppend([], 0.5);
      assert Weights(1, 1) == [] + [0.5];
    } else {
      WeightPrefixTotal(n, n);
      HalfTriangle(n);
    }
  }

  // ----- the average is linear, and lies between the least and the greatest month

  lemma {:induction false} DotOfPlus(a: seq<real>, b: seq<real>, w: seq<real>)
    requires |a| == |b| == |w|
    ensures Dot(Plus(a, b), w) == Dot(a, w) + Dot(b, w)
  {
    if a != [] {
      var k := |a| - 1;
      DotOfPlus(a[..k], b[..k], w[..k]);
      assert Plus(a, b)[..k] == Plus(a[..k], b[..k]);
      Distribute(w[k], a[k], b[k]);
    }
  }

  /** Velocity of the sum of two series is the sum of their velocities. */
  lemma VelocityIsAdditive(a: seq<real>, b: seq<real>)
    requires |a| == |b|
    ensures WeightedVelocity(Plus(a, b)) == WeightedVelocity(a) + WeightedVelocity(b)
  {
    if a != [] {
      var w := Weights(|a|, |a|);
      WeightsSumToLength(|a|);
      DotOfPlus(a, b, w);
      AddQuotients(Dot(a, w), Dot(b, w), Sum(w));
    }
  }

  lemma {:induction false} DotAtLeast(s: seq<real>, w: seq<real>, bound: real)
    requires |s| == |w|
    requires forall i :: 0 <= i < |s| ==> bound <= s[i] && 0.0 <= w[i]
    ensures bound * Sum(w) <= Dot(s, w)
  {
    if s != [] {
      var k := |s| - 1;
      DotAtLeast(s[..k], w[..k], bound);
      Distribute(bound, Sum(w[..k]), w[k]);
      assert bound * Sum(w) == bound * Sum(w[..k]) + bound * w[k];
      ScaleOrder(bound, s[k], w[k]);
    }
  }

  lemma {:induction false} DotAtMost(s: seq<real>, w: seq<real>, bound: real)
    requires |s| == |w|
    requires forall i :: 0 <= i < |s| ==> s[i] <= bound && 0.0 <= w[i]
    ensures Dot(s, w) <= bound * Sum(w)
  {
    if s != [] {
      var k := |s| - 1;
      DotAtMost(s[..k], w[..k], bound);
      Distribute(bound, Sum(w[..k]), w[k]);
      assert bound * Sum(w) == bound * Sum(w[..k]) + bound * w[k];
      ScaleOrder(s[k], bound, w[k]);
    }
  }

  /** A history that stays within bounds has a velocity within the same bounds. */
  lemma VelocityBetween(s: seq<real>, lo: real, hi: real)
    requires s != []
    requires forall i :: 0 <= i < |s| ==> lo <= s[i] <= hi
    ensures lo <= WeightedVelocity(s) <= hi
  {
    var w := Weights(|s|, |s|);
    WeightsSumToLength(|s|);
    DotAtLeast(s, w, lo);
    DotAtMost(s, w, hi);
    QuotientBetween(Dot(s, w), Sum(w), lo, hi);
  }

  /** A flat history is reproduced exactly. */
  lemma FlatHistoryIsExact(n: nat, x: real)
    requires 1 <= n
    ensures WeightedVelocity(seq(n, _ => x)) == x
  {
    VelocityBetween(seq(n, _ => x), x, x);
  }

  /** For sales that are never negative, velocity is zero exactly on the cold-start histories. */
  lemma VelocityZeroIffColdStart(s: seq<real>)
    requires forall i :: 0 <= i < |s| ==> 0.0 <= s[i]
    ensures 0.0 <= WeightedVelocity(s)
    ensures WeightedVelocity(s) == 0.0 <==> IsColdStart(s)
  {
    if s != [] {
      var w := Weights(|s|, |s|);
      WeightsSumToLength(|s|);
      var top := BoundOn(s);
      VelocityBetween(s, 0.0, top);
      if IsColdStart(s) {
        VelocityBetween(s, 0.0, 0.0);
      } else {
        var i :| 0 <= i < |s| && s[i] != 0.0;
        DotAtLeastTerm(s, w, i);
        assert 0.0 < s[i] * w[i];
        assert 0.0 < Dot(s, w) / Sum(w);
      }
    }
  }

  /** services.py: no months, or every month zero. */
  predicate IsColdStart(s: seq<real>) {
    s == [] || forall i :: 0 <= i < |s| ==> s[i] == 0.0
  }

  ghost function BoundOn(s: seq<real>): (hi: real)
    ensures forall i :: 0 <= i < |s| ==> s[i] <= hi
  {
    if s == [] then 0.0
    else
      var b := BoundOn(s[..|s| - 1]);
      if b < s[|s| - 1] then s[|s| - 1] else b
  }

  lemma {:induction false} DotAtLeastTerm(s: seq<real>, w: seq<real>, i: nat)
    requires |s| == |w| && i < |s|
    requires forall j :: 0 <= j < |s| ==> 0.0 <= s[j] && 0.0 <= w[j]
    ensures s[i] * w[i] <= Dot(s, w)
  {
    var k := |s| - 1;
    assert 0.0 <= s[k] * w[k];
    if i < k {
      DotAtLeastTerm(s[..k], w[..k], i);
    } else {
      DotAtLeast(s[..k], w[..k], 0.0);
    }
  }

  // ----- rising histories

  ghost predicate NonDecreasing(s: seq<real>) {
    forall i, j :: 0 <= i <= j < |s| ==> s[i] <= s[j]
  }

  /** How far the weights tilt the first k months towards values above c. */
  ghost function Tilt(s: seq<real>, c: real, k: nat): real
    requires k <= |s|
  {
    if k == 0 then 0.0 else Tilt(s, c, k - 1) + (s[k - 1] - c) * (Weight(|s|, k - 1) - 1.0)
  }

  /** The part of the tilt that comes from the pivot value c. */
  ghost function Pull(n: nat, c: real, k: nat): real
    requires k <= n
  {
    if k == 0 then 0.0 else Pull(n, c, k - 1) + c * (Weight(n, k - 1) - 1.0)
  }

  lemma {:induction false} PullIsSpareWeight(n: nat, c: real, k: nat)
    requires k <= n
    ensures Pull(n, c, k) == c * (Sum(Weights(n, k)) - k as real)
  {
    if k > 0 {
      PullIsSpareWeight(n, c, k - 1);
      assert Weights(n, k)[..k - 1] == Weights(n, k - 1);
      Distribute(c, Sum(Weights(n, k - 1)) - (k - 1) as real, Weight(n, k - 1) - 1.0);
    }
  }

  lemma TiltIsWeightedMinusPlain(s: seq<real>, c: real, k: nat)
    requires k <= |s|
    ensures Tilt(s, c, k) == Dot(s[..k], Weights(|s|, k)) - Sum(s[..k]) - Pull(|s|, c, k)
  {
    if k > 0 {
      TiltIsWeightedMinusPlain(s, c, k - 1);
      DotPrefix(s, k);
      assert s[..k][..k - 1] == s[..k - 1];
      TiltStep(c, s[k - 1], Weight(|s|, k - 1));
    }
  }

  lemma DotPrefix(s: seq<real>, k: nat)
    requires 0 < k <= |s|
    ensures Dot(s[..k], Weights(|s|, k)) == Dot(s[..k - 1], Weights(|s|, k - 1)) + s[k - 1] * Weight(|s|, k - 1)
  {
    assert s[..k][..k - 1] == s[..k - 1];
    assert Weights(|s|, k)[..k - 1] == Weights(|s|, k - 1);
  }

  lemma TiltStep(c: real, x: real, v: real)
    ensures (x - c) * (v - 1.0) == x * v - x - c * (v - 1.0)
  {
    Distribute(v - 1.0, x - c, c);
  }

  /** Around the middle month both the sales and the weights change side, so every term helps. */
  lemma TiltTerm(s: seq<real>, i: nat)
    requires 2 <= |s| && NonDecreasing(s) && i < |s|
    ensures var c := s[(|s| - 1) / 2]; 0.0 <= (s[i] - c) * (Weight(|s|, i) - 1.0)
  {
    var n, m := |s|, (|s| - 1) / 2;
    var c, w := s[m], Weight(n, i);
    AgainstHalf(i as real, (n - 1) as real);
    if i <= m {
      SameSign(c - s[i], 1.0 - w);
    } else {
      SameSign(s[i] - c, w - 1.0);
    }
  }

  lemma EndWeights(n: nat)
    requires 2 <= n
    ensures Weight(n, 0) == 0.5 && Weight(n, n - 1) == 1.5
  {
    var m := (n - 1) as real;
    assert m / m == 1.0;
    assert 0.0 / m == 0.0;
  }

  lemma {:induction false} TiltAtLeast(s: seq<real>, k: nat)
    requires 2 <= |s| && NonDecreasing(s) && 1 <= k <= |s|
    ensures var c := s[(|s| - 1) / 2];
            Tilt(s, c, k) >= 0.5 * (c - s[0]) + if k == |s| then 0.5 * (s[k - 1] - c) else 0.0
  {
    var c := s[(|s| - 1) / 2];
    EndWeights(|s|);
    if k > 1 {
      TiltTerm(s, k - 1);
      TiltAtLeast(s, k - 1);
    } else {
      assert Tilt(s, c, 0) == 0.0;
    }
  }

  lemma RiseOverLength(total: real, rise: real, weighted: real, n: real)
    requires 0.0 < n && weighted >= total + 0.5 * rise
    ensures weighted / n >= total / n + rise / (2.0 * n)
  {
    assert rise / (2.0 * n) == (0.5 * rise) / n;
    AddQuotients(total, 0.5 * rise, n);
    QuotientMonotone(total + 0.5 * rise, weighted, n);
  }

  /** A rising history is weighted above its plain mean, by at least half its rise over its length. */
  lemma RisingAboveMean(s: seq<real>)
    requires 2 <= |s| && NonDecreasing(s)
    ensures WeightedVelocity(s) >= Mean(s) + (s[|s| - 1] - s[0]) / (2.0 * |s| as real)
  {
    var n := |s| as real;
    var w := Weights(|s|, |s|);
    WeightsSumToLength(|s|);
    var c := s[(|s| - 1) / 2];
    TiltAtLeast(s, |s|);
    TiltIsWeightedMinusPlain(s, c, |s|);
    PullIsSpareWeight(|s|, c, |s|);
    assert s[..|s|] == s;
    RiseOverLength(Sum(s), s[|s| - 1] - s[0], Dot(s, w), n);
  }

  /** Non-decreasing sales never average below the plain mean, and strictly above unless constant. */
  lemma NonDecreasingAtLeastMean(s: seq<real>)
    requires s != [] && NonDecreasing(s)
    ensures WeightedVelocity(s) >= Mean(s)
    ensures (exists i :: 0 <= i < |s| && s[i] != s[0]) ==> WeightedVelocity(s) > Mean(s)
  {
    if |s| == 1 {
      VelocityBetween(s, s[0], s[0]);
      SumAppend([], s[0]);
      assert s == [] + [s[0]];
    } else {
      RisingAboveMean(s);
      QuotientMonotone(0.0, s[|s| - 1] - s[0], 2.0 * |s| as real);
      if i :| 0 <= i < |s| && s[i] != s[0] {
        assert s[0] < s[i] <= s[|s| - 1];
        assert 0.0 < (s[|s| - 1] - s[0]) / (2.0 * |s| as real);
      }
    }
  }
}
