/** Wrappers for absent values and failures, and a few facts about reals. */
module Prelude {
  datatype Option<+T> = None | Some(value: T)

  datatype Result<+T, +E> = Ok(value: T) | Err(error: E)

  function Min(a: real, b: real): real { if b < a then b else a }

  function Max(a: real, b: real): real { if a < b then b else a }

  function Abs(a: real): real { if a < 0.0 then -a else a }
}

/** Nonlinear facts, each stated alone so that the solver meets few products at a time. */
module RealFacts {
  lemma Distribute(x: real, a: real, b: real)
    ensures x * (a + b) == x * a + x * b
    ensures (a + b) * x == a * x + b * x
  {
  }

  lemma AddQuotients(a: real, b: real, d: real)
    requires d != 0.0
    ensures a / d + b / d == (a + b) / d
  {
  }

  lemma SameSign(a: real, b: real)
    requires 0.0 <= a && 0.0 <= b
    ensures 0.0 <= a * b
    ensures a * b == (-a) * (-b)
  {
  }

  lemma ScaleOrder(a: real, b: real, w: real)
    requires a <= b && 0.0 <= w
    ensures a * w <= b * w
  {
  }

  lemma QuotientMonotone(a: real, b: real, d: real)
    requires 0.0 < d && a <= b
    ensures a / d <= b / d
  {
  }

  lemma AgainstHalf(x: real, d: real)
    requires 0.0 < d
    ensures 2.0 * x <= d ==> x / d <= 0.5
    ensures d <= 2.0 * x ==> 0.5 <= x / d
  {
    var q := x / d;
    assert x == q * d;
    if 0.5 < q {
      SameSign(q - 0.5, d);
      Distribute(d, q - 0.5, 0.5);
    } else {
      SameSign(0.5 - q, d);
      Distribute(d, 0.5 - q, q);
    }
  }

  lemma QuotientBetween(x: real, d: real, lo: real, hi: real)
    requires 0.0 < d && lo * d <= x <= hi * d
    ensures lo <= x / d <= hi
  {
    assert x == (x / d) * d;
  }
}

module Seqs {
  lemma ConcatIsAssociative<T>(x: seq<T>, y: seq<T>, z: seq<T>)
    ensures (x + y) + z == x + (y + z)
  {
  }
}

/** Sums of sequences of reals, taken from the right so that they follow loops which append. */
module Sums {
  function Sum(s: seq<real>): real {
    if s == [] then 0.0 else Sum(s[..|s| - 1]) + s[|s| - 1]
  }

  lemma SumAppend(s: seq<real>, x: real)
    ensures Sum(s + [x]) == Sum(s) + x
  {
    assert (s + [x])[..|s|] == s;
  }

  lemma {:induction false} SumConcat(a: seq<real>, b: seq<real>)
    ensures Sum(a + b) == Sum(a) + Sum(b)
  {
    if b == [] {
      assert a + b == a;
    } else {
      SumConcat(a, b[..|b| - 1]);
      assert (a + b)[..|a + b| - 1] == a + b[..|b| - 1];
    }
  }

  lemma {:induction false} SumOfZeros(s: seq<real>)
    requires forall i :: 0 <= i < |s| ==> s[i] == 0.0
    ensures Sum(s) == 0.0
  {
    if s != [] {
      SumOfZeros(s[..|s| - 1]);
    }
  }

  /** Pointwise sum of two series of the same length. */
  function Plus(a: seq<real>, b: seq<real>): (r: seq<real>)
    requires |a| == |b|
    ensures |r| == |a|
  {
    seq(|a|, i requires 0 <= i < |a| => a[i] + b[i])
  }

  function Zeros(n: nat): (r: seq<real>)
    ensures |r| == n
  {
    seq(n, _ => 0.0)
  }
}

/** Primary keys. The model follows one tenant: every query of the program filters on it. */
module Ids {
  type BranchId = nat
  type PartId = nat
  type UserId = nat
}
