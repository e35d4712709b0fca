/** Finite sums of reals, accumulated left to right as the kernel's loops do:
    ((0 + s[0]) + s[1]) + ... */
module Sums {

  function Sum(s: seq<real>): real
    decreases |s|
  {
    if |s| == 0 then 0.0 else Sum(s[..|s| - 1]) + s[|s| - 1]
  }

  /** One multiply of a multiply-accumulate. */
  function Product(x: real, y: real): real
  {
    x * y
  }

  /** Sum_i u[i] * v[i], accumulated as `acc += u[i] * v[i]`. */
  function DotProduct(u: seq<real>, v: seq<real>): real
    requires |u| == |v|
    decreases |u|
  {
    if |u| == 0 then 0.0
    else DotProduct(u[..|u| - 1], v[..|v| - 1]) + Product(u[|u| - 1], v[|v| - 1])
  }

  /** Every element multiplied by k. */
  function Scaled(s: seq<real>, k: real): (r: seq<real>)
    ensures |r| == |s|
    ensures forall i :: 0 <= i < |s| ==> r[i] == s[i] * k
  {
    seq(|s|, i requires 0 <= i < |s| => s[i] * k)
  }

  /** Every element increased by k. */
  function Shifted(s: seq<real>, k: real): (r: seq<real>)
    ensures |r| == |s|
    ensures forall i :: 0 <= i < |s| ==> r[i] == s[i] + k
  {
    seq(|s|, i requires 0 <= i < |s| => s[i] + k)
  }

  /** Pointwise sum of two sequences of the same length. */
  function Added(s: seq<real>, t: seq<real>): (r: seq<real>)
    requires |s| == |t|
    ensures |r| == |s|
    ensures forall i :: 0 <= i < |s| ==> r[i] == s[i] + t[i]
  {
    seq(|s|, i requires 0 <= i < |s| => s[i] + t[i])
  }

  /** A factor common to every term can be taken out of the sum. */
  lemma {:induction false} SumScaled(s: seq<real>, k: real)
    ensures Sum(Scaled(s, k)) == Sum(s) * k
    decreases |s|
  {
    if |s| > 0 {
      var n := |s| - 1;
      forall i | 0 <= i < n
        ensures Scaled(s, k)[..n][i] == Scaled(s[..n], k)[i]
      {
      }
      assert Scaled(s, k)[..n] == Scaled(s[..n], k);
      SumScaled(s[..n], k);
      assert Sum(s) * k == Sum(s[..n]) * k + s[n] * k;
    }
  }

  /** Scaling positive terms by a positive factor keeps them positive. */
  lemma ScaledPositive(s: seq<real>, k: real)
    requires k > 0.0 && forall i :: 0 <= i < |s| ==> s[i] > 0.0
    ensures forall i :: 0 <= i < |s| ==> Scaled(s, k)[i] > 0.0
  {
  }

  /** Adding k to each of n terms adds n * k to the sum. */
  lemma {:induction false} SumShifted(s: seq<real>, k: real)
    ensures Sum(Shifted(s, k)) == Sum(s) + Times(|s|, k)
    decreases |s|
  {
    if |s| > 0 {
      var n := |s| - 1;
      assert Shifted(s, k)[..n] == Shifted(s[..n], k);
      SumShifted(s[..n], k);
    }
  }

  /** c added to itself n times, without a multiplication: statements that
      mention it stay in linear arithmetic until TimesIsProduct is applied. */
  function Times(n: nat, c: real): real
  {
    if n == 0 then 0.0 else Times(n - 1, c) + c
  }

  lemma {:induction false} TimesIsProduct(n: nat, c: real)
    ensures Times(n, c) == (n as real) * c
  {
    if n > 0 {
      TimesIsProduct(n - 1, c);
    }
  }

  /** Terms bounded by L sum to at most L added |s| times. */
  lemma {:induction false} SumAtMost(s: seq<real>, L: real)
    requires forall i :: 0 <= i < |s| ==> s[i] <= L
    ensures Sum(s) <= Times(|s|, L)
    decreases |s|
  {
    if |s| > 0 {
      SumAtMost(s[..|s| - 1], L);
    }
  }

  /** The mean of n terms bounded by L is bounded by L. */
  lemma MeanAtMost(s: seq<real>, L: real, n: nat)
    requires n == |s| && n > 0
    requires forall i :: 0 <= i < |s| ==> s[i] <= L
    ensures Sum(s) / (n as real) <= L
  {
    SumAtMost(s, L);
    TimesIsProduct(n, L);
  }

  /** The mean of n non-negative terms is non-negative. */
  lemma MeanNonNegative(s: seq<real>, n: nat)
    requires n == |s| && n > 0
    requires forall i :: 0 <= i < |s| ==> s[i] >= 0.0
    ensures Sum(s) / (n as real) >= 0.0
  {
    SumNonNegative(s);
  }

  /** n copies of c add up to n * c. */
  lemma {:induction false} SumConstant(s: seq<real>, c: real)
    requires forall i :: 0 <= i < |s| ==> s[i] == c
    ensures Sum(s) == (|s| as real) * c
    decreases |s|
  {
    if |s| > 0 {
      SumConstant(s[..|s| - 1], c);
    }
  }

  /** A non-empty sum of positive terms is positive. */
  lemma {:induction false} SumPositive(s: seq<real>)
    requires |s| > 0
    requires forall i :: 0 <= i < |s| ==> s[i] > 0.0
    ensures Sum(s) > 0.0
    decreases |s|
  {
    if |s| > 1 {
      SumPositive(s[..|s| - 1]);
    }
  }

  /** A sum of non-negative terms bounds each of them. */
  lemma {:induction false} SumBoundsTerm(s: seq<real>, k: nat)
    requires k < |s|
    requires forall i :: 0 <= i < |s| ==> s[i] >= 0.0
    ensures 0.0 <= s[k] <= Sum(s)
    decreases |s|
  {
    var n := |s| - 1;
    if k < n {
      SumBoundsTerm(s[..n], k);
    } else {
      SumNonNegative(s[..n]);
    }
  }

  /** A sum of non-negative terms is non-negative. */
  lemma {:induction false} SumNonNegative(s: seq<real>)
    requires forall i :: 0 <= i < |s| ==> s[i] >= 0.0
    ensures Sum(s) >= 0.0
    decreases |s|
  {
    if |s| > 0 {
      SumNonNegative(s[..|s| - 1]);
    }
  }
}
