/**
 What the weighted sum of a sample buffer means: ordered samples describe a step function of
 time, and the sum is that function added up over every nanosecond.
 */
module SampleIntegral {
  import opened MachineInts
  import opened WeightedAverage

  /** Sum of f over the nanoseconds from a to b. */
  ghost function Integral(f: int -> int, a: int, b: int): int
    decreases b - a
  {
    if b <= a then 0 else Integral(f, a, b - 1) + f(b - 1)
  }

  /** The floor of the mean of f from a up to b, zero over an empty stretch. */
  ghost function MeanOver(f: int -> int, a: int, b: int): int {
    if b <= a then 0 else Integral(f, a, b) / (b - a)
  }

  /** The step function a sample list describes. */
  ghost function StepCount(samples: seq<Sample>, t: int): int {
    if |samples| == 0 then 0
    else if samples[|samples| - 1].timestamp <= t then samples[|samples| - 1].count
    else StepCount(samples[..|samples| - 1], t)
  }

  lemma {:induction false} IntegralSplits(f: int -> int, a: int, b: int, c: int)
    requires a <= b <= c
    ensures Integral(f, a, c) == Integral(f, a, b) + Integral(f, b, c)
    decreases c - b
  {
    if b == c {
    } else {
      IntegralSplits(f, a, b, c - 1);
    }
  }

  lemma {:induction false} IntegralConstant(f: int -> int, a: int, b: int, v: int)
    requires a <= b && forall t :: a <= t < b ==> f(t) == v
    ensures Integral(f, a, b) == v * (b - a)
    decreases b - a
  {
    if a == b {
    } else {
      IntegralConstant(f, a, b - 1, v);
      assert v * (b - a) == v * (b - 1 - a) + v;
    }
  }

  lemma {:induction false} IntegralAgrees(f: int -> int, g: int -> int, a: int, b: int)
    requires forall t :: a <= t < b ==> f(t) == g(t)
    ensures Integral(f, a, b) == Integral(g, a, b)
    decreases b - a
  {
    if b <= a {
    } else {
      IntegralAgrees(f, g, a, b - 1);
    }
  }

  lemma {:induction false} StepCountBetween(w: seq<Sample>, n: nat, t: int)
    requires Sorted(w) && 0 < n < |w| && w[n - 1].timestamp <= t < w[n].timestamp
    ensures StepCount(w, t) == w[n - 1].count
    decreases |w|
  {
    if n == |w| - 1 {
    } else {
      StepCountBetween(w[..|w| - 1], n, t);
    }
  }

  /** Before its last sample, a prefix describes the same step function. */
  lemma {:induction false} StepCountPrefix(w: seq<Sample>, n: nat, t: int)
    requires Sorted(w) && 0 < n <= |w| && t < w[n - 1].timestamp
    ensures StepCount(w[..n], t) == StepCount(w, t)
    decreases |w|
  {
    if n == |w| {
      assert w[..n] == w;
    } else {
      StepCountPrefix(w[..|w| - 1], n, t);
      assert w[..|w| - 1][..n] == w[..n];
    }
  }

  /** The weighted sum is the integral of the step function its samples describe, negative counts read as 0. */
  lemma {:induction false} WeightedSumIsIntegral(w: seq<Sample>, n: nat)
    requires n < |w| && Sorted(w)
    ensures WeightedSum(w, n) == Integral(t => Clamp(StepCount(w, t)), w[0].timestamp, w[n].timestamp)
  {
    var f: int -> int := t => Clamp(StepCount(w, t));
    if n == 0 {
    } else {
      WeightedSumIsIntegral(w, n - 1);
      IntegralSplits(f, w[0].timestamp, w[n - 1].timestamp, w[n].timestamp);
      forall t | w[n - 1].timestamp <= t < w[n].timestamp
        ensures f(t) == Clamp(w[n - 1].count)
      {
        StepCountBetween(w, n, t);
      }
      IntegralConstant(f, w[n - 1].timestamp, w[n].timestamp, Clamp(w[n - 1].count));
    }
  }

  /** In a sorted bounded window the machine's average is the mean of the step function over the window. */
  lemma SortedMean(c: seq<Sample>, hi: nat)
    requires |c| > 0 && Sorted(c) && forall i :: 0 <= i < |c| ==> Clamp(c[i].count) <= hi
    requires hi < TWO_63 && hi * (c[|c| - 1].timestamp - c[0].timestamp) < TWO_64
    ensures MachineMean(c, |c| - 1)
         == MeanOver(t => Clamp(StepCount(c, t)), c[0].timestamp, c[|c| - 1].timestamp)
    ensures 0 <= MachineMean(c, |c| - 1) <= hi
  {
    var n := |c| - 1;
    assert c[..n + 1] == c && Span(c, n) == n;
    SortedWindowLength(c, n);
    assert Bounded(c, n, hi, TWO_64);
    MachineMeanExact(c, n, hi);
    WeightedSumIsIntegral(c, n);
  }
}
