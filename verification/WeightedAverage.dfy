/**
 The time-weighted average that a timer tick takes over a retired sample buffer
 (phantom_avg_cb and phantom_average in timer.bpf.c, nr_running_avg_sample_cb in
 global_running_tracker.bpf.c). The unbounded sums are the specification; the method
 computes them in the wrapping 64-bit arithmetic of the source.
 */
module WeightedAverage {
  import opened MachineInts

  /** struct phantom_count and struct global_runnx_sample. */
  datatype Sample = Sample(count: s64, timestamp: u64)

  /** Negative counts are read as zero. */
  function Clamp(count: int): nat {
    if count < 0 then 0 else count
  }

  /** Time credited to sample k: the distance to its successor, nothing on a backward jump. */
  function Duration(b: seq<Sample>, k: nat): nat
    requires k + 1 < |b|
  {
    if b[k + 1].timestamp < b[k].timestamp then 0 else b[k + 1].timestamp - b[k].timestamp
  }

  /** The time dropped at k because the clock ran backward there. */
  function BackwardJump(b: seq<Sample>, k: nat): nat
    requires k + 1 < |b|
  {
    if b[k + 1].timestamp < b[k].timestamp then b[k].timestamp - b[k + 1].timestamp else 0
  }

  /** Sum of count times duration over the first n samples. */
  function WeightedSum(b: seq<Sample>, n: nat): nat
    requires n == 0 || n < |b|
  {
    if n == 0 then 0 else WeightedSum(b, n - 1) + Clamp(b[n - 1].count) * Duration(b, n - 1)
  }

  function TotalTime(b: seq<Sample>, n: nat): nat
    requires n == 0 || n < |b|
  {
    if n == 0 then 0 else TotalTime(b, n - 1) + Duration(b, n - 1)
  }

  function DroppedTime(b: seq<Sample>, n: nat): nat
    requires n == 0 || n < |b|
  {
    if n == 0 then 0 else DroppedTime(b, n - 1) + BackwardJump(b, n - 1)
  }

  /** How many samples have a successor inside both the window and the array. */
  function Span(b: seq<Sample>, nbSamples: nat): (n: nat)
    ensures n == 0 || n < |b|
  {
    if |b| == 0 then 0 else if nbSamples < |b| then nbSamples else |b| - 1
  }

  /** The floor of the weighted mean, zero for a window without length. */
  function Mean(b: seq<Sample>, n: nat): nat
    requires n == 0 || n < |b|
  {
    if TotalTime(b, n) == 0 then 0 else WeightedSum(b, n) / TotalTime(b, n)
  }

  /** What the source computes: both sums wrapped, then an unsigned division read as signed. */
  function MachineMean(b: seq<Sample>, nbSamples: nat): s64 {
    var n := Span(b, nbSamples);
    var time := AsU64(TotalTime(b, n));
    if time > 0 then AsS64(AsU64(WeightedSum(b, n)) / time) else 0
  }

  /** The same samples with every negative count replaced by 0. */
  function Floored(b: seq<Sample>): seq<Sample> {
    seq(|b|, i requires 0 <= i < |b| => if b[i].count >= 0 then b[i] else Sample(0, b[i].timestamp))
  }

  /** Negative counts weigh nothing, and no other count is changed. */
  lemma {:induction false} NegativeCountsWeighNothing(b: seq<Sample>, n: nat)
    requires n == 0 || n < |b|
    ensures WeightedSum(b, n) == WeightedSum(Floored(b), n) && TotalTime(b, n) == TotalTime(Floored(b), n)
  {
    if n == 0 {
    } else {
      NegativeCountsWeighNothing(b, n - 1);
    }
  }

  /** The two accumulators of struct phantom_avg_ctx. */
  datatype Totals = Totals(sum: s64, time: u64)

  /** Both sums over the samples below k that count, wrapped. */
  ghost function TotalsAt(b: seq<Sample>, nbSamples: nat, k: nat): Totals {
    var n := if k < Span(b, nbSamples) then k else Span(b, nbSamples);
    Totals(AsS64(WeightedSum(b, n)), AsU64(TotalTime(b, n)))
  }

  /** phantom_avg_cb: what one array element adds to the accumulators. */
  function Callback(b: seq<Sample>, nbSamples: u32, k: nat, t: Totals): Totals
    requires k < |b|
  {
    if k >= nbSamples || k + 1 >= |b| || b[k + 1].timestamp < b[k].timestamp then t
    else
      var duration := b[k + 1].timestamp - b[k].timestamp;
      Totals(AsS64(t.sum + AsS64(Clamp(b[k].count) * AsS64(duration))), AsU64(t.time + duration))
  }

  lemma SumFolds(b: seq<Sample>, k: nat, duration: nat)
    requires k + 1 < |b| && duration == Duration(b, k)
    ensures AsS64(AsS64(WeightedSum(b, k)) + AsS64(Clamp(b[k].count) * AsS64(duration)))
         == AsS64(WeightedSum(b, k + 1))
  {
    AccumulateWraps(WeightedSum(b, k), Clamp(b[k].count), duration);
  }

  lemma TimeFolds(b: seq<Sample>, k: nat, duration: nat)
    requires k + 1 < |b| && duration == Duration(b, k)
    ensures AsU64(AsU64(TotalTime(b, k)) + duration) == AsU64(TotalTime(b, k + 1))
  {
    AddWraps(TotalTime(b, k), duration);
  }

  lemma BackwardAddsNothing(b: seq<Sample>, k: nat)
    requires k + 1 < |b| && b[k + 1].timestamp < b[k].timestamp
    ensures WeightedSum(b, k + 1) == WeightedSum(b, k) && TotalTime(b, k + 1) == TotalTime(b, k)
  {
  }

  /** Folding the callback in wrapping arithmetic keeps to the unbounded sums. */
  lemma CallbackFolds(b: seq<Sample>, nbSamples: u32, k: nat)
    requires k < |b|
    ensures Callback(b, nbSamples, k, TotalsAt(b, nbSamples, k)) == TotalsAt(b, nbSamples, k + 1)
  {
    if k < Span(b, nbSamples) {
      if b[k].timestamp <= b[k + 1].timestamp {
        SumFolds(b, k, b[k + 1].timestamp - b[k].timestamp);
        TimeFolds(b, k, b[k + 1].timestamp - b[k].timestamp);
      } else {
        BackwardAddsNothing(b, k);
      }
    }
  }

  /** phantom_average: visit every array element, fold phantom_avg_cb, divide. */
  method PhantomAverage(b: array<Sample>, nbSamples: u32) returns (avg: s64)
    ensures avg == MachineMean(b[..], nbSamples)
  {
    var t := Totals(0, 0);
    for k := 0 to b.Length
      invariant t == TotalsAt(b[..], nbSamples, k)
    {
      CallbackFolds(b[..], nbSamples, k);
      if k < nbSamples && k + 1 < b.Length && b[k].timestamp <= b[k + 1].timestamp {
        var count := if b[k].count < 0 then 0 else b[k].count;
        var duration := b[k + 1].timestamp - b[k].timestamp;
        t := Totals(AsS64(t.sum + AsS64(count * AsS64(duration))), AsU64(t.time + duration));
      }
    }
    SignedReadAsUnsigned(WeightedSum(b[..], Span(b[..], nbSamples)));
    avg := if t.time > 0 then AsS64(AsU64(t.sum) / t.time) else 0;
  }

  /** Accumulated time is the net time plus everything dropped, samples in order or not. */
  lemma {:induction false} TotalTimeTelescopes(b: seq<Sample>, n: nat)
    requires n < |b|
    ensures TotalTime(b, n) == b[n].timestamp - b[0].timestamp + DroppedTime(b, n)
  {
    if n == 0 {
    } else {
      TotalTimeTelescopes(b, n - 1);
    }
  }

  ghost predicate Sorted(b: seq<Sample>) {
    forall i, j :: 0 <= i <= j < |b| ==> b[i].timestamp <= b[j].timestamp
  }

  /** Nothing is dropped exactly when every step of the clock goes forward. */
  lemma {:induction false} NothingDroppedIffForward(b: seq<Sample>, n: nat)
    requires n < |b|
    ensures DroppedTime(b, n) == 0 <==> Sorted(b[..n + 1])
  {
    if n == 0 {
    } else {
      NothingDroppedIffForward(b, n - 1);
      var c, d := b[..n + 1], b[..n];
      if Sorted(c) {
        assert forall i :: 0 <= i < n ==> d[i] == c[i];
        assert b[n - 1] == c[n - 1] && b[n] == c[n];
      } else if DroppedTime(b, n) == 0 {
        assert forall i :: 0 <= i < n ==> d[i] == c[i];
        assert d[n - 1].timestamp <= c[n].timestamp;
        assert Sorted(c);
      }
    }
  }

  /** A window in clock order accumulates exactly its length. */
  lemma SortedWindowLength(b: seq<Sample>, n: nat)
    requires n < |b| && Sorted(b[..n + 1])
    ensures TotalTime(b, n) == b[n].timestamp - b[0].timestamp
  {
    TotalTimeTelescopes(b, n);
    NothingDroppedIffForward(b, n);
  }

  /** Sample k is credited with some time. */
  ghost predicate Contributes(b: seq<Sample>, n: nat, k: nat)
    requires n == 0 || n < |b|
  {
    k < n && Duration(b, k) > 0
  }

  lemma MulMono(a: nat, b: nat, t: nat)
    requires a <= b || t == 0
    ensures a * t <= b * t
  {
  }

  lemma {:induction false} SumBetween(b: seq<Sample>, n: nat, lo: nat, hi: nat)
    requires n == 0 || n < |b|
    requires forall k: nat :: Contributes(b, n, k) ==> lo <= Clamp(b[k].count) <= hi
    ensures lo * TotalTime(b, n) <= WeightedSum(b, n) <= hi * TotalTime(b, n)
  {
    if n == 0 {
    } else {
      assert forall k: nat :: Contributes(b, n - 1, k) ==> Contributes(b, n, k);
      SumBetween(b, n - 1, lo, hi);
      var d, c := Duration(b, n - 1), Clamp(b[n - 1].count);
      assert d > 0 ==> Contributes(b, n, n - 1);
      MulMono(lo, c, d);
      MulMono(c, hi, d);
      Distribute(lo, TotalTime(b, n - 1), d);
      Distribute(hi, TotalTime(b, n - 1), d);
    }
  }

  lemma Distribute(a: nat, t: nat, d: nat)
    ensures a * (t + d) == a * t + a * d
  {
  }

  lemma MulCancel(a: nat, b: nat, t: nat)
    requires a * t < b * t
    ensures a < b
  {
    if a >= b {
      MulMono(b, a, t);
    }
  }

  lemma FloorBetween(s: nat, t: nat, lo: nat, hi: nat)
    requires t > 0 && lo * t <= s <= hi * t
    ensures lo <= s / t <= hi
  {
    var q := s / t;
    assert s == q * t + s % t;
    assert (q + 1) * t == q * t + t && (hi + 1) * t == hi * t + t;
    MulCancel(lo, q + 1, t);
    MulCancel(q, hi + 1, t);
  }

  /** The mean lies between the smallest and the largest contributing count. */
  lemma MeanBetween(b: seq<Sample>, n: nat, lo: nat, hi: nat)
    requires n == 0 || n < |b|
    requires forall k: nat :: Contributes(b, n, k) ==> lo <= Clamp(b[k].count) <= hi
    ensures TotalTime(b, n) > 0 ==> lo <= Mean(b, n) <= hi
    ensures TotalTime(b, n) == 0 ==> Mean(b, n) == 0
  {
    SumBetween(b, n, lo, hi);
    if TotalTime(b, n) > 0 {
      FloorBetween(WeightedSum(b, n), TotalTime(b, n), lo, hi);
    }
  }

  lemma {:induction false} PrefixSumsBelow(b: seq<Sample>, m: nat, n: nat)
    requires m <= n && (n == 0 || n < |b|)
    ensures WeightedSum(b, m) <= WeightedSum(b, n) && TotalTime(b, m) <= TotalTime(b, n)
    decreases n
  {
    if m == n {
    } else {
      PrefixSumsBelow(b, m, n - 1);
      assert Clamp(b[n - 1].count) * Duration(b, n - 1) >= 0;
    }
  }

  /** The largest contributing count times the accumulated time stays below the limit. */
  ghost predicate Bounded(b: seq<Sample>, n: nat, hi: nat, limit: nat)
    requires n == 0 || n < |b|
  {
    && (forall k: nat :: Contributes(b, n, k) ==> Clamp(b[k].count) <= hi)
    && hi * TotalTime(b, n) < limit
  }

  /** Below 2^63 no intermediate value of either accumulator wraps. */
  lemma AccumulatorsDoNotWrap(b: seq<Sample>, n: nat, hi: nat, m: nat)
    requires n == 0 || n < |b|
    requires Bounded(b, n, hi, TWO_63) && TotalTime(b, n) < TWO_64 && m <= n
    ensures AsS64(WeightedSum(b, m)) == AsU64(WeightedSum(b, m)) == WeightedSum(b, m)
    ensures AsU64(TotalTime(b, m)) == TotalTime(b, m)
  {
    SumBetween(b, n, 0, hi);
    PrefixSumsBelow(b, m, n);
    NoWrap(WeightedSum(b, m));
  }

  /**
   Below 2^64 the mixed division is the mathematical one: the signed sum may have wrapped, but
   it is read as unsigned.
   */
  lemma MachineMeanExact(b: seq<Sample>, nbSamples: nat, hi: nat)
    requires hi < TWO_63 && Bounded(b, Span(b, nbSamples), hi, TWO_64)
    ensures MachineMean(b, nbSamples) == Mean(b, Span(b, nbSamples)) <= hi
  {
    var n := Span(b, nbSamples);
    SumBetween(b, n, 0, hi);
    MeanBetween(b, n, 0, hi);
    if hi == 0 {
      ZeroSumMean(b, nbSamples);
    } else {
      MulMono(1, hi, TotalTime(b, n));
      InWord(WeightedSum(b, n));
      InWord(TotalTime(b, n));
      NoWrap(Mean(b, n));
    }
  }

  lemma ZeroSumMean(b: seq<Sample>, nbSamples: nat)
    requires WeightedSum(b, Span(b, nbSamples)) == 0
    ensures MachineMean(b, nbSamples) == Mean(b, Span(b, nbSamples)) == 0
  {
    var time := TotalTime(b, Span(b, nbSamples));
    if time > 0 {
      assert 0 / time == 0;
    }
  }

  /** The sums, and so the machine's answer, depend only on the entries up to the end sample. */
  lemma {:induction false} SumsReadPrefix(b: seq<Sample>, c: seq<Sample>, n: nat)
    requires n == 0 || (n < |b| && n < |c| && b[..n + 1] == c[..n + 1])
    ensures WeightedSum(b, n) == WeightedSum(c, n) && TotalTime(b, n) == TotalTime(c, n)
  {
    if n == 0 {
    } else {
      assert b[..n] == b[..n + 1][..n] && c[..n] == c[..n + 1][..n];
      assert b[n] == b[..n + 1][n] && c[n] == c[..n + 1][n];
      assert b[n - 1] == b[..n + 1][n - 1] && c[n - 1] == c[..n + 1][n - 1];
      SumsReadPrefix(b, c, n - 1);
    }
  }

  lemma MachineMeanReadsPrefix(b: seq<Sample>, nbSamples: nat, c: seq<Sample>, nc: nat)
    requires Span(b, nbSamples) == Span(c, nc)
    requires var n := Span(b, nbSamples); n == 0 || b[..n + 1] == c[..n + 1]
    ensures MachineMean(b, nbSamples) == MachineMean(c, nc)
  {
    SumsReadPrefix(b, c, Span(b, nbSamples));
  }
}
