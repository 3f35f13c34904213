/**
  Turnaround and waiting time of a finished process, and the averages over a
  run. The source computes the averages with `IntStream.average()` as a
  `double`; here they are exact rationals.
 */
module Metrics {
  import opened Processes

  /** Turnaround is completion minus arrival; waiting is turnaround minus the original burst. */
  ghost predicate MetricsConsistent(p: Proc) {
    p.turnaround == p.completion - p.arrival && p.waiting == p.turnaround - p.burst
  }

  /** Records the metrics of a process from its completion time. */
  function Finalize(p: Proc): (r: Proc)
    ensures MetricsConsistent(r)
    ensures SameIdentity(p, r) && r.remaining == p.remaining && r.completion == p.completion
  {
    var turnaround := p.completion - p.arrival;
    p.(turnaround := turnaround, waiting := turnaround - p.burst)
  }

  /** Finalizes every process, keeping everything a run computed before. */
  function FinalizeAll(procs: seq<Proc>): (r: seq<Proc>)
    ensures SameIdentities(procs, r)
    ensures forall i :: 0 <= i < |r| ==>
      MetricsConsistent(r[i]) && r[i].remaining == procs[i].remaining && r[i].completion == procs[i].completion
  {
    seq(|procs|, i requires 0 <= i < |procs| => Finalize(procs[i]))
  }

  function Sum(xs: seq<int>): int
    decreases |xs|
  {
    if |xs| == 0 then 0 else xs[0] + Sum(xs[1..])
  }

  /** Arithmetic mean; 0 for an empty list, as `average().orElse(0.0)` gives. */
  function Mean(xs: seq<int>): (r: real)
    ensures |xs| == 0 ==> r == 0.0
    ensures |xs| > 0 ==> r * (|xs| as real) == Sum(xs) as real
  {
    if |xs| == 0 then 0.0 else Sum(xs) as real / |xs| as real
  }

  /** `m` is the arithmetic mean of `xs`, taken as 0 when `xs` is empty. */
  ghost predicate IsMean(m: real, xs: seq<int>) {
    && (|xs| == 0 ==> m == 0.0)
    && (|xs| > 0 ==> m * (|xs| as real) == Sum(xs) as real)
  }

  /** The two averages of a run are the means of its metrics. */
  lemma AveragesAreMeans(procs: seq<Proc>)
    ensures IsMean(Mean(Waitings(procs)), Waitings(procs))
    ensures IsMean(Mean(Turnarounds(procs)), Turnarounds(procs))
  {
  }

  /** A sum of values that all lie in [lo, hi] lies in [n * lo, n * hi]. */
  lemma {:induction false} SumBounds(xs: seq<int>, lo: int, hi: int)
    requires forall k :: 0 <= k < |xs| ==> lo <= xs[k] <= hi
    ensures |xs| * lo <= Sum(xs) <= |xs| * hi
    decreases |xs|
  {
    if |xs| > 0 {
      SumBounds(xs[1..], lo, hi);
    }
  }

  /** The mean lies between any lower and upper bound of the values. */
  lemma MeanBounds(xs: seq<int>, lo: int, hi: int)
    requires |xs| > 0
    requires forall k :: 0 <= k < |xs| ==> lo <= xs[k] <= hi
    ensures lo as real <= Mean(xs) <= hi as real
  {
    SumBounds(xs, lo, hi);
    var n := |xs| as real;
    assert Mean(xs) * n == Sum(xs) as real;
    assert (lo as real) * n <= Mean(xs) * n <= (hi as real) * n;
  }

  /** The mean is at least any lower bound of the values. */
  lemma {:induction false} MeanAtLeast(xs: seq<int>, lo: int)
    requires lo <= 0 || |xs| > 0
    requires forall k :: 0 <= k < |xs| ==> lo <= xs[k]
    ensures lo as real <= Mean(xs)
    decreases |xs|
  {
    if |xs| > 0 {
      SumAtLeast(xs, lo);
      var n := |xs| as real;
      assert Mean(xs) * n == Sum(xs) as real;
      assert (lo as real) * n <= Sum(xs) as real;
    }
  }

  lemma {:induction false} SumAtLeast(xs: seq<int>, lo: int)
    requires forall k :: 0 <= k < |xs| ==> lo <= xs[k]
    ensures |xs| * lo <= Sum(xs)
    decreases |xs|
  {
    if |xs| > 0 {
      SumAtLeast(xs[1..], lo);
    }
  }

  function Waitings(procs: seq<Proc>): (r: seq<int>)
    ensures |r| == |procs| && forall i :: 0 <= i < |r| ==> r[i] == procs[i].waiting
  {
    seq(|procs|, i requires 0 <= i < |procs| => procs[i].waiting)
  }

  function Turnarounds(procs: seq<Proc>): (r: seq<int>)
    ensures |r| == |procs| && forall i :: 0 <= i < |r| ==> r[i] == procs[i].turnaround
  {
    seq(|procs|, i requires 0 <= i < |procs| => procs[i].turnaround)
  }
}
