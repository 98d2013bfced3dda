/** Online means and deviations of a stream of samples, against their definitions. */
module OnlineStatistics {

  // ----- Online means and deviations -----

  datatype Welford = Welford(mean: real, m2: real)

  /** Products, named so that a proof can leave them alone. */
  function Times(a: real, b: real): real {
    a * b
  }

  /** One step of Welford's algorithm, for the n-th sample. */
  function WelfordStep(w: Welford, n: nat, x: real): Welford
    requires n > 0
  {
    var delta := x - w.mean;
    var mean := w.mean + delta / n as real;
    Welford(mean, w.m2 + Times(delta, x - mean))
  }

  function WelfordFold(xs: seq<real>): Welford {
    if xs == [] then Welford(0.0, 0.0)
    else WelfordStep(WelfordFold(xs[..|xs| - 1]), |xs|, xs[|xs| - 1])
  }

  function Sum(xs: seq<real>): real {
    if xs == [] then 0.0 else Sum(xs[..|xs| - 1]) + xs[|xs| - 1]
  }

  /** The sum of the squared deviations from a given value. */
  function SquaredDeviations(xs: seq<real>, from: real): real {
    if xs == [] then 0.0
    else SquaredDeviations(xs[..|xs| - 1], from) + Times(xs[|xs| - 1] - from, xs[|xs| - 1] - from)
  }

  /** The mean of a sequence, zero if it is empty. */
  ghost predicate IsMean(mean: real, xs: seq<real>) {
    Times(mean, |xs| as real) == Sum(xs) && (xs == [] ==> mean == 0.0)
  }

  function SumOfSquares(xs: seq<real>): real {
    if xs == [] then 0.0 else SumOfSquares(xs[..|xs| - 1]) + Times(xs[|xs| - 1], xs[|xs| - 1])
  }

  function Expanded(n: nat, s: real, q: real, m: real): real {
    q - 2.0 * m * s + m * m * n as real
  }

  lemma ExpandSquare(n: nat, s: real, q: real, x: real, m: real)
    ensures Expanded(n, s, q, m) + Times(x - m, x - m) == Expanded(n + 1, s + x, q + Times(x, x), m)
  {
  }

  lemma {:induction false} DeviationsExpand(xs: seq<real>, m: real)
    ensures SquaredDeviations(xs, m) == Expanded(|xs|, Sum(xs), SumOfSquares(xs), m)
  {
    if xs != [] {
      hide Times, Expanded;
      var front := xs[..|xs| - 1];
      DeviationsExpand(front, m);
      ExpandSquare(|front|, Sum(front), SumOfSquares(front), xs[|xs| - 1], m);
    }
  }

  lemma MeanAfterStep(mean: real, n: real, x: real, mean': real)
    requires n > 0.0 && mean' == mean + (x - mean) / n
    ensures Times(mean', n) == Times(mean, n - 1.0) + x
  {
    assert (x - mean) / n * n == x - mean;
  }

  /** With the mean known, the accumulator is the sum of squares less mean times sum. */
  lemma AccumulatorAfterStep(q: real, s: real, mean: real, n: real, x: real, mean': real, m2: real)
    requires Times(mean, n - 1.0) == s && Times(mean', n) == s + x
    requires m2 == q - Times(mean, s)
    ensures m2 + Times(x - mean, x - mean') == q + Times(x, x) - Times(mean', s + x)
  {
    assert mean' * (mean * n) == mean * (mean' * n);
    assert mean * n == s + mean;
    assert mean' * (s + mean) == mean * (s + x);
  }

  /** The state belongs to `n` samples with sum `s` and sum of squares `q`. */
  ghost predicate Exact(w: Welford, n: nat, s: real, q: real) {
    Times(w.mean, n as real) == s && w.m2 == q - Times(w.mean, s)
  }

  lemma StepIsExact(w: Welford, n: nat, s: real, q: real, x: real)
    requires n > 0 && Exact(w, n - 1, s, q)
    ensures Exact(WelfordStep(w, n, x), n, s + x, q + Times(x, x))
  {
    hide Times;
    var mean' := WelfordStep(w, n, x).mean;
    MeanAfterStep(w.mean, n as real, x, mean');
    AccumulatorAfterStep(q, s, w.mean, n as real, x, mean', w.m2);
  }

  lemma {:induction false} WelfordKeeps(xs: seq<real>)
    ensures Exact(WelfordFold(xs), |xs|, Sum(xs), SumOfSquares(xs))
  {
    if xs == [] {
      return;
    }
    hide Times, WelfordStep;
    var front := xs[..|xs| - 1];
    WelfordKeeps(front);
    StepIsExact(WelfordFold(front), |xs|, Sum(front), SumOfSquares(front), xs[|xs| - 1]);
  }

  lemma DeviationFromMean(w: Welford, n: nat, s: real, q: real, deviations: real)
    requires Exact(w, n, s, q)
    requires deviations == Expanded(n, s, q, w.mean)
    ensures w.m2 == deviations
  {
    assert w.mean * w.mean * n as real == w.mean * (w.mean * n as real);
  }

  /** Welford's algorithm is exact on every sequence: mean, and squared deviations from it. */
  lemma WelfordIsExact(xs: seq<real>)
    ensures IsMean(WelfordFold(xs).mean, xs)
    ensures WelfordFold(xs).m2 == SquaredDeviations(xs, WelfordFold(xs).mean)
  {
    var w := WelfordFold(xs);
    hide Times, Expanded;
    WelfordKeeps(xs);
    DeviationsExpand(xs, w.mean);
    DeviationFromMean(w, |xs|, Sum(xs), SumOfSquares(xs), SquaredDeviations(xs, w.mean));
  }

  lemma {:induction false} WelfordAppends(xs: seq<real>, x: real)
    ensures WelfordFold(xs + [x]) == WelfordStep(WelfordFold(xs), |xs| + 1, x)
  {
    assert (xs + [x])[..|xs|] == xs;
  }

  /** The mean of one more sample, as the flow computes it. */
  function MeanStep(mean: real, n: nat, x: real): real {
    (mean * n as real + x) / (n + 1) as real
  }

  function RunningMean(xs: seq<real>): real {
    if xs == [] then 0.0 else MeanStep(RunningMean(xs[..|xs| - 1]), |xs| - 1, xs[|xs| - 1])
  }

  lemma {:induction false} RunningMeanIsMean(xs: seq<real>)
    ensures IsMean(RunningMean(xs), xs)
  {
    if xs != [] {
      var front, x := xs[..|xs| - 1], xs[|xs| - 1];
      RunningMeanIsMean(front);
      var total := RunningMean(front) * |front| as real + x;
      assert total / |xs| as real * |xs| as real == total;
    }
  }

  lemma RunningMeanAppends(xs: seq<real>, x: real)
    ensures RunningMean(xs + [x]) == MeanStep(RunningMean(xs), |xs|, x)
  {
    assert (xs + [x])[..|xs|] == xs;
  }

  /** A sample equal to the mean leaves it alone. */
  lemma MeanOfMean(mean: real, n: nat)
    ensures MeanStep(mean, n, mean) == mean
  {
    var m := (n + 1) as real;
    assert mean * n as real + mean == mean * m;
    assert mean * m / m == mean;
  }
}
