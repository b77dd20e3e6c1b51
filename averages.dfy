/** The rating mean that both `getAverageRating` (vehicles) and `getAverageDriverRating`
    (drivers) compute: 5 when there is nothing to average, otherwise sum / count. */
module Averages {

  function Sum(xs: seq<int>): int {
    if xs == [] then 0 else xs[0] + Sum(xs[1..])
  }

  lemma {:induction false} SumAppend(xs: seq<int>, ys: seq<int>)
    ensures Sum(xs + ys) == Sum(xs) + Sum(ys)
  {
    if xs != [] {
      assert (xs + ys)[1..] == xs[1..] + ys;
      SumAppend(xs[1..], ys);
    } else {
      assert xs + ys == ys;
    }
  }

  /** A sum of scores that each lie in [lo, hi] lies in [|xs| * lo, |xs| * hi]. */
  lemma {:induction false} SumBounds(xs: seq<int>, lo: int, hi: int)
    requires forall i :: 0 <= i < |xs| ==> lo <= xs[i] <= hi
    ensures |xs| * lo <= Sum(xs) <= |xs| * hi
  {
    if xs != [] {
      SumBounds(xs[1..], lo, hi);
      MulSucc(|xs[1..]|, lo);
      MulSucc(|xs[1..]|, hi);
    }
  }

  lemma MulSucc(m: int, c: int)
    ensures (m + 1) * c == m * c + c
  {
  }

  /** The default both endpoints answer when no rating exists. */
  const DefaultRating: real := 5.0

  /** The reported average: the default for no scores, otherwise the value whose
      `|xs|`-fold is the sum, i.e. the arithmetic mean. */
  function AverageOrDefault(xs: seq<int>): (r: real)
    ensures xs == [] ==> r == DefaultRating
    ensures xs != [] ==> r * (|xs| as real) == Sum(xs) as real
  {
    if xs == [] then DefaultRating else Sum(xs) as real / (|xs| as real)
  }

  /** When every score lies in [lo, hi], so does the average (and the default 5 too,
      when it lies in that range). */
  lemma AverageBounds(xs: seq<int>, lo: int, hi: int)
    requires forall i :: 0 <= i < |xs| ==> lo <= xs[i] <= hi
    requires lo as real <= DefaultRating <= hi as real
    ensures lo as real <= AverageOrDefault(xs) <= hi as real
  {
    if xs != [] {
      SumBounds(xs, lo, hi);
      MeanOfBounded(Sum(xs), |xs|, lo, hi, AverageOrDefault(xs));
    }
  }

  /** A mean of `k` scores whose total lies in [k * lo, k * hi] lies in [lo, hi]. */
  lemma MeanOfBounded(total: int, k: int, lo: int, hi: int, avg: real)
    requires k > 0 && k * lo <= total <= k * hi
    requires avg * (k as real) == total as real
    ensures lo as real <= avg <= hi as real
  {
    IntToRealProduct(k, lo);
    IntToRealProduct(k, hi);
    MeanBetween(avg, k as real, lo as real, hi as real);
  }

  lemma IntToRealProduct(n: int, k: int)
    ensures (n * k) as real == (n as real) * (k as real)
  {
  }

  /** A value whose n-fold lies between n * lo and n * hi, for positive n, lies between
      lo and hi. */
  lemma MeanBetween(avg: real, n: real, lo: real, hi: real)
    requires n > 0.0
    requires n * lo <= avg * n <= n * hi
    ensures lo <= avg <= hi
  {
    var below, above := avg - lo, hi - avg;
    assert below * n >= 0.0 && above * n >= 0.0;
    assert below == (below * n) / n && above == (above * n) / n;
  }
}
