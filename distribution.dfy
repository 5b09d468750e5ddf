/** A 1D distribution of a discretised function: the normalised prefix sums
    (the CDF) of `n` function values together with their mean, and sampling
    by binary search in the CDF. Arithmetic is over exact reals. */
module Distributions {

  /** f[0] + ... + f[i - 1]. */
  function PrefixSum(f: seq<real>, i: nat): real
    requires i <= |f|
  {
    if i == 0 then 0.0 else PrefixSum(f, i - 1) + f[i - 1]
  }

  /** What the normalisation divides by is non-zero: with a single element
      nothing is divided, otherwise the sum must not vanish. */
  predicate Normalizable(f: seq<real>, n: nat) {
    n >= 1 && |f| >= n && (n >= 2 ==> PrefixSum(f, n) != 0.0)
  }

  /** Entry `i` of the CDF of the first `n` values of `f`: 0 at 0, 1 at `n`,
      and the prefix sum over the total in between. */
  function CDFAt(f: seq<real>, n: nat, i: nat): real
    requires Normalizable(f, n) && i <= n
  {
    if i == 0 then 0.0 else if i == n then 1.0 else PrefixSum(f, i) / PrefixSum(f, n)
  }

  /** The whole CDF, `n + 1` entries. */
  function CDFOf(f: seq<real>, n: nat): (cdf: seq<real>)
    requires Normalizable(f, n)
    ensures |cdf| == n + 1 && cdf[0] == 0.0 && cdf[n] == 1.0
    ensures forall i :: 0 <= i <= n ==> cdf[i] == CDFAt(f, n, i)
  {
    seq(n + 1, i requires 0 <= i <= n => CDFAt(f, n, i))
  }

  /** Of non-negative values the prefix sums do not decrease. */
  lemma {:induction false} PrefixSumMonotone(f: seq<real>, i: nat, j: nat)
    requires i <= j <= |f|
    requires forall k :: 0 <= k < |f| ==> f[k] >= 0.0
    ensures 0.0 <= PrefixSum(f, i) <= PrefixSum(f, j)
    decreases j, i
  {
    if i < j {
      PrefixSumMonotone(f, i, j - 1);
    } else if i > 0 {
      PrefixSumMonotone(f, i - 1, i);
    }
  }

  /** For a non-negative function with a positive sum the CDF does not
      decrease and lies in [0, 1]. */
  lemma CDFMonotone(f: seq<real>, n: nat, i: nat, j: nat)
    requires n >= 1 && |f| >= n && PrefixSum(f, n) > 0.0
    requires forall k :: 0 <= k < |f| ==> f[k] >= 0.0
    requires i <= j <= n
    ensures 0.0 <= CDFAt(f, n, i) <= CDFAt(f, n, j) <= 1.0
  {
    PrefixSumMonotone(f, i, j);
    PrefixSumMonotone(f, j, n);
    var total := PrefixSum(f, n);
    Fraction(PrefixSum(f, i), PrefixSum(f, j), total);
  }

  /** Dividing by a positive bound keeps the order and maps into [0, 1]. */
  lemma Fraction(a: real, b: real, c: real)
    requires 0.0 <= a <= b <= c && c > 0.0
    ensures 0.0 <= a / c <= b / c <= 1.0
  {
    DivideMonotone(a, b, c);
    DivideMonotone(b, c, c);
    DivideMonotone(0.0, a, c);
    DivSelf(c);
  }

  lemma DivideMonotone(a: real, b: real, c: real)
    requires a <= b && c > 0.0
    ensures a / c <= b / c
  {
  }

  lemma DivideStrict(a: real, b: real, c: real)
    requires a < b && c > 0.0
    ensures a / c < b / c
  {
  }

  lemma DivSelf(c: real)
    requires c != 0.0
    ensures c / c == 1.0
  {
  }

  lemma DivSub(a: real, b: real, c: real)
    requires c != 0.0
    ensures a / c - b / c == (a - b) / c
  {
  }

  lemma DivMul(a: real, c: real)
    requires c != 0.0
    ensures a / c * c == a
  {
  }

  /** The bin in which `u` falls: for `n >= 1` the search stops with
      `lower + 1 == upper`. `lower` only moves to a bound whose CDF entry is
      at most `u` and `upper` only to one whose entry exceeds `u`. */
  method BinarySearch(u: real, cdf: array<real>, n: nat) returns (i: nat)
    requires n >= 1 && cdf.Length >= n + 1
    ensures i < n
    ensures i == 0 || cdf[i] <= u
    ensures i + 1 == n || u < cdf[i + 1]
  {
    var lower, upper := 0, n;
    while lower + 1 != upper
      invariant 0 <= lower < upper <= n
      invariant lower == 0 || cdf[lower] <= u
      invariant upper == n || u < cdf[upper]
      decreases upper - lower
    {
      var middle := (lower + upper) / 2;
      if u < cdf[middle] {
        upper := middle;
      } else {
        lower := middle;
      }
    }
    i := lower;
  }

  /** One sample: the chosen index or position, and its density. */
  datatype Sample<T> = Sample(index: T, pdf: real)

  class Distribution1D {
    const elementCount: nat
    var integral: real
    const cdf: array<real>

    /** The function values the distribution was built from. */
    ghost const values: seq<real>

    /** The CDF array holds the CDF of the values and the integral is
        their mean. */
    ghost predicate Valid()
      reads this, cdf
    {
      && Normalizable(values, elementCount) && |values| == elementCount
      && cdf[..] == CDFOf(values, elementCount)
      && integral == PrefixSum(values, elementCount) / (elementCount as real)
    }

    /** Builds the distribution of the first `elementCount` values. */
    constructor (fs: seq<real>, elementCount: nat)
      requires Normalizable(fs, elementCount)
      ensures Valid() && fresh(cdf)
      ensures this.elementCount == elementCount && values == fs[..elementCount]
    {
      this.elementCount := elementCount;
      values := fs[..elementCount];
      cdf := new real[elementCount + 1];
      new;
      PrefixSumOfPrefix(fs, elementCount);
      integral := ComputeCDF(fs, elementCount, cdf);
    }

    static lemma PrefixSumOfPrefix(f: seq<real>, n: nat)
      requires n <= |f|
      ensures forall i :: 0 <= i <= n ==> PrefixSum(f[..n], i) == PrefixSum(f, i)
    {
      forall i | 0 <= i <= n ensures PrefixSum(f[..n], i) == PrefixSum(f, i) {
        PrefixSumOfPrefixAt(f, n, i);
      }
    }

    static lemma {:induction false} PrefixSumOfPrefixAt(f: seq<real>, n: nat, i: nat)
      requires i <= n <= |f|
      ensures PrefixSum(f[..n], i) == PrefixSum(f, i)
    {
      if i > 0 {
        PrefixSumOfPrefixAt(f, n, i - 1);
      }
    }

    /** Writes the running sums of the values into `cdf`, divides the inner
        entries by the total, sets the last to 1, and returns the mean. */
    static method ComputeCDF(fs: seq<real>, n: nat, cdf: array<real>) returns (integral: real)
      requires Normalizable(fs, n) && cdf.Length == n + 1
      modifies cdf
      ensures cdf[..] == CDFOf(fs, n)
      ensures integral == PrefixSum(fs, n) / (n as real)
    {
      // Step function.
      cdf[0] := 0.0;
      var i := 0;
      while i < n
        invariant 0 <= i <= n
        invariant forall j :: 0 <= j <= i ==> cdf[j] == PrefixSum(fs, j)
      {
        cdf[i + 1] := cdf[i] + fs[i];
        i := i + 1;
      }
      var total := cdf[n];
      integral := total / (n as real);

      // Normalisation.
      i := 1;
      while i < n
        invariant 1 <= i <= n
        invariant cdf[0] == 0.0 && cdf[n] == total
        invariant forall j :: 1 <= j < i ==> cdf[j] == PrefixSum(fs, j) / total
        invariant forall j :: i <= j <= n ==> cdf[j] == PrefixSum(fs, j)
      {
        cdf[i] := cdf[i] / cdf[n];
        i := i + 1;
      }
      cdf[n] := 1.0;
      assert forall j :: 0 <= j <= n ==> cdf[j] == CDFAt(fs, n, j);
    }

    function GetElementCount(): nat
      reads this
    {
      elementCount
    }

    function GetIntegral(): real
      reads this
    {
      integral
    }

    /** The number of CDF entries, which is the length of the CDF array. */
    function GetCDFSize(): (size: nat)
      reads this, cdf
      requires Valid()
      ensures size == cdf.Length
    {
      elementCount + 1
    }

    /** The width of bin `i` scaled back by the element count and the
        integral: in exact arithmetic, the function value it was built from. */
    function Evaluate(i: nat): (value: real)
      reads this, cdf
      requires Valid() && i < elementCount
      ensures value == values[i]
    {
      EvaluateRecovers(i);
      (cdf[i + 1] - cdf[i]) * (elementCount as real) * integral
    }

    lemma EvaluateRecovers(i: nat)
      requires Valid() && i < elementCount
      ensures (cdf[i + 1] - cdf[i]) * (elementCount as real) * integral == values[i]
    {
      var n, f := elementCount, values;
      var total := PrefixSum(f, n);
      assert cdf[i] == CDFOf(f, n)[i] && cdf[i + 1] == CDFOf(f, n)[i + 1];
      BinWidth(f, n, i);
      if n == 1 {
        assert total == f[0];
        DivMul(total, 1.0);
      } else {
        ScaleBack(f[i], total, n as real);
      }
    }

    /** The width of CDF bin `i` is the value over the total. */
    static lemma BinWidth(f: seq<real>, n: nat, i: nat)
      requires Normalizable(f, n) && i < n
      ensures n == 1 ==> CDFAt(f, n, i + 1) - CDFAt(f, n, i) == 1.0
      ensures n >= 2 ==> CDFAt(f, n, i + 1) - CDFAt(f, n, i) == f[i] / PrefixSum(f, n)
    {
      var total := PrefixSum(f, n);
      assert PrefixSum(f, i + 1) - PrefixSum(f, i) == f[i];
      if n >= 2 {
        if i + 1 == n {
          DivSelf(total);
          DivSub(total, PrefixSum(f, i), total);
        } else if i == 0 {
          assert PrefixSum(f, 1) == f[0];
        } else {
          DivSub(PrefixSum(f, i + 1), PrefixSum(f, i), total);
        }
      }
    }

    static lemma ScaleBack(a: real, total: real, n: real)
      requires total != 0.0 && n > 0.0
      ensures (a / total) * n * (total / n) == a
    {
      DivMul(total, n);
      assert (a / total) * n * (total / n) == (a / total) * total;
      DivMul(a, total);
    }

    /** Evaluation at a position in [0, 1): the bin the position falls in
        (the conversion to int truncates, which is the floor here). */
    function EvaluateAt(u: real): (value: real)
      reads this, cdf
      requires Valid() && 0.0 <= u < 1.0
      ensures var i := (u * (elementCount as real)).Floor; 0 <= i < elementCount && value == values[i]
    {
      var i := (u * (elementCount as real)).Floor;
      Evaluate(i)
    }

    /** A bin drawn with probability proportional to its function value, for
        `0 <= u < 1`. The bin has positive width, so its density is positive. */
    method SampleDiscrete(u: real) returns (s: Sample<nat>)
      requires Valid() && 0.0 <= u < 1.0
      ensures s.index < elementCount
      ensures cdf[s.index] <= u < cdf[s.index + 1]
      ensures s.pdf == cdf[s.index + 1] - cdf[s.index] && s.pdf > 0.0
    {
      var i := BinarySearch(u, cdf, elementCount);
      assert cdf[0] == 0.0 && cdf[elementCount] == 1.0;
      var pdf := cdf[i + 1] - cdf[i];
      s := Sample(i, pdf);
    }

    /** A position in [0, 1) drawn with density proportional to the function:
        the bin found by the search, plus the inverse interpolation of `u`
        within it, scaled to the domain. */
    method SampleContinuous(u: real) returns (s: Sample<real>)
      requires Valid() && 0.0 <= u < 1.0
      ensures exists i :: 0 <= i < elementCount && cdf[i] <= u < cdf[i + 1] && SampleIn(s, i, u)
    {
      var i := BinarySearch(u, cdf, elementCount);
      assert cdf[0] == 0.0 && cdf[elementCount] == 1.0;
      var cdfAtI := cdf[i];
      var di := (u - cdfAtI) / (cdf[i + 1] - cdfAtI);
      var pdf := (cdf[i + 1] - cdf[i]) * (elementCount as real);
      s := Sample((i as real + di) / (elementCount as real), pdf);
      InverseLerp(u, cdf[i], cdf[i + 1], i as real, elementCount as real);
      assert SampleIn(s, i, u);
    }

    /** The sample lies in bin `i`, [i/n, (i+1)/n), its density is the bin
        width times `n`, and interpolating the CDF at the sample gives `u` back. */
    ghost predicate SampleIn(s: Sample<real>, i: nat, u: real)
      reads this, cdf
      requires i < elementCount && i + 1 < cdf.Length
    {
      var n := elementCount as real;
      && (i as real) / n <= s.index < (i as real + 1.0) / n
      && s.pdf == (cdf[i + 1] - cdf[i]) * n
      && cdf[i] + (s.index * n - i as real) * (cdf[i + 1] - cdf[i]) == u
    }

    static lemma InverseLerp(u: real, lo: real, hi: real, i: real, n: real)
      requires lo <= u < hi && n > 0.0
      ensures var d := (u - lo) / (hi - lo);
        && 0.0 <= d < 1.0
        && i / n <= (i + d) / n < (i + 1.0) / n
        && lo + ((i + d) / n * n - i) * (hi - lo) == u
    {
      var d := (u - lo) / (hi - lo);
      DivideMonotone(0.0, u - lo, hi - lo);
      DivideStrict(u - lo, hi - lo, hi - lo);
      DivSelf(hi - lo);
      DivideMonotone(i, i + d, n);
      DivideStrict(i + d, i + 1.0, n);
      DivMul(u - lo, hi - lo);
      DivMul(i + d, n);
    }
  }
}
