/**
 * The integer part of the distribution analysis that checks the random
 * operand generators: it counts repeated values, finds the smallest and the
 * largest value, and sorts the values into `floor(sqrt(n))` equal-width
 * buckets. The floating-point uniformity score computed from the buckets is
 * not part of this model.
 */
module Distribution {
  import opened JavaInts

  /**
   * What the analysis has established when it returns. `Flat` is the early
   * return for an input whose smallest and largest values coincide; `Spread`
   * holds the state from which the floating-point score is computed.
   */
  datatype Analysis =
    | Flat(score: int)
    | Spread(duplicates: int32, minValue: int32, maxValue: int32, buckets: seq<int32>)

  // -----------------------------------------------------------------------
  // Bucket count

  /**
   * `(int) Math.sqrt(n)`. For `n` below 2^52 the square root of a double is
   * rounded correctly and the cast truncates, so the result is the exact
   * integer square root.
   */
  function FloorSqrt(n: nat): (r: nat)
    ensures r * r <= n < (r + 1) * (r + 1)
    ensures r <= n && (n > 0 ==> r > 0)
  {
    if n == 0 then 0
    else
      var r := FloorSqrt(n - 1);
      if (r + 1) * (r + 1) <= n then r + 1 else r
  }

  /** At most one number has the defining property, so FloorSqrt is the only such number. */
  lemma FloorSqrtUnique(n: nat, r: nat)
    requires r * r <= n < (r + 1) * (r + 1)
    ensures r == FloorSqrt(n)
  {
    var s := FloorSqrt(n);
    if r < s {
      MulMonotonic(r + 1, r + 1, s);
      MulMonotonic(s, r + 1, s);
    } else if s < r {
      MulMonotonic(s + 1, s + 1, r);
      MulMonotonic(r, s + 1, r);
    }
  }

  // -----------------------------------------------------------------------
  // Bucket index

  /** The `long` width of the value range, `(long) maxValue - minValue + 1`. */
  function Range(lo: int32, hi: int32): (r: int64)
    requires lo <= hi
    ensures r == hi - lo + 1 && r > 0
  {
    WrapLong(WrapLong(hi as int - lo as int) + 1)
  }

  lemma DivMonotonic(a: nat, b: nat, d: nat)
    requires a <= b && d > 0
    ensures a / d <= b / d
  {
    if a / d > b / d {
      MulMonotonic(d, b / d + 1, a / d);
    }
  }

  lemma QuotientBelow(x: nat, d: nat, bound: nat)
    requires d > 0 && x < d * bound
    ensures x / d < bound
  {
    if x / d >= bound {
      MulMonotonic(d, bound, x / d);
    }
  }

  /** The bucket's offset times the bucket count stays below 2^63, so the `long` product never wraps. */
  lemma ProductFitsLong(offset: nat, bc: nat)
    requires offset <= 0xFFFF_FFFF && bc <= INT_MAX
    ensures offset * bc <= LONG_MAX
  {
    MulMonotonic(bc, offset, 0xFFFF_FFFF);
    MulMonotonic(0xFFFF_FFFF, bc, INT_MAX);
  }

  /** An offset below the range, scaled by `bc` and divided by the range, stays below `bc`. */
  lemma ScaledOffsetBelow(offset: nat, range: nat, bc: nat)
    requires offset < range && 0 < bc
    ensures offset * bc / range < bc
  {
    MulMonotonic(bc, offset + 1, range);
    assert bc * (offset + 1) == offset * bc + bc;
    QuotientBelow(offset * bc, range, bc);
  }

  /** A quotient in `int` range survives the narrowing cast. */
  lemma QuotientIsInt(q: int)
    requires 0 <= q <= INT_MAX
    ensures WrapInt(q) == q
  {
  }

  /** A product known to fit in a `long` is not wrapped. */
  lemma ProductExact(offset: nat, bc: nat)
    requires offset * bc <= LONG_MAX
    ensures WrapLong(offset * bc) == offset * bc
  {
  }

  /** The Java expression for the index, evaluated with wrap-around, is the exact quotient. */
  lemma IndexArithmetic(value: int32, lo: int32, hi: int32, bc: nat)
    requires lo <= value <= hi && 0 < bc <= INT_MAX
    ensures var q := WrapInt(LongDiv(WrapLong(WrapLong(value as int - lo as int) * bc), Range(lo, hi)));
            q == (value - lo) * bc / (hi - lo + 1) && 0 <= q < bc
  {
    var offset := WrapLong(value as int - lo as int);
    assert offset == value - lo;
    var range := Range(lo, hi);
    ProductFitsLong(offset, bc);
    ProductExact(offset, bc);
    MulMonotonic(offset, 0, bc);
    var product: int64 := offset * bc;
    assert WrapLong(WrapLong(value as int - lo as int) * bc) == product;
    ScaledOffsetBelow(offset, range, bc);
    var q := LongDiv(product, range);
    assert q == product / range;
    QuotientIsInt(q);
    assert product == (value - lo) * bc && range == hi - lo + 1;
  }

  /**
   * `(int) (((long) value - minValue) * bucketCount / range)`, each operation
   * with Java's own `long`/`int` semantics. None of them wraps, and the index
   * is a valid position in `bucketCount` buckets.
   */
  function BucketIndex(value: int32, lo: int32, hi: int32, bc: nat): (r: int32)
    requires lo <= value <= hi && 0 < bc <= INT_MAX
    ensures 0 <= r < bc
    ensures r == (value - lo) * bc / (hi - lo + 1)
  {
    IndexArithmetic(value, lo, hi, bc);
    WrapInt(LongDiv(WrapLong(WrapLong(value as int - lo as int) * bc), Range(lo, hi)))
  }

  /** The smallest value lands in the first bucket, and larger values never land in an earlier bucket. */
  lemma BucketIndexMonotonic(v1: int32, v2: int32, lo: int32, hi: int32, bc: nat)
    requires lo <= v1 <= v2 <= hi && 0 < bc <= INT_MAX
    ensures BucketIndex(lo, lo, hi, bc) == 0
    ensures BucketIndex(v1, lo, hi, bc) <= BucketIndex(v2, lo, hi, bc)
  {
    MulMonotonic(bc, v1 - lo, v2 - lo);
    DivMonotonic((v1 - lo) * bc, (v2 - lo) * bc, hi - lo + 1);
  }

  // -----------------------------------------------------------------------
  // Buckets

  predicate Within(s: seq<int32>, lo: int32, hi: int32)
  {
    forall k :: 0 <= k < |s| ==> lo <= s[k] <= hi
  }

  /** The bucket counts after the values of `s` have been added one after the other. */
  function Histogram(s: seq<int32>, lo: int32, hi: int32, bc: nat): (h: seq<int>)
    requires Within(s, lo, hi) && 0 < bc <= INT_MAX
    ensures |h| == bc
    ensures forall b :: 0 <= b < bc ==> 0 <= h[b] <= |s|
  {
    if |s| == 0 then seq(bc, _ => 0)
    else
      var h := Histogram(s[..|s| - 1], lo, hi, bc);
      var b := BucketIndex(s[|s| - 1], lo, hi, bc);
      h[b := h[b] + 1]
  }

  /** The positions of `s` whose value falls into bucket `b`. */
  ghost function InBucket(s: seq<int32>, lo: int32, hi: int32, bc: nat, b: int): set<nat>
    requires Within(s, lo, hi) && 0 < bc <= INT_MAX
  {
    set k: nat | k < |s| && BucketIndex(s[k], lo, hi, bc) == b
  }

  /** Appending a value adds its position to its own bucket and to no other. */
  lemma InBucketExtend(s: seq<int32>, lo: int32, hi: int32, bc: nat, b: int)
    requires |s| > 0 && Within(s, lo, hi) && 0 < bc <= INT_MAX
    ensures var n := |s| - 1;
      InBucket(s, lo, hi, bc, b) ==
        InBucket(s[..n], lo, hi, bc, b) + (if BucketIndex(s[n], lo, hi, bc) == b then {n} else {})
  {
    var n := |s| - 1;
    var prefix := s[..n];
    forall k: nat | k < n ensures s[k] == prefix[k] { }
  }

  /** Bucket `b` counts exactly the values that map to `b`. */
  lemma {:induction false} HistogramCounts(s: seq<int32>, lo: int32, hi: int32, bc: nat, b: nat)
    requires Within(s, lo, hi) && 0 < bc <= INT_MAX && b < bc
    ensures Histogram(s, lo, hi, bc)[b] == |InBucket(s, lo, hi, bc, b)|
  {
    if |s| == 0 {
      assert InBucket(s, lo, hi, bc, b) == {};
    } else {
      var n := |s| - 1;
      HistogramCounts(s[..n], lo, hi, bc, b);
      InBucketExtend(s, lo, hi, bc, b);
    }
  }

  function Sum(h: seq<int>): int
  {
    if |h| == 0 then 0 else Sum(h[..|h| - 1]) + h[|h| - 1]
  }

  lemma {:induction false} SumIncrement(h: seq<int>, b: nat)
    requires b < |h|
    ensures Sum(h[b := h[b] + 1]) == Sum(h) + 1
  {
    var n := |h| - 1;
    var g := h[b := h[b] + 1];
    assert g[..n] == if b < n then h[..n][b := h[b] + 1] else h[..n];
    if b < n {
      SumIncrement(h[..n], b);
    }
  }

  lemma {:induction false} SumZeros(bc: nat)
    ensures Sum(seq(bc, _ => 0)) == 0
  {
    if bc > 0 {
      assert seq(bc, _ => 0)[..bc - 1] == seq(bc - 1, _ => 0);
      SumZeros(bc - 1);
    }
  }

  /** Every value is counted in exactly one bucket: the counts add up to the number of values. */
  lemma {:induction false} HistogramSum(s: seq<int32>, lo: int32, hi: int32, bc: nat)
    requires Within(s, lo, hi) && 0 < bc <= INT_MAX
    ensures Sum(Histogram(s, lo, hi, bc)) == |s|
  {
    if |s| == 0 {
      SumZeros(bc);
    } else {
      var n := |s| - 1;
      WithinPrefix(s, n, lo, hi);
      var h := Histogram(s[..n], lo, hi, bc);
      var b := BucketIndex(s[n], lo, hi, bc);
      assert Histogram(s, lo, hi, bc) == h[b := h[b] + 1];
      HistogramSum(s[..n], lo, hi, bc);
      SumIncrement(h, b);
    }
  }

  // -----------------------------------------------------------------------
  // The analysis

  function Distinct(s: seq<int32>): set<int32>
  {
    set v | v in s
  }

  lemma DistinctBound(s: seq<int32>)
    ensures |Distinct(s)| <= |s|
  {
    if |s| > 0 {
      var n := |s| - 1;
      DistinctBound(s[..n]);
      assert Distinct(s) == Distinct(s[..n]) + {s[n]};
    }
  }

  /** Adding a value grows the distinct set by one exactly when the value is new. */
  lemma DistinctExtend(s: seq<int32>, v: int32)
    ensures Distinct(s + [v]) == Distinct(s) + {v}
    ensures |Distinct(s + [v])| == |Distinct(s)| + (if v in Distinct(s) then 0 else 1)
  {
    assert Distinct(s + [v]) == Distinct(s) + {v};
  }

  predicate Constant(s: seq<int32>)
  {
    forall k :: 0 <= k < |s| ==> s[k] == s[0]
  }

  lemma WithinExtend(s: seq<int32>, v: int32, lo: int32, hi: int32, lo': int32, hi': int32)
    requires Within(s, lo, hi) && lo' <= lo && hi <= hi' && lo' <= v <= hi'
    ensures Within(s + [v], lo', hi')
  {
  }

  lemma WithinPrefix(s: seq<int32>, n: nat, lo: int32, hi: int32)
    requires Within(s, lo, hi) && n <= |s|
    ensures Within(s[..n], lo, hi)
  {
  }

  /** Bounds that are attained coincide exactly when all values are equal. */
  lemma BoundsMeetIffConstant(s: seq<int32>, lo: int32, hi: int32)
    requires lo in s && hi in s && Within(s, lo, hi)
    ensures lo == hi <==> Constant(s)
  {
    if Constant(s) {
      var i :| 0 <= i < |s| && s[i] == lo;
      var j :| 0 <= j < |s| && s[j] == hi;
      assert s[i] == s[0] == s[j];
    }
  }

  /** Adding the next value of `s` to the histogram of its prefix bumps that value's bucket. */
  lemma HistogramStep(s: seq<int32>, i: nat, lo: int32, hi: int32, bc: nat)
    requires Within(s, lo, hi) && i < |s| && 0 < bc <= INT_MAX
    ensures Within(s[..i], lo, hi) && Within(s[..i + 1], lo, hi)
    ensures var h := Histogram(s[..i], lo, hi, bc);
      var b := BucketIndex(s[i], lo, hi, bc);
      Histogram(s[..i + 1], lo, hi, bc) == h[b := h[b] + 1]
  {
    WithinPrefix(s, i + 1, lo, hi);
    assert s[..i + 1][..i] == s[..i];
  }

  /**
   * The second pass of the analysis: `floor(sqrt(n))` buckets of equal width
   * over [minValue, maxValue], each value added to the bucket of its index.
   */
  method FillBuckets(values: array<int32>, minValue: int32, maxValue: int32) returns (counts: seq<int32>)
    requires 0 < values.Length <= INT_MAX
    requires Within(values[..], minValue, maxValue)
    ensures counts == Histogram(values[..], minValue, maxValue, FloorSqrt(values.Length))
  {
    var size := values.Length;
    var bucketCount := FloorSqrt(size);
    var s := values[..];
    var buckets := new int32[bucketCount](_ => 0);
    var i := 0;
    while i < size
      invariant 0 <= i <= size
      invariant Within(s[..i], minValue, maxValue)
      invariant buckets[..] == Histogram(s[..i], minValue, maxValue, bucketCount)
    {
      HistogramStep(s, i, minValue, maxValue, bucketCount);
      var index := BucketIndex(s[i], minValue, maxValue, bucketCount);
      buckets[index] := buckets[index] + 1;
      i := i + 1;
    }
    assert s[..size] == s;
    counts := buckets[..];
  }

  /**
   * `duplicates` counts the values already seen, so it is the number of
   * values minus the number of distinct ones. The minimum and the maximum are
   * values of the input that bound all of it. Equal minimum and maximum means
   * all values are equal, and then the result is 0 whatever the count of
   * duplicates. Otherwise the buckets hold the histogram of all values over
   * `floor(sqrt(n))` buckets of the range [minimum, maximum]. An empty input
   * leaves the initial extremes and no buckets: `floor(sqrt(0))` is 0.
   */
  method AnalyzeDistribution(values: array<int32>) returns (result: Analysis)
    requires values.Length <= INT_MAX
    ensures values.Length == 0 ==> result == Spread(0, INT_MAX, INT_MIN, [])
    ensures values.Length > 0 ==> (result.Flat? <==> Constant(values[..]))
    ensures result.Flat? ==> result.score == 0
    ensures result.Spread? ==> result.duplicates == values.Length - |Distinct(values[..])|
    ensures result.Spread? && values.Length > 0 ==>
      && result.minValue in values[..] && result.maxValue in values[..]
      && Within(values[..], result.minValue, result.maxValue)
      && result.minValue < result.maxValue
      && result.buckets == Histogram(values[..], result.minValue, result.maxValue, FloorSqrt(values.Length))
  {
    var size := values.Length;
    var distinct: set<int32> := {};
    var duplicates: int32 := 0;
    var minValue: int32 := INT_MAX;
    var maxValue: int32 := INT_MIN;
    var i := 0;
    while i < size
      invariant 0 <= i <= size
      invariant distinct == Distinct(values[..i])
      invariant duplicates == i - |distinct|
      invariant i == 0 ==> minValue == INT_MAX && maxValue == INT_MIN
      invariant i > 0 ==> minValue in values[..i] && maxValue in values[..i]
      invariant Within(values[..i], minValue, maxValue)
    {
      var value := values[i];
      assert values[..i + 1] == values[..i] + [value];
      DistinctBound(values[..i]);
      DistinctExtend(values[..i], value);
      if value in distinct {
        duplicates := duplicates + 1;
      }
      distinct := distinct + {value};
      var newMin := if value < minValue then value else minValue;
      var newMax := if value > maxValue then value else maxValue;
      WithinExtend(values[..i], value, minValue, maxValue, newMin, newMax);
      minValue, maxValue := newMin, newMax;
      i := i + 1;
    }
    assert values[..size] == values[..];
    if size == 0 {
      result := Spread(duplicates, minValue, maxValue, []);
      return;
    }
    BoundsMeetIffConstant(values[..], minValue, maxValue);
    if minValue == maxValue {
      result := Flat(if duplicates == 0 then duplicates as int else 0);
      return;
    }

    var buckets := FillBuckets(values, minValue, maxValue);
    result := Spread(duplicates, minValue, maxValue, buckets);
  }
}
