# ImmutableQuadruple: façade, comparison oracle and distribution analysis

This project models three pieces of ImmutableQuadrupleExperiment: the
immutable wrapper `ImmutableQuadruple` around the mutable 128-bit
floating-point engine `Quadruple`, the ordering oracle the comparison tests
check against, and the integer part of the distribution analysis the random
generator tests use.

- `java_ints.dfy` (module `JavaInts`): Java's `int` and `long`. It models
  two's-complement wrap-around, the `long` division that truncates toward
  zero, reading a 32-bit exponent as a signed `int`, and the sign extension
  of `int` into `long`.
- `engine.dfy` (module `Engine`): the engine `Quadruple` as a class.
  - Its state is the sign flag, the 32-bit biased exponent and the two 64-bit
    halves of the mantissa fraction.
  - Its algorithms are not part of this model. They enter as an `Algorithms`
    record of functions from operand values to result values.
  - The one exception is `negate`. It is a concrete sign flip that keeps the
    exponent and the mantissa: the documented result has the same magnitude
    and the opposite sign. The façade's `negate` and `abs` contracts rest on
    that.
  - Every mutator stores its result in its own fields and may modify only
    `this`.
- `immutable_quadruple.dfy` (module `Immutable`): the façade.
  - Its queries classify a value from the raw fields: infinity, NaN, zero,
    signum and the unbiased exponent.
  - `max`, `min`, `abs` and `equals` choose between or test instances.
  - Every arithmetic operation copies the receiver's engine object into a
    fresh one and mutates only that copy. None of these methods has a
    `modifies` clause, so Dafny checks that the receiver, the operand and
    their engine objects are all left unchanged. The exception is the static
    `sqrt(Quadruple)` as written (`StaticSqrtAsWritten`): it does not copy
    and modifies its argument; see "## Findings".
- `draft_test_data.dfy` (module `DraftTestData`): the oracles
  `expectedComparisonResult`, `...WithLongResult` and `...WithDoubleResult`,
  and the three pair-table builders.
  - An operand is seen as `NaN | PositiveInfinity | NegativeInfinity |
    Finite(value)`, as the oracle sees it.
  - The oracle is proved equal to an independent rank-then-value ordering,
    and proved to be an antisymmetric, transitive total preorder.
- `distribution.dfy` (module `Distribution`): `analyzeDistribution` up to the
  point where the floating-point score starts.
  - It covers the duplicate count through a set, the min/max scan, and the
    equal-width bucket histogram.
  - The histogram's `long` index arithmetic is proved never to wrap and always
    to land inside the bucket array.

A Java `double` is given by its IEEE 754 binary64 bit pattern (`bv64`). The
decimal value that `BigDecimal` takes from a quadruple's `toString()`, or from
a double at 50 significant digits, is a parameter. Formatting belongs to the
engine, and `Quadruple.java` is not part of this model.

## Model

| member | source | states |
|---|---|---|
| JavaInts.WrapInt | src/main/java/com/mvohm/quadruple/ImmutableQuadruple.java:103 | the Java `int` result of an exact value is the one congruent to it modulo 2^32, and is the value itself when that is in range |
| JavaInts.WrapLong | src/test/java/com/mvohm/quadruple/immutable/TestDistributionTester.java:30-32 | the Java `long` result of an exact value is the one congruent to it modulo 2^64, and is the value itself when that is in range |
| JavaInts.Signed32 | src/main/java/com/mvohm/quadruple/ImmutableQuadruple.java:103 | the 32-bit exponent pattern read as a Java `int`: the `int` congruent to its unsigned value modulo 2^32 |
| JavaInts.LongDiv | src/test/java/com/mvohm/quadruple/immutable/TestDistributionTester.java:32 | Java `long` division; for a non-negative dividend and a positive divisor it is the mathematical quotient |
| JavaInts.SignExtend | src/main/java/com/mvohm/quadruple/ImmutableQuadruple.java:137-139 | widening the `int` exponent to `long` inside `isZero`'s bitwise or gives zero exactly when the exponent is zero |
| Immutable.ImmutableQuadruple.constructor | src/main/java/com/mvohm/quadruple/ImmutableQuadruple.java:16-18 | a new instance owns a fresh engine object holding +0 |
| Immutable.ImmutableQuadruple.Copy | src/main/java/com/mvohm/quadruple/ImmutableQuadruple.java:26-28 | the copying constructor gives a fresh engine object with the argument's fields |
| Immutable.ImmutableQuadruple.FromDouble | src/main/java/com/mvohm/quadruple/ImmutableQuadruple.java:36-38 | a fresh engine object holding the engine's conversion of the double |
| Immutable.ImmutableQuadruple.FromLong | src/main/java/com/mvohm/quadruple/ImmutableQuadruple.java:45-47 | a fresh engine object holding the engine's conversion of the long |
| Immutable.ImmutableQuadruple.Construct | src/main/java/com/mvohm/quadruple/ImmutableQuadruple.java:71-73 | a fresh instance whose fields are exactly the given sign, exponent and mantissa words |
| Immutable.ImmutableQuadruple.Wrap | src/main/java/com/mvohm/quadruple/ImmutableQuadruple.java:75-77 | the non-copying constructor keeps the caller's engine object itself |
| Immutable.ImmutableQuadruple.UnbiasedExponent | src/main/java/com/mvohm/quadruple/ImmutableQuadruple.java:103 | the raw exponent minus the bias for every exponent except the all-ones one, for which the `int` subtraction wraps to -2^31 |
| Immutable.UnbiasedOf | src/main/java/com/mvohm/quadruple/ImmutableQuadruple.java:103 | exponent read as signed `int`, minus the bias, wrapped to `int`: equals the unsigned difference except for EXPONENT_OF_INFINITY |
| Immutable.ImmutableQuadruple.IsInfinite | src/main/java/com/mvohm/quadruple/ImmutableQuadruple.java:124-126 | infinite iff the exponent is EXPONENT_OF_INFINITY and both mantissa words are zero |
| Immutable.ImmutableQuadruple.IsNaN | src/main/java/com/mvohm/quadruple/ImmutableQuadruple.java:130-132 | NaN iff the exponent is EXPONENT_OF_INFINITY and a mantissa word is non-zero; a NaN is never infinite |
| Immutable.ImmutableQuadruple.IsZero | src/main/java/com/mvohm/quadruple/ImmutableQuadruple.java:137-139 | zero iff exponent and both mantissa words are zero, whatever the sign; a zero is neither NaN nor infinite |
| Immutable.ClassesDisjoint | src/main/java/com/mvohm/quadruple/ImmutableQuadruple.java:124-139 | no value is both NaN and infinite, and a zero is neither |
| Immutable.ImmutableQuadruple.IsNegative | src/main/java/com/mvohm/quadruple/ImmutableQuadruple.java:116-119 | true exactly when the sign flag is set, so -0 and a NaN with the flag set count as negative |
| Immutable.ImmutableQuadruple.Signum | src/main/java/com/mvohm/quadruple/ImmutableQuadruple.java:832-836 | result in {-1, 0, 1}; -1 iff the sign flag is set (-0 and negative NaN included); 0 iff the value is +0 |
| Immutable.SignumNegative | src/main/java/com/mvohm/quadruple/ImmutableQuadruple.java:832-836 | `signum` is -1 exactly when `isNegative` holds, and -0 gets -1 rather than 0 |
| Immutable.ImmutableQuadruple.CompareTo | src/main/java/com/mvohm/quadruple/ImmutableQuadruple.java:310-319 | the result is the engine's comparison of the two held values |
| Immutable.CompareToByValue | src/main/java/com/mvohm/quadruple/ImmutableQuadruple.java:316-319 | instances holding equal values compare alike against any third instance, from either side, whatever the objects' identity |
| Immutable.ImmutableQuadruple.Equals | src/main/java/com/mvohm/quadruple/ImmutableQuadruple.java:353-358 | true for the same object, false for anything that is not an ImmutableQuadruple, otherwise the engine's equality of the two values |
| Immutable.EqualsReflexive | src/main/java/com/mvohm/quadruple/ImmutableQuadruple.java:355 | the identity test makes `equals` reflexive, NaN included, whatever the engine's equality does |
| Immutable.ImmutableQuadruple.Max | src/main/java/com/mvohm/quadruple/ImmutableQuadruple.java:411-416 | returns `q1` exactly when it compares greater than `q2`, otherwise `q2`, so a tie returns `q2` |
| Immutable.ImmutableQuadruple.Min | src/main/java/com/mvohm/quadruple/ImmutableQuadruple.java:426-431 | returns `q1` exactly when it compares less than `q2`, otherwise `q2`, so a tie returns `q2` |
| Immutable.MaxMinBounds | src/main/java/com/mvohm/quadruple/ImmutableQuadruple.java:411-431 | for a comparator with antisymmetric signs, max compares at least as great as both arguments and min at most as great |
| Immutable.MaxMinSplit | src/main/java/com/mvohm/quadruple/ImmutableQuadruple.java:411-431 | on a tie both return `q2`; otherwise max and min are the two arguments, one each |
| Immutable.ImmutableQuadruple.Add | src/main/java/com/mvohm/quadruple/ImmutableQuadruple.java:445-449 | a fresh instance with a fresh engine object holding the sum; the receiver's and the summand's engine objects are unchanged |
| Immutable.ImmutableQuadruple.AddLong | src/main/java/com/mvohm/quadruple/ImmutableQuadruple.java:458-462 | fresh result holding the sum with the converted long; receiver unchanged |
| Immutable.ImmutableQuadruple.AddDouble | src/main/java/com/mvohm/quadruple/ImmutableQuadruple.java:472-476 | fresh result holding the sum with the converted double; receiver unchanged |
| Immutable.ImmutableQuadruple.StaticAdd | src/main/java/com/mvohm/quadruple/ImmutableQuadruple.java:485-487 | fresh result holding the sum; both operands unchanged |
| Immutable.ImmutableQuadruple.StaticAddLong | src/main/java/com/mvohm/quadruple/ImmutableQuadruple.java:497-499 | fresh result holding the sum; the quadruple operand unchanged |
| Immutable.ImmutableQuadruple.StaticAddDouble | src/main/java/com/mvohm/quadruple/ImmutableQuadruple.java:509-511 | fresh result holding the sum; the quadruple operand unchanged |
| Immutable.ImmutableQuadruple.Subtract | src/main/java/com/mvohm/quadruple/ImmutableQuadruple.java:520-524 | fresh result holding the difference; receiver and subtrahend unchanged |
| Immutable.ImmutableQuadruple.SubtractLong | src/main/java/com/mvohm/quadruple/ImmutableQuadruple.java:534-538 | fresh result holding the difference with the converted long; receiver unchanged |
| Immutable.ImmutableQuadruple.SubtractDouble | src/main/java/com/mvohm/quadruple/ImmutableQuadruple.java:548-552 | fresh result holding the difference with the converted double; receiver unchanged |
| Immutable.ImmutableQuadruple.StaticSubtract | src/main/java/com/mvohm/quadruple/ImmutableQuadruple.java:562-566 | the minuend is copied before the subtraction: fresh result, both operands unchanged |
| Immutable.ImmutableQuadruple.StaticSubtractLong | src/main/java/com/mvohm/quadruple/ImmutableQuadruple.java:577-581 | fresh result holding the difference; the minuend unchanged |
| Immutable.ImmutableQuadruple.StaticSubtractDouble | src/main/java/com/mvohm/quadruple/ImmutableQuadruple.java:592-596 | fresh result holding the difference; the minuend unchanged |
| Immutable.ImmutableQuadruple.Multiply | src/main/java/com/mvohm/quadruple/ImmutableQuadruple.java:605-609 | fresh result holding the product; receiver and factor unchanged |
| Immutable.ImmutableQuadruple.MultiplyLong | src/main/java/com/mvohm/quadruple/ImmutableQuadruple.java:619-623 | fresh result holding the product with the converted long; receiver unchanged |
| Immutable.ImmutableQuadruple.MultiplyDouble | src/main/java/com/mvohm/quadruple/ImmutableQuadruple.java:633-637 | fresh result holding the product with the converted double; receiver unchanged |
| Immutable.ImmutableQuadruple.StaticMultiply | src/main/java/com/mvohm/quadruple/ImmutableQuadruple.java:647-651 | fresh result holding the product; both factors unchanged |
| Immutable.ImmutableQuadruple.StaticMultiplyLong | src/main/java/com/mvohm/quadruple/ImmutableQuadruple.java:662-666 | fresh result holding the product; the quadruple factor unchanged |
| Immutable.ImmutableQuadruple.StaticMultiplyDouble | src/main/java/com/mvohm/quadruple/ImmutableQuadruple.java:677-681 | fresh result holding the product; the quadruple factor unchanged |
| Immutable.ImmutableQuadruple.Divide | src/main/java/com/mvohm/quadruple/ImmutableQuadruple.java:690-694 | fresh result holding the quotient; receiver and divisor unchanged |
| Immutable.ImmutableQuadruple.DivideLong | src/main/java/com/mvohm/quadruple/ImmutableQuadruple.java:704-708 | fresh result holding the quotient by the converted long; receiver unchanged |
| Immutable.ImmutableQuadruple.DivideDouble | src/main/java/com/mvohm/quadruple/ImmutableQuadruple.java:718-722 | fresh result holding the quotient by the converted double; receiver unchanged |
| Immutable.ImmutableQuadruple.StaticDivide | src/main/java/com/mvohm/quadruple/ImmutableQuadruple.java:732-736 | fresh result holding the quotient; dividend and divisor unchanged |
| Immutable.ImmutableQuadruple.StaticDivideLong | src/main/java/com/mvohm/quadruple/ImmutableQuadruple.java:747-751 | fresh result holding the quotient; the dividend unchanged |
| Immutable.ImmutableQuadruple.StaticDivideDouble | src/main/java/com/mvohm/quadruple/ImmutableQuadruple.java:762-766 | fresh result holding the quotient; the dividend unchanged |
| Immutable.ImmutableQuadruple.Sqrt | src/main/java/com/mvohm/quadruple/ImmutableQuadruple.java:778-782 | fresh result holding the square root; receiver unchanged |
| Immutable.ImmutableQuadruple.StaticSqrtAsWritten | src/main/java/com/mvohm/quadruple/ImmutableQuadruple.java:791-795 | as written: the result wraps the argument's own engine object and the argument now holds its square root |
| Immutable.StaticSqrtOverwritesArgument | src/main/java/com/mvohm/quadruple/ImmutableQuadruple.java:787-795 | for -1 and any engine whose root of -1 differs from -1, the argument's value changes and the result shares the argument's engine object |
| Immutable.ImmutableQuadruple.StaticSqrt | src/main/java/com/mvohm/quadruple/ImmutableQuadruple.java:787-790 | as documented: a fresh result holding the root, and the parameter remains unchanged |
| Engine.Quadruple.Negate | src/main/java/com/mvohm/quadruple/ImmutableQuadruple.java:802-812 | the engine's negate flips the sign flag in place and keeps exponent and mantissa |
| Immutable.ImmutableQuadruple.Negate | src/main/java/com/mvohm/quadruple/ImmutableQuadruple.java:808-812 | fresh result with the sign flag flipped and exponent and mantissa kept; receiver unchanged |
| Immutable.ImmutableQuadruple.Abs | src/main/java/com/mvohm/quadruple/ImmutableQuadruple.java:818-825 | the receiver itself when its sign flag is clear; otherwise a fresh instance with the same magnitude and a clear sign; receiver unchanged |
| DraftTestData.OperandOf | src/test/java/com/mvohm/quadruple/immutable/DraftTestData.java:217-247 | the oracle's view of a quadruple: NaN, +Infinity and -Infinity exactly as `isNaN`, `isInfinite` and `isNegative` classify it, otherwise its decimal value |
| DraftTestData.CompareReals | src/test/java/com/mvohm/quadruple/immutable/DraftTestData.java:244-246 | `BigDecimal.compareTo`: -1, 0 or 1 exactly as the first value is less than, equal to or greater than the second |
| DraftTestData.ExpectedComparisonResult | src/test/java/com/mvohm/quadruple/immutable/DraftTestData.java:217-247 | the result is always -1, 0 or 1 |
| DraftTestData.SpecialValues | src/test/java/com/mvohm/quadruple/immutable/DraftTestData.java:218-241 | NaN ties only NaN and is above all else; +Infinity ties only +Infinity and is above every other non-NaN; -Infinity ties only -Infinity and is below every other non-NaN; finite values are below +Infinity and above -Infinity |
| DraftTestData.OracleIsRankedComparison | src/test/java/com/mvohm/quadruple/immutable/DraftTestData.java:217-247 | the oracle equals the independent order "rank NaN > +Infinity > finite > -Infinity, then value" on every pair |
| DraftTestData.Antisymmetric | src/test/java/com/mvohm/quadruple/immutable/DraftTestData.java:217-247 | swapping the operands negates the result |
| DraftTestData.Transitive | src/test/java/com/mvohm/quadruple/immutable/DraftTestData.java:217-247 | "at most" chains, and the chain is a tie exactly when both links are ties |
| DraftTestData.OracleIsTotalPreorder | src/test/java/com/mvohm/quadruple/immutable/DraftTestData.java:217-247 | "compares at most" is total and transitive, and its ties are exactly the pairs the oracle answers 0 |
| DraftTestData.ExpectedComparisonWithLongResult | src/test/java/com/mvohm/quadruple/immutable/DraftTestData.java:249-261 | the result is always -1, 0 or 1 |
| DraftTestData.LongOracleAgrees | src/test/java/com/mvohm/quadruple/immutable/DraftTestData.java:249-261 | the long oracle equals the quadruple oracle against the long's exact value |
| DraftTestData.ExpectedComparisonWithDoubleResult | src/test/java/com/mvohm/quadruple/immutable/DraftTestData.java:263-294 | the result is always -1, 0 or 1 |
| DraftTestData.DoubleIsNaN | src/test/java/com/mvohm/quadruple/immutable/DraftTestData.java:265-270 | `Double.isNaN`: a NaN exactly when the bits below the sign exceed those of infinity; no infinity is a NaN |
| DraftTestData.DoubleOperand | src/test/java/com/mvohm/quadruple/immutable/DraftTestData.java:265-292 | a double is NaN iff its exponent bits are all ones and its fraction is non-zero, and it is an infinity iff it is that infinity's single bit pattern; a finite double becomes its 50-digit decimal value, as it is compared |
| DraftTestData.DoubleOracleAgrees | src/test/java/com/mvohm/quadruple/immutable/DraftTestData.java:263-294 | the double oracle equals the quadruple oracle against the double's NaN, infinities or 50-digit decimal value |
| DraftTestData.RowAtPosition | src/test/java/com/mvohm/quadruple/immutable/DraftTestData.java:176-181 | row `i * size2 + j` lies inside the table and holds operand i, operand j and the oracle's verdict on them |
| DraftTestData.PositionsDistinct | src/test/java/com/mvohm/quadruple/immutable/DraftTestData.java:178 | two different pairs (i, j) never share a row index, so no row is written twice |
| DraftTestData.PairTable | src/test/java/com/mvohm/quadruple/immutable/DraftTestData.java:173-215 | the nested loops fill every one of the size1 * size2 rows, row k with the pair at (k / size2, k % size2) and its verdict |
| DraftTestData.ToCompareImmQuadruples | src/test/java/com/mvohm/quadruple/immutable/DraftTestData.java:173-185 | size * size rows, row k holding (q[k / size], q[k % size]) and the quadruple oracle's verdict |
| DraftTestData.ToCompareQuadruplesWithLongs | src/test/java/com/mvohm/quadruple/immutable/DraftTestData.java:187-200 | size1 * size2 rows, each quadruple paired with each long, with the long oracle's verdict |
| DraftTestData.ToCompareQuadruplesWithDoubles | src/test/java/com/mvohm/quadruple/immutable/DraftTestData.java:202-215 | size1 * size2 rows, each quadruple paired with each double, with the double oracle's verdict |
| Distribution.FloorSqrt | src/test/java/com/mvohm/quadruple/immutable/TestDistributionTester.java:28-29 | the bucket count r satisfies r * r <= n < (r + 1) * (r + 1); it is at most n, and at least 1 for a non-empty input |
| Distribution.FloorSqrtUnique | src/test/java/com/mvohm/quadruple/immutable/TestDistributionTester.java:28 | any r with r * r <= n < (r + 1) * (r + 1) is the bucket count: the integer square root is unique |
| Distribution.Range | src/test/java/com/mvohm/quadruple/immutable/TestDistributionTester.java:30 | the `long` range is exactly max - min + 1, hence positive, and at least 2 when min < max: no overflow |
| Distribution.IndexArithmetic | src/test/java/com/mvohm/quadruple/immutable/TestDistributionTester.java:32 | the index expression evaluated with Java's `long` and `int` semantics equals the exact quotient and lies in [0, bucketCount) |
| Distribution.ProductFitsLong | src/test/java/com/mvohm/quadruple/immutable/TestDistributionTester.java:32 | the offset times the bucket count stays within `long` |
| Distribution.BucketIndex | src/test/java/com/mvohm/quadruple/immutable/TestDistributionTester.java:32 | the bucket index lies in [0, bucketCount) and is the exact (value - min) * bucketCount / range |
| Distribution.BucketIndexMonotonic | src/test/java/com/mvohm/quadruple/immutable/TestDistributionTester.java:32 | the minimum lands in bucket 0, and a larger value never lands in an earlier bucket |
| Distribution.Histogram | src/test/java/com/mvohm/quadruple/immutable/TestDistributionTester.java:29-34 | there are bucketCount counts, each between 0 and the number of values |
| Distribution.HistogramCounts | src/test/java/com/mvohm/quadruple/immutable/TestDistributionTester.java:31-34 | bucket b holds exactly the number of positions whose value maps to b |
| Distribution.HistogramSum | src/test/java/com/mvohm/quadruple/immutable/TestDistributionTester.java:29-34 | the bucket counts add up to the number of values |
| Distribution.HistogramStep | src/test/java/com/mvohm/quadruple/immutable/TestDistributionTester.java:31-34 | one more turn of the bucketing loop adds one to the bucket of the next value and leaves the others as they were |
| Distribution.DistinctExtend | src/test/java/com/mvohm/quadruple/immutable/TestDistributionTester.java:19-21 | `distinct.add(value)` grows the set by one exactly when the value is new |
| Distribution.BoundsMeetIffConstant | src/test/java/com/mvohm/quadruple/immutable/TestDistributionTester.java:25 | attained bounds are equal exactly when every value is equal |
| Distribution.FillBuckets | src/test/java/com/mvohm/quadruple/immutable/TestDistributionTester.java:28-34 | the counts after the bucketing loop are the histogram of all values over floor(sqrt(n)) buckets of [min, max] |
| Distribution.AnalyzeDistribution | src/test/java/com/mvohm/quadruple/immutable/TestDistributionTester.java:10-34 | duplicates = n minus the number of distinct values; min and max are attained and bound every value; the early return happens iff all values are equal and yields 0 whatever the duplicate count; otherwise min < max and the buckets are the histogram; an empty input keeps the initial extremes and no buckets |

## Left out

- The engine `Quadruple`: its arithmetic, square root, conversions from `long` and `double`, comparison and equality are opaque functions of the `Algorithms` record. The façade's own logic is stated over those functions.
- Parsing and formatting (the `String` and `BigDecimal` constructors, `toString`, `format`, `toHexString`), `bigDecimalValue`, `doubleValue`, `intValue`, `longValue`, `floatValue`, and the IEEE 754 binary128 export (`toIeee754Longs`, `toIeee754Bytes`, `toLongWords`): all are engine conversions.
- The forwarders `compareTo(long)`, `compareTo(double)`, static `compare`, `compareMagnitudeTo`, `compareMagnitudes` and `hashCode`: each only calls one engine method. `compareTo(ImmutableQuadruple)` is modelled as `CompareTo`, which `max` and `min` use.
- The plain getters `exponent`, `mantHi` and `mantLo` and the named constants (`ZERO`, `NaN`, `MAX_VALUE` and the rest). The getters read a field; the constants are engine values.
- `nextRandom`: it wraps `java.util.Random`.
- The floating-point uniformity score of the analysis (variance, `Math.pow`, standard deviation, `1/(1+stddev)`) and the final `duplicates + uniformity`. `Spread` returns the integer state that score is computed from.
- Distribution.FloorSqrt: models `(int) Math.sqrt(size)` as the exact integer square root. A correctly rounded double square root of an `int` truncates to that value.
- Distribution.FillBuckets: the bucketing loop of `analyzeDistribution` is a separate method, called at the point where the source's loop stands, so that each loop is proved on its own.
- Distribution.AnalyzeDistribution: for an empty input the source does not return early. It computes zero buckets, a negative range and a floating-point score from 0/0. The model returns the same integer state directly.
- DraftTestData: the decimal value of a quadruple's `toString()` and the 50-digit `BigDecimal` of a double are parameters, because formatting is part of the engine. The contents of the operand arrays are not modelled.
- DraftTests.java and AuxMethods.java are not part of this model: they hold JUnit test drivers, console printing and floating-point statistics.

## Findings

| source | as written | input that shows it | evidently intended | confidence | as-written member | corrected member |
|---|---|---|---|---|---|---|
| src/main/java/com/mvohm/quadruple/ImmutableQuadruple.java:791-795 | static `sqrt(Quadruple square)` wraps `square` with the non-copying constructor (lines 75-77) and then takes the root in place, so the caller's `square` is overwritten and the returned instance shares it | `square` holding -1: afterwards it holds the engine's root of -1 (NaN), and later changes to `square` change the "immutable" result | the documented "The parameter remains unchanged": copy `square` into a fresh engine object first | high (not executed) | Immutable.StaticSqrtOverwritesArgument | Immutable.ImmutableQuadruple.StaticSqrt |
