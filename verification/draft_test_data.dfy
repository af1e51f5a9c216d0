/**
 * The expected results that the comparison tests check `compareTo` against,
 * and the tables of operand pairs built from them.
 *
 * The oracle sees an operand only through `isNaN`, `isInfinite`,
 * `isNegative` and the numeric value of its decimal text. An `Operand` keeps
 * exactly that. The decimal text comes from the engine's formatter, which is
 * not part of this model, so it is a parameter.
 */
module DraftTestData {
  import opened JavaInts
  import opened Immutable

  datatype Option<T> = None | Some(value: T)

  datatype Operand = NaN | PositiveInfinity | NegativeInfinity | Finite(value: real)

  /** One row of a test table: two operands and the expected sign of their comparison. */
  datatype Row<T> = Row(first: Operand, second: T, expected: int)

  /** `BigDecimal.compareTo`: exactly -1, 0 or 1. */
  function CompareReals(x: real, y: real): (r: int)
    ensures r == -1 <==> x < y
    ensures r == 0 <==> x == y
    ensures r == 1 <==> x > y
  {
    if x < y then -1 else if x == y then 0 else 1
  }

  /** How the oracle sees a quadruple whose decimal text has the value `decimal`. */
  function OperandOf(q: ImmutableQuadruple, decimal: real): (o: Operand)
    reads q.value
    ensures o == NaN <==> q.IsNaN()
    ensures o == PositiveInfinity <==> q.IsInfinite() && !q.IsNegative()
    ensures o == NegativeInfinity <==> q.IsInfinite() && q.IsNegative()
    ensures o.Finite? <==> !q.IsNaN() && !q.IsInfinite()
    ensures o.Finite? ==> o.value == decimal
  {
    if q.IsNaN() then NaN
    else if q.IsInfinite() && !q.IsNegative() then PositiveInfinity
    else if q.IsInfinite() && q.IsNegative() then NegativeInfinity
    else Finite(decimal)
  }

  // -----------------------------------------------------------------------
  // The oracles

  function ExpectedComparisonResult(q1: Operand, q2: Operand): (r: int)
    ensures r == -1 || r == 0 || r == 1
  {
    if q1.NaN? then
      (if q2.NaN? then 0 else 1)
    else if q2.NaN? then -1
    else if q1.PositiveInfinity? then
      (if q2.PositiveInfinity? then 0 else 1)
    else if q1.NegativeInfinity? then
      (if q2.NegativeInfinity? then 0 else -1)
    else if q2.PositiveInfinity? then -1
    else if q2.NegativeInfinity? then 1
    else CompareReals(q1.value, q2.value)
  }

  function ExpectedComparisonWithLongResult(q1: Operand, q2: int64): (r: int)
    ensures r == -1 || r == 0 || r == 1
  {
    if q1.NaN? then 1
    else if q1.PositiveInfinity? then 1
    else if q1.NegativeInfinity? then -1
    else CompareReals(q1.value, q2 as real)
  }

  const DOUBLE_POSITIVE_INFINITY: bv64 := 0x7FF0_0000_0000_0000
  const DOUBLE_NEGATIVE_INFINITY: bv64 := 0xFFF0_0000_0000_0000

  /** `Double.isNaN` on a binary64 bit pattern: all exponent bits set and a non-zero fraction. */
  /**
   * `Double.isNaN` on the bit pattern: all exponent bits set and a non-zero
   * fraction. Equivalently, the bits below the sign exceed those of infinity,
   * whatever the sign, so no infinity is a NaN.
   */
  function DoubleIsNaN(d: bv64): (r: bool)
    ensures r <==> d & 0x7FFF_FFFF_FFFF_FFFF > DOUBLE_POSITIVE_INFINITY
    ensures r ==> d != DOUBLE_POSITIVE_INFINITY && d != DOUBLE_NEGATIVE_INFINITY
  {
    d & 0x7FF0_0000_0000_0000 == 0x7FF0_0000_0000_0000 && d & 0x000F_FFFF_FFFF_FFFF != 0
  }

  /**
   * The oracle against a `double`, given by its bit pattern `q2` and by
   * `q2Decimal`, the value of its 50-digit `BigDecimal`. `==` against an
   * infinity holds for that infinity's single bit pattern only.
   */
  function ExpectedComparisonWithDoubleResult(q1: Operand, q2: bv64, q2Decimal: real): (r: int)
    ensures r == -1 || r == 0 || r == 1
  {
    if q1.NaN? then
      (if DoubleIsNaN(q2) then 0 else 1)
    else if DoubleIsNaN(q2) then -1
    else if q1.PositiveInfinity? then
      (if q2 == DOUBLE_POSITIVE_INFINITY then 0 else 1)
    else if q1.NegativeInfinity? then
      (if q2 == DOUBLE_NEGATIVE_INFINITY then 0 else -1)
    else if q2 == DOUBLE_NEGATIVE_INFINITY then 1
    else if q2 == DOUBLE_POSITIVE_INFINITY then -1
    else CompareReals(q1.value, q2Decimal)
  }

  /** A `double` seen the way the oracle sees a quadruple. */
  function DoubleOperand(d: bv64, decimal: real): (o: Operand)
    ensures o == NaN <==> DoubleIsNaN(d)
    ensures o == PositiveInfinity <==> d == DOUBLE_POSITIVE_INFINITY
    ensures o == NegativeInfinity <==> d == DOUBLE_NEGATIVE_INFINITY
    ensures o.Finite? ==> o.value == decimal
  {
    if DoubleIsNaN(d) then NaN
    else if d == DOUBLE_POSITIVE_INFINITY then PositiveInfinity
    else if d == DOUBLE_NEGATIVE_INFINITY then NegativeInfinity
    else Finite(decimal)
  }

  // -----------------------------------------------------------------------
  // An independent definition of the same order: rank first, then value

  /** NaN above +Infinity above every finite value above -Infinity. */
  function Rank(o: Operand): nat
  {
    match o
    case NegativeInfinity => 0
    case Finite(_) => 1
    case PositiveInfinity => 2
    case NaN => 3
  }

  function RankedComparison(a: Operand, b: Operand): int
  {
    if Rank(a) < Rank(b) then -1
    else if Rank(a) > Rank(b) then 1
    else if a.Finite? then CompareReals(a.value, b.value)
    else 0
  }

  lemma OracleIsRankedComparison(a: Operand, b: Operand)
    ensures ExpectedComparisonResult(a, b) == RankedComparison(a, b)
  {
    match a
    case NaN =>
    case PositiveInfinity =>
    case NegativeInfinity =>
    case Finite(x) =>
      match b
      case NaN =>
      case PositiveInfinity =>
      case NegativeInfinity =>
      case Finite(y) =>
  }

  // -----------------------------------------------------------------------
  // Properties of the oracle

  /** NaN ties NaN and is above everything else; +Infinity ties only +Infinity; -Infinity ties only -Infinity. */
  lemma SpecialValues(x: Operand)
    ensures ExpectedComparisonResult(NaN, x) == (if x.NaN? then 0 else 1)
    ensures !x.NaN? ==> ExpectedComparisonResult(PositiveInfinity, x) == (if x.PositiveInfinity? then 0 else 1)
    ensures !x.NaN? ==> ExpectedComparisonResult(NegativeInfinity, x) == (if x.NegativeInfinity? then 0 else -1)
    ensures x.Finite? ==> ExpectedComparisonResult(x, PositiveInfinity) == -1
    ensures x.Finite? ==> ExpectedComparisonResult(x, NegativeInfinity) == 1
  {
  }

  lemma Antisymmetric(a: Operand, b: Operand)
    ensures ExpectedComparisonResult(a, b) == -ExpectedComparisonResult(b, a)
  {
    OracleIsRankedComparison(a, b);
    OracleIsRankedComparison(b, a);
  }

  lemma Transitive(a: Operand, b: Operand, c: Operand)
    requires ExpectedComparisonResult(a, b) <= 0 && ExpectedComparisonResult(b, c) <= 0
    ensures ExpectedComparisonResult(a, c) <= 0
    ensures ExpectedComparisonResult(a, c) == 0 <==>
      ExpectedComparisonResult(a, b) == 0 && ExpectedComparisonResult(b, c) == 0
  {
    OracleIsRankedComparison(a, b);
    OracleIsRankedComparison(b, c);
    OracleIsRankedComparison(a, c);
  }

  ghost predicate AtMost(a: Operand, b: Operand)
  {
    ExpectedComparisonResult(a, b) <= 0
  }

  ghost predicate TotalPreorder(le: (Operand, Operand) -> bool)
  {
    && (forall a, b :: le(a, b) || le(b, a))
    && (forall a, b, c :: le(a, b) && le(b, c) ==> le(a, c))
  }

  /** "compares at most" is a total preorder whose ties are the pairs the oracle calls 0. */
  lemma OracleIsTotalPreorder()
    ensures TotalPreorder(AtMost)
    ensures forall a, b :: AtMost(a, b) && AtMost(b, a) <==> ExpectedComparisonResult(a, b) == 0
  {
    forall a, b ensures AtMost(a, b) || AtMost(b, a) {
      Antisymmetric(a, b);
    }
    forall a, b, c | AtMost(a, b) && AtMost(b, c) ensures AtMost(a, c) {
      Transitive(a, b, c);
    }
    forall a, b ensures AtMost(a, b) && AtMost(b, a) <==> ExpectedComparisonResult(a, b) == 0 {
      Antisymmetric(a, b);
    }
  }

  /** The long oracle is the quadruple oracle against the long's exact value. */
  lemma LongOracleAgrees(q1: Operand, q2: int64)
    ensures ExpectedComparisonWithLongResult(q1, q2) == ExpectedComparisonResult(q1, Finite(q2 as real))
  {
  }

  /** The double oracle is the quadruple oracle against the double's NaN, infinities or decimal value. */
  lemma DoubleOracleAgrees(q1: Operand, q2: bv64, q2Decimal: real)
    ensures ExpectedComparisonWithDoubleResult(q1, q2, q2Decimal) ==
      ExpectedComparisonResult(q1, DoubleOperand(q2, q2Decimal))
  {
  }

  // -----------------------------------------------------------------------
  // The tables of pairs

  /** The quotient and remainder of a division are the only ones that add back up. */
  lemma DivisionUnique(n: nat, d: nat, q: nat, r: nat)
    requires 0 <= r < d && n == d * q + r
    ensures n / d == q && n % d == r
  {
    var q', r' := n / d, n % d;
    assert d * q' + r' == d * q + r;
    if q' < q {
      MulMonotonic(d, q' + 1, q);
    } else if q < q' {
      MulMonotonic(d, q + 1, q');
    }
  }

  lemma PositionOfRow(i: nat, j: nat, size1: nat, size2: nat)
    requires i < size1 && j < size2
    ensures i * size2 + j < size1 * size2
    ensures (i * size2 + j) / size2 == i && (i * size2 + j) % size2 == j
  {
    MulMonotonic(size2, i + 1, size1);
    assert size2 * (i + 1) == i * size2 + size2;
    DivisionUnique(i * size2 + j, size2, i, j);
  }

  lemma RowOfPosition(k: nat, size1: nat, size2: nat)
    requires k < size1 * size2
    ensures size2 > 0 && k / size2 < size1
  {
    assert size2 != 0;
    if k / size2 >= size1 {
      MulMonotonic(size2, size1, k / size2);
    }
  }

  /** Row `k` of the table: the pair of row `k / size2`, column `k % size2`. */
  function RowAt<T>(firsts: seq<Operand>, seconds: seq<T>, oracle: (Operand, T) -> int, k: nat): (row: Row<T>)
    requires k < |firsts| * |seconds|
  {
    RowOfPosition(k, |firsts|, |seconds|);
    var i, j := k / |seconds|, k % |seconds|;
    Row(firsts[i], seconds[j], oracle(firsts[i], seconds[j]))
  }

  /** Row `i * size2 + j` holds operand `i` of the first list, operand `j` of the second and the oracle's result on them. */
  lemma RowAtPosition<T>(firsts: seq<Operand>, seconds: seq<T>, oracle: (Operand, T) -> int, i: nat, j: nat)
    requires i < |firsts| && j < |seconds|
    ensures i * |seconds| + j < |firsts| * |seconds|
    ensures RowAt(firsts, seconds, oracle, i * |seconds| + j) ==
      Row(firsts[i], seconds[j], oracle(firsts[i], seconds[j]))
  {
    PositionOfRow(i, j, |firsts|, |seconds|);
  }

  /** Distinct pairs occupy distinct rows, so no row is written twice. */
  lemma PositionsDistinct(i: nat, j: nat, i': nat, j': nat, size1: nat, size2: nat)
    requires i < size1 && j < size2 && i' < size1 && j' < size2
    requires i * size2 + j == i' * size2 + j'
    ensures i == i' && j == j'
  {
    PositionOfRow(i, j, size1, size2);
    PositionOfRow(i', j', size1, size2);
  }

  /**
   * The loops shared by the three table builders: row `i * size2 + j`
   * receives the pair (firsts[i], seconds[j]) and the oracle's verdict on it.
   * The row index steps by one, so every row below size1 * size2 is written.
   */
  method PairTable<T>(firsts: seq<Operand>, seconds: seq<T>, oracle: (Operand, T) -> int)
    returns (table: seq<Option<Row<T>>>)
    requires |firsts| * |seconds| <= INT_MAX
    ensures |table| == |firsts| * |seconds|
    ensures forall k :: 0 <= k < |table| ==> table[k] == Some(RowAt(firsts, seconds, oracle, k))
  {
    var size1, size2 := |firsts|, |seconds|;
    var result := new Option<Row<T>>[size1 * size2](_ => None);
    var i := 0;
    while i < size1
      invariant 0 <= i <= size1
      invariant i * size2 <= size1 * size2
      invariant forall k :: 0 <= k < i * size2 ==> result[k] == Some(RowAt(firsts, seconds, oracle, k))
    {
      var j := 0;
      while j < size2
        invariant 0 <= j <= size2
        invariant i * size2 + j <= size1 * size2
        invariant forall k :: 0 <= k < i * size2 + j ==> result[k] == Some(RowAt(firsts, seconds, oracle, k))
      {
        var index := i * size2 + j;
        RowAtPosition(firsts, seconds, oracle, i, j);
        result[index] := Some(Row(firsts[i], seconds[j], oracle(firsts[i], seconds[j])));
        j := j + 1;
      }
      assert i * size2 + size2 == (i + 1) * size2;
      i := i + 1;
    }
    table := result[..];
  }

  method ToCompareImmQuadruples(qOperands: seq<Operand>) returns (table: seq<Option<Row<Operand>>>)
    requires |qOperands| * |qOperands| <= INT_MAX
    ensures |table| == |qOperands| * |qOperands|
    ensures forall k :: 0 <= k < |table| ==>
      table[k] == Some(RowAt(qOperands, qOperands, ExpectedComparisonResult, k))
  {
    table := PairTable(qOperands, qOperands, ExpectedComparisonResult);
  }

  method ToCompareQuadruplesWithLongs(qOperands: seq<Operand>, lOperands: seq<int64>)
    returns (table: seq<Option<Row<int64>>>)
    requires |qOperands| * |lOperands| <= INT_MAX
    ensures |table| == |qOperands| * |lOperands|
    ensures forall k :: 0 <= k < |table| ==>
      table[k] == Some(RowAt(qOperands, lOperands, ExpectedComparisonWithLongResult, k))
  {
    table := PairTable(qOperands, lOperands, ExpectedComparisonWithLongResult);
  }

  /** `decimal50` gives each double's value as a 50-digit `BigDecimal`. */
  method ToCompareQuadruplesWithDoubles(qOperands: seq<Operand>, dOperands: seq<bv64>, decimal50: bv64 -> real)
    returns (table: seq<Option<Row<bv64>>>)
    requires |qOperands| * |dOperands| <= INT_MAX
    ensures |table| == |qOperands| * |dOperands|
    ensures forall k :: 0 <= k < |table| ==>
      table[k] == Some(RowAt(qOperands, dOperands,
                             (q, d) => ExpectedComparisonWithDoubleResult(q, d, decimal50(d)), k))
  {
    table := PairTable(qOperands, dOperands,
                       (q, d) => ExpectedComparisonWithDoubleResult(q, d, decimal50(d)));
  }
}
