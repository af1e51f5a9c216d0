/**
 * The immutable façade `ImmutableQuadruple`. Each instance holds one engine
 * object. Queries read its fields. Every operation that produces a new
 * value first copies the receiver's engine object into a fresh one, then runs
 * the engine's in-place mutator on that copy only.
 *
 * None of the arithmetic methods has a `modifies` clause. Dafny therefore
 * checks that no object that existed before the call is changed: not the
 * receiver, not the operand, and not their engine objects. A fresh result
 * cannot alias either of them.
 */
module Immutable {
  import opened JavaInts
  import opened Engine

  /** -1 as a value: sign set, exponent of [1, 2), zero fraction. */
  const MINUS_ONE: Bits := Bits(true, 0x7FFF_FFFF, 0, 0)

  /** `cmp` orders like a Java comparator: a positive result one way round is a negative one the other way. */
  ghost predicate SignAntisymmetric(cmp: (Bits, Bits) -> int)
  {
    forall a, b :: cmp(a, b) > 0 <==> cmp(b, a) < 0
  }

  class ImmutableQuadruple {
    const value: Quadruple

    /** A new zero. */
    constructor ()
      ensures fresh(value) && value.Value() == ZERO
    {
      value := new Quadruple();
    }

    /** The copying constructor: a new engine object with the fields of `iq`'s. */
    constructor Copy(iq: ImmutableQuadruple)
      ensures fresh(value) && value.Value() == iq.value.Value()
    {
      value := new Quadruple.Copy(iq.value);
    }

    constructor FromLong(alg: Algorithms, l: int64)
      ensures fresh(value) && value.Value() == alg.fromLong(l)
    {
      value := new Quadruple.FromLong(alg, l);
    }

    constructor FromDouble(alg: Algorithms, d: bv64)
      ensures fresh(value) && value.Value() == alg.fromDouble(d)
    {
      value := new Quadruple.FromDouble(alg, d);
    }

    /** The non-copying constructor: the façade keeps the given engine object itself. */
    constructor Wrap(q: Quadruple)
      ensures value == q
    {
      value := q;
    }

    /** A new instance built from raw fields. */
    static method Construct(negative: bool, exponent: bv32, mantHi: bv64, mantLo: bv64)
      returns (r: ImmutableQuadruple)
      ensures fresh(r) && fresh(r.value)
      ensures r.value.Value() == Bits(negative, exponent, mantHi, mantLo)
    {
      var q := new Quadruple.FromBits(Bits(negative, exponent, mantHi, mantLo));
      r := new ImmutableQuadruple.Wrap(q);
    }

    // ---------------------------------------------------------------------
    // Queries on the raw fields

    /** The sign flag alone: true for -0 and for a NaN with the flag set as well. */
    predicate IsNegative()
      reads value
      ensures IsNegative() <==> value.negative
    {
      value.negative
    }

    /** Java subtracts the bias in `int` arithmetic: exact for every finite
        exponent, and 2^31 wraps to -2^31 for infinities and NaN. */
    function UnbiasedExponent(): (r: int32)
      reads value
      ensures value.exponent != EXPONENT_OF_INFINITY ==> r == value.exponent as int - EXPONENT_BIAS
      ensures value.exponent == EXPONENT_OF_INFINITY ==> r == INT_MIN
    {
      var e := value.exponent;
      UnbiasedOf(e);
      WrapInt(Signed32(e) - EXPONENT_BIAS)
    }

    predicate IsInfinite()
      reads value
      ensures IsInfinite() <==>
        value.exponent == EXPONENT_OF_INFINITY && value.mantHi == 0 && value.mantLo == 0
    {
      value.exponent == EXPONENT_OF_INFINITY && value.mantHi | value.mantLo == 0
    }

    predicate IsNaN()
      reads value
      ensures IsNaN() <==>
        value.exponent == EXPONENT_OF_INFINITY && (value.mantHi != 0 || value.mantLo != 0)
      ensures IsNaN() ==> !IsInfinite()
    {
      value.exponent == EXPONENT_OF_INFINITY && value.mantHi | value.mantLo != 0
    }

    /** The exponent is widened to `long` (sign-extended) before the bitwise or. */
    predicate IsZero()
      reads value
      ensures IsZero() <==> value.exponent == 0 && value.mantHi == 0 && value.mantLo == 0
      ensures IsZero() ==> !IsNaN() && !IsInfinite()
    {
      value.mantHi | value.mantLo | SignExtend(value.exponent) == 0
    }

    /** -1 for every value with the sign flag set (-0 and a negative NaN included), 0 for +0 only, 1 otherwise. */
    function Signum(): (r: int)
      reads value
      ensures r == -1 || r == 0 || r == 1
      ensures r == -1 <==> value.negative
      ensures r == 0 <==> !value.negative && value.Value() == ZERO
    {
      if IsNegative() then -1 else if IsZero() then 0 else 1
    }

    // ---------------------------------------------------------------------
    // Comparisons

    /** Compares the two engine values, never the façade objects themselves. */
    function CompareTo(alg: Algorithms, other: ImmutableQuadruple): (r: int)
      reads value, other.value
      ensures r == alg.compare(value.Value(), other.value.Value())
    {
      alg.compare(value.Value(), other.value.Value())
    }

    /** Identity first, then the type test, then the engine's equality on the two values. */
    function Equals(alg: Algorithms, obj: object?): (r: bool)
      reads value, if obj is ImmutableQuadruple then {(obj as ImmutableQuadruple).value} else {}
      ensures obj == this ==> r
      ensures !(obj is ImmutableQuadruple) ==> !r
      ensures obj != this && obj is ImmutableQuadruple ==>
        (r <==> alg.equal(value.Value(), (obj as ImmutableQuadruple).value.Value()))
    {
      if this == obj then true
      else if !(obj is ImmutableQuadruple) then false
      else alg.equal(value.Value(), (obj as ImmutableQuadruple).value.Value())
    }

    /** Returns one of the two arguments: `q1` only when it compares greater, so a tie returns `q2`. */
    static function Max(alg: Algorithms, q1: ImmutableQuadruple, q2: ImmutableQuadruple): (r: ImmutableQuadruple)
      reads q1.value, q2.value
      ensures r == q1 || r == q2
      ensures q1.CompareTo(alg, q2) > 0 ==> r == q1
      ensures q1.CompareTo(alg, q2) <= 0 ==> r == q2
    {
      if q1.CompareTo(alg, q2) > 0 then q1 else q2
    }

    /** Returns one of the two arguments: `q1` only when it compares less, so a tie returns `q2`. */
    static function Min(alg: Algorithms, q1: ImmutableQuadruple, q2: ImmutableQuadruple): (r: ImmutableQuadruple)
      reads q1.value, q2.value
      ensures r == q1 || r == q2
      ensures q1.CompareTo(alg, q2) < 0 ==> r == q1
      ensures q1.CompareTo(alg, q2) >= 0 ==> r == q2
    {
      if q1.CompareTo(alg, q2) < 0 then q1 else q2
    }

    // ---------------------------------------------------------------------
    // Arithmetic: copy the receiver, then mutate the copy

    method Add(alg: Algorithms, summand: ImmutableQuadruple) returns (r: ImmutableQuadruple)
      ensures fresh(r) && fresh(r.value)
      ensures r.value.Value() == alg.add(value.Value(), summand.value.Value())
      ensures unchanged(value, summand.value)
    {
      r := new ImmutableQuadruple.Copy(this);
      r.value.Add(alg, summand.value);
    }

    method AddLong(alg: Algorithms, summand: int64) returns (r: ImmutableQuadruple)
      ensures fresh(r) && fresh(r.value)
      ensures r.value.Value() == alg.add(value.Value(), alg.fromLong(summand))
      ensures unchanged(value)
    {
      r := new ImmutableQuadruple.Copy(this);
      r.value.AddLong(alg, summand);
    }

    method AddDouble(alg: Algorithms, summand: bv64) returns (r: ImmutableQuadruple)
      ensures fresh(r) && fresh(r.value)
      ensures r.value.Value() == alg.add(value.Value(), alg.fromDouble(summand))
      ensures unchanged(value)
    {
      r := new ImmutableQuadruple.Copy(this);
      r.value.AddDouble(alg, summand);
    }

    static method StaticAdd(alg: Algorithms, op1: ImmutableQuadruple, op2: ImmutableQuadruple)
      returns (r: ImmutableQuadruple)
      ensures fresh(r) && fresh(r.value)
      ensures r.value.Value() == alg.add(op1.value.Value(), op2.value.Value())
      ensures unchanged(op1.value, op2.value)
    {
      r := op1.Add(alg, op2);
    }

    static method StaticAddLong(alg: Algorithms, op1: ImmutableQuadruple, op2: int64)
      returns (r: ImmutableQuadruple)
      ensures fresh(r) && fresh(r.value)
      ensures r.value.Value() == alg.add(op1.value.Value(), alg.fromLong(op2))
      ensures unchanged(op1.value)
    {
      r := op1.AddLong(alg, op2);
    }

    static method StaticAddDouble(alg: Algorithms, op1: ImmutableQuadruple, op2: bv64)
      returns (r: ImmutableQuadruple)
      ensures fresh(r) && fresh(r.value)
      ensures r.value.Value() == alg.add(op1.value.Value(), alg.fromDouble(op2))
      ensures unchanged(op1.value)
    {
      r := op1.AddDouble(alg, op2);
    }

    method Subtract(alg: Algorithms, subtrahend: ImmutableQuadruple) returns (r: ImmutableQuadruple)
      ensures fresh(r) && fresh(r.value)
      ensures r.value.Value() == alg.subtract(value.Value(), subtrahend.value.Value())
      ensures unchanged(value, subtrahend.value)
    {
      r := new ImmutableQuadruple.Copy(this);
      r.value.Subtract(alg, subtrahend.value);
    }

    method SubtractLong(alg: Algorithms, subtrahend: int64) returns (r: ImmutableQuadruple)
      ensures fresh(r) && fresh(r.value)
      ensures r.value.Value() == alg.subtract(value.Value(), alg.fromLong(subtrahend))
      ensures unchanged(value)
    {
      r := new ImmutableQuadruple.Copy(this);
      r.value.SubtractLong(alg, subtrahend);
    }

    method SubtractDouble(alg: Algorithms, subtrahend: bv64) returns (r: ImmutableQuadruple)
      ensures fresh(r) && fresh(r.value)
      ensures r.value.Value() == alg.subtract(value.Value(), alg.fromDouble(subtrahend))
      ensures unchanged(value)
    {
      r := new ImmutableQuadruple.Copy(this);
      r.value.SubtractDouble(alg, subtrahend);
    }

    static method StaticSubtract(alg: Algorithms, minuend: ImmutableQuadruple, subtrahend: ImmutableQuadruple)
      returns (r: ImmutableQuadruple)
      ensures fresh(r) && fresh(r.value)
      ensures r.value.Value() == alg.subtract(minuend.value.Value(), subtrahend.value.Value())
      ensures unchanged(minuend.value, subtrahend.value)
    {
      r := new ImmutableQuadruple.Copy(minuend);
      r.value.Subtract(alg, subtrahend.value);
    }

    static method StaticSubtractLong(alg: Algorithms, minuend: ImmutableQuadruple, subtrahend: int64)
      returns (r: ImmutableQuadruple)
      ensures fresh(r) && fresh(r.value)
      ensures r.value.Value() == alg.subtract(minuend.value.Value(), alg.fromLong(subtrahend))
      ensures unchanged(minuend.value)
    {
      r := new ImmutableQuadruple.Copy(minuend);
      r.value.SubtractLong(alg, subtrahend);
    }

    static method StaticSubtractDouble(alg: Algorithms, minuend: ImmutableQuadruple, subtrahend: bv64)
      returns (r: ImmutableQuadruple)
      ensures fresh(r) && fresh(r.value)
      ensures r.value.Value() == alg.subtract(minuend.value.Value(), alg.fromDouble(subtrahend))
      ensures unchanged(minuend.value)
    {
      r := new ImmutableQuadruple.Copy(minuend);
      r.value.SubtractDouble(alg, subtrahend);
    }

    method Multiply(alg: Algorithms, factor: ImmutableQuadruple) returns (r: ImmutableQuadruple)
      ensures fresh(r) && fresh(r.value)
      ensures r.value.Value() == alg.multiply(value.Value(), factor.value.Value())
      ensures unchanged(value, factor.value)
    {
      r := new ImmutableQuadruple.Copy(this);
      r.value.Multiply(alg, factor.value);
    }

    method MultiplyLong(alg: Algorithms, factor: int64) returns (r: ImmutableQuadruple)
      ensures fresh(r) && fresh(r.value)
      ensures r.value.Value() == alg.multiply(value.Value(), alg.fromLong(factor))
      ensures unchanged(value)
    {
      r := new ImmutableQuadruple.Copy(this);
      r.value.MultiplyLong(alg, factor);
    }

    method MultiplyDouble(alg: Algorithms, factor: bv64) returns (r: ImmutableQuadruple)
      ensures fresh(r) && fresh(r.value)
      ensures r.value.Value() == alg.multiply(value.Value(), alg.fromDouble(factor))
      ensures unchanged(value)
    {
      r := new ImmutableQuadruple.Copy(this);
      r.value.MultiplyDouble(alg, factor);
    }

    static method StaticMultiply(alg: Algorithms, factor1: ImmutableQuadruple, factor2: ImmutableQuadruple)
      returns (r: ImmutableQuadruple)
      ensures fresh(r) && fresh(r.value)
      ensures r.value.Value() == alg.multiply(factor1.value.Value(), factor2.value.Value())
      ensures unchanged(factor1.value, factor2.value)
    {
      r := new ImmutableQuadruple.Copy(factor1);
      r.value.Multiply(alg, factor2.value);
    }

    static method StaticMultiplyLong(alg: Algorithms, factor1: ImmutableQuadruple, factor2: int64)
      returns (r: ImmutableQuadruple)
      ensures fresh(r) && fresh(r.value)
      ensures r.value.Value() == alg.multiply(factor1.value.Value(), alg.fromLong(factor2))
      ensures unchanged(factor1.value)
    {
      r := new ImmutableQuadruple.Copy(factor1);
      r.value.MultiplyLong(alg, factor2);
    }

    static method StaticMultiplyDouble(alg: Algorithms, factor1: ImmutableQuadruple, factor2: bv64)
      returns (r: ImmutableQuadruple)
      ensures fresh(r) && fresh(r.value)
      ensures r.value.Value() == alg.multiply(factor1.value.Value(), alg.fromDouble(factor2))
      ensures unchanged(factor1.value)
    {
      r := new ImmutableQuadruple.Copy(factor1);
      r.value.MultiplyDouble(alg, factor2);
    }

    method Divide(alg: Algorithms, divisor: ImmutableQuadruple) returns (r: ImmutableQuadruple)
      ensures fresh(r) && fresh(r.value)
      ensures r.value.Value() == alg.divide(value.Value(), divisor.value.Value())
      ensures unchanged(value, divisor.value)
    {
      r := new ImmutableQuadruple.Copy(this);
      r.value.Divide(alg, divisor.value);
    }

    method DivideLong(alg: Algorithms, divisor: int64) returns (r: ImmutableQuadruple)
      ensures fresh(r) && fresh(r.value)
      ensures r.value.Value() == alg.divide(value.Value(), alg.fromLong(divisor))
      ensures unchanged(value)
    {
      r := new ImmutableQuadruple.Copy(this);
      r.value.DivideLong(alg, divisor);
    }

    method DivideDouble(alg: Algorithms, divisor: bv64) returns (r: ImmutableQuadruple)
      ensures fresh(r) && fresh(r.value)
      ensures r.value.Value() == alg.divide(value.Value(), alg.fromDouble(divisor))
      ensures unchanged(value)
    {
      r := new ImmutableQuadruple.Copy(this);
      r.value.DivideDouble(alg, divisor);
    }

    static method StaticDivide(alg: Algorithms, dividend: ImmutableQuadruple, divisor: ImmutableQuadruple)
      returns (r: ImmutableQuadruple)
      ensures fresh(r) && fresh(r.value)
      ensures r.value.Value() == alg.divide(dividend.value.Value(), divisor.value.Value())
      ensures unchanged(dividend.value, divisor.value)
    {
      r := new ImmutableQuadruple.Copy(dividend);
      r.value.Divide(alg, divisor.value);
    }

    static method StaticDivideLong(alg: Algorithms, dividend: ImmutableQuadruple, divisor: int64)
      returns (r: ImmutableQuadruple)
      ensures fresh(r) && fresh(r.value)
      ensures r.value.Value() == alg.divide(dividend.value.Value(), alg.fromLong(divisor))
      ensures unchanged(dividend.value)
    {
      r := new ImmutableQuadruple.Copy(dividend);
      r.value.DivideLong(alg, divisor);
    }

    static method StaticDivideDouble(alg: Algorithms, dividend: ImmutableQuadruple, divisor: bv64)
      returns (r: ImmutableQuadruple)
      ensures fresh(r) && fresh(r.value)
      ensures r.value.Value() == alg.divide(dividend.value.Value(), alg.fromDouble(divisor))
      ensures unchanged(dividend.value)
    {
      r := new ImmutableQuadruple.Copy(dividend);
      r.value.DivideDouble(alg, divisor);
    }

    method Sqrt(alg: Algorithms) returns (r: ImmutableQuadruple)
      ensures fresh(r) && fresh(r.value)
      ensures r.value.Value() == alg.sqrt(value.Value())
      ensures unchanged(value)
    {
      r := new ImmutableQuadruple.Copy(this);
      r.value.Sqrt(alg);
    }

    /**
     * The static square root of an engine object, as the source writes it:
     * the argument is wrapped without a copy, so the root is computed in the
     * caller's own object and the result shares it.
     */
    static method StaticSqrtAsWritten(alg: Algorithms, square: Quadruple) returns (r: ImmutableQuadruple)
      modifies square
      ensures fresh(r) && r.value == square
      ensures square.Value() == alg.sqrt(old(square.Value()))
    {
      r := new ImmutableQuadruple.Wrap(square);
      r.value.Sqrt(alg);
    }

    /** The static square root as documented: the parameter remains unchanged. */
    static method StaticSqrt(alg: Algorithms, square: Quadruple) returns (r: ImmutableQuadruple)
      ensures fresh(r) && fresh(r.value)
      ensures r.value.Value() == alg.sqrt(square.Value())
      ensures unchanged(square)
    {
      var copy := new Quadruple.Copy(square);
      r := new ImmutableQuadruple.Wrap(copy);
      r.value.Sqrt(alg);
    }

    method Negate() returns (r: ImmutableQuadruple)
      ensures fresh(r) && fresh(r.value)
      ensures r.value.Value() == value.Value().(negative := !value.negative)
      ensures unchanged(value)
    {
      r := new ImmutableQuadruple.Copy(this);
      r.value.Negate();
    }

    /** The receiver itself when its sign flag is clear; otherwise a fresh negated copy. */
    method Abs() returns (r: ImmutableQuadruple)
      ensures !value.negative ==> r == this
      ensures value.negative ==> fresh(r) && fresh(r.value) && r.value.Value() == value.Value().(negative := false)
      ensures unchanged(value)
    {
      if !value.negative {
        return this;
      }
      r := new ImmutableQuadruple.Copy(this);
      r.value.Negate();
    }
  }

  /**
   * The static square root as written changes its argument: -1 becomes
   * whatever the engine's root of -1 is (NaN), and the result shares the
   * caller's engine object.
   */
  method StaticSqrtOverwritesArgument(alg: Algorithms) returns (before: Bits, after: Bits, shared: bool)
    requires alg.sqrt(MINUS_ONE) != MINUS_ONE
    ensures before == MINUS_ONE && after == alg.sqrt(MINUS_ONE)
    ensures after != before && shared
  {
    var square := new Quadruple.FromBits(MINUS_ONE);
    before := square.Value();
    var root := ImmutableQuadruple.StaticSqrtAsWritten(alg, square);
    after := square.Value();
    shared := root.value == square;
  }

  /** max returns an argument that compares at least as great as both, min one that compares at most as great. */
  lemma MaxMinBounds(alg: Algorithms, q1: ImmutableQuadruple, q2: ImmutableQuadruple)
    requires SignAntisymmetric(alg.compare)
    ensures ImmutableQuadruple.Max(alg, q1, q2).CompareTo(alg, q1) >= 0
    ensures ImmutableQuadruple.Max(alg, q1, q2).CompareTo(alg, q2) >= 0
    ensures ImmutableQuadruple.Min(alg, q1, q2).CompareTo(alg, q1) <= 0
    ensures ImmutableQuadruple.Min(alg, q1, q2).CompareTo(alg, q2) <= 0
  {
    var a, b := q1.value.Value(), q2.value.Value();
    assert alg.compare(a, b) > 0 <==> alg.compare(b, a) < 0;
    assert alg.compare(a, a) > 0 <==> alg.compare(a, a) < 0;
    assert alg.compare(b, b) > 0 <==> alg.compare(b, b) < 0;
  }

  /** Unless the two compare equal, max and min return different arguments; on a tie both return `q2`. */
  lemma MaxMinSplit(alg: Algorithms, q1: ImmutableQuadruple, q2: ImmutableQuadruple)
    requires SignAntisymmetric(alg.compare)
    ensures q1.CompareTo(alg, q2) == 0 ==>
      ImmutableQuadruple.Max(alg, q1, q2) == q2 && ImmutableQuadruple.Min(alg, q1, q2) == q2
    ensures q1.CompareTo(alg, q2) != 0 ==>
      {ImmutableQuadruple.Max(alg, q1, q2), ImmutableQuadruple.Min(alg, q1, q2)} == {q1, q2}
  {
  }

  /** The identity test makes `equals` reflexive even when the engine's equality is not (NaN). */
  lemma EqualsReflexive(alg: Algorithms, q: ImmutableQuadruple)
    ensures q.Equals(alg, q)
  {
  }

  lemma AllOnesAsInt(e: bv32)
    ensures e == EXPONENT_OF_INFINITY <==> e as int == 0xFFFF_FFFF
  {
  }

  /** Subtracting the bias from the exponent read as a Java `int` wraps only for the all-ones exponent. */
  lemma BiasSubtraction(n: int)
    requires 0 <= n < 0x1_0000_0000
    ensures var signed := if n <= INT_MAX then n else n - 0x1_0000_0000;
      WrapInt(signed - EXPONENT_BIAS) == if n == 0xFFFF_FFFF then INT_MIN else n - EXPONENT_BIAS
  {
  }

  lemma UnbiasedOf(e: bv32)
    ensures WrapInt(Signed32(e) - EXPONENT_BIAS) ==
      if e == EXPONENT_OF_INFINITY then INT_MIN else e as int - EXPONENT_BIAS
  {
    var n := e as int;
    AllOnesAsInt(e);
    BiasSubtraction(n);
    if n <= INT_MAX {
      assert Signed32(e) == n;
    } else {
      assert Signed32(e) == n - 0x1_0000_0000;
    }
  }

  /** `signum` is -1 exactly for the values `isNegative` reports, -0 included. */
  lemma SignumNegative(q: ImmutableQuadruple)
    ensures q.Signum() == -1 <==> q.IsNegative()
    ensures q.IsNegative() && q.IsZero() ==> q.Signum() == -1
  {
  }

  /** Instances holding equal values compare alike against any third one, from either side. */
  lemma CompareToByValue(alg: Algorithms, a: ImmutableQuadruple, b: ImmutableQuadruple, c: ImmutableQuadruple)
    requires a.value.Value() == b.value.Value()
    ensures a.CompareTo(alg, c) == b.CompareTo(alg, c)
    ensures c.CompareTo(alg, a) == c.CompareTo(alg, b)
  {
  }

  /** No value is two of zero, infinity and NaN. */
  lemma ClassesDisjoint(q: ImmutableQuadruple)
    ensures !(q.IsNaN() && q.IsInfinite())
    ensures q.IsZero() ==> !q.IsNaN() && !q.IsInfinite()
  {
  }
}
