/**
 * The mutable arithmetic engine `Quadruple` that the immutable façade wraps.
 * Only its state is modelled: a sign flag, a 32-bit biased exponent and the
 * 128-bit fractional part of the mantissa in two 64-bit words. Its algorithms
 * are not part of this model; they enter as an `Algorithms` value that maps
 * operand values to result values, and each mutator stores that result in
 * its own fields and touches nothing else.
 */
module Engine {
  import opened JavaInts

  /** Marks infinities (fraction zero) and NaN (fraction non-zero). */
  const EXPONENT_OF_INFINITY: bv32 := 0xFFFF_FFFF
  /** The biased exponent of values in [1, 2). */
  const EXPONENT_BIAS: int32 := 0x7FFF_FFFF

  /** The raw fields of one value. */
  datatype Bits = Bits(negative: bool, exponent: bv32, mantHi: bv64, mantLo: bv64)

  const ZERO: Bits := Bits(false, 0, 0, 0)

  /**
   * The engine's own algorithms. A `long` or `double` operand is converted
   * to a value first (a `double` is given by its IEEE 754 binary64 bit pattern).
   */
  datatype Algorithms = Algorithms(
    add: (Bits, Bits) -> Bits,
    subtract: (Bits, Bits) -> Bits,
    multiply: (Bits, Bits) -> Bits,
    divide: (Bits, Bits) -> Bits,
    sqrt: Bits -> Bits,
    fromLong: int64 -> Bits,
    fromDouble: bv64 -> Bits,
    compare: (Bits, Bits) -> int,
    equal: (Bits, Bits) -> bool)

  class Quadruple {
    var negative: bool
    var exponent: bv32
    var mantHi: bv64
    var mantLo: bv64

    function Value(): Bits
      reads this
    {
      Bits(negative, exponent, mantHi, mantLo)
    }

    /** A new zero. */
    constructor ()
      ensures Value() == ZERO
    {
      negative, exponent, mantHi, mantLo := false, 0, 0, 0;
    }

    /** A new engine object holding the value of `q`. */
    constructor Copy(q: Quadruple)
      ensures Value() == q.Value()
    {
      negative, exponent, mantHi, mantLo := q.negative, q.exponent, q.mantHi, q.mantLo;
    }

    /** A new engine object with the given raw fields. */
    constructor FromBits(b: Bits)
      ensures Value() == b
    {
      negative, exponent, mantHi, mantLo := b.negative, b.exponent, b.mantHi, b.mantLo;
    }

    constructor FromLong(alg: Algorithms, l: int64)
      ensures Value() == alg.fromLong(l)
    {
      var b := alg.fromLong(l);
      negative, exponent, mantHi, mantLo := b.negative, b.exponent, b.mantHi, b.mantLo;
    }

    constructor FromDouble(alg: Algorithms, d: bv64)
      ensures Value() == alg.fromDouble(d)
    {
      var b := alg.fromDouble(d);
      negative, exponent, mantHi, mantLo := b.negative, b.exponent, b.mantHi, b.mantLo;
    }

    method Assign(b: Bits)
      modifies this
      ensures Value() == b
    {
      negative, exponent, mantHi, mantLo := b.negative, b.exponent, b.mantHi, b.mantLo;
    }

    method Add(alg: Algorithms, summand: Quadruple)
      modifies this
      ensures Value() == alg.add(old(Value()), old(summand.Value()))
    {
      Assign(alg.add(Value(), summand.Value()));
    }

    method AddLong(alg: Algorithms, summand: int64)
      modifies this
      ensures Value() == alg.add(old(Value()), alg.fromLong(summand))
    {
      Assign(alg.add(Value(), alg.fromLong(summand)));
    }

    method AddDouble(alg: Algorithms, summand: bv64)
      modifies this
      ensures Value() == alg.add(old(Value()), alg.fromDouble(summand))
    {
      Assign(alg.add(Value(), alg.fromDouble(summand)));
    }

    method Subtract(alg: Algorithms, subtrahend: Quadruple)
      modifies this
      ensures Value() == alg.subtract(old(Value()), old(subtrahend.Value()))
    {
      Assign(alg.subtract(Value(), subtrahend.Value()));
    }

    method SubtractLong(alg: Algorithms, subtrahend: int64)
      modifies this
      ensures Value() == alg.subtract(old(Value()), alg.fromLong(subtrahend))
    {
      Assign(alg.subtract(Value(), alg.fromLong(subtrahend)));
    }

    method SubtractDouble(alg: Algorithms, subtrahend: bv64)
      modifies this
      ensures Value() == alg.subtract(old(Value()), alg.fromDouble(subtrahend))
    {
      Assign(alg.subtract(Value(), alg.fromDouble(subtrahend)));
    }

    method Multiply(alg: Algorithms, factor: Quadruple)
      modifies this
      ensures Value() == alg.multiply(old(Value()), old(factor.Value()))
    {
      Assign(alg.multiply(Value(), factor.Value()));
    }

    method MultiplyLong(alg: Algorithms, factor: int64)
      modifies this
      ensures Value() == alg.multiply(old(Value()), alg.fromLong(factor))
    {
      Assign(alg.multiply(Value(), alg.fromLong(factor)));
    }

    method MultiplyDouble(alg: Algorithms, factor: bv64)
      modifies this
      ensures Value() == alg.multiply(old(Value()), alg.fromDouble(factor))
    {
      Assign(alg.multiply(Value(), alg.fromDouble(factor)));
    }

    method Divide(alg: Algorithms, divisor: Quadruple)
      modifies this
      ensures Value() == alg.divide(old(Value()), old(divisor.Value()))
    {
      Assign(alg.divide(Value(), divisor.Value()));
    }

    method DivideLong(alg: Algorithms, divisor: int64)
      modifies this
      ensures Value() == alg.divide(old(Value()), alg.fromLong(divisor))
    {
      Assign(alg.divide(Value(), alg.fromLong(divisor)));
    }

    method DivideDouble(alg: Algorithms, divisor: bv64)
      modifies this
      ensures Value() == alg.divide(old(Value()), alg.fromDouble(divisor))
    {
      Assign(alg.divide(Value(), alg.fromDouble(divisor)));
    }

    method Sqrt(alg: Algorithms)
      modifies this
      ensures Value() == alg.sqrt(old(Value()))
    {
      Assign(alg.sqrt(Value()));
    }

    /** Flips the sign flag, for zeros and NaN too; magnitude untouched. */
    method Negate()
      modifies this
      ensures Value() == old(Value()).(negative := !old(negative))
    {
      negative := !negative;
    }
  }
}
