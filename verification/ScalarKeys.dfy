/**
 The unsigned keys under which scalar values are ordered. Bit patterns are numbers here: flipping the top bit of a
 `width`-bit pattern adds or subtracts half of its range, and complementing it subtracts it from the largest pattern.
 */
module ScalarKeys {
  import opened Powers

  lemma {:induction false} ProductOrder(a: nat, b: nat, factor: nat)
    requires factor > 0
    ensures a < b <==> a * factor < b * factor
    ensures a == b <==> a * factor == b * factor
  {
    if a < b {
      assert b * factor == a * factor + (b - a) * factor && (b - a) * factor > 0;
    } else if b < a {
      assert a * factor == b * factor + (a - b) * factor && (a - b) * factor > 0;
    }
  }

  // ----- signed integers -----

  /** The two's complement pattern of a value in `width` bits. */
  function Pattern(value: int, width: nat): nat {
    value % Pow2(width)
  }

  function FlipTop(bits: nat, width: nat): nat
    requires 0 < width
  {
    if bits < Pow2(width - 1) then bits + Pow2(width - 1) else bits - Pow2(width - 1)
  }

  /** A pattern is moved to the top of the 64-bit key. */
  function UnsignedOrderedKey(bits: nat, width: nat): nat
    requires width <= 64
  {
    bits * Pow2(64 - width)
  }

  function SignedOrderedKey(value: int, width: nat): nat
    requires 0 < width <= 64
  {
    UnsignedOrderedKey(FlipTop(Pattern(value, width), width), width)
  }

  predicate Fits(value: int, width: nat)
    requires 0 < width
  {
    0 - Pow2(width - 1) <= value < Pow2(width - 1)
  }

  lemma {:induction false} PatternOf(value: int, width: nat)
    requires 0 < width && Fits(value, width)
    ensures Pattern(value, width) == if value < 0 then value + Pow2(width) else value
    ensures FlipTop(Pattern(value, width), width) == value + Pow2(width - 1)
  {
    if value < 0 {
      QuotientUnique(value, Pow2(width), -1, value + Pow2(width));
    } else {
      QuotientUnique(value, Pow2(width), 0, value);
    }
  }

  /** At every width, signed keys are ordered as the values are, and they fit into 64 bits. */
  lemma {:induction false} SignedKeysOrdered(a: int, b: int, width: nat)
    requires 0 < width <= 64 && Fits(a, width) && Fits(b, width)
    ensures a < b <==> SignedOrderedKey(a, width) < SignedOrderedKey(b, width)
    ensures a == b <==> SignedOrderedKey(a, width) == SignedOrderedKey(b, width)
    ensures SignedOrderedKey(a, width) < Pow2(64)
  {
    PatternOf(a, width);
    PatternOf(b, width);
    ProductOrder(a + Pow2(width - 1), b + Pow2(width - 1), Pow2(64 - width));
    ProductOrder(a + Pow2(width - 1), Pow2(width), Pow2(64 - width));
    Pow2Sum(width, 64 - width);
  }

  // ----- binary floating point -----

  /**
   An interchange format of IEEE 754-2019, section 3.4: `fractions` is two to the number of trailing significand bits
   and `exponents` two to the number of exponent bits. A pattern is sign, exponent and fraction from the top.
   */
  datatype Format = Format(fractions: nat, exponents: nat)

  predicate Usable(format: Format) {
    format.fractions >= 2 && format.exponents >= 2
  }

  /** One half of the patterns: those without the sign bit. */
  function Half(format: Format): nat {
    format.exponents * format.fractions
  }

  predicate Negative(format: Format, bits: nat) {
    bits >= Half(format)
  }

  /** Exponent and fraction together. */
  function Magnitude(format: Format, bits: nat): nat {
    if Negative(format, bits) then bits - Half(format) else bits
  }

  function Exponent(format: Format, magnitude: nat): nat
    requires Usable(format)
  {
    magnitude / format.fractions
  }

  function Fraction(format: Format, magnitude: nat): nat
    requires Usable(format)
  {
    magnitude % format.fractions
  }

  /** The magnitude of the positive infinity. */
  function Infinity(format: Format): nat
    requires Usable(format)
  {
    (format.exponents - 1) * format.fractions
  }

  predicate IsNaN(format: Format, bits: nat)
    requires Usable(format)
  {
    var magnitude := Magnitude(format, bits);
    Exponent(format, magnitude) == format.exponents - 1 && Fraction(format, magnitude) != 0
  }

  /**
   The represented number in units of the smallest subnormal one: the fraction alone for exponent 0, otherwise the
   fraction with the implicit leading bit, scaled by the exponent. Infinity follows the largest finite number.
   */
  function Units(format: Format, magnitude: nat): nat
    requires Usable(format)
  {
    var exponent := Exponent(format, magnitude);
    if exponent == 0 then Fraction(format, magnitude)
    else (format.fractions + Fraction(format, magnitude)) * Pow2(exponent - 1)
  }

  function Value(format: Format, bits: nat): int
    requires Usable(format)
  {
    if Negative(format, bits) then 0 - Units(format, Magnitude(format, bits))
         else Units(format, Magnitude(format, bits))
  }

  /** The order of Go's cmp.Compare: NaN first and equal to itself, otherwise by number, with equal zeros. */
  predicate Before(format: Format, a: nat, b: nat)
    requires Usable(format)
  {
    if IsNaN(format, b) then false
    else if IsNaN(format, a) then true
    else Value(format, a) < Value(format, b)
  }

  /** NaN becomes 0, a negative pattern is complemented, any other gets its top bit set; both zeros are positive. */
  function OrderedFloatBits(format: Format, bits: nat): int
    requires Usable(format)
  {
    if IsNaN(format, bits) then 0
    else if Value(format, bits) == 0 then Half(format)
    else if Negative(format, bits) then 2 * Half(format) - 1 - bits
    else bits + Half(format)
  }

  /** Within one exponent the next pattern adds one unit of the last place. */
  lemma {:induction false} NextFraction(format: Format, magnitude: nat)
    requires Usable(format) && Fraction(format, magnitude) + 1 < format.fractions
    ensures Units(format, magnitude) < Units(format, magnitude + 1)
  {
    var f, e, r := format.fractions, Exponent(format, magnitude), Fraction(format, magnitude);
    QuotientUnique(magnitude + 1, f, e, r + 1);
    if e > 0 {
      ProductOrder(f + r, f + r + 1, Pow2(e - 1));
    }
  }

  /** After the last fraction of an exponent comes the first one of the next exponent. */
  lemma {:induction false} NextExponent(format: Format, magnitude: nat)
    requires Usable(format) && Fraction(format, magnitude) + 1 == format.fractions
    ensures Units(format, magnitude) < Units(format, magnitude + 1)
  {
    var f, e := format.fractions, Exponent(format, magnitude);
    QuotientUnique(magnitude + 1, f, e + 1, 0);
    assert Units(format, magnitude + 1) == f * Pow2(e);
    if e > 0 {
      DoubledProduct(f, Pow2(e - 1));
      ProductOrder(2 * f - 1, 2 * f, Pow2(e - 1));
    }
  }

  lemma {:induction false} DoubledProduct(a: nat, b: nat)
    ensures a * (2 * b) == (2 * a) * b
  {
  }

  /** The next pattern of the same sign represents a larger number, also across an exponent. */
  lemma {:induction false} NextIsLarger(format: Format, magnitude: nat)
    requires Usable(format)
    ensures Units(format, magnitude) < Units(format, magnitude + 1)
  {
    if Fraction(format, magnitude) + 1 < format.fractions {
      NextFraction(format, magnitude);
    } else {
      NextExponent(format, magnitude);
    }
  }

  lemma {:induction false} UnitsOrdered(format: Format, a: nat, b: nat)
    requires Usable(format) && a < b
    ensures Units(format, a) < Units(format, b)
    decreases b - a
  {
    NextIsLarger(format, b - 1);
    if a < b - 1 {
      UnitsOrdered(format, a, b - 1);
    }
  }

  lemma {:induction false} ZeroUnits(format: Format)
    requires Usable(format)
    ensures Units(format, 0) == 0
  {
    QuotientUnique(0, format.fractions, 0, 0);
  }

  /** What is not NaN lies at most at infinity, so its complement is positive. */
  lemma {:induction false} NumbersStopAtInfinity(format: Format, bits: nat)
    requires Usable(format) && bits < 2 * Half(format) && !IsNaN(format, bits)
    ensures Magnitude(format, bits) <= Infinity(format) && Infinity(format) + 2 <= Half(format)
  {
    var f, m := format.fractions, Magnitude(format, bits);
    var e := Exponent(format, m);
    assert m == e * f + Fraction(format, m);
    assert Half(format) == Infinity(format) + f by {
      assert format.exponents * f == (format.exponents - 1) * f + f;
    }
    ProductOrder(e, format.exponents, f);
    if e < format.exponents - 1 {
      assert (e + 1) * f <= Infinity(format) by { ProductOrder(e + 1, format.exponents - 1, f); }
      assert (e + 1) * f == e * f + f;
    }
  }

  /** A number's key says where it lies between the two infinities. */
  lemma {:induction false} KeyOfNumber(format: Format, bits: nat)
    requires Usable(format) && bits < 2 * Half(format) && !IsNaN(format, bits)
    ensures var m := Magnitude(format, bits);
            && 0 < OrderedFloatBits(format, bits) < 2 * Half(format)
            && OrderedFloatBits(format, bits) ==
                 if Negative(format, bits) && m > 0 then Half(format) - 1 - m else Half(format) + m
  {
    NumbersStopAtInfinity(format, bits);
    ZeroUnits(format);
    if Magnitude(format, bits) > 0 {
      UnitsOrdered(format, 0, Magnitude(format, bits));
    }
  }

  lemma {:induction false} ValueOfNumber(format: Format, a: nat, b: nat)
    requires Usable(format)
    ensures Magnitude(format, a) < Magnitude(format, b) <==>
              Units(format, Magnitude(format, a)) < Units(format, Magnitude(format, b))
    ensures Magnitude(format, a) > 0 <==> Units(format, Magnitude(format, a)) > 0
  {
    var m, n := Magnitude(format, a), Magnitude(format, b);
    ZeroUnits(format);
    if m < n {
      UnitsOrdered(format, m, n);
    } else if n < m {
      UnitsOrdered(format, n, m);
    }
    if m > 0 {
      UnitsOrdered(format, 0, m);
    }
  }

  /** On every pair of bit patterns the keys are ordered as the values are, and equal exactly for equal values. */
  lemma {:induction false} FloatKeysOrdered(format: Format, a: nat, b: nat)
    requires Usable(format) && a < 2 * Half(format) && b < 2 * Half(format)
    ensures Before(format, a, b) <==> OrderedFloatBits(format, a) < OrderedFloatBits(format, b)
    ensures !Before(format, a, b) && !Before(format, b, a) <==>
              OrderedFloatBits(format, a) == OrderedFloatBits(format, b)
  {
    if !IsNaN(format, a) {
      KeyOfNumber(format, a);
    }
    if !IsNaN(format, b) {
      KeyOfNumber(format, b);
    }
    ValueOfNumber(format, a, b);
    ValueOfNumber(format, b, a);
  }

  const BINARY32 := Format(0x80_0000, 0x100)
  const BINARY64 := Format(0x10_0000_0000_0000, 0x800)

  /** The two formats in use fill 32 and 64 bits, and the shifted 32-bit key keeps the order. */
  lemma {:induction false} FormatsInUse(a: nat, b: nat)
    requires a < Pow2(32) && b < Pow2(32)
    ensures 2 * Half(BINARY32) == Pow2(32) && 2 * Half(BINARY64) == Pow2(64)
    ensures 0 <= OrderedFloatBits(BINARY32, a) && 0 <= OrderedFloatBits(BINARY32, b)
    ensures Before(BINARY32, a, b) <==>
              UnsignedOrderedKey(OrderedFloatBits(BINARY32, a), 32)
              < UnsignedOrderedKey(OrderedFloatBits(BINARY32, b), 32)
  {
    Pow2Values();
    FloatKeysOrdered(BINARY32, a, b);
    if !IsNaN(BINARY32, a) {
      KeyOfNumber(BINARY32, a);
    }
    if !IsNaN(BINARY32, b) {
      KeyOfNumber(BINARY32, b);
    }
    ProductOrder(OrderedFloatBits(BINARY32, a), OrderedFloatBits(BINARY32, b), Pow2(32));
  }
}
