/** The norm's way from a binary64 bit pattern to Q32.32. */
module FixedPoint {
  import opened Ints
  import opened Bits
  import opened Uapi

  /** The value of a binary64 pattern; both zeros are `Finite(0.0)`. */
  datatype Double = Finite(value: real) | Infinite | NotANumber

  function PowerOfTwo(e: int): real {
    if e >= 0 then Pow2(e) as real else 1.0 / Pow2(-e) as real
  }

  /** IEEE 754-2008, section 3.4: one sign bit, eleven exponent bits, 52 fraction bits. */
  function DoubleOf(bits: U64): Double {
    var negative := bits / 0x8000_0000_0000_0000 == 1;
    var exponent := bits / 0x10_0000_0000_0000 % 0x800;
    var fraction := bits % 0x10_0000_0000_0000;
    if exponent == 0x7FF then (if fraction == 0 then Infinite else NotANumber)
    else
      var magnitude :=
        if exponent == 0 then fraction as real * PowerOfTwo(-1074)
        else (0x10_0000_0000_0000 + fraction) as real * PowerOfTwo(exponent - 1075);
      Finite(if negative then -magnitude else magnitude)
  }

  const ONE_PATTERN: U64 := 0x3FF0_0000_0000_0000

  /** Two to the 32nd. */
  const SCALE: real := 4294967296.0

  /** 2^-40 */
  const TOLERANCE: real := 1.0 / 1099511627776.0

  predicate Convertible(d: Double) {
    d.Finite? && 0.0 <= d.value <= 1.0 + TOLERANCE
  }

  function Clamped(x: real): real {
    if x > 1.0 then 1.0 else x
  }

  /** Rounding to the nearest multiple of 2^-32, exact halves up. */
  function Rounded(x: real): int {
    (Clamped(x) * SCALE + 0.5).Floor
  }

  function ToQ32(d: Double): (out: Option<U64>)
    ensures out.Some? <==> Convertible(d)
    ensures out.Some? ==> out.value <= ONE_Q32 && Nearest(d.value, out.value)
  {
    if Convertible(d) then
      RoundedIsNearest(d.value);
      Some(Rounded(d.value))
    else None
  }

  /** Accepted exactly when finite, not negative, and at most 2^-40 above one. */
  method NormToQ32(norm: U64) returns (out: Option<U64>)
    ensures out == ToQ32(DoubleOf(norm))
    ensures var d := DoubleOf(norm); out.Some? <==> d.Finite? && 0.0 <= d.value <= 1.0 + 1.0 / 1099511627776.0
  {
    hide DoubleOf;
    var d := DoubleOf(norm);
    if !d.Finite? || d.value < 0.0 {
      return None;
    }
    if d.value > 1.0 + TOLERANCE {
      return None;
    }
    RoundedIsNearest(d.value);
    var clamped := if d.value > 1.0 then 1.0 else d.value;
    var scaled := clamped * SCALE;
    var rounded := (scaled + 0.5).Floor;
    out := Some(rounded);
  }

  predicate Nearest(x: real, k: int) {
    Clamped(x) * SCALE - 0.5 < k as real <= Clamped(x) * SCALE + 0.5
  }

  /** The one multiple of 2^-32 within half a step of the clamped norm. */
  lemma RoundedIsNearest(x: real)
    requires 0.0 <= x
    ensures 0 <= Rounded(x) <= ONE_Q32
    ensures Nearest(x, Rounded(x))
    ensures forall k: int | Nearest(x, k) :: k == Rounded(x)
  {
    var y := Clamped(x) * SCALE + 0.5;
    assert 0.5 <= y <= SCALE + 0.5;
    assert y - 1.0 < y.Floor as real <= y;
  }

  lemma RoundedMonotone(x: real, y: real)
    requires 0.0 <= x <= y
    ensures Rounded(x) <= Rounded(y)
  {
    assert Clamped(x) * SCALE <= Clamped(y) * SCALE;
    RoundedIsNearest(x);
    RoundedIsNearest(y);
  }

  /** Exactly one is reported from half a step below one on. */
  lemma RoundsToOne(x: real)
    requires 0.0 <= x
    ensures Rounded(x) == ONE_Q32 <==> x >= 1.0 - 1.0 / 8589934592.0
  {
    RoundedIsNearest(x);
    assert Clamped(x) * SCALE >= SCALE - 0.5 <==> x >= 1.0 - 1.0 / 8589934592.0;
  }

  /** The kernel accepts a norm within 1e-12 of one, which is more than the
      conversion does: such a norm converts, and then to exactly one, unless it is
      more than 2^-40 above. */
  lemma ValidatedNorms(x: real)
    requires 1.0 - 0.000000000001 <= x <= 1.0 + 0.000000000001
    ensures Convertible(Finite(x)) <==> x <= 1.0 + TOLERANCE
    ensures Rounded(x) == ONE_Q32
  {
    RoundsToOne(x);
  }

  lemma FractionUnit()
    ensures PowerOfTwo(-52) == 1.0 / 4503599627370496.0
  {
    assert Pow2(8) == 256;
    assert Pow2(16) == 0x1_0000;
    assert Pow2(24) == 0x100_0000;
    assert Pow2(32) == 0x1_0000_0000;
    assert Pow2(40) == 0x100_0000_0000;
    assert Pow2(48) == 0x1_0000_0000_0000;
    assert Pow2(52) == 0x10_0000_0000_0000;
  }

  lemma OneIsOne()
    ensures DoubleOf(ONE_PATTERN) == Finite(1.0)
  {
    hide PowerOfTwo, Pow2;
    FractionUnit();
    assert ONE_PATTERN / 0x10_0000_0000_0000 == 0x3FF && ONE_PATTERN % 0x10_0000_0000_0000 == 0;
  }

  /** The double that is 4097 steps of 2^-52 above one: the kernel's tolerance of 1e-12
      takes it for a norm of one, the conversion refuses it. */
  const GAP_PATTERN: U64 := 0x3FF0_0000_0000_1001

  lemma GapValue()
    ensures DoubleOf(GAP_PATTERN) == Finite(1.0 + 4097.0 / 4503599627370496.0)
  {
    hide PowerOfTwo, Pow2;
    FractionUnit();
    assert GAP_PATTERN / 0x10_0000_0000_0000 == 0x3FF && GAP_PATTERN % 0x10_0000_0000_0000 == 0x1001;
  }

  /** There are doubles that the kernel accepts as a norm and the conversion refuses. */
  lemma ToleranceGap()
    ensures var d := DoubleOf(GAP_PATTERN);
            d.Finite? && -0.000000000001 <= d.value - 1.0 <= 0.000000000001 && !Convertible(d)
  {
    hide DoubleOf;
    GapValue();
  }

  lemma ZeroIsZero()
    ensures DoubleOf(0) == Finite(0.0)
  {
    hide PowerOfTwo;
  }

  /** `bits` is the representation of `x`. */
  predicate Encodes(bits: U64, x: real) {
    DoubleOf(bits) == Finite(x)
  }

  /** The bits of a double that holds `x` exactly. */
  method BitsOf(x: real) returns (bits: U64)
    requires exists b: U64 :: Encodes(b, x)
    ensures Encodes(bits, x)
  {
    bits :| Encodes(bits, x);
  }

  // ----- what the patterns stand for -----

  const SIGN: nat := 0x8000_0000_0000_0000
  const STEP: nat := 0x10_0000_0000_0000

  /** Sign, exponent and fraction of a pattern. */
  function Assembled(negative: bool, exponent: nat, fraction: nat): (bits: U64)
    requires exponent < 0x800 && fraction < STEP
    ensures bits / SIGN == (if negative then 1 else 0) && bits / STEP % 0x800 == exponent && bits % STEP == fraction
  {
    AssembledParts(if negative then 1 else 0, exponent, fraction);
    (if negative then SIGN else 0) + exponent * STEP + fraction
  }

  lemma AssembledParts(sign: nat, exponent: nat, fraction: nat)
    requires sign < 2 && exponent < 0x800 && fraction < STEP
    ensures var bits := sign * SIGN + exponent * STEP + fraction;
            && bits / SIGN == sign && bits / STEP % 0x800 == exponent && bits % STEP == fraction
            && bits < 0x1_0000_0000_0000_0000
  {
  }

  /** The sign bit negates. */
  lemma SignNegates(exponent: nat, fraction: nat)
    requires exponent < 0x7FF && fraction < STEP
    ensures var x, y := DoubleOf(Assembled(false, exponent, fraction)), DoubleOf(Assembled(true, exponent, fraction));
            x.Finite? && y.Finite? && y.value == -x.value
  {
    hide PowerOfTwo, Assembled;
  }

  /** The highest exponent holds infinity and what is not a number. */
  lemma HighestExponent(negative: bool, fraction: nat)
    requires fraction < STEP
    ensures DoubleOf(Assembled(negative, 0x7FF, fraction)) == if fraction == 0 then Infinite else NotANumber
  {
    hide PowerOfTwo, Assembled;
  }

  lemma NextPower(e: int)
    ensures PowerOfTwo(e + 1) == 2.0 * PowerOfTwo(e)
  {
    if e >= 0 {
      assert Pow2(e + 1) == 2 * Pow2(e);
    } else {
      HalfPower(Pow2(-(e + 1)), Pow2(-e));
    }
  }

  lemma HalfPower(small: nat, large: nat)
    requires small > 0 && large == 2 * small
    ensures 1.0 / small as real == 2.0 * (1.0 / large as real)
  {
    var s := small as real;
    assert large as real == 2.0 * s;
    assert 2.0 * (1.0 / (2.0 * s)) * s == 1.0;
  }

  lemma TimesDouble(a: real, p: real, q: real)
    requires q == 2.0 * p
    ensures a * q == 2.0 * (a * p)
  {
  }

  /** One more in the exponent doubles. */
  lemma ExponentDoubles(exponent: nat, fraction: nat)
    requires 1 <= exponent < 0x7FE && fraction < STEP
    ensures DoubleOf(Assembled(false, exponent + 1, fraction))
         == Finite(2.0 * DoubleOf(Assembled(false, exponent, fraction)).value)
  {
    hide PowerOfTwo, Assembled;
    NextPower(exponent - 1075);
    TimesDouble((STEP + fraction) as real, PowerOfTwo(exponent - 1075), PowerOfTwo(exponent - 1074));
  }

  /** From one up to two the fraction counts steps of 2^-52. */
  lemma FractionCounts(fraction: nat)
    requires fraction < STEP
    ensures DoubleOf(Assembled(false, 1023, fraction)) == Finite(1.0 + fraction as real / 4503599627370496.0)
  {
    hide PowerOfTwo, Assembled;
    FractionUnit();
  }

  /** Without a leading one the fraction counts the steps of the lowest exponent. */
  lemma GradualUnderflow(fraction: nat)
    requires fraction < STEP
    ensures DoubleOf(Assembled(false, 0, fraction))
         == Finite(DoubleOf(Assembled(false, 1, fraction)).value - DoubleOf(Assembled(false, 1, 0)).value)
  {
    hide PowerOfTwo, Assembled;
    var p := PowerOfTwo(-1074);
    Distribute(STEP as real, fraction as real, p);
  }

  lemma Distribute(a: real, b: real, p: real)
    ensures (a + b) * p - a * p == b * p
  {
  }
}
