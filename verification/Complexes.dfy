/** Complex amplitudes over exact reals: rounding of `double complex` is not modelled. */
module Complexes {

  datatype Complex = Complex(re: real, im: real)

  /** The product of two reals.  It has a name so that a proof about signs or
      constants can leave it uninterpreted. */
  function Times(a: real, b: real): real {
    a * b
  }

  lemma TimesValues(a: real)
    ensures Times(a, 0.0) == Times(0.0, a) == 0.0
    ensures Times(a, 1.0) == Times(1.0, a) == a
    ensures Times(a, -1.0) == Times(-1.0, a) == -a
  {
  }

  const ZERO := Complex(0.0, 0.0)
  const ONE := Complex(1.0, 0.0)

  function Add(x: Complex, y: Complex): Complex {
    Complex(x.re + y.re, x.im + y.im)
  }

  function Sub(x: Complex, y: Complex): Complex {
    Complex(x.re - y.re, x.im - y.im)
  }

  function Mul(x: Complex, y: Complex): Complex {
    Complex(Times(x.re, y.re) - Times(x.im, y.im), Times(x.re, y.im) + Times(x.im, y.re))
  }

  function Scale(x: Complex, s: real): Complex {
    Complex(Times(x.re, s), Times(x.im, s))
  }

  /** The squared modulus. */
  function Prob(x: Complex): real {
    Times(x.re, x.re) + Times(x.im, x.im)
  }

  /** Only the zero amplitude has no weight. */
  lemma ProbSign(x: Complex)
    ensures Prob(x) >= 0.0
    ensures x != ZERO ==> Prob(x) > 0.0
  {
    hide Times;
    SquareSign(x.re);
    SquareSign(x.im);
  }

  lemma PositiveProduct(a: real, b: real)
    requires a > 0.0 && b > 0.0
    ensures Times(a, b) > 0.0
  {
  }

  lemma SquareSign(a: real)
    ensures Times(a, a) >= 0.0
    ensures a != 0.0 ==> Times(a, a) > 0.0
  {
    TimesValues(0.0);
    assert Times(a, a) == Times(-a, -a);
    if a < 0.0 {
      PositiveProduct(-a, -a);
    } else if a > 0.0 {
      PositiveProduct(a, a);
    }
  }

  /** A 2x2 matrix acting on the amplitudes of one qubit. */
  datatype Matrix = Matrix(m00: Complex, m01: Complex, m10: Complex, m11: Complex)

  function Top(m: Matrix, x: Complex, y: Complex): Complex {
    Add(Mul(m.m00, x), Mul(m.m01, y))
  }

  function Bottom(m: Matrix, x: Complex, y: Complex): Complex {
    Add(Mul(m.m10, x), Mul(m.m11, y))
  }

  lemma TimesDistributes(a: real, b: real, x: real)
    ensures Times(a, x) + Times(b, x) == Times(a + b, x)
    ensures Times(a, x) - Times(b, x) == Times(a - b, x)
  {
  }

  lemma TimesCommutes(a: real, b: real)
    ensures Times(a, b) == Times(b, a)
  {
  }

  lemma TimesAssociates(a: real, b: real, c: real)
    ensures Times(Times(a, b), c) == Times(a, Times(b, c))
  {
  }

  lemma TimesDistributesLeft(a: real, x: real, y: real)
    ensures Times(a, x + y) == Times(a, x) + Times(a, y)
    ensures Times(a, x - y) == Times(a, x) - Times(a, y)
  {
    hide Times;
    TimesDistributes(x, y, a);
    TimesCommutes(a, x);
    TimesCommutes(a, y);
    TimesCommutes(a, x + y);
    TimesCommutes(a, x - y);
  }

  /** `(a * b) * c - (d * e) * c` and its sum, regrouped. */
  lemma TimesOfPair(a: real, b: real, d: real, e: real, c: real)
    ensures Times(Times(a, b) - Times(d, e), c) == Times(a, Times(b, c)) - Times(d, Times(e, c))
    ensures Times(Times(a, b) + Times(d, e), c) == Times(a, Times(b, c)) + Times(d, Times(e, c))
  {
    hide Times;
    TimesDistributes(Times(a, b), Times(d, e), c);
    TimesAssociates(a, b, c);
    TimesAssociates(d, e, c);
  }

  lemma MulAssociates(a: Complex, b: Complex, x: Complex)
    ensures Mul(Mul(a, b), x) == Mul(a, Mul(b, x))
  {
    hide Times;
    TimesOfPair(a.re, b.re, a.im, b.im, x.re);
    TimesOfPair(a.re, b.re, a.im, b.im, x.im);
    TimesOfPair(a.re, b.im, a.im, b.re, x.re);
    TimesOfPair(a.re, b.im, a.im, b.re, x.im);
    TimesDistributesLeft(a.re, Times(b.re, x.re), Times(b.im, x.im));
    TimesDistributesLeft(a.im, Times(b.re, x.re), Times(b.im, x.im));
    TimesDistributesLeft(a.re, Times(b.re, x.im), Times(b.im, x.re));
    TimesDistributesLeft(a.im, Times(b.re, x.im), Times(b.im, x.re));
  }

  lemma MulDistributesRight(a: Complex, b: Complex, x: Complex)
    ensures Mul(Add(a, b), x) == Add(Mul(a, x), Mul(b, x))
  {
    hide Times;
    TimesDistributes(a.re, b.re, x.re);
    TimesDistributes(a.re, b.re, x.im);
    TimesDistributes(a.im, b.im, x.re);
    TimesDistributes(a.im, b.im, x.im);
  }

  lemma MulDistributesLeft(a: Complex, x: Complex, y: Complex)
    ensures Mul(a, Add(x, y)) == Add(Mul(a, x), Mul(a, y))
  {
    hide Times;
    TimesDistributesLeft(a.re, x.re, y.re);
    TimesDistributesLeft(a.re, x.im, y.im);
    TimesDistributesLeft(a.im, x.re, y.re);
    TimesDistributesLeft(a.im, x.im, y.im);
  }

  lemma Units(x: Complex)
    ensures Mul(ONE, x) == x && Mul(x, ONE) == x
    ensures Mul(ZERO, x) == ZERO && Mul(x, ZERO) == ZERO
    ensures Add(ZERO, x) == x && Add(x, ZERO) == x
  {
    hide Times;
    TimesValues(x.re);
    TimesValues(x.im);
  }

  lemma AddRegroups(a: Complex, b: Complex, c: Complex, d: Complex)
    ensures Add(Add(a, b), Add(c, d)) == Add(Add(a, c), Add(b, d))
  {
  }

  /** Real and imaginary part of `conj(a) * b`. */
  function InnerRe(a: Complex, b: Complex): real {
    Times(a.re, b.re) + Times(a.im, b.im)
  }

  function InnerIm(a: Complex, b: Complex): real {
    Times(a.re, b.im) - Times(a.im, b.re)
  }

  /** The columns are orthonormal. */
  predicate Unitary(m: Matrix) {
    && Prob(m.m00) + Prob(m.m10) == 1.0
    && Prob(m.m01) + Prob(m.m11) == 1.0
    && InnerRe(m.m00, m.m01) + InnerRe(m.m10, m.m11) == 0.0
    && InnerIm(m.m00, m.m01) + InnerIm(m.m10, m.m11) == 0.0
  }

  lemma ProbOfProduct(a: Complex, x: Complex)
    ensures Prob(Mul(a, x)) == Times(Prob(a), Prob(x))
  {
  }

  lemma ProbOfSum(u: Complex, w: Complex)
    ensures Prob(Add(u, w)) == Prob(u) + Prob(w) + 2.0 * InnerRe(u, w)
  {
  }

  lemma InnerOfProducts(a: Complex, x: Complex, b: Complex, y: Complex)
    ensures InnerRe(Mul(a, x), Mul(b, y))
         == Times(InnerRe(a, b), InnerRe(x, y)) - Times(InnerIm(a, b), InnerIm(x, y))
  {
  }

  lemma ProbOfCombination(a: Complex, x: Complex, b: Complex, y: Complex)
    ensures Prob(Add(Mul(a, x), Mul(b, y)))
         == Times(Prob(a), Prob(x)) + Times(Prob(b), Prob(y))
            + 2.0 * (Times(InnerRe(a, b), InnerRe(x, y)) - Times(InnerIm(a, b), InnerIm(x, y)))
  {
    hide Prob, InnerRe, InnerIm, Times, Mul, Add;
    ProbOfSum(Mul(a, x), Mul(b, y));
    ProbOfProduct(a, x);
    ProbOfProduct(b, y);
    InnerOfProducts(a, x, b, y);
  }

  /** A unitary matrix keeps the weight of the pair it mixes. */
  lemma UnitaryKeepsPair(m: Matrix, x: Complex, y: Complex)
    requires Unitary(m)
    ensures Prob(Top(m, x, y)) + Prob(Bottom(m, x, y)) == Prob(x) + Prob(y)
  {
    hide Prob, InnerRe, InnerIm, Times, Mul, Add;
    ProbOfCombination(m.m00, x, m.m01, y);
    ProbOfCombination(m.m10, x, m.m11, y);
    TimesDistributes(Prob(m.m00), Prob(m.m10), Prob(x));
    TimesDistributes(Prob(m.m01), Prob(m.m11), Prob(y));
    TimesDistributes(InnerRe(m.m00, m.m01), InnerRe(m.m10, m.m11), InnerRe(x, y));
    TimesDistributes(InnerIm(m.m00, m.m01), InnerIm(m.m10, m.m11), InnerIm(x, y));
    TimesValues(Prob(x));
    TimesValues(Prob(y));
    TimesValues(InnerRe(x, y));
    TimesValues(InnerIm(x, y));
  }
}
