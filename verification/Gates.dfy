/** The mathematical operators that the gate loops compute on a state vector.

    A vector on `n` qubits has `2^n` amplitudes.  Positions are bit positions,
    so qubit `q` (qubit 0 most significant) acts on position `n - 1 - q`. */
module Gates {
  import opened Bits
  import opened Complexes

  type Vector = seq<Complex>

  function At(v: Vector, i: nat): Complex {
    if i < |v| then v[i] else ZERO
  }

  function ProbAt(v: Vector): nat -> real {
    (i: nat) => Prob(At(v, i))
  }

  /** Probability mass of the first `k` basis states. */
  function Mass(v: Vector, k: nat): real {
    Sum(ProbAt(v), k)
  }

  function Norm(v: Vector): real {
    Mass(v, |v|)
  }

  function Basis(size: nat, state: nat): (v: Vector)
    ensures |v| == size
    ensures forall i: nat | i < size :: v[i] == if i == state then ONE else ZERO
  {
    seq(size, i => if i == state then ONE else ZERO)
  }

  // ----- single-qubit gates -----

  function MixedAt(m: Matrix, p: nat, v: Vector, i: nat): Complex {
    if Bit(i, p) then Bottom(m, At(v, Flip(i, p)), At(v, i))
    else Top(m, At(v, i), At(v, Flip(i, p)))
  }

  function Single(m: Matrix, p: nat, v: Vector): (w: Vector)
    ensures |w| == |v|
    ensures forall i: nat | i < |v| :: w[i] == MixedAt(m, p, v, i)
  {
    seq(|v|, (i: nat) => MixedAt(m, p, v, i))
  }

  /** The value of `1.0 / sqrt(2.0)`. */
  predicate InverseRootTwo(s: real) {
    s > 0.0 && Times(s, s) == 0.5
  }

  function Hadamard(s: real): Matrix {
    Matrix(Complex(s, 0.0), Complex(s, 0.0), Complex(s, 0.0), Complex(-s, 0.0))
  }

  const PAULI_X := Matrix(ZERO, ONE, ONE, ZERO)
  const PAULI_Y := Matrix(ZERO, Complex(0.0, -1.0), Complex(0.0, 1.0), ZERO)
  const PAULI_Z := Matrix(ONE, ZERO, ZERO, Complex(-1.0, 0.0))
  const PHASE_S := Matrix(ONE, ZERO, ZERO, Complex(0.0, 1.0))

  /** `cexp(I * pi / 4)` is `(1 + I) / sqrt(2)`. */
  function PhaseT(s: real): Matrix {
    Matrix(ONE, ZERO, ZERO, Complex(s, s))
  }

  lemma RootProducts(s: real)
    requires InverseRootTwo(s)
    ensures Times(s, s) == Times(-s, -s) == 0.5
    ensures Times(s, -s) == Times(-s, s) == -0.5
  {
    assert s * (-s) == -(s * s) && (-s) * s == -(s * s) && (-s) * (-s) == s * s;
  }

  lemma HadamardIsUnitary(s: real)
    requires InverseRootTwo(s)
    ensures Unitary(Hadamard(s))
  {
    hide Prob, InnerRe, InnerIm, Times;
    RootProducts(s);
    RealProb(s);
    RealProb(-s);
    RealInner(s, s);
    RealInner(s, -s);
  }

  lemma RealInner(a: real, b: real)
    ensures InnerRe(Complex(a, 0.0), Complex(b, 0.0)) == Times(a, b)
    ensures InnerIm(Complex(a, 0.0), Complex(b, 0.0)) == 0.0
  {
    hide Times;
    TimesValues(a);
    TimesValues(b);
    TimesValues(0.0);
  }

  lemma InnerWithZero(z: Complex)
    ensures InnerRe(z, ZERO) == InnerRe(ZERO, z) == InnerIm(z, ZERO) == InnerIm(ZERO, z) == 0.0
  {
    hide Times;
    TimesValues(z.re);
    TimesValues(z.im);
  }

  /** Amplitudes on the real and on the imaginary axis. */
  lemma RealProb(a: real)
    ensures Prob(Complex(a, 0.0)) == Prob(Complex(0.0, a)) == Times(a, a)
    ensures Prob(ZERO) == 0.0
  {
    hide Times;
    TimesValues(0.0);
  }

  /** A diagonal gate with a unit phase. */
  lemma DiagonalIsUnitary(z: Complex)
    requires Prob(z) == 1.0
    ensures Unitary(Matrix(ONE, ZERO, ZERO, z))
  {
    hide Prob, InnerRe, InnerIm;
    ProbOfUnit(1.0);
    InnerWithZero(ONE);
    InnerWithZero(z);
  }

  /** A bit flip with unit phases. */
  lemma AntiDiagonalIsUnitary(y: Complex, z: Complex)
    requires Prob(y) == 1.0 && Prob(z) == 1.0
    ensures Unitary(Matrix(ZERO, y, z, ZERO))
  {
    hide Prob, InnerRe, InnerIm;
    ProbOfUnit(1.0);
    InnerWithZero(y);
    InnerWithZero(z);
  }

  lemma ProbOfUnit(a: real)
    requires a * a == 1.0
    ensures Prob(Complex(a, 0.0)) == Prob(Complex(0.0, a)) == 1.0
    ensures Prob(ZERO) == 0.0
  {
    RealProb(a);
  }

  lemma ProbOfDiagonal(s: real)
    requires InverseRootTwo(s)
    ensures Prob(Complex(s, s)) == 1.0
  {
    RootProducts(s);
  }

  lemma GatesAreUnitary(s: real)
    requires InverseRootTwo(s)
    ensures Unitary(Hadamard(s)) && Unitary(PhaseT(s))
    ensures Unitary(PAULI_X) && Unitary(PAULI_Y) && Unitary(PAULI_Z) && Unitary(PHASE_S)
  {
    hide Prob, Unitary;
    ProbOfUnit(1.0);
    ProbOfUnit(-1.0);
    ProbOfDiagonal(s);
    HadamardIsUnitary(s);
    DiagonalIsUnitary(Complex(s, s));
    DiagonalIsUnitary(Complex(0.0, 1.0));
    DiagonalIsUnitary(Complex(-1.0, 0.0));
    AntiDiagonalIsUnitary(ONE, ONE);
    AntiDiagonalIsUnitary(Complex(0.0, -1.0), Complex(0.0, 1.0));
  }

  lemma {:induction false} SingleKeepsNorm(m: Matrix, p: nat, n: nat, v: Vector)
    requires Unitary(m) && p < n && |v| == Pow2(n)
    ensures Norm(Single(m, p, v)) == Norm(v)
  {
    var w := Single(m, p, v);
    forall i: nat | i < Pow2(n)
      ensures ProbAt(w)(i) + ProbAt(w)(Flip(i, p)) == ProbAt(v)(i) + ProbAt(v)(Flip(i, p))
    {
      var j := Flip(i, p);
      FlipInRange(i, p, n);
      FlipInvolutive(i, p);
      if Bit(i, p) {
        UnitaryKeepsPair(m, v[j], v[i]);
      } else {
        UnitaryKeepsPair(m, v[i], v[j]);
      }
    }
    SumPairwiseEqual(ProbAt(w), ProbAt(v), n, p);
  }

  function MatrixProduct(a: Matrix, b: Matrix): Matrix {
    Matrix(Top(a, b.m00, b.m10), Top(a, b.m01, b.m11), Bottom(a, b.m00, b.m10), Bottom(a, b.m01, b.m11))
  }

  const IDENTITY := Matrix(ONE, ZERO, ZERO, ONE)

  lemma ProductActs(a: Complex, b: Complex, m: Matrix, x: Complex, y: Complex)
    ensures Add(Mul(a, Top(m, x, y)), Mul(b, Bottom(m, x, y)))
         == Add(Mul(Add(Mul(a, m.m00), Mul(b, m.m10)), x), Mul(Add(Mul(a, m.m01), Mul(b, m.m11)), y))
  {
    MulDistributesLeft(a, Mul(m.m00, x), Mul(m.m01, y));
    MulDistributesLeft(b, Mul(m.m10, x), Mul(m.m11, y));
    MulDistributesRight(Mul(a, m.m00), Mul(b, m.m10), x);
    MulDistributesRight(Mul(a, m.m01), Mul(b, m.m11), y);
    MulAssociates(a, m.m00, x);
    MulAssociates(a, m.m01, y);
    MulAssociates(b, m.m10, x);
    MulAssociates(b, m.m11, y);
    AddRegroups(Mul(a, Mul(m.m00, x)), Mul(a, Mul(m.m01, y)), Mul(b, Mul(m.m10, x)), Mul(b, Mul(m.m11, y)));
  }

  /** Applying two gates to one qubit is applying their matrix product. */
  lemma SingleComposes(a: Matrix, b: Matrix, p: nat, n: nat, v: Vector)
    requires p < n && |v| == Pow2(n)
    ensures Single(a, p, Single(b, p, v)) == Single(MatrixProduct(a, b), p, v)
  {
    var w := Single(b, p, v);
    forall i: nat | i < |v|
      ensures MixedAt(a, p, w, i) == MixedAt(MatrixProduct(a, b), p, v, i)
    {
      var j := Flip(i, p);
      FlipInRange(i, p, n);
      FlipInvolutive(i, p);
      if Bit(i, p) {
        ProductActs(a.m10, a.m11, b, v[j], v[i]);
      } else {
        ProductActs(a.m00, a.m01, b, v[i], v[j]);
      }
    }
  }

  lemma SingleIdentity(p: nat, v: Vector)
    ensures Single(IDENTITY, p, v) == v
  {
  }

  lemma RealProduct(a: real, b: real)
    ensures Mul(Complex(a, 0.0), Complex(b, 0.0)) == Complex(Times(a, b), 0.0)
  {
    hide Times;
    TimesValues(a);
    TimesValues(b);
    RealProb(0.0);
  }

  lemma BalancedSquared(a: Complex, b: Complex, h: Complex, k: Complex)
    requires Mul(a, a) == Mul(b, b) == h && Mul(a, b) == Mul(b, a) == k
    requires Add(h, h) == ONE && Add(h, k) == ZERO
    ensures MatrixProduct(Matrix(a, a, a, b), Matrix(a, a, a, b)) == IDENTITY
  {
    hide Mul;
  }

  lemma RootEntries(s: real)
    requires InverseRootTwo(s)
    ensures var a, b := Complex(s, 0.0), Complex(-s, 0.0);
            Mul(a, a) == Mul(b, b) == Complex(0.5, 0.0) && Mul(a, b) == Mul(b, a) == Complex(-0.5, 0.0)
  {
    hide Mul, Times;
    RootProducts(s);
    RealProduct(s, s);
    RealProduct(s, -s);
    RealProduct(-s, s);
    RealProduct(-s, -s);
  }

  lemma HadamardSquared(s: real)
    requires InverseRootTwo(s)
    ensures MatrixProduct(Hadamard(s), Hadamard(s)) == IDENTITY
  {
    hide Mul, Times, MatrixProduct;
    RootEntries(s);
    BalancedSquared(Complex(s, 0.0), Complex(-s, 0.0), Complex(0.5, 0.0), Complex(-0.5, 0.0));
  }

  lemma DiagonalSquared(z: Complex)
    requires Mul(z, z) == ONE
    ensures MatrixProduct(Matrix(ONE, ZERO, ZERO, z), Matrix(ONE, ZERO, ZERO, z)) == IDENTITY
  {
    Units(ONE);
    Units(ZERO);
    Units(z);
  }

  lemma AntiDiagonalSquared(y: Complex, z: Complex)
    requires Mul(y, z) == ONE && Mul(z, y) == ONE
    ensures MatrixProduct(Matrix(ZERO, y, z, ZERO), Matrix(ZERO, y, z, ZERO)) == IDENTITY
  {
    Units(ONE);
    Units(ZERO);
    Units(y);
    Units(z);
  }

  lemma UnitSquares(a: real)
    requires a * a == 1.0
    ensures Mul(Complex(a, 0.0), Complex(a, 0.0)) == ONE
    ensures Mul(Complex(0.0, a), Complex(0.0, -a)) == ONE
  {
    assert Times(a, a) == 1.0 && Times(a, -a) == -1.0;
    hide Times;
    TimesValues(a);
    TimesValues(-a);
    RealProb(0.0);
  }

  lemma PauliSquared()
    ensures MatrixProduct(PAULI_X, PAULI_X) == IDENTITY
    ensures MatrixProduct(PAULI_Y, PAULI_Y) == IDENTITY
    ensures MatrixProduct(PAULI_Z, PAULI_Z) == IDENTITY
  {
    hide Mul, MatrixProduct;
    UnitSquares(1.0);
    UnitSquares(-1.0);
    AntiDiagonalSquared(ONE, ONE);
    AntiDiagonalSquared(Complex(0.0, -1.0), Complex(0.0, 1.0));
    DiagonalSquared(Complex(-1.0, 0.0));
  }

  /** H, X, Y and Z undo themselves. */
  lemma SingleInvolutions(s: real, m: Matrix, p: nat, n: nat, v: Vector)
    requires InverseRootTwo(s)
    requires m == Hadamard(s) || m == PAULI_X || m == PAULI_Y || m == PAULI_Z
    requires p < n && |v| == Pow2(n)
    ensures Single(m, p, Single(m, p, v)) == v
  {
    hide MatrixProduct, Single, MixedAt, Hadamard;
    HadamardSquared(s);
    PauliSquared();
    SingleComposes(m, m, p, n, v);
    SingleIdentity(p, v);
  }

  // ----- what each gate does to the amplitudes -----

  function Neg(x: Complex): Complex {
    Complex(-x.re, -x.im)
  }

  /** `I * x` */
  function TimesI(x: Complex): Complex {
    Complex(-x.im, x.re)
  }

  lemma MulByConstants(x: Complex)
    ensures Mul(Complex(-1.0, 0.0), x) == Neg(x)
    ensures Mul(Complex(0.0, 1.0), x) == TimesI(x)
    ensures Mul(Complex(0.0, -1.0), x) == Neg(TimesI(x))
  {
    hide Times;
    TimesValues(x.re);
    TimesValues(x.im);
  }

  /** The entry of `Single` at an index, as seen from its qubit's partner. */
  lemma SingleEntry(m: Matrix, q: nat, n: nat, v: Vector, i: nat, j: nat)
    requires q < n && |v| == Pow2(n) && Partner(i, j, q, n)
    ensures Single(m, n - 1 - q, v)[i] == if Ket(i, n)[q] then Bottom(m, v[j], v[i]) else Top(m, v[i], v[j])
  {
    hide Top, Bottom, Partner;
    assert i < Pow2(n) && j < Pow2(n) by { PartnerInRange(i, j, q, n); }
    PartnerIsFlip(i, j, q, n);
  }

  lemma PartnerInRange(i: nat, j: nat, q: nat, n: nat)
    requires q < n && Partner(i, j, q, n)
    ensures i < Pow2(n) && j < Pow2(n)
  {
  }

  lemma DiagonalEntries(z: Complex, x: Complex, y: Complex)
    ensures Top(Matrix(ONE, ZERO, ZERO, z), x, y) == x
    ensures Bottom(Matrix(ONE, ZERO, ZERO, z), x, y) == Mul(z, y)
  {
    hide Mul;
    Units(x);
    Units(y);
    Units(Mul(z, y));
  }

  lemma AntiDiagonalEntries(a: Complex, b: Complex, x: Complex, y: Complex)
    ensures Top(Matrix(ZERO, a, b, ZERO), x, y) == Mul(a, y)
    ensures Bottom(Matrix(ZERO, a, b, ZERO), x, y) == Mul(b, x)
  {
    hide Mul;
    Units(x);
    Units(y);
    Units(Mul(a, y));
    Units(Mul(b, x));
  }

  lemma HadamardEntries(s: real, x: Complex, y: Complex)
    ensures Top(Hadamard(s), x, y) == Scale(Add(x, y), s)
    ensures Bottom(Hadamard(s), x, y) == Scale(Sub(x, y), s)
  {
    hide Times;
    ScaledPart(s, x.re, y.re);
    ScaledPart(s, x.im, y.im);
    TimesValues(x.re);
    TimesValues(x.im);
    TimesValues(y.re);
    TimesValues(y.im);
  }

  lemma ScaledPart(s: real, a: real, b: real)
    ensures Times(s, a) + Times(s, b) == Times(a + b, s)
    ensures Times(s, a) + Times(-s, b) == Times(a - b, s)
  {
  }

  /** Qubit by qubit, what H makes of an amplitude and its partner's. */
  lemma HEntry(s: real, q: nat, n: nat, v: Vector, i: nat, j: nat)
    requires q < n && |v| == Pow2(n) && Partner(i, j, q, n)
    ensures Single(Hadamard(s), n - 1 - q, v)[i]
         == if Ket(i, n)[q] then Scale(Sub(v[j], v[i]), s) else Scale(Add(v[i], v[j]), s)
  {
    hide Top, Bottom, Hadamard, Scale, Add, Sub, Partner, Single;
    PartnerInRange(i, j, q, n);
    SingleEntry(Hadamard(s), q, n, v, i, j);
    HadamardEntries(s, v[j], v[i]);
    HadamardEntries(s, v[i], v[j]);
  }

  lemma XEntry(q: nat, n: nat, v: Vector, i: nat, j: nat)
    requires q < n && |v| == Pow2(n) && Partner(i, j, q, n)
    ensures Single(PAULI_X, n - 1 - q, v)[i] == v[j]
  {
    hide Top, Bottom, Mul, Partner, Single;
    PartnerInRange(i, j, q, n);
    SingleEntry(PAULI_X, q, n, v, i, j);
    AntiDiagonalEntries(ONE, ONE, v[i], v[j]);
    AntiDiagonalEntries(ONE, ONE, v[j], v[i]);
    Units(v[j]);
  }

  lemma YEntry(q: nat, n: nat, v: Vector, i: nat, j: nat)
    requires q < n && |v| == Pow2(n) && Partner(i, j, q, n)
    ensures Single(PAULI_Y, n - 1 - q, v)[i] == if Ket(i, n)[q] then TimesI(v[j]) else Neg(TimesI(v[j]))
  {
    hide Top, Bottom, Mul, Partner, Single, Neg, TimesI;
    PartnerInRange(i, j, q, n);
    SingleEntry(PAULI_Y, q, n, v, i, j);
    AntiDiagonalEntries(Complex(0.0, -1.0), Complex(0.0, 1.0), v[i], v[j]);
    AntiDiagonalEntries(Complex(0.0, -1.0), Complex(0.0, 1.0), v[j], v[i]);
    MulByConstants(v[j]);
  }

  /** A diagonal gate multiplies where its qubit is one. */
  lemma DiagonalEntry(z: Complex, q: nat, n: nat, v: Vector, i: nat)
    requires q < n && |v| == Pow2(n) && i < Pow2(n)
    ensures Single(Matrix(ONE, ZERO, ZERO, z), n - 1 - q, v)[i] == if Ket(i, n)[q] then Mul(z, v[i]) else v[i]
  {
    hide Top, Bottom, Mul, Partner, Single;
    var j := Flip(i, n - 1 - q);
    PartnerIsFlip(i, j, q, n);
    PartnerInRange(i, j, q, n);
    SingleEntry(Matrix(ONE, ZERO, ZERO, z), q, n, v, i, j);
    DiagonalEntries(z, v[i], v[j]);
    DiagonalEntries(z, v[j], v[i]);
  }

  lemma ZEntry(q: nat, n: nat, v: Vector, i: nat)
    requires q < n && |v| == Pow2(n) && i < Pow2(n)
    ensures Single(PAULI_Z, n - 1 - q, v)[i] == if Ket(i, n)[q] then Neg(v[i]) else v[i]
  {
    hide Mul, Single, Neg, TimesI;
    DiagonalEntry(Complex(-1.0, 0.0), q, n, v, i);
    MulByConstants(v[i]);
  }

  lemma SEntry(q: nat, n: nat, v: Vector, i: nat)
    requires q < n && |v| == Pow2(n) && i < Pow2(n)
    ensures Single(PHASE_S, n - 1 - q, v)[i] == if Ket(i, n)[q] then TimesI(v[i]) else v[i]
  {
    hide Mul, Single, Neg, TimesI;
    DiagonalEntry(Complex(0.0, 1.0), q, n, v, i);
    MulByConstants(v[i]);
  }

  /** T turns by the half of S: twice T is S, and T of one has two equal positive parts. */
  lemma TIsRootOfS(s: real, p: nat, n: nat, v: Vector)
    requires InverseRootTwo(s) && p < n && |v| == Pow2(n)
    ensures Single(PhaseT(s), p, Single(PhaseT(s), p, v)) == Single(PHASE_S, p, v)
    ensures PhaseT(s).m11.re == PhaseT(s).m11.im > 0.0
  {
    hide Single, MatrixProduct, PhaseT;
    SingleComposes(PhaseT(s), PhaseT(s), p, n, v);
    PhaseTSquared(s);
  }

  lemma PhaseTSquared(s: real)
    requires InverseRootTwo(s)
    ensures MatrixProduct(PhaseT(s), PhaseT(s)) == PHASE_S
    ensures PhaseT(s).m11.re == PhaseT(s).m11.im > 0.0
  {
    hide Mul;
    var z := Complex(s, s);
    RootSquare(s);
    Units(ONE);
    Units(ZERO);
    Units(z);
    Units(Mul(z, z));
  }

  lemma RootSquare(s: real)
    requires InverseRootTwo(s)
    ensures Mul(Complex(s, s), Complex(s, s)) == Complex(0.0, 1.0)
  {
    hide Times;
  }

  // ----- permutation gates -----

  /** Where a controlled-X reads each amplitude from. */
  function CxIndex(c: nat, t: nat, i: nat): nat {
    if Bit(i, c) then Flip(i, t) else i
  }

  function Controlled(c: nat, t: nat, v: Vector): (w: Vector)
    ensures |w| == |v|
    ensures forall i: nat | i < |v| :: w[i] == At(v, CxIndex(c, t, i))
  {
    seq(|v|, (i: nat) => At(v, CxIndex(c, t, i)))
  }

  lemma CxInvolutive(c: nat, t: nat, i: nat)
    requires c != t
    ensures CxIndex(c, t, CxIndex(c, t, i)) == i
  {
    FlipInvolutive(i, t);
    FlipOtherBit(i, t, c);
  }

  lemma CxInRange(c: nat, t: nat, i: nat, n: nat)
    requires t < n && i < Pow2(n)
    ensures CxIndex(c, t, i) < Pow2(n)
  {
    FlipInRange(i, t, n);
  }

  lemma ControlledInvolution(c: nat, t: nat, n: nat, v: Vector)
    requires c != t && t < n && |v| == Pow2(n)
    ensures Controlled(c, t, Controlled(c, t, v)) == v
  {
    forall i: nat | i < |v|
      ensures At(Controlled(c, t, v), CxIndex(c, t, i)) == v[i]
    {
      CxInRange(c, t, i, n);
      CxInvolutive(c, t, i);
    }
  }

  lemma {:induction false} ControlledKeepsNorm(c: nat, t: nat, n: nat, v: Vector)
    requires c != t && t < n && |v| == Pow2(n)
    ensures Norm(Controlled(c, t, v)) == Norm(v)
  {
    var w := Controlled(c, t, v);
    forall i: nat | i < Pow2(n)
      ensures ProbAt(w)(i) + ProbAt(w)(Flip(i, t)) == ProbAt(v)(i) + ProbAt(v)(Flip(i, t))
    {
      FlipInRange(i, t, n);
      FlipInvolutive(i, t);
      FlipOtherBit(i, t, c);
    }
    SumPairwiseEqual(ProbAt(w), ProbAt(v), n, t);
  }

  /** The index with bits `a` and `b` exchanged. */
  function SwapIndex(a: nat, b: nat, i: nat): nat {
    if Bit(i, a) == Bit(i, b) then i else Flip(Flip(i, a), b)
  }

  function Swapped(a: nat, b: nat, v: Vector): (w: Vector)
    ensures |w| == |v|
    ensures forall i: nat | i < |v| :: w[i] == At(v, SwapIndex(a, b, i))
  {
    seq(|v|, (i: nat) => At(v, SwapIndex(a, b, i)))
  }

  /** What exchanging two bits means, bit by bit. */
  lemma SwapIndexBits(a: nat, b: nat, i: nat, p: nat)
    requires a != b
    ensures Bit(SwapIndex(a, b, i), p) == Bit(i, if p == a then b else if p == b then a else p)
  {
    var j := Flip(i, a);
    FlipInvolutive(i, a);
    FlipInvolutive(j, b);
    FlipOtherBit(i, a, b);
    FlipOtherBit(j, b, a);
    if p != a && p != b {
      FlipOtherBit(i, a, p);
      FlipOtherBit(j, b, p);
    }
  }

  /** No other index below `2^n` has those bits. */
  lemma SwapIndexUnique(a: nat, b: nat, n: nat, i: nat, j: nat)
    requires a != b && a < n && b < n && i < Pow2(n) && j < Pow2(n)
    requires forall p: nat | p < n ::
               Bit(j, p) == Bit(i, if p == a then b else if p == b then a else p)
    ensures j == SwapIndex(a, b, i)
  {
    FlipInRange(i, a, n);
    FlipInRange(Flip(i, a), b, n);
    forall p: nat | p < n ensures Bit(j, p) == Bit(SwapIndex(a, b, i), p) {
      SwapIndexBits(a, b, i, p);
    }
    BitsDetermineIndex(j, SwapIndex(a, b, i), n);
  }

  lemma ThreeCxIndex(a: nat, b: nat, i: nat)
    requires a != b
    ensures CxIndex(a, b, CxIndex(b, a, CxIndex(a, b, i))) == SwapIndex(a, b, i)
  {
    FlipOtherBit(i, b, a);
    FlipOtherBit(i, a, b);
    FlipInvolutive(i, a);
    FlipInvolutive(i, b);
    var j := Flip(i, b);
    FlipInvolutive(j, a);
    FlipOtherBit(j, a, b);
    FlipsCommute(i, a, b);
  }

  lemma ThreeCxIsSwap(a: nat, b: nat, n: nat, v: Vector)
    requires a != b && a < n && b < n && |v| == Pow2(n)
    ensures Controlled(a, b, Controlled(b, a, Controlled(a, b, v))) == Swapped(a, b, v)
  {
    var u := Controlled(a, b, v);
    var w := Controlled(b, a, u);
    forall i: nat | i < |v|
      ensures At(w, CxIndex(a, b, i)) == At(v, SwapIndex(a, b, i))
    {
      CxInRange(a, b, i, n);
      CxInRange(b, a, CxIndex(a, b, i), n);
      ThreeCxIndex(a, b, i);
    }
  }
}
