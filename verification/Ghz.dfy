/** GHZ preparation: reset, H on the first qubit, and a chain of CX. */
module Ghz {
  import opened Bits
  import opened Complexes
  import opened Gates
  import opened Rng
  import opened KernelSpec

  /** Amplitude `s` on index 0 and on one other index, zero elsewhere. */
  function TwoPoint(size: nat, s: real, other: nat): (v: Vector)
    ensures |v| == size
    ensures forall i: nat | i < size :: v[i] == if i == 0 || i == other then Complex(s, 0.0) else ZERO
  {
    seq(size, i => if i == 0 || i == other then Complex(s, 0.0) else ZERO)
  }

  /** The GHZ state on `n` qubits. */
  function GhzVector(n: nat, s: real): Vector {
    TwoPoint(Pow2(n), s, Pow2(n) - 1)
  }

  lemma FlipOfZero(n: nat)
    requires n > 0
    ensures TopBits(n, 1) == Flip(0, n - 1) == Pow2(n - 1) > 0
  {
    ZeroHasNoBits(n - 1);
    FlipIsMask(0, n - 1);
  }

  lemma HadamardOnZero(s: real)
    ensures Top(Hadamard(s), ONE, ZERO) == Complex(s, 0.0)
    ensures Bottom(Hadamard(s), ONE, ZERO) == Complex(s, 0.0)
    ensures Top(Hadamard(s), ZERO, ZERO) == ZERO
    ensures Bottom(Hadamard(s), ZERO, ZERO) == ZERO
  {
    hide Mul;
    Units(Complex(s, 0.0));
    Units(Complex(-s, 0.0));
    Units(ZERO);
  }

  lemma HadamardOnBasisAt(n: nat, s: real, i: nat)
    requires n > 0 && i < Pow2(n)
    ensures MixedAt(Hadamard(s), n - 1, Basis(Pow2(n), 0), i)
         == TwoPoint(Pow2(n), s, TopBits(n, 1))[i]
  {
    hide Top, Bottom, Hadamard, Bit, Flip;
    HadamardOnZero(s);
    FlipOfZero(n);
    ZeroHasNoBits(n - 1);
    FlipInRange(i, n - 1, n);
    FlipInvolutive(i, n - 1);
    FlipInvolutive(0, n - 1);
  }

  /** The first gate puts equal weight on |0...0> and |10...0>. */
  lemma HadamardOnBasis(n: nat, s: real)
    requires n > 0
    ensures Single(Hadamard(s), n - 1, Basis(Pow2(n), 0)) == TwoPoint(Pow2(n), s, TopBits(n, 1))
  {
    hide MixedAt, Hadamard, TopBits;
    forall i: nat | i < Pow2(n)
      ensures MixedAt(Hadamard(s), n - 1, Basis(Pow2(n), 0), i) == TwoPoint(Pow2(n), s, TopBits(n, 1))[i]
    {
      HadamardOnBasisAt(n, s, i);
    }
  }

  lemma NextTopBit(n: nat, m: nat)
    requires 0 < m < n
    ensures Flip(TopBits(n, m), n - 1 - m) == TopBits(n, m + 1)
    ensures Bit(TopBits(n, m), n - m) && TopBits(n, m) > 0
  {
    TopBitsBit(n, m, n - 1 - m);
    TopBitsBit(n, m, n - m);
    FlipIsMask(TopBits(n, m), n - 1 - m);
    ZeroHasNoBits(n - m);
  }

  /** One CX of the chain extends the run of set bits by one. */
  lemma CxExtends(n: nat, s: real, m: nat)
    requires 0 < m < n
    ensures Controlled(n - m, n - 1 - m, TwoPoint(Pow2(n), s, TopBits(n, m)))
         == TwoPoint(Pow2(n), s, TopBits(n, m + 1))
  {
    var c, t := n - m, n - 1 - m;
    NextTopBit(n, m);
    ZeroHasNoBits(c);
    forall i: nat | i < Pow2(n)
      ensures At(TwoPoint(Pow2(n), s, TopBits(n, m)), CxIndex(c, t, i))
           == TwoPoint(Pow2(n), s, TopBits(n, m + 1))[i]
    {
      CxInRange(c, t, i, n);
      CxInvolutive(c, t, i);
      assert CxIndex(c, t, 0) == 0;
      assert CxIndex(c, t, TopBits(n, m)) == TopBits(n, m + 1);
      CxInvolutive(c, t, TopBits(n, m));
    }
  }

  /** After H and `steps` CX gates the support is index 0 and the index with its
      top `steps + 1` bits set. */
  lemma {:induction false} ChainSupport(k: State, s: real, steps: nat)
    requires Ready(k) && steps < k.qubits
    ensures GhzChain(k, s, steps).vector == TwoPoint(Pow2(k.qubits), s, TopBits(k.qubits, steps + 1))
  {
    hide Single, MixedAt, Controlled, Hadamard, Basis, TwoPoint, TopBits, Pow2;
    if steps == 0 {
      HadamardOnBasis(k.qubits, s);
    } else {
      ChainSupport(k, s, steps - 1);
      CxExtends(k.qubits, s, steps);
    }
  }

  lemma GhzCorrect(k: State, s: real)
    requires Ready(k)
    ensures GhzChain(k, s, k.qubits - 1).vector == GhzVector(k.qubits, s)
  {
    hide GhzChain, TwoPoint, Pow2;
    assert Pow2(0) == 1 by { OneState(); }
    ChainSupport(k, s, k.qubits - 1);
  }

  lemma OneState()
    ensures Pow2(0) == 1
  {
  }

  // ----- what is observed on a GHZ state -----

  /** Every sampled outcome is all zeros or all ones. */
  lemma GhzOutcomes(k: State, s: real, shots: nat, i: nat)
    requires Coherent(k) && k.vector == GhzVector(k.qubits, s) && i < shots
    ensures Outcomes(k, shots)[i] in {0, Pow2(k.qubits) - 1}
  {
    OutcomesHaveWeight(k, shots, i);
  }

  lemma GhzMeasured(k: State, s: real)
    requires Coherent(k) && k.vector == GhzVector(k.qubits, s)
    ensures AfterMeasure(k).measuredState in {0, Pow2(k.qubits) - 1}
  {
    hide Mass, Scan;
    SampleInvertsCdf(k.vector, Unit(Output(Drawn(k).rng)), Sampled(k));
  }

  lemma {:induction false} GhzMass(n: nat, s: real, i: nat)
    requires n > 0 && InverseRootTwo(s) && i <= Pow2(n) - 1
    ensures Mass(GhzVector(n, s), i) == if i == 0 then 0.0 else 0.5
  {
    hide Prob, Times;
    if i > 0 {
      GhzMass(n, s, i - 1);
      RealProb(s);
      assert Times(s, s) == 0.5;
    }
  }

  lemma GhzUnitNorm(n: nat, s: real)
    requires n > 0 && InverseRootTwo(s)
    ensures Norm(GhzVector(n, s)) == 1.0
  {
    hide Prob, Times;
    GhzMass(n, s, Pow2(n) - 1);
    RealProb(s);
  }

  /** The two outcomes split the unit interval in half: all zeros exactly when
      the draw is below one half. */
  lemma GhzFairCoin(n: nat, s: real, threshold: real)
    requires n > 0 && InverseRootTwo(s) && 0.0 <= threshold < 1.0
    ensures Scan(GhzVector(n, s), threshold, 0) == if threshold < 0.5 then 0 else Pow2(n) - 1
  {
    hide Mass, Scan, GhzVector;
    var v := GhzVector(n, s);
    assert |v| == Pow2(n) by { GhzSize(n, s); }
    GhzMass(n, s, 0);
    GhzMass(n, s, 1);
    GhzMass(n, s, Pow2(n) - 1);
    GhzUnitNorm(n, s);
    SampleInvertsCdf(v, threshold, 0);
    SampleInvertsCdf(v, threshold, Pow2(n) - 1);
  }

  lemma GhzSize(n: nat, s: real)
    ensures |GhzVector(n, s)| == Pow2(n)
  {
  }
}
