/** How far a gate loop has got: the pairs `{i, i ^ mask}` whose lower index the
    loop has passed are already transformed, all others are untouched. */
module GateLoops {
  import opened Bits
  import opened Complexes
  import opened Gates

  /** The member of the pair of `k` whose bit `p` is clear. */
  function Lower(k: nat, p: nat): nat {
    if Bit(k, p) then Flip(k, p) else k
  }

  function Partial(v: Vector, w: Vector, p: nat, done: nat): (r: Vector)
    requires |v| == |w|
    ensures |r| == |v|
    ensures forall k: nat | k < |v| :: r[k] == if Lower(k, p) < done then w[k] else v[k]
  {
    seq(|v|, k requires 0 <= k < |v| => if Lower(k, p) < done then w[k] else v[k])
  }

  lemma LowerOwnsPair(i: nat, p: nat, k: nat)
    ensures Lower(k, p) == i <==> !Bit(i, p) && (k == i || k == Flip(i, p))
  {
    FlipInvolutive(k, p);
    FlipInvolutive(i, p);
  }

  lemma PartialStart(v: Vector, w: Vector, p: nat)
    requires |v| == |w|
    ensures Partial(v, w, p, 0) == v
  {
  }

  lemma PartialEnd(v: Vector, w: Vector, p: nat, n: nat)
    requires |v| == |w| == Pow2(n) && p < n
    ensures Partial(v, w, p, |v|) == w
  {
    forall k: nat | k < |v| ensures Lower(k, p) < |v| {
      FlipInRange(k, p, n);
    }
  }

  /** Passing index `i` completes its pair if its bit is clear, and nothing else. */
  lemma PartialStep(v: Vector, w: Vector, p: nat, n: nat, i: nat)
    requires |v| == |w| == Pow2(n) && p < n && i < |v|
    ensures Bit(i, p) ==> Partial(v, w, p, i + 1) == Partial(v, w, p, i)
    ensures !Bit(i, p) ==>
              var j := Flip(i, p);
              && i < j < |v|
              && Partial(v, w, p, i)[i] == v[i] && Partial(v, w, p, i)[j] == v[j]
              && Partial(v, w, p, i + 1) == Partial(v, w, p, i)[i := w[i]][j := w[j]]
  {
    forall k: nat | k < |v|
      ensures Lower(k, p) == i <==> !Bit(i, p) && (k == i || k == Flip(i, p))
    {
      LowerOwnsPair(i, p, k);
    }
    FlipIsMask(i, p);
    FlipInRange(i, p, n);
  }

  lemma HadamardPair(s: real, x: Complex, y: Complex)
    ensures Scale(Add(x, y), s) == Top(Hadamard(s), x, y)
    ensures Scale(Sub(x, y), s) == Bottom(Hadamard(s), x, y)
  {
  }

  lemma FlipPair(x: Complex, y: Complex)
    ensures Top(PAULI_X, x, y) == y && Bottom(PAULI_X, x, y) == x
  {
    hide Mul;
    Units(x);
    Units(y);
  }

  lemma HadamardCells(s: real, p: nat, n: nat, v: Vector, i: nat)
    requires |v| == Pow2(n) && p < n && i < |v| && !Bit(i, p)
    ensures var w, j := Single(Hadamard(s), p, v), Flip(i, p);
            && j < |v|
            && w[i] == Scale(Add(v[i], v[j]), s)
            && w[j] == Scale(Sub(v[i], v[j]), s)
  {
    hide Top, Bottom, Scale, Hadamard;
    FlipInRange(i, p, n);
    FlipInvolutive(i, p);
    HadamardPair(s, v[i], v[Flip(i, p)]);
  }

  lemma FlipCells(p: nat, n: nat, v: Vector, i: nat)
    requires |v| == Pow2(n) && p < n && i < |v| && !Bit(i, p)
    ensures var w, j := Single(PAULI_X, p, v), Flip(i, p);
            j < |v| && w[i] == v[j] && w[j] == v[i]
  {
    hide Top, Bottom;
    FlipInRange(i, p, n);
    FlipInvolutive(i, p);
    FlipPair(v[i], v[Flip(i, p)]);
  }

  lemma ControlledCells(c: nat, t: nat, n: nat, v: Vector, i: nat)
    requires |v| == Pow2(n) && t < n && c != t && i < |v| && !Bit(i, t)
    ensures var w, j := Controlled(c, t, v), Flip(i, t);
            && j < |v|
            && (Bit(i, c) ==> w[i] == v[j] && w[j] == v[i])
            && (!Bit(i, c) ==> w[i] == v[i] && w[j] == v[j])
  {
    FlipInRange(i, t, n);
    FlipInvolutive(i, t);
    FlipOtherBit(i, t, c);
  }
}

/** The kernel object: amplitudes are rewritten in place by each gate. */
module Kernel {
  import opened Bits
  import opened Complexes
  import opened Gates
  import opened GateLoops
  import opened Rng
  import opened KernelSpec

  class QcpuKernel {
    var qubitCount: nat
    var stateCount: nat
    var amplitudes: array?<Complex>
    var rngState: Word
    var measured: bool
    var measuredState: nat

    /** The value of `1.0 / sqrt(2.0)`. */
    const scale: real

    /** A kernel that has not been initialised. */
    constructor (scale: real)
      ensures this.scale == scale && amplitudes == null && Valid()
    {
      this.scale := scale;
      qubitCount, stateCount, amplitudes := 0, 0, null;
      rngState, measured, measuredState := 0, false, 0;
    }

    ghost predicate Valid()
      reads this
    {
      amplitudes != null ==> amplitudes.Length == stateCount
    }

    predicate IsReady()
      reads this
    {
      amplitudes != null && qubitCount != 0 && stateCount == Pow2(qubitCount)
    }

    ghost function View(): (k: State)
      reads this, amplitudes
      requires Valid() && IsReady()
      ensures KernelSpec.Ready(k)
    {
      State(qubitCount, amplitudes[..], rngState, measured, measuredState)
    }

    method Init(qubits: nat, seed: Word, memory: bool) returns (status: Status)
      requires Valid()
      modifies this
      ensures Valid()
      ensures status == (if qubits == 0 || qubits > MAX_QUBITS then ErrRange
                         else if !memory then ErrAlloc else Ok)
      ensures status == Ok ==> IsReady() && fresh(amplitudes) && View() == Initial(qubits, seed)
      ensures status == ErrAlloc ==> amplitudes == null && qubitCount == 0 && rngState == 0 && !measured
      ensures status == ErrRange ==> unchanged(this)
    {
      if qubits == 0 || qubits > MAX_QUBITS {
        return ErrRange;
      }
      qubitCount, stateCount := qubits, Pow2(qubits);
      measured, measuredState := false, 0;
      rngState := if seed == 0 then DEFAULT_SEED else seed;
      if !memory {
        qubitCount, stateCount, amplitudes, rngState := 0, 0, null, 0;
        return ErrAlloc;
      }
      amplitudes := new Complex[stateCount](_ => ZERO);
      status := Reset();
    }

    method Reset() returns (status: Status)
      requires Valid()
      modifies this, amplitudes
      ensures Valid() && amplitudes == old(amplitudes) && IsReady() == old(IsReady())
      ensures status == if old(IsReady()) then Ok else ErrArgument
      ensures status == Ok ==> View() == AfterReset(old(View()))
    {
      if !IsReady() {
        return ErrArgument;
      }
      SetBasis(amplitudes, 0);
      measured, measuredState := false, 0;
      status := Ok;
    }

    method ApplyH(qubit: nat) returns (status: Status)
      requires Valid()
      modifies this, amplitudes
      ensures Valid() && amplitudes == old(amplitudes) && IsReady() == old(IsReady())
      ensures status == (if !old(IsReady()) then ErrArgument
                         else if qubit >= old(qubitCount) then ErrRange else Ok)
      ensures status == Ok ==> View() == AfterH(old(View()), scale, qubit)
      ensures old(IsReady()) && status != Ok ==> View() == old(View())
    {
      hide Single, MixedAt, Hadamard, Pow2;
      if !IsReady() {
        return ErrArgument;
      }
      if qubit >= qubitCount {
        return ErrRange;
      }
      HadamardLoop(amplitudes, scale, qubitCount, qubitCount - 1 - qubit);
      measured := false;
      status := Ok;
    }

    method ApplyX(qubit: nat) returns (status: Status)
      requires Valid()
      modifies this, amplitudes
      ensures Valid() && amplitudes == old(amplitudes) && IsReady() == old(IsReady())
      ensures status == (if !old(IsReady()) then ErrArgument
                         else if qubit >= old(qubitCount) then ErrRange else Ok)
      ensures status == Ok ==> View() == AfterX(old(View()), qubit)
      ensures old(IsReady()) && status != Ok ==> View() == old(View())
    {
      hide Single, MixedAt, Hadamard, Pow2;
      if !IsReady() {
        return ErrArgument;
      }
      if qubit >= qubitCount {
        return ErrRange;
      }
      FlipLoop(amplitudes, qubitCount, qubitCount - 1 - qubit);
      measured := false;
      status := Ok;
    }

    method ApplyCx(control: nat, target: nat) returns (status: Status)
      requires Valid()
      modifies this, amplitudes
      ensures Valid() && amplitudes == old(amplitudes) && IsReady() == old(IsReady())
      ensures status == (if !old(IsReady()) then ErrArgument
                         else if control >= old(qubitCount) || target >= old(qubitCount) || control == target
                         then ErrRange else Ok)
      ensures status == Ok ==> View() == AfterCx(old(View()), control, target)
      ensures old(IsReady()) && status != Ok ==> View() == old(View())
    {
      hide Controlled, Pow2, Bit;
      if !IsReady() {
        return ErrArgument;
      }
      if control >= qubitCount || target >= qubitCount || control == target {
        return ErrRange;
      }
      ControlledLoop(amplitudes, qubitCount, qubitCount - 1 - control, qubitCount - 1 - target);
      measured := false;
      status := Ok;
    }

    method ApplyGhz() returns (status: Status)
      requires Valid()
      modifies this, amplitudes
      ensures Valid() && amplitudes == old(amplitudes) && IsReady() == old(IsReady())
      ensures status == if old(IsReady()) then Ok else ErrArgument
      ensures status == Ok ==> View() == GhzChain(old(View()), scale, old(qubitCount) - 1)
    {
      hide GhzChain, AfterH, AfterCx, Pow2, Basis;
      if !IsReady() {
        return ErrArgument;
      }
      ghost var before := View();
      status := Reset();
      status := ApplyH(0);
      GhzChainUnfolds(before, scale, 0);
      status := ChainCx(before);
    }

    /** The CX loop of the GHZ preparation. */
    method ChainCx(ghost before: State) returns (status: Status)
      requires Valid() && IsReady() && before.qubits == qubitCount
      requires View() == GhzChain(before, scale, 0)
      modifies this, amplitudes
      ensures Valid() && IsReady() && amplitudes == old(amplitudes) && qubitCount == old(qubitCount)
      ensures status == Ok && View() == GhzChain(before, scale, qubitCount - 1)
    {
      hide GhzChain, AfterCx, Pow2;
      var qubit := 1;
      status := Ok;
      while qubit < qubitCount
        invariant Valid() && IsReady() && amplitudes == old(amplitudes)
        invariant qubitCount == before.qubits && 1 <= qubit <= qubitCount && status == Ok
        invariant View() == GhzChain(before, scale, qubit - 1)
      {
        GhzChainUnfolds(before, scale, qubit);
        status := ApplyCx(qubit - 1, qubit);
        qubit := qubit + 1;
      }
    }

    method ComputeNorm() returns (norm: real)
      requires Valid()
      ensures norm == if IsReady() then Norm(View().vector) else 0.0
    {
      norm := 0.0;
      if IsReady() {
        norm := MassLoop(amplitudes);
      }
    }

    method Validate(tolerance: real) returns (status: Status)
      requires Valid()
      ensures status == (if !IsReady() || tolerance <= 0.0 then ErrArgument
                         else if -tolerance <= Norm(View().vector) - 1.0 <= tolerance then Ok
                         else ErrState)
    {
      if !IsReady() || tolerance <= 0.0 {
        return ErrArgument;
      }
      var norm := ComputeNorm();
      if norm - 1.0 > tolerance || 1.0 - norm > tolerance {
        return ErrState;
      }
      status := Ok;
    }

    /** One draw of the generator and one pass over the cumulative distribution. */
    method Sample() returns (status: Status, state: nat)
      requires Valid()
      modifies this`rngState
      ensures Valid()
      ensures status == if IsReady() then Ok else ErrArgument
      ensures status == Ok ==> View() == Drawn(old(View())) && state == Sampled(old(View()))
    {
      state := 0;
      if !IsReady() {
        return ErrArgument, 0;
      }
      ghost var k := View();
      rngState := NextState(rngState);
      var threshold := Unit(Output(rngState));
      state := ScanLoop(amplitudes, threshold);
      assert k.vector == amplitudes[..];
      status := Ok;
    }

    method Measure() returns (status: Status, state: nat)
      requires Valid()
      modifies this, amplitudes
      ensures Valid() && amplitudes == old(amplitudes) && IsReady() == old(IsReady())
      ensures status == if old(IsReady()) then Ok else ErrArgument
      ensures status == Ok ==> View() == AfterMeasure(old(View())) && state == measuredState
    {
      status, state := Sample();
      if status != Ok {
        return;
      }
      SetBasis(amplitudes, state);
      measured, measuredState := true, state;
    }

    method RunShots(shots: nat, memory: bool) returns (status: Status, counts: array<nat>)
      requires Valid()
      modifies this`rngState
      ensures Valid() && fresh(counts)
      ensures status == (if !IsReady() || shots == 0 then ErrArgument
                         else if !memory then ErrAlloc else Ok)
      ensures status == Ok ==>
                && View() == AfterShots(old(View()), shots)
                && counts[..] == Histogram(stateCount, Outcomes(old(View()), shots))
      ensures status != Ok ==> rngState == old(rngState)
    {
      hide Pow2, Scan, Unit, Output, NextState, Histogram;
      counts := new nat[0];
      if !IsReady() || shots == 0 {
        return ErrArgument, counts;
      }
      if !memory {
        return ErrAlloc, counts;
      }
      counts := new nat[stateCount](_ => 0);
      assert counts[..] == Histogram(stateCount, Outcomes(View(), 0));
      status := CountShots(shots, counts);
    }

    /** The shot loop: one sample and one increment per shot. */
    method CountShots(shots: nat, counts: array<nat>) returns (status: Status)
      requires Valid() && IsReady() && counts.Length == stateCount
      requires counts[..] == Histogram(stateCount, Outcomes(View(), 0))
      modifies this`rngState, counts
      ensures Valid() && IsReady() && status == Ok
      ensures View() == AfterShots(old(View()), shots)
      ensures counts[..] == Histogram(stateCount, Outcomes(old(View()), shots))
    {
      hide Pow2, Scan, Unit, Output, NextState, Histogram;
      ghost var k := View();
      status := Ok;
      var shot := 0;
      while shot < shots
        invariant Valid() && IsReady() && status == Ok && 0 <= shot <= shots
        invariant counts.Length == stateCount == |k.vector|
        invariant View() == AfterShots(k, shot)
        invariant counts[..] == Histogram(stateCount, Outcomes(k, shot))
      {
        var state;
        status, state := Sample();
        HistogramGrows(stateCount, Outcomes(k, shot), state);
        counts[state] := counts[state] + 1;
        shot := shot + 1;
      }
    }
  }

  // ----- the loops over the amplitude array -----

  method SetBasis(amp: array<Complex>, state: nat)
    requires state < amp.Length
    modifies amp
    ensures amp[..] == Basis(amp.Length, state)
  {
    var i := 0;
    while i < amp.Length
      invariant 0 <= i <= amp.Length
      invariant forall k | 0 <= k < i :: amp[k] == ZERO
    {
      amp[i] := ZERO;
      i := i + 1;
    }
    amp[state] := ONE;
  }

  method HadamardLoop(amp: array<Complex>, scale: real, n: nat, p: nat)
    requires amp.Length == Pow2(n) && p < n
    modifies amp
    ensures amp[..] == Single(Hadamard(scale), p, old(amp[..]))
  {
    ghost var v, w := amp[..], Single(Hadamard(scale), p, amp[..]);
    PartialStart(v, w, p);
    var index := 0;
    while index < amp.Length
      invariant 0 <= index <= amp.Length
      invariant amp[..] == Partial(v, w, p, index)
    {
      PartialStep(v, w, p, n, index);
      if !Bit(index, p) {
        HadamardCells(scale, p, n, v, index);
        var paired := Flip(index, p);
        var first, second := amp[index], amp[paired];
        amp[index] := Scale(Add(first, second), scale);
        amp[paired] := Scale(Sub(first, second), scale);
      }
      index := index + 1;
    }
    PartialEnd(v, w, p, n);
  }

  method FlipLoop(amp: array<Complex>, n: nat, p: nat)
    requires amp.Length == Pow2(n) && p < n
    modifies amp
    ensures amp[..] == Single(PAULI_X, p, old(amp[..]))
  {
    ghost var v, w := amp[..], Single(PAULI_X, p, amp[..]);
    PartialStart(v, w, p);
    var index := 0;
    while index < amp.Length
      invariant 0 <= index <= amp.Length
      invariant amp[..] == Partial(v, w, p, index)
    {
      PartialStep(v, w, p, n, index);
      if !Bit(index, p) {
        FlipCells(p, n, v, index);
        var paired := Flip(index, p);
        var temporary := amp[index];
        amp[index] := amp[paired];
        amp[paired] := temporary;
      }
      index := index + 1;
    }
    PartialEnd(v, w, p, n);
  }

  method ControlledLoop(amp: array<Complex>, n: nat, c: nat, t: nat)
    requires amp.Length == Pow2(n) && c < n && t < n && c != t
    modifies amp
    ensures amp[..] == Controlled(c, t, old(amp[..]))
  {
    ghost var v, w := amp[..], Controlled(c, t, amp[..]);
    PartialStart(v, w, t);
    var index := 0;
    while index < amp.Length
      invariant 0 <= index <= amp.Length
      invariant amp[..] == Partial(v, w, t, index)
    {
      PartialStep(v, w, t, n, index);
      if !Bit(index, t) {
        ControlledCells(c, t, n, v, index);
      }
      if Bit(index, c) && !Bit(index, t) {
        var paired := Flip(index, t);
        var temporary := amp[index];
        amp[index] := amp[paired];
        amp[paired] := temporary;
      }
      index := index + 1;
    }
    PartialEnd(v, w, t, n);
  }

  method MassLoop(amp: array<Complex>) returns (norm: real)
    ensures norm == Norm(amp[..])
  {
    norm := 0.0;
    var index := 0;
    while index < amp.Length
      invariant 0 <= index <= amp.Length
      invariant norm == Mass(amp[..], index)
    {
      norm := norm + Prob(amp[index]);
      index := index + 1;
    }
  }

  method ScanLoop(amp: array<Complex>, threshold: real) returns (state: nat)
    requires amp.Length > 0
    ensures state == Scan(amp[..], threshold, 0)
  {
    var cumulative := 0.0;
    var index := 0;
    while true
      invariant 0 <= index < amp.Length
      invariant cumulative == Mass(amp[..], index)
      invariant Scan(amp[..], threshold, 0) == Scan(amp[..], threshold, index)
      decreases amp.Length - index
    {
      cumulative := cumulative + Prob(amp[index]);
      if threshold < cumulative || index + 1 == amp.Length {
        return index;
      }
      index := index + 1;
    }
  }
}
