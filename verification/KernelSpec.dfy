/** The state-vector kernel as a machine over values: what each kernel operation
    makes of the kernel state, and what every run of operations keeps. */
module KernelSpec {
  import opened Bits
  import opened Complexes
  import opened Gates
  import opened Rng

  const MAX_QUBITS: nat := 20

  datatype Status = Ok | ErrArgument | ErrRange | ErrAlloc | ErrState

  datatype State = State(qubits: nat, vector: Vector, rng: Word, measured: bool, measuredState: nat)

  predicate Ready(k: State) {
    k.qubits > 0 && |k.vector| == Pow2(k.qubits)
  }

  /** The bit position of a qubit; qubit 0 is the most significant bit. */
  function Position(k: State, qubit: nat): nat
    requires qubit < k.qubits
  {
    k.qubits - 1 - qubit
  }

  // ----- the operations -----

  function Initial(qubits: nat, seed: Word): State {
    State(qubits, Basis(Pow2(qubits), 0), InitialState(seed), false, 0)
  }

  function AfterReset(k: State): State {
    k.(vector := Basis(|k.vector|, 0), measured := false, measuredState := 0)
  }

  function AfterH(k: State, s: real, qubit: nat): State
    requires qubit < k.qubits
  {
    k.(vector := Single(Hadamard(s), Position(k, qubit), k.vector), measured := false)
  }

  function AfterX(k: State, qubit: nat): State
    requires qubit < k.qubits
  {
    k.(vector := Single(PAULI_X, Position(k, qubit), k.vector), measured := false)
  }

  function AfterCx(k: State, control: nat, target: nat): State
    requires control < k.qubits && target < k.qubits
  {
    k.(vector := Controlled(Position(k, control), Position(k, target), k.vector), measured := false)
  }

  /** Reset, H on qubit 0, then CX from each of the first `steps` qubits to the next. */
  function GhzChain(k: State, s: real, steps: nat): (r: State)
    requires steps < k.qubits
    ensures r.qubits == k.qubits && |r.vector| == |k.vector| && r.rng == k.rng
    ensures !r.measured && r.measuredState == 0
  {
    if steps == 0 then AfterH(AfterReset(k), s, 0)
    else AfterCx(GhzChain(k, s, steps - 1), steps - 1, steps)
  }

  lemma GhzChainUnfolds(k: State, s: real, steps: nat)
    requires steps < k.qubits
    ensures steps == 0 ==> GhzChain(k, s, steps) == AfterH(AfterReset(k), s, 0)
    ensures steps > 0 ==> GhzChain(k, s, steps) == AfterCx(GhzChain(k, s, steps - 1), steps - 1, steps)
  {
  }

  /** The scan of the sampler from index `i` on. */
  function Scan(v: Vector, threshold: real, i: nat): (r: nat)
    requires i < |v|
    ensures i <= r < |v|
    decreases |v| - i
  {
    if threshold < Mass(v, i + 1) || i + 1 == |v| then i
    else Scan(v, threshold, i + 1)
  }

  function Drawn(k: State): State {
    k.(rng := NextState(k.rng))
  }

  /** The state index that the next sample returns. */
  function Sampled(k: State): (r: nat)
    requires Ready(k)
    ensures r < |k.vector|
  {
    Scan(k.vector, Unit(Output(Drawn(k).rng)), 0)
  }

  function AfterMeasure(k: State): State
    requires Ready(k)
  {
    var state := Sampled(k);
    Drawn(k).(vector := Basis(|k.vector|, state), measured := true, measuredState := state)
  }

  function AfterShots(k: State, shots: nat): (r: State)
    ensures r.vector == k.vector && r.qubits == k.qubits
  {
    if shots == 0 then k else Drawn(AfterShots(k, shots - 1))
  }

  /** The outcomes of consecutive samples, in order. */
  function Outcomes(k: State, shots: nat): (r: seq<nat>)
    requires Ready(k)
    ensures |r| == shots
    ensures forall i | 0 <= i < shots :: r[i] < |k.vector|
  {
    if shots == 0 then [] else Outcomes(k, shots - 1) + [Sampled(AfterShots(k, shots - 1))]
  }

  // ----- what the gates do, qubit by qubit -----

  /** Amplitudes after H, X and CX, for the basis states `i` and its partner `j` in the
      gate's (target) qubit. */
  lemma GateAmplitudes(k: State, s: real, q: nat, i: nat, j: nat)
    requires Ready(k) && q < k.qubits && Partner(i, j, q, k.qubits)
    ensures AfterX(k, q).vector[i] == k.vector[j]
    ensures AfterH(k, s, q).vector[i]
         == if Ket(i, k.qubits)[q] then Scale(Sub(k.vector[j], k.vector[i]), s)
            else Scale(Add(k.vector[i], k.vector[j]), s)
  {
    hide Single, MixedAt, Hadamard, Scale, Add, Sub, Partner;
    PartnerInRange(i, j, q, k.qubits);
    XEntry(q, k.qubits, k.vector, i, j);
    HEntry(s, q, k.qubits, k.vector, i, j);
  }

  lemma CxAmplitudes(k: State, control: nat, target: nat, i: nat, j: nat)
    requires Ready(k) && control < k.qubits && target < k.qubits && Partner(i, j, target, k.qubits)
    ensures AfterCx(k, control, target).vector[i] == if Ket(i, k.qubits)[control] then k.vector[j] else k.vector[i]
  {
    hide Partner;
    PartnerInRange(i, j, target, k.qubits);
    PartnerIsFlip(i, j, target, k.qubits);
  }

  // ----- what every run keeps -----

  /** Unit norm, and a measured kernel is exactly in its recorded basis state. */
  ghost predicate Coherent(k: State) {
    && Ready(k)
    && Norm(k.vector) == 1.0
    && k.rng != 0
    && (k.measured ==> k.measuredState < |k.vector| && k.vector == Basis(|k.vector|, k.measuredState))
  }

  lemma {:induction false} BasisMass(size: nat, state: nat, k: nat)
    requires state < size && k <= size
    ensures Mass(Basis(size, state), k) == if state < k then 1.0 else 0.0
  {
    hide Prob;
    if k > 0 {
      BasisMass(size, state, k - 1);
      ProbOfUnit(1.0);
    }
  }

  lemma NextStateNonZero(w: Word)
    requires w != 0
    ensures NextState(w) != 0
  {
    hide Xorshift;
    XorshiftOfZero();
    if Xorshift(w) == 0 {
      XorshiftInjective(w, 0);
    }
  }

  datatype Command =
    | Reset
    | H(qubit: nat)
    | X(qubit: nat)
    | Cx(control: nat, target: nat)
    | Ghz
    | Measure
    | Shots(count: nat)

  /** What the kernel's own range checks let through. */
  predicate Accepted(k: State, c: Command) {
    match c
    case H(q) => q < k.qubits
    case X(q) => q < k.qubits
    case Cx(a, b) => a < k.qubits && b < k.qubits && a != b
    case Shots(n) => n > 0
    case _ => true
  }

  /** One call on a ready kernel; a rejected call leaves the kernel alone. */
  function Perform(k: State, s: real, c: Command): State
    requires Ready(k)
  {
    if !Accepted(k, c) then k
    else
      match c
      case Reset => AfterReset(k)
      case H(q) => AfterH(k, s, q)
      case X(q) => AfterX(k, q)
      case Cx(a, b) => AfterCx(k, a, b)
      case Ghz => GhzChain(k, s, k.qubits - 1)
      case Measure => AfterMeasure(k)
      case Shots(n) => AfterShots(k, n)
  }

  lemma InitialCoherent(qubits: nat, seed: Word)
    requires qubits > 0
    ensures Coherent(Initial(qubits, seed))
  {
    BasisMass(Pow2(qubits), 0, Pow2(qubits));
  }

  lemma ResetCoherent(k: State)
    requires Ready(k) && k.rng != 0
    ensures Coherent(AfterReset(k))
  {
    BasisMass(|k.vector|, 0, |k.vector|);
  }

  lemma HCoherent(k: State, s: real, q: nat)
    requires Coherent(k) && InverseRootTwo(s) && q < k.qubits
    ensures Coherent(AfterH(k, s, q))
  {
    hide Unitary, Norm, Hadamard;
    GatesAreUnitary(s);
    SingleKeepsNorm(Hadamard(s), Position(k, q), k.qubits, k.vector);
  }

  lemma XCoherent(k: State, s: real, q: nat)
    requires Coherent(k) && InverseRootTwo(s) && q < k.qubits
    ensures Coherent(AfterX(k, q))
  {
    hide Unitary, Norm;
    GatesAreUnitary(s);
    SingleKeepsNorm(PAULI_X, Position(k, q), k.qubits, k.vector);
  }

  lemma CxCoherent(k: State, a: nat, b: nat)
    requires Coherent(k) && a < k.qubits && b < k.qubits && a != b
    ensures Coherent(AfterCx(k, a, b))
  {
    ControlledKeepsNorm(Position(k, a), Position(k, b), k.qubits, k.vector);
  }

  lemma {:induction false} GhzChainCoherent(k: State, s: real, steps: nat)
    requires Ready(k) && k.rng != 0 && InverseRootTwo(s) && steps < k.qubits
    ensures Coherent(GhzChain(k, s, steps))
  {
    if steps == 0 {
      ResetCoherent(k);
      HCoherent(AfterReset(k), s, 0);
    } else {
      GhzChainCoherent(k, s, steps - 1);
      CxCoherent(GhzChain(k, s, steps - 1), steps - 1, steps);
    }
  }

  lemma MeasureCoherent(k: State)
    requires Ready(k) && k.rng != 0
    ensures Coherent(AfterMeasure(k))
  {
    NextStateNonZero(k.rng);
    BasisMass(|k.vector|, Sampled(k), |k.vector|);
  }

  lemma {:induction false} ShotsCoherent(k: State, shots: nat)
    requires Coherent(k)
    ensures Coherent(AfterShots(k, shots))
  {
    if shots > 0 {
      ShotsCoherent(k, shots - 1);
      NextStateNonZero(AfterShots(k, shots - 1).rng);
    }
  }

  lemma PerformKeepsCoherent(k: State, s: real, c: Command)
    requires Coherent(k) && InverseRootTwo(s)
    ensures Coherent(Perform(k, s, c))
    ensures Perform(k, s, c).qubits == k.qubits
  {
    hide Coherent;
    assert Ready(k) && k.rng != 0 by { CoherentParts(k); }
    if Accepted(k, c) {
      match c
      case Reset => ResetCoherent(k);
      case H(q) => HCoherent(k, s, q);
      case X(q) => XCoherent(k, s, q);
      case Cx(a, b) => CxCoherent(k, a, b);
      case Ghz => GhzChainCoherent(k, s, k.qubits - 1);
      case Measure => MeasureCoherent(k);
      case Shots(n) => ShotsCoherent(k, n);
    }
  }

  lemma CoherentParts(k: State)
    requires Coherent(k)
    ensures Ready(k) && k.rng != 0
  {
  }

  function Run(k: State, s: real, cs: seq<Command>): State
    requires Ready(k)
    decreases |cs|
  {
    if cs == [] then k
    else
      var next := Perform(k, s, cs[0]);
      if Ready(next) then Run(next, s, cs[1..]) else next
  }

  /** Every run of kernel calls from `init` keeps the kernel coherent. */
  lemma {:induction false} RunsStayCoherent(k: State, s: real, cs: seq<Command>)
    requires Coherent(k) && InverseRootTwo(s)
    ensures Coherent(Run(k, s, cs))
    ensures Run(k, s, cs).qubits == k.qubits
    decreases |cs|
  {
    hide Coherent, Perform;
    CoherentParts(k);
    if cs != [] {
      PerformKeepsCoherent(k, s, cs[0]);
      CoherentParts(Perform(k, s, cs[0]));
      RunsStayCoherent(Perform(k, s, cs[0]), s, cs[1..]);
    }
  }

  // ----- every run draws as often as it samples -----

  function Advanced(state: Word, draws: nat): Word
    decreases draws
  {
    if draws == 0 then state else Advanced(NextState(state), draws - 1)
  }

  /** A measurement is one draw, a shot is one draw, and nothing else draws. */
  function Draws(cs: seq<Command>): nat {
    if cs == [] then 0
    else
      (match cs[0]
       case Measure => 1
       case Shots(n) => n
       case _ => 0) + Draws(cs[1..])
  }

  lemma {:induction false} AdvancedTwice(state: Word, a: nat, b: nat)
    ensures Advanced(Advanced(state, a), b) == Advanced(state, a + b)
    decreases a
  {
    hide NextState;
    if a > 0 {
      AdvancedTwice(NextState(state), a - 1, b);
    }
  }

  lemma {:induction false} ShotsAdvance(k: State, shots: nat)
    ensures AfterShots(k, shots).rng == Advanced(k.rng, shots)
  {
    hide NextState;
    if shots > 0 {
      ShotsAdvance(k, shots - 1);
      AdvancedTwice(k.rng, shots - 1, 1);
      assert Advanced(Advanced(k.rng, shots - 1), 1) == NextState(Advanced(k.rng, shots - 1));
    }
  }

  lemma CommandDraws(k: State, s: real, c: Command)
    requires Ready(k)
    ensures Perform(k, s, c).rng == Advanced(k.rng, Draws([c]))
  {
    hide NextState, Advanced, Single, Controlled, Basis, Scan;
    assert [c][1..] == [];
    AdvancedOnce(k.rng);
    if c.Shots? {
      ShotsAdvance(k, c.count);
    }
  }

  lemma AdvancedOnce(state: Word)
    ensures Advanced(state, 0) == state && Advanced(state, 1) == NextState(state)
  {
    hide NextState;
    assert Advanced(NextState(state), 0) == NextState(state);
  }

  /** On every run the generator has moved by exactly the draws of its commands. */
  lemma {:induction false} RunDraws(k: State, s: real, cs: seq<Command>)
    requires Coherent(k) && InverseRootTwo(s)
    ensures Run(k, s, cs).rng == Advanced(k.rng, Draws(cs))
    decreases |cs|
  {
    hide Coherent, Perform, NextState, Advanced, InverseRootTwo;
    CoherentParts(k);
    AdvancedOnce(k.rng);
    if cs != [] {
      var next := Perform(k, s, cs[0]);
      CommandDraws(k, s, cs[0]);
      PerformKeepsCoherent(k, s, cs[0]);
      CoherentParts(next);
      RunDraws(next, s, cs[1..]);
      AdvancedTwice(k.rng, Draws([cs[0]]), Draws(cs[1..]));
      assert Draws([cs[0]]) + Draws(cs[1..]) == Draws(cs) by { assert [cs[0]][1..] == []; }
    }
  }

  // ----- sampling inverts the cumulative distribution -----

  lemma {:induction false} MassMonotone(v: Vector, i: nat, j: nat)
    requires i <= j
    ensures Mass(v, i) <= Mass(v, j)
  {
    hide Prob;
    if i < j {
      MassMonotone(v, i, j - 1);
      ProbSign(At(v, j - 1));
    }
  }

  lemma {:induction false} ScanFindsLeast(v: Vector, threshold: real, i: nat)
    requires i < |v| && Mass(v, i) <= threshold < Norm(v)
    ensures var r := Scan(v, threshold, i);
            Mass(v, r) <= threshold < Mass(v, r + 1)
    decreases |v| - i
  {
    hide Prob, Mass;
    if !(threshold < Mass(v, i + 1) || i + 1 == |v|) {
      ScanFindsLeast(v, threshold, i + 1);
    }
  }

  /** On a unit-norm state the sampler returns the one index whose interval of
      cumulative probability holds the threshold, so its amplitude is not zero. */
  lemma SampleInvertsCdf(v: Vector, threshold: real, state: nat)
    requires |v| > 0 && Norm(v) == 1.0 && 0.0 <= threshold < 1.0 && state < |v|
    ensures Scan(v, threshold, 0) == state <==> Mass(v, state) <= threshold < Mass(v, state + 1)
    ensures Scan(v, threshold, 0) == state ==> v[state] != ZERO
  {
    hide Prob, Scan;
    var r := Scan(v, threshold, 0);
    ScanFindsLeast(v, threshold, 0);
    ProbOfUnit(1.0);
    if r < state {
      MassMonotone(v, r + 1, state);
    } else if state < r {
      MassMonotone(v, state + 1, r);
    }
  }

  // ----- shots are conserved -----

  function Total(counts: seq<nat>): nat {
    if counts == [] then 0 else Total(counts[..|counts| - 1]) + counts[|counts| - 1]
  }

  /** The histogram that the shot loop builds. */
  function Histogram(size: nat, states: seq<nat>): (r: seq<nat>)
    ensures |r| == size
    ensures forall i | 0 <= i < size :: r[i] == multiset(states)[i]
  {
    seq(size, i => multiset(states)[i])
  }

  lemma {:induction false} TotalUpdated(a: seq<nat>, b: seq<nat>, i: nat)
    requires i < |a| && b == a[i := a[i] + 1]
    ensures Total(b) == Total(a) + 1
  {
    var n := |a| - 1;
    if i < n {
      assert b[..n] == a[..n][i := a[i] + 1];
      TotalUpdated(a[..n], b[..n], i);
    } else {
      assert b[..n] == a[..n];
    }
  }

  lemma {:induction false} TotalOfZeros(size: nat)
    ensures Total(seq(size, i => 0)) == 0
  {
    if size > 0 {
      assert seq(size, i => 0)[..size - 1] == seq(size - 1, i => 0);
      TotalOfZeros(size - 1);
    }
  }

  lemma HistogramGrows(size: nat, states: seq<nat>, state: nat)
    requires state < size
    ensures Histogram(size, states + [state])
         == Histogram(size, states)[state := Histogram(size, states)[state] + 1]
  {
  }

  /** The counts of a histogram add up to the number of outcomes. */
  lemma {:induction false} HistogramConserves(size: nat, states: seq<nat>)
    requires forall i | 0 <= i < |states| :: states[i] < size
    ensures Total(Histogram(size, states)) == |states|
  {
    if states == [] {
      TotalOfZeros(size);
      assert Histogram(size, states) == seq(size, i => 0);
    } else {
      var n := |states| - 1;
      HistogramConserves(size, states[..n]);
      assert states == states[..n] + [states[n]];
      HistogramGrows(size, states[..n], states[n]);
      TotalUpdated(Histogram(size, states[..n]), Histogram(size, states), states[n]);
    }
  }

  /** A state without weight is never counted. */
  lemma {:induction false} OutcomesHaveWeight(k: State, shots: nat, i: nat)
    requires Coherent(k) && i < shots
    ensures k.vector[Outcomes(k, shots)[i]] != ZERO
  {
    if i < shots - 1 {
      OutcomesHaveWeight(k, shots - 1, i);
    } else {
      var last := AfterShots(k, shots - 1);
      SampleInvertsCdf(k.vector, Unit(Output(Drawn(last).rng)), Sampled(last));
    }
  }
}
