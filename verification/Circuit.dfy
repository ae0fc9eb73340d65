/** The circuit VM: an op list, its simulation in place, and its meaning as the
    OpenQASM 3.0 program that is emitted for the same list. */
module Circuit {
  import opened Bits
  import opened Complexes
  import opened Gates
  import opened GateLoops
  import opened Kernel
  import opened KernelSpec
  import opened Ghz

  const MAX_CIRCUIT_QUBITS: nat := 16
  const MAX_OPS: nat := 4096

  datatype Gate = GateH | GateX | GateY | GateZ | GateS | GateT

  datatype Op =
    | One(gate: Gate, qubit: nat)
    | TwoCx(a: nat, b: nat)
    | TwoSwap(a: nat, b: nat)

  function MatrixOf(g: Gate, s: real): Matrix {
    match g
    case GateH => Hadamard(s)
    case GateX => PAULI_X
    case GateY => PAULI_Y
    case GateZ => PAULI_Z
    case GateS => PHASE_S
    case GateT => PhaseT(s)
  }

  predicate InRange(op: Op, n: nat) {
    match op
    case One(_, q) => q < n
    case TwoCx(a, b) => a < n && b < n
    case TwoSwap(a, b) => a < n && b < n
  }

  /** The simulator stops the program at a `cx` on one qubit. */
  predicate Runnable(op: Op) {
    op.TwoCx? ==> op.a != op.b
  }

  /** The standard-library meaning of the statement emitted for an op: `swap`
      exchanges the two qubits of every basis state. */
  function Meaning(op: Op, n: nat, s: real, v: Vector): (w: Vector)
    requires InRange(op, n)
    ensures |w| == |v|
  {
    match op
    case One(g, q) => Single(MatrixOf(g, s), n - 1 - q, v)
    case TwoCx(a, b) => Controlled(n - 1 - a, n - 1 - b, v)
    case TwoSwap(a, b) => Swapped(n - 1 - a, n - 1 - b, v)
  }

  function Program(ops: seq<Op>, n: nat, s: real): (w: Vector)
    requires forall op | op in ops :: InRange(op, n)
    ensures |w| == Pow2(n)
  {
    if ops == [] then Basis(Pow2(n), 0)
    else Meaning(ops[|ops| - 1], n, s, Program(ops[..|ops| - 1], n, s))
  }

  // ----- what each op does, qubit by qubit -----

  /** The amplitude of basis state `i` after a gate on qubit `q`; `j` differs from `i`
      in that qubit alone. */
  function GateAmplitude(g: Gate, s: real, one: bool, x: Complex, partner: Complex): Complex {
    match g
    case GateH => Scale(if one then Sub(partner, x) else Add(x, partner), s)
    case GateX => partner
    case GateY => if one then TimesI(partner) else Neg(TimesI(partner))
    case GateZ => if one then Neg(x) else x
    case GateS => if one then TimesI(x) else x
    case GateT => if one then Mul(Complex(s, s), x) else x
  }

  lemma GateActs(g: Gate, q: nat, n: nat, s: real, v: Vector, i: nat, j: nat)
    requires q < n && |v| == Pow2(n) && Partner(i, j, q, n)
    ensures i < |v| && j < |v|
    ensures Meaning(One(g, q), n, s, v)[i] == GateAmplitude(g, s, Ket(i, n)[q], v[i], v[j])
  {
    hide Single, MixedAt, Hadamard, Scale, Add, Sub, Mul, Partner, Neg, TimesI;
    PartnerInRange(i, j, q, n);
    match g
    case GateH => HEntry(s, q, n, v, i, j);
    case GateX => XEntry(q, n, v, i, j);
    case GateY => YEntry(q, n, v, i, j);
    case GateZ => ZEntry(q, n, v, i);
    case GateS => SEntry(q, n, v, i);
    case GateT => DiagonalEntry(Complex(s, s), q, n, v, i);
  }

  /** Two T gates are one S gate. */
  lemma TwoTMakeS(q: nat, n: nat, s: real, v: Vector)
    requires q < n && |v| == Pow2(n) && InverseRootTwo(s)
    ensures Meaning(One(GateT, q), n, s, Meaning(One(GateT, q), n, s, v)) == Meaning(One(GateS, q), n, s, v)
  {
    hide Single, MixedAt, PhaseT;
    TIsRootOfS(s, n - 1 - q, n, v);
  }

  /** CX takes the amplitude of the partner in its target where its control is one. */
  lemma CxActs(a: nat, b: nat, n: nat, s: real, v: Vector, i: nat, j: nat)
    requires a < n && b < n && |v| == Pow2(n) && Partner(i, j, b, n)
    ensures i < |v| && j < |v|
    ensures Meaning(TwoCx(a, b), n, s, v)[i] == if Ket(i, n)[a] then v[j] else v[i]
  {
    hide Partner;
    PartnerInRange(i, j, b, n);
    PartnerIsFlip(i, j, b, n);
  }

  /** Swap takes the amplitude of the basis state with the two qubits exchanged. */
  lemma SwapActs(a: nat, b: nat, n: nat, s: real, v: Vector, i: nat, j: nat)
    requires a < n && b < n && a != b && |v| == Pow2(n) && i < |v| && j < |v|
    requires Ket(j, n) == Ket(i, n)[a := Ket(i, n)[b]][b := Ket(i, n)[a]]
    ensures Meaning(TwoSwap(a, b), n, s, v)[i] == v[j]
  {
    var pa, pb := n - 1 - a, n - 1 - b;
    forall p: nat | p < n
      ensures Bit(j, p) == Bit(i, if p == pa then pb else if p == pb then pa else p)
    {
      assert Ket(j, n)[n - 1 - p] == Bit(j, p);
    }
    SwapIndexUnique(pa, pb, n, i, j);
  }

  // ----- simulation -----

  lemma SingleCells(m: Matrix, p: nat, n: nat, v: Vector, i: nat)
    requires |v| == Pow2(n) && p < n && i < |v| && !Bit(i, p)
    ensures var w, j := Single(m, p, v), Flip(i, p);
            && j < |v|
            && w[i] == Add(Mul(m.m00, v[i]), Mul(m.m01, v[j]))
            && w[j] == Add(Mul(m.m10, v[i]), Mul(m.m11, v[j]))
  {
    hide Mul, Add;
    FlipInRange(i, p, n);
    FlipInvolutive(i, p);
  }

  method SingleLoop(amp: array<Complex>, n: nat, qubit: nat, m: Matrix)
    requires amp.Length == Pow2(n) && qubit < n
    modifies amp
    ensures amp[..] == Single(m, n - 1 - qubit, old(amp[..]))
  {
    hide Mul, Add;
    var p := n - 1 - qubit;
    ghost var v, w := amp[..], Single(m, p, amp[..]);
    PartialStart(v, w, p);
    var i := 0;
    while i < amp.Length
      invariant 0 <= i <= amp.Length
      invariant amp[..] == Partial(v, w, p, i)
    {
      PartialStep(v, w, p, n, i);
      if !Bit(i, p) {
        SingleCells(m, p, n, v, i);
        var j := Flip(i, p);
        var x, y := amp[i], amp[j];
        amp[i] := Add(Mul(m.m00, x), Mul(m.m01, y));
        amp[j] := Add(Mul(m.m10, x), Mul(m.m11, y));
      }
      i := i + 1;
    }
    PartialEnd(v, w, p, n);
  }

  method SwapLoops(amp: array<Complex>, n: nat, a: nat, b: nat)
    requires amp.Length == Pow2(n) && a < n && b < n
    modifies amp
    ensures amp[..] == Swapped(n - 1 - a, n - 1 - b, old(amp[..]))
  {
    hide Controlled, Swapped, Pow2;
    ghost var v := amp[..];
    var pa, pb := n - 1 - a, n - 1 - b;
    if a == b {
      SwapSelf(pa, v);
    } else {
      ThreeCxIsSwap(pa, pb, n, v);
      ControlledLoop(amp, n, pa, pb);
      ControlledLoop(amp, n, pb, pa);
      ControlledLoop(amp, n, pa, pb);
    }
  }

  lemma SwapSelf(a: nat, v: Vector)
    ensures Swapped(a, a, v) == v
  {
  }

  lemma MeaningByCase(op: Op, n: nat, s: real, v: Vector)
    requires InRange(op, n)
    ensures op.One? ==> Meaning(op, n, s, v) == Single(MatrixOf(op.gate, s), n - 1 - op.qubit, v)
    ensures op.TwoCx? ==> Meaning(op, n, s, v) == Controlled(n - 1 - op.a, n - 1 - op.b, v)
    ensures op.TwoSwap? ==> Meaning(op, n, s, v) == Swapped(n - 1 - op.a, n - 1 - op.b, v)
  {
  }

  /** One step of the simulation; `false` is the `fail` exit. */
  method Apply(amp: array<Complex>, n: nat, s: real, op: Op) returns (ok: bool)
    requires amp.Length == Pow2(n) && InRange(op, n)
    modifies amp
    ensures ok <==> Runnable(op)
    ensures ok ==> amp[..] == Meaning(op, n, s, old(amp[..]))
  {
    hide Single, MixedAt, Controlled, Swapped, Pow2, MatrixOf, Meaning;
    ok := true;
    MeaningByCase(op, n, s, amp[..]);
    match op
    case One(g, q) => SingleLoop(amp, n, q, MatrixOf(g, s));
    case TwoCx(a, b) =>
      if a == b {
        return false;
      }
      ControlledLoop(amp, n, n - 1 - a, n - 1 - b);
    case TwoSwap(a, b) => SwapLoops(amp, n, a, b);
  }

  /** Simulating an op list gives the state its OpenQASM program denotes. */
  method Simulate(ops: seq<Op>, n: nat, s: real) returns (ok: bool, amp: array<Complex>)
    requires forall op | op in ops :: InRange(op, n)
    ensures ok <==> forall op | op in ops :: Runnable(op)
    ensures ok ==> amp[..] == Program(ops, n, s)
  {
    hide Meaning, Basis, Pow2;
    amp := new Complex[Pow2(n)](_ => ZERO);
    SetBasis(amp, 0);
    ok := true;
    assert ops[..0] == [];
    for i := 0 to |ops|
      invariant ok && amp.Length == Pow2(n) && fresh(amp)
      invariant forall op | op in ops[..i] :: Runnable(op)
      invariant amp[..] == Program(ops[..i], n, s)
    {
      assert ops[..i + 1] == ops[..i] + [ops[i]];
      assert ops[..i + 1][..i] == ops[..i];
      ok := Apply(amp, n, s, ops[i]);
      if !ok {
        return;
      }
    }
    assert ops[..|ops|] == ops;
  }

  // ----- what every circuit keeps -----

  lemma SwapKeepsNorm(a: nat, b: nat, n: nat, v: Vector)
    requires a < n && b < n && |v| == Pow2(n)
    ensures Norm(Swapped(a, b, v)) == Norm(v)
  {
    hide Norm, Controlled, Swapped;
    if a == b {
      SwapSelf(a, v);
    } else {
      var u := Controlled(a, b, v);
      var w := Controlled(b, a, u);
      assert |u| == |w| == |v|;
      ThreeCxIsSwap(a, b, n, v);
      ControlledKeepsNorm(a, b, n, v);
      ControlledKeepsNorm(b, a, n, u);
      ControlledKeepsNorm(a, b, n, w);
    }
  }

  lemma MeaningKeepsNorm(op: Op, n: nat, s: real, v: Vector)
    requires InverseRootTwo(s) && InRange(op, n) && Runnable(op) && |v| == Pow2(n)
    ensures Norm(Meaning(op, n, s, v)) == Norm(v)
  {
    hide Norm, Unitary, Single, MixedAt, Controlled, Swapped, Hadamard, PhaseT, Pow2;
    match op
    case One(g, q) =>
      GatesAreUnitary(s);
      SingleKeepsNorm(MatrixOf(g, s), n - 1 - q, n, v);
    case TwoCx(a, b) => ControlledKeepsNorm(n - 1 - a, n - 1 - b, n, v);
    case TwoSwap(a, b) => SwapKeepsNorm(n - 1 - a, n - 1 - b, n, v);
  }

  /** Every runnable circuit ends in a unit vector. */
  lemma {:induction false} ProgramsKeepNorm(ops: seq<Op>, n: nat, s: real)
    requires InverseRootTwo(s)
    requires forall op | op in ops :: InRange(op, n) && Runnable(op)
    ensures Norm(Program(ops, n, s)) == 1.0
  {
    hide Norm, Meaning, Basis;
    if ops == [] {
      BasisMass(Pow2(n), 0, Pow2(n));
      NormIsMass(Basis(Pow2(n), 0));
    } else {
      ProgramsKeepNorm(ops[..|ops| - 1], n, s);
      MeaningKeepsNorm(ops[|ops| - 1], n, s, Program(ops[..|ops| - 1], n, s));
    }
  }

  lemma NormIsMass(v: Vector)
    ensures Norm(v) == Mass(v, |v|)
  {
  }

  // ----- the ghz macro -----

  /** The ops that `ghz` appends, up to the `k`-th CX. */
  function GhzOps(k: nat): (ops: seq<Op>)
    ensures |ops| == k + 1
  {
    if k == 0 then [One(GateH, 0)] else GhzOps(k - 1) + [TwoCx(k - 1, k)]
  }

  lemma {:induction false} GhzOpsInRange(k: nat, n: nat)
    requires k < n
    ensures forall op | op in GhzOps(k) :: InRange(op, n) && Runnable(op)
  {
    if k > 0 {
      GhzOpsInRange(k - 1, n);
    }
  }

  lemma ProgramStep(ops: seq<Op>, op: Op, n: nat, s: real)
    requires InRange(op, n) && forall o | o in ops :: InRange(o, n)
    ensures forall o | o in ops + [op] :: InRange(o, n)
    ensures Program(ops + [op], n, s) == Meaning(op, n, s, Program(ops, n, s))
  {
    hide Meaning;
    assert (ops + [op])[..|ops|] == ops;
  }

  lemma {:induction false} GhzOpsSupport(k: nat, n: nat, s: real)
    requires k < n
    ensures (GhzOpsInRange(k, n); Program(GhzOps(k), n, s) == TwoPoint(Pow2(n), s, TopBits(n, k + 1)))
  {
    hide Program, Single, MixedAt, Controlled, Hadamard, Basis, TwoPoint, TopBits, Pow2;
    GhzOpsInRange(k, n);
    if k == 0 {
      NoOps(n, s);
      ProgramStep([], One(GateH, 0), n, s);
      assert [] + [One(GateH, 0)] == GhzOps(0);
      HadamardOnBasis(n, s);
    } else {
      GhzOpsInRange(k - 1, n);
      ProgramStep(GhzOps(k - 1), TwoCx(k - 1, k), n, s);
      GhzOpsSupport(k - 1, n, s);
      CxExtends(n, s, k);
    }
  }

  lemma NoOps(n: nat, s: real)
    ensures Program([], n, s) == Basis(Pow2(n), 0)
  {
  }

  /** The macro prepares the same vector as the kernel's own GHZ routine. */
  lemma GhzMacroMatchesKernel(k: State, s: real)
    requires Ready(k)
    ensures (GhzOpsInRange(k.qubits - 1, k.qubits);
             Program(GhzOps(k.qubits - 1), k.qubits, s) == GhzVector(k.qubits, s))
    ensures GhzVector(k.qubits, s) == GhzChain(k, s, k.qubits - 1).vector
  {
    hide Program, GhzChain;
    GhzOpsSupport(k.qubits - 1, k.qubits, s);
    GhzCorrect(k, s);
  }

  // ----- loading a circuit -----

  /** A line of a circuit file after scanning; `Bad` is any line that is refused
      for its keyword or its number of operands. */
  datatype Line =
    | Qubits(n: int)
    | GhzMacro
    | GateLine(gate: Gate, q: int)
    | CxLine(a: int, b: int)
    | SwapLine(a: int, b: int)
    | MeasureLine
    | Bad

  /** Exactly the lines that do not end in `fail`, given the qubits declared and
      the ops held so far. */
  predicate Accepts(line: Line, qubits: nat, held: nat) {
    match line
    case Qubits(n) => 1 <= n <= MAX_CIRCUIT_QUBITS
    case GhzMacro => qubits >= 2 && held + qubits <= MAX_OPS
    case GateLine(_, q) => 0 <= q < qubits && held < MAX_OPS
    case CxLine(a, b) => 0 <= a < qubits && 0 <= b < qubits && held < MAX_OPS
    case SwapLine(a, b) => 0 <= a < qubits && 0 <= b < qubits && held < MAX_OPS
    case MeasureLine => true
    case Bad => false
  }

  /** What has been read of a file. */
  datatype Source = Source(qubits: nat, hasMeasure: bool, ops: seq<Op>)

  const EMPTY := Source(0, false, [])

  predicate Sized(c: Source) {
    c.qubits <= MAX_CIRCUIT_QUBITS && |c.ops| <= MAX_OPS
  }

  /** A later `qubits` line replaces the count and leaves the ops as they are. */
  function AfterLine(c: Source, line: Line): (r: Source)
    requires Sized(c) && Accepts(line, c.qubits, |c.ops|)
    ensures Sized(r)
  {
    match line
    case Qubits(n) => c.(qubits := n)
    case GhzMacro => c.(ops := c.ops + GhzOps(c.qubits - 1))
    case GateLine(g, q) => c.(ops := c.ops + [One(g, q)])
    case CxLine(a, b) => c.(ops := c.ops + [TwoCx(a, b)])
    case SwapLine(a, b) => c.(ops := c.ops + [TwoSwap(a, b)])
    case MeasureLine => c.(hasMeasure := true)
  }

  /** An op line is accepted exactly if its op is in range of the declared count and
      there is room; the macro exactly if all its ops are and it has two qubits. */
  lemma AcceptedExactly(qubits: nat, held: nat, g: Gate, a: nat, b: nat)
    ensures Accepts(GateLine(g, a), qubits, held) <==> InRange(One(g, a), qubits) && held + 1 <= MAX_OPS
    ensures Accepts(CxLine(a, b), qubits, held) <==> InRange(TwoCx(a, b), qubits) && held + 1 <= MAX_OPS
    ensures Accepts(SwapLine(a, b), qubits, held) <==> InRange(TwoSwap(a, b), qubits) && held + 1 <= MAX_OPS
    ensures Accepts(GhzMacro, qubits, held) <==> qubits >= 2 && held + |GhzOps(qubits - 1)| <= MAX_OPS
    ensures Accepts(Qubits(a), qubits, held) <==> 1 <= a <= 16
    ensures !Accepts(GateLine(g, -1 - (a as int)), qubits, held) && !Accepts(Qubits(-(a as int)), qubits, held)
  {
  }

  class Loader {
    var qubits: nat
    var hasMeasure: bool
    var ops: seq<Op>

    constructor ()
      ensures View() == EMPTY
    {
      qubits, hasMeasure, ops := 0, false, [];
    }

    ghost function View(): Source
      reads this
    {
      Source(qubits, hasMeasure, ops)
    }

    method AddOp(op: Op) returns (ok: bool)
      requires Sized(View())
      modifies this`ops
      ensures Sized(View())
      ensures ok == (|old(ops)| < MAX_OPS)
      ensures ops == if ok then old(ops) + [op] else old(ops)
    {
      ok := |ops| < MAX_OPS;
      if ok {
        ops := ops + [op];
      }
    }

    method AddGhz() returns (ok: bool)
      requires Sized(View())
      modifies this`ops
      ensures Sized(View())
      ensures ok == (qubits >= 2 && |old(ops)| + qubits <= MAX_OPS)
      ensures ok ==> ops == old(ops) + GhzOps(qubits - 1)
    {
      if qubits < 2 {
        return false;
      }
      ok := AddOp(One(GateH, 0));
      var q := 0;
      while ok && q < qubits - 1
        invariant Sized(View()) && 0 <= q <= qubits - 1
        invariant ok ==> |old(ops)| + q < MAX_OPS
        invariant ok ==> ops == old(ops) + GhzOps(q)
        invariant !ok ==> |old(ops)| + qubits > MAX_OPS
      {
        ok := AddOp(TwoCx(q, q + 1));
        if ok {
          q := q + 1;
        }
      }
    }

    /** One line; `false` is the `fail` exit. */
    method AddLine(line: Line) returns (ok: bool)
      requires Sized(View())
      modifies this
      ensures Sized(View())
      ensures ok == Accepts(line, old(qubits), |old(ops)|)
      ensures ok ==> View() == AfterLine(old(View()), line)
      ensures !line.MeasureLine? ==> hasMeasure == old(hasMeasure)
    {
      match line
      case Qubits(n) =>
        ok := 1 <= n <= MAX_CIRCUIT_QUBITS;
        if ok {
          qubits := n;
        }
      case GhzMacro => ok := AddGhz();
      case GateLine(g, q) =>
        if 0 <= q < qubits {
          ok := AddOp(One(g, q));
        } else {
          ok := false;
        }
      case CxLine(a, b) =>
        if 0 <= a < qubits && 0 <= b < qubits {
          ok := AddOp(TwoCx(a, b));
        } else {
          ok := false;
        }
      case SwapLine(a, b) =>
        if 0 <= a < qubits && 0 <= b < qubits {
          ok := AddOp(TwoSwap(a, b));
        } else {
          ok := false;
        }
      case MeasureLine =>
        hasMeasure := true;
        ok := true;
      case Bad => ok := false;
    }
  }

  /** Reads a whole file; a circuit without a qubit count is refused at the end. */
  method LoadCircuit(lines: seq<Line>) returns (ok: bool, source: Source)
    ensures ok <==> Load(EMPTY, lines).Loaded? && Load(EMPTY, lines).source.qubits >= 1
    ensures ok ==> source == Load(EMPTY, lines).source
  {
    hide Accepts, AfterLine;
    source := EMPTY;
    var loader := new Loader();
    var i := 0;
    while i < |lines|
      invariant 0 <= i <= |lines| && fresh(loader) && Sized(loader.View())
      invariant Load(loader.View(), lines[i..]) == Load(EMPTY, lines)
    {
      var accepted := loader.AddLine(lines[i]);
      if !accepted {
        return false, EMPTY;
      }
      assert lines[i..][1..] == lines[i + 1..];
      i := i + 1;
    }
    ok := loader.qubits >= 1;
    source := Source(loader.qubits, loader.hasMeasure, loader.ops);
  }

  // ----- which files keep their ops in range -----

  datatype Loading = Failed | Loaded(source: Source)

  function Load(c: Source, lines: seq<Line>): (r: Loading)
    requires Sized(c)
    ensures r.Loaded? ==> Sized(r.source)
    decreases |lines|
  {
    if lines == [] then Loaded(c)
    else if !Accepts(lines[0], c.qubits, |c.ops|) then Failed
    else Load(AfterLine(c, lines[0]), lines[1..])
  }

  /** The line that writes an op down. */
  function LineOf(op: Op): Line {
    match op
    case One(g, q) => GateLine(g, q)
    case TwoCx(a, b) => CxLine(a, b)
    case TwoSwap(a, b) => SwapLine(a, b)
  }

  function LinesOf(ops: seq<Op>): (lines: seq<Line>)
    ensures |lines| == |ops|
  {
    if ops == [] then [] else [LineOf(ops[0])] + LinesOf(ops[1..])
  }

  lemma LineAddsOp(c: Source, op: Op)
    requires Sized(c) && |c.ops| < MAX_OPS && InRange(op, c.qubits)
    ensures Accepts(LineOf(op), c.qubits, |c.ops|)
    ensures AfterLine(c, LineOf(op)) == c.(ops := c.ops + [op])
  {
    hide GhzOps;
  }

  lemma {:induction false} LinesLoad(c: Source, ops: seq<Op>)
    requires Sized(c) && |c.ops| + |ops| <= MAX_OPS && AllInRange(ops, c.qubits)
    ensures Load(c, LinesOf(ops)) == Loaded(c.(ops := c.ops + ops))
    decreases |ops|
  {
    hide Accepts, AfterLine, LineOf, InRange, AllInRange, Load;
    if ops == [] {
      assert c.ops + ops == c.ops;
      NothingLoads(c);
    } else {
      var op, rest := ops[0], ops[1..];
      assert ops == [op] + rest;
      RangeOfBoth([op], rest, c.qubits);
      OneInRange(op, c.qubits);
      LineAddsOp(c, op);
      LoadNext(c, LineOf(op), LinesOf(rest));
      var next := c.(ops := c.ops + [op]);
      LinesLoad(next, rest);
      assert next.ops + rest == c.ops + ops;
    }
  }

  lemma OneInRange(op: Op, n: nat)
    requires AllInRange([op], n)
    ensures InRange(op, n)
  {
    assert op in [op];
  }

  lemma NothingLoads(c: Source)
    requires Sized(c)
    ensures Load(c, []) == Loaded(c)
  {
  }

  lemma LoadNext(c: Source, line: Line, rest: seq<Line>)
    requires Sized(c) && Accepts(line, c.qubits, |c.ops|)
    ensures Load(c, [line] + rest) == Load(AfterLine(c, line), rest)
  {
    hide Accepts, AfterLine;
    assert ([line] + rest)[1..] == rest;
  }

  /** Writing an op list down and loading it gives it back. */
  lemma WrittenCircuitLoads(ops: seq<Op>, n: nat)
    requires 1 <= n <= MAX_CIRCUIT_QUBITS && |ops| <= MAX_OPS && AllInRange(ops, n)
    ensures Load(EMPTY, [Qubits(n)] + LinesOf(ops) + [MeasureLine]) == Loaded(Source(n, true, ops))
  {
    hide LinesOf, AllInRange, InRange, Load;
    var c := EMPTY.(qubits := n);
    var rest := LinesOf(ops) + [MeasureLine];
    assert [Qubits(n)] + LinesOf(ops) + [MeasureLine] == [Qubits(n)] + rest;
    LoadNext(EMPTY, Qubits(n), rest);
    LinesLoad(c, ops);
    assert [] + ops == ops;
    LoadAppend(c, LinesOf(ops), [MeasureLine]);
    var loaded := c.(ops := ops);
    assert [MeasureLine] + [] == [MeasureLine];
    LoadNext(loaded, MeasureLine, []);
    NothingLoads(loaded.(hasMeasure := true));
  }

  lemma {:induction false} LoadAppend(c: Source, a: seq<Line>, b: seq<Line>)
    requires Sized(c) && Load(c, a).Loaded?
    ensures Load(c, a + b) == Load(Load(c, a).source, b)
    decreases |a|
  {
    hide Accepts, AfterLine;
    if a == [] {
      assert a + b == b;
    } else {
      assert (a + b)[1..] == a[1..] + b;
      LoadAppend(AfterLine(c, a[0]), a[1..], b);
    }
  }

  predicate AllInRange(ops: seq<Op>, n: nat) {
    forall op | op in ops :: InRange(op, n)
  }

  /** The highest qubit number that a line names; the macro names one less than the
      count declared when it is read. */
  function Highest(line: Line, declared: nat): int {
    match line
    case GhzMacro => declared - 1
    case GateLine(_, q) => q
    case CxLine(a, b) => if a > b then a else b
    case SwapLine(a, b) => if a > b then a else b
    case _ => -1
  }

  /** The qubit count after a line. */
  function Declares(line: Line, before: nat): nat {
    if line.Qubits? && line.n > 0 then line.n else before
  }

  /** The qubit count after all lines. */
  function Declared(lines: seq<Line>, before: nat): nat
    decreases |lines|
  {
    if lines == [] then before else Declared(lines[1..], Declares(lines[0], before))
  }

  /** Every op line names only qubits below `n`. */
  predicate NamesBelow(lines: seq<Line>, declared: nat, n: nat)
    decreases |lines|
  {
    lines == [] || (Highest(lines[0], declared) < n && NamesBelow(lines[1..], Declares(lines[0], declared), n))
  }

  lemma MacroInRange(k: nat, n: nat)
    ensures AllInRange(GhzOps(k), n) <==> k < n
  {
    if k < n {
      GhzOpsInRange(k, n);
    } else if k > 0 {
      assert GhzOps(k)[k] == TwoCx(k - 1, k);
      assert TwoCx(k - 1, k) in GhzOps(k);
    } else {
      assert GhzOps(0)[0] == One(GateH, 0);
      assert One(GateH, 0) in GhzOps(0);
    }
  }

  lemma LineInRange(c: Source, line: Line, n: nat)
    requires Sized(c) && Accepts(line, c.qubits, |c.ops|)
    ensures AllInRange(AfterLine(c, line).ops, n) <==> AllInRange(c.ops, n) && Highest(line, c.qubits) < n
    ensures AfterLine(c, line).qubits == Declares(line, c.qubits)
  {
    hide GhzOps;
    var more := AfterLine(c, line).ops[|c.ops|..];
    assert AfterLine(c, line).ops == c.ops + more;
    assert AllInRange(c.ops + more, n) <==> AllInRange(c.ops, n) && AllInRange(more, n) by {
      RangeOfBoth(c.ops, more, n);
    }
    if line == GhzMacro {
      assert more == GhzOps(c.qubits - 1);
      MacroInRange(c.qubits - 1, n);
    } else if |more| == 1 {
      assert more[0] in more;
    }
  }

  lemma RangeOfBoth(a: seq<Op>, b: seq<Op>, n: nat)
    ensures AllInRange(a + b, n) <==> AllInRange(a, n) && AllInRange(b, n)
  {
    if AllInRange(a + b, n) {
      assert forall op | op in a :: op in a + b;
      assert forall op | op in b :: op in a + b;
    }
  }

  lemma {:induction false} LoadInRange(c: Source, lines: seq<Line>, n: nat)
    requires Sized(c) && Load(c, lines).Loaded?
    ensures var r := Load(c, lines).source;
            && r.qubits == Declared(lines, c.qubits)
            && (AllInRange(r.ops, n) <==> AllInRange(c.ops, n) && NamesBelow(lines, c.qubits, n))
    decreases |lines|
  {
    hide AllInRange, Accepts, AfterLine, Highest, Declares;
    if lines != [] {
      LineInRange(c, lines[0], n);
      LoadInRange(AfterLine(c, lines[0]), lines[1..], n);
    }
  }

  /** A file that loads has all its ops in range of its final qubit count if and only
      if no op line names a qubit that the last `qubits` line leaves out. */
  lemma FileInRangeExactly(lines: seq<Line>)
    requires Load(EMPTY, lines).Loaded?
    ensures var r := Load(EMPTY, lines).source;
            AllInRange(r.ops, r.qubits) <==> NamesBelow(lines, 0, Declared(lines, 0))
  {
    LoadInRange(EMPTY, lines, Declared(lines, 0));
  }

  /** Each line names only qubits declared before it, so lines that never lower the
      count are safe; in particular a single `qubits` line is. */
  predicate NeverLowers(lines: seq<Line>, declared: nat)
    decreases |lines|
  {
    lines == []
    || (Declares(lines[0], declared) >= declared && NeverLowers(lines[1..], Declares(lines[0], declared)))
  }

  lemma {:induction false} DeclaredGrows(lines: seq<Line>, declared: nat)
    requires NeverLowers(lines, declared)
    ensures Declared(lines, declared) >= declared
    decreases |lines|
  {
    if lines != [] {
      DeclaredGrows(lines[1..], Declares(lines[0], declared));
    }
  }

  lemma {:induction false} GrowingFileNames(c: Source, lines: seq<Line>)
    requires Sized(c) && Load(c, lines).Loaded? && NeverLowers(lines, c.qubits)
    ensures NamesBelow(lines, c.qubits, Declared(lines, c.qubits))
    decreases |lines|
  {
    hide GhzOps;
    if lines != [] {
      DeclaredGrows(lines, c.qubits);
      GrowingFileNames(AfterLine(c, lines[0]), lines[1..]);
    }
  }

  lemma GrowingFileInRange(lines: seq<Line>)
    requires Load(EMPTY, lines).Loaded? && NeverLowers(lines, 0)
    ensures var r := Load(EMPTY, lines).source; AllInRange(r.ops, r.qubits)
  {
    hide Load, NeverLowers, AllInRange, NamesBelow, Declared;
    GrowingFileNames(EMPTY, lines);
    FileInRangeExactly(lines);
  }

  /** A later `qubits` line is accepted without a look at the ops before it. */
  lemma LoweringFileLoads()
    ensures var lines := [Qubits(2), GateLine(GateX, 1), Qubits(1)];
            && Load(EMPTY, lines) == Loaded(Source(1, false, [One(GateX, 1)]))
            && !AllInRange([One(GateX, 1)], 1)
  {
    var lines := [Qubits(2), GateLine(GateX, 1), Qubits(1)];
    assert lines[1..] == [GateLine(GateX, 1), Qubits(1)];
    assert lines[1..][1..] == [Qubits(1)];
    assert lines[1..][1..][1..] == [];
    assert One(GateX, 1) in [One(GateX, 1)] && !InRange(One(GateX, 1), 1);
  }

  // ----- the final measurement -----

  /** The circuit VM's scan: the first index whose cumulative mass reaches `r`. */
  function Pick(v: Vector, r: real, i: nat): (k: nat)
    requires i < |v|
    ensures i <= k < |v|
    decreases |v| - i
  {
    if r <= Mass(v, i + 1) || i + 1 == |v| then i else Pick(v, r, i + 1)
  }

  method MeasureAll(amp: array<Complex>, r: real) returns (picked: nat)
    requires amp.Length > 0
    ensures picked == Pick(amp[..], r, 0)
  {
    var acc := 0.0;
    picked := amp.Length - 1;
    var i := 0;
    while i < amp.Length
      invariant 0 <= i <= amp.Length && picked == amp.Length - 1
      invariant acc == Mass(amp[..], i)
      invariant i < amp.Length ==> Pick(amp[..], r, 0) == Pick(amp[..], r, i)
      invariant i == amp.Length ==> Pick(amp[..], r, 0) == amp.Length - 1
    {
      acc := acc + Prob(amp[i]);
      if r <= acc {
        return i;
      }
      i := i + 1;
    }
  }

  lemma {:induction false} PickBrackets(v: Vector, r: real, i: nat)
    requires i < |v| && Mass(v, i) < r <= Norm(v)
    ensures Mass(v, Pick(v, r, i)) < r <= Mass(v, Pick(v, r, i) + 1)
    decreases |v| - i
  {
    hide Mass;
    NormIsMass(v);
    if !(r <= Mass(v, i + 1) || i + 1 == |v|) {
      PickBrackets(v, r, i + 1);
    }
  }

  /** The measured basis state has weight, except that a draw of exactly 0 picks
      index 0 even when its amplitude is zero. */
  lemma PickHasWeight(v: Vector, r: real)
    requires |v| > 0 && Norm(v) == 1.0 && 0.0 <= r <= 1.0
    ensures v[Pick(v, r, 0)] != ZERO <==> !(r == 0.0 && v[0] == ZERO)
  {
    hide Prob, Pick;
    ProbOfUnit(1.0);
    if r > 0.0 {
      PickBrackets(v, r, 0);
    } else {
      PickAtZero(v);
    }
  }

  lemma PickAtZero(v: Vector)
    requires |v| > 0
    ensures Pick(v, 0.0, 0) == 0
  {
    hide Prob;
    ProbSign(At(v, 0));
    assert Mass(v, 1) == Mass(v, 0) + Prob(At(v, 0));
  }

  /** The circuit `x` on its last qubit reaches the second basis state. */
  lemma FlippedLastQubit(n: nat, s: real)
    requires n > 0
    ensures Program([One(GateX, n - 1)], n, s) == Basis(Pow2(n), 1)
  {
    hide Program, Single, MixedAt, Basis, Pow2;
    NoOps(n, s);
    ProgramStep([], One(GateX, n - 1), n, s);
    assert [] + [One(GateX, n - 1)] == [One(GateX, n - 1)];
    XOnBasis(n);
  }

  /** X on the last qubit of the first basis state gives the second. */
  lemma XOnBasis(n: nat)
    requires n > 0
    ensures Single(PAULI_X, 0, Basis(Pow2(n), 0)) == Basis(Pow2(n), 1)
  {
    hide Top, Bottom;
    var v := Basis(Pow2(n), 0);
    forall i: nat | i < Pow2(n)
      ensures MixedAt(PAULI_X, 0, v, i) == Basis(Pow2(n), 1)[i]
    {
      FlipPair(At(v, i), At(v, Flip(i, 0)));
      FlipPair(At(v, Flip(i, 0)), At(v, i));
      FlipInRange(i, 0, n);
    }
  }

  /** With every qubit in |0> but the last in |1>, a draw of 0 measures all zeros. */
  lemma ZeroDrawPicksAbsentState(n: nat)
    requires n > 0
    ensures var v := Basis(Pow2(n), 1);
            Norm(v) == 1.0 && v[1] == ONE && v[Pick(v, 0.0, 0)] == ZERO
  {
    hide Norm, Pick;
    var v := Basis(Pow2(n), 1);
    BasisMass(Pow2(n), 1, Pow2(n));
    NormIsMass(v);
    PickAtZero(v);
  }
}
