/** The bytecode VM.

    Tables, output and the random source are one abstract state of type `S`;
    what an instruction does to it is a parameter, so every statement holds for
    every primitive semantics (take `S` to be a log to compare effect traces). */
module ByteVm {
  import opened Bytecode

  const MAX_REPEAT: nat := 64

  datatype Fault = MissingEnd | StackOverflow | UnknownOpcode

  datatype Machine<!S> = Machine(
    effect: (S, Instr) -> S,
    test: (S, Instr) -> (bool, S),
    fault: (S, Fault) -> S)

  datatype Frame = Frame(start: nat, end: nat, left: int)

  datatype Config<S> = Config(pc: nat, stack: seq<Frame>, state: S)

  datatype Next<S> = Running(config: Config<S>) | Stopped(state: S)

  /** The END that closes a block whose body starts at `i`; `|code|` if there is none. */
  function FindEnd(code: seq<Instr>, i: nat, depth: nat): (r: nat)
    requires i <= |code|
    ensures i <= r <= |code|
    ensures r < |code| ==> code[r].op == OpEnd
    decreases |code| - i
  {
    if i == |code| then |code|
    else if Opens(code[i]) then FindEnd(code, i + 1, depth + 1)
    else if code[i].op == OpEnd then
      if depth == 0 then i else FindEnd(code, i + 1, depth - 1)
    else FindEnd(code, i + 1, depth)
  }

  function Step<S>(m: Machine<S>, code: seq<Instr>, c: Config<S>): Next<S>
    requires c.pc < |code|
  {
    var ins := code[c.pc];
    var after := c.(pc := c.pc + 1);
    match ins.op
    case OpCheck =>
      var (pass, state) := m.test(c.state, ins);
      var end := FindEnd(code, c.pc + 1, 0);
      Running(Config(if pass then c.pc + 1 else if end < |code| then end + 1 else |code|, c.stack, state))
    case OpRepeat =>
      var end := FindEnd(code, c.pc + 1, 0);
      if end == |code| then Stopped(m.fault(c.state, MissingEnd))
      else if ins.value <= 0 then Running(c.(pc := end + 1))
      else if |c.stack| >= MAX_REPEAT then Stopped(m.fault(c.state, StackOverflow))
      else Running(Config(c.pc + 1, c.stack + [Frame(c.pc, end, ins.value)], c.state))
    case OpBlock => Running(after)
    case OpEnd =>
      if c.stack != [] && c.pc == Peek(c.stack).end then
        var f := Peek(c.stack);
        if f.left - 1 > 0
        then Running(Config(f.start + 1, Pop(c.stack) + [f.(left := f.left - 1)], c.state))
        else Running(Config(c.pc + 1, Pop(c.stack), c.state))
      else Running(after)
    case OpUnknown => Stopped(m.fault(c.state, UnknownOpcode))
    case _ => Running(after.(state := m.effect(c.state, ins)))
  }

  function Peek(stack: seq<Frame>): Frame
    requires stack != []
  {
    stack[|stack| - 1]
  }

  function Pop(stack: seq<Frame>): seq<Frame>
    requires stack != []
  {
    stack[..|stack| - 1]
  }

  // ----- stack discipline -----

  predicate FrameOk(code: seq<Instr>, f: Frame) {
    && f.start < f.end < |code|
    && code[f.start].op == OpRepeat
    && f.end == FindEnd(code, f.start + 1, 0)
    && 0 < f.left <= code[f.start].value
  }

  /** Open repeats are properly nested, and the program counter is inside the innermost. */
  ghost predicate Inv(code: seq<Instr>, stack: seq<Frame>, pc: nat) {
    && pc <= |code|
    && |stack| <= MAX_REPEAT
    && (forall k | 0 <= k < |stack| :: FrameOk(code, stack[k]))
    && (forall j, k | 0 <= j < k < |stack| :: stack[j].start < stack[k].start && stack[k].end < stack[j].end)
    && (stack != [] ==> Peek(stack).start < pc <= Peek(stack).end)
  }

  /** Scanning with one more open block ends later. */
  lemma {:induction false} DeeperEndsLater(code: seq<Instr>, i: nat, d: nat, e: nat)
    requires i <= |code| && d < e
    ensures FindEnd(code, i, e) < |code| ==> FindEnd(code, i, d) < FindEnd(code, i, e)
    decreases |code| - i
  {
    if i < |code| {
      if Opens(code[i]) {
        DeeperEndsLater(code, i + 1, d + 1, e + 1);
      } else if code[i].op == OpEnd {
        if d > 0 {
          DeeperEndsLater(code, i + 1, d - 1, e - 1);
        }
      } else {
        DeeperEndsLater(code, i + 1, d, e);
      }
    }
  }

  /** Restarting the scan anywhere before its end, at the depth reached there, ends at the same place. */
  lemma {:induction false} ScanResumes(code: seq<Instr>, i: nat, d: nat, j: nat) returns (depth: nat)
    requires i <= |code| && i <= j <= FindEnd(code, i, d)
    requires FindEnd(code, i, d) < |code|
    ensures FindEnd(code, j, depth) == FindEnd(code, i, d)
    decreases |code| - i
  {
    if i == j {
      depth := d;
    } else if Opens(code[i]) {
      depth := ScanResumes(code, i + 1, d + 1, j);
    } else if code[i].op == OpEnd {
      depth := ScanResumes(code, i + 1, d - 1, j);
    } else {
      depth := ScanResumes(code, i + 1, d, j);
    }
  }

  /** A block opened inside another one closes before it. */
  lemma InnerEndsFirst(code: seq<Instr>, start: nat, pc: nat)
    requires start < |code| && start < pc < FindEnd(code, start + 1, 0) < |code|
    requires Opens(code[pc])
    ensures FindEnd(code, pc + 1, 0) < FindEnd(code, start + 1, 0)
  {
    var depth := ScanResumes(code, start + 1, 0, pc);
    DeeperEndsLater(code, pc + 1, 0, depth + 1);
  }

  // The four ways in which a step moves the program counter and the stack.

  /** Forward, without leaving the innermost open repeat. */
  ghost predicate Jumps(code: seq<Instr>, stack: seq<Frame>, pc: nat, stack': seq<Frame>, pc': nat) {
    && stack' == stack
    && pc < pc' <= |code|
    && (stack != [] ==> pc' <= Peek(stack).end)
  }

  /** Into a repeat that ends before the innermost open one. */
  ghost predicate Enters(code: seq<Instr>, stack: seq<Frame>, pc: nat, stack': seq<Frame>, pc': nat) {
    && |stack| < MAX_REPEAT && |stack'| == |stack| + 1
    && stack' == stack + [Peek(stack')]
    && FrameOk(code, Peek(stack'))
    && Peek(stack').start == pc && pc' == pc + 1
    && (stack != [] ==> Peek(stack').end < Peek(stack).end)
  }

  /** Back to the start of the innermost repeat, with one iteration less. */
  ghost predicate Iterates(stack: seq<Frame>, stack': seq<Frame>, pc': nat) {
    && stack != []
    && var f := Peek(stack);
       && f.left > 1
       && stack' == Pop(stack) + [f.(left := f.left - 1)]
       && pc' == f.start + 1
  }

  /** Past the end of the innermost repeat. */
  ghost predicate Leaves(stack: seq<Frame>, pc: nat, stack': seq<Frame>, pc': nat) {
    stack != [] && pc == Peek(stack).end && stack' == Pop(stack) && pc' == pc + 1
  }

  ghost predicate Moves(code: seq<Instr>, stack: seq<Frame>, pc: nat, stack': seq<Frame>, pc': nat) {
    || Jumps(code, stack, pc, stack', pc')
    || Enters(code, stack, pc, stack', pc')
    || Iterates(stack, stack', pc')
    || Leaves(stack, pc, stack', pc')
  }

  lemma EndIsInside(code: seq<Instr>, stack: seq<Frame>, pc: nat)
    requires pc < |code| && Inv(code, stack, pc) && Opens(code[pc]) && stack != []
    ensures FindEnd(code, pc + 1, 0) < Peek(stack).end
  {
    var f := Peek(stack);
    assert FrameOk(code, f);
    assert code[f.end].op == OpEnd;
    InnerEndsFirst(code, f.start, pc);
  }

  lemma FrameEnds(code: seq<Instr>, stack: seq<Frame>, pc: nat)
    requires Inv(code, stack, pc) && stack != []
    ensures Peek(stack).end < |code| && code[Peek(stack).end].op == OpEnd
  {
    var f := Peek(stack);
    assert FrameOk(code, f);
    EndIsEnd(code, f.start + 1);
  }

  lemma RepeatMoves<S>(m: Machine<S>, code: seq<Instr>, c: Config<S>)
    requires c.pc < |code| && Inv(code, c.stack, c.pc) && code[c.pc].op == OpRepeat
    ensures Step(m, code, c).Running? ==>
              var c' := Step(m, code, c).config;
              Moves(code, c.stack, c.pc, c'.stack, c'.pc)
  {
    hide FindEnd;
    if c.stack != [] {
      EndIsInside(code, c.stack, c.pc);
    }
    var end := FindEnd(code, c.pc + 1, 0);
    EndIsEnd(code, c.pc + 1);
    if end < |code| {
      var c' := if code[c.pc].value <= 0 then c.(pc := end + 1)
                else Config(c.pc + 1, c.stack + [Frame(c.pc, end, code[c.pc].value)], c.state);
      if code[c.pc].value <= 0 {
        assert Jumps(code, c.stack, c.pc, c'.stack, c'.pc);
      } else if |c.stack| < MAX_REPEAT {
        assert Enters(code, c.stack, c.pc, c'.stack, c'.pc);
      }
    }
  }

  lemma CheckMoves<S>(m: Machine<S>, code: seq<Instr>, c: Config<S>)
    requires c.pc < |code| && Inv(code, c.stack, c.pc) && code[c.pc].op == OpCheck
    ensures Step(m, code, c).Running?
    ensures var c' := Step(m, code, c).config;
            Moves(code, c.stack, c.pc, c'.stack, c'.pc)
  {
    hide FindEnd;
    EndIsEnd(code, c.pc + 1);
    if c.stack != [] {
      EndIsInside(code, c.stack, c.pc);
      FrameEnds(code, c.stack, c.pc);
    }
    var c' := Step(m, code, c).config;
    assert Jumps(code, c.stack, c.pc, c'.stack, c'.pc);
  }

  lemma EndMoves<S>(m: Machine<S>, code: seq<Instr>, c: Config<S>)
    requires c.pc < |code| && Inv(code, c.stack, c.pc) && code[c.pc].op == OpEnd
    ensures Step(m, code, c).Running?
    ensures var c' := Step(m, code, c).config;
            Moves(code, c.stack, c.pc, c'.stack, c'.pc)
  {
    hide FindEnd, FrameOk;
    var c' := Step(m, code, c).config;
    if c.stack != [] && c.pc == Peek(c.stack).end {
      assert Iterates(c.stack, c'.stack, c'.pc) || Leaves(c.stack, c.pc, c'.stack, c'.pc);
    } else {
      assert Jumps(code, c.stack, c.pc, c'.stack, c'.pc);
    }
  }

  lemma StepMoves<S>(m: Machine<S>, code: seq<Instr>, c: Config<S>)
    requires c.pc < |code| && Inv(code, c.stack, c.pc)
    ensures Step(m, code, c).Running? ==>
              var c' := Step(m, code, c).config;
              Moves(code, c.stack, c.pc, c'.stack, c'.pc)
  {
    hide FindEnd, FrameOk;
    match code[c.pc].op
    case OpRepeat => RepeatMoves(m, code, c);
    case OpCheck => CheckMoves(m, code, c);
    case OpEnd => EndMoves(m, code, c);
    case OpUnknown =>
    case _ => PlainMoves(m, code, c);
  }

  /** An instruction without control flow goes on with the next one. */
  lemma PlainMoves<S>(m: Machine<S>, code: seq<Instr>, c: Config<S>)
    requires c.pc < |code| && Inv(code, c.stack, c.pc)
    requires code[c.pc].op !in {OpRepeat, OpCheck, OpEnd, OpUnknown}
    ensures Step(m, code, c).Running?
    ensures var c' := Step(m, code, c).config;
            Jumps(code, c.stack, c.pc, c'.stack, c'.pc)
  {
    hide FindEnd, FrameOk;
    if c.stack != [] {
      FrameEnds(code, c.stack, c.pc);
    }
  }

  lemma EndIsEnd(code: seq<Instr>, i: nat)
    requires i <= |code|
    ensures i <= FindEnd(code, i, 0)
    ensures FindEnd(code, i, 0) < |code| ==> code[FindEnd(code, i, 0)].op == OpEnd
  {
  }

  lemma JumpKeepsInv(code: seq<Instr>, stack: seq<Frame>, pc: nat, stack': seq<Frame>, pc': nat)
    requires Inv(code, stack, pc) && Jumps(code, stack, pc, stack', pc')
    ensures Inv(code, stack', pc')
  {
    hide FrameOk;
  }

  lemma EnterKeepsInv(code: seq<Instr>, stack: seq<Frame>, pc: nat, stack': seq<Frame>, pc': nat)
    requires Inv(code, stack, pc) && Enters(code, stack, pc, stack', pc')
    ensures Inv(code, stack', pc')
  {
    hide FindEnd;
    var n := |stack|;
    assert forall k | 0 <= k < n :: stack'[k] == stack[k];
    assert stack'[n] == Peek(stack');
  }

  lemma IterateKeepsInv(code: seq<Instr>, stack: seq<Frame>, pc: nat, stack': seq<Frame>, pc': nat)
    requires Inv(code, stack, pc) && Iterates(stack, stack', pc')
    ensures Inv(code, stack', pc')
  {
    hide FindEnd;
    var n := |stack| - 1;
    assert FrameOk(code, stack[n]);
    assert forall k | 0 <= k < n :: stack'[k] == stack[k];
  }

  lemma LeaveKeepsInv(code: seq<Instr>, stack: seq<Frame>, pc: nat, stack': seq<Frame>, pc': nat)
    requires Inv(code, stack, pc) && Leaves(stack, pc, stack', pc')
    ensures Inv(code, stack', pc')
  {
    hide FindEnd;
    var n := |stack| - 1;
    assert FrameOk(code, stack[n]);
    assert forall k | 0 <= k < n :: stack'[k] == stack[k];
    if n > 0 {
      assert Peek(stack') == stack[n - 1];
    }
  }

  // ----- termination -----

  function Power(b: nat, k: nat): nat {
    if k == 0 then 1 else b * Power(b, k - 1)
  }

  /** The value of a sequence of base-`b` digits, most significant first. */
  function Value(b: nat, ds: seq<nat>): nat {
    if ds == [] then 0 else ds[0] * Power(b, |ds| - 1) + Value(b, ds[1..])
  }

  lemma MulMonotone(x: nat, y: nat, p: nat)
    requires x <= y
    ensures x * p <= y * p
  {
  }

  lemma MulSuccessor(x: nat, p: nat)
    ensures (x + 1) * p == x * p + p
  {
  }

  lemma {:induction false} ValueBelowPower(b: nat, ds: seq<nat>)
    requires forall k | 0 <= k < |ds| :: ds[k] < b
    ensures Value(b, ds) < Power(b, |ds|)
  {
    if ds != [] {
      var p := Power(b, |ds| - 1);
      ValueBelowPower(b, ds[1..]);
      MulMonotone(ds[0] + 1, b, p);
      MulSuccessor(ds[0], p);
    }
  }

  /** The first differing digit decides. */
  lemma {:induction false} ValueIsLexicographic(b: nat, x: seq<nat>, y: seq<nat>, k: nat)
    requires |x| == |y| && k < |x|
    requires forall i | 0 <= i < |x| :: x[i] < b
    requires x[k] < y[k] && forall i | 0 <= i < k :: x[i] == y[i]
    ensures Value(b, x) < Value(b, y)
  {
    if k > 0 {
      ValueIsLexicographic(b, x[1..], y[1..], k - 1);
    } else {
      var p := Power(b, |x| - 1);
      ValueBelowPower(b, x[1..]);
      MulMonotone(x[0] + 1, y[0], p);
      MulSuccessor(x[0], p);
    }
  }

  function MaxValue(code: seq<Instr>): (r: nat)
    ensures forall i | 0 <= i < |code| :: code[i].value <= r
  {
    if code == [] then 0
    else
      var rest := MaxValue(code[1..]);
      assert forall i | 1 <= i < |code| :: code[i] == code[1..][i - 1];
      if code[0].value > rest then code[0].value else rest
  }

  const WIDTH: nat := 129

  function Base(code: seq<Instr>): nat {
    2 * |code| + 2 + MaxValue(code)
  }

  /** Outermost first: how much code is left at each open repeat, how many
      iterations it has left, and how much code is left at the program counter. */
  function Digit(code: seq<Instr>, stack: seq<Frame>, pc: nat, j: nat): (d: nat) {
    if j < 2 * |stack| then
      var f := stack[j / 2];
      if j % 2 == 0 then (if f.start <= |code| then 2 * (|code| - f.start) else 0)
      else (if f.left >= 0 then f.left else 0)
    else if j == 2 * |stack| && pc <= |code| then 2 * (|code| - pc) + 1
    else 0
  }

  function Measure(code: seq<Instr>, stack: seq<Frame>, pc: nat): (ds: seq<nat>)
    ensures |ds| == WIDTH
    ensures forall j: nat | j < WIDTH :: ds[j] == Digit(code, stack, pc, j)
  {
    seq(WIDTH, (j: nat) => Digit(code, stack, pc, j))
  }

  function Rank(code: seq<Instr>, stack: seq<Frame>, pc: nat): nat {
    Value(Base(code), Measure(code, stack, pc))
  }

  lemma DigitsBelowBase(code: seq<Instr>, stack: seq<Frame>, pc: nat, j: nat)
    requires Inv(code, stack, pc)
    ensures Digit(code, stack, pc, j) < Base(code)
  {
    if j < 2 * |stack| {
      assert FrameOk(code, stack[j / 2]);
    }
  }

  lemma RankDrops(code: seq<Instr>, stack: seq<Frame>, pc: nat, stack': seq<Frame>, pc': nat, k: nat)
    requires Inv(code, stack', pc') && k < WIDTH
    requires forall j: nat | j < k :: Digit(code, stack', pc', j) == Digit(code, stack, pc, j)
    requires Digit(code, stack', pc', k) < Digit(code, stack, pc, k)
    ensures Rank(code, stack', pc') < Rank(code, stack, pc)
  {
    hide Digit, Inv, Value, Base;
    var x, y := Measure(code, stack', pc'), Measure(code, stack, pc);
    forall j: nat | j < WIDTH ensures x[j] < Base(code) {
      DigitsBelowBase(code, stack', pc', j);
    }
    ValueIsLexicographic(Base(code), x, y, k);
  }

  // Each move lowers one digit: the program counter's, the iteration count of the
  // innermost repeat, or the position of a repeat that is left.

  lemma JumpLowersRank(code: seq<Instr>, stack: seq<Frame>, pc: nat, stack': seq<Frame>, pc': nat)
    requires Inv(code, stack, pc) && Jumps(code, stack, pc, stack', pc')
    ensures Inv(code, stack', pc') && Rank(code, stack', pc') < Rank(code, stack, pc)
  {
    hide Rank, FrameOk;
    JumpKeepsInv(code, stack, pc, stack', pc');
    RankDrops(code, stack, pc, stack', pc', 2 * |stack|);
  }

  lemma EnterLowersRank(code: seq<Instr>, stack: seq<Frame>, pc: nat, stack': seq<Frame>, pc': nat)
    requires Inv(code, stack, pc) && Enters(code, stack, pc, stack', pc')
    ensures Inv(code, stack', pc') && Rank(code, stack', pc') < Rank(code, stack, pc)
  {
    hide Rank, FindEnd;
    EnterKeepsInv(code, stack, pc, stack', pc');
    assert stack'[|stack|] == Peek(stack');
    RankDrops(code, stack, pc, stack', pc', 2 * |stack|);
  }

  lemma IterateLowersRank(code: seq<Instr>, stack: seq<Frame>, pc: nat, stack': seq<Frame>, pc': nat)
    requires Inv(code, stack, pc) && Iterates(stack, stack', pc')
    ensures Inv(code, stack', pc') && Rank(code, stack', pc') < Rank(code, stack, pc)
  {
    hide Rank, FrameOk;
    IterateKeepsInv(code, stack, pc, stack', pc');
    var k := 2 * |stack| - 1;
    assert k / 2 == |stack| - 1 && k % 2 == 1;
    RankDrops(code, stack, pc, stack', pc', k);
  }

  lemma LeaveLowersRank(code: seq<Instr>, stack: seq<Frame>, pc: nat, stack': seq<Frame>, pc': nat)
    requires Inv(code, stack, pc) && Leaves(stack, pc, stack', pc')
    ensures Inv(code, stack', pc') && Rank(code, stack', pc') < Rank(code, stack, pc)
  {
    hide Rank, FindEnd;
    LeaveKeepsInv(code, stack, pc, stack', pc');
    assert FrameOk(code, Peek(stack));
    var k := 2 * |stack| - 2;
    assert k / 2 == |stack| - 1 && k % 2 == 0;
    RankDrops(code, stack, pc, stack', pc', k);
  }

  lemma MovesLowerRank(code: seq<Instr>, stack: seq<Frame>, pc: nat, stack': seq<Frame>, pc': nat)
    requires Inv(code, stack, pc) && Moves(code, stack, pc, stack', pc')
    ensures Inv(code, stack', pc') && Rank(code, stack', pc') < Rank(code, stack, pc)
  {
    hide Rank, Inv, Jumps, Enters, Iterates, Leaves;
    if Jumps(code, stack, pc, stack', pc') {
      JumpLowersRank(code, stack, pc, stack', pc');
    } else if Enters(code, stack, pc, stack', pc') {
      EnterLowersRank(code, stack, pc, stack', pc');
    } else if Iterates(stack, stack', pc') {
      IterateLowersRank(code, stack, pc, stack', pc');
    } else {
      LeaveLowersRank(code, stack, pc, stack', pc');
    }
  }

  lemma StepLowersRank<S>(m: Machine<S>, code: seq<Instr>, c: Config<S>)
    requires c.pc < |code| && Inv(code, c.stack, c.pc)
    ensures Step(m, code, c).Running? ==>
              var c' := Step(m, code, c).config;
              Inv(code, c'.stack, c'.pc) && Rank(code, c'.stack, c'.pc) < Rank(code, c.stack, c.pc)
  {
    hide Rank, Inv, Moves, Step;
    StepMoves(m, code, c);
    var next := Step(m, code, c);
    if next.Running? {
      MovesLowerRank(code, c.stack, c.pc, next.config.stack, next.config.pc);
    }
  }

  /** Running to the end: total on every instruction sequence, compiled or not. */
  function Run<S>(m: Machine<S>, code: seq<Instr>, c: Config<S>): S
    requires Inv(code, c.stack, c.pc)
    decreases Rank(code, c.stack, c.pc)
  {
    if c.pc >= |code| then c.state
    else
      StepLowersRank(m, code, c);
      match Step(m, code, c)
      case Stopped(state) => state
      case Running(c') => Run(m, code, c')
  }

  // ----- the scan and the faults, on any code -----

  /** Blocks opened minus blocks ended from `i` up to `e`. */
  function OpenBlocks(code: seq<Instr>, i: nat, e: nat): int
    requires i <= e <= |code|
    decreases e - i
  {
    if i == e then 0
    else (if Opens(code[i]) then 1 else if code[i].op == OpEnd then -1 else 0) + OpenBlocks(code, i + 1, e)
  }

  /** An END at which `depth` blocks more are ended than opened since `i`. */
  predicate Closes(code: seq<Instr>, i: nat, depth: nat, e: nat) {
    i <= e < |code| && code[e].op == OpEnd && OpenBlocks(code, i, e) + depth == 0
  }

  lemma ClosesLater(code: seq<Instr>, i: nat, depth: nat, e: nat)
    requires i < |code| && !(code[i].op == OpEnd && depth == 0)
    ensures var d: int := depth + (if Opens(code[i]) then 1 else if code[i].op == OpEnd then -1 else 0);
            d >= 0 && (Closes(code, i, depth, e) <==> Closes(code, i + 1, d, e))
  {
  }

  /** The scan finds the first such END: the one that closes the block it is in. */
  lemma {:induction false} FindEndIsFirst(code: seq<Instr>, i: nat, depth: nat)
    requires i <= |code|
    ensures var e := FindEnd(code, i, depth);
            && (e < |code| ==> Closes(code, i, depth, e))
            && (forall k: nat | k < e :: !Closes(code, i, depth, k))
            && e <= |code|
    decreases |code| - i
  {
    if i < |code| && !(code[i].op == OpEnd && depth == 0) {
      var d: int := depth + (if Opens(code[i]) then 1 else if code[i].op == OpEnd then -1 else 0);
      ClosesLater(code, i, depth, FindEnd(code, i, depth));
      FindEndIsFirst(code, i + 1, d);
      forall k: nat | k < FindEnd(code, i, depth)
        ensures !Closes(code, i, depth, k)
      {
        ClosesLater(code, i, depth, k);
      }
    }
  }

  /** When the VM stops early, and with which fault: an unknown opcode, a repeat without
      an END even if it would not run, and a 65th open repeat.  A failed check without
      an END skips to the end of the code. */
  lemma FaultsExactly<S>(m: Machine<S>, code: seq<Instr>, c: Config<S>)
    requires c.pc < |code| && Inv(code, c.stack, c.pc)
    ensures var ins, end := code[c.pc], FindEnd(code, c.pc + 1, 0);
            && (ins.op == OpUnknown ==> Run(m, code, c) == m.fault(c.state, UnknownOpcode))
            && (ins.op == OpRepeat && end == |code| ==> Run(m, code, c) == m.fault(c.state, MissingEnd))
            && (ins.op == OpRepeat && end < |code| && ins.value > 0 && |c.stack| == 64 ==>
                  Run(m, code, c) == m.fault(c.state, StackOverflow))
            && (Step(m, code, c).Stopped? ==>
                  || ins.op == OpUnknown
                  || (ins.op == OpRepeat && (end == |code| || (ins.value > 0 && |c.stack| == 64))))
            && (ins.op == OpCheck && !m.test(c.state, ins).0 && end == |code| ==>
                  Run(m, code, c) == m.test(c.state, ins).1)
  {
    hide Step, FindEnd, Run, Inv;
    StopsAt(m, code, c);
    RunUnfolds(m, code, c);
    if code[c.pc].op == OpCheck && !m.test(c.state, code[c.pc]).0 && FindEnd(code, c.pc + 1, 0) == |code| {
      RunEnds(m, code, Step(m, code, c).config);
    }
  }

  /** What the next step is where the VM may stop. */
  lemma StopsAt<S>(m: Machine<S>, code: seq<Instr>, c: Config<S>)
    requires c.pc < |code| && Inv(code, c.stack, c.pc)
    ensures var ins, end, next := code[c.pc], FindEnd(code, c.pc + 1, 0), Step(m, code, c);
            && (ins.op == OpUnknown ==> next == Stopped(m.fault(c.state, UnknownOpcode)))
            && (ins.op == OpRepeat && end == |code| ==> next == Stopped(m.fault(c.state, MissingEnd)))
            && (ins.op == OpRepeat && end < |code| && ins.value > 0 && |c.stack| == 64 ==>
                  next == Stopped(m.fault(c.state, StackOverflow)))
            && (next.Stopped? ==>
                  || ins.op == OpUnknown
                  || (ins.op == OpRepeat && (end == |code| || (ins.value > 0 && |c.stack| == 64))))
            && (ins.op == OpCheck && !m.test(c.state, ins).0 && end == |code| ==>
                  next == Running(Config(|code|, c.stack, m.test(c.state, ins).1)))
  {
    hide FindEnd, FrameOk;
    EndInCode(code, c.pc + 1);
  }

  lemma EndInCode(code: seq<Instr>, i: nat)
    requires i <= |code|
    ensures FindEnd(code, i, 0) <= |code|
  {
  }

  lemma RunUnfolds<S>(m: Machine<S>, code: seq<Instr>, c: Config<S>)
    requires c.pc < |code| && Inv(code, c.stack, c.pc)
    ensures var next := Step(m, code, c);
            && (next.Stopped? ==> Run(m, code, c) == next.state)
            && (next.Running? ==> Inv(code, next.config.stack, next.config.pc))
            && (next.Running? ==> Run(m, code, c) == Run(m, code, next.config))
  {
    hide Step, Inv, Rank;
    StepLowersRank(m, code, c);
  }

  lemma RunEnds<S>(m: Machine<S>, code: seq<Instr>, c: Config<S>)
    requires Inv(code, c.stack, c.pc) && c.pc >= |code|
    ensures Run(m, code, c) == c.state
  {
    hide Step, Inv, Rank;
  }
}
