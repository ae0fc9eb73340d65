/** Running compiled code is structured execution of the tree. */
module CompilerCorrect {
  import opened Ast
  import opened Bytecode
  import opened Compiler
  import opened ByteVm

  // ----- structured execution -----

  /** A check runs its body if its test passes, a repeat runs it as often as its
      count says, a list runs its statements in order. */
  function Execute<S>(m: Machine<S>, n: Node, state: S): S
    decreases n, 1, 0
  {
    if n.Nil? then state else Execute(m, n.next, ExecuteOne(m, n, state))
  }

  function ExecuteOne<S>(m: Machine<S>, n: Node, state: S): S
    requires n.Node?
    decreases n, 0, 0
  {
    if IsPrimitive(n.kind) then m.effect(state, PrimitiveInstr(n))
    else if n.kind == CheckNode then
      var (pass, tested) := m.test(state, CheckInstr(n));
      if pass then Execute(m, n.body, tested) else tested
    else if n.kind == RepeatNode then ExecuteTimes(m, n.body, state, Count(n))
    else if n.kind == BlockNode then Execute(m, n.body, state)
    else state
  }

  function ExecuteTimes<S>(m: Machine<S>, body: Node, state: S, count: nat): S
    decreases body, 2, count
  {
    if count == 0 then state
    else ExecuteTimes(m, body, Execute(m, body, state), count - 1)
  }

  function Count(n: Node): nat
    requires n.Node?
  {
    var v := RepeatInstr(n).value;
    if v > 0 then v else 0
  }

  /** The recursive walk with its repeat loop. */
  method Interpret<S>(m: Machine<S>, n: Node, state: S) returns (final: S)
    ensures final == Execute(m, n, state)
    decreases n
  {
    final := state;
    if n.Nil? {
      return;
    }
    if IsPrimitive(n.kind) {
      final := m.effect(state, PrimitiveInstr(n));
    } else if n.kind == CheckNode {
      var result := m.test(state, CheckInstr(n));
      final := result.1;
      if result.0 {
        final := Interpret(m, n.body, final);
      }
    } else if n.kind == RepeatNode {
      var count := RepeatInstr(n).value;
      var i := 0;
      while i < count
        invariant 0 <= i <= Count(n)
        invariant ExecuteTimes(m, n.body, final, Count(n) - i) == ExecuteTimes(m, n.body, state, Count(n))
      {
        final := Interpret(m, n.body, final);
        i := i + 1;
      }
    } else if n.kind == BlockNode {
      final := Interpret(m, n.body, state);
    }
    final := Interpret(m, n.next, final);
  }

  // ----- structured execution with the VM's bound on open repeats -----

  datatype Outcome<S> = Done(state: S) | Aborted(state: S)

  function Bounded<S>(m: Machine<S>, n: Node, state: S, depth: nat): Outcome<S>
    decreases n, 1, 0
  {
    if n.Nil? then Done(state)
    else
      match BoundedOne(m, n, state, depth)
      case Aborted(s) => Aborted(s)
      case Done(s) => Bounded(m, n.next, s, depth)
  }

  function BoundedOne<S>(m: Machine<S>, n: Node, state: S, depth: nat): Outcome<S>
    requires n.Node?
    decreases n, 0, 0
  {
    if IsPrimitive(n.kind) then Done(m.effect(state, PrimitiveInstr(n)))
    else if n.kind == CheckNode then
      var (pass, tested) := m.test(state, CheckInstr(n));
      if pass then Bounded(m, n.body, tested, depth) else Done(tested)
    else if n.kind == RepeatNode then
      if Count(n) == 0 then Done(state)
      else if depth >= MAX_REPEAT then Aborted(m.fault(state, StackOverflow))
      else BoundedTimes(m, n.body, state, depth + 1, Count(n))
    else if n.kind == BlockNode then Bounded(m, n.body, state, depth)
    else Done(state)
  }

  function BoundedTimes<S>(m: Machine<S>, body: Node, state: S, depth: nat, count: nat): Outcome<S>
    decreases body, 2, count
  {
    if count == 0 then Done(state)
    else
      match Bounded(m, body, state, depth)
      case Aborted(s) => Aborted(s)
      case Done(s) => BoundedTimes(m, body, s, depth, count - 1)
  }

  /** How many repeats can be open at once. */
  function RepeatDepth(n: Node): nat {
    if n.Nil? then 0
    else
      var inside := RepeatDepth(n.body);
      var here := if n.kind == RepeatNode && Count(n) > 0 then inside + 1
                  else if n.kind in {CheckNode, BlockNode} then inside else 0;
      var rest := RepeatDepth(n.next);
      if here > rest then here else rest
  }

  lemma DepthParts(n: Node)
    requires n.Node?
    ensures RepeatDepth(n.next) <= RepeatDepth(n)
    ensures n.kind in {CheckNode, BlockNode} ==> RepeatDepth(n.body) <= RepeatDepth(n)
    ensures n.kind == RepeatNode && Count(n) > 0 ==> RepeatDepth(n.body) + 1 <= RepeatDepth(n)
  {
  }

  /** Trees nested at most 64 deep never meet the bound. */
  lemma {:induction false} BoundedIsExecute<S>(m: Machine<S>, n: Node, state: S, depth: nat)
    requires depth + RepeatDepth(n) <= MAX_REPEAT
    ensures Bounded(m, n, state, depth) == Done(Execute(m, n, state))
    decreases n, 1, 0
  {
    hide BoundedOne, ExecuteOne, RepeatDepth;
    if n.Node? {
      DepthParts(n);
      BoundedOneIsExecute(m, n, state, depth);
      BoundedIsExecute(m, n.next, ExecuteOne(m, n, state), depth);
    }
  }

  lemma {:induction false} BoundedOneIsExecute<S>(m: Machine<S>, n: Node, state: S, depth: nat)
    requires n.Node? && depth + RepeatDepth(n) <= MAX_REPEAT
    ensures BoundedOne(m, n, state, depth) == Done(ExecuteOne(m, n, state))
    decreases n, 0, 0
  {
    hide CheckInstr, RepeatInstr, PrimitiveInstr, IsPrimitive, RepeatDepth;
    hide Bounded, Execute, BoundedTimes, ExecuteTimes, Count;
    DepthParts(n);
    if n.kind == CheckNode {
      BoundedIsExecute(m, n.body, m.test(state, CheckInstr(n)).1, depth);
    } else if n.kind == RepeatNode {
      if Count(n) > 0 {
        BoundedTimesIsExecute(m, n.body, state, depth + 1, Count(n));
      } else {
        NoTimes(m, n.body, state);
      }
    } else if n.kind == BlockNode {
      BoundedIsExecute(m, n.body, state, depth);
    }
  }

  lemma NoTimes<S>(m: Machine<S>, body: Node, state: S)
    ensures ExecuteTimes(m, body, state, 0) == state
  {
  }

  lemma {:induction false} BoundedTimesIsExecute<S>(m: Machine<S>, body: Node, state: S, depth: nat, count: nat)
    requires depth + RepeatDepth(body) <= MAX_REPEAT
    ensures BoundedTimes(m, body, state, depth, count) == Done(ExecuteTimes(m, body, state, count))
    decreases body, 2, count
  {
    if count > 0 {
      BoundedIsExecute(m, body, state, depth);
      BoundedTimesIsExecute(m, body, Execute(m, body, state), depth, count - 1);
    }
  }

  // ----- compiled code is balanced -----

  ghost predicate Holds(code: seq<Instr>, at: nat, part: seq<Instr>) {
    at + |part| <= |code| && code[at..at + |part|] == part
  }

  lemma HoldsParts(code: seq<Instr>, at: nat, a: seq<Instr>, b: seq<Instr>)
    requires Holds(code, at, a + b)
    ensures Holds(code, at, a) && Holds(code, at + |a|, b)
  {
    assert code[at..at + |a|] == (a + b)[..|a|];
    assert code[at + |a|..at + |a| + |b|] == (a + b)[|a|..];
  }

  lemma HoldsOne(code: seq<Instr>, at: nat, i: Instr)
    requires Holds(code, at, [i])
    ensures at < |code| && code[at] == i
  {
    assert code[at..at + 1][0] == i;
  }

  /** A block's own instruction, its body and its END, in place. */
  lemma HoldsBlock(code: seq<Instr>, at: nat, open: Instr, body: seq<Instr>)
    requires Holds(code, at, [open] + body + [END])
    ensures at + 1 + |body| < |code| && code[at] == open && code[at + 1 + |body|] == END
    ensures Holds(code, at + 1, body)
  {
    assert [open] + body + [END] == [open] + (body + [END]);
    HoldsParts(code, at, [open], body + [END]);
    HoldsOne(code, at, open);
    HoldsParts(code, at + 1, body, [END]);
    HoldsOne(code, at + 1 + |body|, END);
  }

  /** Scanning over compiled code returns to the depth it started at. */
  lemma {:induction false} ScanSkipsCode(code: seq<Instr>, n: Node, at: nat, depth: nat)
    requires Holds(code, at, Code(n))
    ensures FindEnd(code, at, depth) == FindEnd(code, at + |Code(n)|, depth)
    decreases n, 1
  {
    hide Holds, Head;
    if n.Node? {
      HoldsParts(code, at, Head(n), Code(n.next));
      HoldsFits(code, at, Head(n));
      ScanSkipsHead(code, n, at, depth);
      ScanSkipsCode(code, n.next, at + |Head(n)|, depth);
    } else {
      HoldsFits(code, at, Code(n));
    }
  }

  lemma HoldsFits(code: seq<Instr>, at: nat, part: seq<Instr>)
    requires Holds(code, at, part)
    ensures at + |part| <= |code|
  {
  }

  lemma {:induction false} ScanSkipsHead(code: seq<Instr>, n: Node, at: nat, depth: nat)
    requires n.Node? && Holds(code, at, Head(n))
    ensures FindEnd(code, at, depth) == FindEnd(code, at + |Head(n)|, depth)
    decreases n, 0
  {
    hide Holds, Code, CheckInstr, RepeatInstr, IsPrimitive, FindEnd;
    HoldsFits(code, at, Head(n));
    OpensBlock(n);
    if IsPrimitive(n.kind) {
      HoldsOne(code, at, PrimitiveInstr(n));
      ScanSkipsPrimitive(code, at, depth);
    } else if n.kind == CheckNode || n.kind == RepeatNode {
      var open := if n.kind == CheckNode then CheckInstr(n) else RepeatInstr(n);
      HoldsBlock(code, at, open, Code(n.body));
      ScanSkipsCode(code, n.body, at + 1, depth + 1);
      ScanSkipsBlock(code, at, open, |Code(n.body)|, depth);
    } else if n.kind == BlockNode {
      ScanSkipsCode(code, n.body, at, depth);
    }
  }

  lemma ScanSkipsPrimitive(code: seq<Instr>, at: nat, depth: nat)
    requires at < |code| && !Opens(code[at]) && code[at].op != OpEnd
    ensures FindEnd(code, at, depth) == FindEnd(code, at + 1, depth)
  {
  }

  lemma ScanSkipsBlock(code: seq<Instr>, at: nat, open: Instr, size: nat, depth: nat)
    requires at + 1 + size < |code| && code[at] == open && Opens(open) && code[at + 1 + size] == END
    requires FindEnd(code, at + 1, depth + 1) == FindEnd(code, at + 1 + size, depth + 1)
    ensures FindEnd(code, at, depth) == FindEnd(code, at + 2 + size, depth)
  {
  }

  lemma OpensBlock(n: Node)
    requires n.Node?
    ensures CheckInstr(n).op == OpCheck && RepeatInstr(n).op == OpRepeat
    ensures Opens(CheckInstr(n)) && Opens(RepeatInstr(n))
  {
  }

  /** The END found for a compiled block is its own. */
  lemma BlockEnd(code: seq<Instr>, at: nat, open: Instr, body: Node)
    requires Holds(code, at, [open] + Code(body) + [END])
    ensures at + 1 + |Code(body)| < |code|
    ensures FindEnd(code, at + 1, 0) == at + 1 + |Code(body)|
  {
    hide Holds, Code;
    HoldsBlock(code, at, open, Code(body));
    ScanSkipsCode(code, body, at + 1, 0);
  }

  // ----- simulation -----

  /** Running from `at` agrees with an outcome that, when done, resumes at `end`. */
  ghost predicate Agrees<S(!new)>(m: Machine<S>, code: seq<Instr>, stack: seq<Frame>, at: nat, state: S,
                            end: nat, outcome: Outcome<S>)
  {
    && Inv(code, stack, at)
    && Inv(code, stack, end)
    && Run(m, code, Config(at, stack, state))
       == match outcome
          case Aborted(s) => s
          case Done(s) => Run(m, code, Config(end, stack, s))
  }

  /** The code at `at` up to `end` lies inside the innermost open repeat. */
  ghost predicate Inside(code: seq<Instr>, stack: seq<Frame>, at: nat, end: nat) {
    && Inv(code, stack, at)
    && at <= end <= |code|
    && (stack != [] ==> end <= Peek(stack).end)
  }

  lemma InsideInv(code: seq<Instr>, stack: seq<Frame>, at: nat, end: nat, pc: nat)
    requires Inside(code, stack, at, end) && at <= pc <= end
    ensures Inv(code, stack, pc) && Inside(code, stack, pc, end) && Inside(code, stack, at, pc)
  {
    hide FrameOk;
  }

  lemma {:induction false} SimulateCode<S(!new)>(
    m: Machine<S>, code: seq<Instr>, n: Node, at: nat, stack: seq<Frame>, state: S)
    requires Holds(code, at, Code(n)) && Inside(code, stack, at, at + |Code(n)|)
    ensures Agrees(m, code, stack, at, state, at + |Code(n)|, Bounded(m, n, state, |stack|))
    decreases n, 1, 0
  {
    hide Holds, Head, Inside, Inv, Run, BoundedOne;
    var end := at + |Code(n)|;
    if n.Nil? {
      InsideInv(code, stack, at, end, at);
    } else {
      var mid := at + |Head(n)|;
      HoldsParts(code, at, Head(n), Code(n.next));
      InsideInv(code, stack, at, end, mid);
      SimulateHead(m, code, n, at, stack, state);
      match BoundedOne(m, n, state, |stack|)
      case Aborted(_) => InsideInv(code, stack, at, end, end);
      case Done(s) => SimulateCode(m, code, n.next, mid, stack, s);
    }
  }

  lemma {:induction false} SimulateHead<S(!new)>(
    m: Machine<S>, code: seq<Instr>, n: Node, at: nat, stack: seq<Frame>, state: S)
    requires n.Node? && Holds(code, at, Head(n)) && Inside(code, stack, at, at + |Head(n)|)
    ensures Agrees(m, code, stack, at, state, at + |Head(n)|, BoundedOne(m, n, state, |stack|))
    decreases n, 0, 1
  {
    hide Holds, Inside, Inv, Run, Code, IsPrimitive, CheckInstr, RepeatInstr, Bounded, BoundedTimes;
    var end := at + |Head(n)|;
    InsideInv(code, stack, at, end, at);
    InsideInv(code, stack, at, end, end);
    if IsPrimitive(n.kind) {
      HoldsOne(code, at, PrimitiveInstr(n));
      RunUnfolds(m, code, Config(at, stack, state));
    } else if n.kind == CheckNode {
      SimulateCheck(m, code, n, at, stack, state);
    } else if n.kind == RepeatNode {
      SimulateRepeat(m, code, n, at, stack, state);
    } else if n.kind == BlockNode {
      SimulateCode(m, code, n.body, at, stack, state);
    }
  }

  /** An END that closes no open repeat does nothing. */
  lemma PlainEnd<S(!new)>(m: Machine<S>, code: seq<Instr>, stack: seq<Frame>, at: nat, end: nat, state: S)
    requires Inside(code, stack, at, end + 1) && at <= end && code[end] == END
    ensures Inv(code, stack, end) && Inv(code, stack, end + 1)
    ensures Run(m, code, Config(end, stack, state)) == Run(m, code, Config(end + 1, stack, state))
  {
    hide Inv, Run;
    InsideInv(code, stack, at, end + 1, end);
    InsideInv(code, stack, at, end + 1, end + 1);
    RunUnfolds(m, code, Config(end, stack, state));
  }

  lemma {:induction false} SimulateCheck<S(!new)>(
    m: Machine<S>, code: seq<Instr>, n: Node, at: nat, stack: seq<Frame>, state: S)
    requires n.Node? && n.kind == CheckNode
    requires Holds(code, at, Head(n)) && Inside(code, stack, at, at + |Head(n)|)
    ensures Agrees(m, code, stack, at, state, at + |Head(n)|, BoundedOne(m, n, state, |stack|))
    decreases n, 0, 0
  {
    hide Holds, Inside, Inv, Run, Code, CheckInstr, Bounded;
    var close := at + 1 + |Code(n.body)|;
    HoldsBlock(code, at, CheckInstr(n), Code(n.body));
    BlockEnd(code, at, CheckInstr(n), n.body);
    OpensBlock(n);
    assert at + |Head(n)| == close + 1;
    InsideInv(code, stack, at, close + 1, at);
    InsideInv(code, stack, at, close + 1, close + 1);
    RunUnfolds(m, code, Config(at, stack, state));
    var (pass, tested) := m.test(state, CheckInstr(n));
    if pass {
      InsideInv(code, stack, at, close + 1, at + 1);
      InsideInv(code, stack, at + 1, close + 1, close);
      SimulateCode(m, code, n.body, at + 1, stack, tested);
      match Bounded(m, n.body, tested, |stack|)
      case Aborted(_) =>
      case Done(s) => PlainEnd(m, code, stack, at, close, s);
    }
  }

  /** The opening of a repeat: skipped, refused, or a new frame. */
  lemma OpenRepeat<S>(m: Machine<S>, code: seq<Instr>, n: Node, at: nat, stack: seq<Frame>, state: S)
    requires n.Node? && at < |code| && code[at] == RepeatInstr(n) && FindEnd(code, at + 1, 0) < |code|
    ensures var close := FindEnd(code, at + 1, 0);
            Step(m, code, Config(at, stack, state))
            == if Count(n) == 0 then Running(Config(close + 1, stack, state))
               else if |stack| >= MAX_REPEAT then Stopped(m.fault(state, StackOverflow))
               else Running(Config(at + 1, stack + [Frame(at, close, Count(n))], state))
  {
    hide FindEnd, Atoi;
  }

  lemma {:induction false} SimulateRepeat<S(!new)>(
    m: Machine<S>, code: seq<Instr>, n: Node, at: nat, stack: seq<Frame>, state: S)
    requires n.Node? && n.kind == RepeatNode
    requires Holds(code, at, Head(n)) && Inside(code, stack, at, at + |Head(n)|)
    ensures Agrees(m, code, stack, at, state, at + |Head(n)|, BoundedOne(m, n, state, |stack|))
    decreases n, 0, 0
  {
    hide Holds, Inside, Inv, Run, Code, BoundedTimes, Step, FindEnd, RepeatInstr, Count, IsPrimitive;
    RepeatIsNotPrimitive();
    var close := at + 1 + |Code(n.body)|;
    HoldsBlock(code, at, RepeatInstr(n), Code(n.body));
    BlockEnd(code, at, RepeatInstr(n), n.body);
    OpensBlock(n);
    assert at + |Head(n)| == close + 1;
    InsideInv(code, stack, at, close + 1, at);
    InsideInv(code, stack, at, close + 1, close + 1);
    RunUnfolds(m, code, Config(at, stack, state));
    StackFits(code, stack, at);
    OpenRepeat(m, code, n, at, stack, state);
    if Count(n) > 0 && |stack| < MAX_REPEAT {
      var inner := stack + [Frame(at, close, Count(n))];
      assert Peek(inner) == Frame(at, close, Count(n)) && Pop(inner) == stack;
      SimulateLoop(m, code, n, at, stack, state, Count(n));
    }
  }

  lemma StackFits(code: seq<Instr>, stack: seq<Frame>, pc: nat)
    requires Inv(code, stack, pc)
    ensures |stack| <= MAX_REPEAT
  {
  }

  /** The loop frame of a compiled repeat, and what surrounds it. */
  ghost predicate InLoop(code: seq<Instr>, n: Node, at: nat, stack: seq<Frame>, left: nat) {
    && n.Node? && n.kind == RepeatNode && 0 < left <= Count(n) && |stack| < MAX_REPEAT
    && Holds(code, at, Head(n))
    && Inside(code, stack, at, at + |Head(n)|)
  }

  lemma LoopFrame(code: seq<Instr>, n: Node, at: nat, stack: seq<Frame>, left: nat)
    requires InLoop(code, n, at, stack, left)
    ensures var close := at + 1 + |Code(n.body)|;
            && close < |code| && code[close] == END
            && Holds(code, at + 1, Code(n.body))
            && Inside(code, stack + [Frame(at, close, left)], at + 1, close)
            && Inside(code, stack + [Frame(at, close, left)], close, close)
  {
    hide Code, FindEnd;
    var close := at + 1 + |Code(n.body)|;
    var f := Frame(at, close, left);
    HoldsBlock(code, at, RepeatInstr(n), Code(n.body));
    BlockEnd(code, at, RepeatInstr(n), n.body);
    OpensBlock(n);
    assert FrameOk(code, f);
    var stack' := stack + [f];
    assert Peek(stack') == f;
    assert Enters(code, stack, at, stack', at + 1);
    EnterKeepsInv(code, stack, at, stack', at + 1);
  }

  /** Running a loop body from its start agrees with an outcome that, when done,
      resumes past the loop with its frame gone. */
  ghost predicate LoopAgrees<S(!new)>(m: Machine<S>, code: seq<Instr>, inner: seq<Frame>, state: S, outcome: Outcome<S>)
    requires inner != []
  {
    var f := Peek(inner);
    && Inv(code, inner, f.start + 1)
    && Inv(code, Pop(inner), f.end + 1)
    && Run(m, code, Config(f.start + 1, inner, state))
       == match outcome
          case Aborted(s) => s
          case Done(s) => Run(m, code, Config(f.end + 1, Pop(inner), s))
  }

  /** The END of a loop body: once more, or on past the loop. */
  lemma EndOfPass<S>(m: Machine<S>, code: seq<Instr>, at: nat, close: nat, stack: seq<Frame>, state: S, left: nat)
    requires close < |code| && code[close] == END && left > 0
    ensures Step(m, code, Config(close, stack + [Frame(at, close, left)], state))
         == Running(if left > 1 then Config(at + 1, stack + [Frame(at, close, left - 1)], state)
                    else Config(close + 1, stack, state))
  {
    var inner := stack + [Frame(at, close, left)];
    assert Peek(inner) == Frame(at, close, left) && Pop(inner) == stack;
  }

  lemma {:induction false} SimulateLoop<S(!new)>(
    m: Machine<S>, code: seq<Instr>, n: Node, at: nat, stack: seq<Frame>, state: S, left: nat)
    requires InLoop(code, n, at, stack, left)
    ensures LoopAgrees(m, code, stack + [Frame(at, at + 1 + |Code(n.body)|, left)], state,
                       BoundedTimes(m, n.body, state, |stack| + 1, left))
    decreases n.body, 2, left
  {
    hide Holds, Inside, Inv, Run, Code, Bounded, Step;
    var close := at + 1 + |Code(n.body)|;
    var inner := stack + [Frame(at, close, left)];
    assert Peek(inner) == Frame(at, close, left) && Pop(inner) == stack;
    LoopFrame(code, n, at, stack, left);
    assert at + |Head(n)| == close + 1;
    InsideInv(code, stack, at, close + 1, close + 1);
    SimulateCode(m, code, n.body, at + 1, inner, state);
    match Bounded(m, n.body, state, |stack| + 1)
    case Aborted(_) =>
    case Done(s) =>
      RunUnfolds(m, code, Config(close, inner, s));
      EndOfPass(m, code, at, close, stack, s, left);
      if left > 1 {
        var again := stack + [Frame(at, close, left - 1)];
        assert Peek(again) == Frame(at, close, left - 1) && Pop(again) == stack;
        SimulateLoop(m, code, n, at, stack, s, left - 1);
      }
  }

  // ----- the theorems -----

  /** For every tree the VM computes structured execution, cut off exactly where a
      65th repeat would be opened. */
  lemma CompiledCodeRuns<S(!new)>(m: Machine<S>, n: Node, state: S)
    ensures Inv(Code(n), [], 0)
    ensures Run(m, Code(n), Config(0, [], state)) == Bounded(m, n, state, 0).state
  {
    hide Bounded;
    var code := Code(n);
    assert code[0..|code|] == code;
    SimulateCode(m, code, n, 0, [], state);
  }

  /** Repeats nested at most 64 deep: the VM computes structured execution. */
  lemma CompilerCorrect<S(!new)>(m: Machine<S>, n: Node, state: S)
    requires RepeatDepth(n) <= MAX_REPEAT
    ensures Inv(Code(n), [], 0)
    ensures Run(m, Code(n), Config(0, [], state)) == Execute(m, n, state)
  {
    hide Bounded, Run, Inv;
    CompiledCodeRuns(m, n, state);
    BoundedIsExecute(m, n, state, 0);
  }

  // ----- laws of running compiled code -----

  /** The state in which the VM leaves the code of a tree. */
  function Final<S(!new)>(m: Machine<S>, n: Node, state: S): S {
    assert Inv(Code(n), [], 0);
    Run(m, Code(n), Config(0, [], state))
  }

  /** The VM run on the same code again and again. */
  function Rerun<S(!new)>(m: Machine<S>, n: Node, count: nat, state: S): S {
    if count == 0 then state else Rerun(m, n, count - 1, Final(m, n, state))
  }

  function Alone(n: Node): Node
    requires n.Node?
  {
    n.(next := Nil)
  }

  /** The first instruction of a compiled check tests; if the test passes its body runs
      once, and if not nothing does. */
  lemma CheckLaw<S(!new)>(m: Machine<S>, n: Node, state: S)
    requires n.Node? && n.kind == CheckNode && RepeatDepth(Alone(n)) <= MAX_REPEAT
    ensures Code(n) != [] && Code(n)[0] == CheckInstr(n)
    ensures var result := m.test(state, CheckInstr(n));
            Final(m, Alone(n), state) == if result.0 then Final(m, n.body, result.1) else result.1
  {
    hide Run, Inv, Code, CheckInstr, RepeatDepth, ExecuteTimes;
    CodeStarts(n);
    CheckIsNotPrimitive();
    DepthParts(Alone(n));
    CompilerCorrect(m, Alone(n), state);
    var result := m.test(state, CheckInstr(n));
    CompilerCorrect(m, n.body, result.1);
    assert CheckInstr(Alone(n)) == CheckInstr(n) by { SameCheck(n); }
    assert Execute(m, Alone(n), state) == ExecuteOne(m, Alone(n), state);
  }

  lemma CodeStarts(n: Node)
    requires n.Node? && n.kind == CheckNode
    ensures Code(n) != [] && Code(n)[0] == CheckInstr(n)
  {
    CheckIsNotPrimitive();
  }

  lemma SameCheck(n: Node)
    requires n.Node?
    ensures CheckInstr(Alone(n)) == CheckInstr(n)
  {
  }

  lemma CheckIsNotPrimitive()
    ensures !IsPrimitive(CheckNode)
  {
  }

  /** A compiled repeat runs its body as many times as its number says, not at all if it
      is not positive. */
  lemma RepeatLaw<S(!new)>(m: Machine<S>, n: Node, state: S)
    requires n.Node? && n.kind == RepeatNode && RepeatDepth(Alone(n)) <= MAX_REPEAT
    ensures var times := if Atoi(n.value) > 0 then Atoi(n.value) else 0;
            Final(m, Alone(n), state) == Rerun(m, n.body, times, state)
  {
    hide Run, Inv, Code, RepeatDepth, Atoi, Execute, ExecuteTimes, Rerun, Count, RepeatInstr, IsPrimitive;
    DepthParts(Alone(n));
    CompilerCorrect(m, Alone(n), state);
    RepeatExecutes(m, n, state);
    CountIsNumber(n);
    if Count(n) > 0 {
      TimesIsRerun(m, n.body, state, Count(n));
    } else {
      NoReruns(m, n.body, state);
    }
  }

  lemma RepeatExecutes<S>(m: Machine<S>, n: Node, state: S)
    requires n.Node? && n.kind == RepeatNode
    ensures Execute(m, Alone(n), state) == ExecuteTimes(m, n.body, state, Count(n))
  {
    hide ExecuteTimes, Atoi;
    RepeatIsNotPrimitive();
    assert Execute(m, Alone(n), state) == ExecuteOne(m, Alone(n), state);
  }

  lemma CountIsNumber(n: Node)
    requires n.Node?
    ensures Count(n) == if Atoi(n.value) > 0 then Atoi(n.value) else 0
    ensures Count(Alone(n)) == Count(n)
  {
    hide Atoi;
  }

  lemma NoReruns<S(!new)>(m: Machine<S>, body: Node, state: S)
    ensures ExecuteTimes(m, body, state, 0) == state == Rerun(m, body, 0, state)
  {
    hide Run, Inv, Code;
  }

  lemma {:induction false} TimesIsRerun<S(!new)>(m: Machine<S>, body: Node, state: S, count: nat)
    requires RepeatDepth(body) <= MAX_REPEAT
    ensures ExecuteTimes(m, body, state, count) == Rerun(m, body, count, state)
  {
    hide Run, Inv, Code, RepeatDepth;
    if count > 0 {
      CompilerCorrect(m, body, state);
      TimesIsRerun(m, body, Final(m, body, state), count - 1);
    }
  }

  /** Statements run in order. */
  lemma SequenceLaw<S(!new)>(m: Machine<S>, n: Node, state: S)
    requires n.Node? && RepeatDepth(n) <= MAX_REPEAT
    ensures Final(m, n, state) == Final(m, n.next, Final(m, Alone(n), state))
  {
    hide Run, Inv, Code;
    CompilerCorrect(m, n, state);
    CompilerCorrect(m, Alone(n), state);
    CompilerCorrect(m, n.next, Execute(m, Alone(n), state));
    SameAlone(m, n, state);
  }

  lemma SameAlone<S>(m: Machine<S>, n: Node, state: S)
    requires n.Node?
    ensures Execute(m, Alone(n), state) == ExecuteOne(m, n, state)
  {
    hide CheckInstr, RepeatInstr, PrimitiveInstr, ExecuteTimes;
    assert Execute(m, Alone(n), state) == ExecuteOne(m, Alone(n), state);
    SameCheck(n);
    SameInstr(n);
  }

  lemma SameInstr(n: Node)
    requires n.Node?
    ensures RepeatInstr(Alone(n)) == RepeatInstr(n)
    ensures IsPrimitive(n.kind) ==> PrimitiveInstr(Alone(n)) == PrimitiveInstr(n)
  {
  }

  /** A statement without a body is one instruction, and has its effect. */
  lemma PrimitiveLaw<S(!new)>(m: Machine<S>, n: Node, state: S)
    requires n.Node? && IsPrimitive(n.kind) && RepeatDepth(Alone(n)) <= MAX_REPEAT
    ensures Final(m, Alone(n), state) == m.effect(state, PrimitiveInstr(n))
  {
    hide Run, Inv, Code, PrimitiveInstr;
    CompilerCorrect(m, Alone(n), state);
    SameAlone(m, n, state);
  }

  // ----- past the bound -----

  /** A statement inside `k` repeats of one iteration each. */
  function Nest(k: nat, inner: Node): Node {
    if k == 0 then inner else Node(RepeatNode, "1", Nil, Nil, Nest(k - 1, inner), Nil)
  }

  lemma OneIteration(k: nat, inner: Node)
    requires k > 0
    ensures Count(Nest(k, inner)) == 1
  {
    assert Atoi("1") == Digits("1", 0) == 1;
  }

  /** Structured execution reaches the innermost statement at any depth. */
  lemma {:induction false} NestExecutes<S>(m: Machine<S>, k: nat, inner: Node, state: S)
    ensures Execute(m, Nest(k, inner), state) == Execute(m, inner, state)
  {
    hide Count, RepeatInstr, IsPrimitive;
    if k > 0 {
      OneIteration(k, inner);
      RepeatIsNotPrimitive();
      OneTime(m, Nest(k - 1, inner), state, 0);
      NestExecutes(m, k - 1, inner, state);
    }
  }

  /** With a 65th repeat inside, the VM stops with an overflow and never reaches
      the statement that structured execution runs. */
  lemma {:induction false} TooDeepAborts<S>(m: Machine<S>, k: nat, inner: Node, state: S, depth: nat)
    requires depth <= MAX_REPEAT < depth + k
    ensures Bounded(m, Nest(k, inner), state, depth) == Aborted(m.fault(state, StackOverflow))
    ensures Execute(m, Nest(k, inner), state) == Execute(m, inner, state)
  {
    hide Count, RepeatInstr, IsPrimitive;
    var n := Nest(k, inner);
    OneIteration(k, inner);
    assert !IsPrimitive(RepeatNode) by { RepeatIsNotPrimitive(); }
    OneTime(m, Nest(k - 1, inner), state, depth + 1);
    NestExecutes(m, k, inner, state);
    assert Bounded(m, n, state, depth).state == BoundedOne(m, n, state, depth).state;
    if depth < MAX_REPEAT {
      TooDeepAborts(m, k - 1, inner, state, depth + 1);
    }
  }

  lemma RepeatIsNotPrimitive()
    ensures !IsPrimitive(RepeatNode)
  {
  }

  lemma OneTime<S>(m: Machine<S>, body: Node, state: S, depth: nat)
    ensures ExecuteTimes(m, body, state, 1) == Execute(m, body, state)
    ensures BoundedTimes(m, body, state, depth, 1) == Bounded(m, body, state, depth)
  {
  }

  // ----- the bound is exact -----

  /** Every check passes, nothing changes the state, and a fault leaves one. */
  const TRIP: Machine<int> := Machine((s, i) => s, (s, i) => (true, s), (s, f) => 1)

  function Tripped(depth: nat, inside: nat): Outcome<int> {
    if depth + inside <= MAX_REPEAT then Done(0) else Aborted(1)
  }

  lemma {:induction false} TripAtDepth(n: Node, depth: nat)
    requires depth <= MAX_REPEAT
    ensures Bounded(TRIP, n, 0, depth) == Tripped(depth, RepeatDepth(n))
    decreases n, 1, 0
  {
    hide BoundedOne;
    if n.Node? {
      TripOne(n, depth);
      TripAtDepth(n.next, depth);
    }
  }

  /** The part of `RepeatDepth` that a statement itself contributes. */
  function DepthHere(n: Node): nat
    requires n.Node?
  {
    if n.kind == RepeatNode && Count(n) > 0 then RepeatDepth(n.body) + 1
    else if n.kind in {CheckNode, BlockNode} then RepeatDepth(n.body) else 0
  }

  lemma {:induction false} TripOne(n: Node, depth: nat)
    requires n.Node? && depth <= MAX_REPEAT
    ensures BoundedOne(TRIP, n, 0, depth) == Tripped(depth, DepthHere(n))
    decreases n, 0, 0
  {
    hide Bounded, BoundedTimes, RepeatDepth, Count, CheckInstr, PrimitiveInstr;
    if n.kind in {CheckNode, BlockNode} {
      TripAtDepth(n.body, depth);
    } else if n.kind == RepeatNode && Count(n) > 0 && depth < MAX_REPEAT {
      TripTimes(n.body, depth + 1, Count(n));
    }
  }

  lemma {:induction false} TripTimes(body: Node, depth: nat, count: nat)
    requires depth <= MAX_REPEAT && count > 0
    ensures BoundedTimes(TRIP, body, 0, depth, count) == Tripped(depth, RepeatDepth(body))
    decreases body, 2, count
  {
    hide Bounded, RepeatDepth;
    TripAtDepth(body, depth);
    if count > 1 {
      TripTimes(body, depth, count - 1);
    }
  }

  lemma {:induction false} TripExecutes(n: Node)
    ensures Execute(TRIP, n, 0) == 0
    decreases n, 1, 0
  {
    hide CheckInstr, PrimitiveInstr, Count;
    if n.Node? {
      TripExecutes(n.body);
      if n.kind == RepeatNode {
        TripExecutesTimes(n.body, Count(n));
      }
      TripExecutes(n.next);
    }
  }

  lemma {:induction false} TripExecutesTimes(body: Node, count: nat)
    requires Execute(TRIP, body, 0) == 0
    ensures ExecuteTimes(TRIP, body, 0, count) == 0
  {
    if count > 0 {
      TripExecutesTimes(body, count - 1);
    }
  }

  /** Running the code of a tree is structured execution. */
  ghost predicate RunsAsWritten(n: Node, m: Machine<int>, state: int) {
    Inv(Code(n), [], 0) && Run(m, Code(n), Config(0, [], state)) == Execute(m, n, state)
  }

  /** Sixty-four open repeats is exactly the bound: the VM agrees with structured
      execution on every machine and state if and only if no more can be open. */
  lemma CorrectExactly(n: Node)
    ensures RepeatDepth(n) <= MAX_REPEAT <==> forall m: Machine<int>, state: int :: RunsAsWritten(n, m, state)
    ensures RepeatDepth(n) <= MAX_REPEAT <==> forall m: Machine<int>, state: int :: Bounded(m, n, state, 0).Done?
  {
    hide Run, Inv, Code, Execute, Bounded, RepeatDepth;
    if RepeatDepth(n) <= MAX_REPEAT {
      forall m: Machine<int>, state: int
        ensures RunsAsWritten(n, m, state) && Bounded(m, n, state, 0).Done?
      {
        CompilerCorrect(m, n, state);
        BoundedIsExecute(m, n, state, 0);
      }
    } else {
      TripAtDepth(n, 0);
      TripExecutes(n);
      CompiledCodeRuns(TRIP, n, 0);
      assert !RunsAsWritten(n, TRIP, 0) && !Bounded(TRIP, n, 0, 0).Done?;
    }
  }
}
