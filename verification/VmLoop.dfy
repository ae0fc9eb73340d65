/** The VM's fetch loop with its three repeat arrays, refining `ByteVm.Run`. */
module VmLoop {
  import opened Bytecode
  import opened ByteVm

  /** `repeat_start`, `repeat_end`, `repeat_left` and `repeat_sp`. */
  class RepeatStack {
    const starts: array<nat>
    const ends: array<nat>
    const lefts: array<int>
    var sp: nat

    constructor ()
      ensures Valid() && Frames() == []
      ensures fresh(starts) && fresh(ends) && fresh(lefts)
    {
      starts := new nat[MAX_REPEAT](_ => 0);
      ends := new nat[MAX_REPEAT](_ => 0);
      lefts := new int[MAX_REPEAT](_ => 0);
      sp := 0;
    }

    ghost predicate Valid()
      reads this
    {
      && starts.Length == ends.Length == lefts.Length == MAX_REPEAT
      && starts != ends
      && sp <= MAX_REPEAT
    }

    ghost function Frames(): (fs: seq<Frame>)
      reads this, starts, ends, lefts
      requires Valid()
      ensures |fs| == sp
      ensures forall k | 0 <= k < sp :: fs[k] == Frame(starts[k], ends[k], lefts[k])
    {
      seq(sp, k requires Valid() && 0 <= k < sp reads this, starts, ends, lefts =>
        Frame(starts[k], ends[k], lefts[k]))
    }

    method Push(start: nat, end: nat, left: int)
      requires Valid() && sp < MAX_REPEAT
      modifies this, starts, ends, lefts
      ensures Valid() && Frames() == old(Frames()) + [Frame(start, end, left)]
    {
      starts[sp] := start;
      ends[sp] := end;
      lefts[sp] := left;
      sp := sp + 1;
    }

    /** One iteration of the innermost repeat is over; `again` if another one is due. */
    method CountDown() returns (again: bool)
      requires Valid() && sp > 0
      modifies this, lefts
      ensures Valid()
      ensures again == (Peek(old(Frames())).left - 1 > 0)
      ensures var f := Peek(old(Frames()));
              Frames() == Pop(old(Frames())) + (if again then [f.(left := f.left - 1)] else [])
    {
      lefts[sp - 1] := lefts[sp - 1] - 1;
      again := lefts[sp - 1] > 0;
      if !again {
        sp := sp - 1;
      }
    }
  }

  /** The forward scan of REPEAT. */
  method ScanForEnd(code: seq<Instr>, pc: nat) returns (end: nat)
    requires pc < |code|
    ensures end == FindEnd(code, pc + 1, 0)
  {
    var depth := 0;
    var i := pc + 1;
    while i < |code|
      invariant pc < i <= |code|
      invariant FindEnd(code, i, depth) == FindEnd(code, pc + 1, 0)
    {
      if Opens(code[i]) {
        depth := depth + 1;
      }
      if code[i].op == OpEnd {
        if depth == 0 {
          return i;
        }
        depth := depth - 1;
      }
      i := i + 1;
    }
    end := |code|;
  }

  /** The skip loop of a failed CHECK moves the program counter itself. */
  method SkipBlock(code: seq<Instr>, from: nat) returns (pc: nat)
    requires from < |code|
    ensures var end := FindEnd(code, from + 1, 0);
            pc == if end < |code| then end else |code| - 1
  {
    var depth := 0;
    pc := from;
    while pc + 1 < |code|
      invariant from <= pc < |code|
      invariant FindEnd(code, pc + 1, depth) == FindEnd(code, from + 1, 0)
    {
      pc := pc + 1;
      if Opens(code[pc]) {
        depth := depth + 1;
      }
      if code[pc].op == OpEnd {
        if depth == 0 {
          return;
        }
        depth := depth - 1;
      }
    }
  }

  /** One pass through the `switch`; the caller adds one to `pc`. */
  method Dispatch<S>(m: Machine<S>, code: seq<Instr>, at: nat, repeats: RepeatStack, before: S)
    returns (running: bool, pc: nat, state: S)
    requires at < |code| && repeats.Valid() && Inv(code, repeats.Frames(), at)
    modifies repeats, repeats.starts, repeats.ends, repeats.lefts
    ensures repeats.Valid()
    ensures var next := Step(m, code, Config(at, old(repeats.Frames()), before));
            && running == next.Running?
            && state == (if running then next.config.state else next.state)
            && (running ==> next.config.pc == pc + 1 && next.config.stack == repeats.Frames())
  {
    hide FindEnd, Inv;
    var ins := code[at];
    running, pc, state := true, at, before;
    match ins.op
    case OpCheck =>
      var pass;
      var result := m.test(before, ins);
      pass, state := result.0, result.1;
      if !pass {
        pc := SkipBlock(code, at);
      }
    case OpRepeat =>
      var end := ScanForEnd(code, at);
      EndIsEnd(code, at + 1);
      if end == |code| {
        return false, at, m.fault(before, MissingEnd);
      }
      if ins.value <= 0 {
        pc := end;
      } else if repeats.sp >= MAX_REPEAT {
        return false, at, m.fault(before, StackOverflow);
      } else {
        repeats.Push(at, end, ins.value);
      }
    case OpBlock =>
    case OpEnd =>
      if repeats.sp > 0 && at == repeats.ends[repeats.sp - 1] {
        var start := repeats.starts[repeats.sp - 1];
        var again := repeats.CountDown();
        if again {
          pc := start;
        }
      }
    case OpUnknown =>
      running, state := false, m.fault(before, UnknownOpcode);
    case _ =>
      state := m.effect(before, ins);
  }

  /** The VM halts on every instruction sequence, in the state that `Run` gives. */
  method RunBytecode<S>(m: Machine<S>, code: seq<Instr>, initial: S) returns (state: S)
    ensures Inv(code, [], 0) && state == Run(m, code, Config(0, [], initial))
  {
    hide Step, Inv, Rank;
    StartsNested(code);
    var repeats := new RepeatStack();
    var pc: nat := 0;
    state := initial;
    while pc < |code|
      invariant fresh(repeats) && fresh(repeats.starts) && fresh(repeats.ends) && fresh(repeats.lefts)
      invariant repeats.Valid() && Inv(code, repeats.Frames(), pc)
      invariant Run(m, code, Config(pc, repeats.Frames(), state)) == Run(m, code, Config(0, [], initial))
      decreases Rank(code, repeats.Frames(), pc)
    {
      StepLowersRank(m, code, Config(pc, repeats.Frames(), state));
      var running;
      running, pc, state := Dispatch(m, code, pc, repeats, state);
      if !running {
        return;
      }
      pc := pc + 1;
    }
    EndsAtCount(code, repeats.Frames(), pc);
  }

  lemma StartsNested(code: seq<Instr>)
    ensures Inv(code, [], 0)
  {
  }

  lemma EndsAtCount(code: seq<Instr>, stack: seq<Frame>, pc: nat)
    requires Inv(code, stack, pc)
    ensures pc <= |code|
  {
  }
}
