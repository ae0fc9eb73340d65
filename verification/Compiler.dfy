/** The compiler: a walk over the tree that appends to the instruction array. */
module Compiler {
  import opened Ast
  import opened Bytecode

  const END := Instr(OpEnd, "", "", 0)

  function CheckInstr(n: Node): Instr
    requires n.Node?
  {
    if n.left.Node? && n.left.left.Node? && n.left.right.Node?
    then Instr(OpCheck, n.left.left.value, n.left.value, Atoi(n.left.right.value))
    else Instr(OpCheck, "", "", 0)
  }

  function RepeatInstr(n: Node): Instr
    requires n.Node?
  {
    Instr(OpRepeat, "", "", Atoi(n.value))
  }

  /** The statements that compile to one instruction without a body. */
  predicate IsPrimitive(k: Kind) {
    k in {SayNode, LetNode, QbitNode, HadamardNode, MeasureNode, EntangleNode, CnotNode,
          QmsgNode, EncodeNode, DecodeNode, ActionNode}
  }

  function PrimitiveInstr(n: Node): (i: Instr)
    requires n.Node? && IsPrimitive(n.kind)
    ensures i.op !in {OpCheck, OpRepeat, OpBlock, OpEnd, OpUnknown}
  {
    match n.kind
    case SayNode => Instr(OpSay, Text(n.left), "", 0)
    case LetNode => Instr(OpLet, n.value, Text(n.left), 0)
    case QbitNode => Instr(OpQbit, n.value, Text(n.left), 0)
    case HadamardNode => Instr(OpHadamard, n.value, "", 0)
    case MeasureNode => Instr(OpMeasure, n.value, "", 0)
    case EntangleNode => Instr(OpEntangle, n.value, Text(n.left), 0)
    case CnotNode => Instr(OpCnot, n.value, Text(n.left), 0)
    case QmsgNode => Instr(OpQmsg, Text(n.left), "", 0)
    case EncodeNode => Instr(OpEncodeQmsg, n.value, "", 0)
    case DecodeNode => Instr(OpDecodeQmsg, n.value, "", 0)
    case ActionNode => Instr(OpSafeAction, n.value, "", 0)
  }

  /** The code of the statement `n` itself, without the ones chained after it. */
  function Head(n: Node): seq<Instr>
    requires n.Node?
    decreases n, 0
  {
    if IsPrimitive(n.kind) then [PrimitiveInstr(n)]
    else if n.kind == CheckNode then [CheckInstr(n)] + Code(n.body) + [END]
    else if n.kind == RepeatNode then [RepeatInstr(n)] + Code(n.body) + [END]
    else if n.kind == BlockNode then Code(n.body)
    else []
  }

  function Code(n: Node): seq<Instr>
    decreases n, 1
  {
    if n.Nil? then [] else Head(n) + Code(n.next)
  }

  /** The links that the compiler follows without testing them. */
  predicate Compilable(n: Node) {
    n.Nil? || (
      && (n.kind in {SayNode, LetNode, QbitNode} ==> n.left.Node?)
      && Compilable(n.body)
      && Compilable(n.next))
  }

  class Emitter {
    const bytecode: array<Instr>
    var count: nat

    constructor ()
      ensures Valid() && fresh(bytecode) && Emitted() == []
    {
      bytecode := new Instr[MAX_INSTR](_ => END);
      count := 0;
    }

    ghost predicate Valid()
      reads this
    {
      bytecode.Length == MAX_INSTR && count <= MAX_INSTR
    }

    ghost function Emitted(): seq<Instr>
      reads this, bytecode
      requires Valid()
    {
      bytecode[..count]
    }

    /** There is no bound check in the source: the caller keeps within the array. */
    method Emit(i: Instr)
      requires Valid() && count < MAX_INSTR
      modifies this, bytecode
      ensures Valid() && Emitted() == old(Emitted()) + [i]
    {
      bytecode[count] := i;
      count := count + 1;
    }

    /** Compiling only appends, and appends exactly `Code(n)`. */
    method Compile(n: Node)
      requires Valid() && Compilable(n) && count + |Code(n)| <= MAX_INSTR
      modifies this, bytecode
      ensures Valid() && Emitted() == old(Emitted()) + Code(n)
      decreases n, 1
    {
      hide Head;
      if n.Node? {
        CompileHead(n);
        Compile(n.next);
      }
    }

    /** The `switch` on the node's type. */
    method CompileHead(n: Node)
      requires Valid() && n.Node? && Compilable(n) && count + |Head(n)| <= MAX_INSTR
      modifies this, bytecode
      ensures Valid() && Emitted() == old(Emitted()) + Head(n)
      decreases n, 0
    {
      hide CheckInstr, RepeatInstr, PrimitiveInstr, IsPrimitive, Code;
      if IsPrimitive(n.kind) {
        Emit(PrimitiveInstr(n));
      } else if n.kind == CheckNode {
        CompileBlock(CheckInstr(n), n.body);
      } else if n.kind == RepeatNode {
        CompileBlock(RepeatInstr(n), n.body);
      } else if n.kind == BlockNode {
        Compile(n.body);
      }
    }

    /** An opener, the body, and its END. */
    method CompileBlock(open: Instr, body: Node)
      requires Valid() && Compilable(body) && count + |Code(body)| + 2 <= MAX_INSTR
      modifies this, bytecode
      ensures Valid() && Emitted() == old(Emitted()) + ([open] + Code(body) + [END])
      decreases body, 2
    {
      hide Code;
      Emit(open);
      Compile(body);
      Emit(END);
    }
  }
}
