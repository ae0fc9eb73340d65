/** From tokens to the final state: parser, compiler and VM in sequence. */
module Pipeline {
  import opened Ast
  import opened Bytecode
  import opened Compiler
  import opened Parser
  import ByteVm
  import VmLoop
  import CompilerCorrect

  /** The links the compiler follows untested are present in every parsed tree. */
  lemma {:induction false} ParsedTreesCompile(n: Node)
    requires WellFormed(n)
    ensures Compilable(n)
  {
    if n.Node? {
      ParsedTreesCompile(n.next);
      if n.kind == CheckNode || n.kind == RepeatNode {
        ParsedTreesCompile(n.body.body);
        BlockCompiles(n.body);
      }
    }
  }

  lemma BlockCompiles(b: Node)
    requires IsBlock(b) && Compilable(b.body)
    ensures Compilable(b)
  {
  }

  /** On any token array that parses and whose code fits, the whole pipeline
      leaves the state that bounded structured execution of the tree leaves. */
  method RunTokens<S(!new)>(m: ByteVm.Machine<S>, toks: seq<Token>, initial: S) returns (state: S)
    requires Stmts(toks, 0, true).Got?
    requires |Code(Stmts(toks, 0, true).node)| <= MAX_INSTR
    ensures state == CompilerCorrect.Bounded(m, Stmts(toks, 0, true).node, initial, 0).state
  {
    hide Stmts, Code, CompilerCorrect.Bounded, ByteVm.Run, Compilable, ByteVm.Inv;
    var cursor := new Cursor(toks);
    var program := cursor.Parse();
    ParsedIsWellFormed(toks, 0, true);
    ParsedTreesCompile(program.body);
    var emitter := new Emitter();
    emitter.Compile(program.body);
    var code := emitter.bytecode[..emitter.count];
    assert code == Code(program.body);
    state := VmLoop.RunBytecode(m, code, initial);
    CompilerCorrect.CompiledCodeRuns(m, program.body, initial);
  }

  // ----- bytecode read off the tokens -----

  /** How many tokens an instruction, a brace or any other token takes. */
  function Width(kind: TokenType): (w: nat)
    ensures w > 0
  {
    match kind
    case TokSay | TokQmsg | TokEncode | TokDecode | TokHadamard | TokMeasure | TokAction => 2
    case TokEntangle | TokCnot | TokRepeat => 3
    case TokLet | TokQbit => 4
    case TokCheck => 5
    case _ => 1
  }

  /** The instruction that the first tokens spell; a closing brace is an END. */
  function Spelled(toks: seq<Token>): seq<Instr>
    requires toks != [] && |toks| >= Width(toks[0].kind)
  {
    match toks[0].kind
    case TokSay => [Instr(OpSay, toks[1].value, "", 0)]
    case TokQmsg => [Instr(OpQmsg, toks[1].value, "", 0)]
    case TokEncode => [Instr(OpEncodeQmsg, toks[1].value, "", 0)]
    case TokDecode => [Instr(OpDecodeQmsg, toks[1].value, "", 0)]
    case TokHadamard => [Instr(OpHadamard, toks[1].value, "", 0)]
    case TokMeasure => [Instr(OpMeasure, toks[1].value, "", 0)]
    case TokAction => [Instr(OpSafeAction, toks[1].value, "", 0)]
    case TokEntangle => [Instr(OpEntangle, toks[1].value, toks[2].value, 0)]
    case TokCnot => [Instr(OpCnot, toks[1].value, toks[2].value, 0)]
    case TokLet => [Instr(OpLet, toks[1].value, toks[3].value, 0)]
    case TokQbit => [Instr(OpQbit, toks[1].value, toks[3].value, 0)]
    case TokCheck => [Instr(OpCheck, toks[1].value, toks[2].value, Atoi(toks[3].value))]
    case TokRepeat => [Instr(OpRepeat, "", "", Atoi(toks[1].value))]
    case TokRBrace => [Instr(OpEnd, "", "", 0)]
    case _ => []
  }

  /** The instructions that a token array spells from left to right. */
  function Transcribe(toks: seq<Token>): seq<Instr>
    decreases |toks|
  {
    if toks == [] || |toks| < Width(toks[0].kind) then []
    else Spelled(toks) + Transcribe(toks[Width(toks[0].kind)..])
  }

  lemma TranscribeNext(first: seq<Token>, rest: seq<Token>)
    requires first != [] && |first| == Width(first[0].kind)
    ensures Transcribe(first + rest) == Spelled(first) + Transcribe(rest)
  {
    hide Atoi;
    assert (first + rest)[|first|..] == rest;
    assert Spelled(first + rest) == Spelled(first);
  }

  lemma SimpleIsSpelled(n: Node)
    requires n.Node? && IsSimple(n)
    ensures |RenderSimple(n)| == Width(RenderSimple(n)[0].kind)
    ensures Spelled(RenderSimple(n)) == Head(n)
  {
    hide Lexeme, Atoi, Code;
  }

  lemma {:induction false} StmtIsTranscribed(n: Node, rest: seq<Token>)
    requires n.Node? && WellFormedStmt(n)
    ensures Transcribe(RenderStmt(n) + rest) == Head(n) + Transcribe(rest)
    decreases n, 0
  {
    hide Transcribe, Spelled, Width, RenderSimple, IsSimple, Lexeme, Atoi, Code, WellFormed, RenderBlock;
    if n.kind == CheckNode {
      CheckIsTranscribed(n, rest);
    } else if n.kind == RepeatNode {
      RepeatIsTranscribed(n, rest);
    } else {
      SimpleIsSpelled(n);
      TranscribeNext(RenderSimple(n), rest);
    }
  }

  lemma {:induction false} CheckIsTranscribed(n: Node, rest: seq<Token>)
    requires n.Node? && n.kind == CheckNode && WellFormedStmt(n)
    ensures Transcribe(RenderStmt(n) + rest) == Head(n) + Transcribe(rest)
    decreases n.body, 3
  {
    hide Transcribe, Atoi, Lexeme, WellFormed, Render, Code;
    var open := [Word(TokCheck), Token(TokIdent, n.left.left.value), Token(TokOperator, n.left.value),
                 Token(TokNumber, n.left.right.value), Word(TokLBrace)];
    var inner := Render(n.body.body);
    assert RenderStmt(n) + rest == open + (inner + ([Word(TokRBrace)] + rest));
    TranscribeNext(open, inner + ([Word(TokRBrace)] + rest));
    BodyIsTranscribed(n.body, rest);
    CheckIsPrimitiveNot();
  }

  lemma {:induction false} RepeatIsTranscribed(n: Node, rest: seq<Token>)
    requires n.Node? && n.kind == RepeatNode && WellFormedStmt(n)
    ensures Transcribe(RenderStmt(n) + rest) == Head(n) + Transcribe(rest)
    decreases n.body, 3
  {
    hide Transcribe, Atoi, Lexeme, WellFormed, Render, Code;
    var open := [Word(TokRepeat), Token(TokNumber, n.value), Word(TokLBrace)];
    var inner := Render(n.body.body);
    assert RenderStmt(n) + rest == open + (inner + ([Word(TokRBrace)] + rest));
    TranscribeNext(open, inner + ([Word(TokRBrace)] + rest));
    BodyIsTranscribed(n.body, rest);
    CheckIsPrimitiveNot();
  }

  lemma CheckIsPrimitiveNot()
    ensures !IsPrimitive(CheckNode) && !IsPrimitive(RepeatNode) && !IsPrimitive(BlockNode)
  {
  }

  /** A body and its closing brace. */
  lemma {:induction false} BodyIsTranscribed(block: Node, rest: seq<Token>)
    requires IsBlock(block) && WellFormed(block.body)
    ensures Transcribe(Render(block.body) + ([Word(TokRBrace)] + rest)) == Code(block) + [END] + Transcribe(rest)
    decreases block, 2
  {
    hide Transcribe, Lexeme, WellFormed, Render;
    ChainIsTranscribed(block.body, [Word(TokRBrace)] + rest);
    TranscribeNext([Word(TokRBrace)], rest);
    BlockCode(block);
  }

  lemma BlockCode(block: Node)
    requires IsBlock(block)
    ensures Code(block) == Code(block.body)
  {
    CheckIsPrimitiveNot();
    assert Code(Nil) == [];
  }

  /** The bytecode of a tree is what its tokens spell. */
  lemma {:induction false} ChainIsTranscribed(n: Node, rest: seq<Token>)
    requires WellFormed(n)
    ensures Transcribe(Render(n) + rest) == Code(n) + Transcribe(rest)
    decreases n, 1
  {
    hide Transcribe, RenderStmt, Head, WellFormedStmt;
    if n.Nil? {
      assert [] + rest == rest;
    } else {
      assert Render(n) + rest == RenderStmt(n) + (Render(n.next) + rest);
      StmtIsTranscribed(n, Render(n.next) + rest);
      ChainIsTranscribed(n.next, rest);
    }
  }

  lemma CodeIsSpelled(n: Node)
    requires WellFormed(n)
    ensures Code(n) == Transcribe(Render(n))
  {
    hide Code, Render, WellFormed;
    ChainIsTranscribed(n, []);
    assert Render(n) + [] == Render(n);
  }

  /** Writing a tree down, parsing, compiling and running it executes that tree. */
  lemma SourceExecutesItsTree<S(!new)>(m: ByteVm.Machine<S>, n: Node, eof: Token, initial: S)
    requires WellFormed(n) && eof.kind == TokEof
    requires CompilerCorrect.RepeatDepth(n) <= ByteVm.MAX_REPEAT
    ensures var parsed := Stmts(Render(n) + [eof], 0, true);
            && parsed.Got?
            && Code(parsed.node) == Transcribe(Render(n))
            && ByteVm.Inv(Code(parsed.node), [], 0)
            && ByteVm.Run(m, Code(parsed.node), ByteVm.Config(0, [], initial)) == CompilerCorrect.Execute(m, n, initial)
  {
    hide Stmts, Code, ByteVm.Run, ByteVm.Inv, CompilerCorrect.Execute, CompilerCorrect.RepeatDepth;
    ParseInvertsRender(n, eof);
    CodeIsSpelled(n);
    CompilerCorrect.CompilerCorrect(m, n, initial);
  }
}
