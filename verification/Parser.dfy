/** The recursive-descent parser over a token array. */
module Parser {
  import opened Ast

  datatype TokenType =
    | TokSay | TokLet | TokCheck | TokOtherwise | TokRepeat | TokAction | TokQbit | TokHadamard
    | TokMeasure | TokEntangle | TokCnot | TokQmsg | TokEncode | TokDecode
    | TokState | TokOperator | TokEq | TokIdent | TokNumber | TokString
    | TokLBrace | TokRBrace | TokDirective | TokEof | TokUnknown

  datatype Token = Token(kind: TokenType, value: string)

  /** A parse result and the cursor after it; `Overrun` when the source would
      read past the end of the token array. */
  datatype Parsed = Overrun | Got(node: Node, pos: nat)

  // ----- what the parser builds -----

  function Operand(t: Token): Node {
    Leaf(if t.kind == TokString then StringNode else IdentNode, t.value)
  }

  function Comparison(a: Token, op: Token, b: Token): Node {
    Node(BinOpNode, op.value, Leaf(IdentNode, a.value), Leaf(NumberNode, b.value), Nil, Nil)
  }

  /** The kind of a statement that is a keyword followed by one name. */
  function NamedKind(t: TokenType): Kind {
    match t
    case TokEncode => EncodeNode
    case TokDecode => DecodeNode
    case TokHadamard => HadamardNode
    case TokMeasure => MeasureNode
    case _ => ActionNode
  }

  predicate IsNamed(t: TokenType) {
    t in {TokEncode, TokDecode, TokHadamard, TokMeasure, TokAction}
  }

  /** A statement without a block. */
  function Simple(toks: seq<Token>, p: nat): (r: Parsed)
    requires p < |toks|
    ensures r.Got? ==> p < r.pos && r.node.Node? && r.node.next == Nil
  {
    var t := toks[p].kind;
    if t == TokSay || t == TokQmsg then
      if p + 1 >= |toks| then Overrun
      else if t == TokSay then Got(Node(SayNode, "say", Operand(toks[p + 1]), Nil, Nil, Nil), p + 2)
      else Got(Node(QmsgNode, "qmsg", Operand(toks[p + 1]), Nil, Nil, Nil), p + 2)
    else if t == TokLet || t == TokQbit then
      if p + 3 >= |toks| then Overrun
      else if t == TokLet then
        Got(Node(LetNode, toks[p + 1].value, Leaf(NumberNode, toks[p + 3].value), Nil, Nil, Nil), p + 4)
      else
        Got(Node(QbitNode, toks[p + 1].value, Leaf(StateNode, toks[p + 3].value), Nil, Nil, Nil), p + 4)
    else if t == TokEntangle || t == TokCnot then
      if p + 2 >= |toks| then Overrun
      else Got(Node(if t == TokEntangle then EntangleNode else CnotNode, toks[p + 1].value,
                    Leaf(IdentNode, toks[p + 2].value), Nil, Nil, Nil), p + 3)
    else if IsNamed(t) then
      if p + 1 >= |toks| then Overrun
      else Got(Leaf(NamedKind(t), toks[p + 1].value), p + 2)
    else Got(Leaf(IdentNode, toks[p].value), p + 1)
  }

  function Stmt(toks: seq<Token>, p: nat): (r: Parsed)
    ensures r.Got? ==> p < r.pos && r.node.Node? && r.node.next == Nil
    decreases if p < |toks| then |toks| - p else 0, 0
  {
    if p >= |toks| then Overrun
    else if toks[p].kind == TokCheck then
      if p + 3 >= |toks| then Overrun
      else
        match Block(toks, p + 4)
        case Overrun => Overrun
        case Got(b, q) =>
          Got(Node(CheckNode, "check", Comparison(toks[p + 1], toks[p + 2], toks[p + 3]), Nil, b, Nil), q)
    else if toks[p].kind == TokRepeat then
      if p + 1 >= |toks| then Overrun
      else
        match Block(toks, p + 2)
        case Overrun => Overrun
        case Got(b, q) => Got(Node(RepeatNode, toks[p + 1].value, Nil, Nil, b, Nil), q)
    else Simple(toks, p)
  }

  /** The opening token is skipped unread, and so is the closing one. */
  function Block(toks: seq<Token>, p: nat): (r: Parsed)
    ensures r.Got? ==> p < r.pos && r.node.Node?
    decreases if p < |toks| then |toks| - p else 0, 2
  {
    if p >= |toks| then Overrun
    else
      match Stmts(toks, p + 1, false)
      case Overrun => Overrun
      case Got(body, q) => Got(Node(BlockNode, "block", Nil, Nil, body, Nil), q + 1)
  }

  /** Statements up to the end of the input, or also up to a closing brace when
      inside a block; directives are skipped only outside. */
  function Stmts(toks: seq<Token>, p: nat, top: bool): (r: Parsed)
    ensures r.Got? ==> p <= r.pos < |toks|
    decreases if p < |toks| then |toks| - p else 0, 1
  {
    if p >= |toks| then Overrun
    else if toks[p].kind == TokEof || (!top && toks[p].kind == TokRBrace) then Got(Nil, p)
    else if top && toks[p].kind == TokDirective then Stmts(toks, p + 1, top)
    else
      match Stmt(toks, p)
      case Overrun => Overrun
      case Got(s, q) =>
        match Stmts(toks, q, top)
        case Overrun => Overrun
        case Got(rest, e) => Got(s.(next := rest), e)
  }

  // ----- the parser object -----

  /** Statements linked through `next`, the last one to `rest`. */
  function Link(stmts: seq<Node>, rest: Node): Node
    requires forall s | s in stmts :: s.Node?
  {
    if stmts == [] then rest else stmts[0].(next := Link(stmts[1..], rest))
  }

  lemma {:induction false} LinkAppend(stmts: seq<Node>, s: Node, rest: Node)
    requires s.Node? && forall x | x in stmts :: x.Node?
    ensures forall x | x in stmts + [s] :: x.Node?
    ensures Link(stmts + [s], rest) == Link(stmts, s.(next := rest))
  {
    if stmts == [] {
      assert stmts + [s] == [s];
      assert Link([s][1..], rest) == rest;
    } else {
      assert (stmts + [s])[1..] == stmts[1..] + [s];
      LinkAppend(stmts[1..], s, rest);
    }
  }

  class Cursor {
    const toks: seq<Token>
    var pos: nat

    constructor (toks: seq<Token>)
      ensures this.toks == toks && pos == 0
    {
      this.toks := toks;
      pos := 0;
    }

    method ParseExpr() returns (op: Node)
      requires pos + 2 < |toks|
      modifies this
      ensures pos == old(pos) + 3
      ensures op == Comparison(toks[old(pos)], toks[old(pos) + 1], toks[old(pos) + 2])
    {
      var left := Leaf(IdentNode, toks[pos].value);
      pos := pos + 1;
      op := Leaf(BinOpNode, toks[pos].value);
      pos := pos + 1;
      var right := Leaf(NumberNode, toks[pos].value);
      pos := pos + 1;
      op := op.(left := left, right := right);
    }

    method ParseBlock() returns (block: Node)
      requires Block(toks, pos).Got?
      modifies this
      ensures Got(block, pos) == Block(toks, old(pos))
      decreases |toks| - pos, 2
    {
      hide Stmts, Stmt;
      pos := pos + 1;
      var body := ParseStmts(false);
      pos := pos + 1;
      block := Leaf(BlockNode, "block");
      block := block.(body := body);
    }

    /** The statement loop of a block, and of the whole program. */
    method ParseStmts(top: bool) returns (list: Node)
      requires Stmts(toks, pos, top).Got?
      modifies this
      ensures Got(list, pos) == Stmts(toks, old(pos), top)
      decreases |toks| - pos, 1
    {
      hide Stmt;
      var stmts: seq<Node> := [];
      ghost var goal := Stmts(toks, pos, top);
      while toks[pos].kind != TokEof && (top || toks[pos].kind != TokRBrace)
        invariant old(pos) <= pos < |toks| && Stmts(toks, pos, top).Got?
        invariant forall x | x in stmts :: x.Node?
        invariant goal == Got(Link(stmts, Stmts(toks, pos, top).node), Stmts(toks, pos, top).pos)
        decreases |toks| - pos
      {
        if top && toks[pos].kind == TokDirective {
          pos := pos + 1;
        } else {
          ghost var rest := Stmts(toks, Stmt(toks, pos).pos, top).node;
          var s := ParseStmt();
          LinkAppend(stmts, s, rest);
          stmts := stmts + [s];
        }
      }
      list := Link(stmts, Nil);
    }

    method ParseStmt() returns (n: Node)
      requires Stmt(toks, pos).Got?
      modifies this
      ensures Got(n, pos) == Stmt(toks, old(pos))
      decreases |toks| - pos, 0
    {
      hide Stmts, Block, Simple;
      if toks[pos].kind == TokCheck {
        pos := pos + 1;
        n := Leaf(CheckNode, "check");
        var expr := ParseExpr();
        var body := ParseBlock();
        n := n.(left := expr, body := body);
      } else if toks[pos].kind == TokRepeat {
        n := Leaf(RepeatNode, toks[pos + 1].value);
        pos := pos + 2;
        var body := ParseBlock();
        n := n.(body := body);
      } else {
        n := ParseSimple();
      }
    }

    method ParseSimple() returns (n: Node)
      requires pos < |toks| && Simple(toks, pos).Got?
      modifies this
      ensures Got(n, pos) == Simple(toks, old(pos))
    {
      var t := toks[pos];
      pos := pos + 1;
      if t.kind == TokSay || t.kind == TokQmsg {
        n := if t.kind == TokSay then Leaf(SayNode, "say") else Leaf(QmsgNode, "qmsg");
        n := n.(left := Operand(toks[pos]));
        pos := pos + 1;
      } else if t.kind == TokLet || t.kind == TokQbit {
        n := Leaf(if t.kind == TokLet then LetNode else QbitNode, toks[pos].value);
        pos := pos + 2;
        n := n.(left := Leaf(if t.kind == TokLet then NumberNode else StateNode, toks[pos].value));
        pos := pos + 1;
      } else if t.kind == TokEntangle || t.kind == TokCnot {
        n := Leaf(if t.kind == TokEntangle then EntangleNode else CnotNode, toks[pos].value);
        pos := pos + 1;
        n := n.(left := Leaf(IdentNode, toks[pos].value));
        pos := pos + 1;
      } else if IsNamed(t.kind) {
        n := Leaf(NamedKind(t.kind), toks[pos].value);
        pos := pos + 1;
      } else {
        n := Leaf(IdentNode, t.value);
      }
    }

    method Parse() returns (program: Node)
      requires pos == 0 && Stmts(toks, 0, true).Got?
      modifies this
      ensures program.Node? && program.kind == ProgramNode
      ensures Got(program.body, pos) == Stmts(toks, 0, true)
    {
      hide Stmts;
      var list := ParseStmts(true);
      program := Leaf(ProgramNode, "program");
      program := program.(body := list);
    }
  }

  // ----- rendering, and parsing as its inverse -----

  predicate IsLeaf(n: Node, k: Kind) {
    n.Node? && n == Leaf(k, n.value)
  }

  /** The chains of statements that the grammar describes. */
  predicate WellFormed(n: Node)
    decreases n, 1
  {
    n.Nil? || (WellFormedStmt(n) && WellFormed(n.next))
  }

  predicate IsBlock(n: Node) {
    n.Node? && n == Node(BlockNode, "block", Nil, Nil, n.body, Nil)
  }

  /** A statement without a block. */
  predicate IsSimple(n: Node)
    requires n.Node?
  {
    && n.right == Nil && n.body == Nil
    && match n.kind
       case SayNode => n.value == "say" && (IsLeaf(n.left, StringNode) || IsLeaf(n.left, IdentNode))
       case QmsgNode => n.value == "qmsg" && (IsLeaf(n.left, StringNode) || IsLeaf(n.left, IdentNode))
       case LetNode => IsLeaf(n.left, NumberNode)
       case QbitNode => IsLeaf(n.left, StateNode)
       case EntangleNode | CnotNode => IsLeaf(n.left, IdentNode)
       case EncodeNode | DecodeNode | HadamardNode | MeasureNode | ActionNode => n.left == Nil
       case IdentNode => n.left == Nil
       case _ => false
  }

  predicate IsComparison(n: Node) {
    && n.Node? && n == Node(BinOpNode, n.value, n.left, n.right, Nil, Nil)
    && IsLeaf(n.left, IdentNode) && IsLeaf(n.right, NumberNode)
  }

  predicate WellFormedStmt(n: Node)
    requires n.Node?
    decreases n, 0
  {
    if n.kind == CheckNode then
      n.value == "check" && IsComparison(n.left) && n.right == Nil && IsBlock(n.body) && WellFormed(n.body.body)
    else if n.kind == RepeatNode then
      n.left == Nil && n.right == Nil && IsBlock(n.body) && WellFormed(n.body.body)
    else
      IsSimple(n)
  }

  function OperandToken(n: Node): Token
    requires n.Node?
  {
    Token(if n.kind == StringNode then TokString else TokIdent, n.value)
  }

  /** The spelling of a keyword or mark. */
  function Lexeme(t: TokenType): string {
    match t
    case TokSay => "say"
    case TokQmsg => "qmsg"
    case TokLet => "let"
    case TokQbit => "qbit"
    case TokEntangle => "entangle"
    case TokCnot => "cnot"
    case TokCheck => "check"
    case TokRepeat => "repeat"
    case TokEncode => "encode"
    case TokDecode => "decode"
    case TokHadamard => "hadamard"
    case TokMeasure => "measure"
    case TokAction => "action"
    case TokEq => "="
    case TokLBrace => "{"
    case TokRBrace => "}"
    case _ => ""
  }

  function Word(t: TokenType): Token {
    Token(t, Lexeme(t))
  }

  function RenderSimple(n: Node): (r: seq<Token>)
    requires n.Node? && IsSimple(n)
    ensures |r| > 0 && r[0].kind !in {TokEof, TokRBrace, TokDirective, TokCheck, TokRepeat}
  {
    match n.kind
    case SayNode => [Word(TokSay), OperandToken(n.left)]
    case QmsgNode => [Word(TokQmsg), OperandToken(n.left)]
    case LetNode => [Word(TokLet), Token(TokIdent, n.value), Word(TokEq), Token(TokNumber, n.left.value)]
    case QbitNode => [Word(TokQbit), Token(TokIdent, n.value), Word(TokEq), Token(TokState, n.left.value)]
    case EntangleNode => [Word(TokEntangle), Token(TokIdent, n.value), Token(TokIdent, n.left.value)]
    case CnotNode => [Word(TokCnot), Token(TokIdent, n.value), Token(TokIdent, n.left.value)]
    case EncodeNode => [Word(TokEncode), Token(TokIdent, n.value)]
    case DecodeNode => [Word(TokDecode), Token(TokIdent, n.value)]
    case HadamardNode => [Word(TokHadamard), Token(TokIdent, n.value)]
    case MeasureNode => [Word(TokMeasure), Token(TokIdent, n.value)]
    case ActionNode => [Word(TokAction), Token(TokIdent, n.value)]
    case IdentNode => [Token(TokIdent, n.value)]
  }

  function RenderStmt(n: Node): (r: seq<Token>)
    requires n.Node? && WellFormedStmt(n)
    ensures |r| > 0 && r[0].kind !in {TokEof, TokRBrace, TokDirective}
    decreases n, 0
  {
    if n.kind == CheckNode then
      [Word(TokCheck), Token(TokIdent, n.left.left.value), Token(TokOperator, n.left.value),
       Token(TokNumber, n.left.right.value)] + RenderBlock(n.body.body)
    else if n.kind == RepeatNode then
      [Word(TokRepeat), Token(TokNumber, n.value)] + RenderBlock(n.body.body)
    else
      RenderSimple(n)
  }

  function RenderBlock(body: Node): seq<Token>
    requires WellFormed(body)
    decreases body, 2
  {
    [Word(TokLBrace)] + Render(body) + [Word(TokRBrace)]
  }

  function Render(n: Node): seq<Token>
    requires WellFormed(n)
    decreases n, 1
  {
    if n.Nil? then [] else RenderStmt(n) + Render(n.next)
  }

  ghost predicate Reads(toks: seq<Token>, p: nat, part: seq<Token>) {
    p + |part| <= |toks| && toks[p..p + |part|] == part
  }

  lemma ReadsParts(toks: seq<Token>, p: nat, a: seq<Token>, b: seq<Token>)
    requires Reads(toks, p, a + b)
    ensures Reads(toks, p, a) && Reads(toks, p + |a|, b)
  {
    assert toks[p..p + |a|] == (a + b)[..|a|];
    assert toks[p + |a|..p + |a| + |b|] == (a + b)[|a|..];
  }

  lemma ReadsAt(toks: seq<Token>, p: nat, part: seq<Token>, i: nat)
    requires Reads(toks, p, part) && i < |part|
    ensures p + i < |toks| && toks[p + i] == part[i]
  {
    assert toks[p..p + |part|][i] == part[i];
  }

  lemma {:induction false} StmtInvertsRender(toks: seq<Token>, n: Node, p: nat)
    requires n.Node? && WellFormedStmt(n) && Reads(toks, p, RenderStmt(n))
    ensures Stmt(toks, p) == Got(n.(next := Nil), p + |RenderStmt(n)|)
    decreases n, 0
  {
    hide Block, Stmts, Simple, Reads, RenderSimple, IsSimple, WellFormed;
    if n.kind == CheckNode {
      CheckInvertsRender(toks, n, p);
    } else if n.kind == RepeatNode {
      RepeatInvertsRender(toks, n, p);
    } else {
      SimpleInvertsRender(toks, n, p);
      ReadsAt(toks, p, RenderSimple(n), 0);
    }
  }

  lemma SpokenInvertsRender(toks: seq<Token>, n: Node, p: nat)
    requires n.Node? && n.kind in {SayNode, QmsgNode} && IsSimple(n) && Reads(toks, p, RenderSimple(n))
    ensures p < |toks| && Simple(toks, p) == Got(n.(next := Nil), p + |RenderSimple(n)|)
  {
    hide Reads, Lexeme, IsNamed, NamedKind;
    var r := RenderSimple(n);
    ReadsAt(toks, p, r, 0);
    ReadsAt(toks, p, r, 1);
  }

  lemma LetInvertsRender(toks: seq<Token>, n: Node, p: nat)
    requires n.Node? && n.kind == LetNode && IsSimple(n) && Reads(toks, p, RenderSimple(n))
    ensures p < |toks| && Simple(toks, p) == Got(n.(next := Nil), p + |RenderSimple(n)|)
  {
    hide Reads, Lexeme, IsNamed, NamedKind;
    var r := RenderSimple(n);
    ReadsAt(toks, p, r, 0);
    ReadsAt(toks, p, r, 1);
    ReadsAt(toks, p, r, 2);
    ReadsAt(toks, p, r, 3);
  }

  lemma QbitInvertsRender(toks: seq<Token>, n: Node, p: nat)
    requires n.Node? && n.kind == QbitNode && IsSimple(n) && Reads(toks, p, RenderSimple(n))
    ensures p < |toks| && Simple(toks, p) == Got(n.(next := Nil), p + |RenderSimple(n)|)
  {
    hide Reads, Lexeme, IsNamed, NamedKind;
    var r := RenderSimple(n);
    ReadsAt(toks, p, r, 0);
    ReadsAt(toks, p, r, 1);
    ReadsAt(toks, p, r, 2);
    ReadsAt(toks, p, r, 3);
  }

  lemma PairInvertsRender(toks: seq<Token>, n: Node, p: nat)
    requires n.Node? && n.kind in {EntangleNode, CnotNode} && IsSimple(n) && Reads(toks, p, RenderSimple(n))
    ensures p < |toks| && Simple(toks, p) == Got(n.(next := Nil), p + |RenderSimple(n)|)
  {
    hide Reads, Lexeme, IsNamed, NamedKind;
    var r := RenderSimple(n);
    ReadsAt(toks, p, r, 0);
    ReadsAt(toks, p, r, 1);
    ReadsAt(toks, p, r, 2);
  }

  lemma NamedInvertsRender(toks: seq<Token>, n: Node, p: nat)
    requires n.Node? && n.kind in {EncodeNode, DecodeNode, HadamardNode, MeasureNode, ActionNode}
    requires IsSimple(n) && Reads(toks, p, RenderSimple(n))
    ensures p < |toks| && Simple(toks, p) == Got(n.(next := Nil), p + |RenderSimple(n)|)
  {
    hide Reads, Lexeme;
    var r := RenderSimple(n);
    ReadsAt(toks, p, r, 0);
    ReadsAt(toks, p, r, 1);
  }

  lemma NameInvertsRender(toks: seq<Token>, n: Node, p: nat)
    requires n.Node? && n.kind == IdentNode && IsSimple(n) && Reads(toks, p, RenderSimple(n))
    ensures p < |toks| && Simple(toks, p) == Got(n.(next := Nil), p + |RenderSimple(n)|)
  {
    hide Reads, Lexeme;
    var r := RenderSimple(n);
    ReadsAt(toks, p, r, 0);
  }

  lemma SimpleInvertsRender(toks: seq<Token>, n: Node, p: nat)
    requires n.Node? && IsSimple(n) && Reads(toks, p, RenderSimple(n))
    ensures p < |toks| && Simple(toks, p) == Got(n.(next := Nil), p + |RenderSimple(n)|)
  {
    hide Simple, Reads, RenderSimple;
    match n.kind
    case SayNode | QmsgNode => SpokenInvertsRender(toks, n, p);
    case LetNode => LetInvertsRender(toks, n, p);
    case QbitNode => QbitInvertsRender(toks, n, p);
    case EntangleNode | CnotNode => PairInvertsRender(toks, n, p);
    case IdentNode => NameInvertsRender(toks, n, p);
    case _ => NamedInvertsRender(toks, n, p);
  }

  lemma {:induction false} CheckInvertsRender(toks: seq<Token>, n: Node, p: nat)
    requires n.Node? && n.kind == CheckNode && WellFormedStmt(n) && Reads(toks, p, RenderStmt(n))
    ensures Stmt(toks, p) == Got(n.(next := Nil), p + |RenderStmt(n)|)
    decreases n.body, 3
  {
    hide Stmts, Block, Reads, RenderBlock, WellFormed;
    var r := RenderStmt(n);
    ReadsAt(toks, p, r, 0);
    ReadsAt(toks, p, r, 1);
    ReadsAt(toks, p, r, 2);
    ReadsAt(toks, p, r, 3);
    ReadsParts(toks, p, r[..4], RenderBlock(n.body.body));
    BlockInvertsRender(toks, n.body, p + 4);
  }

  lemma {:induction false} RepeatInvertsRender(toks: seq<Token>, n: Node, p: nat)
    requires n.Node? && n.kind == RepeatNode && WellFormedStmt(n) && Reads(toks, p, RenderStmt(n))
    ensures Stmt(toks, p) == Got(n.(next := Nil), p + |RenderStmt(n)|)
    decreases n.body, 3
  {
    hide Stmts, Block, Reads, RenderBlock, WellFormed;
    var r := RenderStmt(n);
    ReadsAt(toks, p, r, 0);
    ReadsAt(toks, p, r, 1);
    ReadsParts(toks, p, r[..2], RenderBlock(n.body.body));
    BlockInvertsRender(toks, n.body, p + 2);
  }

  /** A block consumes its own closing brace and nothing after it. */
  lemma {:induction false} BlockInvertsRender(toks: seq<Token>, b: Node, p: nat)
    requires IsBlock(b) && WellFormed(b.body) && Reads(toks, p, RenderBlock(b.body))
    ensures Block(toks, p) == Got(b, p + |RenderBlock(b.body)|)
    decreases b, 2
  {
    hide Stmts, Reads, Render, WellFormed;
    var open, inner, close := [Word(TokLBrace)], Render(b.body), [Word(TokRBrace)];
    assert open + inner + close == open + (inner + close);
    ReadsParts(toks, p, open, inner + close);
    ReadsParts(toks, p + 1, inner, close);
    ReadsAt(toks, p + 1 + |inner|, close, 0);
    StmtsInvertRender(toks, b.body, p + 1, false);
  }

  lemma {:induction false} StmtsInvertRender(toks: seq<Token>, n: Node, p: nat, top: bool)
    requires WellFormed(n) && Reads(toks, p, Render(n))
    requires p + |Render(n)| < |toks|
    requires toks[p + |Render(n)|].kind == if top then TokEof else TokRBrace
    ensures Stmts(toks, p, top) == Got(n, p + |Render(n)|)
    decreases n, 1
  {
    hide Stmts, Stmt, Reads, RenderStmt, WellFormedStmt;
    if n.Nil? {
      StmtsStop(toks, p, top);
    } else {
      var r := RenderStmt(n);
      ReadsParts(toks, p, r, Render(n.next));
      ReadsAt(toks, p, r, 0);
      StmtInvertsRender(toks, n, p);
      StmtsInvertRender(toks, n.next, p + |r|, top);
      StmtsGoOn(toks, p, top);
    }
  }

  lemma StmtsStop(toks: seq<Token>, p: nat, top: bool)
    requires p < |toks| && toks[p].kind == if top then TokEof else TokRBrace
    ensures Stmts(toks, p, top) == Got(Nil, p)
  {
  }

  lemma StmtsGoOn(toks: seq<Token>, p: nat, top: bool)
    requires p < |toks| && toks[p].kind !in {TokEof, TokRBrace, TokDirective}
    requires Stmt(toks, p).Got? && Stmts(toks, Stmt(toks, p).pos, top).Got?
    ensures var rest := Stmts(toks, Stmt(toks, p).pos, top);
            Stmts(toks, p, top) == Got(Stmt(toks, p).node.(next := rest.node), rest.pos)
  {
    hide Stmt;
  }

  /** Parsing the tokens of a tree, followed by the end marker, rebuilds the tree
      and stops exactly at the marker. */
  lemma ParseInvertsRender(n: Node, eof: Token)
    requires WellFormed(n) && eof.kind == TokEof
    ensures Stmts(Render(n) + [eof], 0, true) == Got(n, |Render(n)|)
  {
    hide Stmts, Render, WellFormed;
    var toks := Render(n) + [eof];
    assert toks[0..|Render(n)|] == Render(n);
    assert Reads(toks, 0, Render(n));
    StmtsInvertRender(toks, n, 0, true);
  }

  // ----- directives and other tokens -----

  predicate AllDirectives(gap: seq<Token>) {
    forall t | t in gap :: t.kind == TokDirective
  }

  function Length(n: Node): nat {
    if n.Nil? then 0 else 1 + Length(n.next)
  }

  /** The tokens of a program with `gaps` before, between and after its statements. */
  function Spread(n: Node, gaps: seq<seq<Token>>): seq<Token>
    requires WellFormed(n) && |gaps| == Length(n) + 1
    decreases n
  {
    if n.Nil? then gaps[0] else gaps[0] + (RenderStmt(n) + Spread(n.next, gaps[1..]))
  }

  lemma {:induction false} GapIsSkipped(toks: seq<Token>, p: nat, gap: seq<Token>)
    requires AllDirectives(gap) && Reads(toks, p, gap) && p + |gap| < |toks|
    ensures Stmts(toks, p, true) == Stmts(toks, p + |gap|, true)
    decreases |gap|
  {
    hide Stmt, Reads;
    if gap != [] {
      ReadsAt(toks, p, gap, 0);
      assert gap == [gap[0]] + gap[1..];
      ReadsParts(toks, p, [gap[0]], gap[1..]);
      GapIsSkipped(toks, p + 1, gap[1..]);
    }
  }

  lemma {:induction false} SpreadParses(toks: seq<Token>, n: Node, gaps: seq<seq<Token>>, p: nat)
    requires WellFormed(n) && |gaps| == Length(n) + 1 && forall gap | gap in gaps :: AllDirectives(gap)
    requires Reads(toks, p, Spread(n, gaps))
    requires p + |Spread(n, gaps)| < |toks| && toks[p + |Spread(n, gaps)|].kind == TokEof
    ensures Stmts(toks, p, true) == Got(n, p + |Spread(n, gaps)|)
    decreases n
  {
    hide Stmts, Stmt, Reads, RenderStmt, WellFormedStmt, AllDirectives;
    assert AllDirectives(gaps[0]);
    if n.Nil? {
      GapIsSkipped(toks, p, gaps[0]);
      StmtsStop(toks, p + |gaps[0]|, true);
    } else {
      var r, rest := RenderStmt(n), Spread(n.next, gaps[1..]);
      ReadsParts(toks, p, gaps[0], r + rest);
      GapIsSkipped(toks, p, gaps[0]);
      var q := p + |gaps[0]|;
      ReadsParts(toks, q, r, rest);
      ReadsAt(toks, q, r, 0);
      StmtInvertsRender(toks, n, q);
      SpreadParses(toks, n.next, gaps[1..], q + |r|);
      StmtsGoOn(toks, q, true);
    }
  }

  /** Directives anywhere between the statements of a program change nothing. */
  lemma DirectivesAreSkipped(n: Node, gaps: seq<seq<Token>>, eof: Token)
    requires WellFormed(n) && |gaps| == Length(n) + 1 && forall gap | gap in gaps :: AllDirectives(gap)
    requires eof.kind == TokEof
    ensures Stmts(Spread(n, gaps) + [eof], 0, true) == Got(n, |Spread(n, gaps)|)
  {
    hide Stmts, Spread, WellFormed, AllDirectives;
    var part := Spread(n, gaps);
    assert (part + [eof])[0..|part|] == part;
    assert Reads(part + [eof], 0, part);
    SpreadParses(part + [eof], n, gaps, 0);
  }

  /** Any token that opens no statement, a directive inside a block included, is a
      statement of its own: a name. */
  lemma OtherTokensAreNames(toks: seq<Token>, p: nat)
    requires p < |toks|
    requires toks[p].kind in {TokOtherwise, TokState, TokOperator, TokEq, TokIdent, TokNumber, TokString,
                              TokLBrace, TokRBrace, TokDirective, TokEof, TokUnknown}
    ensures Stmt(toks, p) == Got(Leaf(IdentNode, toks[p].value), p + 1)
  {
  }

  /** What is said or sent is a text exactly if it is written as one. */
  lemma TextsAreWrittenAsTexts(toks: seq<Token>, p: nat)
    requires p + 1 < |toks| && toks[p].kind in {TokSay, TokQmsg}
    ensures Stmt(toks, p).Got?
    ensures var said := Stmt(toks, p).node.left;
            && said.Node? && said.value == toks[p + 1].value && said.kind in {StringNode, IdentNode}
            && (said.kind == StringNode <==> toks[p + 1].kind == TokString)
  {
    hide Block;
  }

  /** Conversely the parser builds no other trees. */
  lemma {:induction false} ParsedStmtIsWellFormed(toks: seq<Token>, p: nat)
    requires Stmt(toks, p).Got?
    ensures WellFormedStmt(Stmt(toks, p).node)
    decreases if p < |toks| then |toks| - p else 0, 0
  {
    hide Stmts, Block, Simple;
    if toks[p].kind == TokCheck {
      ParsedBlockIsWellFormed(toks, p + 4);
    } else if toks[p].kind == TokRepeat {
      ParsedBlockIsWellFormed(toks, p + 2);
    } else {
      ParsedSimpleIsWellFormed(toks, p);
    }
  }

  lemma ParsedSimpleIsWellFormed(toks: seq<Token>, p: nat)
    requires p < |toks| && Simple(toks, p).Got?
    ensures WellFormedStmt(Simple(toks, p).node)
  {
    hide WellFormed, Lexeme;
  }

  lemma {:induction false} ParsedBlockIsWellFormed(toks: seq<Token>, p: nat)
    requires Block(toks, p).Got?
    ensures IsBlock(Block(toks, p).node) && WellFormed(Block(toks, p).node.body)
    decreases if p < |toks| then |toks| - p else 0, 2
  {
    hide Stmts;
    ParsedIsWellFormed(toks, p + 1, false);
  }

  lemma {:induction false} ParsedIsWellFormed(toks: seq<Token>, p: nat, top: bool)
    requires Stmts(toks, p, top).Got?
    ensures WellFormed(Stmts(toks, p, top).node)
    decreases if p < |toks| then |toks| - p else 0, 1
  {
    hide Stmt, WellFormedStmt;
    if toks[p].kind == TokEof || (!top && toks[p].kind == TokRBrace) {
    } else if top && toks[p].kind == TokDirective {
      ParsedIsWellFormed(toks, p + 1, top);
    } else {
      var s := Stmt(toks, p);
      var rest := Stmts(toks, s.pos, top);
      ParsedStmtIsWellFormed(toks, p);
      ParsedIsWellFormed(toks, s.pos, top);
      LinkingKeepsStmt(s.node, rest.node);
    }
  }

  lemma LinkingKeepsStmt(n: Node, rest: Node)
    requires n.Node? && WellFormedStmt(n)
    ensures WellFormedStmt(n.(next := rest))
  {
    hide WellFormed;
  }

  /** The well-formed trees are exactly those some token array parses to. */
  lemma WellFormedIsParserImage(n: Node)
    ensures WellFormed(n) <==> exists toks, e :: Stmts(toks, 0, true) == Got(n, e)
  {
    hide Stmts, WellFormed;
    if WellFormed(n) {
      ParseInvertsRender(n, Token(TokEof, ""));
    }
    if toks, e :| Stmts(toks, 0, true) == Got(n, e) {
      ParsedIsWellFormed(toks, 0, true);
    }
  }
}
