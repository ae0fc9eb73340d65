/** The syntax tree shared by parser, interpreter and compiler: one node type
    with four links, `next` chaining the statements of a list. */
module Ast {

  datatype Kind =
    | ProgramNode | SayNode | LetNode | CheckNode | BlockNode | QbitNode | HadamardNode
    | MeasureNode | EntangleNode | CnotNode | QmsgNode | EncodeNode | DecodeNode | RepeatNode
    | ActionNode | BinOpNode | StringNode | NumberNode | IdentNode | StateNode

  datatype Node =
    | Nil
    | Node(kind: Kind, value: string, left: Node, right: Node, body: Node, next: Node)

  /** A node with no links. */
  function Leaf(kind: Kind, value: string): (n: Node)
    ensures n.Node?
  {
    Node(kind, value, Nil, Nil, Nil, Nil)
  }

  function Text(n: Node): string {
    if n.Nil? then "" else n.value
  }
}

/** Bytecode, and the C library conversion used for its operands. */
module Bytecode {

  const MAX_INSTR: nat := 1024

  datatype OpCode =
    | OpSay | OpLet | OpQbit | OpHadamard | OpMeasure | OpEntangle | OpCnot | OpCheck | OpRepeat
    | OpBlock | OpEnd | OpSafeAction | OpQmsg | OpEncodeQmsg | OpDecodeQmsg
    | OpUnknown

  datatype Instr = Instr(op: OpCode, arg1: string, arg2: string, value: int)

  predicate Opens(i: Instr) {
    i.op == OpCheck || i.op == OpRepeat
  }

  /** `atoi`: white space, an optional sign, then as many digits as there are. */
  function Atoi(s: string): int {
    if s == "" then 0
    else if s[0] in " \t\n\r\U{0B}\U{0C}" then Atoi(s[1..])
    else if s[0] == '-' then -Digits(s[1..], 0)
    else if s[0] == '+' then Digits(s[1..], 0)
    else Digits(s, 0)
  }

  function Digits(s: string, acc: int): int {
    if s == "" || !('0' <= s[0] <= '9') then acc
    else Digits(s[1..], 10 * acc + (s[0] - '0') as int)
  }

  predicate AllDigits(s: string) {
    forall i | 0 <= i < |s| :: '0' <= s[i] <= '9'
  }

  /** The decimal numeral of a number. */
  function Decimal(v: nat): (s: string)
    ensures s != "" && AllDigits(s)
  {
    if v < 10 then ['0' + v as char] else Decimal(v / 10) + ['0' + (v % 10) as char]
  }

  predicate EndsNumeral(rest: string) {
    rest == "" || !('0' <= rest[0] <= '9')
  }

  lemma {:induction false} DigitsAppend(s: string, rest: string, acc: int)
    requires AllDigits(s)
    ensures Digits(s + rest, acc) == Digits(rest, Digits(s, acc))
  {
    if s == "" {
      assert s + rest == rest;
    } else {
      assert '0' <= s[0] <= '9';
      assert (s + rest)[1..] == s[1..] + rest;
      DigitsAppend(s[1..], rest, 10 * acc + (s[0] - '0') as int);
    }
  }

  lemma DigitAppended(s: string, d: nat)
    requires d < 10 && AllDigits(s)
    ensures Digits(s + ['0' + d as char], 0) == 10 * Digits(s, 0) + d
  {
    var last := ['0' + d as char];
    DigitsAppend(s, last, 0);
    assert last[1..] == "";
  }

  lemma {:induction false} DigitsOfDecimal(v: nat)
    ensures Digits(Decimal(v), 0) == v
  {
    if v < 10 {
      DigitAppended("", v);
      assert "" + ['0' + v as char] == ['0' + v as char];
    } else {
      DigitsOfDecimal(v / 10);
      DigitAppended(Decimal(v / 10), v % 10);
    }
  }

  lemma NumeralRead(v: nat, rest: string)
    requires EndsNumeral(rest)
    ensures Digits(Decimal(v) + rest, 0) == v
  {
    DigitsOfDecimal(v);
    DigitsAppend(Decimal(v), rest, 0);
  }

  /** `atoi` reads numerals back, with a sign or without, whatever follows them. */
  lemma AtoiOfDecimal(v: nat, rest: string)
    requires EndsNumeral(rest)
    ensures Atoi(Decimal(v) + rest) == v
    ensures Atoi("-" + (Decimal(v) + rest)) == -(v as int)
    ensures Atoi("+" + (Decimal(v) + rest)) == v
    ensures Atoi(" " + (Decimal(v) + rest)) == v
  {
    hide Digits, Decimal;
    var s := Decimal(v) + rest;
    NumeralRead(v, rest);
    Unsigned(s);
    SignOrSpace(s);
  }

  lemma Unsigned(s: string)
    requires s != "" && '0' <= s[0] <= '9'
    ensures Atoi(s) == Digits(s, 0)
  {
    hide Digits;
  }

  lemma SignOrSpace(s: string)
    ensures Atoi("-" + s) == -Digits(s, 0) && Atoi("+" + s) == Digits(s, 0) && Atoi(" " + s) == Atoi(s)
  {
    hide Digits;
    assert ("-" + s)[1..] == s && ("+" + s)[1..] == s && (" " + s)[1..] == s;
  }
}
