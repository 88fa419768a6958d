/** The assembler's text form: what every program looks like written down, and that the lexer and
    the parser read it back. */
module FrontEnd {
  import opened Isa
  import opened Linker
  import opened Lexer
  import opened TokenText
  import opened Parser

  /** One node as a programmer writes it: the three directives, or a label or instruction. */
  datatype Source = DataBlock(n: nat) | WordBlock(values: seq<int>) | AsciizBlock(text: Text) | Plain(item: Item)

  function Wrapped(values: seq<int>): seq<Word> {
    if values == [] then [] else [Wrap(values[0])] + Wrapped(values[1..])
  }

  /** The node of the syntax tree it stands for. */
  function Meaning(src: Source): Item {
    match src
    case DataBlock(n) => Data(Zeros(n))
    case WordBlock(values) => Data(Wrapped(values))
    case AsciizBlock(text) => Data(StringWords(text))
    case Plain(item) => item
  }

  /** The numbers that the lexer's conversion to an int can hold. */
  predicate Int32(v: int) {
    -0x8000_0000 <= v < 0x8000_0000
  }

  /** What can be written: names fit the lexer, numbers an int, a label is not an instruction's name,
      and operands the instruction does not have are zero. */
  predicate Writable(src: Source) {
    match src
    case DataBlock(n) => Int32(n)
    case WordBlock(values) => forall i :: 0 <= i < |values| ==> Int32(values[i])
    case AsciizBlock(text) => |text| < BUFFER
    case Plain(Label(name)) => IsName(name) && FindMnemonic(MNEMONICS, name) == NoInstr
    case Plain(InstrR(op, dest, a, b)) =>
      (op == LOAD ==> b == 0) && (op == STORE ==> dest == 0) && (op == SYSCALL ==> dest == a == b == 0)
    case Plain(InstrI(op, reg, operand)) =>
      && (operand.Name? ==> IsName(operand.name))
      && (op != MOV ==> operand.Name?) && (op == JUMP ==> reg == 0)
    case Plain(Data(_)) => false
  }

  function Register(r: Reg): Token {
    Ident(RegName(r))
  }

  /** A number above the assembler's limit is written as the negative number with the same word. */
  function OperandToken(operand: Operand): Token {
    match operand
    case Number(v) => Integer(if v <= IMED_BITS_POWER then v else v - 0x1_0000)
    case Name(name) => Ident(name)
  }

  function Bracketed(r: Reg): seq<Token> {
    [OpenBrackets, Register(r), CloseBrackets]
  }

  function InstrRTokens(op: OpR, dest: Reg, a: Reg, b: Reg): seq<Token> {
    match op
    case LOAD => [Register(dest), Comma] + Bracketed(a)
    case STORE => Bracketed(a) + [Comma, Register(b)]
    case SYSCALL => []
    case _ => [Register(dest), Comma, Register(a), Comma, Register(b)]
  }

  function InstrITokens(op: OpI, reg: Reg, operand: Operand): seq<Token> {
    match op
    case JUMP => [OperandToken(operand)]
    case _ => [Register(reg), Comma, OperandToken(operand)]
  }

  function IntegerTokens(values: seq<int>): seq<Token> {
    if values == [] then [] else [Integer(values[0])] + IntegerTokens(values[1..])
  }

  function TokensOf(src: Source): seq<Token> {
    match src
    case DataBlock(n) => [Dot, Ident("data"), Integer(n)]
    case WordBlock(values) => [Dot, Ident("word")] + (IntegerTokens(values) + [Semicolon])
    case AsciizBlock(text) => [Dot, Ident("asciiz"), Str(text)]
    case Plain(Label(name)) => [Ident(name), Colon]
    case Plain(InstrR(op, dest, a, b)) => [Ident(NameR(op))] + InstrRTokens(op, dest, a, b)
    case Plain(InstrI(op, reg, operand)) => [Ident(NameI(op))] + InstrITokens(op, reg, operand)
    case Plain(Data(_)) => []
  }

  // ---------- streams ----------

  lemma {:induction false} FeedAppend(a: seq<Token>, b: seq<Token>, rest: Stream)
    ensures Feed(a + b, rest) == Feed(a, Feed(b, rest))
  {
    if a == [] {
      assert a + b == b;
    } else {
      assert (a + b)[1..] == a[1..] + b;
      FeedAppend(a[1..], b, rest);
    }
  }

  lemma FeedOne(t: Token, rest: Stream)
    ensures Feed([t], rest) == More(t, rest) && Feed([], rest) == rest
  {
  }

  lemma FeedTwo(t: Token, u: Token, rest: Stream)
    ensures Feed([t, u], rest) == More(t, More(u, rest))
  {
    FeedOne(u, rest);
    assert [t, u][1..] == [u];
  }

  lemma FeedThree(t: Token, u: Token, v: Token, rest: Stream)
    ensures Feed([t, u, v], rest) == More(t, More(u, More(v, rest)))
  {
    FeedTwo(u, v, rest);
    assert [t, u, v][1..] == [u, v];
  }

  // ---------- names ----------

  lemma RegisterFound(r: Reg)
    ensures FindReg(RegName(r), 0) == r
  {
    RegisterFoundFrom(r, 0);
  }

  lemma {:induction false} RegisterFoundFrom(r: Reg, from: nat)
    requires from <= r
    ensures FindReg(RegName(r), from) == r
    decreases r - from
  {
    if from < r {
      assert RegName(from)[1] != RegName(r)[1];
      RegisterFoundFrom(r, from + 1);
    }
  }

  lemma RegisterParsed(r: Reg, rest: Stream)
    ensures ParseReg(More(Register(r), rest)) == Ok(r, rest)
  {
    RegisterFound(r);
  }

  lemma BracketsParsed(r: Reg, rest: Stream)
    ensures ParseBracketed(Feed(Bracketed(r), rest)) == Ok(r, rest)
  {
    hide ParseReg;
    FeedThree(OpenBrackets, Register(r), CloseBrackets, rest);
    RegisterParsed(r, More(CloseBrackets, rest));
  }

  // ---------- mnemonics ----------

  /** Length, first, second and last character: enough to tell the mnemonics apart. */
  function Signature(name: Text): (int, char, char, char)
    requires |name| >= 2
  {
    (|name|, name[0], name[1], name[|name| - 1])
  }

  function SignatureR(op: OpR): (int, char, char, char) {
    match op
    case ADD => (3, 'a', 'd', 'd') case SUB => (3, 's', 'u', 'b') case MUL => (3, 'm', 'u', 'l')
      case DIV => (3, 'd', 'i', 'v')
    case CMP_EQUAL => (9, 'c', 'm', 'l') case CMP_NEQ => (7, 'c', 'm', 'q') case CMP_LESS => (8, 'c', 'm', 's')
    case CMP_GREATER => (11, 'c', 'm', 'r') case CMP_LESS_EQ => (11, 'c', 'm', 'q')
      case CMP_GREATER_EQ => (14, 'c', 'm', 'q')
    case AND => (3, 'a', 'n', 'd') case OR => (2, 'o', 'r', 'r') case XOR => (3, 'x', 'o', 'r')
    case SHL => (3, 's', 'h', 'l') case SHR => (3, 's', 'h', 'r')
    case LOAD => (4, 'l', 'o', 'd') case STORE => (5, 's', 't', 'e') case SYSCALL => (7, 's', 'y', 'l')
  }

  function SignatureI(op: OpI): (int, char, char, char) {
    match op
    case JUMP => (4, 'j', 'u', 'p')
    case JUMP_COND => (9, 'j', 'u', 'd')
    case MOV => (3, 'm', 'o', 'v')
  }

  lemma NamesR(op: OpR)
    ensures IsName(NameR(op)) && |NameR(op)| >= 2 && Signature(NameR(op)) == SignatureR(op)
  {
  }

  lemma NamesI(op: OpI)
    ensures IsName(NameI(op)) && |NameI(op)| >= 2 && Signature(NameI(op)) == SignatureI(op)
  {
  }

  lemma DistinctR(a: OpR, b: OpR)
    ensures SignatureR(a) == SignatureR(b) ==> a == b
  {
  }

  lemma DistinctI(a: OpI, b: OpI)
    ensures SignatureI(a) == SignatureI(b) ==> a == b
  {
  }

  lemma DistinctRI(a: OpR, b: OpI)
    ensures SignatureR(a) != SignatureI(b)
  {
  }

  /** No two instructions share a name. */
  lemma NamesDiffer(m: Mnemonic, n: Mnemonic)
    requires m != NoInstr && n != NoInstr && NameOf(m) == NameOf(n)
    ensures m == n
  {
    hide NameR, NameI, SignatureR, SignatureI, IsName;
    match (m, n)
    case (TypeR(a), TypeR(b)) => NamesR(a); NamesR(b); DistinctR(a, b);
    case (TypeI(a), TypeI(b)) => NamesI(a); NamesI(b); DistinctI(a, b);
    case (TypeR(a), TypeI(b)) => NamesR(a); NamesI(b); DistinctRI(a, b);
    case (TypeI(a), TypeR(b)) => NamesI(a); NamesR(b); DistinctRI(b, a);
    case _ =>
  }

  lemma {:induction false} FoundIn(table: seq<Mnemonic>, m: Mnemonic)
    requires m in table && m != NoInstr && NoInstr !in table
    ensures FindMnemonic(table, NameOf(m)) == m
  {
    hide NameOf;
    if table[0] != m {
      if NameOf(table[0]) == NameOf(m) {
        NamesDiffer(table[0], m);
      }
      FoundIn(table[1..], m);
    }
  }

  lemma AllListed(m: Mnemonic)
    ensures m != NoInstr ==> m in MNEMONICS
    ensures NoInstr !in MNEMONICS
  {
    var t := MNEMONICS;
    match m
    case TypeR(op) => assert t[OpcodePosition(op)] == TypeR(op);
    case TypeI(op) => assert t[if op == JUMP then 18 else if op == JUMP_COND then 19 else 20] == TypeI(op);
    case NoInstr =>
  }

  function OpcodePosition(op: OpR): (i: nat)
    ensures i <= 17
  {
    if op == SYSCALL then 17 else if op == STORE then 16 else if op == LOAD then 15
    else if OpcodeR(op) <= 14 then OpcodeR(op) else 0
  }

  /** The table gives every instruction back by its name. */
  lemma MnemonicFound(m: Mnemonic)
    requires m != NoInstr
    ensures FindMnemonic(MNEMONICS, NameOf(m)) == m
  {
    hide FindMnemonic, NameOf;
    AllListed(m);
    FoundIn(MNEMONICS, m);
  }

  // ---------- one node ----------

  lemma ThreeParsed(op: OpR, dest: Reg, a: Reg, b: Reg, rest: Stream)
    ensures ParseThree(op, Feed([Register(dest), Comma, Register(a), Comma, Register(b)], rest)) ==
            Ok(InstrR(op, dest, a, b), rest)
  {
    hide ParseReg, Register;
    var tail := [Comma, Register(b)];
    assert [Register(dest), Comma, Register(a), Comma, Register(b)] == [Register(dest), Comma, Register(a)] + tail;
    FeedAppend([Register(dest), Comma, Register(a)], tail, rest);
    FeedTwo(Comma, Register(b), rest);
    FeedThree(Register(dest), Comma, Register(a), Feed(tail, rest));
    RegisterParsed(dest, More(Comma, More(Register(a), Feed(tail, rest))));
    RegisterParsed(a, Feed(tail, rest));
    RegisterParsed(b, rest);
  }

  lemma InstrRParsed(op: OpR, dest: Reg, a: Reg, b: Reg, rest: Stream)
    requires Writable(Plain(InstrR(op, dest, a, b)))
    ensures ParseInstrR(op, Feed(InstrRTokens(op, dest, a, b), rest)) == Ok(InstrR(op, dest, a, b), rest)
  {
    hide ParseReg, Register, ParseBracketed, Bracketed, ParseThree;
    match op
    case LOAD =>
      FeedAppend([Register(dest), Comma], Bracketed(a), rest);
      FeedTwo(Register(dest), Comma, Feed(Bracketed(a), rest));
      RegisterParsed(dest, More(Comma, Feed(Bracketed(a), rest)));
      BracketsParsed(a, rest);
    case STORE =>
      FeedAppend(Bracketed(a), [Comma, Register(b)], rest);
      FeedTwo(Comma, Register(b), rest);
      BracketsParsed(a, More(Comma, More(Register(b), rest)));
      RegisterParsed(b, rest);
    case SYSCALL => FeedOne(End, rest);
    case _ => ThreeParsed(op, dest, a, b, rest);
  }

  lemma InstrIParsed(op: OpI, reg: Reg, operand: Operand, rest: Stream)
    requires Writable(Plain(InstrI(op, reg, operand)))
    ensures ParseInstrI(op, Feed(InstrITokens(op, reg, operand), rest)) == Ok(InstrI(op, reg, operand), rest)
  {
    hide ParseReg, Register;
    var t := OperandToken(operand);
    FeedOne(t, rest);
    FeedThree(Register(reg), Comma, t, rest);
    RegisterParsed(reg, More(Comma, More(t, rest)));
  }

  lemma {:induction false} WordsParsed(values: seq<int>, words: seq<Word>, rest: Stream)
    ensures ParseWords(Feed(IntegerTokens(values), More(Semicolon, rest)), words) == Ok(words + Wrapped(values), rest)
    decreases |values|
  {
    hide Wrap;
    if values == [] {
      assert words + Wrapped(values) == words;
    } else {
      var more := Feed(IntegerTokens(values[1..]), More(Semicolon, rest));
      FeedAppend([Integer(values[0])], IntegerTokens(values[1..]), More(Semicolon, rest));
      FeedOne(Integer(values[0]), more);
      WordsParsed(values[1..], words + [Wrap(values[0])], rest);
      assert words + [Wrap(values[0])] + Wrapped(values[1..]) == words + Wrapped(values);
    }
  }

  lemma WordBlockParsed(values: seq<int>, rest: Stream)
    ensures Feed(TokensOf(WordBlock(values)), rest) ==
            More(Dot, More(Ident("word"), Feed(IntegerTokens(values), More(Semicolon, rest))))
    ensures ParseDirective(More(Ident("word"), Feed(IntegerTokens(values), More(Semicolon, rest)))) ==
            Ok(Data(Wrapped(values)), rest)
  {
    hide IntegerTokens, ParseWords, Wrapped;
    FeedAppend([Dot, Ident("word")], IntegerTokens(values) + [Semicolon], rest);
    FeedAppend(IntegerTokens(values), [Semicolon], rest);
    FeedOne(Semicolon, rest);
    FeedTwo(Dot, Ident("word"), Feed(IntegerTokens(values), More(Semicolon, rest)));
    WordsParsed(values, [], rest);
    assert [] + Wrapped(values) == Wrapped(values);
  }

  /** The tokens of a node start with `first` and parse to the node. */
  ghost predicate ReadsAs(src: Source, rest: Stream) {
    match Feed(TokensOf(src), rest)
    case More(first, more) => first != End && ParseNode(first, more) == Ok(Meaning(src), rest)
    case _ => false
  }

  lemma DirectiveParsed(src: Source, rest: Stream)
    requires Writable(src) && !src.Plain?
    ensures ReadsAs(src, rest)
  {
    hide StringWords, ParseWords, Wrapped, Zeros, IntegerTokens;
    match src
    case DataBlock(n) => FeedThree(Dot, Ident("data"), Integer(n), rest);
    case AsciizBlock(text) => FeedThree(Dot, Ident("asciiz"), Str(text), rest);
    case WordBlock(values) =>
      WordBlockParsed(values, rest);
  }

  lemma PlainParsed(src: Source, rest: Stream)
    requires Writable(src) && src.Plain?
    ensures ReadsAs(src, rest)
  {
    hide FindMnemonic, ParseInstrR, ParseInstrI, InstrRTokens, InstrITokens, NameR, NameI;
    match src.item
    case Label(name) => FeedTwo(Ident(name), Colon, rest);
    case InstrR(op, dest, a, b) =>
      FeedAppend([Ident(NameR(op))], InstrRTokens(op, dest, a, b), rest);
      FeedOne(Ident(NameR(op)), Feed(InstrRTokens(op, dest, a, b), rest));
      MnemonicFound(TypeR(op));
      InstrRParsed(op, dest, a, b, rest);
    case InstrI(op, reg, operand) =>
      FeedAppend([Ident(NameI(op))], InstrITokens(op, reg, operand), rest);
      FeedOne(Ident(NameI(op)), Feed(InstrITokens(op, reg, operand), rest));
      MnemonicFound(TypeI(op));
      InstrIParsed(op, reg, operand, rest);
  }

  // ---------- whole programs ----------

  function ProgramTokens(srcs: seq<Source>): seq<Token> {
    if srcs == [] then [] else TokensOf(srcs[0]) + ProgramTokens(srcs[1..])
  }

  function Meanings(srcs: seq<Source>): (items: seq<Item>)
    ensures |items| == |srcs|
  {
    if srcs == [] then [] else [Meaning(srcs[0])] + Meanings(srcs[1..])
  }

  ghost predicate AllWritable(srcs: seq<Source>) {
    forall i :: 0 <= i < |srcs| ==> Writable(srcs[i])
  }

  lemma {:induction false} ProgramParsed(srcs: seq<Source>)
    requires AllWritable(srcs)
    ensures ParseAll(Feed(ProgramTokens(srcs), Done)) == Ok(Meanings(srcs), Done)
  {
    hide TokensOf, Meaning, ParseNode, Writable;
    if srcs == [] {
      FeedOne(End, Done);
    } else {
      var rest := Feed(ProgramTokens(srcs[1..]), Done);
      FeedAppend(TokensOf(srcs[0]), ProgramTokens(srcs[1..]), Done);
      if srcs[0].Plain? {
        PlainParsed(srcs[0], rest);
      } else {
        DirectiveParsed(srcs[0], rest);
      }
      ProgramParsed(srcs[1..]);
    }
  }

  // ---------- all tokens can be lexed ----------

  function Pow10(k: nat): nat {
    if k == 0 then 1 else 10 * Pow10(k - 1)
  }

  lemma {:induction false} ShortDigits(n: nat, k: nat)
    requires k >= 1 && n < Pow10(k)
    ensures |Digits(n)| <= k
    decreases k
  {
    if n >= 10 {
      assert k > 1;
      ShortDigits(n / 10, k - 1);
    }
  }

  lemma NumberLexable(v: int)
    requires Int32(v)
    ensures Lexable(Integer(v))
  {
    hide Digits;
    assert Pow10(10) == 10000000000;
    ShortDigits(if v < 0 then -v else v, 10);
  }

  lemma OperandLexable(operand: Operand)
    requires operand.Name? ==> IsName(operand.name)
    ensures Lexable(OperandToken(operand))
  {
    assert Pow10(5) == 100000;
    hide Digits, Pow10;
    match operand
    case Number(v) => ShortDigits(if v <= IMED_BITS_POWER then v else 0x1_0000 - v, 5);
    case Name(name) =>
  }

  ghost predicate AllLexable(tokens: seq<Token>) {
    forall t :: t in tokens ==> Lexable(t)
  }

  lemma RegisterLexable(r: Reg)
    ensures Lexable(Register(r))
  {
  }

  lemma {:induction false} IntegersLexable(values: seq<int>)
    requires forall i :: 0 <= i < |values| ==> Int32(values[i])
    ensures AllLexable(IntegerTokens(values))
  {
    hide Lexable, Int32;
    if values != [] {
      NumberLexable(values[0]);
      IntegersLexable(values[1..]);
    }
  }

  lemma InstrLexable(item: Item)
    requires Writable(Plain(item)) && (item.InstrR? || item.InstrI?)
    ensures AllLexable(TokensOf(Plain(item)))
  {
    match item
    case InstrR(op, dest, a, b) =>
      NamesR(op);
      assert Lexable(Ident(NameR(op)));
      RegisterLexable(dest);
      RegisterLexable(a);
      RegisterLexable(b);
      assert Lexable(Comma) && Lexable(OpenBrackets) && Lexable(CloseBrackets);
      hide Lexable, Register, NameR;
    case InstrI(op, reg, operand) =>
      NamesI(op);
      assert Lexable(Ident(NameI(op)));
      RegisterLexable(reg);
      OperandLexable(operand);
      assert Lexable(Comma);
      hide Lexable, Register, OperandToken, NameI;
  }

  lemma SourceLexable(src: Source)
    requires Writable(src)
    ensures AllLexable(TokensOf(src))
  {
    assert Lexable(Dot) && Lexable(Colon) && Lexable(Semicolon);
    assert Lexable(Ident("data")) && Lexable(Ident("word")) && Lexable(Ident("asciiz"));
    match src
    case Plain(Label(name)) => assert Lexable(Ident(name));
    case Plain(item) => InstrLexable(item);
    case WordBlock(values) => IntegersLexable(values);
    case AsciizBlock(text) => assert Lexable(Str(text));
    case DataBlock(n) => NumberLexable(n);
  }

  lemma {:induction false} ProgramLexable(srcs: seq<Source>)
    requires AllWritable(srcs)
    ensures AllLexable(ProgramTokens(srcs))
  {
    hide Lexable, Writable, TokensOf;
    if srcs != [] {
      SourceLexable(srcs[0]);
      ProgramLexable(srcs[1..]);
    }
  }

  /** Neighbours that would run into each other have something between them. */
  predicate Apart(tokens: seq<Token>, gaps: seq<Gap>)
    requires |gaps| == |tokens| + 1
  {
    forall i :: 0 <= i < |tokens| - 1 && Merges(tokens[i], tokens[i + 1]) ==> gaps[i + 1] != []
  }

  /** The round trip: any program, written down with any blanks and comments that keep its tokens
      apart, is read back as the same syntax tree. */
  lemma ProgramRead(srcs: seq<Source>, gaps: seq<Gap>)
    requires AllWritable(srcs) && |gaps| == |ProgramTokens(srcs)| + 1 && Apart(ProgramTokens(srcs), gaps)
    ensures ParseAll(Lexemes(Layout(ProgramTokens(srcs), gaps), 0)) == Ok(Meanings(srcs), Done)
  {
    hide Lexable, Merges, Lexemes, ParseAll, Layout, ProgramTokens, Meanings, AllWritable;
    var tokens := ProgramTokens(srcs);
    var text := Layout(tokens, gaps);
    ProgramLexable(srcs);
    assert text[0..0 + |text|] == text;
    LayoutRead(text, 0, tokens, gaps);
    ProgramParsed(srcs);
  }

  // ---------- the assembler ----------

  datatype Assembled = Object(image: seq<Word>) | SyntaxFailure(error: SyntaxError) | LinkFailure(failure: LinkResult)

  /** What the assembler makes of a text. */
  function Assemble(text: Text): Assembled {
    match ParseAll(Lexemes(text, 0))
    case Err(e) => SyntaxFailure(e)
    case Ok(items, _) =>
      match Link(items)
      case Binary(image) => Object(image)
      case failure => LinkFailure(failure)
  }

  method RunAssembler(text: Text) returns (r: Assembled)
    ensures r == Assemble(text)
  {
    hide Lexemes, ParseAll, Link;
    var scanner := new Scanner(text);
    assert Rest(scanner) == Lexemes(text, 0);
    var tree := SyntaxAnalyze(scanner);
    match tree {
      case Failure(e) => return SyntaxFailure(e);
      case Success(nodes) =>
        var linked := GenerateBinary(nodes);
        match linked {
          case Binary(image) => return Object(image);
          case failure => return LinkFailure(failure);
        }
    }
  }

  /** The image depends only on the program, not on how its text is laid out. */
  lemma AssembledAsWritten(srcs: seq<Source>, gaps: seq<Gap>)
    requires AllWritable(srcs) && |gaps| == |ProgramTokens(srcs)| + 1 && Apart(ProgramTokens(srcs), gaps)
    ensures Assemble(Layout(ProgramTokens(srcs), gaps)) ==
            match Link(Meanings(srcs))
            case Binary(image) => Object(image)
            case failure => LinkFailure(failure)
  {
    hide Lexemes, ParseAll, Link, Layout, ProgramTokens, Meanings, AllWritable, Apart;
    ProgramRead(srcs, gaps);
  }
}
