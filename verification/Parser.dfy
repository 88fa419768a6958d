/** The assembler's parser: tokens to syntax-tree nodes. */
module Parser {
  import opened Isa
  import opened Linker
  import opened Lexer
  import opened TokenText

  datatype Kind = A_NUMBER | A_NAME | A_STRING | AN_OPEN | A_CLOSE | A_COLON | A_COMMA | A_SEMICOLON | OTHER

  function KindOf(t: Token): Kind {
    match t
    case Integer(_) => A_NUMBER
    case Ident(_) => A_NAME
    case Str(_) => A_STRING
    case OpenBrackets => AN_OPEN
    case CloseBrackets => A_CLOSE
    case Colon => A_COLON
    case Comma => A_COMMA
    case Semicolon => A_SEMICOLON
    case _ => OTHER
  }

  datatype SyntaxError =
    | Expected(kind: Kind) | UnknownRegister(name: Text) | TooBig(value: int) | BadOperand
    | NegativeBlock(words: int) | UnknownDirective(name: Text) | BadCharacter | OutOfBuffer

  /** A result and the tokens after it. */
  datatype Parsed<+T> = Ok(value: T, rest: Stream) | Err(error: SyntaxError) {
    predicate IsFailure() { Err? }

    function PropagateFailure<U>(): Parsed<U>
      requires Err?
    {
      Err(error)
    }

    function Extract(): (T, Stream)
      requires Ok?
    {
      (value, rest)
    }
  }

  function Length(s: Stream): nat {
    match s
    case More(_, rest) => 1 + Length(rest)
    case _ => 0
  }

  // ---------- names ----------

  datatype Mnemonic = TypeR(opr: OpR) | TypeI(opi: OpI) | NoInstr

  const MNEMONICS: seq<Mnemonic> := [
    TypeR(ADD), TypeR(SUB), TypeR(MUL), TypeR(DIV), TypeR(CMP_EQUAL), TypeR(CMP_NEQ), TypeR(CMP_LESS),
      TypeR(CMP_GREATER),
    TypeR(CMP_LESS_EQ), TypeR(CMP_GREATER_EQ), TypeR(AND), TypeR(OR), TypeR(XOR), TypeR(SHL), TypeR(SHR),
    TypeR(LOAD), TypeR(STORE), TypeR(SYSCALL), TypeI(JUMP), TypeI(JUMP_COND), TypeI(MOV)]

  function NameR(op: OpR): Text {
    match op
    case ADD => "add" case SUB => "sub" case MUL => "mul" case DIV => "div"
    case CMP_EQUAL => "cmp_equal" case CMP_NEQ => "cmp_neq" case CMP_LESS => "cmp_less"
      case CMP_GREATER => "cmp_greater"
    case CMP_LESS_EQ => "cmp_less_eq" case CMP_GREATER_EQ => "cmp_greater_eq"
    case AND => "and" case OR => "or" case XOR => "xor" case SHL => "shl" case SHR => "shr"
    case LOAD => "load" case STORE => "store" case SYSCALL => "syscall"
  }

  function NameI(op: OpI): Text {
    match op
    case JUMP => "jump"
    case JUMP_COND => "jump_cond"
    case MOV => "mov"
  }

  function NameOf(m: Mnemonic): Text {
    match m
    case TypeR(op) => NameR(op)
    case TypeI(op) => NameI(op)
    case NoInstr => ""
  }

  /** The first instruction of the table with this name. */
  function FindMnemonic(table: seq<Mnemonic>, name: Text): Mnemonic {
    if table == [] then NoInstr
    else if NameOf(table[0]) == name then table[0]
    else FindMnemonic(table[1..], name)
  }

  function RegName(r: Reg): Text {
    ['r', DigitChar(r)]
  }

  /** The register of this name, or 8. */
  function FindReg(name: Text, from: nat): (r: nat)
    requires from <= 8
    ensures from <= r <= 8 && (r < 8 ==> name == RegName(r))
    decreases 8 - from
  {
    if from == 8 || name == RegName(from) then from else FindReg(name, from + 1)
  }

  // ---------- the grammar ----------

  function GetTok(s: Stream): (r: Parsed<Token>)
    ensures r.Ok? ==> Length(r.rest) <= Length(s) && (r.value != End ==> Length(r.rest) < Length(s))
  {
    match s
    case More(t, rest) => Ok(t, rest)
    case Done => Ok(End, Done)
    case NoToken => Err(BadCharacter)
    case OutOfBounds => Err(OutOfBuffer)
  }

  function Expect(s: Stream, kind: Kind): (r: Parsed<Token>)
    ensures r.Ok? ==> Length(r.rest) <= Length(s) && KindOf(r.value) == kind
  {
    var (t, rest) :- GetTok(s);
    if KindOf(t) == kind then Ok(t, rest) else Err(Expected(kind))
  }

  function ParseReg(s: Stream): (r: Parsed<Reg>)
    ensures r.Ok? ==> Length(r.rest) <= Length(s)
  {
    var (t, rest) :- Expect(s, A_NAME);
    var r := FindReg(t.name, 0);
    if r < 8 then Ok(r, rest) else Err(UnknownRegister(t.name))
  }

  function ParseBracketed(s: Stream): (r: Parsed<Reg>)
    ensures r.Ok? ==> Length(r.rest) <= Length(s)
  {
    var (_, s1) :- Expect(s, AN_OPEN);
    var (a, s2) :- ParseReg(s1);
    var (_, s3) :- Expect(s2, A_CLOSE);
    Ok(a, s3)
  }

  function ParseInstrR(op: OpR, s: Stream): (r: Parsed<Item>)
    ensures r.Ok? ==> Length(r.rest) <= Length(s)
  {
    match op
    case LOAD =>
      var (dest, s1) :- ParseReg(s);
      var (_, s2) :- Expect(s1, A_COMMA);
      var (a, s3) :- ParseBracketed(s2);
      Ok(InstrR(op, dest, a, 0), s3)
    case STORE =>
      var (a, s1) :- ParseBracketed(s);
      var (_, s2) :- Expect(s1, A_COMMA);
      var (b, s3) :- ParseReg(s2);
      Ok(InstrR(op, 0, a, b), s3)
    case SYSCALL => Ok(InstrR(op, 0, 0, 0), s)
    case _ => ParseThree(op, s)
  }

  function ParseThree(op: OpR, s: Stream): (r: Parsed<Item>)
    ensures r.Ok? ==> Length(r.rest) <= Length(s)
  {
    var (dest, s1) :- ParseReg(s);
    var (_, s2) :- Expect(s1, A_COMMA);
    var (a, s3) :- ParseReg(s2);
    var (_, s4) :- Expect(s3, A_COMMA);
    var (b, s5) :- ParseReg(s4);
    Ok(InstrR(op, dest, a, b), s5)
  }

  const IMED_BITS_POWER := 1024

  function ParseInstrI(op: OpI, s: Stream): (r: Parsed<Item>)
    ensures r.Ok? ==> Length(r.rest) <= Length(s)
  {
    match op
    case JUMP =>
      var (t, s1) :- Expect(s, A_NAME);
      Ok(InstrI(op, 0, Name(t.name)), s1)
    case JUMP_COND =>
      var (reg, s1) :- ParseReg(s);
      var (_, s2) :- Expect(s1, A_COMMA);
      var (t, s3) :- Expect(s2, A_NAME);
      Ok(InstrI(op, reg, Name(t.name)), s3)
    case MOV =>
      var (reg, s1) :- ParseReg(s);
      var (_, s2) :- Expect(s1, A_COMMA);
      var (t, s3) :- GetTok(s2);
      match t
      case Integer(v) => if v > IMED_BITS_POWER then Err(TooBig(v)) else Ok(InstrI(op, reg, Number(Wrap(v))), s3)
      case Ident(name) => Ok(InstrI(op, reg, Name(name)), s3)
      case _ => Err(BadOperand)
  }

  function Zeros(n: nat): seq<Word> {
    seq(n, _ => 0)
  }

  /** A signed character as a word. */
  function CharWord(c: Byte): Word {
    if c as int < 128 then c as int else 0xFF00 + c as int
  }

  /** The characters up to the first zero, and a zero. */
  function StringWords(s: Text): seq<Word> {
    if s == [] || s[0] == '\0' then [0] else [CharWord(s[0])] + StringWords(s[1..])
  }

  function ParseWords(s: Stream, words: seq<Word>): (r: Parsed<seq<Word>>)
    ensures r.Ok? ==> Length(r.rest) <= Length(s)
    decreases Length(s)
  {
    var (t, rest) :- GetTok(s);
    match t
    case Semicolon => Ok(words, rest)
    case Integer(v) => ParseWords(rest, words + [Wrap(v)])
    case _ => Err(Expected(A_NUMBER))
  }

  function ParseDirective(s: Stream): (r: Parsed<Item>)
    ensures r.Ok? ==> Length(r.rest) <= Length(s)
  {
    var (t, s1) :- Expect(s, A_NAME);
    if t.name == "data" then
      var (n, s2) :- Expect(s1, A_NUMBER);
      if n.value < 0 then Err(NegativeBlock(n.value)) else Ok(Data(Zeros(n.value)), s2)
    else if t.name == "word" then
      var (words, s2) :- ParseWords(s1, []);
      Ok(Data(words), s2)
    else if t.name == "asciiz" then
      var (text, s2) :- Expect(s1, A_STRING);
      Ok(Data(StringWords(text.text)), s2)
    else Err(UnknownDirective(t.name))
  }

  /** One node, whose first token has been read. */
  function ParseNode(first: Token, s: Stream): (r: Parsed<Item>)
    ensures r.Ok? ==> Length(r.rest) <= Length(s)
  {
    match first
    case Dot => ParseDirective(s)
    case Ident(name) =>
      (match FindMnemonic(MNEMONICS, name)
       case TypeR(op) => ParseInstrR(op, s)
       case TypeI(op) => ParseInstrI(op, s)
       case NoInstr =>
         var (_, s1) :- Expect(s, A_COLON);
         Ok(Label(name), s1))
    case _ => Err(Expected(A_NAME))
  }

  function ParseAll(s: Stream): (r: Parsed<seq<Item>>)
    decreases Length(s)
  {
    var (t, s1) :- GetTok(s);
    if t == End then Ok([], s1)
    else
      var (item, s2) :- ParseNode(t, s1);
      var (items, s3) :- ParseAll(s2);
      Ok([item] + items, s3)
  }

  // ---------- the parser in place ----------

  datatype Result<+T> = Success(value: T) | Failure(error: SyntaxError) {
    predicate IsFailure() { Failure? }

    function PropagateFailure<U>(): Result<U>
      requires Failure?
    {
      Failure(error)
    }

    function Extract(): T
      requires Success?
    {
      value
    }
  }

  /** The tokens the scanner has not yet read. */
  ghost function Rest(s: Scanner): Stream
    requires s.bpos <= |s.text|
    reads s
  {
    Lexemes(s.text, s.bpos)
  }

  /** The outcome r with `rest` left over is the one the grammar gives. */
  ghost predicate Reads<T>(r: Result<T>, rest: Stream, p: Parsed<T>) {
    match p
    case Ok(value, after) => r == Success(value) && rest == after
    case Err(e) => r == Failure(e)
  }

  lemma EndStays(text: Text, i: nat)
    requires i <= |text| && NextToken(text, i).Got? && NextToken(text, i).token == End
    ensures Lexemes(text, NextToken(text, i).pos) == Done
  {
    EndsAtZero(text, i);
  }

  lemma {:induction false} EndsAtZero(text: Text, i: nat)
    requires i <= |text| && NextToken(text, i).Got? && NextToken(text, i).token == End
    ensures CharAt(text, NextToken(text, i).pos) == '\0'
    decreases |text| - i, 1
  {
    var c := CharAt(text, i);
    if c == '#' {
      CommentEndsAtZero(text, i + 1);
    } else if c != '\0' {
      EndsAtZero(text, i + 1);
    }
  }

  lemma {:induction false} CommentEndsAtZero(text: Text, i: nat)
    requires i <= |text| && InComment(text, i).Got? && InComment(text, i).token == End
    ensures CharAt(text, InComment(text, i).pos) == '\0'
    decreases |text| - i, 0
  {
    if text[i] == '\n' {
      EndsAtZero(text, i + 1);
    } else {
      CommentEndsAtZero(text, i + 1);
    }
  }

  method GetToken(s: Scanner) returns (r: Result<Token>)
    requires s.bpos <= |s.text|
    modifies s
    ensures s.bpos <= |s.text| && Reads(r, Rest(s), GetTok(old(Rest(s))))
  {
    hide NextToken;
    ghost var at := s.bpos;
    var l := s.GetToken();
    match l {
      case Got(token, _) =>
        if token == End {
          EndStays(s.text, at);
        }
        return Success(token);
      case BadChar => return Failure(BadCharacter);
      case Overrun => return Failure(OutOfBuffer);
    }
  }

  method GetTokenExpect(s: Scanner, kind: Kind) returns (r: Result<Token>)
    requires s.bpos <= |s.text|
    modifies s
    ensures s.bpos <= |s.text| && Reads(r, Rest(s), Expect(old(Rest(s)), kind))
  {
    hide Lexemes;
    var t :- GetToken(s);
    if KindOf(t) != kind {
      return Failure(Expected(kind));
    }
    return Success(t);
  }

  method SyntaxParseReg(s: Scanner) returns (r: Result<Reg>)
    requires s.bpos <= |s.text|
    modifies s
    ensures s.bpos <= |s.text| && Reads(r, Rest(s), ParseReg(old(Rest(s))))
  {
    hide Lexemes;
    var t :- GetTokenExpect(s, A_NAME);
    for i := 0 to 8
      invariant FindReg(t.name, 0) == FindReg(t.name, i)
      modifies {}
    {
      if t.name == RegName(i) {
        return Success(i);
      }
    }
    return Failure(UnknownRegister(t.name));
  }

  method SyntaxParseBracketed(s: Scanner) returns (r: Result<Reg>)
    requires s.bpos <= |s.text|
    modifies s
    ensures s.bpos <= |s.text| && Reads(r, Rest(s), ParseBracketed(old(Rest(s))))
  {
    hide Lexemes, Expect, ParseReg;
    var _ :- GetTokenExpect(s, AN_OPEN);
    var a :- SyntaxParseReg(s);
    var _ :- GetTokenExpect(s, A_CLOSE);
    return Success(a);
  }

  method SyntaxParseInstrR(s: Scanner, op: OpR) returns (r: Result<Item>)
    requires s.bpos <= |s.text|
    modifies s
    ensures s.bpos <= |s.text| && Reads(r, Rest(s), ParseInstrR(op, old(Rest(s))))
  {
    hide Lexemes, Expect, ParseReg, ParseBracketed, ParseThree;
    match op {
      case LOAD =>
        var dest :- SyntaxParseReg(s);
        var _ :- GetTokenExpect(s, A_COMMA);
        var a :- SyntaxParseBracketed(s);
        return Success(InstrR(op, dest, a, 0));
      case STORE =>
        var a :- SyntaxParseBracketed(s);
        var _ :- GetTokenExpect(s, A_COMMA);
        var b :- SyntaxParseReg(s);
        return Success(InstrR(op, 0, a, b));
      case SYSCALL =>
        return Success(InstrR(op, 0, 0, 0));
      case _ =>
        r := SyntaxParseThree(s, op);
    }
  }

  method SyntaxParseThree(s: Scanner, op: OpR) returns (r: Result<Item>)
    requires s.bpos <= |s.text|
    modifies s
    ensures s.bpos <= |s.text| && Reads(r, Rest(s), ParseThree(op, old(Rest(s))))
  {
    hide Lexemes, Expect, ParseReg;
    var dest :- SyntaxParseReg(s);
    var _ :- GetTokenExpect(s, A_COMMA);
    var a :- SyntaxParseReg(s);
    var _ :- GetTokenExpect(s, A_COMMA);
    var b :- SyntaxParseReg(s);
    return Success(InstrR(op, dest, a, b));
  }

  method SyntaxParseInstrI(s: Scanner, op: OpI) returns (r: Result<Item>)
    requires s.bpos <= |s.text|
    modifies s
    ensures s.bpos <= |s.text| && Reads(r, Rest(s), ParseInstrI(op, old(Rest(s))))
  {
    hide Lexemes, Expect, ParseReg, GetTok, Wrap;
    match op {
      case JUMP =>
        var t :- GetTokenExpect(s, A_NAME);
        return Success(InstrI(op, 0, Name(t.name)));
      case JUMP_COND =>
        var reg :- SyntaxParseReg(s);
        var _ :- GetTokenExpect(s, A_COMMA);
        var t :- GetTokenExpect(s, A_NAME);
        return Success(InstrI(op, reg, Name(t.name)));
      case MOV =>
        var reg :- SyntaxParseReg(s);
        var _ :- GetTokenExpect(s, A_COMMA);
        var t :- GetToken(s);
        match t {
          case Integer(v) =>
            if v > IMED_BITS_POWER {
              return Failure(TooBig(v));
            }
            return Success(InstrI(op, reg, Number(Wrap(v))));
          case Ident(name) => return Success(InstrI(op, reg, Name(name)));
          case _ => return Failure(BadOperand);
        }
    }
  }

  method SyntaxParseDirective(s: Scanner) returns (r: Result<Item>)
    requires s.bpos <= |s.text|
    modifies s
    ensures s.bpos <= |s.text| && Reads(r, Rest(s), ParseDirective(old(Rest(s))))
  {
    hide Lexemes, Expect, ParseWords, StringWords;
    var t :- GetTokenExpect(s, A_NAME);
    if t.name == "data" {
      var n :- GetTokenExpect(s, A_NUMBER);
      if n.value < 0 {
        return Failure(NegativeBlock(n.value));
      }
      var words := PushZeros(n.value);
      return Success(Data(words));
    } else if t.name == "word" {
      var words :- ReadWords(s);
      return Success(Data(words));
    } else if t.name == "asciiz" {
      var text :- GetTokenExpect(s, A_STRING);
      var words := PushString(text.text);
      return Success(Data(words));
    } else {
      return Failure(UnknownDirective(t.name));
    }
  }

  method PushZeros(n: nat) returns (words: seq<Word>)
    ensures words == Zeros(n)
  {
    words := [];
    for i := 0 to n
      invariant words == Zeros(i)
    {
      words := words + [0];
    }
  }

  method PushString(text: Text) returns (words: seq<Word>)
    ensures words == StringWords(text)
  {
    words := [];
    var i := 0;
    assert text[0..] == text;
    while i < |text| && text[i] != '\0'
      invariant i <= |text| && words + StringWords(text[i..]) == StringWords(text)
    {
      assert text[i..][1..] == text[i + 1..];
      assert words + ([CharWord(text[i])] + StringWords(text[i + 1..])) == words + [CharWord(text[i])]
        + StringWords(text[i + 1..]);
      words := words + [CharWord(text[i])];
      i := i + 1;
    }
    words := words + [0];
  }

  method ReadWords(s: Scanner) returns (r: Result<seq<Word>>)
    requires s.bpos <= |s.text|
    modifies s
    ensures s.bpos <= |s.text| && Reads(r, Rest(s), ParseWords(old(Rest(s)), []))
  {
    hide Lexemes, Wrap;
    var words := [];
    ghost var all := ParseWords(Rest(s), []);
    while true
      invariant s.bpos <= |s.text| && ParseWords(Rest(s), words) == all
      decreases Length(Rest(s))
    {
      ghost var before := Rest(s);
      var t :- GetToken(s);
      match t {
        case Semicolon => return Success(words);
        case Integer(v) => words := words + [Wrap(v)];
        case _ => return Failure(Expected(A_NUMBER));
      }
    }
  }

  method GetInstrByLabel(name: Text) returns (m: Mnemonic)
    ensures m == FindMnemonic(MNEMONICS, name)
  {
    hide NameOf;
    var table := MNEMONICS;
    assert table[0..] == table;
    for i := 0 to |table|
      invariant FindMnemonic(table, name) == FindMnemonic(table[i..], name)
    {
      assert table[i..][1..] == table[i + 1..];
      if NameOf(table[i]) == name {
        return table[i];
      }
    }
    return NoInstr;
  }

  /** One node after its first token. */
  method SyntaxParseNode(s: Scanner, first: Token) returns (r: Result<Item>)
    requires s.bpos <= |s.text|
    modifies s
    ensures s.bpos <= |s.text| && Reads(r, Rest(s), ParseNode(first, old(Rest(s))))
  {
    hide Lexemes, Expect, ParseInstrR, ParseInstrI, ParseDirective, FindMnemonic;
    if first.Dot? {
      r := SyntaxParseDirective(s);
      return;
    }
    if !first.Ident? {
      return Failure(Expected(A_NAME));
    }
    var m := GetInstrByLabel(first.name);
    match m {
      case TypeR(op) => r := SyntaxParseInstrR(s, op);
      case TypeI(op) => r := SyntaxParseInstrI(s, op);
      case NoInstr =>
        var _ :- GetTokenExpect(s, A_COLON);
        r := Success(Label(first.name));
    }
  }

  /** These items, and then what is parsed from the rest. */
  ghost function With(items: seq<Item>, p: Parsed<seq<Item>>): Parsed<seq<Item>> {
    match p
    case Ok(more, rest) => Ok(items + more, rest)
    case Err(e) => Err(e)
  }

  /** The whole text: a list of new nodes, or the first error. */
  method SyntaxAnalyze(s: Scanner) returns (r: Result<seq<Node>>)
    requires s.bpos <= |s.text|
    modifies s
    ensures match ParseAll(old(Rest(s)))
            case Ok(items, _) => r.Success? && Items(r.value) == items
            case Err(e) => r == Failure(e)
    ensures r.Success? ==> Separate(r.value)
    ensures r.Success? ==> forall i :: 0 <= i < |r.value| ==> fresh(r.value[i]) && r.value[i].Parsed()
  {
    hide Lexemes, ParseNode;
    ghost var all := ParseAll(Rest(s));
    var tree: seq<Node> := [];
    assert all.Ok? ==> [] + all.value == all.value;
    while true
      invariant s.bpos <= |s.text| && With(Items(tree), ParseAll(Rest(s))) == all
      invariant Separate(tree) && forall i :: 0 <= i < |tree| ==> fresh(tree[i]) && tree[i].Parsed()
      decreases Length(Rest(s))
    {
      ghost var before, items := Rest(s), Items(tree);
      var t :- GetToken(s);
      if t == End {
        assert items + [] == items;
        return Success(tree);
      }
      ghost var middle := Rest(s);
      var item :- SyntaxParseNode(s, t);
      var node := new Node(item);
      tree := tree + [node];
      assert Items(tree) == items + [item];
      WithStep(items, item, before, t, middle, Rest(s));
    }
  }

  lemma WithStep(items: seq<Item>, item: Item, before: Stream, t: Token, middle: Stream, rest: Stream)
    requires GetTok(before) == Ok(t, middle) && t != End && ParseNode(t, middle) == Ok(item, rest)
    ensures With(items, ParseAll(before)) == With(items + [item], ParseAll(rest))
  {
    hide ParseNode;
    match ParseAll(rest)
    case Ok(more, _) => assert items + ([item] + more) == items + [item] + more;
    case Err(_) =>
  }
}
