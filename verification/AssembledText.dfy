/** The assembler on real characters: how everything is spelled, and the words of a whole file. */
module AssembledText {
  import opened Isa
  import opened Linker
  import opened Lexer
  import opened TokenText
  import opened Parser
  import opened FrontEnd
  import opened Bits
  import opened Encoding
  import opened IdleProgram

  /** The names of the register instructions. */
  lemma MnemonicR(op: OpR)
    ensures FindMnemonic(MNEMONICS,
              match op
              case ADD => "add" case SUB => "sub" case MUL => "mul" case DIV => "div"
              case CMP_EQUAL => "cmp_equal" case CMP_NEQ => "cmp_neq"
              case CMP_LESS => "cmp_less" case CMP_GREATER => "cmp_greater"
              case CMP_LESS_EQ => "cmp_less_eq" case CMP_GREATER_EQ => "cmp_greater_eq"
              case AND => "and" case OR => "or" case XOR => "xor" case SHL => "shl" case SHR => "shr"
              case LOAD => "load" case STORE => "store" case SYSCALL => "syscall") == TypeR(op)
  {
    hide FindMnemonic;
    MnemonicFound(TypeR(op));
  }

  /** The names of the immediate instructions. */
  lemma MnemonicI(op: OpI)
    ensures FindMnemonic(MNEMONICS, match op case JUMP => "jump" case JUMP_COND => "jump_cond" case MOV => "mov") ==
            TypeI(op)
  {
    hide FindMnemonic;
    MnemonicFound(TypeI(op));
  }

  /** The names of the registers, and no others. */
  lemma Registers(name: Text)
    ensures FindReg("r0", 0) == 0 && FindReg("r1", 0) == 1 && FindReg("r2", 0) == 2 && FindReg("r3", 0) == 3
    ensures FindReg("r4", 0) == 4 && FindReg("r5", 0) == 5 && FindReg("r6", 0) == 6 && FindReg("r7", 0) == 7
    ensures FindReg(name, 0) == 8 <==> name !in ["r0", "r1", "r2", "r3", "r4", "r5", "r6", "r7"]
  {
    hide FindReg, DigitChar;
    RegisterNames();
    forall r: Reg ensures FindReg(RegName(r), 0) == r {
      RegisterFound(r);
    }
    assert FindReg(name, 0) < 8 ==> name == RegName(FindReg(name, 0));
  }

  lemma RegisterNames()
    ensures RegName(0) == "r0" && RegName(1) == "r1" && RegName(2) == "r2" && RegName(3) == "r3"
    ensures RegName(4) == "r4" && RegName(5) == "r5" && RegName(6) == "r6" && RegName(7) == "r7"
  {
  }

  /** A number is accepted by mov up to 1024; a negative one, or one above that, is a word or an error. */
  lemma ImmediateLimit(reg: Reg, v: int, rest: Stream)
    ensures ParseInstrI(MOV, More(Ident(RegName(reg)), More(Comma, More(Integer(v), rest)))) ==
            if v <= 1024 then Ok(InstrI(MOV, reg, Number(v % 65536)), rest) else Err(TooBig(v))
  {
    hide ParseReg;
    RegisterParsed(reg, More(Comma, More(Integer(v), rest)));
  }

  /** `.data n` is n words of zero. */
  lemma DataIsZeros(n: nat, rest: Stream)
    ensures var r := ParseDirective(More(Ident("data"), More(Integer(n), rest)));
            && r.Ok? && r.rest == rest && r.value.Data? && |r.value.words| == n
            && forall i :: 0 <= i < n ==> r.value.words[i] == 0
  {
  }

  /** The operands of a register instruction, in the order in which they are written: `rd, ra, rb` for
      arithmetic and comparison, none for a call. */
  lemma RegisterForms(op: OpR, d: Reg, a: Reg, b: Reg, rest: Stream)
    ensures op != LOAD && op != STORE && op != SYSCALL ==>
              ParseInstrR(op, More(Ident(RegName(d)), More(Comma, More(Ident(RegName(a)), More(Comma,
                More(Ident(RegName(b)), rest)))))) == Ok(InstrR(op, d, a, b), rest)
    ensures ParseInstrR(SYSCALL, rest) == Ok(InstrR(SYSCALL, 0, 0, 0), rest)
  {
    hide ParseReg, RegName, ParseBracketed;
    RegisterParsed(d, More(Comma, More(Ident(RegName(a)), More(Comma, More(Ident(RegName(b)), rest)))));
    RegisterParsed(a, More(Comma, More(Ident(RegName(b)), rest)));
    RegisterParsed(b, rest);
  }

  /** `rd, [ra]` for a load, `[ra], rb` for a store. */
  lemma MemoryForms(d: Reg, a: Reg, b: Reg, rest: Stream)
    ensures ParseInstrR(LOAD, More(Ident(RegName(d)), More(Comma, More(OpenBrackets, More(Ident(RegName(a)),
              More(CloseBrackets, rest)))))) == Ok(InstrR(LOAD, d, a, 0), rest)
    ensures ParseInstrR(STORE, More(OpenBrackets, More(Ident(RegName(a)), More(CloseBrackets, More(Comma,
              More(Ident(RegName(b)), rest)))))) == Ok(InstrR(STORE, 0, a, b), rest)
  {
    hide ParseReg, RegName, ParseThree, ParseBracketed;
    RegisterParsed(d, More(Comma, More(OpenBrackets, More(Ident(RegName(a)), More(CloseBrackets, rest)))));
    InBrackets(a, rest);
    InBrackets(a, More(Comma, More(Ident(RegName(b)), rest)));
    RegisterParsed(b, rest);
  }

  lemma InBrackets(a: Reg, rest: Stream)
    ensures ParseBracketed(More(OpenBrackets, More(Ident(RegName(a)), More(CloseBrackets, rest)))) == Ok(a, rest)
  {
    hide ParseReg, RegName;
    RegisterParsed(a, More(CloseBrackets, rest));
  }

  /** And of the others: `label` for a jump, `r, label` for a conditional jump and for moving an address. */
  lemma ImmediateForms(r: Reg, name: Text, rest: Stream)
    ensures ParseInstrI(JUMP, More(Ident(name), rest)) == Ok(InstrI(JUMP, 0, Name(name)), rest)
    ensures ParseInstrI(JUMP_COND, More(Ident(RegName(r)), More(Comma, More(Ident(name), rest)))) ==
            Ok(InstrI(JUMP_COND, r, Name(name)), rest)
    ensures ParseInstrI(MOV, More(Ident(RegName(r)), More(Comma, More(Ident(name), rest)))) ==
            Ok(InstrI(MOV, r, Name(name)), rest)
  {
    hide ParseReg, RegName;
    RegisterParsed(r, More(Comma, More(Ident(name), rest)));
  }

  /** Any other name with a colon behind it is a label, without one an error; what starts with neither a
      name nor a dot is an error. */
  lemma NodeForms(name: Text, t: Token, rest: Stream)
    requires FindMnemonic(MNEMONICS, name) == NoInstr
    ensures ParseNode(Ident(name), More(Colon, rest)) == Ok(Label(name), rest)
    ensures t != Colon ==> ParseNode(Ident(name), More(t, rest)) == Err(Expected(A_COLON))
    ensures !t.Ident? && t != Dot ==> ParseNode(t, rest) == Err(Expected(A_NAME))
  {
    hide FindMnemonic, ParseInstrR, ParseInstrI, ParseDirective;
  }

  /** A negative number of words is refused, and so is any directive but the three. */
  lemma DirectiveErrors(name: Text, n: int, rest: Stream)
    ensures n < 0 ==> ParseDirective(More(Ident("data"), More(Integer(n), rest))) == Err(NegativeBlock(n))
    ensures name !in ["data", "word", "asciiz"] ==>
              ParseDirective(More(Ident(name), rest)) == Err(UnknownDirective(name))
  {
  }

  /** Where a register is expected, exactly the eight names are accepted. */
  lemma RegisterOperand(name: Text, rest: Stream)
    ensures ParseReg(More(Ident(name), rest)).Ok? <==> name in ["r0", "r1", "r2", "r3", "r4", "r5", "r6", "r7"]
    ensures name !in ["r0", "r1", "r2", "r3", "r4", "r5", "r6", "r7"] ==>
              ParseReg(More(Ident(name), rest)) == Err(UnknownRegister(name))
  {
    hide FindReg;
    Registers(name);
  }

  /** The linker accepts a program exactly when it defines `_start` and every label that it uses. */
  lemma LinksExactly(items: seq<Item>)
    ensures Link(items).Binary? <==>
            && (exists j :: 0 <= j < |items| && items[j] == Label("_start"))
            && (forall i :: 0 <= i < |items| && items[i].InstrI? && items[i].operand.Name? ==>
                  exists j :: 0 <= j < |items| && items[j] == Label(items[i].operand.name))
  {
    hide Image, FirstLabel;
    DefinedExactly(items, "_start");
    forall i | 0 <= i < |items| && items[i].InstrI? && items[i].operand.Name?
      ensures Dangling(items, items[i]) <==> !exists j :: 0 <= j < |items| && items[j] == Label(items[i].operand.name)
    {
      DefinedExactly(items, items[i].operand.name);
    }
  }

  lemma DefinedExactly(items: seq<Item>, name: Text)
    ensures Defined(items, name) <==> exists j :: 0 <= j < |items| && items[j] == Label(name)
  {
    if Defined(items, name) {
      assert items[FirstLabel(items, name)] == Label(name);
    }
  }

  // ---------- characters ----------

  /** Single characters that are tokens. */
  lemma Punctuated(text: Text, i: nat)
    requires i < |text|
    ensures text[i] == '[' ==> NextToken(text, i) == Got(OpenBrackets, i + 1)
    ensures text[i] == ']' ==> NextToken(text, i) == Got(CloseBrackets, i + 1)
    ensures text[i] == ':' ==> NextToken(text, i) == Got(Colon, i + 1)
    ensures text[i] == ',' ==> NextToken(text, i) == Got(Comma, i + 1)
    ensures text[i] == '.' ==> NextToken(text, i) == Got(Dot, i + 1)
    ensures text[i] == ';' ==> NextToken(text, i) == Got(Semicolon, i + 1)
  {
    hide RestOfInteger, RestOfWord, RestOfString, InComment, AfterMinus;
  }

  /** A character that no token starts with. */
  lemma Unknown(text: Text, i: nat)
    requires i < |text| && !WordChar(text[i]) && text[i] != '\0' && text[i] != '#' && text[i] != '-' && text[i] != '"'
    requires text[i] != ' ' && text[i] != '\t' && text[i] != '\r' && text[i] != '\n'
    requires text[i] != '[' && text[i] != ']' && text[i] != ':' && text[i] != ',' && text[i] != '.' && text[i] != ';'
    ensures NextToken(text, i) == BadChar
  {
    hide RestOfInteger, RestOfWord, RestOfString, InComment, AfterMinus;
  }

  /** Blanks and comments are skipped. */
  lemma Skipped(text: Text, i: nat, j: nat)
    requires i < |text|
    ensures text[i] == ' ' || text[i] == '\t' || text[i] == '\r' || text[i] == '\n' ==>
              NextToken(text, i) == NextToken(text, i + 1)
    ensures text[i] == '#' && i < j < |text| && text[j] == '\n' && '\n' !in text[i..j] ==>
              NextToken(text, i) == NextToken(text, j + 1)
  {
    if text[i] == '#' && i < j < |text| && text[j] == '\n' && '\n' !in text[i..j] {
      CommentSkipped(text, i, i + 1, j);
    }
  }

  lemma {:induction false} CommentSkipped(text: Text, i: nat, m: nat, j: nat)
    requires i < m <= j < |text| && text[j] == '\n' && '\n' !in text[i..j]
    ensures InComment(text, m) == NextToken(text, j + 1)
    decreases j - m
  {
    hide NextToken;
    if m < j {
      assert text[m] in text[i..j];
      CommentSkipped(text, i, m + 1, j);
    }
  }

  /** What stands for what behind a backslash in a string; nothing else may stand there. */
  lemma Escapes(text: Text, i: nat, buf: Text)
    requires i < |text| && |buf| < 128
    ensures text[i] == 'n' ==> Escaped(text, i, buf) == RestOfString(text, i + 1, buf + [10 as char])
    ensures text[i] == 't' ==> Escaped(text, i, buf) == RestOfString(text, i + 1, buf + [9 as char])
    ensures text[i] == '"' ==> Escaped(text, i, buf) == RestOfString(text, i + 1, buf + [34 as char])
    ensures text[i] == '\\' ==> Escaped(text, i, buf) == RestOfString(text, i + 1, buf + [92 as char])
    ensures text[i] !in "nt\"\\" ==> Escaped(text, i, buf) == BadChar
  {
    hide RestOfString;
  }

  ghost predicate WordChar(c: Byte) {
    'a' <= c <= 'z' || 'A' <= c <= 'Z' || '0' <= c <= '9' || c == '_'
  }

  /** A comment or a string that is not closed runs beyond the text. */
  lemma Unclosed(text: Text, i: nat)
    requires i < |text|
    ensures text[i] == '#' && '\n' !in text[i..] ==> NextToken(text, i) == Overrun
    ensures text[i] == '"' && '"' !in text[i + 1..] && '\\' !in text[i + 1..] ==> NextToken(text, i) == Overrun
  {
    hide RestOfInteger, RestOfWord, RestOfString, InComment, AfterMinus;
    if text[i] == '#' && '\n' !in text[i..] {
      CommentRunsOn(text, i, i + 1);
    }
    if text[i] == '"' && '"' !in text[i + 1..] && '\\' !in text[i + 1..] {
      StringRunsOn(text, i + 1, i + 1, []);
    }
  }

  lemma {:induction false} CommentRunsOn(text: Text, i: nat, m: nat)
    requires i <= m <= |text| && '\n' !in text[i..]
    ensures InComment(text, m) == Overrun
    decreases |text| - m
  {
    hide NextToken;
    if m < |text| {
      assert text[m] in text[i..];
      CommentRunsOn(text, i, m + 1);
    }
  }

  lemma {:induction false} StringRunsOn(text: Text, i: nat, m: nat, buf: Text)
    requires i <= m <= |text| && '"' !in text[i..] && '\\' !in text[i..]
    ensures RestOfString(text, m, buf) == Overrun
    decreases |text| - m
  {
    if m < |text| {
      assert text[m] in text[i..];
      StringRunsOn(text, i, m + 1, buf + [text[m]]);
    }
  }

  lemma {:induction false} WordEnds(text: Text, i: nat, m: nat, j: nat)
    requires i < m <= j <= |text| && m - i <= 128 && (j < |text| ==> !WordChar(text[j]))
    requires forall k :: i <= k < j ==> WordChar(text[k])
    ensures RestOfWord(text, m, text[i..m]) == if j - i <= 127 then Got(Ident(text[i..j]), j) else Overrun
    decreases j - m
  {
    if m < j && m - i < 128 {
      WordEnds(text, i, m + 1, j);
      assert text[i..m + 1] == text[i..m] + [text[m]];
    }
  }

  /** A word of up to 127 letters, digits and underscores is read as a name; a longer one overruns the
      buffer. */
  lemma WordRead(text: Text, i: nat, j: nat)
    requires i < j <= |text| && (j < |text| ==> !WordChar(text[j]))
    requires WordChar(text[i]) && !('0' <= text[i] <= '9') && forall k :: i <= k < j ==> WordChar(text[k])
    ensures NextToken(text, i) == if j - i <= 127 then Got(Ident(text[i..j]), j) else Overrun
  {
    hide RestOfWord;
    WordEnds(text, i, i + 1, j);
    assert text[i..i + 1] == [text[i]];
  }

  /** Decimal numbers, with a sign. */
  lemma Numbers()
    ensures Atoi("0") == 0 && Atoi("10") == 10 && Atoi("1024") == 1024 && Atoi("-27") == -27
  {
    assert "1024"[..3] == "102" && "102"[..2] == "10" && "10"[..1] == "1" && "1"[..0] == "" && "0"[..0] == "";
    assert "-27"[1..] == "27" && "27"[..1] == "2" && "2"[..0] == "";
    assert DigitsValue("1") == 1 && DigitsValue("10") == 10 && DigitsValue("102") == 102;
    assert DigitsValue("2") == 2 && DigitsValue("27") == 27;
  }

  // ---------- a whole file ----------

  /** The idle program as it is written: a label and two instructions. */
  function IdleSources(): seq<Source> {
    [Plain(Label("_start")), Plain(InstrI(MOV, 0, Number(0))), Plain(InstrI(JUMP, 0, Name("_start")))]
  }

  function NewLine(): Gap {
    [Blank('\n'), Blank('\t')]
  }

  function Space(): Gap {
    [Blank(' ')]
  }

  lemma IdleTokens()
    ensures ProgramTokens(IdleSources()) ==
            [Ident("_start"), Colon, Ident("mov"), Ident("r0"), Comma, Integer(0), Ident("jump"), Ident("_start")]
  {
    var s := IdleSources();
    assert TokensOf(s[0]) == [Ident("_start"), Colon];
    assert TokensOf(s[1]) == [Ident("mov"), Ident("r0"), Comma, Integer(0)];
    assert TokensOf(s[2]) == [Ident("jump"), Ident("_start")];
    assert ProgramTokens(s[3..]) == [];
    assert ProgramTokens(s[2..]) == TokensOf(s[2]) + ProgramTokens(s[2..][1..]);
    assert ProgramTokens(s[1..]) == TokensOf(s[1]) + ProgramTokens(s[1..][1..]);
  }

  function IdleGaps(): seq<Gap> {
    [[], [], NewLine(), Space(), [], Space(), NewLine(), Space(), []]
  }

  /** One token more in front of what is written. */
  lemma LayoutAt(tokens: seq<Token>, gaps: seq<Gap>, k: nat, before: Text, word: Text, rest: Text)
    requires |gaps| == |tokens| + 1 && k < |tokens| && Layout(tokens[k + 1..], gaps[k + 1..]) == rest
    requires GapText(gaps[k]) == before && Spell(tokens[k]) == word
    ensures Layout(tokens[k..], gaps[k..]) == before + (word + rest)
  {
    assert tokens[k..][1..] == tokens[k + 1..] && gaps[k..][1..] == gaps[k + 1..];
  }

  lemma GapTexts()
    ensures GapText([]) == "" && GapText(Space()) == " " && GapText(NewLine()) == "\n\t"
  {
    assert NewLine()[1..] == [Blank('\t')] && NewLine()[1..][1..] == [] && Space()[1..] == [];
  }

  lemma Spellings()
    ensures Spell(Colon) == ":" && Spell(Comma) == "," && Spell(Integer(0)) == "0"
  {
  }

  lemma LastLine(t: seq<Token>, g: seq<Gap>)
    requires t == ProgramTokens(IdleSources()) && g == IdleGaps()
    ensures |t| == 8 && Layout(t[6..], g[6..]) == "\n\tjump _start"
  {
    hide Layout, ProgramTokens, IdleSources, GapText, Digits, Space, NewLine;
    IdleTokens();
    GapTexts();
    Lines();
    LayoutLast(t, g);
    LayoutAt(t, g, 7, " ", "_start", "");
    LayoutAt(t, g, 6, "\n\t", "jump", " " + ("_start" + ""));
  }

  lemma MiddleLine(t: seq<Token>, g: seq<Gap>, last: Text)
    requires t == ProgramTokens(IdleSources()) && g == IdleGaps() && |t| == 8 && Layout(t[6..], g[6..]) == last
    ensures Layout(t[2..], g[2..]) == "\n\tmov r0, 0" + last
  {
    hide Layout, ProgramTokens, IdleSources, GapText, Digits, Space, NewLine;
    IdleTokens();
    GapTexts();
    Spellings();
    var number := " " + ("0" + last);
    var comma := "" + ("," + number);
    var reg := " " + ("r0" + comma);
    LayoutAt(t, g, 5, " ", "0", last);
    LayoutAt(t, g, 4, "", ",", number);
    LayoutAt(t, g, 3, " ", "r0", comma);
    LayoutAt(t, g, 2, "\n\t", "mov", reg);
    MovLine(last);
  }

  lemma IdleText()
    ensures Layout(ProgramTokens(IdleSources()), IdleGaps()) == "_start:" + "\n\tmov r0, 0" + "\n\tjump _start"
  {
    hide Layout, ProgramTokens, IdleSources, GapText, Digits, Space, NewLine;
    var t, g := ProgramTokens(IdleSources()), IdleGaps();
    LastLine(t, g);
    MiddleLine(t, g, "\n\tjump _start");
    IdleTokens();
    GapTexts();
    Spellings();
    var lines := "\n\tmov r0, 0" + "\n\tjump _start";
    LayoutAt(t, g, 1, "", ":", lines);
    LayoutAt(t, g, 0, "", "_start", "" + (":" + lines));
    LabelLine("\n\tmov r0, 0", "\n\tjump _start");
    assert t[0..] == t && g[0..] == g;
  }

  lemma LayoutLast(tokens: seq<Token>, gaps: seq<Gap>)
    requires |gaps| == |tokens| + 1
    ensures Layout(tokens[|tokens|..], gaps[|tokens|..]) == GapText(gaps[|tokens|])
  {
  }

  lemma Lines()
    ensures "\n\t" + ("jump" + (" " + ("_start" + ""))) == "\n\tjump _start"
  {
  }

  lemma MovLine(rest: Text)
    ensures "\n\t" + ("mov" + (" " + ("r0" + ("" + ("," + (" " + ("0" + rest))))))) == "\n\tmov r0, 0" + rest
  {
    assert "\n\t" + ("mov" + (" " + ("r0" + ("" + ("," + (" " + ("0" + rest))))))) ==
           ("\n\t" + ("mov" + (" " + ("r0" + ("," + (" " + "0")))))) + rest;
    assert "\n\t" + ("mov" + (" " + ("r0" + ("," + (" " + "0"))))) == "\n\tmov r0, 0";
  }

  lemma LabelLine(line: Text, rest: Text)
    ensures "" + ("_start" + ("" + (":" + (line + rest)))) == "_start:" + line + rest
  {
  }

  // ---------- its words ----------

  /** The word of an immediate instruction whose number fits ten bits: all fields side by side. */
  lemma ImmediateWord(opcode: Opcode2, reg: Reg, imed: Word)
    requires imed < 1024
    ensures EncodeI(opcode, reg, imed) == 0x8000 + 8192 * opcode + 1024 * reg + imed
  {
    OrZeros();
    PowerTable();
    hide EncodeI, Or, Pow2;
    var w := EncodeI(opcode, reg, imed);
    DecodeEncodeI(opcode, reg, imed);
    assert imed / 8192 % 4 == 0 && imed / 1024 % 8 == 0;
    FieldOfI(opcode, reg, imed, 0, 10);
    assert GetBits(32768, 0, 10) == 0 && GetBits(imed, 0, 10) == imed;
    assert GetBits(reg * 1024, 0, 10) == 0 && GetBits(opcode * 8192, 0, 10) == 0;
    Fields(w, opcode, reg, imed);
  }

  lemma Fields(w: Word, opcode: nat, reg: nat, imed: nat)
    requires Pow2(0) == 1 && Pow2(1) == 2 && Pow2(2) == 4 && Pow2(3) == 8 && Pow2(10) == 1024 && Pow2(13) == 8192
    requires Pow2(15) == 32768
    requires GetBits(w, 15, 1) == 1 && GetBits(w, 13, 2) == opcode && GetBits(w, 10, 3) == reg
    requires GetBits(w, 0, 10) == imed
    ensures w == 0x8000 + 8192 * opcode + 1024 * reg + imed
  {
    hide Pow2;
    assert w / 1 == w;
    var high := w / 1024;
    var higher := high / 8;
    assert w == 1024 * high + imed && w / 8192 == higher && w / 32768 == higher / 4;
    assert high == 8 * higher + reg && higher % 4 == opcode && higher / 4 % 2 == 1 && higher < 8;
  }

  /** The whole file idle.asm, character by character, and the four words it assembles to. */
  lemma IdleAssembled()
    ensures Assemble("_start:" + "\n\tmov r0, 0" + "\n\tjump _start") == Object([0, 32770, 57344, 32770])
  {
    hide *;
    IdleText();
    IdleReadable();
    AssembledAsWritten(IdleSources(), IdleGaps());
    IdleItems();
    IdleLinks(Meanings(IdleSources()));
    IdleImage(Meanings(IdleSources()));
  }

  lemma IdleImage(items: seq<Item>)
    requires IsIdle(items)
    ensures Image(items) == [0, 32770, 57344, 32770]
  {
    hide Image, EncodeI, AddressOf, FirstLabel, IsIdle;
    IdleLabels(items);
    AddressIsPosition(items, 1);
    AddressIsPosition(items, 2);
    ImmediateWord(0, 0, 2);
    ImmediateWord(3, 0, 0);
    ImageHead(items);
    assert Code(items, items[1]) == [57344] && Code(items, items[2]) == [32770];
    var image := Image(items);
    assert image[2] == image[2..3][0] && image[3] == image[3..4][0];
  }

  lemma ImageHead(items: seq<Item>)
    ensures |Image(items)| >= 2 && Image(items)[0] == 0
            && Image(items)[1] == EncodeI(0, 0, LabelAddress(items, "_start"))
  {
  }

  lemma IdleItems()
    ensures IsIdle(Meanings(IdleSources()))
  {
    var s := IdleSources();
    assert Meanings(s[3..]) == [];
    assert Meanings(s[2..]) == [Meaning(s[2])] + Meanings(s[2..][1..]);
    assert Meanings(s[1..]) == [Meaning(s[1])] + Meanings(s[1..][1..]);
  }

  lemma IdleReadable()
    ensures AllWritable(IdleSources()) && |IdleGaps()| == |ProgramTokens(IdleSources())| + 1
    ensures Apart(ProgramTokens(IdleSources()), IdleGaps())
  {
    hide FindMnemonic, ProgramTokens;
    IdleTokens();
    NotAMnemonic();
  }

  lemma NotAMnemonic()
    ensures FindMnemonic(MNEMONICS, "_start") == NoInstr
  {
    hide FindMnemonic, NameR, NameI;
    var m := FindMnemonic(MNEMONICS, "_start");
    if m != NoInstr {
      FoundIsNamed(MNEMONICS, "_start");
      match m
      case TypeR(op) => NamesR(op);
      case TypeI(op) => NamesI(op);
    }
  }

  lemma {:induction false} FoundIsNamed(table: seq<Mnemonic>, name: Text)
    requires FindMnemonic(table, name) != NoInstr
    ensures NameOf(FindMnemonic(table, name)) == name
  {
    if NameOf(table[0]) != name {
      FoundIsNamed(table[1..], name);
    }
  }
}
