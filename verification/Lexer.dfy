/** The assembler's character automaton, and the text that leads it to given tokens. */
module Lexer {
  type Byte = c: char | c as int < 256 witness 'a'

  type Text = seq<Byte>

  datatype Token =
    | Integer(value: int) | Ident(name: Text) | Str(text: Text) | Minus
    | OpenBrackets | CloseBrackets | Colon | Comma | Dot | Semicolon | End

  /** The size of the buffer for names, digits and strings, with the terminating zero. */
  const BUFFER := 128

  /** A token and the position behind it; a character no token starts with; or a read or write
      outside of a buffer: an unclosed string or comment, or a word that is too long. */
  datatype Lexed = Got(token: Token, pos: nat) | BadChar | Overrun

  predicate IsDigit(c: Byte) {
    '0' <= c <= '9'
  }

  predicate IsLetter(c: Byte) {
    'a' <= c <= 'z' || 'A' <= c <= 'Z' || c == '_'
  }

  predicate IsBlank(c: Byte) {
    c == ' ' || c == '\t' || c == '\r' || c == '\n'
  }

  /** The character at i; the file ends with a zero. */
  function CharAt(text: Text, i: nat): Byte
    requires i <= |text|
  {
    if i < |text| then text[i] else '\0'
  }

  function DigitsValue(s: Text): int {
    if s == [] then 0 else DigitsValue(s[..|s| - 1]) * 10 + (s[|s| - 1] as int - '0' as int)
  }

  /** The value of digits with an optional minus sign. */
  function Atoi(s: Text): int {
    if s != [] && s[0] == '-' then -DigitsValue(s[1..]) else DigitsValue(s)
  }

  // ---------- the rest of a token ----------

  function RestOfInteger(text: Text, i: nat, buf: Text): (r: Lexed)
    requires i <= |text|
    ensures r.Got? ==> i <= r.pos <= |text| && r.token != End
    decreases |text| - i
  {
    if IsDigit(CharAt(text, i)) then
      if |buf| >= BUFFER then Overrun else RestOfInteger(text, i + 1, buf + [text[i]])
    else if |buf| >= BUFFER then Overrun else Got(Integer(Atoi(buf)), i)
  }

  function RestOfWord(text: Text, i: nat, buf: Text): (r: Lexed)
    requires i <= |text|
    ensures r.Got? ==> i <= r.pos <= |text| && r.token != End
    decreases |text| - i
  {
    if IsLetter(CharAt(text, i)) || IsDigit(CharAt(text, i)) then
      if |buf| >= BUFFER then Overrun else RestOfWord(text, i + 1, buf + [text[i]])
    else if |buf| >= BUFFER then Overrun else Got(Ident(buf), i)
  }

  function RestOfString(text: Text, i: nat, buf: Text): (r: Lexed)
    requires i <= |text|
    ensures r.Got? ==> i < r.pos <= |text| && r.token != End
    decreases |text| - i
  {
    var c := CharAt(text, i);
    if c == '\\' then Escaped(text, i + 1, buf)
    else if |buf| >= BUFFER then Overrun
    else if c == '"' then Got(Str(buf), i + 1)
    else if i == |text| then Overrun
    else RestOfString(text, i + 1, buf + [c])
  }

  function Escaped(text: Text, i: nat, buf: Text): (r: Lexed)
    requires i <= |text|
    ensures r.Got? ==> i < r.pos <= |text| && r.token != End
    decreases |text| - i
  {
    match Unescape(CharAt(text, i))
    case None => BadChar
    case Char(c) => if |buf| >= BUFFER then Overrun else RestOfString(text, i + 1, buf + [c])
  }

  datatype MaybeChar = None | Char(c: Byte)

  /** The character that stands for what follows a backslash. */
  function Unescape(c: Byte): MaybeChar {
    if c == 'n' then Char('\n')
    else if c == 't' then Char('\t')
    else if c == '\\' then Char('\\')
    else if c == '"' then Char('"')
    else None
  }

  function AfterMinus(text: Text, i: nat): (r: Lexed)
    requires i <= |text|
    ensures r.Got? ==> i <= r.pos <= |text| && r.token != End
  {
    if IsDigit(CharAt(text, i)) then RestOfInteger(text, i, ['-']) else Got(Minus, i)
  }

  /** The token a single character makes, End if none. */
  function Punctuation(c: Byte): Token {
    match c
    case '[' => OpenBrackets
    case ']' => CloseBrackets
    case ':' => Colon
    case ',' => Comma
    case '.' => Dot
    case ';' => Semicolon
    case _ => End
  }

  // ---------- the next token ----------

  function NextToken(text: Text, i: nat): (r: Lexed)
    requires i <= |text|
    ensures r.Got? ==> i <= r.pos <= |text| && (r.token != End ==> i < r.pos)
    decreases |text| - i, 1
  {
    var c := CharAt(text, i);
    if c == '\0' then Got(End, i)
    else if c == '#' then InComment(text, i + 1)
    else if IsBlank(c) then NextToken(text, i + 1)
    else if IsDigit(c) then RestOfInteger(text, i + 1, [c])
    else if IsLetter(c) then RestOfWord(text, i + 1, [c])
    else if c == '-' then AfterMinus(text, i + 1)
    else if c == '"' then RestOfString(text, i + 1, [])
    else if Punctuation(c) != End then Got(Punctuation(c), i + 1)
    else BadChar
  }

  function InComment(text: Text, i: nat): (r: Lexed)
    requires i <= |text|
    ensures r.Got? ==> i <= r.pos <= |text| && (r.token != End ==> i < r.pos)
    decreases |text| - i, 0
  {
    if i == |text| then Overrun
    else if text[i] == '\n' then NextToken(text, i + 1)
    else InComment(text, i + 1)
  }

  // ---------- the automaton ----------

  datatype State = INIT | CHECK_MINUS_OR_INTEGER | INTEGER | LABEL | STRING | STRING_ESCAPE | COMMENT | END

  function Rank(state: State): nat {
    match state
    case INIT => 2
    case CHECK_MINUS_OR_INTEGER => 2
    case END => 0
    case _ => 1
  }

  /** What the automaton will answer from this state. */
  ghost function Answer(text: Text, state: State, i: nat, buf: Text, token: Token): Lexed
    requires i <= |text|
  {
    match state
    case INIT => NextToken(text, i)
    case CHECK_MINUS_OR_INTEGER => AfterMinus(text, i)
    case INTEGER => RestOfInteger(text, i, buf)
    case LABEL => RestOfWord(text, i, buf)
    case STRING => RestOfString(text, i, buf)
    case STRING_ESCAPE => Escaped(text, i, buf)
    case COMMENT => InComment(text, i)
    case END => Got(token, i)
  }

  class Scanner {
    const text: Text
    var bpos: nat

    constructor (text: Text)
      ensures this.text == text && bpos == 0
    {
      this.text := text;
      bpos := 0;
    }

    /** One token off the text. Stops at a read beyond the file's zero and at a write beyond the
        token buffer, where the behaviour of the program is undefined. */
    method GetToken() returns (r: Lexed)
      requires bpos <= |text|
      modifies this
      ensures r == NextToken(text, old(bpos))
      ensures bpos <= |text| && (r.Got? ==> r.pos == bpos)
    {
      hide NextToken, AfterMinus, RestOfInteger, RestOfWord, RestOfString, Escaped, InComment, Punctuation, Unescape,
        Atoi, IsDigit, IsLetter, IsBlank;
      var state, buf, token := INIT, [], End;
      while state != END
        invariant bpos <= |text|
        invariant Answer(text, state, bpos, buf, token) == NextToken(text, old(bpos))
        decreases |text| - bpos, Rank(state)
      {
        Unfold(text, bpos, buf);
        var c := CharAt(text, bpos);
        match state
        case INIT =>
          if c == '\0' {
            token, state := End, END;
          } else if c == '#' {
            bpos, state := bpos + 1, COMMENT;
          } else if IsBlank(c) {
            bpos := bpos + 1;
          } else if IsDigit(c) {
            buf, state := [], INTEGER;
          } else if IsLetter(c) {
            buf, state := [c], LABEL;
            bpos := bpos + 1;
          } else if c == '-' {
            bpos, state := bpos + 1, CHECK_MINUS_OR_INTEGER;
          } else if Punctuation(c) != End {
            token, state := Punctuation(c), END;
            bpos := bpos + 1;
          } else if c == '"' {
            buf, state := [], STRING;
            bpos := bpos + 1;
          } else {
            return BadChar;
          }
        case COMMENT =>
          if bpos == |text| {
            return Overrun;
          }
          bpos := bpos + 1;
          if c == '\n' {
            state := INIT;
          }
        case CHECK_MINUS_OR_INTEGER =>
          if IsDigit(c) {
            buf, state := ['-'], INTEGER;
          } else {
            token, state := Minus, END;
          }
        case INTEGER =>
          if |buf| >= BUFFER {
            return Overrun;
          }
          if IsDigit(c) {
            buf, bpos := buf + [c], bpos + 1;
          } else {
            token, state := Integer(Atoi(buf)), END;
          }
        case LABEL =>
          if |buf| >= BUFFER {
            return Overrun;
          }
          if IsLetter(c) || IsDigit(c) {
            buf, bpos := buf + [c], bpos + 1;
          } else {
            token, state := Ident(buf), END;
          }
        case STRING =>
          if c == '\\' {
            bpos, state := bpos + 1, STRING_ESCAPE;
          } else if |buf| >= BUFFER {
            return Overrun;
          } else if c != '"' {
            if bpos == |text| {
              return Overrun;
            }
            buf, bpos := buf + [c], bpos + 1;
          } else {
            bpos := bpos + 1;
            token, state := Str(buf), END;
          }
        case STRING_ESCAPE =>
          match Unescape(c) {
            case None => return BadChar;
            case Char(d) =>
              if |buf| >= BUFFER {
                return Overrun;
              }
              buf, bpos := buf + [d], bpos + 1;
              state := STRING;
          }
      }
      return Got(token, bpos);
    }
  }

  /** One unfolding of each of the functions above. */
  lemma Unfold(text: Text, i: nat, buf: Text)
    requires i <= |text|
    ensures !IsDigit('\0') && !IsLetter('\0') && !IsBlank('\0') && Punctuation('\0') == End && Punctuation('"') == End
            && Unescape('\0') == None
    ensures var c := CharAt(text, i);
            && NextToken(text, i) ==
               (if c == '\0' then Got(End, i)
                else if c == '#' then InComment(text, i + 1)
                else if IsBlank(c) then NextToken(text, i + 1)
                else if IsDigit(c) then RestOfInteger(text, i, [])
                else if IsLetter(c) then RestOfWord(text, i + 1, [c])
                else if c == '-' then AfterMinus(text, i + 1)
                else if c == '"' then RestOfString(text, i + 1, [])
                else if Punctuation(c) != End then Got(Punctuation(c), i + 1)
                else BadChar)
            && RestOfInteger(text, i, buf) ==
               (if |buf| >= BUFFER then Overrun
                else if IsDigit(c) then RestOfInteger(text, i + 1, buf + [c]) else Got(Integer(Atoi(buf)), i))
            && RestOfWord(text, i, buf) ==
               (if |buf| >= BUFFER then Overrun
                else if IsLetter(c) || IsDigit(c) then RestOfWord(text, i + 1, buf + [c]) else Got(Ident(buf), i))
            && AfterMinus(text, i) == (if IsDigit(c) then RestOfInteger(text, i, ['-']) else Got(Minus, i))
            && RestOfString(text, i, buf) ==
               (if c == '\\' then Escaped(text, i + 1, buf)
                else if |buf| >= BUFFER then Overrun
                else if c == '"' then Got(Str(buf), i + 1)
                else if i == |text| then Overrun
                else RestOfString(text, i + 1, buf + [c]))
            && Escaped(text, i, buf) ==
               (match Unescape(c)
                case None => BadChar
                case Char(d) => if |buf| >= BUFFER then Overrun else RestOfString(text, i + 1, buf + [d]))
            && InComment(text, i) ==
               (if i == |text| then Overrun
                else if c == '\n' then NextToken(text, i + 1) else InComment(text, i + 1))
  {
    assert [] + [CharAt(text, i)] == [CharAt(text, i)];
  }
}
