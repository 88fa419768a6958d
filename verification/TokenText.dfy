/** Writing tokens down so that the lexer reads them back, whatever blanks and comments stand
    between them. */
module TokenText {
  import opened Lexer

  /** What the lexer skips: a blank, or a comment up to the end of its line. */
  datatype Filler = Blank(c: Byte) | Comment(body: Text)

  predicate Skippable(f: Filler) {
    match f
    case Blank(c) => IsBlank(c)
    case Comment(body) => '\n' !in body
  }

  function FillerText(f: Filler): (r: Text)
    ensures r != []
  {
    match f
    case Blank(c) => [c]
    case Comment(body) => ['#'] + body + ['\n']
  }

  type Gap = g: seq<Filler> | forall i :: 0 <= i < |g| ==> Skippable(g[i]) witness []

  function GapText(g: Gap): Text {
    if g == [] then [] else FillerText(g[0]) + GapText(g[1..])
  }

  function DigitChar(d: nat): (c: Byte)
    requires d < 10
    ensures IsDigit(c) && c as int - '0' as int == d
  {
    '0' + d as char
  }

  function Digits(n: nat): (r: Text)
    ensures r != []
  {
    if n < 10 then [DigitChar(n)] else Digits(n / 10) + [DigitChar(n % 10)]
  }

  function EscapedChar(c: Byte): Text {
    if c == '\n' then ['\\', 'n']
    else if c == '\t' then ['\\', 't']
    else if c == '\\' then ['\\', '\\']
    else if c == '"' then ['\\', '"']
    else [c]
  }

  function EscapedText(s: Text): Text {
    if s == [] then [] else EscapedChar(s[0]) + EscapedText(s[1..])
  }

  function Spell(t: Token): Text {
    match t
    case Integer(v) => if v < 0 then ['-'] + Digits(-v) else Digits(v)
    case Ident(name) => name
    case Str(s) => ['"'] + EscapedText(s) + ['"']
    case Minus => ['-']
    case OpenBrackets => ['[']
    case CloseBrackets => [']']
    case Colon => [':']
    case Comma => [',']
    case Dot => ['.']
    case Semicolon => [';']
    case End => []
  }

  predicate IsName(s: Text) {
    s != [] && |s| < BUFFER && IsLetter(s[0]) && forall i :: 0 <= i < |s| ==> IsLetter(s[i]) || IsDigit(s[i])
  }

  /** A token the lexer can produce: names are well-formed, and everything fits the buffer. */
  predicate Lexable(t: Token) {
    match t
    case Integer(_) => |Spell(t)| < BUFFER
    case Ident(name) => IsName(name)
    case Str(s) => |s| < BUFFER
    case End => false
    case _ => true
  }

  /** The character c behind token t does not belong to it. */
  predicate Ends(t: Token, c: Byte) {
    match t
    case Integer(_) => !IsDigit(c)
    case Minus => !IsDigit(c)
    case Ident(_) => !IsDigit(c) && !IsLetter(c)
    case _ => true
  }

  /** Written without a gap, u would be read as part of t. */
  predicate Merges(t: Token, u: Token) {
    match t
    case Ident(_) => u.Ident? || (u.Integer? && u.value >= 0)
    case Integer(_) => u.Integer? && u.value >= 0
    case Minus => u.Integer? && u.value >= 0
    case _ => false
  }

  /** The string s stands at position i. */
  predicate Has(text: Text, i: nat, s: Text) {
    i + |s| <= |text| && text[i..i + |s|] == s
  }

  lemma HasParts(text: Text, i: nat, a: Text, b: Text)
    requires Has(text, i, a + b)
    ensures Has(text, i, a) && Has(text, i + |a|, b)
  {
    var s := text[i..i + |a + b|];
    assert s[..|a|] == a && s[|a|..] == b;
  }

  // ---------- blanks and comments ----------

  lemma {:induction false} CommentSkipped(text: Text, i: nat, body: Text)
    requires Has(text, i, body + ['\n']) && '\n' !in body
    ensures InComment(text, i) == NextToken(text, i + |body| + 1)
    decreases |body|
  {
    assert text[i..i + |body| + 1][0] == text[i];
    if body != [] {
      assert body + ['\n'] == [body[0]] + (body[1..] + ['\n']);
      HasParts(text, i, [body[0]], body[1..] + ['\n']);
      CommentSkipped(text, i + 1, body[1..]);
    }
  }

  lemma FillerSkipped(text: Text, i: nat, f: Filler)
    requires Has(text, i, FillerText(f)) && Skippable(f)
    ensures NextToken(text, i) == NextToken(text, i + |FillerText(f)|)
  {
    assert text[i..i + |FillerText(f)|][0] == text[i];
    match f
    case Blank(c) =>
    case Comment(body) =>
      assert FillerText(f) == ['#'] + (body + ['\n']);
      HasParts(text, i, ['#'], body + ['\n']);
      CommentSkipped(text, i + 1, body);
  }

  lemma {:induction false} GapSkipped(text: Text, i: nat, g: Gap)
    requires Has(text, i, GapText(g))
    ensures NextToken(text, i) == NextToken(text, i + |GapText(g)|)
    decreases |g|
  {
    hide NextToken, FillerText;
    if g != [] {
      HasParts(text, i, FillerText(g[0]), GapText(g[1..]));
      FillerSkipped(text, i, g[0]);
      GapSkipped(text, i + |FillerText(g[0])|, g[1..]);
    }
  }

  // ---------- single tokens ----------

  lemma {:induction false} DigitsRead(n: nat)
    ensures DigitsValue(Digits(n)) == n && forall i :: 0 <= i < |Digits(n)| ==> IsDigit(Digits(n)[i])
  {
    if n >= 10 {
      DigitsRead(n / 10);
      assert Digits(n)[..|Digits(n)| - 1] == Digits(n / 10);
    } else {
      assert [DigitChar(n)][..0] == [];
    }
  }

  lemma {:induction false} DigitsScanned(text: Text, i: nat, s: Text, buf: Text)
    requires Has(text, i, s) && (forall k :: 0 <= k < |s| ==> IsDigit(s[k])) && |buf| + |s| < BUFFER
    requires !IsDigit(CharAt(text, i + |s|))
    ensures RestOfInteger(text, i, buf) == Got(Integer(Atoi(buf + s)), i + |s|)
    decreases |s|
  {
    hide Atoi;
    if s == [] {
      assert buf + s == buf;
    } else {
      assert text[i..i + |s|][0] == text[i];
      HasParts(text, i, [s[0]], s[1..]) by {
        assert [s[0]] + s[1..] == s;
      }
      DigitsScanned(text, i + 1, s[1..], buf + [s[0]]);
      assert buf + [s[0]] + s[1..] == buf + s;
    }
  }

  lemma {:induction false} WordScanned(text: Text, i: nat, s: Text, buf: Text)
    requires Has(text, i, s) && (forall k :: 0 <= k < |s| ==> IsLetter(s[k]) || IsDigit(s[k])) && |buf| + |s| < BUFFER
    requires Ends(Ident(s), CharAt(text, i + |s|))
    ensures RestOfWord(text, i, buf) == Got(Ident(buf + s), i + |s|)
    decreases |s|
  {
    if s == [] {
      assert buf + s == buf;
    } else {
      assert text[i..i + |s|][0] == text[i];
      HasParts(text, i, [s[0]], s[1..]) by {
        assert [s[0]] + s[1..] == s;
      }
      WordScanned(text, i + 1, s[1..], buf + [s[0]]);
      assert buf + [s[0]] + s[1..] == buf + s;
    }
  }

  lemma CharScanned(text: Text, i: nat, c: Byte, buf: Text)
    requires Has(text, i, EscapedChar(c)) && |buf| < BUFFER
    ensures RestOfString(text, i, buf) == RestOfString(text, i + |EscapedChar(c)|, buf + [c])
  {
    assert text[i..i + |EscapedChar(c)|][0] == text[i];
    if |EscapedChar(c)| == 2 {
      assert text[i..i + 2][1] == text[i + 1];
    }
  }

  lemma QuoteScanned(text: Text, i: nat, buf: Text)
    requires Has(text, i, ['"']) && |buf| < BUFFER
    ensures RestOfString(text, i, buf) == Got(Str(buf), i + 1)
  {
    assert text[i..i + 1][0] == text[i];
  }

  lemma EscapedSplit(s: Text)
    requires s != []
    ensures EscapedText(s) + ['"'] == EscapedChar(s[0]) + (EscapedText(s[1..]) + ['"'])
    ensures |EscapedText(s)| == |EscapedChar(s[0])| + |EscapedText(s[1..])|
  {
    assert EscapedChar(s[0]) + EscapedText(s[1..]) + ['"'] == EscapedChar(s[0]) + (EscapedText(s[1..]) + ['"']);
  }

  lemma {:induction false} StringScanned(text: Text, i: nat, s: Text, buf: Text)
    requires Has(text, i, EscapedText(s) + ['"']) && |buf| + |s| < BUFFER
    ensures RestOfString(text, i, buf) == Got(Str(buf + s), i + |EscapedText(s)| + 1)
    decreases |s|
  {
    hide EscapedChar, RestOfString, Has;
    if s == [] {
      assert EscapedText(s) + ['"'] == ['"'] && buf + s == buf;
      QuoteScanned(text, i, buf);
    } else {
      EscapedSplit(s);
      hide EscapedText;
      HasParts(text, i, EscapedChar(s[0]), EscapedText(s[1..]) + ['"']);
      CharScanned(text, i, s[0], buf);
      StringScanned(text, i + |EscapedChar(s[0])|, s[1..], buf + [s[0]]);
      assert buf + [s[0]] + s[1..] == buf + s;
    }
  }

  lemma NaturalScanned(text: Text, i: nat, s: Text)
    requires Has(text, i, s) && s != [] && |s| < BUFFER && !IsDigit(CharAt(text, i + |s|))
    requires forall k :: 0 <= k < |s| ==> IsDigit(s[k])
    ensures NextToken(text, i) == Got(Integer(DigitsValue(s)), i + |s|)
  {
    hide RestOfInteger, NextToken, DigitsValue;
    Unfold(text, i, []);
    assert text[i..i + |s|][0] == text[i];
    DigitsScanned(text, i, s, []);
    assert [] + s == s;
  }

  lemma NegativeScanned(text: Text, i: nat, s: Text)
    requires Has(text, i, ['-'] + s) && s != [] && |s| + 1 < BUFFER && !IsDigit(CharAt(text, i + 1 + |s|))
    requires forall k :: 0 <= k < |s| ==> IsDigit(s[k])
    ensures NextToken(text, i) == Got(Integer(-DigitsValue(s)), i + 1 + |s|)
  {
    hide RestOfInteger, NextToken, DigitsValue;
    Unfold(text, i, []);
    HasParts(text, i, ['-'], s);
    assert text[i..i + 1][0] == text[i];
    assert text[i + 1..i + 1 + |s|][0] == text[i + 1];
    DigitsScanned(text, i + 1, s, ['-']);
    assert (['-'] + s)[1..] == s;
  }

  lemma IntegerScanned(text: Text, i: nat, v: int)
    requires Has(text, i, Spell(Integer(v))) && Lexable(Integer(v)) && !IsDigit(CharAt(text, i + |Spell(Integer(v))|))
    ensures NextToken(text, i) == Got(Integer(v), i + |Spell(Integer(v))|)
  {
    hide NextToken, Digits, DigitsValue, Has, IsDigit, CharAt;
    if v < 0 {
      DigitsRead(-v);
      NegativeScanned(text, i, Digits(-v));
    } else {
      DigitsRead(v);
      NaturalScanned(text, i, Digits(v));
    }
  }

  lemma NameScanned(text: Text, i: nat, s: Text)
    requires Has(text, i, s) && IsName(s) && Ends(Ident(s), CharAt(text, i + |s|))
    ensures NextToken(text, i) == Got(Ident(s), i + |s|)
  {
    hide RestOfWord;
    assert text[i..i + |s|][0] == text[i];
    assert [s[0]] + s[1..] == s;
    HasParts(text, i, [s[0]], s[1..]);
    WordScanned(text, i + 1, s[1..], [s[0]]);
  }

  lemma QuotedScanned(text: Text, i: nat, s: Text)
    requires Has(text, i, Spell(Str(s))) && |s| < BUFFER
    ensures NextToken(text, i) == Got(Str(s), i + |Spell(Str(s))|)
  {
    hide RestOfString, EscapedText;
    var t := Spell(Str(s));
    assert text[i..i + |t|][0] == text[i];
    assert t == ['"'] + (EscapedText(s) + ['"']);
    HasParts(text, i, ['"'], EscapedText(s) + ['"']);
    StringScanned(text, i + 1, s, []);
    assert [] + s == s;
  }

  /** The lexer reads back a token from its spelling, if what follows does not belong to it. */
  lemma TokenScanned(text: Text, i: nat, t: Token)
    requires Has(text, i, Spell(t)) && Lexable(t) && Ends(t, CharAt(text, i + |Spell(t)|))
    ensures NextToken(text, i) == Got(t, i + |Spell(t)|)
  {
    assert Spell(t) != [] ==> text[i..i + |Spell(t)|][0] == text[i];
    match t
    case Integer(v) => IntegerScanned(text, i, v);
    case Ident(s) => NameScanned(text, i, s);
    case Str(s) => QuotedScanned(text, i, s);
    case _ =>
  }

  // ---------- a whole text ----------

  /** The tokens of a text one after the other, up to its end or to the first error. */
  datatype Stream = More(token: Token, rest: Stream) | Done | NoToken | OutOfBounds

  function Lexemes(text: Text, i: nat): Stream
    requires i <= |text|
    decreases |text| - i
  {
    match NextToken(text, i)
    case Got(token, pos) => if token == End then Done else More(token, Lexemes(text, pos))
    case BadChar => NoToken
    case Overrun => OutOfBounds
  }

  /** Tokens and gaps in turn, a gap first and last. */
  function Layout(tokens: seq<Token>, gaps: seq<Gap>): Text
    requires |gaps| == |tokens| + 1
  {
    if tokens == [] then GapText(gaps[0]) else GapText(gaps[0]) + (Spell(tokens[0]) + Layout(tokens[1..], gaps[1..]))
  }

  /** Every token is one the lexer can produce, and no two neighbours run into each other. */
  predicate Separable(tokens: seq<Token>, gaps: seq<Gap>)
    requires |gaps| == |tokens| + 1
  {
    && (forall i :: 0 <= i < |tokens| ==> Lexable(tokens[i]))
    && (forall i :: 0 <= i < |tokens| - 1 && Merges(tokens[i], tokens[i + 1]) ==> gaps[i + 1] != [])
  }

  lemma SpellStarts(t: Token)
    requires Lexable(t)
    ensures Spell(t) != []
    ensures IsDigit(Spell(t)[0]) <==> t.Integer? && t.value >= 0
    ensures IsLetter(Spell(t)[0]) <==> t.Ident?
  {
    hide Digits, EscapedText;
    if t.Integer? {
      DigitsRead(if t.value < 0 then -t.value else t.value);
    }
  }

  /** What stands right behind token t ends it. */
  lemma LayoutEnds(text: Text, i: nat, t: Token, tokens: seq<Token>, gaps: seq<Gap>)
    requires |gaps| == |tokens| + 1 && Has(text, i, Layout(tokens, gaps)) && i + |Layout(tokens, gaps)| == |text|
    requires tokens != [] ==> Lexable(tokens[0]) && (Merges(t, tokens[0]) ==> gaps[0] != [])
    ensures Ends(t, CharAt(text, i))
  {
    hide Spell;
    var l := Layout(tokens, gaps);
    if l != [] {
      assert text[i..i + |l|][0] == text[i];
    }
    if gaps[0] != [] {
      assert l[0] == FillerText(gaps[0][0])[0];
    } else if tokens != [] {
      SpellStarts(tokens[0]);
      assert l[0] == Spell(tokens[0])[0];
    }
  }

  /** The stream of these tokens, and then of the rest. */
  function Feed(tokens: seq<Token>, rest: Stream): Stream {
    if tokens == [] then rest else More(tokens[0], Feed(tokens[1..], rest))
  }

  /** One gap and one token off the front of a layout. */
  lemma LayoutStep(text: Text, i: nat, tokens: seq<Token>, gaps: seq<Gap>)
    requires |gaps| == |tokens| + 1 && Separable(tokens, gaps) && tokens != []
    requires Has(text, i, Layout(tokens, gaps)) && i + |Layout(tokens, gaps)| == |text|
    ensures var pos, rest := i + |GapText(gaps[0])| + |Spell(tokens[0])|, Layout(tokens[1..], gaps[1..]);
            && NextToken(text, i) == Got(tokens[0], pos) && tokens[0] != End
            && Has(text, pos, rest) && pos + |rest| == |text|
  {
    hide NextToken, Spell, GapText, Lexable, Merges;
    var gap, t, rest := GapText(gaps[0]), tokens[0], Layout(tokens[1..], gaps[1..]);
    assert Layout(tokens, gaps) == gap + (Spell(t) + rest);
    hide Layout;
    HasParts(text, i, gap, Spell(t) + rest);
    HasParts(text, i + |gap|, Spell(t), rest);
    GapSkipped(text, i, gaps[0]);
    if |tokens| > 1 {
      assert tokens[1..][0] == tokens[1] && gaps[1..][0] == gaps[1];
    }
    LayoutEnds(text, i + |gap| + |Spell(t)|, t, tokens[1..], gaps[1..]);
    TokenScanned(text, i + |gap|, t);
    NotEnd(t);
  }

  /** The lexer gives back exactly the tokens that were written down, for any gaps between them
      that keep neighbours apart. */
  lemma {:induction false} LayoutRead(text: Text, i: nat, tokens: seq<Token>, gaps: seq<Gap>)
    requires |gaps| == |tokens| + 1 && Separable(tokens, gaps)
    requires Has(text, i, Layout(tokens, gaps)) && i + |Layout(tokens, gaps)| == |text|
    ensures Lexemes(text, i) == Feed(tokens, Done)
    decreases |tokens|
  {
    hide NextToken, Spell, GapText, Lexable, Merges, Separable;
    if tokens == [] {
      GapSkipped(text, i, gaps[0]);
      AtEnd(text);
    } else {
      LayoutStep(text, i, tokens, gaps);
      SeparableRest(tokens, gaps);
      LayoutRead(text, i + |GapText(gaps[0])| + |Spell(tokens[0])|, tokens[1..], gaps[1..]);
    }
  }

  lemma AtEnd(text: Text)
    ensures NextToken(text, |text|) == Got(End, |text|)
  {
  }

  lemma NotEnd(t: Token)
    requires Lexable(t)
    ensures t != End
  {
  }

  lemma SeparableRest(tokens: seq<Token>, gaps: seq<Gap>)
    requires |gaps| == |tokens| + 1 && Separable(tokens, gaps) && tokens != []
    ensures Separable(tokens[1..], gaps[1..])
  {
    hide Lexable, Merges;
    forall i | 0 <= i < |tokens[1..]| - 1 && Merges(tokens[1..][i], tokens[1..][i + 1]) ensures gaps[1..][i + 1] != [] {
      assert Merges(tokens[i + 1], tokens[i + 1 + 1]);
    }
  }
}
