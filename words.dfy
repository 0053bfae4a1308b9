// Source texts built from words, one blank before each word, and how the lexer reads
// them back: every word comes out as one token with the word as its lexeme. The
// grammar lemmas speak about such texts.

module Words {
  import opened Tokens
  import opened Lexer
  import opened LexerFacts

  /** A spelling the LETTER case reads as an identifier: letters only, not a keyword. */
  predicate IsName(s: string) {
    |s| > 0 && (forall i :: 0 <= i < |s| ==> IsAlpha(s[i])) && Lookup(s) == None
  }

  /** A spelling the DIGIT case reads as an integer literal. */
  predicate IsNumeral(s: string) {
    |s| > 0 && forall i :: 0 <= i < |s| ==> IsDigit(s[i])
  }

  /** A character the UNKNOWN case reads as a one-character UNKNOWN token: not a letter,
      a digit or a blank, not `:` (which waits for `=`), and not in the table. */
  predicate IsStray(c: char) {
    !IsAlpha(c) && !IsDigit(c) && !IsSpace(c) && c != ':' && Lookup([c]) == None
  }

  type Name = s: string | IsName(s) witness "x"

  type Numeral = s: string | IsNumeral(s) witness "0"

  type StrayChar = c: char | IsStray(c) witness '#'

  type FixedToken = t: Token | IsFixed(t) witness Semicolon

  /** One word of a source text. */
  datatype Word = NameWord(name: Name) | NumberWord(digits: Numeral) | Sym(t: FixedToken) | Stray(c: StrayChar)

  predicate IsKeyword(t: Token) {
    t == KeyRead || t == KeyWrite || t == KeyWhile || t == KeyDo || t == KeyOd
  }

  /** The characters of a word. */
  function Render(w: Word): (s: string)
    ensures |s| > 0
  {
    match w
    case NameWord(n) => n
    case NumberWord(d) => d
    case Sym(t) => Spelling(t)
    case Stray(c) => [c]
  }

  /** The token kind the lexer gives a word. */
  function Kind(w: Word): Token {
    match w
    case NameWord(_) => Ident
    case NumberWord(_) => IntLit
    case Sym(t) => t
    case Stray(_) => Unknown
  }

  /** The text of a word sequence, each word preceded by one blank. */
  function Spaced(ws: seq<Word>): (s: string)
    ensures |s| == 0 <==> ws == []
    ensures ws != [] ==> s[0] == ' '
  {
    if ws == [] then [] else [' '] + Render(ws[0]) + Spaced(ws[1..])
  }

  /** Such a text has no newline, so reading it never moves to another line. */
  lemma {:induction false} SpacedHasNoNewline(ws: seq<Word>)
    ensures forall i :: 0 <= i < |Spaced(ws)| ==> Spaced(ws)[i] != '\n'
  {
    if ws != [] {
      SpacedHasNoNewline(ws[1..]);
      var s := Spaced(ws);
      var w := Render(ws[0]);
      RenderHasNoBlank(ws[0]);
      forall i | 0 <= i < |s| ensures s[i] != '\n' {
        if 1 <= i < 1 + |w| {
          assert s[i] == w[i - 1];
        } else if i > |w| {
          assert s[i] == Spaced(ws[1..])[i - 1 - |w|];
        }
      }
    }
  }

  /** No word holds a blank. */
  lemma {:induction false} RenderHasNoBlank(w: Word)
    ensures forall i :: 0 <= i < |Render(w)| ==> !IsSpace(Render(w)[i])
  {
  }

  /** The two-character or one-character symbol scan of the UNKNOWN case reads a fixed
      spelling that is not a keyword back as its own kind, when the spelling is followed
      by a blank or the end of input. */
  lemma {:induction false} SymbolScanSpelling(t: Token, p: Ch)
    requires IsFixed(t) && !IsKeyword(t)
    requires if |Spelling(t)| == 2 then p == Chr(Spelling(t)[1]) else p == Eof || p == Chr(' ')
    ensures ClassOf(Chr(Spelling(t)[0])) == Other && !IsSpace(Spelling(t)[0])
    ensures SymbolScan(Spelling(t)[0], p) == (Spelling(t), t, |Spelling(t)|)
  {
  }

  /** A keyword is spelled with letters only. */
  lemma {:induction false} KeywordIsLetters(t: Token)
    requires IsFixed(t) && IsKeyword(t)
    ensures forall i :: 0 <= i < |Spelling(t)| ==> IsAlpha(Spelling(t)[i])
  {
  }

  /** How a spaced text lies in the input: a blank at `p`, the word up to `j`, and
      then the rest of the text, which starts with a blank or is empty. */
  lemma {:induction false} SpacedLayout(input: string, p: int, w: Word, ws: seq<Word>)
    requires 0 <= p <= |input| && input[p..] == Spaced([w] + ws)
    ensures var j := p + 1 + |Render(w)|;
      j <= |input| && input[p] == ' ' && input[p + 1..j] == Render(w) &&
      input[j..] == Spaced(ws) && (CharAt(input, j) == Eof || CharAt(input, j) == Chr(' '))
  {
    var s := Render(w);
    var j := p + 1 + |s|;
    var x := input[p..];
    assert ([w] + ws)[0] == w && ([w] + ws)[1..] == ws;
    assert x == [' '] + s + Spaced(ws);
    assert input[p] == x[0];
    forall i | p + 1 <= i < j ensures input[i] == s[i - p - 1] {
      assert input[i] == x[i - p];
    }
    assert input[j..] == x[j - p..];
  }

  /** A word lies in the input from `nextChar` on, followed by a blank or the end. */
  predicate WordAhead(b: State, w: Word) {
    0 <= b.pos && b.pos + |Render(w)| <= |b.input| &&
    b.input[b.pos..b.pos + |Render(w)|] == Render(w) &&
    (CharAt(b.input, b.pos + |Render(w)|) == Eof || CharAt(b.input, b.pos + |Render(w)|) == Chr(' '))
  }

  /** GetLexeme reads a word that lies ahead as one token. */
  lemma {:induction false} LexAhead(b: State, w: Word)
    requires WordAhead(b, w)
    ensures GetLexeme(b) == b.(pos := b.pos + |Render(w)|, lexeme := Render(w), token := Kind(w))
  {
    match w
    case NameWord(n) =>
      LexName(b, n);
    case NumberWord(d) =>
      LexNumeral(b, d);
    case Stray(c) =>
      assert b.input[b.pos] == Render(w)[0];
      GetLexemeStray(b);
    case Sym(t) =>
      if IsKeyword(t) {
        LexKeyword(b, t);
      } else {
        LexSymbol(b, t);
      }
  }

  lemma {:induction false} LexName(b: State, n: Name)
    requires WordAhead(b, NameWord(n))
    ensures GetLexeme(b) == b.(pos := b.pos + |n|, lexeme := n, token := Ident)
  {
    forall i | b.pos <= i < b.pos + |n| ensures IsAlpha(b.input[i]) {
      assert b.input[i] == n[i - b.pos];
    }
    GetLexemeWord(b, b.pos + |n|);
  }

  lemma {:induction false} LexNumeral(b: State, d: Numeral)
    requires WordAhead(b, NumberWord(d))
    ensures GetLexeme(b) == b.(pos := b.pos + |d|, lexeme := d, token := IntLit)
  {
    forall i | b.pos <= i < b.pos + |d| ensures IsDigit(b.input[i]) {
      assert b.input[i] == d[i - b.pos];
    }
    GetLexemeNumber(b, b.pos + |d|);
  }

  lemma {:induction false} LexKeyword(b: State, t: FixedToken)
    requires IsKeyword(t) && WordAhead(b, Sym(t))
    ensures GetLexeme(b) == b.(pos := b.pos + |Spelling(t)|, lexeme := Spelling(t), token := t)
  {
    var s := Spelling(t);
    KeywordIsLetters(t);
    forall i | b.pos <= i < b.pos + |s| ensures IsAlpha(b.input[i]) {
      assert b.input[i] == s[i - b.pos];
    }
    GetLexemeWord(b, b.pos + |s|);
    LookupSpelling(t);
  }

  lemma {:induction false} LexSymbol(b: State, t: FixedToken)
    requires !IsKeyword(t) && WordAhead(b, Sym(t))
    ensures GetLexeme(b) == b.(pos := b.pos + |Spelling(t)|, lexeme := Spelling(t), token := t)
  {
    var s := Spelling(t);
    assert b.input[b.pos] == s[0];
    if |s| == 2 {
      assert b.input[b.pos + 1] == s[1];
    }
    SymbolScanSpelling(t, Peek(b));
    GetLexemeSymbol(b);
  }

  /** The lexer reads the first word of a spaced text as one token: the blank is
      skipped, the word is the lexeme, its kind is the token, and `nextChar` is left on
      the blank before the next word or at the end of input. */
  lemma {:induction false} LexWord(a: State, w: Word, ws: seq<Word>)
    requires 0 <= a.pos <= |a.input| && a.input[a.pos..] == Spaced([w] + ws)
    ensures var r := GetLexeme(a);
      r == a.(pos := a.pos + 1 + |Render(w)|, lexeme := Render(w), token := Kind(w)) &&
      r.input[r.pos..] == Spaced(ws)
  {
    var p := a.pos;
    SpacedLayout(a.input, p, w, ws);
    var b := GetChar(a);
    assert b == a.(pos := p + 1);
    assert WordAhead(b, w);
    GetLexemeSkipsSpace(a);
    LexAhead(b, w);
  }

  /** Only the input, the line and the records are compared: the lexer and the parser
      moved without recording anything and without crossing a line. */
  predicate Quiet(a: State, r: State) {
    r.input == a.input && r.line == a.line && r.errors == a.errors
  }

  /** The parser is reading `ws`: its pending token is the first word (or the empty
      token when none is left) and the text after `nextChar` is the rest. */
  predicate Reading(a: State, ws: seq<Word>) {
    0 <= a.pos <= |a.input| &&
    if ws == [] then a.token == Empty && a.lexeme == [] && a.pos == |a.input|
    else a.token == Kind(ws[0]) && a.lexeme == Render(ws[0]) && a.input[a.pos..] == Spaced(ws[1..])
  }

  /** GetLexeme on a spaced text yields its first word, and at the end of the text the
      empty token. */
  lemma {:induction false} LexNext(a: State, ws: seq<Word>)
    requires 0 <= a.pos <= |a.input| && a.input[a.pos..] == Spaced(ws)
    ensures Reading(GetLexeme(a), ws) && Quiet(a, GetLexeme(a))
  {
    if ws == [] {
      GetLexemeAtEnd(a);
      assert Newlines(a.input, a.pos, |a.input|) == 0;
    } else {
      assert ws == [ws[0]] + ws[1..];
      LexWord(a, ws[0], ws[1..]);
    }
  }

  /** Reading the next word: the parser then reads the words after it. */
  lemma {:induction false} Advance(a: State, w: Word, ws: seq<Word>)
    requires Reading(a, [w] + ws)
    ensures Reading(GetLexeme(a), ws) && Quiet(a, GetLexeme(a))
  {
    assert ([w] + ws)[1..] == ws;
    LexNext(a, ws);
  }

  /** While more words follow the pending one, `nextChar` is the blank before them. */
  lemma {:induction false} MoreAhead(a: State, w: Word, ws: seq<Word>)
    requires Reading(a, [w] + ws) && ws != []
    ensures NextChar(a) == Chr(' ')
  {
    assert ([w] + ws)[1..] == ws;
  }

  /** The state that reads `ws` and otherwise agrees with `a`. */
  function ReadingState(a: State, ws: seq<Word>): (r: State)
    ensures Quiet(a, r)
  {
    if ws == [] then a.(pos := |a.input|, lexeme := [], token := Empty)
    else a.(pos := |a.input| - |Spaced(ws[1..])|, lexeme := Render(ws[0]), token := Kind(ws[0]))
  }

  /** A reading state is determined by the words it reads and what Quiet compares. */
  lemma {:induction false} ReadingIsState(a: State, r: State, ws: seq<Word>)
    requires Reading(r, ws) && Quiet(a, r)
    ensures r == ReadingState(a, ws)
  {
    if ws != [] {
      assert |r.input[r.pos..]| == |r.input| - r.pos;
    }
  }
}
