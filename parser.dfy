// The recursive-descent procedures of the parser, and the top-level statement loop,
// as pure functions from the state before a call to the state after it. Each one
// reads the pending token in `token`/`lexeme` and pulls further tokens with GetLexeme.
//
// Termination: every procedure is ranked, and a call either goes to a lower rank or
// is made after GetLexeme has consumed the pending token, which lowers Measure.

module Parser {
  import opened Tokens
  import opened Diagnostics
  import opened Lexer

  /** SyntacticAnalysis: one statement, chosen by its first token. */
  function SyntacticAnalysis(a: State): (r: State)
    requires Wf(a)
    decreases Measure(a), 8
    ensures Advances(a, r) && Measure(r) <= Measure(a)
  {
    if a.token == Ident then Assignment(a)
    else if a.token == KeyRead || a.token == KeyWrite then
      ReadWriteStatement(GetLexeme(a))
    else if a.token == KeyWhile then
      WhileStatement(GetLexeme(a))
    else if a.token == KeyOd then
      ErrorAbove(a, ErrantSemicolonBeforeOd)
    else
      Error(a, ErrantToken(a.lexeme))
  }

  /** The IDENT branch of SyntacticAnalysis: `:=` and an expression, which must not
      be followed by `)`. */
  function Assignment(a: State): (r: State)
    requires Wf(a)
    decreases Measure(a), 7
    ensures Advances(a, r) && Measure(r) <= Measure(a)
  {
    var b := GetLexeme(a);
    if b.token == AssignOp then
      var c := Expression(GetLexeme(b));
      if c.token == RightParen then Error(c, RightParenWithoutOpen) else c
    else
      Error(b, InvalidAfterIdent(b.lexeme))
  }

  /** WhileStatement: the condition, then `do` and the body. Without `do` the error is
      recorded, the rest of the line is skipped, and the body is parsed anyway. */
  function WhileStatement(a: State): (r: State)
    requires Wf(a)
    decreases Measure(a), 10
    ensures Advances(a, r) && Measure(r) <= Measure(a)
  {
    var b := Comparison(a);
    if b.token == KeyDo then WhileInterior(b)
    else WhileInterior(GetNewLine(Error(b, ImproperHeading(b.lexeme))))
  }

  /** WhileInterior: read the first body statement, then the statement loop, and the
      token after `od`. */
  function WhileInterior(a: State): (r: State)
    requires Wf(a)
    decreases Measure(a), 9
    ensures Advances(a, r) && Measure(r) <= Measure(a)
  {
    InteriorLoop(SyntacticAnalysis(GetLexeme(a)))
  }

  /** The loop of WhileInterior. On `od` it reads the next token and ends; on anything
      but `;` it reports a missing `;` one line up and returns (the statement before its
      return names GetLexeme without calling it, so nothing is read); on `;` it reports a
      missing `od` when input is exhausted, then parses the next statement. */
  function InteriorLoop(b: State): (r: State)
    requires Wf(b)
    decreases Measure(b), 8
    ensures Advances(b, r) && Measure(r) <= Measure(b)
  {
    if b.token == KeyOd then GetLexeme(b)
    else if b.token != Semicolon then ErrorAbove(b, MissingSemicolon(b.lexeme))
    else
      var c := if NextChar(b) == Eof then Error(b, NoLoopClosure) else b;
      var d := GetLexeme(c);
      var e := SyntacticAnalysis(d);
      var r := InteriorLoop(e);
      AdvancesTrans(b, c, d);
      AdvancesTrans(b, d, e);
      AdvancesTrans(b, e, r);
      r
  }

  /** Comparison: an expression, then one token is read and dropped, a second expression
      only if the token after that is a comparison operator, and one more token. */
  function Comparison(a: State): (r: State)
    requires Wf(a)
    decreases Measure(a), 6
    ensures Advances(a, r) && Measure(r) <= Measure(a)
  {
    var b := Expression(a);
    var c := GetLexeme(b);
    var d := if IsComparisonOp(c.token) then Expression(c) else c;
    GetLexeme(d)
  }

  /** ReadWriteStatement: `( IDENT )` after `read` or `write`. */
  function ReadWriteStatement(a: State): (r: State)
    requires Wf(a)
    ensures Advances(a, r) && Measure(r) <= Measure(a)
  {
    if a.token == LeftParen then
      var b := GetLexeme(a);
      if b.token == Ident then
        var c := GetLexeme(b);
        var r := if c.token == RightParen then GetLexeme(c) else Error(c, ReadWithoutClose);
        AdvancesTrans(a, b, c);
        AdvancesTrans(a, c, r);
        r
      else
        var r := Error(b, InvalidReadInterior(b.lexeme));
        AdvancesTrans(a, b, r);
        r
    else
      Error(a, InvalidAfterRead(a.lexeme))
  }

  /** Expression: a term, then more terms after `+` or `-`. */
  function Expression(a: State): (r: State)
    requires Wf(a)
    decreases Measure(a), 5
    ensures Advances(a, r) && Measure(r) <= Measure(a)
  {
    AddLoop(Term(a))
  }

  /** The loop of Expression; a `)` right after the operator is reported and ends it. */
  function AddLoop(b: State): (r: State)
    requires Wf(b)
    decreases Measure(b), 4
    ensures Advances(b, r) && Measure(r) <= Measure(b)
  {
    if b.token == AddOp || b.token == SubOp then
      var c := GetLexeme(b);
      if c.token == RightParen then Error(c, RightParenWithoutOpen) else AddLoop(Term(c))
    else b
  }

  /** Term: a factor, then more factors after `*` or `/`. */
  function Term(a: State): (r: State)
    requires Wf(a)
    decreases Measure(a), 3
    ensures Advances(a, r) && Measure(r) <= Measure(a)
  {
    MulLoop(Factor(a))
  }

  /** The loop of Term; a `)` right after the operator is reported and ends it. */
  function MulLoop(b: State): (r: State)
    requires Wf(b)
    decreases Measure(b), 2
    ensures Advances(b, r) && Measure(r) <= Measure(b)
  {
    if b.token == MultOp || b.token == DivOp then
      var c := GetLexeme(b);
      if c.token == RightParen then Error(c, RightParenWithoutOpen) else MulLoop(Factor(c))
    else b
  }

  /** Factor: an identifier, an integer literal, or a parenthesised expression. */
  function Factor(a: State): (r: State)
    requires Wf(a)
    decreases Measure(a), 1
    ensures Advances(a, r) && Measure(r) <= Measure(a)
  {
    if a.token == Ident || a.token == IntLit then GetLexeme(a)
    else if a.token == LeftParen then
      var b := Expression(GetLexeme(a));
      if b.token == RightParen then GetLexeme(b) else Error(b, LeftParenWithoutClose)
    else
      Error(a, ExpectedExpression(a.lexeme))
  }

  /** CodeAnalysis: read the first character and token, parse the first statement,
      then the statement loop. */
  function CodeAnalysis(a: State): (r: State)
    requires Wf(a)
    ensures Advances(a, r)
  {
    StatementLoop(SyntacticAnalysis(GetLexeme(GetChar(a))))
  }

  /** The loop of CodeAnalysis: it runs while `nextChar` is not end of input; an
      UNKNOWN token or any token but `;` after a statement is reported and ends the
      analysis. */
  function StatementLoop(b: State): (r: State)
    requires Wf(b)
    decreases Measure(b)
    ensures Advances(b, r)
  {
    if NextChar(b) == Eof then b
    else if b.token == Unknown then Error(b, ErrantToken(b.lexeme))
    else if b.token != Semicolon then ErrorAbove(b, MissingSemicolon(b.lexeme))
    else StatementLoop(SyntacticAnalysis(GetLexeme(b)))
  }

  /** The whole analysis of one source text: at most one record per line, and the
      validity flag is true exactly when nothing was recorded. */
  function Analyze(input: string): (r: State)
    ensures r.input == input && UniqueLines(r.errors)
  {
    CodeAnalysis(Initial(input))
  }

  /** The exit status of a run on a readable file: 0 when no diagnostic was recorded,
      1 otherwise. */
  function ExitCode(input: string): (code: int)
    ensures code == 0 <==> Analyze(input).errors == []
    ensures code == 0 || code == 1
  {
    if |Analyze(input).errors| == 0 then 0 else 1
  }
}
