// What the analysis reports on texts that leave the grammar, and where its checks stop
// short. Each lemma names the first diagnostic the run records (or all of them, when the
// run ends right after it) for a family of texts built from words.

module Rejections {
  import opened Tokens
  import opened Diagnostics
  import opened Lexer
  import opened LexerFacts
  import opened Words
  import opened Grammar
  import Parser

  /** The first report of a run is the only record afterwards, on the current line or
      the line above. */
  lemma {:induction false} FirstReport(c: State, m: Message)
    requires Wf(c) && c.errors == []
    ensures Error(c, m) == c.(errors := [Diagnostic(c.line, m)])
    ensures ErrorAbove(c, m) == c.(errors := [Diagnostic(c.line - 1, m)])
  {
  }

  /** The top-level loop ends at the end of input whatever token is pending. */
  lemma {:induction false} LoopAtEnd(b: State)
    requires Wf(b) && NextChar(b) == Eof
    ensures Parser.StatementLoop(b) == b
  {
  }

  /** Before the end of input, a pending token other than `;` ends the top-level loop
      with one report. */
  lemma {:induction false} LoopWithoutSemicolon(b: State)
    requires Wf(b) && NextChar(b) != Eof && b.token != Semicolon
    ensures Parser.StatementLoop(b) ==
      if b.token == Unknown then Error(b, ErrantToken(b.lexeme))
      else ErrorAbove(b, MissingSemicolon(b.lexeme))
  {
  }

  /** An assignment whose expression stops on `)`. */
  lemma {:induction false} AssignOnRightParen(a: State)
    requires Wf(a) && a.token == Ident && GetLexeme(a).token == AssignOp
    requires Parser.Expression(GetLexeme(GetLexeme(a))).token == RightParen
    ensures Parser.SyntacticAnalysis(a) ==
      Error(Parser.Expression(GetLexeme(GetLexeme(a))), RightParenWithoutOpen)
  {
    assert Parser.SyntacticAnalysis(a) == Parser.Assignment(a);
  }

  /** The first statement of a blank text meets the empty token. */
  lemma {:induction false} EmptyStatement(b: State)
    requires Wf(b) && b.token == Empty && b.lexeme == [] && b.pos == |b.input|
    ensures Parser.StatementLoop(Parser.SyntacticAnalysis(b)) == Error(b, ErrantToken([]))
  {
    LoopAtEnd(Error(b, ErrantToken([])));
  }

  /** An empty or blank file is reported: the first statement finds the empty token,
      on the line the blanks end on. */
  lemma {:induction false} BlankInput(input: string)
    requires forall i :: 0 <= i < |input| ==> IsSpace(input[i])
    ensures Parser.Analyze(input).errors ==
      [Diagnostic(1 + Newlines(input, 0, |input|), ErrantToken([]))]
    ensures Parser.ExitCode(input) == 1
  {
    var g := GetChar(Initial(input));
    assert g.pos == 0;
    GetLexemeAtEnd(g);
    EmptyStatement(GetLexeme(g));
  }

  /** A program's last statement may be followed by one more word of any kind that
      cannot continue the statement: the top-level loop stops at the end of input
      before it looks at the pending token, so the text is accepted. */
  lemma {:induction false} TrailingWordIgnored(blk: Block, w: Word)
    requires StmtFollow([w])
    ensures Parser.Analyze(Spaced(BlockWords(blk, [w]))).errors == []
  {
    var ws := BlockWords(blk, [w]);
    var a := GetLexeme(GetChar(Initial(Spaced(ws))));
    AnalyzeStart(ws);
    TopBlock(blk, [w], a);
    LoopAtEnd(ReadingState(a, [w]));
  }

  /** After a statement, a word other than `;` with more text after it ends the
      analysis: an UNKNOWN token is reported on its own line, any other token as a
      missing `;` on the line before, which for the first line is line 0. */
  lemma {:induction false} NoSemicolonAfterStatement(blk: Block, w: Word, ws: seq<Word>)
    requires StmtFollow([w] + ws) && Kind(w) != Semicolon && ws != []
    ensures Parser.Analyze(Spaced(BlockWords(blk, [w] + ws))).errors ==
      if Kind(w) == Unknown then [Diagnostic(1, ErrantToken(Render(w)))]
      else [Diagnostic(0, MissingSemicolon(Render(w)))]
  {
    var all := BlockWords(blk, [w] + ws);
    var a := GetLexeme(GetChar(Initial(Spaced(all))));
    AnalyzeStart(all);
    TopBlock(blk, [w] + ws, a);
    var b := ReadingState(a, [w] + ws);
    MoreAhead(b, w, ws);
    LoopWithoutSemicolon(b);
  }

  /** The parser reads `x :=` and goes on with the words after it. */
  lemma {:induction false} AssignPrefix(x: Name, ws: seq<Word>, a: State)
    requires Reading(a, [NameWord(x)] + ([Sym(AssignOp)] + ws))
    ensures a.token == Ident && GetLexeme(a).token == AssignOp
    ensures var c := GetLexeme(GetLexeme(a)); Reading(c, ws) && Quiet(a, c)
  {
    Advance(a, NameWord(x), [Sym(AssignOp)] + ws);
    Advance(GetLexeme(a), Sym(AssignOp), ws);
  }

  /** `x := e )`: the `)` after the expression is reported as missing its `(` on the
      current line, and the `)` stays pending. */
  lemma {:induction false} AssignBeforeRightParen(x: Name, e: Expr, ws: seq<Word>, a: State)
    requires Reading(a, StmtWords(Assign(x, e), [Sym(RightParen)] + ws))
    ensures var r := Parser.SyntacticAnalysis(a);
      Reading(r, [Sym(RightParen)] + ws) && r.input == a.input && r.line == a.line &&
      r.errors == Record(a.errors, a.line, RightParenWithoutOpen)
  {
    var tail := [Sym(RightParen)] + ws;
    AssignPrefix(x, ExprWords(e, tail), a);
    ExprAccepts(e, tail, GetLexeme(GetLexeme(a)));
    AssignOnRightParen(a);
  }

  /** `x := e )` as a whole text: the `)` is reported as missing its `(`, and unless
      it ends the text the top-level loop reports it again as a missing `;` on the
      line before. */
  lemma {:induction false} UnopenedParenthesis(x: Name, e: Expr, ws: seq<Word>)
    ensures Parser.Analyze(Spaced(StmtWords(Assign(x, e), [Sym(RightParen)] + ws))).errors ==
      [Diagnostic(1, RightParenWithoutOpen)] +
      (if ws == [] then [] else [Diagnostic(0, MissingSemicolon(")"))])
  {
    var all := StmtWords(Assign(x, e), [Sym(RightParen)] + ws);
    var a := GetLexeme(GetChar(Initial(Spaced(all))));
    AnalyzeStart(all);
    AssignBeforeRightParen(x, e, ws, a);
    PendingRightParen(Parser.SyntacticAnalysis(a), ws);
  }

  /** The top-level loop with a `)` pending after one record on line 1. */
  lemma {:induction false} PendingRightParen(r: State, ws: seq<Word>)
    requires Reading(r, [Sym(RightParen)] + ws) && r.line == 1
    requires r.errors == [Diagnostic(1, RightParenWithoutOpen)]
    ensures Parser.StatementLoop(r).errors ==
      r.errors + (if ws == [] then [] else [Diagnostic(0, MissingSemicolon(")"))])
  {
    if ws == [] {
      LoopAtEnd(r);
    } else {
      MoreAhead(r, Sym(RightParen), ws);
      LoopWithoutSemicolon(r);
      SecondLineRecord(r, MissingSemicolon(")"));
    }
  }

  /** With one record on line 1, a report on the line above line 1 is added after it. */
  lemma {:induction false} SecondLineRecord(r: State, m: Message)
    requires Wf(r) && r.line == 1 && |r.errors| == 1 && r.errors[0].line == 1
    ensures ErrorAbove(r, m).errors == r.errors + [Diagnostic(0, m)]
  {
    assert !HasLine(r.errors[..0], 0);
  }

  /** A `(` whose expression does not stop on `)`: Factor reports the unclosed `(`. */
  lemma {:induction false} FactorUnclosed(a: State)
    requires Wf(a) && a.token == LeftParen && Parser.Expression(GetLexeme(a)).token != RightParen
    ensures Parser.Factor(a) == Error(Parser.Expression(GetLexeme(a)), LeftParenWithoutClose)
  {
  }

  /** `( e` followed by a word other than `)`: Factor reports the unclosed `(` on the
      state that has that word pending. */
  lemma {:induction false} UnclosedParenthesis(e: Expr, w: Word, ws: seq<Word>, a: State)
    requires Reading(a, [Sym(LeftParen)] + ExprWords(e, [w] + ws))
    requires ExprFollow([w]) && Kind(w) != RightParen
    ensures var b := Parser.Expression(GetLexeme(a));
      Reading(b, [w] + ws) && Quiet(a, b) && Parser.Factor(a) == Error(b, LeftParenWithoutClose)
  {
    Advance(a, Sym(LeftParen), ExprWords(e, [w] + ws));
    ExprAccepts(e, [w] + ws, GetLexeme(a));
    FactorUnclosed(a);
  }

  /** `x := ( e w ...` from the state with `x` pending and nothing recorded: the
      unclosed `(` is the first record of the statement. */
  lemma {:induction false} UnclosedAt(x: Name, e: Expr, w: Word, ws: seq<Word>, a: State)
    requires ExprFollow([w]) && Kind(w) != RightParen
    requires Reading(a, [NameWord(x)] + ([Sym(AssignOp)] + ([Sym(LeftParen)] + ExprWords(e, [w] + ws))))
    requires a.errors == []
    ensures var s := Parser.SyntacticAnalysis(a);
      s.errors != [] && s.errors[0] == Diagnostic(a.line, LeftParenWithoutClose)
  {
    AssignPrefix(x, [Sym(LeftParen)] + ExprWords(e, [w] + ws), a);
    var c := GetLexeme(GetLexeme(a));
    UnclosedParenthesis(e, w, ws, c);
    FirstReport(Parser.Expression(GetLexeme(c)), LeftParenWithoutClose);
    var f := Parser.Factor(c);
    ExpressionAfterFactor(c);
    AssignAfterExpression(a);
    AdvancesTrans(f, Parser.Expression(c), Parser.SyntacticAnalysis(a));
  }

  /** `x := ( e w ...` with `w` not `)`: the first diagnostic of the run is the unclosed
      `(` on line 1. */
  lemma {:induction false} UnclosedInAssignment(x: Name, e: Expr, w: Word, ws: seq<Word>)
    requires ExprFollow([w]) && Kind(w) != RightParen
    ensures var errs := Parser.Analyze(Spaced(
        [NameWord(x)] + ([Sym(AssignOp)] + ([Sym(LeftParen)] + ExprWords(e, [w] + ws))))).errors;
      errs != [] && errs[0] == Diagnostic(1, LeftParenWithoutClose)
  {
    var all := [NameWord(x)] + ([Sym(AssignOp)] + ([Sym(LeftParen)] + ExprWords(e, [w] + ws)));
    var a := GetLexeme(GetChar(Initial(Spaced(all))));
    AnalyzeStart(all);
    UnclosedAt(x, e, w, ws, a);
    var s := Parser.SyntacticAnalysis(a);
    assert Advances(s, Parser.StatementLoop(s));
  }

  /** Whatever Expression does after its first factor keeps what the factor recorded. */
  lemma {:induction false} ExpressionAfterFactor(c: State)
    requires Wf(c)
    ensures Advances(Parser.Factor(c), Parser.Expression(c))
  {
    var m := Parser.MulLoop(Parser.Factor(c));
    AdvancesTrans(Parser.Factor(c), m, Parser.AddLoop(m));
  }

  /** Whatever an assignment does after its expression keeps what the expression
      recorded. */
  lemma {:induction false} AssignAfterExpression(a: State)
    requires Wf(a) && a.token == Ident && GetLexeme(a).token == AssignOp
    ensures Advances(Parser.Expression(GetLexeme(GetLexeme(a))), Parser.SyntacticAnalysis(a))
  {
    assert Parser.SyntacticAnalysis(a) == Parser.Assignment(a);
  }

  /** A statement that starts with `while` is a WhileStatement on the token after it. */
  lemma {:induction false} WhileDispatch(a: State)
    requires Wf(a) && a.token == KeyWhile
    ensures Parser.SyntacticAnalysis(a) == Parser.WhileStatement(GetLexeme(a))
  {
  }

  /** A while statement whose heading Comparison does not end on `do`: the heading is
      reported on the current line, the rest of the line is skipped, and the body is
      parsed anyway. */
  lemma {:induction false} WhileWithoutDo(a: State)
    requires Wf(a) && a.token == KeyWhile
    requires Parser.Comparison(GetLexeme(a)).token != KeyDo
    ensures var d := Parser.Comparison(GetLexeme(a));
      var e := Error(d, ImproperHeading(d.lexeme));
      Advances(e, Parser.SyntacticAnalysis(a))
  {
    var b := GetLexeme(a);
    var d := Parser.Comparison(b);
    var e := Error(d, ImproperHeading(d.lexeme));
    WhileDispatch(a);
    AdvancesTrans(e, GetNewLine(e), Parser.WhileInterior(GetNewLine(e)));
  }

  /** The while statement with a misread heading, from the state with `while` pending:
      the heading report is the first record it adds. */
  lemma {:induction false} MisreadAt(l: Expr, rel: Relation, w1: Word, w2: Word, ws: seq<Word>, a: State)
    requires !IsComparisonOp(Kind(w1)) && Kind(w2) != KeyDo
    requires Reading(a, [Sym(KeyWhile)] + ExprWords(l, [Sym(rel)] + ([w1] + ([w2] + ws))))
    requires a.errors == []
    ensures var s := Parser.SyntacticAnalysis(a);
      s.errors != [] && s.errors[0] == Diagnostic(a.line, ImproperHeading(Render(w2)))
  {
    var heading := ExprWords(l, [Sym(rel)] + ([w1] + ([w2] + ws)));
    Advance(a, Sym(KeyWhile), heading);
    var b := GetLexeme(a);
    HeadingAccepts(l, Sym(rel), w1, [w2] + ws, b);
    var d := Parser.Comparison(b);
    FirstReport(d, ImproperHeading(d.lexeme));
    WhileWithoutDo(a);
  }

  /** Comparison reads one word after the comparison operator and does not read a
      whole expression there, so `while l rel w1 w2 ...` with `w2` not `do` is
      reported as an improper heading at `w2`: `while x < y + 1 do` is rejected at
      the `+`. */
  lemma {:induction false} MisreadHeading(l: Expr, rel: Relation, w1: Word, w2: Word, ws: seq<Word>)
    requires !IsComparisonOp(Kind(w1)) && Kind(w2) != KeyDo
    ensures var errs := Parser.Analyze(Spaced(
        [Sym(KeyWhile)] + ExprWords(l, [Sym(rel)] + ([w1] + ([w2] + ws))))).errors;
      errs != [] && errs[0] == Diagnostic(1, ImproperHeading(Render(w2)))
  {
    var all := [Sym(KeyWhile)] + ExprWords(l, [Sym(rel)] + ([w1] + ([w2] + ws)));
    var a := GetLexeme(GetChar(Initial(Spaced(all))));
    AnalyzeStart(all);
    MisreadAt(l, rel, w1, w2, ws, a);
    var s := Parser.SyntacticAnalysis(a);
    assert Advances(s, Parser.StatementLoop(s));
  }

  /** The loop of WhileInterior on `;` with `od` after it: the statement parsed after
      the `;` is the `od`, which is reported as a stray `;` on the line above and left
      pending, and the loop then ends on it. */
  lemma {:induction false} OdAfterSemicolon(s: State)
    requires Wf(s) && s.token == Semicolon && NextChar(s) != Eof && GetLexeme(s).token == KeyOd
    ensures Parser.InteriorLoop(s) == GetLexeme(ErrorAbove(GetLexeme(s), ErrantSemicolonBeforeOd))
  {
    var c := GetLexeme(s);
    assert Parser.InteriorLoop(s) == Parser.InteriorLoop(Parser.SyntacticAnalysis(c));
    assert Parser.SyntacticAnalysis(c) == ErrorAbove(c, ErrantSemicolonBeforeOd);
  }

  /** `;` pending and `od` next. */
  lemma {:induction false} OdAhead(s: State, ws: seq<Word>)
    requires Reading(s, [Sym(Semicolon)] + ([Sym(KeyOd)] + ws))
    ensures s.token == Semicolon && NextChar(s) != Eof
    ensures Reading(GetLexeme(s), [Sym(KeyOd)] + ws) && Quiet(s, GetLexeme(s))
  {
    Advance(s, Sym(Semicolon), [Sym(KeyOd)] + ws);
    MoreAhead(s, Sym(Semicolon), [Sym(KeyOd)] + ws);
  }

  /** A report on the line above, then the `od` that is pending is read. */
  lemma {:induction false} ReportThenOd(c: State, m: Message, ws: seq<Word>)
    requires Reading(c, [Sym(KeyOd)] + ws) && c.errors == []
    ensures var r := GetLexeme(ErrorAbove(c, m));
      Reading(r, ws) && r.input == c.input && r.line == c.line &&
      r.errors == [Diagnostic(c.line - 1, m)]
  {
    FirstReport(c, m);
    Advance(ErrorAbove(c, m), Sym(KeyOd), ws);
  }

  /** The loop of WhileInterior with `;` pending and `od` after it. */
  lemma {:induction false} SemicolonOdPending(s: State, ws: seq<Word>)
    requires Reading(s, [Sym(Semicolon)] + ([Sym(KeyOd)] + ws)) && s.errors == []
    ensures var r := Parser.InteriorLoop(s);
      Reading(r, ws) && r.input == s.input && r.line == s.line &&
      r.errors == [Diagnostic(s.line - 1, ErrantSemicolonBeforeOd)]
  {
    OdAhead(s, ws);
    OdAfterSemicolon(s);
    var c := GetLexeme(s);
    ReportThenOd(c, ErrantSemicolonBeforeOd, ws);
    SameLine(s, c, GetLexeme(ErrorAbove(c, ErrantSemicolonBeforeOd)), ErrantSemicolonBeforeOd);
  }

  /** A state that agrees with `e` on the input, the line and the records ends the
      same way as `e` would. */
  lemma {:induction false} SameLine(e: State, s: State, r: State, m: Message)
    requires Quiet(e, s) && r.input == s.input && r.line == s.line
    requires r.errors == [Diagnostic(s.line - 1, m)]
    ensures r.input == e.input && r.line == e.line && r.errors == [Diagnostic(e.line - 1, m)]
  {
  }

  /** A loop body whose last statement is followed by `; od`. */
  lemma {:induction false} BodyThenSemicolon(body: Block, ws: seq<Word>, e: State)
    requires Reading(e, BlockWords(body, [Sym(Semicolon)] + ([Sym(KeyOd)] + ws))) && e.errors == []
    ensures var r := Parser.InteriorLoop(Parser.SyntacticAnalysis(e));
      Reading(r, ws) && r.input == e.input && r.line == e.line &&
      r.errors == [Diagnostic(e.line - 1, ErrantSemicolonBeforeOd)]
  {
    var close := [Sym(Semicolon)] + ([Sym(KeyOd)] + ws);
    InteriorBlock(body, close, e);
    var s := ReadingState(e, close);
    SemicolonOdPending(s, ws);
    SameLine(e, s, Parser.InteriorLoop(s), ErrantSemicolonBeforeOd);
  }

  /** `while h do b ; od` from the state with `while` pending. */
  lemma {:induction false} LoopThenSemicolon(l: Expr, rel: Relation, r: Operand, body: Block, ws: seq<Word>, a: State)
    requires Reading(a, [Sym(KeyWhile)] + ExprWords(l, [Sym(rel)] + ([OperandWord(r)] +
      ([Sym(KeyDo)] + BlockWords(body, [Sym(Semicolon)] + ([Sym(KeyOd)] + ws))))))
    requires a.errors == []
    ensures var t := Parser.SyntacticAnalysis(a);
      Reading(t, ws) && t.input == a.input && t.line == a.line &&
      t.errors == [Diagnostic(a.line - 1, ErrantSemicolonBeforeOd)]
  {
    var inner := BlockWords(body, [Sym(Semicolon)] + ([Sym(KeyOd)] + ws));
    LoopHeading(l, rel, r, inner, a);
    var e := GetLexeme(Parser.Comparison(GetLexeme(a)));
    BodyThenSemicolon(body, ws, e);
    SameLine(a, e, Parser.InteriorLoop(Parser.SyntacticAnalysis(e)), ErrantSemicolonBeforeOd);
    WhileShape(a);
  }

  /** `while h do b ; od` as a whole text: a `;` after the last statement of a loop
      body is reported on the line above, which for the first line is line 0, and that
      is the only report. */
  lemma {:induction false} SemicolonBeforeOd(l: Expr, rel: Relation, r: Operand, body: Block)
    ensures Parser.Analyze(Spaced([Sym(KeyWhile)] + ExprWords(l, [Sym(rel)] + ([OperandWord(r)] +
      ([Sym(KeyDo)] + BlockWords(body, [Sym(Semicolon)] + ([Sym(KeyOd)] + []))))))).errors ==
      [Diagnostic(0, ErrantSemicolonBeforeOd)]
  {
    var all := [Sym(KeyWhile)] + ExprWords(l, [Sym(rel)] + ([OperandWord(r)] +
      ([Sym(KeyDo)] + BlockWords(body, [Sym(Semicolon)] + ([Sym(KeyOd)] + [])))));
    var a := GetLexeme(GetChar(Initial(Spaced(all))));
    AnalyzeStart(all);
    LoopThenSemicolon(l, rel, r, body, [], a);
    LoopAtEnd(Parser.SyntacticAnalysis(a));
  }
}
