// The remaining diagnostics of the recogniser, branch by branch: each procedure's
// error branch as one step from the state it starts in, then the same report for a
// whole one-line text built from words.

module Reports {
  import opened Tokens
  import opened Diagnostics
  import opened Lexer
  import opened LexerFacts
  import opened Words
  import opened Grammar
  import opened Rejections
  import Parser

  // ---------------------------------------------------------------------------
  // One step of each procedure

  /** A statement that starts with none of IDENT, `read`, `write`, `while` or `od` is
      reported as an errant token, quoting its lexeme. */
  lemma {:induction false} ErrantStatement(a: State)
    requires Wf(a) && a.token != Ident && a.token != KeyRead && a.token != KeyWrite
    requires a.token != KeyWhile && a.token != KeyOd
    ensures Parser.SyntacticAnalysis(a) == Error(a, ErrantToken(a.lexeme))
  {
  }

  /** An IDENT not followed by `:=` is reported at the token after it. */
  lemma {:induction false} IdentWithoutAssign(a: State)
    requires Wf(a) && a.token == Ident && GetLexeme(a).token != AssignOp
    ensures Parser.SyntacticAnalysis(a) == Error(GetLexeme(a), InvalidAfterIdent(GetLexeme(a).lexeme))
  {
    assert Parser.SyntacticAnalysis(a) == Parser.Assignment(a);
  }

  /** `read`/`write` not followed by `(`: the token is reported and not consumed. */
  lemma {:induction false} ReadWithoutParen(a: State)
    requires Wf(a) && a.token != LeftParen
    ensures Parser.ReadWriteStatement(a) == Error(a, InvalidAfterRead(a.lexeme))
  {
  }

  /** `(` followed by anything but an IDENT: the token inside is reported. */
  lemma {:induction false} ReadWithoutName(a: State)
    requires Wf(a) && a.token == LeftParen && GetLexeme(a).token != Ident
    ensures Parser.ReadWriteStatement(a) ==
      Error(GetLexeme(a), InvalidReadInterior(GetLexeme(a).lexeme))
  {
  }

  /** `( IDENT` followed by anything but `)`: the missing closure is reported at the
      token after the IDENT, which is not consumed. */
  lemma {:induction false} ReadWithoutClosure(a: State)
    requires Wf(a) && a.token == LeftParen && GetLexeme(a).token == Ident
    requires GetLexeme(GetLexeme(a)).token != RightParen
    ensures Parser.ReadWriteStatement(a) == Error(GetLexeme(GetLexeme(a)), ReadWithoutClose)
  {
  }

  /** `+` or `-` directly followed by `)`: the `)` is reported as missing its `(` and
      ends the expression. */
  lemma {:induction false} AddThenRightParen(b: State)
    requires Wf(b) && (b.token == AddOp || b.token == SubOp) && GetLexeme(b).token == RightParen
    ensures Parser.AddLoop(b) == Error(GetLexeme(b), RightParenWithoutOpen)
  {
  }

  /** `*` or `/` directly followed by `)`: the same report, ending the term. */
  lemma {:induction false} MulThenRightParen(b: State)
    requires Wf(b) && (b.token == MultOp || b.token == DivOp) && GetLexeme(b).token == RightParen
    ensures Parser.MulLoop(b) == Error(GetLexeme(b), RightParenWithoutOpen)
  {
  }

  /** A factor that starts with none of IDENT, INT_LIT or `(` is reported as a missing
      expression, quoting the token, which is not consumed. */
  lemma {:induction false} FactorWithoutOperand(a: State)
    requires Wf(a) && !(a.token in {Ident, IntLit, LeftParen})
    ensures Parser.Factor(a) == Error(a, ExpectedExpression(a.lexeme))
  {
  }

  /** An Expression that meets no operand at all: the Factor report is all it does. */
  lemma {:induction false} ExpressionWithoutOperand(a: State)
    requires Wf(a) && !(a.token in {Ident, IntLit, LeftParen, AddOp, SubOp, MultOp, DivOp})
    ensures Parser.Expression(a) == Error(a, ExpectedExpression(a.lexeme))
  {
    FactorWithoutOperand(a);
    var f := Error(a, ExpectedExpression(a.lexeme));
    assert Parser.Term(a) == Parser.MulLoop(f) == f;
    assert Parser.Expression(a) == Parser.AddLoop(f) == f;
  }

  /** Inside a loop body, a token other than `od` or `;` after a statement is reported
      as a missing `;` on the line above, and the body ends without consuming it. */
  lemma {:induction false} InteriorWithoutSemicolon(b: State)
    requires Wf(b) && b.token != KeyOd && b.token != Semicolon
    ensures Parser.InteriorLoop(b) == ErrorAbove(b, MissingSemicolon(b.lexeme))
  {
  }

  /** Inside a loop body, a `;` at the end of input: the missing `od` is reported on the
      current line; the statement after it then finds the empty token, whose report on
      the same line is dropped, and the empty token is reported as a missing `;` on the
      line above. */
  lemma {:induction false} InteriorAtEnd(b: State)
    requires Wf(b) && b.token == Semicolon && NextChar(b) == Eof
    ensures Parser.InteriorLoop(b) ==
      ErrorAbove(Error(b, NoLoopClosure).(lexeme := [], token := Empty), MissingSemicolon([]))
  {
    var c := Error(b, NoLoopClosure);
    GetLexemeAtEnd(c);
    var d := GetLexeme(c);
    assert d == c.(lexeme := [], token := Empty);
    ErrantStatement(d);
    InteriorWithoutSemicolon(d);
    InteriorSemicolonAtEnd(b);
  }

  /** One turn of the loop body's `;` branch at the end of input. */
  lemma {:induction false} InteriorSemicolonAtEnd(b: State)
    requires Wf(b) && b.token == Semicolon && NextChar(b) == Eof
    ensures Parser.InteriorLoop(b) ==
      Parser.InteriorLoop(Parser.SyntacticAnalysis(GetLexeme(Error(b, NoLoopClosure))))
  {
  }

  /** A report on the line above a state whose one record is on its own line: the
      new record is kept, after the old one. */
  lemma {:induction false} AboveOneRecord(d: State, n: Message, m: Message)
    requires Wf(d) && d.errors == [Diagnostic(d.line, n)]
    ensures ErrorAbove(d, m) == d.(errors := [Diagnostic(d.line, n), Diagnostic(d.line - 1, m)])
  {
    assert !HasLine(d.errors[..0], d.line - 1);
  }

  /** The loop body's `;` at the end of input with nothing recorded before: exactly the
      two reports, the missing `od` first. */
  lemma {:induction false} InteriorAtEndFirst(b: State)
    requires Wf(b) && b.token == Semicolon && NextChar(b) == Eof && b.errors == []
    ensures var r := Parser.InteriorLoop(b);
      r.input == b.input && r.pos == b.pos && r.line == b.line &&
      r.errors == [Diagnostic(b.line, NoLoopClosure), Diagnostic(b.line - 1, MissingSemicolon([]))]
  {
    EndReports(b);
    InteriorAtEnd(b);
  }

  /** The two reports of InteriorAtEnd on a state with nothing recorded before. */
  lemma {:induction false} EndReports(b: State)
    requires Wf(b) && b.errors == []
    ensures var r := ErrorAbove(Error(b, NoLoopClosure).(lexeme := [], token := Empty), MissingSemicolon([]));
      r.input == b.input && r.pos == b.pos && r.line == b.line &&
      r.errors == [Diagnostic(b.line, NoLoopClosure), Diagnostic(b.line - 1, MissingSemicolon([]))]
  {
    var c := Error(b, NoLoopClosure);
    FirstReport(b, NoLoopClosure);
    var d := c.(lexeme := [], token := Empty);
    AboveOneRecord(d, NoLoopClosure, MissingSemicolon([]));
  }

  /** When the token after the dropped one is a comparison operator, Comparison parses
      an expression that starts on that operator, so it always reports a missing
      expression quoting the operator, and then reads one more token. */
  lemma {:induction false} ComparisonSecondSide(a: State)
    requires Wf(a) && IsComparisonOp(GetLexeme(Parser.Expression(a)).token)
    ensures var c := GetLexeme(Parser.Expression(a));
      Parser.Comparison(a) == GetLexeme(Error(c, ExpectedExpression(c.lexeme)))
  {
    var c := GetLexeme(Parser.Expression(a));
    ExpressionWithoutOperand(c);
  }

  /** A WhileStatement only moves forward from where its heading stopped. */
  lemma {:induction false} WhileAfterHeading(b: State)
    requires Wf(b)
    ensures Advances(Parser.Comparison(b), Parser.WhileStatement(b))
  {
    var d := Parser.Comparison(b);
    if d.token != KeyDo {
      var e := Error(d, ImproperHeading(d.lexeme));
      AdvancesTrans(d, e, GetNewLine(e));
      AdvancesTrans(d, GetNewLine(e), Parser.WhileInterior(GetNewLine(e)));
    }
  }

  /** A `;` after the last statement followed only by blanks (a final newline, say):
      the top-level loop reads on past the `;`, finds the empty token after the blanks
      and reports it as an errant token on the line the blanks end on. */
  lemma {:induction false} SemicolonThenBlanks(b: State)
    requires Wf(b) && b.token == Semicolon && NextChar(b) != Eof
    requires forall i :: b.pos <= i < |b.input| ==> IsBlank(CharAt(b.input, i))
    ensures var e := GetLexeme(b);
      e.line == b.line + Newlines(b.input, b.pos, |b.input|) &&
      Parser.StatementLoop(b) == Error(e, ErrantToken([]))
  {
    GetLexemeAtEnd(b);
    TopShape(b);
    EmptyStatement(GetLexeme(b));
  }

  // ---------------------------------------------------------------------------
  // The first statement of a one-line text

  /** Whatever the run does after its first statement keeps the first record that
      statement made. */
  lemma {:induction false} RunKeepsFirst(ws: seq<Word>, d: Diagnostic)
    requires var a := GetLexeme(GetChar(Initial(Spaced(ws))));
      Wf(a) && Parser.SyntacticAnalysis(a).errors != [] && Parser.SyntacticAnalysis(a).errors[0] == d
    ensures var errs := Parser.Analyze(Spaced(ws)).errors; errs != [] && errs[0] == d
  {
    AnalyzeStart(ws);
    var s := Parser.SyntacticAnalysis(GetLexeme(GetChar(Initial(Spaced(ws)))));
    assert Advances(s, Parser.StatementLoop(s));
  }

  /** `w ...` where `w` cannot start a statement and is not `od`. */
  lemma {:induction false} ErrantFirstWord(w: Word, ws: seq<Word>)
    requires !(Kind(w) in {Ident, KeyRead, KeyWrite, KeyWhile, KeyOd})
    ensures var errs := Parser.Analyze(Spaced([w] + ws)).errors;
      errs != [] && errs[0] == Diagnostic(1, ErrantToken(Render(w)))
  {
    var a := GetLexeme(GetChar(Initial(Spaced([w] + ws))));
    AnalyzeStart([w] + ws);
    ErrantStatement(a);
    FirstReport(a, ErrantToken(Render(w)));
    RunKeepsFirst([w] + ws, Diagnostic(1, ErrantToken(Render(w))));
  }

  /** `x w ...` with `w` not `:=`, from the state with `x` pending. */
  lemma {:induction false} IdentWithoutAssignAt(x: Name, w: Word, ws: seq<Word>, a: State)
    requires Kind(w) != AssignOp
    requires Reading(a, [NameWord(x)] + ([w] + ws)) && a.errors == []
    ensures Parser.SyntacticAnalysis(a).errors == [Diagnostic(a.line, InvalidAfterIdent(Render(w)))]
  {
    Advance(a, NameWord(x), [w] + ws);
    var b := GetLexeme(a);
    IdentWithoutAssign(a);
    FirstReport(b, InvalidAfterIdent(b.lexeme));
  }

  /** `x w ...` with `w` not `:=`: the word after the identifier is reported on line 1. */
  lemma {:induction false} IdentWithoutAssignment(x: Name, w: Word, ws: seq<Word>)
    requires Kind(w) != AssignOp
    ensures var errs := Parser.Analyze(Spaced([NameWord(x)] + ([w] + ws))).errors;
      errs != [] && errs[0] == Diagnostic(1, InvalidAfterIdent(Render(w)))
  {
    var all := [NameWord(x)] + ([w] + ws);
    AnalyzeStart(all);
    IdentWithoutAssignAt(x, w, ws, GetLexeme(GetChar(Initial(Spaced(all)))));
    RunKeepsFirst(all, Diagnostic(1, InvalidAfterIdent(Render(w))));
  }

  /** A statement that starts with `read` or `write` is a ReadWriteStatement on the
      token after the keyword. */
  lemma {:induction false} ReadDispatch(a: State)
    requires Wf(a) && (a.token == KeyRead || a.token == KeyWrite)
    ensures Parser.SyntacticAnalysis(a) == Parser.ReadWriteStatement(GetLexeme(a))
  {
  }

  /** `read w ...` or `write w ...` with `w` not `(`, from the keyword. */
  lemma {:induction false} ReadWithoutParenAt(kw: FixedToken, w: Word, ws: seq<Word>, a: State)
    requires (kw == KeyRead || kw == KeyWrite) && Kind(w) != LeftParen
    requires Reading(a, [Sym(kw)] + ([w] + ws)) && a.errors == []
    ensures Parser.SyntacticAnalysis(a).errors == [Diagnostic(a.line, InvalidAfterRead(Render(w)))]
  {
    Advance(a, Sym(kw), [w] + ws);
    var b := GetLexeme(a);
    ReadDispatch(a);
    ReadWithoutParen(b);
    FirstReport(b, InvalidAfterRead(b.lexeme));
  }

  /** `read w ...` with `w` not `(`: `w` is reported on line 1. */
  lemma {:induction false} ReadWithoutParenthesis(kw: FixedToken, w: Word, ws: seq<Word>)
    requires (kw == KeyRead || kw == KeyWrite) && Kind(w) != LeftParen
    ensures var errs := Parser.Analyze(Spaced([Sym(kw)] + ([w] + ws))).errors;
      errs != [] && errs[0] == Diagnostic(1, InvalidAfterRead(Render(w)))
  {
    var all := [Sym(kw)] + ([w] + ws);
    AnalyzeStart(all);
    ReadWithoutParenAt(kw, w, ws, GetLexeme(GetChar(Initial(Spaced(all)))));
    RunKeepsFirst(all, Diagnostic(1, InvalidAfterRead(Render(w))));
  }

  /** `( w ...` with `w` not an identifier, after the keyword. */
  lemma {:induction false} NonNameInParens(w: Word, ws: seq<Word>, b: State)
    requires Kind(w) != Ident
    requires Reading(b, [Sym(LeftParen)] + ([w] + ws)) && b.errors == []
    ensures Parser.ReadWriteStatement(b).errors == [Diagnostic(b.line, InvalidReadInterior(Render(w)))]
  {
    Advance(b, Sym(LeftParen), [w] + ws);
    var c := GetLexeme(b);
    FirstReport(c, InvalidReadInterior(c.lexeme));
    ReadWithoutName(b);
  }

  /** `read ( w ...` with `w` not an identifier, from the keyword. */
  lemma {:induction false} ReadOfNonNameAt(kw: FixedToken, w: Word, ws: seq<Word>, a: State)
    requires (kw == KeyRead || kw == KeyWrite) && Kind(w) != Ident
    requires Reading(a, [Sym(kw)] + ([Sym(LeftParen)] + ([w] + ws))) && a.errors == []
    ensures Parser.SyntacticAnalysis(a).errors == [Diagnostic(a.line, InvalidReadInterior(Render(w)))]
  {
    Advance(a, Sym(kw), [Sym(LeftParen)] + ([w] + ws));
    NonNameInParens(w, ws, GetLexeme(a));
    ReadDispatch(a);
  }

  /** `read ( w ...` with `w` not an identifier: `w` is reported on line 1. */
  lemma {:induction false} ReadOfNonName(kw: FixedToken, w: Word, ws: seq<Word>)
    requires (kw == KeyRead || kw == KeyWrite) && Kind(w) != Ident
    ensures var errs := Parser.Analyze(Spaced([Sym(kw)] + ([Sym(LeftParen)] + ([w] + ws)))).errors;
      errs != [] && errs[0] == Diagnostic(1, InvalidReadInterior(Render(w)))
  {
    var all := [Sym(kw)] + ([Sym(LeftParen)] + ([w] + ws));
    AnalyzeStart(all);
    ReadOfNonNameAt(kw, w, ws, GetLexeme(GetChar(Initial(Spaced(all)))));
    RunKeepsFirst(all, Diagnostic(1, InvalidReadInterior(Render(w))));
  }

  /** `( x w ...` with `w` not `)`, after the keyword. */
  lemma {:induction false} NameWithoutClose(x: Name, w: Word, ws: seq<Word>, b: State)
    requires Kind(w) != RightParen
    requires Reading(b, [Sym(LeftParen)] + ([NameWord(x)] + ([w] + ws))) && b.errors == []
    ensures Parser.ReadWriteStatement(b).errors == [Diagnostic(b.line, ReadWithoutClose)]
  {
    Advance(b, Sym(LeftParen), [NameWord(x)] + ([w] + ws));
    var c := GetLexeme(b);
    Advance(c, NameWord(x), [w] + ws);
    var d := GetLexeme(c);
    FirstReport(d, ReadWithoutClose);
    ReadWithoutClosure(b);
  }

  /** `read ( x w ...` with `w` not `)`, from the keyword. */
  lemma {:induction false} ReadUnclosedAt(kw: FixedToken, x: Name, w: Word, ws: seq<Word>, a: State)
    requires (kw == KeyRead || kw == KeyWrite) && Kind(w) != RightParen
    requires Reading(a, [Sym(kw)] + ([Sym(LeftParen)] + ([NameWord(x)] + ([w] + ws)))) && a.errors == []
    ensures Parser.SyntacticAnalysis(a).errors == [Diagnostic(a.line, ReadWithoutClose)]
  {
    Advance(a, Sym(kw), [Sym(LeftParen)] + ([NameWord(x)] + ([w] + ws)));
    NameWithoutClose(x, w, ws, GetLexeme(a));
    ReadDispatch(a);
  }

  /** `read ( x w ...` with `w` not `)`: the missing `)` is reported on line 1. */
  lemma {:induction false} ReadUnclosed(kw: FixedToken, x: Name, w: Word, ws: seq<Word>)
    requires (kw == KeyRead || kw == KeyWrite) && Kind(w) != RightParen
    ensures var errs := Parser.Analyze(Spaced([Sym(kw)] + ([Sym(LeftParen)] + ([NameWord(x)] + ([w] + ws))))).errors;
      errs != [] && errs[0] == Diagnostic(1, ReadWithoutClose)
  {
    var all := [Sym(kw)] + ([Sym(LeftParen)] + ([NameWord(x)] + ([w] + ws)));
    AnalyzeStart(all);
    ReadUnclosedAt(kw, x, w, ws, GetLexeme(GetChar(Initial(Spaced(all)))));
    RunKeepsFirst(all, Diagnostic(1, ReadWithoutClose));
  }

  /** `x := w ...` with `w` not an operand, from the state with `x` pending: the
      statement's first record is the missing expression. */
  lemma {:induction false} AssignWithoutOperandAt(x: Name, w: Word, ws: seq<Word>, a: State)
    requires !(Kind(w) in {Ident, IntLit, LeftParen})
    requires Reading(a, [NameWord(x)] + ([Sym(AssignOp)] + ([w] + ws))) && a.errors == []
    ensures var s := Parser.SyntacticAnalysis(a);
      s.errors != [] && s.errors[0] == Diagnostic(a.line, ExpectedExpression(Render(w)))
  {
    AssignPrefix(x, [w] + ws, a);
    var c := GetLexeme(GetLexeme(a));
    FactorWithoutOperand(c);
    FirstReport(c, ExpectedExpression(c.lexeme));
    ExpressionAfterFactor(c);
    AssignAfterExpression(a);
    AdvancesTrans(Parser.Factor(c), Parser.Expression(c), Parser.SyntacticAnalysis(a));
  }

  /** `x := w ...` with `w` not an operand: the missing expression is reported first,
      on line 1, quoting `w`. */
  lemma {:induction false} AssignWithoutOperand(x: Name, w: Word, ws: seq<Word>)
    requires !(Kind(w) in {Ident, IntLit, LeftParen})
    ensures var errs := Parser.Analyze(Spaced([NameWord(x)] + ([Sym(AssignOp)] + ([w] + ws)))).errors;
      errs != [] && errs[0] == Diagnostic(1, ExpectedExpression(Render(w)))
  {
    var all := [NameWord(x)] + ([Sym(AssignOp)] + ([w] + ws));
    AnalyzeStart(all);
    AssignWithoutOperandAt(x, w, ws, GetLexeme(GetChar(Initial(Spaced(all)))));
    RunKeepsFirst(all, Diagnostic(1, ExpectedExpression(Render(w))));
  }

  /** `t + )`: after a term, an additive operator directly followed by `)` ends the
      expression with the right-parenthesis report, the `)` left pending. */
  lemma {:induction false} AddBeforeRightParenAt(t: Term, op: AddKind, ws: seq<Word>, c: State)
    requires Reading(c, TermWords(t, [Sym(op)] + ([Sym(RightParen)] + ws)))
    ensures var e := Parser.Expression(c);
      e.token == RightParen && e.input == c.input && e.line == c.line &&
      e.errors == Record(c.errors, c.line, RightParenWithoutOpen)
  {
    TermAccepts(t, [Sym(op)] + ([Sym(RightParen)] + ws), c);
    var b := Parser.Term(c);
    Advance(b, Sym(op), [Sym(RightParen)] + ws);
    AddThenRightParen(b);
  }

  /** A factor followed by `*` or `/` and then `)`: the expression ends with the
      right-parenthesis report made at that `)`. */
  lemma {:induction false} ExpressionOnMulRightParen(c: State)
    requires Wf(c)
    requires var b := Parser.Factor(c);
      (b.token == MultOp || b.token == DivOp) && GetLexeme(b).token == RightParen
    ensures Parser.Expression(c) == Error(GetLexeme(Parser.Factor(c)), RightParenWithoutOpen)
  {
    var b := Parser.Factor(c);
    MulThenRightParen(b);
    var m := Parser.MulLoop(b);
    assert Parser.Term(c) == m;
    assert Parser.Expression(c) == Parser.AddLoop(m) == m;
  }

  /** `f * )`: after a factor, a multiplicative operator directly followed by `)` ends
      the expression with the right-parenthesis report, the `)` left pending. */
  lemma {:induction false} MulBeforeRightParenAt(f: Factor, op: MulKind, ws: seq<Word>, c: State)
    requires Reading(c, FactorWords(f, [Sym(op)] + ([Sym(RightParen)] + ws)))
    ensures var e := Parser.Expression(c);
      e.token == RightParen && e.input == c.input && e.line == c.line &&
      e.errors == Record(c.errors, c.line, RightParenWithoutOpen)
  {
    FactorAccepts(f, [Sym(op)] + ([Sym(RightParen)] + ws), c);
    var b := Parser.Factor(c);
    Advance(b, Sym(op), [Sym(RightParen)] + ws);
    ExpressionOnMulRightParen(c);
  }

  /** An assignment whose expression stops on `)` after its own `)` report adds
      nothing more: the second report is on the same line. */
  lemma {:induction false} AssignRightParenOnce(x: Name, ws: seq<Word>, a: State)
    requires Reading(a, [NameWord(x)] + ([Sym(AssignOp)] + ws))
    requires var e := Parser.Expression(GetLexeme(GetLexeme(a)));
      e.token == RightParen && e.line == a.line && e.errors == Record(a.errors, a.line, RightParenWithoutOpen)
    ensures Parser.SyntacticAnalysis(a).errors == Record(a.errors, a.line, RightParenWithoutOpen)
  {
    AssignPrefix(x, ws, a);
    AssignOnRightParen(a);
  }

  /** `x := t + ) ...`: the `)` after the operator is reported first, on line 1. */
  lemma {:induction false} AddBeforeRightParen(x: Name, t: Term, op: AddKind, ws: seq<Word>)
    ensures var errs := Parser.Analyze(Spaced([NameWord(x)] + ([Sym(AssignOp)] +
        TermWords(t, [Sym(op)] + ([Sym(RightParen)] + ws))))).errors;
      errs != [] && errs[0] == Diagnostic(1, RightParenWithoutOpen)
  {
    var rest := TermWords(t, [Sym(op)] + ([Sym(RightParen)] + ws));
    var all := [NameWord(x)] + ([Sym(AssignOp)] + rest);
    var a := GetLexeme(GetChar(Initial(Spaced(all))));
    AnalyzeStart(all);
    AssignPrefix(x, rest, a);
    AddBeforeRightParenAt(t, op, ws, GetLexeme(GetLexeme(a)));
    AssignRightParenOnce(x, rest, a);
    RunKeepsFirst(all, Diagnostic(1, RightParenWithoutOpen));
  }

  /** `x := f * ) ...`: the `)` after the operator is reported first, on line 1. */
  lemma {:induction false} MulBeforeRightParen(x: Name, f: Factor, op: MulKind, ws: seq<Word>)
    ensures var errs := Parser.Analyze(Spaced([NameWord(x)] + ([Sym(AssignOp)] +
        FactorWords(f, [Sym(op)] + ([Sym(RightParen)] + ws))))).errors;
      errs != [] && errs[0] == Diagnostic(1, RightParenWithoutOpen)
  {
    var rest := FactorWords(f, [Sym(op)] + ([Sym(RightParen)] + ws));
    var all := [NameWord(x)] + ([Sym(AssignOp)] + rest);
    var a := GetLexeme(GetChar(Initial(Spaced(all))));
    AnalyzeStart(all);
    AssignPrefix(x, rest, a);
    MulBeforeRightParenAt(f, op, ws, GetLexeme(GetLexeme(a)));
    AssignRightParenOnce(x, rest, a);
    RunKeepsFirst(all, Diagnostic(1, RightParenWithoutOpen));
  }

  /** The loop of WhileInterior with the `;` that ends the input pending. */
  lemma {:induction false} SemicolonAtEnd(s: State)
    requires Reading(s, [Sym(Semicolon)]) && s.errors == []
    ensures var r := Parser.InteriorLoop(s);
      r.input == s.input && r.pos == |r.input| && r.line == s.line &&
      r.errors == [Diagnostic(s.line, NoLoopClosure), Diagnostic(s.line - 1, MissingSemicolon([]))]
  {
    assert s.input[s.pos..] == [];
    InteriorAtEndFirst(s);
  }

  /** The loop of WhileInterior with a word other than `;` or `od` pending. */
  lemma {:induction false} UnseparatedPending(s: State, w: Word, ws: seq<Word>)
    requires Reading(s, [w] + ws) && !(Kind(w) in {KeyOd, Semicolon}) && s.errors == []
    ensures var r := Parser.InteriorLoop(s);
      r.input == s.input && r.line == s.line &&
      r.errors == [Diagnostic(s.line - 1, MissingSemicolon(Render(w)))]
  {
    InteriorWithoutSemicolon(s);
    FirstReport(s, MissingSemicolon(s.lexeme));
  }

  /** The two reports of an unclosed loop, moved to a state that agrees with `e`. */
  lemma {:induction false} SameLinePair(e: State, s: State, r: State, m: Message, n: Message)
    requires Quiet(e, s) && r.input == s.input && r.line == s.line
    requires r.errors == [Diagnostic(s.line, m), Diagnostic(s.line - 1, n)]
    ensures r.input == e.input && r.line == e.line && r.errors == [Diagnostic(e.line, m), Diagnostic(e.line - 1, n)]
  {
  }

  /** A loop body whose last statement is followed by a `;` that ends the input. */
  lemma {:induction false} BodyAtEnd(body: Block, e: State)
    requires Reading(e, BlockWords(body, [Sym(Semicolon)])) && e.errors == []
    ensures var t := Parser.InteriorLoop(Parser.SyntacticAnalysis(e));
      t.input == e.input && t.pos == |t.input| && t.line == e.line &&
      t.errors == [Diagnostic(e.line, NoLoopClosure), Diagnostic(e.line - 1, MissingSemicolon([]))]
  {
    InteriorBlock(body, [Sym(Semicolon)], e);
    var s := ReadingState(e, [Sym(Semicolon)]);
    SemicolonAtEnd(s);
    SameLinePair(e, s, Parser.InteriorLoop(s), NoLoopClosure, MissingSemicolon([]));
  }

  /** A loop body whose last statement is followed by a word other than `;` or `od`. */
  lemma {:induction false} BodyUnseparated(body: Block, w: Word, ws: seq<Word>, e: State)
    requires StmtFollow([w] + ws) && !(Kind(w) in {KeyOd, Semicolon})
    requires Reading(e, BlockWords(body, [w] + ws)) && e.errors == []
    ensures var t := Parser.InteriorLoop(Parser.SyntacticAnalysis(e));
      t.input == e.input && t.line == e.line &&
      t.errors == [Diagnostic(e.line - 1, MissingSemicolon(Render(w)))]
  {
    InteriorBlock(body, [w] + ws, e);
    var s := ReadingState(e, [w] + ws);
    UnseparatedPending(s, w, ws);
    SameLine(e, s, Parser.InteriorLoop(s), MissingSemicolon(Render(w)));
  }

  /** `while h do b ;` with nothing after the `;`, from the state with `while` pending:
      the loop reaches the end of input, and exactly two reports are made, the missing
      `od` on the current line and then a missing `;` on the line above. */
  lemma {:induction false} UnclosedLoopAt(l: Expr, rel: Relation, r: Operand, body: Block, a: State)
    requires Reading(a, [Sym(KeyWhile)] + ExprWords(l, [Sym(rel)] + ([OperandWord(r)] +
      ([Sym(KeyDo)] + BlockWords(body, [Sym(Semicolon)])))))
    requires a.errors == []
    ensures var t := Parser.SyntacticAnalysis(a);
      t.input == a.input && t.pos == |t.input| && t.line == a.line &&
      t.errors == [Diagnostic(a.line, NoLoopClosure), Diagnostic(a.line - 1, MissingSemicolon([]))]
  {
    LoopHeading(l, rel, r, BlockWords(body, [Sym(Semicolon)]), a);
    var e := GetLexeme(Parser.Comparison(GetLexeme(a)));
    BodyAtEnd(body, e);
    SameLinePair(a, e, Parser.InteriorLoop(Parser.SyntacticAnalysis(e)), NoLoopClosure, MissingSemicolon([]));
    WhileShape(a);
  }

  /** `while h do b ;` as a whole text: the missing `od` is reported first, on line 1,
      then the missing `;` on line 0, and nothing else. */
  lemma {:induction false} UnclosedLoop(l: Expr, rel: Relation, r: Operand, body: Block)
    ensures Parser.Analyze(Spaced([Sym(KeyWhile)] + ExprWords(l, [Sym(rel)] + ([OperandWord(r)] +
      ([Sym(KeyDo)] + BlockWords(body, [Sym(Semicolon)])))))).errors ==
      [Diagnostic(1, NoLoopClosure), Diagnostic(0, MissingSemicolon([]))]
  {
    var all := [Sym(KeyWhile)] + ExprWords(l, [Sym(rel)] + ([OperandWord(r)] +
      ([Sym(KeyDo)] + BlockWords(body, [Sym(Semicolon)]))));
    var a := GetLexeme(GetChar(Initial(Spaced(all))));
    AnalyzeStart(all);
    UnclosedLoopAt(l, rel, r, body, a);
    LoopAtEnd(Parser.SyntacticAnalysis(a));
  }

  /** `while h do b w ...` with `w` neither `;` nor `od`, from the state with `while`
      pending: the body's missing `;` is the first record, on the line above. */
  lemma {:induction false} LoopBodyUnseparatedAt(l: Expr, rel: Relation, r: Operand, body: Block,
                                                 w: Word, ws: seq<Word>, a: State)
    requires StmtFollow([w] + ws) && !(Kind(w) in {KeyOd, Semicolon})
    requires Reading(a, [Sym(KeyWhile)] + ExprWords(l, [Sym(rel)] + ([OperandWord(r)] +
      ([Sym(KeyDo)] + BlockWords(body, [w] + ws)))))
    requires a.errors == []
    ensures Parser.SyntacticAnalysis(a).errors == [Diagnostic(a.line - 1, MissingSemicolon(Render(w)))]
  {
    LoopHeading(l, rel, r, BlockWords(body, [w] + ws), a);
    var e := GetLexeme(Parser.Comparison(GetLexeme(a)));
    BodyUnseparated(body, w, ws, e);
    SameLine(a, e, Parser.InteriorLoop(Parser.SyntacticAnalysis(e)), MissingSemicolon(Render(w)));
    WhileShape(a);
  }
  /** `while h do b w ...` as a whole text: the missing `;` before `w` is reported
      first, on line 0, quoting `w`. */
  lemma {:induction false} LoopBodyUnseparated(l: Expr, rel: Relation, r: Operand, body: Block,
                                               w: Word, ws: seq<Word>)
    requires StmtFollow([w] + ws) && !(Kind(w) in {KeyOd, Semicolon})
    ensures var errs := Parser.Analyze(Spaced([Sym(KeyWhile)] + ExprWords(l, [Sym(rel)] + ([OperandWord(r)] +
      ([Sym(KeyDo)] + BlockWords(body, [w] + ws)))))).errors;
      errs != [] && errs[0] == Diagnostic(0, MissingSemicolon(Render(w)))
  {
    var all := [Sym(KeyWhile)] + ExprWords(l, [Sym(rel)] + ([OperandWord(r)] +
      ([Sym(KeyDo)] + BlockWords(body, [w] + ws))));
    AnalyzeStart(all);
    LoopBodyUnseparatedAt(l, rel, r, body, w, ws, GetLexeme(GetChar(Initial(Spaced(all)))));
    RunKeepsFirst(all, Diagnostic(0, MissingSemicolon(Render(w))));
  }

  /** Comparison with a comparison operator after the dropped token, nothing recorded
      before: its first record is the missing expression at the operator. */
  lemma {:induction false} SecondSideFirst(b: State, rel: Relation)
    requires Wf(b)
    requires var c := GetLexeme(Parser.Expression(b));
      c.token == rel && c.lexeme == Spelling(rel) && c.line == b.line && c.errors == []
    ensures var d := Parser.Comparison(b);
      d.errors != [] && d.errors[0] == Diagnostic(b.line, ExpectedExpression(Spelling(rel)))
  {
    var c := GetLexeme(Parser.Expression(b));
    FirstReport(c, ExpectedExpression(Spelling(rel)));
    ComparisonSecondSide(b);
  }

  /** A heading `e w1 rel ...`: Comparison's first record is the missing expression
      at `rel`, on the current line. */
  lemma {:induction false} HeadingSecondSide(l: Expr, w1: Word, rel: Relation, ws: seq<Word>, b: State)
    requires !(Kind(w1) in {AddOp, SubOp, MultOp, DivOp})
    requires Reading(b, ExprWords(l, [w1] + ([Sym(rel)] + ws))) && b.errors == []
    ensures var d := Parser.Comparison(b);
      d.errors != [] && d.errors[0] == Diagnostic(b.line, ExpectedExpression(Spelling(rel)))
  {
    ExprAccepts(l, [w1] + ([Sym(rel)] + ws), b);
    Advance(Parser.Expression(b), w1, [Sym(rel)] + ws);
    SecondSideFirst(b, rel);
  }

  /** `while e w1 rel ...` with `w1` dropped in the comparison operator's place: the
      heading's second expression starts on `rel`, which is reported as a missing
      expression, on the current line. */
  lemma {:induction false} DoubleComparisonAt(l: Expr, w1: Word, rel: Relation, ws: seq<Word>, a: State)
    requires !(Kind(w1) in {AddOp, SubOp, MultOp, DivOp})
    requires Reading(a, [Sym(KeyWhile)] + ExprWords(l, [w1] + ([Sym(rel)] + ws))) && a.errors == []
    ensures var t := Parser.SyntacticAnalysis(a);
      t.errors != [] && t.errors[0] == Diagnostic(a.line, ExpectedExpression(Spelling(rel)))
  {
    Advance(a, Sym(KeyWhile), ExprWords(l, [w1] + ([Sym(rel)] + ws)));
    var b := GetLexeme(a);
    HeadingSecondSide(l, w1, rel, ws, b);
    WhileAfterHeading(b);
    WhileDispatch(a);
  }

  /** `while e w1 rel ...` as a whole text: the operator is reported as a missing
      expression first, on line 1. */
  lemma {:induction false} DoubleComparison(l: Expr, w1: Word, rel: Relation, ws: seq<Word>)
    requires !(Kind(w1) in {AddOp, SubOp, MultOp, DivOp})
    ensures var errs := Parser.Analyze(Spaced([Sym(KeyWhile)] + ExprWords(l, [w1] + ([Sym(rel)] + ws)))).errors;
      errs != [] && errs[0] == Diagnostic(1, ExpectedExpression(Spelling(rel)))
  {
    var all := [Sym(KeyWhile)] + ExprWords(l, [w1] + ([Sym(rel)] + ws));
    AnalyzeStart(all);
    DoubleComparisonAt(l, w1, rel, ws, GetLexeme(GetChar(Initial(Spaced(all)))));
    RunKeepsFirst(all, Diagnostic(1, ExpectedExpression(Spelling(rel))));
  }
}
