// The DanC grammar as syntax trees, each tree spelled as a word sequence, and the
// acceptance theorems: for every program of the grammar, written with one blank before
// each word, the analysis records nothing and the exit status is 0. The proofs follow
// the recursive descent procedure by procedure, by induction on the trees.
//
// The while heading is the grammar the code accepts, not the one its comments describe:
// Comparison drops the token after the left expression without testing it and reads
// exactly one word on the right (see HeadingAccepts).

module Grammar {
  import opened Tokens
  import opened Lexer
  import opened Words
  import Parser

  type AddKind = t: Token | t == AddOp || t == SubOp witness AddOp

  type MulKind = t: Token | t == MultOp || t == DivOp witness MultOp

  type Relation = t: Token | IsComparisonOp(t) witness LesserOp

  /** factor ::= IDENT | INT_LIT | ( expression ) */
  datatype Factor = Var(name: Name) | Num(digits: Numeral) | Group(inner: Expr)

  /** term ::= factor { (* | /) factor } */
  datatype Term = Single(f: Factor) | Product(f: Factor, op: MulKind, rest: Term)

  /** expression ::= term { (+ | -) term } */
  datatype Expr = Simple(t: Term) | Sum(t: Term, op: AddKind, rest: Expr)

  /** The one word on the right of a while heading. */
  datatype Operand = OperandName(name: Name) | OperandNumber(digits: Numeral)

  /** statement ::= IDENT := expression | read ( IDENT ) | write ( IDENT )
                  | while expression relation operand do block od */
  datatype Stmt =
    | Assign(target: Name, value: Expr)
    | ReadStmt(arg: Name)
    | WriteStmt(arg: Name)
    | Loop(left: Expr, rel: Relation, right: Operand, body: Block)

  /** block ::= statement { ; statement } */
  datatype Block = Last(s: Stmt) | Then(s: Stmt, rest: Block)

  /** A program is a block, optionally ended by one `;`. */
  datatype Program = Program(body: Block, finalSemicolon: bool)

  /** The word sequence starts the way every factor does. */
  predicate Opens(ws: seq<Word>) {
    ws != [] && Kind(ws[0]) in {Ident, IntLit, LeftParen}
  }

  /** The words of a factor followed by `ws`. */
  function FactorWords(f: Factor, ws: seq<Word>): (r: seq<Word>)
    ensures Opens(r)
  {
    match f
    case Var(n) => [NameWord(n)] + ws
    case Num(d) => [NumberWord(d)] + ws
    case Group(e) => [Sym(LeftParen)] + ExprWords(e, [Sym(RightParen)] + ws)
  }

  /** The words of a term followed by `ws`. */
  function TermWords(t: Term, ws: seq<Word>): (r: seq<Word>)
    ensures Opens(r)
  {
    match t
    case Single(f) => FactorWords(f, ws)
    case Product(f, op, rest) => FactorWords(f, [Sym(op)] + TermWords(rest, ws))
  }

  /** The words of an expression followed by `ws`. */
  function ExprWords(e: Expr, ws: seq<Word>): (r: seq<Word>)
    ensures Opens(r)
  {
    match e
    case Simple(t) => TermWords(t, ws)
    case Sum(t, op, rest) => TermWords(t, [Sym(op)] + ExprWords(rest, ws))
  }

  function OperandWord(r: Operand): Word {
    match r
    case OperandName(n) => NameWord(n)
    case OperandNumber(d) => NumberWord(d)
  }

  /** The word sequence starts the way every statement does: with an identifier or the
      keyword `read`, `write` or `while`. */
  predicate StartsStatement(ws: seq<Word>) {
    ws != [] && Kind(ws[0]) in {Ident, KeyRead, KeyWrite, KeyWhile}
  }

  /** The words of a statement followed by `ws`. */
  function StmtWords(s: Stmt, ws: seq<Word>): (r: seq<Word>)
    ensures StartsStatement(r)
  {
    match s
    case Assign(x, e) => [NameWord(x)] + ([Sym(AssignOp)] + ExprWords(e, ws))
    case ReadStmt(x) => [Sym(KeyRead)] + ArgumentWords(x, ws)
    case WriteStmt(x) => [Sym(KeyWrite)] + ArgumentWords(x, ws)
    case Loop(l, rel, r, body) =>
      [Sym(KeyWhile)] +
      ExprWords(l, [Sym(rel)] + ([OperandWord(r)] + ([Sym(KeyDo)] + BlockWords(body, [Sym(KeyOd)] + ws))))
  }

  /** `( IDENT )` followed by `ws`. */
  function ArgumentWords(x: Name, ws: seq<Word>): seq<Word> {
    [Sym(LeftParen)] + ([NameWord(x)] + ([Sym(RightParen)] + ws))
  }

  /** The words of a block followed by `ws`. */
  function BlockWords(b: Block, ws: seq<Word>): (r: seq<Word>)
    ensures StartsStatement(r)
  {
    match b
    case Last(s) => StmtWords(s, ws)
    case Then(s, rest) => StmtWords(s, [Sym(Semicolon)] + BlockWords(rest, ws))
  }

  /** A `;` after the last statement, when the program has one. */
  function FinalWords(p: Program): seq<Word> {
    if p.finalSemicolon then [Sym(Semicolon)] else []
  }

  function ProgramWords(p: Program): seq<Word> {
    BlockWords(p.body, FinalWords(p))
  }

  /** What may follow a term: anything but `*` and `/`, which would extend it. */
  predicate TermFollow(ws: seq<Word>) {
    ws == [] || !(Kind(ws[0]) in {MultOp, DivOp})
  }

  /** What may follow an expression: anything but the four arithmetic operators. */
  predicate ExprFollow(ws: seq<Word>) {
    ws == [] || !(Kind(ws[0]) in {AddOp, SubOp, MultOp, DivOp})
  }

  /** What may follow a statement: an assignment also must not be followed by `)`. */
  predicate StmtFollow(ws: seq<Word>) {
    ws == [] || !(Kind(ws[0]) in {AddOp, SubOp, MultOp, DivOp, RightParen})
  }

  /** Factor reads exactly the words of a factor, records nothing, and leaves the word
      after it pending. */
  lemma {:induction false} FactorAccepts(f: Factor, ws: seq<Word>, a: State)
    requires Reading(a, FactorWords(f, ws))
    ensures Reading(Parser.Factor(a), ws) && Quiet(a, Parser.Factor(a))
    decreases f, 2
  {
    match f
    case Var(n) =>
      Advance(a, NameWord(n), ws);
    case Num(d) =>
      Advance(a, NumberWord(d), ws);
    case Group(e) =>
      GroupAccepts(e, ws, a);
  }

  lemma {:induction false} GroupAccepts(e: Expr, ws: seq<Word>, a: State)
    requires Reading(a, FactorWords(Group(e), ws))
    ensures Reading(Parser.Factor(a), ws) && Quiet(a, Parser.Factor(a))
    decreases Group(e), 1
  {
    var close := [Sym(RightParen)] + ws;
    Advance(a, Sym(LeftParen), ExprWords(e, close));
    var b := GetLexeme(a);
    ExprAccepts(e, close, b);
    Advance(Parser.Expression(b), Sym(RightParen), ws);
    GroupShape(a);
  }

  /** A parenthesised factor whose expression stops on `)` ends by reading the word
      after the `)`. */
  lemma {:induction false} GroupShape(a: State)
    requires Wf(a) && a.token == LeftParen && Parser.Expression(GetLexeme(a)).token == RightParen
    ensures Parser.Factor(a) == GetLexeme(Parser.Expression(GetLexeme(a)))
  {
  }

  /** After a factor, an operator `*` or `/` and the words of a factor: the loop of
      Term reads the operator and goes on as Term does from the next word. */
  lemma {:induction false} MulStep(b: State, op: MulKind, rest: seq<Word>)
    requires Reading(b, [Sym(op)] + rest) && Opens(rest)
    ensures var c := GetLexeme(b);
      Reading(c, rest) && Quiet(b, c) && Parser.MulLoop(b) == Parser.Term(c)
  {
    Advance(b, Sym(op), rest);
  }

  /** After a term, an operator `+` or `-` and the words of a term: the loop of
      Expression reads the operator and goes on as Expression does from the next word. */
  lemma {:induction false} AddStep(b: State, op: AddKind, rest: seq<Word>)
    requires Reading(b, [Sym(op)] + rest) && Opens(rest)
    ensures var c := GetLexeme(b);
      Reading(c, rest) && Quiet(b, c) && Parser.AddLoop(b) == Parser.Expression(c)
  {
    Advance(b, Sym(op), rest);
  }

  /** Term reads exactly the words of a term when what follows cannot extend it. */
  lemma {:induction false} TermAccepts(t: Term, ws: seq<Word>, a: State)
    requires Reading(a, TermWords(t, ws)) && TermFollow(ws)
    ensures Reading(Parser.Term(a), ws) && Quiet(a, Parser.Term(a))
    decreases t, 1
  {
    match t
    case Single(f) =>
      FactorAccepts(f, ws, a);
    case Product(f, op, rest) =>
      ProductAccepts(f, op, rest, ws, a);
  }

  lemma {:induction false} ProductAccepts(f: Factor, op: MulKind, rest: Term, ws: seq<Word>, a: State)
    requires Reading(a, TermWords(Product(f, op, rest), ws)) && TermFollow(ws)
    ensures Reading(Parser.Term(a), ws) && Quiet(a, Parser.Term(a))
    decreases Product(f, op, rest), 0
  {
    var more := TermWords(rest, ws);
    FactorAccepts(f, [Sym(op)] + more, a);
    var b := Parser.Factor(a);
    MulStep(b, op, more);
    TermAccepts(rest, ws, GetLexeme(b));
  }

  /** Expression reads exactly the words of an expression when what follows cannot
      extend it. */
  lemma {:induction false} ExprAccepts(e: Expr, ws: seq<Word>, a: State)
    requires Reading(a, ExprWords(e, ws)) && ExprFollow(ws)
    ensures Reading(Parser.Expression(a), ws) && Quiet(a, Parser.Expression(a))
    decreases e, 1
  {
    match e
    case Simple(t) =>
      TermAccepts(t, ws, a);
    case Sum(t, op, rest) =>
      SumAccepts(t, op, rest, ws, a);
  }

  lemma {:induction false} SumAccepts(t: Term, op: AddKind, rest: Expr, ws: seq<Word>, a: State)
    requires Reading(a, ExprWords(Sum(t, op, rest), ws)) && ExprFollow(ws)
    ensures Reading(Parser.Expression(a), ws) && Quiet(a, Parser.Expression(a))
    decreases Sum(t, op, rest), 0
  {
    var more := ExprWords(rest, ws);
    TermAccepts(t, [Sym(op)] + more, a);
    var b := Parser.Term(a);
    AddStep(b, op, more);
    ExprAccepts(rest, ws, GetLexeme(b));
  }

  /** The heading of a while loop as Comparison reads it: an expression, then any word
      that cannot extend the expression (it is dropped untested), then one word that is
      not a comparison operator, and Comparison leaves the word after those pending. */
  lemma {:induction false} HeadingAccepts(l: Expr, op: Word, r: Word, ws: seq<Word>, a: State)
    requires Reading(a, ExprWords(l, [op] + ([r] + ws)))
    requires !(Kind(op) in {AddOp, SubOp, MultOp, DivOp}) && !IsComparisonOp(Kind(r))
    ensures Reading(Parser.Comparison(a), ws) && Quiet(a, Parser.Comparison(a))
  {
    ExprAccepts(l, [op] + ([r] + ws), a);
    var b := Parser.Expression(a);
    Advance(b, op, [r] + ws);
    Advance(GetLexeme(b), r, ws);
  }

  /** SyntacticAnalysis reads exactly the words of a statement. */
  lemma {:induction false} StmtAccepts(s: Stmt, ws: seq<Word>, a: State)
    requires Reading(a, StmtWords(s, ws)) && StmtFollow(ws)
    ensures Reading(Parser.SyntacticAnalysis(a), ws) && Quiet(a, Parser.SyntacticAnalysis(a))
    decreases s, 1
  {
    match s
    case Assign(x, e) =>
      AssignAccepts(x, e, ws, a);
    case ReadStmt(x) =>
      ReadWriteAccepts(KeyRead, x, ws, a);
    case WriteStmt(x) =>
      ReadWriteAccepts(KeyWrite, x, ws, a);
    case Loop(l, rel, r, body) =>
      LoopAccepts(l, rel, r, body, ws, a);
  }

  lemma {:induction false} AssignAccepts(x: Name, e: Expr, ws: seq<Word>, a: State)
    requires Reading(a, StmtWords(Assign(x, e), ws)) && StmtFollow(ws)
    ensures Reading(Parser.SyntacticAnalysis(a), ws) && Quiet(a, Parser.SyntacticAnalysis(a))
  {
    Advance(a, NameWord(x), [Sym(AssignOp)] + ExprWords(e, ws));
    var b := GetLexeme(a);
    Advance(b, Sym(AssignOp), ExprWords(e, ws));
    ExprAccepts(e, ws, GetLexeme(b));
    AssignShape(a);
  }

  /** An assignment whose expression is not followed by `)` is the expression. */
  lemma {:induction false} AssignShape(a: State)
    requires Wf(a) && a.token == Ident && GetLexeme(a).token == AssignOp
    requires Parser.Expression(GetLexeme(GetLexeme(a))).token != RightParen
    ensures Parser.SyntacticAnalysis(a) == Parser.Expression(GetLexeme(GetLexeme(a)))
  {
    assert Parser.SyntacticAnalysis(a) == Parser.Assignment(a);
  }

  /** `read ( IDENT )` and `write ( IDENT )`. */
  lemma {:induction false} ReadWriteAccepts(kw: FixedToken, x: Name, ws: seq<Word>, a: State)
    requires kw == KeyRead || kw == KeyWrite
    requires Reading(a, [Sym(kw)] + ArgumentWords(x, ws))
    ensures Reading(Parser.SyntacticAnalysis(a), ws) && Quiet(a, Parser.SyntacticAnalysis(a))
  {
    Advance(a, Sym(kw), ArgumentWords(x, ws));
    var b := GetLexeme(a);
    Advance(b, Sym(LeftParen), [NameWord(x)] + ([Sym(RightParen)] + ws));
    var c := GetLexeme(b);
    Advance(c, NameWord(x), [Sym(RightParen)] + ws);
    Advance(GetLexeme(c), Sym(RightParen), ws);
    ReadWriteShape(a);
  }

  /** `read` or `write`, `(`, an identifier and `)`: the statement is those four
      tokens. */
  lemma {:induction false} ReadWriteShape(a: State)
    requires Wf(a) && (a.token == KeyRead || a.token == KeyWrite)
    requires GetLexeme(a).token == LeftParen && GetLexeme(GetLexeme(a)).token == Ident
    requires GetLexeme(GetLexeme(GetLexeme(a))).token == RightParen
    ensures Parser.SyntacticAnalysis(a) == GetLexeme(GetLexeme(GetLexeme(GetLexeme(a))))
  {
    assert Parser.SyntacticAnalysis(a) == Parser.ReadWriteStatement(GetLexeme(a));
  }

  /** A while statement whose heading Comparison ends on `do`: the body is parsed by
      WhileInterior from the word after `do`. */
  lemma {:induction false} WhileShape(a: State)
    requires Wf(a) && a.token == KeyWhile
    requires Parser.Comparison(GetLexeme(a)).token == KeyDo
    ensures Parser.SyntacticAnalysis(a) ==
      Parser.InteriorLoop(Parser.SyntacticAnalysis(GetLexeme(Parser.Comparison(GetLexeme(a)))))
  {
    var b := GetLexeme(a);
    assert Parser.SyntacticAnalysis(a) == Parser.WhileStatement(b);
    assert Parser.WhileStatement(b) == Parser.WhileInterior(Parser.Comparison(b));
  }

  /** A heading and `do`: Comparison stops on the `do`, and the parser then reads the
      words of the body. */
  lemma {:induction false} HeadingThenDo(l: Expr, rel: Relation, r: Operand, inner: seq<Word>, b: State)
    requires Reading(b, ExprWords(l, [Sym(rel)] + ([OperandWord(r)] + ([Sym(KeyDo)] + inner))))
    ensures var d := Parser.Comparison(b);
      d.token == KeyDo && Reading(GetLexeme(d), inner) && Quiet(b, GetLexeme(d))
  {
    var rest := [Sym(KeyDo)] + inner;
    HeadingAccepts(l, Sym(rel), OperandWord(r), rest, b);
    Advance(Parser.Comparison(b), Sym(KeyDo), inner);
  }

  /** `while`, a heading and `do`. */
  lemma {:induction false} LoopHeading(l: Expr, rel: Relation, r: Operand, inner: seq<Word>, a: State)
    requires Reading(a, [Sym(KeyWhile)] + ExprWords(l, [Sym(rel)] + ([OperandWord(r)] + ([Sym(KeyDo)] + inner))))
    ensures Wf(a) && a.token == KeyWhile
    ensures var d := Parser.Comparison(GetLexeme(a));
      d.token == KeyDo && Reading(GetLexeme(d), inner) && Quiet(a, GetLexeme(d))
  {
    assert ([Sym(KeyWhile)] + ExprWords(l, [Sym(rel)] + ([OperandWord(r)] + ([Sym(KeyDo)] + inner))))[0] == Sym(KeyWhile);
    Advance(a, Sym(KeyWhile), ExprWords(l, [Sym(rel)] + ([OperandWord(r)] + ([Sym(KeyDo)] + inner))));
    HeadingThenDo(l, rel, r, inner, GetLexeme(a));
  }

  lemma {:induction false} LoopAccepts(l: Expr, rel: Relation, r: Operand, body: Block, ws: seq<Word>, a: State)
    requires Reading(a, StmtWords(Loop(l, rel, r, body), ws))
    ensures Reading(Parser.SyntacticAnalysis(a), ws) && Quiet(a, Parser.SyntacticAnalysis(a))
    decreases Loop(l, rel, r, body), 0
  {
    var close := [Sym(KeyOd)] + ws;
    OdFollows(ws);
    LoopHeading(l, rel, r, BlockWords(body, close), a);
    WhileShape(a);
    var e := GetLexeme(Parser.Comparison(GetLexeme(a)));
    InteriorBlock(body, close, e);
    InteriorEnd(ReadingState(e, close), ws);
  }

  /** `od` cannot extend an expression, so a statement may end before it. */
  lemma {:induction false} OdFollows(ws: seq<Word>)
    ensures StmtFollow([Sym(KeyOd)] + ws)
  {
    assert ([Sym(KeyOd)] + ws)[0] == Sym(KeyOd);
  }

  /** After a statement, a `;` with more words after it: the loop of WhileInterior
      goes on with the statement that starts at the next word. */
  lemma {:induction false} InteriorStep(b: State, rest: seq<Word>)
    requires Reading(b, [Sym(Semicolon)] + rest) && rest != []
    ensures var c := GetLexeme(b);
      Reading(c, rest) && Quiet(b, c) &&
      Parser.InteriorLoop(b) == Parser.InteriorLoop(Parser.SyntacticAnalysis(c))
  {
    Advance(b, Sym(Semicolon), rest);
    MoreAhead(b, Sym(Semicolon), rest);
    InteriorShape(b);
  }

  /** A `;` before the end of input: the loop of WhileInterior goes on with the
      statement after it. */
  lemma {:induction false} InteriorShape(b: State)
    requires Wf(b) && b.token == Semicolon && NextChar(b) != Eof
    ensures Parser.InteriorLoop(b) == Parser.InteriorLoop(Parser.SyntacticAnalysis(GetLexeme(b)))
  {
  }

  /** After a statement, a `;` with more words after it: the top-level loop goes on
      with the statement that starts at the next word. */
  lemma {:induction false} TopStep(b: State, rest: seq<Word>)
    requires Reading(b, [Sym(Semicolon)] + rest) && rest != []
    ensures var c := GetLexeme(b);
      Reading(c, rest) && Quiet(b, c) &&
      Parser.StatementLoop(b) == Parser.StatementLoop(Parser.SyntacticAnalysis(c))
  {
    Advance(b, Sym(Semicolon), rest);
    MoreAhead(b, Sym(Semicolon), rest);
    TopShape(b);
  }

  /** A `;` before the end of input: the top-level loop goes on with the statement
      after it. */
  lemma {:induction false} TopShape(b: State)
    requires Wf(b) && b.token == Semicolon && NextChar(b) != Eof
    ensures Parser.StatementLoop(b) == Parser.StatementLoop(Parser.SyntacticAnalysis(GetLexeme(b)))
  {
  }

  /** The loop of WhileInterior after the statements of a block: it is where it would
      be had it started on the words after the block. */
  lemma {:induction false} InteriorBlock(blk: Block, ws: seq<Word>, a: State)
    requires Reading(a, BlockWords(blk, ws)) && StmtFollow(ws)
    ensures Reading(ReadingState(a, ws), ws)
    ensures Parser.InteriorLoop(Parser.SyntacticAnalysis(a)) == Parser.InteriorLoop(ReadingState(a, ws))
    decreases blk, 2
  {
    match blk
    case Last(s) =>
      StmtAccepts(s, ws, a);
      ReadingIsState(a, Parser.SyntacticAnalysis(a), ws);
    case Then(s, rest) =>
      InteriorThen(s, rest, ws, a);
  }

  lemma {:induction false} InteriorThen(s: Stmt, rest: Block, ws: seq<Word>, a: State)
    requires Reading(a, BlockWords(Then(s, rest), ws)) && StmtFollow(ws)
    ensures Reading(ReadingState(a, ws), ws)
    ensures Parser.InteriorLoop(Parser.SyntacticAnalysis(a)) == Parser.InteriorLoop(ReadingState(a, ws))
    decreases Then(s, rest), 1
  {
    var more := BlockWords(rest, ws);
    StmtAccepts(s, [Sym(Semicolon)] + more, a);
    var b := Parser.SyntacticAnalysis(a);
    InteriorStep(b, more);
    var c := GetLexeme(b);
    InteriorBlock(rest, ws, c);
    assert ReadingState(c, ws) == ReadingState(a, ws);
  }

  /** The loop of WhileInterior ends on `od` by reading the word after it. */
  lemma {:induction false} InteriorEnd(s: State, ws: seq<Word>)
    requires Reading(s, [Sym(KeyOd)] + ws)
    ensures Reading(Parser.InteriorLoop(s), ws) && Quiet(s, Parser.InteriorLoop(s))
  {
    Advance(s, Sym(KeyOd), ws);
  }

  /** The top-level loop after the statements of a block: it is where it would be had
      it started on the words after the block. */
  lemma {:induction false} TopBlock(blk: Block, ws: seq<Word>, a: State)
    requires Reading(a, BlockWords(blk, ws)) && StmtFollow(ws)
    ensures Reading(ReadingState(a, ws), ws)
    ensures Parser.StatementLoop(Parser.SyntacticAnalysis(a)) == Parser.StatementLoop(ReadingState(a, ws))
    decreases blk, 1
  {
    match blk
    case Last(s) =>
      StmtAccepts(s, ws, a);
      ReadingIsState(a, Parser.SyntacticAnalysis(a), ws);
    case Then(s, rest) =>
      TopThen(s, rest, ws, a);
  }

  lemma {:induction false} TopThen(s: Stmt, rest: Block, ws: seq<Word>, a: State)
    requires Reading(a, BlockWords(Then(s, rest), ws)) && StmtFollow(ws)
    ensures Reading(ReadingState(a, ws), ws)
    ensures Parser.StatementLoop(Parser.SyntacticAnalysis(a)) == Parser.StatementLoop(ReadingState(a, ws))
    decreases Then(s, rest), 0
  {
    var more := BlockWords(rest, ws);
    StmtAccepts(s, [Sym(Semicolon)] + more, a);
    var b := Parser.SyntacticAnalysis(a);
    TopStep(b, more);
    var c := GetLexeme(b);
    TopBlock(rest, ws, c);
    assert ReadingState(c, ws) == ReadingState(a, ws);
  }

  /** The analysis of a text starts by reading its first word. */
  lemma {:induction false} AnalyzeStart(ws: seq<Word>)
    ensures var a := GetLexeme(GetChar(Initial(Spaced(ws))));
      Reading(a, ws) && a.errors == [] && a.line == 1 && a.input == Spaced(ws)
    ensures Parser.Analyze(Spaced(ws)) ==
      Parser.StatementLoop(Parser.SyntacticAnalysis(GetLexeme(GetChar(Initial(Spaced(ws))))))
  {
    var g := GetChar(Initial(Spaced(ws)));
    assert g.pos == 0 && g.input[g.pos..] == Spaced(ws);
    LexNext(g, ws);
  }

  /** After the optional final `;` nothing is left, and the top-level loop stops. */
  lemma {:induction false} FinalStops(p: Program, b: State)
    requires Reading(b, FinalWords(p))
    ensures Wf(b) && Parser.StatementLoop(b) == b
  {
    assert b.pos == |b.input| by {
      if FinalWords(p) != [] {
        assert b.input[b.pos..] == Spaced([]);
      }
    }
    assert NextChar(b) == Eof;
  }

  /** The statements of a program, read from their first word, end with nothing
      recorded beyond what was there. */
  lemma {:induction false} ProgramRuns(p: Program, a: State)
    requires Reading(a, ProgramWords(p))
    ensures Parser.StatementLoop(Parser.SyntacticAnalysis(a)).errors == a.errors
  {
    StmtFollowNone(p);
    TopBlock(p.body, FinalWords(p), a);
    var b := ReadingState(a, FinalWords(p));
    FinalStops(p, b);
  }

  /** The optional final `;` may follow a statement. */
  lemma {:induction false} StmtFollowNone(p: Program)
    ensures StmtFollow(FinalWords(p))
  {
  }

  /** Every program of the grammar is accepted: nothing is recorded and the exit status
      is 0. */
  lemma {:induction false} ProgramAccepts(p: Program)
    ensures Parser.Analyze(Spaced(ProgramWords(p))).errors == []
    ensures Parser.ExitCode(Spaced(ProgramWords(p))) == 0
  {
    var ws := ProgramWords(p);
    AnalyzeStart(ws);
    ProgramRuns(p, GetLexeme(GetChar(Initial(Spaced(ws)))));
  }
}
