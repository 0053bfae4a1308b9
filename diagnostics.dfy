// The diagnostics collector: (line, message) records, at most one per line, kept in
// the order they were first raised.

module Diagnostics {

  /** The syntactic errors the analyzer reports. Those whose wording quotes the
      offending lexeme carry it; Text gives the wording. */
  datatype Message =
    | RightParenWithoutOpen
    | LeftParenWithoutClose
    | ErrantSemicolonBeforeOd
    | NoLoopClosure
    | ReadWithoutClose
    | DigitsInIdentifier
    | ErrantToken(lexeme: string)
    | MissingSemicolon(lexeme: string)
    | InvalidAfterIdent(lexeme: string)
    | ImproperHeading(lexeme: string)
    | InvalidReadInterior(lexeme: string)
    | InvalidAfterRead(lexeme: string)
    | ExpectedExpression(lexeme: string)

  /** The text printed for a message. */
  function Text(m: Message): string {
    match m
    case RightParenWithoutOpen => "Right parenthesis ')' missing opening '('"
    case LeftParenWithoutClose => "Left parenthesis '(' missing closure ')'."
    case ErrantSemicolonBeforeOd => "Errant semicolon preceeding od."
    case NoLoopClosure => "No closure to while loop."
    case ReadWithoutClose => "Invalid closure to read statement, did you mean to write ')'?"
    case DigitsInIdentifier => "Digits are not allowed in an identifier."
    case ErrantToken(x) => "Errant unknown token: " + x
    case MissingSemicolon(x) => "Missing end of line ';' before " + x
    case InvalidAfterIdent(x) => "Invalid argument '" + x + "' following IDENT"
    case ImproperHeading(x) =>
      "Improper heading to while statement, did you mean to write 'do' after '" + x + "'?"
    case InvalidReadInterior(x) => x + " is an invalid interior of read statement."
    case InvalidAfterRead(x) => x + " is an invalid character following read statement."
    case ExpectedExpression(x) => "Expected expression following operator. Instead saw: " + x
  }

  datatype Diagnostic = Diagnostic(line: int, message: Message)

  /** Some record is already on line `l` (scanning from the newest record back). */
  predicate HasLine(errs: seq<Diagnostic>, l: int) {
    |errs| > 0 && (errs[|errs| - 1].line == l || HasLine(errs[..|errs| - 1], l))
  }

  /** No record shares its line with an earlier one. */
  predicate UniqueLines(errs: seq<Diagnostic>) {
    |errs| == 0 ||
    (UniqueLines(errs[..|errs| - 1]) && !HasLine(errs[..|errs| - 1], errs[|errs| - 1].line))
  }

  /** HasLine is the scan for a record on line `l`. */
  lemma {:induction false} HasLineIsSearch(errs: seq<Diagnostic>, l: int)
    ensures HasLine(errs, l) <==> exists i :: 0 <= i < |errs| && errs[i].line == l
  {
    if |errs| > 0 {
      var init := errs[..|errs| - 1];
      HasLineIsSearch(init, l);
      if exists i :: 0 <= i < |errs| && errs[i].line == l {
        var i :| 0 <= i < |errs| && errs[i].line == l;
        if i < |init| { assert init[i] == errs[i]; }
      }
      if HasLine(init, l) {
        var i :| 0 <= i < |init| && init[i].line == l;
        assert errs[i] == init[i];
      }
    }
  }

  /** UniqueLines says no two records share a line. */
  lemma {:induction false} UniqueLinesIsPairwise(errs: seq<Diagnostic>)
    ensures UniqueLines(errs) <==> forall i, j :: 0 <= i < j < |errs| ==> errs[i].line != errs[j].line
  {
    if |errs| > 0 {
      var init := errs[..|errs| - 1];
      var last := errs[|errs| - 1];
      UniqueLinesIsPairwise(init);
      HasLineIsSearch(init, last.line);
      if forall i, j :: 0 <= i < j < |errs| ==> errs[i].line != errs[j].line {
        forall i, j | 0 <= i < j < |init| ensures init[i].line != init[j].line {
          assert init[i] == errs[i] && init[j] == errs[j];
        }
        forall i | 0 <= i < |init| ensures init[i].line != last.line {
          assert init[i] == errs[i];
        }
      }
      if UniqueLines(errs) {
        forall i, j | 0 <= i < j < |errs| ensures errs[i].line != errs[j].line {
          if j < |init| {
            assert init[i] == errs[i] && init[j] == errs[j];
          } else {
            assert init[i] == errs[i];
          }
        }
      }
    }
  }

  /** The record list after a syntactic error on line `l`: the first error on a line
      wins, later ones on the same line are dropped. */
  function Record(errs: seq<Diagnostic>, l: int, msg: Message): (r: seq<Diagnostic>)
    ensures HasLine(r, l)
    ensures errs <= r && |r| <= |errs| + 1
    ensures r == errs <==> HasLine(errs, l)
    ensures r != errs ==> r[|errs|] == Diagnostic(l, msg)
  {
    if HasLine(errs, l) then errs
    else
      var r := errs + [Diagnostic(l, msg)];
      assert r[..|errs|] == errs;
      r
  }

  /** Recording never puts two records on one line. */
  lemma {:induction false} RecordKeepsLinesUnique(errs: seq<Diagnostic>, l: int, msg: Message)
    ensures UniqueLines(errs) ==> UniqueLines(Record(errs, l, msg))
  {
    var r := Record(errs, l, msg);
    if r != errs {
      assert r[..|errs|] == errs;
    }
  }
}
