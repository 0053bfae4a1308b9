// The analysis state shared by the lexer and the parser, and the lexer procedures as
// pure functions from the state before a call to the state after it. The class in
// machine.dfy runs the same procedures imperatively and is proved to agree with these.

module Lexer {
  import opened Tokens
  import opened Diagnostics

  /** A character read from the stream, or the end-of-input value. */
  datatype Ch = Eof | Chr(c: char)

  /** The three character classes; `Other` is the class the source calls UNKNOWN. */
  datatype CharClass = Letter | Digit | Other

  predicate IsAlpha(c: char) { 'a' <= c <= 'z' || 'A' <= c <= 'Z' }

  predicate IsDigit(c: char) { '0' <= c <= '9' }

  /** Space, tab, newline, vertical tab, form feed and carriage return. */
  predicate IsSpace(c: char) {
    c == ' ' || c == '\t' || c == '\n' || c == '\U{B}' || c == '\U{C}' || c == '\r'
  }

  /** The class GetChar assigns: end of input is neither a letter nor a digit. */
  function ClassOf(ch: Ch): CharClass {
    match ch
    case Eof => Other
    case Chr(c) => if IsAlpha(c) then Letter else if IsDigit(c) then Digit else Other
  }

  predicate IsBlank(ch: Ch) { ch.Chr? && IsSpace(ch.c) }

  /** The character at index `i` of the input. Index -1 stands for the moment before
      the first read, when `nextChar` still holds its initial value '\0'; indices at or
      past the end read as end of input. */
  function CharAt(input: string, i: int): Ch {
    if i < 0 then Chr('\0') else if i < |input| then Chr(input[i]) else Eof
  }

  /** Every global the lexer and parser share. `pos` is the index of `nextChar` in the
      input (so `charClass` is `ClassOf(NextChar(a))`) and `errors` is `errorMessages`;
      `isValidCode` is not a component, since it is false exactly when `errors` is
      non-empty (Machine.Analyzer.Valid). */
  datatype State = State(
    input: string,
    pos: int,
    lexeme: string,
    token: Token,
    line: int,
    errors: seq<Diagnostic>)

  predicate Wf(a: State) { -1 <= a.pos <= |a.input| }

  /** The state before anything is read: line 1, no diagnostics. */
  function Initial(input: string): (a: State)
    ensures Wf(a) && a.input == input && a.line == 1 && a.errors == []
  {
    State(input, -1, [], Empty, 1, [])
  }

  function NextChar(a: State): Ch { CharAt(a.input, a.pos) }

  /** The character after `nextChar`, without consuming it. */
  function Peek(a: State): Ch { CharAt(a.input, a.pos + 1) }

  /** Twice the unread input plus one for a pending token: every call of GetLexeme that
      returns a token consumes a character, so this bounds how long parsing can go on. */
  function Measure(a: State): nat
    requires Wf(a)
  {
    2 * (|a.input| - a.pos) + (if a.token == Empty then 0 else 1)
  }

  /** What every lexer and parser step keeps: the input, a cursor and a line counter
      that never move back, an append-only record list with at most one record per
      line, and a validity flag that never comes back once cleared. */
  predicate Advances(a: State, r: State) {
    Wf(r) && r.input == a.input && a.pos <= r.pos && a.line <= r.line &&
    a.errors <= r.errors && (UniqueLines(a.errors) ==> UniqueLines(r.errors))
  }

  /** Advances chains: two steps in a row advance like one. */
  lemma {:induction false} AdvancesTrans(a: State, b: State, c: State)
    requires Advances(a, b) && Advances(b, c)
    ensures Advances(a, c)
  {
  }

  /** GetChar: read the next character; at end of input the stream keeps returning
      end of input. */
  function GetChar(a: State): (r: State)
    requires Wf(a)
    ensures Wf(r) && r == a.(pos := r.pos)
    ensures NextChar(r) == Peek(a) || (NextChar(a) == Eof && r == a)
  {
    a.(pos := if a.pos < |a.input| then a.pos + 1 else a.pos)
  }

  /** AddChar: append `nextChar` to the lexeme unless it is white space. */
  function AddChar(a: State): (r: State)
    requires NextChar(a).Chr?
    ensures r == a.(lexeme := r.lexeme)
    ensures r.lexeme == if IsSpace(NextChar(a).c) then a.lexeme else a.lexeme + [NextChar(a).c]
  {
    var c := NextChar(a).c;
    if IsSpace(c) then a else a.(lexeme := a.lexeme + [c])
  }

  /** Error with code 1: clear the validity flag and record the message on the current
      line unless that line already has a record. */
  function Error(a: State, msg: Message): (r: State)
    requires Wf(a)
    ensures Advances(a, r) && HasLine(r.errors, a.line)
    ensures r == a.(errors := r.errors)
    ensures r.errors == if HasLine(a.errors, a.line) then a.errors
                        else a.errors + [Diagnostic(a.line, msg)]
  {
    RecordKeepsLinesUnique(a.errors, a.line, msg);
    a.(errors := Record(a.errors, a.line, msg))
  }

  /** The `line--; Error(1, msg); line++;` bracket: report on the previous line. */
  function ErrorAbove(a: State, msg: Message): (r: State)
    requires Wf(a)
    ensures Advances(a, r) && HasLine(r.errors, a.line - 1)
    ensures r == a.(errors := r.errors)
    ensures r.errors == if HasLine(a.errors, a.line - 1) then a.errors
                        else a.errors + [Diagnostic(a.line - 1, msg)]
  {
    var b := Error(a.(line := a.line - 1), msg);
    b.(line := a.line)
  }

  /** The number of newline characters at indices i .. j-1. */
  function Newlines(input: string, i: int, j: int): nat
    decreases j - i
  {
    if i >= j then 0 else (if CharAt(input, i) == Chr('\n') then 1 else 0) + Newlines(input, i + 1, j)
  }

  /** GetNonBlank: skip white space, counting the newlines skipped. */
  function GetNonBlank(a: State): (r: State)
    requires Wf(a)
    decreases |a.input| - a.pos
    ensures Wf(r) && a.pos <= r.pos && r == a.(pos := r.pos, line := r.line)
    ensures !IsBlank(NextChar(r))
    ensures a.line <= r.line
  {
    if IsBlank(NextChar(a)) then
      var b := if NextChar(a) == Chr('\n') then a.(line := a.line + 1) else a;
      GetNonBlank(GetChar(b))
    else a
  }

  /** The scanning loop of GetNewLine, with an end-of-input test added: stop on a
      newline or at end of input. */
  function SeekNewline(a: State): (r: State)
    requires Wf(a)
    decreases |a.input| - a.pos
    ensures Wf(r) && a.pos <= r.pos && r == a.(pos := r.pos)
    ensures NextChar(r) == Chr('\n') || NextChar(r) == Eof
  {
    if NextChar(a) == Chr('\n') || NextChar(a) == Eof then a else SeekNewline(GetChar(a))
  }

  /** GetNewLine: skip the rest of the line, leaving `nextChar` on the newline, and
      count one line. The end-of-input stop is not in the source, whose loop never ends
      when no newline is ahead (see the lemma AsWrittenGetNewLineNeverExits). */
  function GetNewLine(a: State): (r: State)
    requires Wf(a)
    ensures Advances(a, r) && r == a.(pos := r.pos, line := a.line + 1)
    ensures NextChar(r) == Chr('\n') || NextChar(r) == Eof
  {
    var b := SeekNewline(a);
    b.(line := b.line + 1)
  }

  /** Some newline lies at or after `nextChar`. */
  predicate NewlineAhead(a: State) {
    exists i :: a.pos <= i < |a.input| && 0 <= i && a.input[i] == '\n'
  }

  /** GetLexeme: clear the lexeme and the token, skip blanks, then read one token by
      the class of the first character. */
  function GetLexeme(a: State): (r: State)
    requires Wf(a)
    decreases |a.input| - a.pos, 2
    ensures Advances(a, r)
    ensures r.token == Empty ==> r.pos == |r.input| && r.lexeme == []
    ensures r.token != Empty ==> a.pos < r.pos
    ensures Measure(r) <= Measure(a) && (a.token != Empty ==> Measure(r) < Measure(a))
  {
    ReadToken(GetNonBlank(a.(lexeme := [], token := Empty)))
  }

  /** The switch of GetLexeme on the class of the first non-blank character. */
  function ReadToken(b: State): (r: State)
    requires Wf(b) && b.lexeme == [] && b.token == Empty
    decreases |b.input| - b.pos, 1
    ensures Advances(b, r)
    ensures r.token == Empty ==> r.pos == |r.input| && r.lexeme == []
    ensures r.token != Empty ==> b.pos < r.pos
  {
    match ClassOf(NextChar(b))
    case Letter =>
      var c := LetterLoop(b);
      c.(token := LookupOr(c.lexeme, Ident))
    case Digit =>
      DigitLoop(b).(token := IntLit)
    case Other =>
      OtherLoop(b)
  }

  /** The LETTER case loop: add letters; a digit right after a letter is an error, after
      which the whole of GetLexeme runs again from that digit. */
  function LetterLoop(b: State): (r: State)
    requires Wf(b)
    decreases |b.input| - b.pos, 0
    ensures Advances(b, r) && ClassOf(NextChar(r)) != Letter
    ensures ClassOf(NextChar(b)) == Letter ==> b.pos < r.pos
    ensures ClassOf(NextChar(b)) != Letter ==> r == b
  {
    if ClassOf(NextChar(b)) != Letter then b
    else
      var c := GetChar(AddChar(b));
      var d := if ClassOf(NextChar(c)) == Digit then GetLexeme(Error(c, DigitsInIdentifier)) else c;
      LetterLoop(d)
  }

  /** The DIGIT case loop: add digits. */
  function DigitLoop(b: State): (r: State)
    requires Wf(b)
    decreases |b.input| - b.pos
    ensures Wf(r) && b.pos <= r.pos && r == b.(pos := r.pos, lexeme := r.lexeme)
    ensures ClassOf(NextChar(r)) != Digit
    ensures ClassOf(NextChar(b)) == Digit ==> b.pos < r.pos
  {
    if ClassOf(NextChar(b)) != Digit then b else DigitLoop(GetChar(AddChar(b)))
  }

  /** The states the UNKNOWN case loop starts an iteration in: an empty lexeme, or a
      first character kept by a `continue` with `nextChar` on what may extend it. */
  predicate OtherReady(b: State) {
    b.lexeme == [] ||
    (b.lexeme == ":" && (NextChar(b) == Chr(':') || NextChar(b) == Chr('='))) ||
    ((b.lexeme == "<" || b.lexeme == ">") && (NextChar(b) == Chr('>') || NextChar(b) == Chr('=')))
  }

  /** The loop condition of the UNKNOWN case. */
  predicate OtherGuard(b: State) {
    ClassOf(NextChar(b)) == Other && NextChar(b) != Eof
  }

  /** One pass of the UNKNOWN case loop: add a character and probe the table. A `:`
      waits for a following `=`; `<` and `>` take a following `>` or `=`; anything else
      ends the token (`done`), as the table's kind or as UNKNOWN, after consuming it.
      A pass that starts with a character already kept always ends the token. */
  function OtherStep(b: State): (r: (bool, State))
    requires Wf(b) && OtherReady(b) && OtherGuard(b)
    ensures Wf(r.1) && r.1 == b.(pos := r.1.pos, lexeme := r.1.lexeme, token := r.1.token)
    ensures r.0 ==> r.1.token != Empty && b.pos < r.1.pos
    ensures !r.0 ==> b.lexeme == [] && r.1.lexeme != [] && OtherReady(r.1) && OtherGuard(r.1)
  {
    var c := AddChar(b);
    if c.lexeme == ":" then
      assert |b.lexeme| == 0 && c.lexeme == [NextChar(b).c];
      assert NextChar(b) == Chr(':');
      (false, if Peek(c) == Chr('=') then GetChar(c) else c)
    else
      match Lookup(c.lexeme)
      case Some(t) =>
        var d := c.(token := t);
        var more := (d.lexeme == "<" || d.lexeme == ">") && (Peek(d) == Chr('>') || Peek(d) == Chr('='));
        (!more, GetChar(d))
      case None =>
        (true, GetChar(c.(token := Unknown)))
  }

  /** The UNKNOWN case loop, which makes at most two passes: a pass that does not end
      the token leaves one character kept, and the pass after it always ends it. */
  function OtherLoop(b: State): (r: State)
    requires Wf(b) && OtherReady(b)
    ensures Wf(r) && b.pos <= r.pos && r == b.(pos := r.pos, lexeme := r.lexeme, token := r.token)
    ensures OtherGuard(b) ==> r.token != Empty && b.pos < r.pos
    ensures !OtherGuard(b) ==> r == b
  {
    if !OtherGuard(b) then b
    else
      var (done, c) := OtherStep(b);
      if done then c else OtherStep(c).1
  }
}
