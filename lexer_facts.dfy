// What the lexer reads, stated against the input text rather than against its loops:
// the blanks GetNonBlank skips, a maximal run of letters or digits, the operator table
// of the UNKNOWN case, the end of input, and the digit-in-identifier recovery. Also the
// two facts behind the GetNewLine finding.

module LexerFacts {
  import opened Tokens
  import opened Diagnostics
  import opened Lexer

  /** GetNonBlank skips only blanks, and counts every newline among them. */
  lemma {:induction false} GetNonBlankSkipsBlanks(a: State)
    requires Wf(a)
    ensures var r := GetNonBlank(a);
      (forall i :: a.pos <= i < r.pos ==> IsBlank(CharAt(a.input, i))) &&
      r.line == a.line + Newlines(a.input, a.pos, r.pos)
    decreases |a.input| - a.pos
  {
    if IsBlank(NextChar(a)) {
      var b := if NextChar(a) == Chr('\n') then a.(line := a.line + 1) else a;
      GetNonBlankSkipsBlanks(GetChar(b));
    }
  }

  /** The scan of GetNewLine passes no newline. */
  lemma {:induction false} SeekNewlineSkipsLine(a: State)
    requires Wf(a)
    ensures var r := SeekNewline(a);
      forall i :: a.pos <= i < r.pos ==> CharAt(a.input, i) != Chr('\n')
    decreases |a.input| - a.pos
  {
    if NextChar(a) != Chr('\n') && NextChar(a) != Eof {
      SeekNewlineSkipsLine(GetChar(a));
    }
  }

  /** GetLexeme on a non-blank character is the switch of ReadToken. */
  lemma {:induction false} GetLexemeOnNonBlank(a: State)
    requires Wf(a) && !IsBlank(NextChar(a))
    ensures GetLexeme(a) == ReadToken(a.(lexeme := [], token := Empty))
  {
    var b := a.(lexeme := [], token := Empty);
    assert GetNonBlank(b) == b;
  }

  /** GetLexeme starting on a letter is the LETTER loop and the table lookup. */
  lemma {:induction false} GetLexemeOnLetter(a: State)
    requires Wf(a) && ClassOf(NextChar(a)) == Letter
    ensures var c := LetterLoop(a.(lexeme := [], token := Empty));
      GetLexeme(a) == c.(token := LookupOr(c.lexeme, Ident))
  {
    GetLexemeOnNonBlank(a);
    assert ReadToken(a.(lexeme := [], token := Empty)).token != Empty;
  }

  /** GetLexeme starting on a digit is the DIGIT loop. */
  lemma {:induction false} GetLexemeOnDigit(a: State)
    requires Wf(a) && ClassOf(NextChar(a)) == Digit
    ensures GetLexeme(a) == DigitLoop(a.(lexeme := [], token := Empty)).(token := IntLit)
  {
    GetLexemeOnNonBlank(a);
    assert ReadToken(a.(lexeme := [], token := Empty)).token != Empty;
  }

  /** GetLexeme starting on any other non-blank character is the UNKNOWN loop. */
  lemma {:induction false} GetLexemeOnOther(a: State)
    requires Wf(a) && ClassOf(NextChar(a)) == Other && !IsBlank(NextChar(a))
    ensures GetLexeme(a) == OtherLoop(a.(lexeme := [], token := Empty))
  {
    GetLexemeOnNonBlank(a);
    assert ReadToken(a.(lexeme := [], token := Empty)).input == a.input;
  }

  /** A blank that is not a newline in front of a token changes nothing: GetLexeme
      reads the same token from the character after it. */
  lemma {:induction false} GetLexemeSkipsSpace(a: State)
    requires Wf(a) && NextChar(a) == Chr(' ')
    ensures GetLexeme(a) == GetLexeme(GetChar(a))
  {
    var b := a.(lexeme := [], token := Empty);
    assert GetNonBlank(b) == GetNonBlank(GetChar(b));
    assert GetChar(b) == GetChar(a).(lexeme := [], token := Empty);
  }

  /** The DIGIT loop reads the maximal run of digits starting at `nextChar`. */
  lemma {:induction false} DigitLoopRun(b: State, j: int)
    requires 0 <= b.pos <= j <= |b.input|
    requires forall i :: b.pos <= i < j ==> IsDigit(b.input[i])
    requires ClassOf(CharAt(b.input, j)) != Digit
    ensures DigitLoop(b) == b.(pos := j, lexeme := b.lexeme + b.input[b.pos..j])
    decreases j - b.pos
  {
    if b.pos == j {
      assert b.input[b.pos..j] == [];
      assert b.lexeme + [] == b.lexeme;
    } else {
      var c := b.(pos := b.pos + 1, lexeme := b.lexeme + [b.input[b.pos]]);
      DigitStep(b);
      DigitLoopRun(c, j);
      SliceStep(b.input, b.lexeme, b.pos, j);
    }
  }

  /** One pass of the DIGIT loop moves one digit from the input to the lexeme. */
  lemma {:induction false} DigitStep(b: State)
    requires 0 <= b.pos < |b.input| && IsDigit(b.input[b.pos])
    ensures DigitLoop(b) == DigitLoop(b.(pos := b.pos + 1, lexeme := b.lexeme + [b.input[b.pos]]))
  {
    assert GetChar(AddChar(b)) == b.(pos := b.pos + 1, lexeme := b.lexeme + [b.input[b.pos]]);
  }

  /** Moving the first character of a slice onto the end of what was read before. */
  lemma {:induction false} SliceStep(input: string, read: string, p: int, j: int)
    requires 0 <= p < j <= |input|
    ensures (read + [input[p]]) + input[p + 1..j] == read + input[p..j]
  {
    assert input[p..j] == [input[p]] + input[p + 1..j];
  }

  /** The LETTER loop reads the maximal run of letters starting at `nextChar` when the
      run is not followed by a digit. */
  lemma {:induction false} LetterLoopRun(b: State, j: int)
    requires 0 <= b.pos <= j <= |b.input|
    requires forall i :: b.pos <= i < j ==> IsAlpha(b.input[i])
    requires ClassOf(CharAt(b.input, j)) == Other
    ensures LetterLoop(b) == b.(pos := j, lexeme := b.lexeme + b.input[b.pos..j])
    decreases j - b.pos
  {
    if b.pos == j {
      assert b.input[b.pos..j] == [];
      assert b.lexeme + [] == b.lexeme;
    } else {
      var c := b.(pos := b.pos + 1, lexeme := b.lexeme + [b.input[b.pos]]);
      assert ClassOf(NextChar(c)) != Digit;
      LetterStep(b);
      LetterLoopRun(c, j);
      SliceStep(b.input, b.lexeme, b.pos, j);
    }
  }

  /** One pass of the LETTER loop moves one letter from the input to the lexeme when no
      digit follows it. */
  lemma {:induction false} LetterStep(b: State)
    requires 0 <= b.pos < |b.input| && IsAlpha(b.input[b.pos])
    requires ClassOf(CharAt(b.input, b.pos + 1)) != Digit
    ensures LetterLoop(b) == LetterLoop(b.(pos := b.pos + 1, lexeme := b.lexeme + [b.input[b.pos]]))
  {
    assert GetChar(AddChar(b)) == b.(pos := b.pos + 1, lexeme := b.lexeme + [b.input[b.pos]]);
  }

  /** A word of letters not followed by a digit is one token: a keyword when the table
      holds it, an identifier otherwise. */
  lemma {:induction false} GetLexemeWord(a: State, j: int)
    requires 0 <= a.pos < j <= |a.input|
    requires forall i :: a.pos <= i < j ==> IsAlpha(a.input[i])
    requires ClassOf(CharAt(a.input, j)) == Other
    ensures GetLexeme(a) ==
      a.(pos := j, lexeme := a.input[a.pos..j], token := LookupOr(a.input[a.pos..j], Ident))
  {
    var b := a.(lexeme := [], token := Empty);
    GetLexemeOnLetter(a);
    LetterLoopRun(b, j);
    assert [] + a.input[a.pos..j] == a.input[a.pos..j];
  }

  /** A run of digits is one integer literal. */
  lemma {:induction false} GetLexemeNumber(a: State, j: int)
    requires 0 <= a.pos < j <= |a.input|
    requires forall i :: a.pos <= i < j ==> IsDigit(a.input[i])
    requires ClassOf(CharAt(a.input, j)) != Digit
    ensures GetLexeme(a) == a.(pos := j, lexeme := a.input[a.pos..j], token := IntLit)
  {
    var b := a.(lexeme := [], token := Empty);
    GetLexemeOnDigit(a);
    DigitLoopRun(b, j);
    assert [] + a.input[a.pos..j] == a.input[a.pos..j];
  }

  /** The LETTER loop meeting a digit: the error is recorded on the current line and the
      digits after it come back as the lexeme. */
  lemma {:induction false} LetterLoopIntoDigits(b: State, j: int, k: int)
    requires 0 <= b.pos < j < k <= |b.input|
    requires forall i :: b.pos <= i < j ==> IsAlpha(b.input[i])
    requires forall i :: j <= i < k ==> IsDigit(b.input[i])
    requires ClassOf(CharAt(b.input, k)) == Other
    ensures LetterLoop(b) == b.(pos := k, lexeme := b.input[j..k], token := IntLit,
      errors := Record(b.errors, b.line, DigitsInIdentifier))
    decreases j - b.pos
  {
    if b.pos + 1 < j {
      var c := GetChar(AddChar(b));
      assert c == b.(pos := b.pos + 1, lexeme := b.lexeme + [b.input[b.pos]]);
      assert ClassOf(NextChar(c)) == Letter;
      LetterLoopIntoDigits(c, j, k);
    } else {
      LetterLoopMeetsDigit(b, k);
    }
  }

  /** The last letter before a digit: the loop records the error and reads the digits
      with the whole of GetLexeme. */
  lemma {:induction false} LetterLoopMeetsDigit(b: State, k: int)
    requires 0 <= b.pos && b.pos + 1 < k <= |b.input|
    requires IsAlpha(b.input[b.pos])
    requires forall i :: b.pos + 1 <= i < k ==> IsDigit(b.input[i])
    requires ClassOf(CharAt(b.input, k)) == Other
    ensures LetterLoop(b) == b.(pos := k, lexeme := b.input[b.pos + 1..k], token := IntLit,
      errors := Record(b.errors, b.line, DigitsInIdentifier))
  {
    var c := GetChar(AddChar(b));
    assert c == b.(pos := b.pos + 1, lexeme := b.lexeme + [b.input[b.pos]]);
    assert ClassOf(NextChar(c)) == Digit;
    var e := Error(c, DigitsInIdentifier);
    GetLexemeNumber(e, k);
    assert ClassOf(NextChar(GetLexeme(e))) == Other;
    assert LetterLoop(b) == LetterLoop(GetLexeme(e));
  }

  /** Letters followed by digits: the digit error on the current line, and then the
      digits are read as the lexeme, with kind IDENT since the LETTER case ends with
      its table lookup. */
  lemma {:induction false} GetLexemeDigitInIdentifier(a: State, j: int, k: int)
    requires 0 <= a.pos < j < k <= |a.input|
    requires forall i :: a.pos <= i < j ==> IsAlpha(a.input[i])
    requires forall i :: j <= i < k ==> IsDigit(a.input[i])
    requires ClassOf(CharAt(a.input, k)) == Other
    ensures GetLexeme(a) == a.(pos := k, lexeme := a.input[j..k], token := Ident,
      errors := Record(a.errors, a.line, DigitsInIdentifier))
  {
    var b := a.(lexeme := [], token := Empty);
    GetLexemeOnLetter(a);
    LetterLoopIntoDigits(b, j, k);
    assert a.input[j..k][0] == a.input[j];
    LookupAlnum(a.input[j..k]);
  }

  /** The tokens of the UNKNOWN case, from its first character `c` and the character
      `p` after it: the lexeme, the kind, and how many characters are consumed. A `:`
      not followed by `=` is added twice, so its lexeme is "::" while one character is
      consumed; `>>` is one two-character UNKNOWN token. */
  function SymbolScan(c: char, p: Ch): (string, Token, nat) {
    if c == ':' then
      if p == Chr('=') then (":=", AssignOp, 2) else ("::", Unknown, 1)
    else if c == '<' && p == Chr('>') then ("<>", NequalOp, 2)
    else if c == '<' && p == Chr('=') then ("<=", LequalOp, 2)
    else if c == '>' && p == Chr('>') then (">>", Unknown, 2)
    else if c == '>' && p == Chr('=') then (">=", GequalOp, 2)
    else ([c], LookupOr([c], Unknown), 1)
  }

  /** A token that starts with a character other than a letter, a digit or a blank is
      read as SymbolScan describes. */
  lemma {:induction false} GetLexemeSymbol(a: State)
    requires 0 <= a.pos < |a.input|
    requires ClassOf(NextChar(a)) == Other && !IsSpace(a.input[a.pos])
    ensures var (w, t, n) := SymbolScan(a.input[a.pos], Peek(a));
      GetLexeme(a) == a.(pos := a.pos + n, lexeme := w, token := t)
  {
    var ch := a.input[a.pos];
    var p := Peek(a);
    if ch == ':' {
      if p == Chr('=') {
        GetLexemeAssign(a);
      } else {
        GetLexemeColon(a);
      }
    } else if ch == '<' && p == Chr('>') {
      GetLexemeNotEqual(a);
    } else if ch == '<' && p == Chr('=') {
      GetLexemeLessEqual(a);
    } else if ch == '>' && p == Chr('>') {
      GetLexemeShift(a);
    } else if ch == '>' && p == Chr('=') {
      GetLexemeGreaterEqual(a);
    } else if Lookup([ch]).Some? {
      GetLexemeKnown(a, Lookup([ch]).value);
    } else {
      GetLexemeStray(a);
    }
  }

  /** A character the table holds on its own, not the start of a two-character
      operator: a one-character token of the table's kind. */
  lemma {:induction false} GetLexemeKnown(a: State, t: Token)
    requires 0 <= a.pos < |a.input|
    requires ClassOf(NextChar(a)) == Other && !IsSpace(a.input[a.pos])
    requires Lookup([a.input[a.pos]]) == Some(t)
    requires !(a.input[a.pos] in {'<', '>'} && (Peek(a) == Chr('>') || Peek(a) == Chr('=')))
    ensures GetLexeme(a) == a.(pos := a.pos + 1, lexeme := [a.input[a.pos]], token := t)
  {
    var b := a.(lexeme := [], token := Empty);
    var ch := b.input[b.pos];
    assert NextChar(b) == Chr(ch);
    assert OtherGuard(b);
    var c := AddChar(b);
    assert c.lexeme == [ch];
    assert c.lexeme != ":";
    var d := c.(token := t);
    assert Peek(d) == Peek(b);
    assert !((d.lexeme == "<" || d.lexeme == ">") && (Peek(d) == Chr('>') || Peek(d) == Chr('=')));
    GetLexemeOnOther(a);
  }

  /** A character the table does not hold: a one-character UNKNOWN token. */
  lemma {:induction false} GetLexemeStray(a: State)
    requires 0 <= a.pos < |a.input|
    requires ClassOf(NextChar(a)) == Other && !IsSpace(a.input[a.pos]) && a.input[a.pos] != ':'
    requires Lookup([a.input[a.pos]]) == None
    ensures GetLexeme(a) == a.(pos := a.pos + 1, lexeme := [a.input[a.pos]], token := Unknown)
  {
    var b := a.(lexeme := [], token := Empty);
    var ch := b.input[b.pos];
    assert NextChar(b) == Chr(ch);
    assert OtherGuard(b);
    var c := AddChar(b);
    assert c.lexeme == [ch];
    assert c.lexeme != ":";
    GetLexemeOnOther(a);
  }

  /** `:=` read by the UNKNOWN loop. */
  lemma {:induction false} GetLexemeAssign(a: State)
    requires 0 <= a.pos < |a.input| - 1
    requires a.input[a.pos] == ':' && a.input[a.pos + 1] == '='
    ensures GetLexeme(a) == a.(pos := a.pos + 2, lexeme := ":=", token := AssignOp)
  {
    var b := a.(lexeme := [], token := Empty);
    AssignFirstPass(b);
    var d := b.(pos := b.pos + 1, lexeme := ":");
    OtherLoopTwoPasses(b);
    AssignSecondPass(d);
    assert d.(pos := d.pos + 1, lexeme := ":=", token := AssignOp) ==
      a.(pos := a.pos + 2, lexeme := ":=", token := AssignOp);
    GetLexemeOnOther(a);
  }

  /** When the first pass of the UNKNOWN loop keeps its character, the token is what
      the second pass makes of it. */
  lemma {:induction false} OtherLoopTwoPasses(b: State)
    requires Wf(b) && OtherReady(b) && OtherGuard(b) && !OtherStep(b).0
    ensures OtherLoop(b) == OtherStep(OtherStep(b).1).1
  {
  }

  /** The first pass over a `:` that `=` follows keeps it and moves onto the `=`. */
  lemma {:induction false} AssignFirstPass(b: State)
    requires 0 <= b.pos < |b.input| - 1 && b.input[b.pos] == ':' && b.input[b.pos + 1] == '='
    requires b.lexeme == [] && b.token == Empty
    ensures OtherReady(b) && OtherGuard(b)
    ensures OtherStep(b) == (false, b.(pos := b.pos + 1, lexeme := ":"))
  {
    var c := AddChar(b);
    assert c.lexeme == ":" && Peek(c) == Chr('=');
  }

  /** The second pass adds the `=` and ends the token as the assignment operator. */
  lemma {:induction false} AssignSecondPass(d: State)
    requires 0 <= d.pos < |d.input| && d.input[d.pos] == '='
    requires d.lexeme == ":" && d.token == Empty
    ensures OtherReady(d) && OtherGuard(d)
    ensures OtherStep(d).1 == d.(pos := d.pos + 1, lexeme := ":=", token := AssignOp)
  {
    var e := AddChar(d);
    assert e.lexeme == ":=";
    AssignInTable();
    assert OtherStep(d).1 == GetChar(e.(token := AssignOp));
  }

  /** `:=` is in the table as the assignment operator. */
  lemma AssignInTable()
    ensures Lookup(":=") == Some(AssignOp)
  {
  }

  /** A `:` not followed by `=`: the loop adds the same `:` a second time. */
  lemma {:induction false} GetLexemeColon(a: State)
    requires 0 <= a.pos < |a.input|
    requires a.input[a.pos] == ':' && Peek(a) != Chr('=')
    ensures GetLexeme(a) == a.(pos := a.pos + 1, lexeme := "::", token := Unknown)
  {
    var b := a.(lexeme := [], token := Empty);
    ColonFirstPass(b);
    ColonSecondPass(b.(lexeme := ":"));
    GetLexemeOnOther(a);
  }

  /** The first pass over a `:` that no `=` follows keeps it and goes round again. */
  lemma {:induction false} ColonFirstPass(b: State)
    requires 0 <= b.pos < |b.input| && b.input[b.pos] == ':' && Peek(b) != Chr('=')
    requires b.lexeme == [] && b.token == Empty
    ensures OtherReady(b) && OtherGuard(b)
    ensures OtherStep(b) == (false, b.(lexeme := ":"))
  {
    var c := AddChar(b);
    assert c.lexeme == ":" && Peek(c) == Peek(b);
  }

  /** The second pass over a kept `:` that no `=` follows adds the `:` again and ends
      the token as UNKNOWN. */
  lemma {:induction false} ColonSecondPass(c: State)
    requires 0 <= c.pos < |c.input| && c.input[c.pos] == ':'
    requires c.lexeme == ":" && c.token == Empty
    ensures OtherReady(c) && OtherGuard(c)
    ensures OtherStep(c).1 == c.(pos := c.pos + 1, lexeme := "::", token := Unknown)
  {
    var e := AddChar(c);
    assert e.lexeme == "::";
    ColonColonIsUnknown();
    assert OtherStep(c).1 == GetChar(e.(token := Unknown));
  }

  /** `::` is not in the table. */
  lemma ColonColonIsUnknown()
    ensures Lookup("::") == None
  {
  }

  /** `<` or `>` followed by `>` or `=`: the UNKNOWN loop keeps the first character,
      takes the second, and probes the table with both. */
  lemma {:induction false} GetLexemePair(a: State, t: Token)
    requires 0 <= a.pos < |a.input| - 1
    requires (a.input[a.pos] == '<' || a.input[a.pos] == '>') && Lookup([a.input[a.pos]]) == Some(t)
    requires a.input[a.pos + 1] == '>' || a.input[a.pos + 1] == '='
    ensures var w := [a.input[a.pos], a.input[a.pos + 1]];
      GetLexeme(a) == a.(pos := a.pos + 2, lexeme := w, token := LookupOr(w, Unknown))
  {
    var w := [a.input[a.pos], a.input[a.pos + 1]];
    var b := a.(lexeme := [], token := Empty);
    assert OtherGuard(b);
    var c := AddChar(b);
    assert c.lexeme == [a.input[a.pos]];
    var d := GetChar(c.(token := t));
    assert OtherStep(b) == (false, d);
    assert NextChar(d) == Chr(a.input[a.pos + 1]) && OtherGuard(d);
    var e := AddChar(d);
    assert e.lexeme == w && e.lexeme != ":";
    assert OtherStep(d).1 == GetChar(e.(token := LookupOr(w, Unknown)));
    GetLexemeOnOther(a);
  }

  /** `<>` read by the UNKNOWN loop. */
  lemma {:induction false} GetLexemeNotEqual(a: State)
    requires 0 <= a.pos < |a.input| - 1
    requires a.input[a.pos] == '<' && a.input[a.pos + 1] == '>'
    ensures GetLexeme(a) == a.(pos := a.pos + 2, lexeme := "<>", token := NequalOp)
  {
    GetLexemePair(a, LesserOp);
    assert [a.input[a.pos], a.input[a.pos + 1]] == "<>";
  }

  /** `<=` read by the UNKNOWN loop. */
  lemma {:induction false} GetLexemeLessEqual(a: State)
    requires 0 <= a.pos < |a.input| - 1
    requires a.input[a.pos] == '<' && a.input[a.pos + 1] == '='
    ensures GetLexeme(a) == a.(pos := a.pos + 2, lexeme := "<=", token := LequalOp)
  {
    GetLexemePair(a, LesserOp);
    assert [a.input[a.pos], a.input[a.pos + 1]] == "<=";
  }

  /** `>>` read by the UNKNOWN loop: two characters, and not in the table. */
  lemma {:induction false} GetLexemeShift(a: State)
    requires 0 <= a.pos < |a.input| - 1
    requires a.input[a.pos] == '>' && a.input[a.pos + 1] == '>'
    ensures GetLexeme(a) == a.(pos := a.pos + 2, lexeme := ">>", token := Unknown)
  {
    GetLexemePair(a, GreaterOp);
    assert [a.input[a.pos], a.input[a.pos + 1]] == ">>";
    ShiftIsUnknown();
  }

  /** `>>` is not in the table. */
  lemma ShiftIsUnknown()
    ensures LookupOr(">>", Unknown) == Unknown
  {
  }

  /** `>=` read by the UNKNOWN loop. */
  lemma {:induction false} GetLexemeGreaterEqual(a: State)
    requires 0 <= a.pos < |a.input| - 1
    requires a.input[a.pos] == '>' && a.input[a.pos + 1] == '='
    ensures GetLexeme(a) == a.(pos := a.pos + 2, lexeme := ">=", token := GequalOp)
  {
    GetLexemePair(a, GreaterOp);
    assert [a.input[a.pos], a.input[a.pos + 1]] == ">=";
  }

  /** When only blanks remain, GetLexeme reaches the end of input with an empty lexeme
      and the empty token, having counted every newline it passed. */
  lemma {:induction false} GetLexemeAtEnd(a: State)
    requires Wf(a)
    requires forall i :: a.pos <= i < |a.input| ==> IsBlank(CharAt(a.input, i))
    ensures GetLexeme(a) == a.(pos := |a.input|, lexeme := [], token := Empty,
      line := a.line + Newlines(a.input, a.pos, |a.input|))
  {
    var b := a.(lexeme := [], token := Empty);
    var c := GetNonBlank(b);
    GetNonBlankSkipsBlanks(b);
    assert c.pos == |a.input|;
    assert ReadToken(c) == c;
  }

  /** `k` calls of GetChar. */
  function GetChars(a: State, k: nat): (r: State)
    requires Wf(a)
    ensures Wf(r) && r == a.(pos := r.pos)
    decreases k
  {
    if k == 0 then a else GetChars(GetChar(a), k - 1)
  }

  /** The loop of GetNewLine as the source writes it stops only when `nextChar` is a
      newline. With no newline ahead it never stops: after any number of GetChar calls
      `nextChar` is still not a newline, since the stream only yields end of input. */
  lemma {:induction false} AsWrittenGetNewLineNeverExits(a: State, k: nat)
    requires Wf(a) && !NewlineAhead(a)
    ensures a.pos <= GetChars(a, k).pos && NextChar(GetChars(a, k)) != Chr('\n')
    decreases k
  {
    if k > 0 {
      var b := GetChar(a);
      assert !NewlineAhead(b);
      AsWrittenGetNewLineNeverExits(b, k - 1);
    } else if 0 <= a.pos < |a.input| {
      assert a.input[a.pos] != '\n';
    }
  }

  /** With a newline ahead, the end-of-input stop of GetNewLine is never taken: it
      stops on the first newline, exactly where the source's loop stops. */
  lemma {:induction false} SeekNewlineFindsNewline(a: State)
    requires Wf(a) && NewlineAhead(a)
    ensures NextChar(SeekNewline(a)) == Chr('\n')
  {
    var i :| a.pos <= i < |a.input| && 0 <= i && a.input[i] == '\n';
    SeekNewlineSkipsLine(a);
    assert CharAt(a.input, i) == Chr('\n');
  }
}
