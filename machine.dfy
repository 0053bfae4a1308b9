// The analyzer as the source runs it: the shared globals are the fields of one object,
// and every lexer and parser procedure is a method that updates them in place. Each
// method is proved to leave the object in the state its pure counterpart in Lexer or
// Parser computes from the state it started in.

module Machine {
  import opened Tokens
  import opened Diagnostics
  import opened Lexer
  import Parser

  class Analyzer {
    /** The source text; the stream position is `pos`, the index of `nextChar`. */
    const input: string
    var pos: int
    var nextChar: Ch
    var charClass: CharClass
    var lexeme: string
    var token: Token
    var line: int
    var isValidCode: bool
    var errorMessages: seq<Diagnostic>

    /** `nextChar` is the character at the stream position, `charClass` its class. */
    ghost predicate Valid()
      reads this
    {
      -1 <= pos <= |input| && nextChar == CharAt(input, pos) && charClass == ClassOf(nextChar) &&
      (isValidCode <==> |errorMessages| == 0)
    }

    /** The globals as one state value. */
    function Snapshot(): State
      reads this
    {
      State(input, pos, lexeme, token, line, errorMessages)
    }

    /** An opened source with nothing read yet: `nextChar` is '\0', line 1, valid. */
    constructor (source: string)
      ensures Valid() && Snapshot() == Initial(source)
    {
      input := source;
      pos := -1;
      nextChar := Chr('\0');
      charClass := Other;
      lexeme := [];
      token := Empty;
      line := 1;
      isValidCode := true;
      errorMessages := [];
    }

    /** The character after `nextChar`, left in the stream. */
    function Peek(): Ch
      reads this
    {
      CharAt(input, pos + 1)
    }

    method GetChar()
      requires Valid()
      modifies this`pos, this`nextChar, this`charClass
      ensures Valid() && Snapshot() == Lexer.GetChar(old(Snapshot()))
    {
      if pos < |input| {
        pos := pos + 1;
      }
      nextChar := if pos < |input| then Chr(input[pos]) else Eof;
      if nextChar.Chr? && IsAlpha(nextChar.c) {
        charClass := Letter;
      } else if nextChar.Chr? && IsDigit(nextChar.c) {
        charClass := Digit;
      } else {
        charClass := Other;
      }
    }

    method AddChar()
      requires Valid() && nextChar.Chr?
      modifies this`lexeme
      ensures Valid() && Snapshot() == Lexer.AddChar(old(Snapshot()))
    {
      if !IsSpace(nextChar.c) {
        lexeme := lexeme + [nextChar.c];
      }
    }

    method GetNonBlank()
      requires Valid()
      modifies this
      ensures Valid() && Snapshot() == Lexer.GetNonBlank(old(Snapshot()))
    {
      while IsBlank(nextChar)
        invariant Valid()
        invariant Lexer.GetNonBlank(Snapshot()) == Lexer.GetNonBlank(old(Snapshot()))
        decreases |input| - pos
      {
        if nextChar == Chr('\n') {
          line := line + 1;
        }
        GetChar();
      }
    }

    /** GetNewLine with the end-of-input stop that the source lacks. */
    method GetNewLine()
      requires Valid()
      modifies this
      ensures Valid() && Snapshot() == Lexer.GetNewLine(old(Snapshot()))
    {
      while nextChar != Chr('\n') && nextChar != Eof
        invariant Valid() && line == old(line)
        invariant Lexer.SeekNewline(Snapshot()) == Lexer.SeekNewline(old(Snapshot()))
        decreases |input| - pos
      {
        GetChar();
      }
      line := line + 1;
    }

    /** GetNewLine as the source writes it, whose loop stops only on a newline: it
        terminates only when a newline is ahead, and then agrees with GetNewLine. */
    method GetNewLineAsWritten()
      requires Valid() && NewlineAhead(Snapshot())
      modifies this
      ensures Valid() && Snapshot() == Lexer.GetNewLine(old(Snapshot()))
    {
      while nextChar != Chr('\n')
        invariant Valid() && line == old(line) && NewlineAhead(Snapshot())
        invariant Lexer.SeekNewline(Snapshot()) == Lexer.SeekNewline(old(Snapshot()))
        decreases |input| - pos
      {
        var k :| pos <= k < |input| && 0 <= k && input[k] == '\n';
        assert k != pos;
        GetChar();
        assert pos <= k;
      }
      line := line + 1;
    }

    /** Error with code 1: the linear scan for a record on the current line. */
    method Error(msg: Message)
      requires Valid()
      modifies this`isValidCode, this`errorMessages
      ensures Valid() && Snapshot() == Lexer.Error(old(Snapshot()), msg)
    {
      isValidCode := false;
      var i := 0;
      while i < |errorMessages|
        invariant 0 <= i <= |errorMessages|
        invariant forall k :: 0 <= k < i ==> errorMessages[k].line != line
      {
        if errorMessages[i].line == line {
          HasLineIsSearch(errorMessages, line);
          return;
        }
        i := i + 1;
      }
      HasLineIsSearch(errorMessages, line);
      errorMessages := errorMessages + [Diagnostic(line, msg)];
    }

    /** The `line--; Error(1, msg); line++;` bracket. */
    method ErrorAbove(msg: Message)
      requires Valid()
      modifies this`line, this`isValidCode, this`errorMessages
      ensures Valid() && Snapshot() == Lexer.ErrorAbove(old(Snapshot()), msg)
    {
      line := line - 1;
      Error(msg);
      line := line + 1;
    }

    method GetLexeme()
      requires Valid()
      modifies this
      ensures Valid() && Snapshot() == Lexer.GetLexeme(old(Snapshot()))
      decreases |input| - pos, 2
    {
      lexeme := [];
      token := Empty;
      GetNonBlank();
      ReadToken();
    }

    /** The switch of GetLexeme on the class of the first non-blank character. */
    method ReadToken()
      requires Valid() && lexeme == [] && token == Empty
      modifies this
      ensures Valid() && Snapshot() == Lexer.ReadToken(old(Snapshot()))
      decreases |input| - pos, 1
    {
      match charClass {
        case Letter =>
          LetterCase();
          token := LookupOr(lexeme, Ident);
        case Digit =>
          DigitCase();
          token := IntLit;
        case Other =>
          OtherCase();
      }
    }

    /** The loop of the LETTER case of GetLexeme. */
    method LetterCase()
      requires Valid()
      modifies this
      ensures Valid() && Snapshot() == Lexer.LetterLoop(old(Snapshot()))
      decreases |input| - pos, 0
    {
      while charClass == Letter
        invariant Valid() && old(pos) <= pos
        invariant Lexer.LetterLoop(Snapshot()) == Lexer.LetterLoop(old(Snapshot()))
        decreases |input| - pos
      {
        AddChar();
        GetChar();
        if charClass == Digit {
          Error(DigitsInIdentifier);
          GetLexeme();
        }
      }
    }

    /** The loop of the DIGIT case of GetLexeme. */
    method DigitCase()
      requires Valid()
      modifies this
      ensures Valid() && Snapshot() == Lexer.DigitLoop(old(Snapshot()))
    {
      while charClass == Digit
        invariant Valid()
        invariant Lexer.DigitLoop(Snapshot()) == Lexer.DigitLoop(old(Snapshot()))
        decreases |input| - pos
      {
        AddChar();
        GetChar();
      }
    }

    /** The loop of the UNKNOWN case of GetLexeme. */
    method OtherCase()
      requires Valid() && OtherReady(Snapshot())
      modifies this`pos, this`nextChar, this`charClass, this`lexeme, this`token
      ensures Valid() && Snapshot() == Lexer.OtherLoop(old(Snapshot()))
    {
      while charClass != Letter && charClass != Digit && nextChar != Eof
        invariant Valid() && OtherReady(Snapshot())
        invariant Lexer.OtherLoop(Snapshot()) == Lexer.OtherLoop(old(Snapshot()))
        decreases if lexeme == [] then 1 else 0
      {
        var done := OtherStep();
        if done {
          break;
        }
      }
    }

    /** One pass of the UNKNOWN-case loop; `done` is the `break` that ends it. */
    method OtherStep() returns (done: bool)
      requires Valid() && OtherReady(Snapshot()) && OtherGuard(Snapshot())
      modifies this`pos, this`nextChar, this`charClass, this`lexeme, this`token
      ensures Valid() && (done, Snapshot()) == Lexer.OtherStep(old(Snapshot()))
    {
      ghost var s := Snapshot();
      AddChar();
      if lexeme == ":" {
        assert |s.lexeme| == 0 && lexeme == [NextChar(s).c];
        assert NextChar(s) == Chr(':');
        if Peek() == Chr('=') {
          GetChar();
        }
        return false;
      }
      var value := Lookup(lexeme);
      if value.Some? {
        token := value.value;
        if (lexeme == "<" || lexeme == ">") && (Peek() == Chr('>') || Peek() == Chr('=')) {
          GetChar();
          return false;
        }
      } else {
        token := Unknown;
      }
      GetChar();
      return true;
    }

    method SyntacticAnalysis()
      requires Valid()
      modifies this
      ensures Valid() && Snapshot() == Parser.SyntacticAnalysis(old(Snapshot()))
      decreases Measure(Snapshot()), 8
    {
      if token == Ident {
        GetLexeme();
        if token == AssignOp {
          GetLexeme();
          Expression();
          if token == RightParen {
            Error(RightParenWithoutOpen);
            return;
          }
        } else {
          Error(InvalidAfterIdent(lexeme));
          return;
        }
      } else if token == KeyRead || token == KeyWrite {
        GetLexeme();
        ReadWriteStatement();
      } else if token == KeyWhile {
        GetLexeme();
        WhileStatement();
      } else {
        if token == KeyOd {
          ErrorAbove(ErrantSemicolonBeforeOd);
        } else {
          Error(ErrantToken(lexeme));
        }
      }
    }

    method WhileStatement()
      requires Valid()
      modifies this
      ensures Valid() && Snapshot() == Parser.WhileStatement(old(Snapshot()))
      decreases Measure(Snapshot()), 10
    {
      Comparison();
      if token == KeyDo {
        WhileInterior();
      } else {
        Error(ImproperHeading(lexeme));
        GetNewLine();
        WhileInterior();
      }
    }

    method WhileInterior()
      requires Valid()
      modifies this
      ensures Valid() && Snapshot() == Parser.WhileInterior(old(Snapshot()))
      decreases Measure(Snapshot()), 9
    {
      GetLexeme();
      SyntacticAnalysis();
      while token != KeyOd
        invariant Valid() && Measure(Snapshot()) <= Measure(old(Snapshot()))
        invariant Parser.InteriorLoop(Snapshot()) == Parser.WhileInterior(old(Snapshot()))
        decreases Measure(Snapshot())
      {
        if token != Semicolon {
          // The source's next statement names GetLexeme without calling it.
          ErrorAbove(MissingSemicolon(lexeme));
          return;
        } else if nextChar == Eof {
          Error(NoLoopClosure);
        }
        GetLexeme();
        SyntacticAnalysis();
      }
      GetLexeme();
    }

    method Comparison()
      requires Valid()
      modifies this
      ensures Valid() && Snapshot() == Parser.Comparison(old(Snapshot()))
      decreases Measure(Snapshot()), 6
    {
      Expression();
      GetLexeme();
      if IsComparisonOp(token) {
        Expression();
      }
      GetLexeme();
    }

    method ReadWriteStatement()
      requires Valid()
      modifies this
      ensures Valid() && Snapshot() == Parser.ReadWriteStatement(old(Snapshot()))
    {
      if token == LeftParen {
        GetLexeme();
        if token == Ident {
          GetLexeme();
          if token == RightParen {
            GetLexeme();
          } else {
            Error(ReadWithoutClose);
          }
        } else {
          Error(InvalidReadInterior(lexeme));
        }
      } else {
        Error(InvalidAfterRead(lexeme));
      }
    }

    method Expression()
      requires Valid()
      modifies this
      ensures Valid() && Snapshot() == Parser.Expression(old(Snapshot()))
      decreases Measure(Snapshot()), 5
    {
      Term();
      while token == AddOp || token == SubOp
        invariant Valid() && Measure(Snapshot()) <= Measure(old(Snapshot()))
        invariant Parser.AddLoop(Snapshot()) == Parser.Expression(old(Snapshot()))
        decreases Measure(Snapshot())
      {
        GetLexeme();
        if token == RightParen {
          Error(RightParenWithoutOpen);
          return;
        }
        Term();
      }
    }

    method Term()
      requires Valid()
      modifies this
      ensures Valid() && Snapshot() == Parser.Term(old(Snapshot()))
      decreases Measure(Snapshot()), 3
    {
      Factor();
      while token == MultOp || token == DivOp
        invariant Valid() && Measure(Snapshot()) <= Measure(old(Snapshot()))
        invariant Parser.MulLoop(Snapshot()) == Parser.Term(old(Snapshot()))
        decreases Measure(Snapshot())
      {
        GetLexeme();
        if token == RightParen {
          Error(RightParenWithoutOpen);
          return;
        }
        Factor();
      }
    }

    method Factor()
      requires Valid()
      modifies this
      ensures Valid() && Snapshot() == Parser.Factor(old(Snapshot()))
      decreases Measure(Snapshot()), 1
    {
      if token == Ident || token == IntLit {
        GetLexeme();
      } else {
        if token == LeftParen {
          GetLexeme();
          Expression();
          if token == RightParen {
            GetLexeme();
          } else {
            Error(LeftParenWithoutClose);
            return;
          }
        } else {
          Error(ExpectedExpression(lexeme));
          return;
        }
      }
    }

    /** CodeAnalysis. The lookup table needs no building: it is the constant function
        Tokens.Lookup. */
    method CodeAnalysis()
      requires Valid()
      modifies this
      ensures Valid() && Snapshot() == Parser.CodeAnalysis(old(Snapshot()))
    {
      GetChar();
      GetLexeme();
      SyntacticAnalysis();
      while nextChar != Eof
        invariant Valid()
        invariant Parser.StatementLoop(Snapshot()) == Parser.CodeAnalysis(old(Snapshot()))
        decreases Measure(Snapshot())
      {
        if token == Unknown {
          Error(ErrantToken(lexeme));
          return;
        } else if token != Semicolon {
          ErrorAbove(MissingSemicolon(lexeme));
          return;
        }
        GetLexeme();
        SyntacticAnalysis();
      }
    }
  }

  /** Analyse one readable source: the diagnostics recorded and the exit status. */
  method RunAnalysis(source: string) returns (code: int, diagnostics: seq<Diagnostic>)
    ensures diagnostics == Parser.Analyze(source).errors
    ensures code == Parser.ExitCode(source)
    ensures code == 0 <==> diagnostics == []
  {
    var analyzer := new Analyzer(source);
    analyzer.CodeAnalysis();
    diagnostics := analyzer.errorMessages;
    code := if analyzer.isValidCode then 0 else 1;
  }
}
