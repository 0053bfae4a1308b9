# DanC analyzer — a Dafny model

DanC is a toy language of assignments, `read(x)`, `write(x)` and `while … do … od`
loops over integer expressions. The analyzer in `Ethan_Shook_11469438_Assignment4.cpp`
reads a DanC source file one character at a time. A hand-written lexer (`GetChar`,
`AddChar`, `GetNonBlank`, `GetNewLine`, `GetLexeme`) produces lexeme/token pairs.
A recursive-descent recogniser (`CodeAnalysis`, `SyntacticAnalysis`, `WhileStatement`,
`WhileInterior`, `Comparison`, `ReadWriteStatement`, `Expression`, `Term`, `Factor`)
checks them against the grammar. `Error` records (line, message) pairs, at most one
per line, and the exit status is 0 when nothing was recorded and 1 otherwise.

The project has two layers.

- **Pure specification.** Everything the program keeps in globals is one value,
  `Lexer.State`: the input, the cursor, the lexeme, the token, the line and the
  records.
  - Each procedure is a function from state to state: `Lexer.*` for the lexer,
    `Parser.*` for the recogniser.
  - `Parser.Analyze` runs a whole file, and `Parser.ExitCode` gives its status.
- **Imperative model.** `Machine.Analyzer` is a class whose fields are the source's
  globals: `nextChar`, `charClass`, `lexeme`, `token`, `line`, `isValidCode` and
  `errorMessages`.
  - Each procedure is a method with the source's own loops. Each method is proved to
    leave the object exactly in the state the matching function computes.
  - `Machine.RunAnalysis` runs the program's main path on one source text.

The properties are proved about the pure layer:

- `Tokens` covers the lookup table and the comparison list.
- `Diagnostics` covers the record list, with one record per line.
- `LexerFacts` gives the exact token, lexeme and cursor movement for every shape of
  input.
- `Words` shows that a text written as blank-separated words is read back word by
  word.
- `Grammar` proves that every program of the grammar is accepted with exit status 0.
- `Rejections` proves which diagnostic, on which line, each kind of faulty text
  produces.
- `Reports` takes every remaining error branch of the recogniser. It gives each branch
  as one step from the state it starts in, and then as the first record of a one-line
  text that reaches it.

Integers are unbounded; the line counter never approaches a machine limit on any text
the model considers. The input is a `string`; position `|input|` is end of input
(`Eof`), and position −1 is the stream before the first `GetChar`, when `nextChar`
still holds its static initial value '\0'.

The model follows the code where the code and the language's description disagree:

- An empty or all-blank file is not accepted. `CodeAnalysis` runs `SyntacticAnalysis`
  on the empty token, which records "Errant unknown token: " (`Rejections.BlankInput`).
- `Comparison` reads past the token after the left expression without testing it. It
  parses a right-hand expression only when the next token is a comparison operator,
  and then reads one more token.
  - So `while x < y do` is accepted, but so is `while x # y do`.
  - `while x < y + 1 do` is rejected with "Improper heading … after '+'"
    (`Rejections.MisreadHeading`).
  - When the token after the dropped one is itself a comparison operator, the second
    expression starts on that operator. So `while x < < y do` first records "Expected
    expression following operator. Instead saw: <" (`Reports.DoubleComparison`).
- The top-level loop stops as soon as `nextChar` is end of input. One word after the
  last statement, at the very end of the file, is therefore never checked
  (`Rejections.TrailingWordIgnored`).
- "Missing end of line ';'" and "Errant semicolon preceeding od." are recorded at the
  line above the current one. On the first line that is line 0.
- A final `;` followed by a newline or other blanks is rejected. `nextChar` is not
  yet end of input after the `;`, so the loop reads the empty token and records
  "Errant unknown token: " on the line the blanks end on (`Reports.SemicolonThenBlanks`).
  `x := 1;` followed by a newline is rejected on line 2.
- In `WhileInterior`, the statement after the missing-semicolon report names
  `GetLexeme` without calling it, so no token is consumed there.
- A loop body whose `;` ends the file records "No closure to while loop." on the
  current line. The next statement then finds the empty token, and its report on the
  same line is dropped. The loop then records "Missing end of line ';' before " on the
  line above (`Reports.UnclosedLoop`).
- `GetNewLine` stops on the newline without consuming it and counts it. The next
  `GetNonBlank` counts the same newline again.

## Model

| member | source | states |
|---|---|---|
| Tokens.Lookup | Ethan_Shook_11469438_Assignment4.cpp:484-505 | a word that is found has a fixed token kind whose spelling is exactly that word |
| Tokens.LookupIsTable | Ethan_Shook_11469438_Assignment4.cpp:484-505 | the table has exactly 19 entries; every entry is found with its kind, and every word that is found is an entry |
| Tokens.LookupSpelling | Ethan_Shook_11469438_Assignment4.cpp:484-505 | every fixed kind's spelling looks up to that kind |
| Tokens.LookupAlnum | Ethan_Shook_11469438_Assignment4.cpp:417-427 | a letter-initial word found in the table is a keyword (read, write, while, do, od); a digit-initial word is never found |
| Tokens.ComparisonOpsAreRelations | Ethan_Shook_11469438_Assignment4.cpp:37-38 | a kind is in the comparison list exactly when it is a fixed kind spelled with a leading `<`, `>` or `=` |
| Diagnostics.HasLineIsSearch | Ethan_Shook_11469438_Assignment4.cpp:329-333 | the duplicate test holds exactly when some record already carries that line |
| Diagnostics.UniqueLinesIsPairwise | Ethan_Shook_11469438_Assignment4.cpp:328-336 | "one record per line" holds exactly when no two records share a line |
| Diagnostics.Record | Ethan_Shook_11469438_Assignment4.cpp:326-336 | afterwards a record on the line exists; the old list is a prefix and grows by at most one; it is unchanged exactly when the line already had a record, and otherwise the new last record is (line, message) |
| Diagnostics.RecordKeepsLinesUnique | Ethan_Shook_11469438_Assignment4.cpp:326-336 | recording keeps at most one record per line |
| Lexer.Initial | Ethan_Shook_11469438_Assignment4.cpp:19-30 | the opened source: well-formed, the given input, line 1, no records |
| Lexer.GetChar | Ethan_Shook_11469438_Assignment4.cpp:356-365 | only the cursor moves; the new `nextChar` is the old lookahead, or end of input stays where it is |
| Lexer.AddChar | Ethan_Shook_11469438_Assignment4.cpp:367-371 | only the lexeme changes; `nextChar` is appended exactly when it is not whitespace |
| Lexer.Error | Ethan_Shook_11469438_Assignment4.cpp:323-337 | only the records change; the records afterwards hold one for the current line; the message is appended exactly when the line had none |
| Lexer.ErrorAbove | Ethan_Shook_11469438_Assignment4.cpp:113-115 | as Error, at line−1; the line counter ends where it started |
| Lexer.GetNonBlank | Ethan_Shook_11469438_Assignment4.cpp:382-390 | only the cursor and line move, both forward; it stops on a non-blank character or end of input |
| Lexer.SeekNewline | Ethan_Shook_11469438_Assignment4.cpp:375-378 | only the cursor moves; it stops on a newline or at end of input |
| Lexer.GetNewLine | Ethan_Shook_11469438_Assignment4.cpp:373-380 | with the end-of-input stop: the cursor ends on a newline or end of input, the line goes up by exactly one, nothing else changes |
| Lexer.GetLexeme | Ethan_Shook_11469438_Assignment4.cpp:395-480 | input kept, cursor/line forward, records append-only with one per line; an empty token only at end of input with an empty lexeme; any other token consumes at least one character |
| Lexer.ReadToken | Ethan_Shook_11469438_Assignment4.cpp:403-477 | the same guarantees for the switch on the character class |
| Lexer.LetterLoop | Ethan_Shook_11469438_Assignment4.cpp:407-416 | stops on a non-letter; consumes at least one character when it starts on a letter, and changes nothing otherwise |
| Lexer.DigitLoop | Ethan_Shook_11469438_Assignment4.cpp:431-435 | only cursor and lexeme change; stops on a non-digit; consumes at least one character when it starts on a digit |
| Lexer.OtherStep | Ethan_Shook_11469438_Assignment4.cpp:442-475 | one pass of the UNKNOWN loop: when it ends the loop a token is set and a character consumed; otherwise this was the first pass, and it leaves a non-empty lexeme for the second |
| Lexer.OtherLoop | Ethan_Shook_11469438_Assignment4.cpp:440-476 | only cursor, lexeme and token change; when the guard holds a token is set and a character consumed; at end of input nothing changes |
| LexerFacts.GetNonBlankSkipsBlanks | Ethan_Shook_11469438_Assignment4.cpp:382-390 | every skipped character is whitespace, and the line rises by exactly the number of newlines skipped |
| LexerFacts.SeekNewlineSkipsLine | Ethan_Shook_11469438_Assignment4.cpp:375-378 | no skipped character is a newline |
| LexerFacts.GetLexemeOnNonBlank | Ethan_Shook_11469438_Assignment4.cpp:397-403 | on a non-blank, GetLexeme clears lexeme and token and runs the switch |
| LexerFacts.GetLexemeOnLetter | Ethan_Shook_11469438_Assignment4.cpp:405-427 | on a letter: the letter loop, then the table's kind for the lexeme or IDENT |
| LexerFacts.GetLexemeOnDigit | Ethan_Shook_11469438_Assignment4.cpp:429-438 | on a digit: the digit loop, then INT_LIT |
| LexerFacts.GetLexemeOnOther | Ethan_Shook_11469438_Assignment4.cpp:440-476 | on any other non-blank: the UNKNOWN loop |
| LexerFacts.GetLexemeSkipsSpace | Ethan_Shook_11469438_Assignment4.cpp:384-400 | a leading blank is skipped |
| LexerFacts.DigitLoopRun | Ethan_Shook_11469438_Assignment4.cpp:431-435 | over a maximal digit run the loop ends just after it, having appended exactly the run |
| LexerFacts.LetterLoopRun | Ethan_Shook_11469438_Assignment4.cpp:407-416 | over a maximal letter run not followed by a digit, the loop ends just after it, having appended exactly the run |
| LexerFacts.GetLexemeWord | Ethan_Shook_11469438_Assignment4.cpp:405-427 | a maximal letter run is one token: lexeme the run, kind the table's or IDENT |
| LexerFacts.GetLexemeNumber | Ethan_Shook_11469438_Assignment4.cpp:429-438 | a maximal digit run is one INT_LIT token whose lexeme is exactly the run |
| LexerFacts.LetterLoopIntoDigits | Ethan_Shook_11469438_Assignment4.cpp:407-416 | letters then digits: a digit error is recorded, and the nested GetLexeme leaves the digits as an INT_LIT lexeme |
| LexerFacts.LetterLoopMeetsDigit | Ethan_Shook_11469438_Assignment4.cpp:409-415 | the step on which a letter is followed by a digit records the error and restarts the lexeme on the digits |
| LexerFacts.GetLexemeDigitInIdentifier | Ethan_Shook_11469438_Assignment4.cpp:405-427 | letters then digits: one "Digits are not allowed" record, and the token is IDENT with only the digits as its lexeme |
| LexerFacts.GetLexemeSymbol | Ethan_Shook_11469438_Assignment4.cpp:440-476 | the UNKNOWN case, character by character: lexeme, kind and the number of characters consumed |
| LexerFacts.GetLexemeKnown | Ethan_Shook_11469438_Assignment4.cpp:452-467 | a one-character table entry not starting a pair is one token of its kind, consuming one character |
| LexerFacts.GetLexemeStray | Ethan_Shook_11469438_Assignment4.cpp:469-474 | any other single character not in the table is an UNKNOWN token consuming exactly one character |
| LexerFacts.GetLexemeAssign | Ethan_Shook_11469438_Assignment4.cpp:446-451 | `:=` is one ASSIGN_OP token of two characters |
| LexerFacts.GetLexemeColon | Ethan_Shook_11469438_Assignment4.cpp:446-451 | `:` not followed by `=` consumes only the `:` and gives an UNKNOWN token with lexeme `::` |
| LexerFacts.GetLexemePair | Ethan_Shook_11469438_Assignment4.cpp:459-464 | `<` or `>` followed by `>` or `=` consumes two characters, kind from the table or UNKNOWN |
| LexerFacts.GetLexemeNotEqual | Ethan_Shook_11469438_Assignment4.cpp:459-464 | `<>` is one NEQUAL_OP token |
| LexerFacts.GetLexemeLessEqual | Ethan_Shook_11469438_Assignment4.cpp:459-464 | `<=` is one LEQUAL_OP token |
| LexerFacts.GetLexemeShift | Ethan_Shook_11469438_Assignment4.cpp:459-476 | `>>` is one UNKNOWN token of two characters |
| LexerFacts.GetLexemeGreaterEqual | Ethan_Shook_11469438_Assignment4.cpp:459-464 | `>=` is one GEQUAL_OP token |
| LexerFacts.GetLexemeAtEnd | Ethan_Shook_11469438_Assignment4.cpp:397-400 | when only blanks remain, GetLexeme consumes them, counts their newlines, and leaves lexeme and token empty at end of input |
| LexerFacts.AsWrittenGetNewLineNeverExits | Ethan_Shook_11469438_Assignment4.cpp:373-378 | with no newline ahead, no number of GetChar calls ever leaves `nextChar` on a newline, so the loop as written never exits |
| LexerFacts.SeekNewlineFindsNewline | Ethan_Shook_11469438_Assignment4.cpp:375-378 | with a newline ahead, the guarded loop stops on a newline, as the unguarded one would |
| Parser.SyntacticAnalysis | Ethan_Shook_11469438_Assignment4.cpp:124-170 | input kept, cursor/line forward, records append-only and one per line; the termination measure never rises. The branches are stated by Grammar.StmtAccepts, Reports.ErrantStatement, Reports.IdentWithoutAssign, Rejections.OdAfterSemicolon and the dispatch lemmas |
| Parser.Assignment | Ethan_Shook_11469438_Assignment4.cpp:128-147 | the same step guarantees for the IDENT branch; the branches are stated by Grammar.AssignShape, Reports.IdentWithoutAssign and Rejections.AssignOnRightParen |
| Parser.WhileStatement | Ethan_Shook_11469438_Assignment4.cpp:172-188 | the same step guarantees; the branches are stated by Grammar.WhileShape and Rejections.WhileWithoutDo |
| Parser.WhileInterior | Ethan_Shook_11469438_Assignment4.cpp:190-214 | the same step guarantees; its loop is stated by Parser.InteriorLoop's lemmas |
| Parser.InteriorLoop | Ethan_Shook_11469438_Assignment4.cpp:195-213 | the same step guarantees for the loop up to `od`; the branches are stated by Grammar.InteriorEnd, Grammar.InteriorShape, Reports.InteriorWithoutSemicolon and Reports.InteriorAtEnd |
| Parser.Comparison | Ethan_Shook_11469438_Assignment4.cpp:216-226 | the same step guarantees; the branches are stated by Grammar.HeadingAccepts and Reports.ComparisonSecondSide |
| Parser.ReadWriteStatement | Ethan_Shook_11469438_Assignment4.cpp:229-253 | the same step guarantees; the branches are stated by Grammar.ReadWriteShape, Reports.ReadWithoutParen, Reports.ReadWithoutName and Reports.ReadWithoutClosure |
| Parser.Expression | Ethan_Shook_11469438_Assignment4.cpp:255-270 | the same step guarantees; the branches are stated by Grammar.ExprAccepts and Reports.ExpressionWithoutOperand |
| Parser.AddLoop | Ethan_Shook_11469438_Assignment4.cpp:259-269 | the same step guarantees for the `+`/`-` loop; the branches are stated by Grammar.AddStep and Reports.AddThenRightParen |
| Parser.Term | Ethan_Shook_11469438_Assignment4.cpp:272-287 | the same step guarantees; the branches are stated by Grammar.TermAccepts and Reports.ExpressionWithoutOperand |
| Parser.MulLoop | Ethan_Shook_11469438_Assignment4.cpp:276-286 | the same step guarantees for the `*`/`/` loop; the branches are stated by Grammar.MulStep and Reports.MulThenRightParen |
| Parser.Factor | Ethan_Shook_11469438_Assignment4.cpp:289-320 | the same step guarantees; the branches are stated by Grammar.FactorAccepts, Grammar.GroupShape, Rejections.FactorUnclosed and Reports.FactorWithoutOperand |
| Parser.CodeAnalysis | Ethan_Shook_11469438_Assignment4.cpp:92-122 | input kept, cursor/line forward, records append-only and one per line |
| Parser.StatementLoop | Ethan_Shook_11469438_Assignment4.cpp:101-121 | the same, for the top-level loop |
| Parser.Analyze | Ethan_Shook_11469438_Assignment4.cpp:92-122 | a whole run keeps the input and never holds two records for one line |
| Parser.ExitCode | Ethan_Shook_11469438_Assignment4.cpp:83-89 | the status is 0 or 1, and 0 exactly when nothing was recorded |
| Words.LexAhead | Ethan_Shook_11469438_Assignment4.cpp:395-480 | a word followed by a blank or end of input is read as one token: its spelling as the lexeme, its kind as the token |
| Words.LexName | Ethan_Shook_11469438_Assignment4.cpp:405-427 | a non-keyword letter word is one IDENT token |
| Words.LexNumeral | Ethan_Shook_11469438_Assignment4.cpp:429-438 | a digit word is one INT_LIT token |
| Words.LexKeyword | Ethan_Shook_11469438_Assignment4.cpp:417-422 | a keyword is one token of its own kind |
| Words.LexSymbol | Ethan_Shook_11469438_Assignment4.cpp:440-476 | every operator and punctuation spelling is one token of its own kind |
| Words.LexWord | Ethan_Shook_11469438_Assignment4.cpp:395-480 | in a blank-separated text, GetLexeme skips the blank, reads exactly the next word and leaves the rest of the text |
| Words.LexNext | Ethan_Shook_11469438_Assignment4.cpp:395-480 | reading a blank-separated text moves to the next word without touching the line or the records |
| Words.Advance | Ethan_Shook_11469438_Assignment4.cpp:395-480 | the same, one word further along the text |
| Grammar.FactorAccepts | Ethan_Shook_11469438_Assignment4.cpp:289-320 | every factor is consumed exactly, with nothing recorded |
| Grammar.GroupAccepts | Ethan_Shook_11469438_Assignment4.cpp:298-307 | `( E )` is consumed exactly, with nothing recorded |
| Grammar.GroupShape | Ethan_Shook_11469438_Assignment4.cpp:298-307 | when the inner expression ends on `)`, Factor consumes it and moves on |
| Grammar.MulStep | Ethan_Shook_11469438_Assignment4.cpp:276-286 | a `*` or `/` before an operand continues the term with the next factor |
| Grammar.AddStep | Ethan_Shook_11469438_Assignment4.cpp:259-269 | a `+` or `-` before an operand continues the expression with the next term |
| Grammar.TermAccepts | Ethan_Shook_11469438_Assignment4.cpp:272-287 | every term is consumed exactly, with nothing recorded |
| Grammar.ProductAccepts | Ethan_Shook_11469438_Assignment4.cpp:276-286 | a product is consumed exactly, with nothing recorded |
| Grammar.ExprAccepts | Ethan_Shook_11469438_Assignment4.cpp:255-270 | every expression is consumed exactly, with nothing recorded, leaving the token after it |
| Grammar.SumAccepts | Ethan_Shook_11469438_Assignment4.cpp:259-269 | a sum is consumed exactly, with nothing recorded |
| Grammar.HeadingAccepts | Ethan_Shook_11469438_Assignment4.cpp:216-226 | Comparison consumes an expression, one untested word, and one more word when that word is not a comparison operator |
| Grammar.HeadingThenDo | Ethan_Shook_11469438_Assignment4.cpp:216-226 | a heading `E rel operand do` leaves `do` as the token, with nothing recorded |
| Grammar.LoopHeading | Ethan_Shook_11469438_Assignment4.cpp:153-156 | after `while`, the heading is read up to and past `do` with nothing recorded |
| Grammar.StmtAccepts | Ethan_Shook_11469438_Assignment4.cpp:124-170 | every statement is consumed exactly, with nothing recorded |
| Grammar.AssignAccepts | Ethan_Shook_11469438_Assignment4.cpp:128-141 | `x := E` is consumed exactly, with nothing recorded |
| Grammar.AssignShape | Ethan_Shook_11469438_Assignment4.cpp:128-141 | IDENT `:=` runs Expression, and ends there unless a `)` follows |
| Grammar.ReadWriteAccepts | Ethan_Shook_11469438_Assignment4.cpp:229-244 | `read(x)` and `write(x)` are consumed exactly, with nothing recorded |
| Grammar.ReadWriteShape | Ethan_Shook_11469438_Assignment4.cpp:229-244 | `read`/`write`, `(`, IDENT, `)` take four lexemes and record nothing |
| Grammar.WhileShape | Ethan_Shook_11469438_Assignment4.cpp:172-179 | a heading that ends on `do` goes on to the interior loop |
| Grammar.LoopAccepts | Ethan_Shook_11469438_Assignment4.cpp:172-214 | every `while … do block od` is consumed exactly, with nothing recorded |
| Grammar.InteriorStep | Ethan_Shook_11469438_Assignment4.cpp:205-211 | a `;` with more text after it goes on to the next statement of the loop body |
| Grammar.InteriorShape | Ethan_Shook_11469438_Assignment4.cpp:205-211 | the same, for any state on `;` that is not at end of input |
| Grammar.InteriorBlock | Ethan_Shook_11469438_Assignment4.cpp:193-212 | a loop body's block is consumed statement by statement with nothing recorded |
| Grammar.InteriorEnd | Ethan_Shook_11469438_Assignment4.cpp:195-213 | `od` ends the interior and is consumed |
| Grammar.TopStep | Ethan_Shook_11469438_Assignment4.cpp:118-120 | at top level, a `;` with more text after it goes on to the next statement |
| Grammar.TopShape | Ethan_Shook_11469438_Assignment4.cpp:118-120 | the same, for any state on `;` that is not at end of input |
| Grammar.TopBlock | Ethan_Shook_11469438_Assignment4.cpp:101-121 | the top-level loop consumes a block statement by statement with nothing recorded |
| Grammar.AnalyzeStart | Ethan_Shook_11469438_Assignment4.cpp:96-100 | a run starts on the first word, at line 1, with no records, and then enters the statement loop |
| Grammar.FinalStops | Ethan_Shook_11469438_Assignment4.cpp:101 | at end of input, with or without a final `;`, the top-level loop stops at once |
| Grammar.ProgramRuns | Ethan_Shook_11469438_Assignment4.cpp:100-121 | a program's text runs to the end with nothing new recorded |
| Grammar.ProgramAccepts | Ethan_Shook_11469438_Assignment4.cpp:79-89 | every program of the grammar, written out, is analysed with no records and exit status 0 |
| Rejections.FirstReport | Ethan_Shook_11469438_Assignment4.cpp:323-337 | with no earlier record, Error records exactly (line, message), and the above-line variant records (line−1, message) |
| Rejections.LoopAtEnd | Ethan_Shook_11469438_Assignment4.cpp:101 | at end of input the top-level loop does nothing |
| Rejections.LoopWithoutSemicolon | Ethan_Shook_11469438_Assignment4.cpp:106-117 | before more input, an UNKNOWN token records "Errant unknown token"; any other non-`;` token records "Missing end of line ';'" at line−1; either way the run stops |
| Rejections.AssignOnRightParen | Ethan_Shook_11469438_Assignment4.cpp:136-140 | an assignment whose expression stops on `)` records "Right parenthesis ')' missing opening '('" |
| Rejections.EmptyStatement | Ethan_Shook_11469438_Assignment4.cpp:159-168 | the empty token at end of input records "Errant unknown token: " |
| Rejections.BlankInput | Ethan_Shook_11469438_Assignment4.cpp:96-100 | an empty or all-blank file records exactly "Errant unknown token: " on the line after its last newline, and exits with 1 |
| Rejections.TrailingWordIgnored | Ethan_Shook_11469438_Assignment4.cpp:101-121 | a block followed by one more word at end of input records nothing |
| Rejections.NoSemicolonAfterStatement | Ethan_Shook_11469438_Assignment4.cpp:106-117 | a block followed by a non-`;` word and more text records exactly one diagnostic: "Errant unknown token" on line 1 for an UNKNOWN word, otherwise "Missing end of line ';'" on line 0 |
| Rejections.AssignBeforeRightParen | Ethan_Shook_11469438_Assignment4.cpp:128-140 | `x := E )` records the right-parenthesis message on the current line and stops on the `)` |
| Rejections.UnopenedParenthesis | Ethan_Shook_11469438_Assignment4.cpp:106-140 | a whole run on `x := E )…` records the right-parenthesis message at line 1, then "Missing end of line ';' before )" at line 0 when text follows |
| Rejections.PendingRightParen | Ethan_Shook_11469438_Assignment4.cpp:111-117 | a `)` left after the first statement adds the missing-semicolon record exactly when more text follows |
| Rejections.UnclosedParenthesis | Ethan_Shook_11469438_Assignment4.cpp:298-312 | `( E` followed by a word other than `)` records "Left parenthesis '(' missing closure ')'." |
| Rejections.UnclosedAt | Ethan_Shook_11469438_Assignment4.cpp:128-141 | in `x := ( E w`, the first record is the unclosed-parenthesis message on the current line |
| Rejections.UnclosedInAssignment | Ethan_Shook_11469438_Assignment4.cpp:289-320 | a whole run on `x := ( E w…` records the unclosed-parenthesis message first, on line 1 |
| Rejections.ExpressionAfterFactor | Ethan_Shook_11469438_Assignment4.cpp:255-287 | the result of Expression is a forward step from the result of its leading Factor on the same state |
| Rejections.AssignAfterExpression | Ethan_Shook_11469438_Assignment4.cpp:134-140 | the result of the IDENT branch is a forward step from the result of its Expression |
| Rejections.WhileWithoutDo | Ethan_Shook_11469438_Assignment4.cpp:180-186 | a heading not ending on `do` records "Improper heading" quoting the lexeme where Comparison stopped; the rest of the statement only moves forward from that state |
| Rejections.MisreadAt | Ethan_Shook_11469438_Assignment4.cpp:216-226 | `while E rel w1 w2`, where w1 is not a comparison operator and w2 is not `do`, first records "Improper heading … after 'w2'" |
| Rejections.MisreadHeading | Ethan_Shook_11469438_Assignment4.cpp:172-186 | a whole run on such a heading records that message first, on line 1 |
| Rejections.OdAfterSemicolon | Ethan_Shook_11469438_Assignment4.cpp:159-166 | a `;` directly before `od` inside a loop records "Errant semicolon preceeding od." at line−1, and `od` is then consumed |
| Rejections.SemicolonOdPending | Ethan_Shook_11469438_Assignment4.cpp:195-213 | with no earlier record, `; od` ends the interior with exactly that one record, at line−1 |
| Rejections.BodyThenSemicolon | Ethan_Shook_11469438_Assignment4.cpp:193-213 | a loop body followed by `; od` records exactly the errant-semicolon message |
| Rejections.LoopThenSemicolon | Ethan_Shook_11469438_Assignment4.cpp:153-213 | a whole `while … do block ; od` records exactly the errant-semicolon message, at line−1 |
| Rejections.SemicolonBeforeOd | Ethan_Shook_11469438_Assignment4.cpp:92-213 | a whole run on `while … do block ; od` records exactly that message, on line 0 |
| Rejections.WhileDispatch | Ethan_Shook_11469438_Assignment4.cpp:153-156 | a statement starting with `while` is WhileStatement on the token after the keyword |
| Rejections.FactorUnclosed | Ethan_Shook_11469438_Assignment4.cpp:298-312 | a `(` whose inner expression does not stop on `)` records "Left parenthesis '(' missing closure ')'." on the state where the expression stopped |
| Reports.ErrantStatement | Ethan_Shook_11469438_Assignment4.cpp:159-168 | a statement starting with none of IDENT, `read`, `write`, `while` or `od` records "Errant unknown token: " quoting its lexeme, and nothing else changes |
| Reports.IdentWithoutAssign | Ethan_Shook_11469438_Assignment4.cpp:128-146 | IDENT not followed by `:=` records "Invalid argument … following IDENT" quoting the token after it, which stays pending |
| Reports.ReadDispatch | Ethan_Shook_11469438_Assignment4.cpp:148-151 | a statement starting with `read` or `write` is ReadWriteStatement on the token after the keyword |
| Reports.ReadWithoutParen | Ethan_Shook_11469438_Assignment4.cpp:229-253 | a token other than `(` after `read`/`write` records "… is an invalid character following read statement." quoting it, and is not consumed |
| Reports.ReadWithoutName | Ethan_Shook_11469438_Assignment4.cpp:232-249 | `(` followed by a non-IDENT records "… is an invalid interior of read statement." quoting that token |
| Reports.ReadWithoutClosure | Ethan_Shook_11469438_Assignment4.cpp:232-246 | `( IDENT` followed by a token other than `)` records "Invalid closure to read statement" at that token, which is not consumed |
| Reports.AddThenRightParen | Ethan_Shook_11469438_Assignment4.cpp:259-267 | `+` or `-` directly followed by `)` records "Right parenthesis ')' missing opening '('" and ends the expression on the `)` |
| Reports.MulThenRightParen | Ethan_Shook_11469438_Assignment4.cpp:276-284 | `*` or `/` directly followed by `)` records the same message and ends the term on the `)` |
| Reports.FactorWithoutOperand | Ethan_Shook_11469438_Assignment4.cpp:289-318 | a factor starting with none of IDENT, INT_LIT or `(` records "Expected expression following operator. Instead saw: " quoting the token, which is not consumed |
| Reports.ExpressionWithoutOperand | Ethan_Shook_11469438_Assignment4.cpp:255-318 | an expression meeting no operand and no operator records only that Factor report |
| Reports.InteriorWithoutSemicolon | Ethan_Shook_11469438_Assignment4.cpp:195-203 | in a loop body, a token other than `od` or `;` records "Missing end of line ';' before …" at line−1 and ends the interior without consuming it |
| Reports.InteriorAtEnd | Ethan_Shook_11469438_Assignment4.cpp:195-211 | a body `;` at end of input records "No closure to while loop.", reads the empty token, whose statement report on that line is dropped, and records the missing `;` at line−1 |
| Reports.InteriorAtEndFirst | Ethan_Shook_11469438_Assignment4.cpp:195-211 | with nothing recorded before, that ends with exactly the two records, the missing `od` first, cursor and line unchanged |
| Reports.ComparisonSecondSide | Ethan_Shook_11469438_Assignment4.cpp:216-226 | when the token after the dropped one is a comparison operator, the second expression starts on it and records "Expected expression" quoting the operator, then one more token is read |
| Reports.WhileAfterHeading | Ethan_Shook_11469438_Assignment4.cpp:172-188 | a while statement only moves forward from where its heading stopped |
| Reports.SemicolonThenBlanks | Ethan_Shook_11469438_Assignment4.cpp:101-168 | a `;` followed only by blanks does not end the loop: the empty token is read on the line the blanks end on and records "Errant unknown token: " |
| Reports.RunKeepsFirst | Ethan_Shook_11469438_Assignment4.cpp:96-121 | the first record made by the first statement stays the first record of the whole run |
| Reports.ErrantFirstWord | Ethan_Shook_11469438_Assignment4.cpp:96-168 | a one-line text starting with a word that cannot start a statement records "Errant unknown token" quoting it first, on line 1 |
| Reports.IdentWithoutAssignAt | Ethan_Shook_11469438_Assignment4.cpp:128-146 | in `x w` with `w` not `:=`, the statement records exactly the invalid-argument message quoting `w` |
| Reports.IdentWithoutAssignment | Ethan_Shook_11469438_Assignment4.cpp:96-146 | a whole run on `x w…` records that message first, on line 1 |
| Reports.ReadWithoutParenAt | Ethan_Shook_11469438_Assignment4.cpp:148-253 | in `read w` with `w` not `(`, the statement records exactly the invalid-character message quoting `w` |
| Reports.ReadWithoutParenthesis | Ethan_Shook_11469438_Assignment4.cpp:96-253 | a whole run on `read w…` records that message first, on line 1 |
| Reports.NonNameInParens | Ethan_Shook_11469438_Assignment4.cpp:232-249 | after the keyword, `( w` with `w` not IDENT records exactly the invalid-interior message quoting `w` |
| Reports.ReadOfNonNameAt | Ethan_Shook_11469438_Assignment4.cpp:148-249 | in `read ( w` the statement records exactly that message |
| Reports.ReadOfNonName | Ethan_Shook_11469438_Assignment4.cpp:96-249 | a whole run on `read ( w…` records that message first, on line 1 |
| Reports.NameWithoutClose | Ethan_Shook_11469438_Assignment4.cpp:232-246 | after the keyword, `( x w` with `w` not `)` records exactly the invalid-closure message |
| Reports.ReadUnclosedAt | Ethan_Shook_11469438_Assignment4.cpp:148-246 | in `read ( x w` the statement records exactly that message |
| Reports.ReadUnclosed | Ethan_Shook_11469438_Assignment4.cpp:96-246 | a whole run on `read ( x w…` records that message first, on line 1 |
| Reports.AssignWithoutOperandAt | Ethan_Shook_11469438_Assignment4.cpp:128-318 | in `x := w` with `w` not an operand, the first record is "Expected expression" quoting `w` |
| Reports.AssignWithoutOperand | Ethan_Shook_11469438_Assignment4.cpp:96-318 | a whole run on `x := w…` records that message first, on line 1 |
| Reports.AddBeforeRightParenAt | Ethan_Shook_11469438_Assignment4.cpp:255-269 | after a term, `+ )` or `- )` ends the expression on the `)` with the right-parenthesis message added on the current line |
| Reports.ExpressionOnMulRightParen | Ethan_Shook_11469438_Assignment4.cpp:255-286 | a factor followed by `* )` or `/ )` ends the whole expression with the right-parenthesis message at that `)` |
| Reports.MulBeforeRightParenAt | Ethan_Shook_11469438_Assignment4.cpp:272-286 | after a factor, `* )` or `/ )` ends the expression on the `)` with that message added on the current line |
| Reports.AssignRightParenOnce | Ethan_Shook_11469438_Assignment4.cpp:134-140 | when the expression already reported its `)` on this line, the IDENT branch's own `)` report is dropped |
| Reports.AddBeforeRightParen | Ethan_Shook_11469438_Assignment4.cpp:96-269 | a whole run on `x := T + )…` records the right-parenthesis message first, on line 1 |
| Reports.MulBeforeRightParen | Ethan_Shook_11469438_Assignment4.cpp:96-286 | a whole run on `x := F * )…` records the right-parenthesis message first, on line 1 |
| Reports.SemicolonAtEnd | Ethan_Shook_11469438_Assignment4.cpp:195-211 | the interior loop on a `;` that ends the text records exactly the two reports of an unclosed loop |
| Reports.UnseparatedPending | Ethan_Shook_11469438_Assignment4.cpp:195-203 | the interior loop on a word other than `;` or `od` records exactly the missing `;` at line−1, quoting the word |
| Reports.BodyAtEnd | Ethan_Shook_11469438_Assignment4.cpp:190-211 | a loop body followed by a `;` that ends the text records exactly "No closure to while loop." and then the missing `;` at line−1 |
| Reports.BodyUnseparated | Ethan_Shook_11469438_Assignment4.cpp:190-203 | a loop body followed by a word other than `;` or `od` records exactly the missing `;` at line−1, quoting the word |
| Reports.UnclosedLoopAt | Ethan_Shook_11469438_Assignment4.cpp:153-211 | `while h do b ;` at the end of the text ends at end of input with exactly those two records |
| Reports.UnclosedLoop | Ethan_Shook_11469438_Assignment4.cpp:92-211 | a whole run on `while h do b ;` records exactly "No closure to while loop." on line 1 and then the missing `;` on line 0 |
| Reports.LoopBodyUnseparatedAt | Ethan_Shook_11469438_Assignment4.cpp:153-203 | in `while h do b w` with `w` neither `;` nor `od`, the statement records exactly the missing `;` at line−1, quoting `w` |
| Reports.LoopBodyUnseparated | Ethan_Shook_11469438_Assignment4.cpp:92-203 | a whole run on `while h do b w…` records that message first, on line 0 |
| Reports.SecondSideFirst | Ethan_Shook_11469438_Assignment4.cpp:216-226 | with nothing recorded before, Comparison's first record is then "Expected expression" quoting the operator, on the current line |
| Reports.HeadingSecondSide | Ethan_Shook_11469438_Assignment4.cpp:216-226 | a heading `E w1 rel …` first records "Expected expression" quoting `rel` |
| Reports.DoubleComparisonAt | Ethan_Shook_11469438_Assignment4.cpp:153-226 | in `while E w1 rel …` the statement first records that message |
| Reports.DoubleComparison | Ethan_Shook_11469438_Assignment4.cpp:92-226 | a whole run on `while E w1 rel …` records that message first, on line 1 |
| Machine.Analyzer.constructor | Ethan_Shook_11469438_Assignment4.cpp:19-30 | the globals start as the initial state: `nextChar` '\0', line 1, valid, no records |
| Machine.Analyzer.GetChar | Ethan_Shook_11469438_Assignment4.cpp:356-365 | the new fields are Lexer.GetChar of the old ones, and `charClass` classifies `nextChar` |
| Machine.Analyzer.AddChar | Ethan_Shook_11469438_Assignment4.cpp:367-371 | the new fields are Lexer.AddChar of the old ones |
| Machine.Analyzer.GetNonBlank | Ethan_Shook_11469438_Assignment4.cpp:382-390 | its loop leaves the fields as Lexer.GetNonBlank |
| Machine.Analyzer.GetNewLine | Ethan_Shook_11469438_Assignment4.cpp:373-380 | the loop with the end-of-input stop leaves the fields as Lexer.GetNewLine |
| Machine.Analyzer.GetNewLineAsWritten | Ethan_Shook_11469438_Assignment4.cpp:373-380 | the loop as written terminates when a newline is ahead, and then agrees with Lexer.GetNewLine |
| Machine.Analyzer.Error | Ethan_Shook_11469438_Assignment4.cpp:323-337 | the linear scan and push leave the fields as Lexer.Error; `isValidCode` is false afterwards |
| Machine.Analyzer.ErrorAbove | Ethan_Shook_11469438_Assignment4.cpp:113-115 | `line--`, Error, `line++` leave the fields as Lexer.ErrorAbove |
| Machine.Analyzer.GetLexeme | Ethan_Shook_11469438_Assignment4.cpp:395-480 | the fields end as Lexer.GetLexeme |
| Machine.Analyzer.ReadToken | Ethan_Shook_11469438_Assignment4.cpp:403-477 | the switch leaves the fields as Lexer.ReadToken |
| Machine.Analyzer.LetterCase | Ethan_Shook_11469438_Assignment4.cpp:405-416 | the letter loop, with its nested GetLexeme, leaves the fields as Lexer.LetterLoop |
| Machine.Analyzer.DigitCase | Ethan_Shook_11469438_Assignment4.cpp:429-435 | the digit loop leaves the fields as Lexer.DigitLoop |
| Machine.Analyzer.OtherCase | Ethan_Shook_11469438_Assignment4.cpp:440-476 | the UNKNOWN loop leaves the fields as Lexer.OtherLoop |
| Machine.Analyzer.OtherStep | Ethan_Shook_11469438_Assignment4.cpp:444-474 | one pass of the UNKNOWN loop leaves the fields, and whether the loop ends, as Lexer.OtherStep |
| Machine.Analyzer.SyntacticAnalysis | Ethan_Shook_11469438_Assignment4.cpp:124-170 | the fields end as Parser.SyntacticAnalysis |
| Machine.Analyzer.WhileStatement | Ethan_Shook_11469438_Assignment4.cpp:172-188 | the fields end as Parser.WhileStatement |
| Machine.Analyzer.WhileInterior | Ethan_Shook_11469438_Assignment4.cpp:190-214 | the loop up to `od` leaves the fields as Parser.WhileInterior |
| Machine.Analyzer.Comparison | Ethan_Shook_11469438_Assignment4.cpp:216-226 | the fields end as Parser.Comparison |
| Machine.Analyzer.ReadWriteStatement | Ethan_Shook_11469438_Assignment4.cpp:229-253 | the fields end as Parser.ReadWriteStatement |
| Machine.Analyzer.Expression | Ethan_Shook_11469438_Assignment4.cpp:255-270 | the `+`/`-` loop leaves the fields as Parser.Expression |
| Machine.Analyzer.Term | Ethan_Shook_11469438_Assignment4.cpp:272-287 | the `*`/`/` loop leaves the fields as Parser.Term |
| Machine.Analyzer.Factor | Ethan_Shook_11469438_Assignment4.cpp:289-320 | the fields end as Parser.Factor |
| Machine.Analyzer.CodeAnalysis | Ethan_Shook_11469438_Assignment4.cpp:92-122 | the top-level loop leaves the fields as Parser.CodeAnalysis |
| Machine.RunAnalysis | Ethan_Shook_11469438_Assignment4.cpp:79-89 | a fresh analyzer's records are Parser.Analyze's; the status is Parser.ExitCode's, and it is 0 exactly when nothing was recorded |

## Left out

- `main` (argument count, the banner, exit statuses 2 and 3, closing the stream) is
  process plumbing. Only the final mapping from the validity flag to status 0 or 1 is
  modelled (`Parser.ExitCode`, `Machine.RunAnalysis`).
- `GetFileContents` is file I/O. The source text is a `string` parameter, and
  `content.peek()` is a look at the next index.
- `PrintErrors`, and the printing paths of `Error` with codes 2 and 3, are console
  output. Messages are a `Diagnostics.Message` value; `Diagnostics.Text` gives each
  one's wording.
- `CreateLookups` builds a `std::map` at run time. The table is the constant function
  `Tokens.Lookup`, so nothing is built.
- The C library's `isalpha`, `isdigit` and `isspace` depend on the locale and on the
  sign of `char`. The model uses plain ASCII classes. The `EOF` character value is a
  separate end-of-input value (`Eof`), so a byte that equals `EOF` in the source is
  not modelled.
- `previousLexeme`, `outputSpaces` and the commented-out debug lines are unused by the
  code.
- The grammar theorems (`Grammar.*`, `Words.*`) cover texts written on one line, with
  one blank before each word. Other layouts are covered only by the general lexer
  lemmas, not by an acceptance theorem.
- The whole-text rejection theorems (`Rejections.*`, `Reports.*`) are stated for
  one-line texts, with the faulty construct producing the first record of the run.
  Later records are covered by the one-step lemmas and the per-step contracts only. A
  text that ends in a newline is covered only by the one-step lemma
  `Reports.SemicolonThenBlanks`.
- Parser.SyntacticAnalysis: like every `Parser` function, its own contract states only
  the step guarantees and the termination measure. Each branch is stated by a lemma:
  acceptance by the `Grammar` lemmas, and each error branch by a one-step lemma in
  `Reports` or `Rejections`. The `Parser` rows above name them.

## Findings

| source | as written | input that shows it | evidently intended | confidence | as-written member | corrected member |
|---|---|---|---|---|---|---|
| Ethan_Shook_11469438_Assignment4.cpp:373-380 | `GetNewLine` loops until `nextChar` is a newline, and `GetChar` at end of input keeps returning end of input | `while x < y` with no newline at the end of the file: the heading lacks `do`, so `WhileStatement` calls `GetNewLine` with no newline ahead and it never returns | stop at end of input as well as at a newline | not executed | Machine.Analyzer.GetNewLineAsWritten, LexerFacts.AsWrittenGetNewLineNeverExits | Lexer.GetNewLine, Machine.Analyzer.GetNewLine |
