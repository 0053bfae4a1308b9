// Token kinds of the DanC language, the fixed lookup table that maps spellings to
// kinds, and the list of comparison operators.

module Tokens {

  datatype Option<T> = None | Some(value: T)

  /** The token kinds. `Empty` is the empty token string the lexer leaves at end of
      input; `Unknown` is the UNKNOWN kind; the rest are the kinds the lookup table
      and the character-class rules assign. */
  datatype Token =
    | Empty | Ident | IntLit | Unknown
    | AssignOp | LesserOp | GreaterOp | EqualOp | NequalOp | LequalOp | GequalOp
    | AddOp | SubOp | MultOp | DivOp
    | KeyRead | KeyWrite | KeyWhile | KeyDo | KeyOd
    | LeftParen | RightParen | Semicolon

  /** The kinds that have one fixed spelling in the lookup table. */
  predicate IsFixed(t: Token) {
    !(t.Empty? || t.Ident? || t.IntLit? || t.Unknown?)
  }

  /** The spelling of each fixed kind, written independently of the table. */
  function Spelling(t: Token): string
    requires IsFixed(t)
  {
    match t
    case AssignOp => ":="
    case LesserOp => "<"
    case GreaterOp => ">"
    case EqualOp => "="
    case NequalOp => "<>"
    case LequalOp => "<="
    case GequalOp => ">="
    case AddOp => "+"
    case SubOp => "-"
    case MultOp => "*"
    case DivOp => "/"
    case KeyRead => "read"
    case KeyWrite => "write"
    case KeyWhile => "while"
    case KeyDo => "do"
    case KeyOd => "od"
    case LeftParen => "("
    case RightParen => ")"
    case Semicolon => ";"
  }

  /** The nineteen (spelling, kind) pairs CreateLookups inserts into the lookup table,
      in insertion order. */
  const Entries: seq<(string, Token)> := [
    (":=", AssignOp), ("<", LesserOp), (">", GreaterOp), ("=", EqualOp),
    ("<>", NequalOp), ("<=", LequalOp), (">=", GequalOp),
    ("+", AddOp), ("-", SubOp), ("*", MultOp), ("/", DivOp),
    ("read", KeyRead), ("write", KeyWrite), ("while", KeyWhile), ("do", KeyDo), ("od", KeyOd),
    ("(", LeftParen), (")", RightParen), (";", Semicolon)
  ]

  /** A probe of the lookup table: the kind stored under a spelling, or None when the
      spelling is not in the table. It is decided by length and characters; the lemma
      LookupIsTable shows it answers exactly as the table of Entries does. */
  function Lookup(w: string): (r: Option<Token>)
    ensures r.Some? ==> IsFixed(r.value) && Spelling(r.value) == w
  {
    if |w| == 1 then
      match w[0]
      case '<' => Some(LesserOp)
      case '>' => Some(GreaterOp)
      case '=' => Some(EqualOp)
      case '+' => Some(AddOp)
      case '-' => Some(SubOp)
      case '*' => Some(MultOp)
      case '/' => Some(DivOp)
      case '(' => Some(LeftParen)
      case ')' => Some(RightParen)
      case ';' => Some(Semicolon)
      case _ => None
    else if |w| == 2 then
      if w == ":=" then Some(AssignOp)
      else if w == "<>" then Some(NequalOp)
      else if w == "<=" then Some(LequalOp)
      else if w == ">=" then Some(GequalOp)
      else if w == "do" then Some(KeyDo)
      else if w == "od" then Some(KeyOd)
      else None
    else if w == "read" then Some(KeyRead)
    else if w == "write" then Some(KeyWrite)
    else if w == "while" then Some(KeyWhile)
    else None
  }

  /** The lookup result, or `otherwise` when the spelling is not in the table. */
  function LookupOr(w: string, otherwise: Token): Token {
    match Lookup(w)
    case Some(t) => t
    case None => otherwise
  }

  /** Lookup finds every inserted pair and nothing else: the table holds exactly the
      nineteen fixed spellings, each under its own kind. */
  lemma {:induction false} LookupIsTable()
    ensures |Entries| == 19
    ensures forall i :: 0 <= i < |Entries| ==> Lookup(Entries[i].0) == Some(Entries[i].1)
    ensures forall w :: Lookup(w).Some? ==> (w, Lookup(w).value) in Entries
  {
  }

  /** Every fixed kind is found under its spelling. */
  lemma {:induction false} LookupSpelling(t: Token)
    requires IsFixed(t)
    ensures Lookup(Spelling(t)) == Some(t)
  {
  }

  /** A spelling that begins with a letter or a digit is in the table only if it is one
      of the five keywords. */
  lemma {:induction false} LookupAlnum(w: string)
    requires |w| > 0 && ('0' <= w[0] <= '9' || 'a' <= w[0] <= 'z' || 'A' <= w[0] <= 'Z')
    ensures Lookup(w).Some? ==> Lookup(w).value in {KeyRead, KeyWrite, KeyWhile, KeyDo, KeyOd}
    ensures '0' <= w[0] <= '9' ==> Lookup(w) == None
  {
  }

  /** The comparison operators, in the order of the source's `comparisonOps` vector. */
  const ComparisonOps: seq<Token> := [LesserOp, GreaterOp, EqualOp, NequalOp, LequalOp, GequalOp]

  /** Membership of a kind in the comparison-operator list (a linear search in the source). */
  predicate IsComparisonOp(t: Token) {
    t in ComparisonOps
  }

  /** The comparison operators are exactly the fixed kinds whose spelling starts with a
      relation sign. */
  lemma {:induction false} ComparisonOpsAreRelations(t: Token)
    ensures IsComparisonOp(t) <==> IsFixed(t) && Spelling(t)[0] in {'<', '>', '='}
  {
  }
}
