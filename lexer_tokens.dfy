/**
  The values the tokenizer works with (Lexer.kt): locations, cursors, the
  keyword and symbol vocabularies, tokens and the result of one sub-lexer.
  Kotlin's `UInt` pointers and columns are `nat`: an input string holds fewer
  than 2^31 characters, so the unsigned arithmetic never wraps.
*/
module Tokens {
  import opened Wrappers

  datatype Location = Location(col: nat)

  datatype Keyword = SELECT | FROM | AS | TABLE | CREATE | INSERT | INTO | VALUES | INT | TEXT

  /** `Keyword.entries`, in declaration order. */
  const Keywords: seq<Keyword> := [SELECT, FROM, AS, TABLE, CREATE, INSERT, INTO, VALUES, INT, TEXT]

  /** The `value` of a keyword: its lowercase spelling. */
  function KeywordValue(k: Keyword): string {
    match k
    case SELECT => "select"
    case FROM => "from"
    case AS => "as"
    case TABLE => "table"
    case CREATE => "create"
    case INSERT => "insert"
    case INTO => "into"
    case VALUES => "values"
    case INT => "int"
    case TEXT => "text"
  }

  /** The name of the enum constant, which `Keyword.valueOf` looks up. */
  function KeywordName(k: Keyword): string {
    match k
    case SELECT => "SELECT"
    case FROM => "FROM"
    case AS => "AS"
    case TABLE => "TABLE"
    case CREATE => "CREATE"
    case INSERT => "INSERT"
    case INTO => "INTO"
    case VALUES => "VALUES"
    case INT => "INT"
    case TEXT => "TEXT"
  }

  /** The keyword values `KeywordLexer` matches against (`Keyword.entries.map { it.value.lowercase() }`). */
  const KeywordValues: seq<string> :=
    ["select", "from", "as", "table", "create", "insert", "into", "values", "int", "text"]

  /** `Keyword.valueOf(name)`; `None` where Kotlin throws IllegalArgumentException. */
  function KeywordNamed(name: string): (r: Option<Keyword>)
    ensures r.Some? ==> KeywordName(r.value) == name
    ensures forall k :: KeywordName(k) == name ==> r == Some(k)
  {
    if name == "SELECT" then Some(SELECT)
    else if name == "FROM" then Some(FROM)
    else if name == "AS" then Some(AS)
    else if name == "TABLE" then Some(TABLE)
    else if name == "CREATE" then Some(CREATE)
    else if name == "INSERT" then Some(INSERT)
    else if name == "INTO" then Some(INTO)
    else if name == "VALUES" then Some(VALUES)
    else if name == "INT" then Some(INT)
    else if name == "TEXT" then Some(TEXT)
    else None
  }

  datatype Symbol = SEMICOLON | ASTERISK | COMMA | LEFT_PAREN | RIGHT_PAREN

  function SymbolValue(s: Symbol): string {
    match s
    case SEMICOLON => ";"
    case ASTERISK => "*"
    case COMMA => ","
    case LEFT_PAREN => "("
    case RIGHT_PAREN => ")"
  }

  /** The characters `SymbolLexer` turns into a token (the first character of each symbol). */
  predicate IsSymbolChar(c: char) {
    c == ';' || c == '*' || c == ',' || c == '(' || c == ')'
  }

  /** The blanks `SymbolLexer` skips. */
  predicate IsBlank(c: char) { c == ' ' || c == '\t' }

  datatype TokenKind = KEYWORD | SYMBOL | IDENTIFIER | STRING | NUMERIC

  /** A token; Kotlin's data-class equality, like `==` here, compares value, kind and loc. */
  datatype Token = Token(value: string, kind: TokenKind, loc: Location)

  datatype Cursor = Cursor(pointer: nat, loc: Location)

  /** The cursor the tokenizer starts from. */
  const Start: Cursor := Cursor(0, Location(0))

  /** The driver keeps a cursor's column equal to its pointer. */
  predicate Aligned(c: Cursor) { c.loc.col == c.pointer }

  datatype LexerResult = Success(token: Token, cursor: Cursor) | Failure(cursor: Cursor)

  /**
    Which reading of the front end a run follows: the code as written, or the
    corrected behaviour where the code evidently misses its intent (string
    escapes in the lexer, the list delimiters in the parser).
  */
  datatype Build = AsWritten | Corrected
}
