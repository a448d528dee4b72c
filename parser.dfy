/**
  The parser (Parser.kt): it turns the tokenizer's tokens into SELECT and
  INSERT statements separated by semicolons. The recursive functions state
  what a parse produces; the methods `ParseComaSeparatedLiterals` and `Parse`
  are the loops of the Kotlin code, each proved equal to its function.

  Two exceptions escape `parse`: the tokenizer's RuntimeException and the
  NumberFormatException `String.toInt()` throws on a numeric token that is not
  an `Int`. Both are variants of `ParseOutcome`.
*/
module Parser {
  import Wrappers
  import opened Text
  import opened Tokens
  import opened Ast
  import SqlLexer

  // ---------------------------------------------------------------------
  // Expectations on the token at a cursor
  // ---------------------------------------------------------------------

  predicate ExpectSymbol(tokens: seq<Token>, cursor: nat, expected: Symbol) {
    cursor < |tokens| && tokens[cursor].kind == SYMBOL && tokens[cursor].value == SymbolValue(expected)
  }

  predicate ExpectSemicolon(tokens: seq<Token>, cursor: nat) {
    ExpectSymbol(tokens, cursor, SEMICOLON)
  }

  /**
    `expectKeyword`: the token is a keyword whose upper-cased value is the
    name of `expected`, which is what `Keyword.valueOf` compares
    (`ExpectKeywordIsValueOf`). Where `valueOf` would throw (a keyword token
    whose value names no keyword) the expectation is false; tokens from the
    tokenizer never reach that case (`ExpectKeywordOnKeywordValue`).
  */
  predicate ExpectKeyword(tokens: seq<Token>, cursor: nat, expected: Keyword) {
    cursor < |tokens| && tokens[cursor].kind == KEYWORD && ToUpper(tokens[cursor].value) == KeywordName(expected)
  }

  /** Comparing the upper-cased value with the keyword's name is comparing `Keyword.valueOf` of it with the keyword. */
  lemma ExpectKeywordIsValueOf(tokens: seq<Token>, cursor: nat, expected: Keyword)
    ensures ExpectKeyword(tokens, cursor, expected)
        <==> cursor < |tokens| && tokens[cursor].kind == KEYWORD
             && KeywordNamed(ToUpper(tokens[cursor].value)) == Wrappers.Some(expected)
  {
  }

  predicate ExpectIdentifier(tokens: seq<Token>, cursor: nat) {
    cursor < |tokens| && tokens[cursor].kind == IDENTIFIER
  }

  /** Every keyword value is one keyword's value. */
  lemma KeywordValueOf(v: string) returns (k: Keyword)
    requires v in KeywordValues
    ensures KeywordValue(k) == v
  {
    if v == "select" { k := SELECT; }
    else if v == "from" { k := FROM; }
    else if v == "as" { k := AS; }
    else if v == "table" { k := TABLE; }
    else if v == "create" { k := CREATE; }
    else if v == "insert" { k := INSERT; }
    else if v == "into" { k := INTO; }
    else if v == "values" { k := VALUES; }
    else if v == "int" { k := Keyword.INT; }
    else { k := Keyword.TEXT; }
  }

  /** Upper-casing a keyword's value gives the name `valueOf` looks up. */
  lemma KeywordValueUpper(k: Keyword)
    ensures ToUpper(KeywordValue(k)) == KeywordName(k)
  {
    var v := KeywordValue(k);
    var u := ToUpper(v);
    assert |u| == |KeywordName(k)|;
    forall i | 0 <= i < |u|
      ensures u[i] == KeywordName(k)[i]
    {
      assert u[i] == UpperChar(v[i]);
    }
  }

  /**
    On a token whose value is a keyword value (every keyword token of the
    tokenizer), `expectKeyword` holds exactly when the token is that keyword.
  */
  lemma ExpectKeywordOnKeywordValue(tokens: seq<Token>, cursor: nat, expected: Keyword)
    requires cursor < |tokens| && tokens[cursor].value in KeywordValues
    ensures ExpectKeyword(tokens, cursor, expected)
        <==> tokens[cursor].kind == KEYWORD && tokens[cursor].value == KeywordValue(expected)
  {
    var k := KeywordValueOf(tokens[cursor].value);
    KeywordValueUpper(k);
    KeywordValueUpper(expected);
    if KeywordName(expected) == KeywordName(k) {
      assert KeywordNamed(KeywordName(k)) == Wrappers.Some(k);
    }
  }

  // ---------------------------------------------------------------------
  // Comma-separated literals
  // ---------------------------------------------------------------------

  /** Why `parseComaSeparatedLiterals` gave up (its message, as data). */
  datatype LiteralsError = UnexpectedEndOfTokens | UnexpectedToken(token: Token)

  datatype ParsingLiteralsResult =
    | Literals(literals: seq<Literal>, cursor: nat)
    | LiteralsFailure(error: LiteralsError)
    | LiteralsNumberFormatException(text: string)

  /**
    The test that ends a literal list. As written, `tokens[cursor] != endDelimiter`
    compares whole tokens, the location included; the corrected test compares
    value and kind.
  */
  predicate IsDelimiter(build: Build, t: Token, endDelimiter: Token) {
    match build
    case AsWritten => t == endDelimiter
    case Corrected => t.value == endDelimiter.value && t.kind == endDelimiter.kind
  }

  /** The delimiter of a select's column list, located at column 0. */
  const FromDelimiter: Token := Token(KeywordValue(FROM), KEYWORD, Location(0))

  /** The delimiter of an insert's value list, located at column 0. */
  const RightParenDelimiter: Token := Token(SymbolValue(RIGHT_PAREN), SYMBOL, Location(0))

  /** How one token of a literal list is read. */
  datatype LiteralReading = Read(literal: Literal) | Rejected | NotAnInt

  function ReadLiteral(t: Token, allowIdentifiers: bool): (r: LiteralReading)
    ensures t.kind == KEYWORD || t.kind == SYMBOL ==> r == Rejected
    ensures r == NotAnInt <==> t.kind == NUMERIC && ParseInt(t.value).None?
    ensures r.Read? && r.literal.IdentifierLiteral? ==> allowIdentifiers
  {
    match t.kind
    case STRING => Read(StringLiteral(t.value))
    case NUMERIC =>
      (match ParseInt(t.value)
       case Some(n) => Read(IntLiteral(n))
       case None => NotAnInt)
    case IDENTIFIER => if allowIdentifiers then Read(IdentifierLiteral(t.value)) else Rejected
    case _ => Rejected
  }

  /** What each kind of token reads as. */
  lemma ReadLiteralKinds(t: Token, allowIdentifiers: bool)
    ensures t.kind == STRING ==> ReadLiteral(t, allowIdentifiers) == Read(StringLiteral(t.value))
    ensures t.kind == NUMERIC && ReadLiteral(t, allowIdentifiers).Read? ==>
      var l := ReadLiteral(t, allowIdentifiers).literal;
      l.IntLiteral? && ParseInt(t.value) == Wrappers.Some(l.n)
    ensures t.kind == IDENTIFIER && allowIdentifiers ==> ReadLiteral(t, allowIdentifiers) == Read(IdentifierLiteral(t.value))
  {
  }

  predicate IsComma(t: Token) { t.kind == SYMBOL && t.value == SymbolValue(COMMA) }

  /** The tokens that are not commas, in order. */
  function NonCommas(ts: seq<Token>): (r: seq<Token>)
    ensures |r| <= |ts|
  {
    if ts == [] then [] else (if IsComma(ts[0]) then [] else [ts[0]]) + NonCommas(ts[1..])
  }

  /** `literals` are the literals the tokens `ts` spell, one per token that is not a comma. */
  predicate Spells(ts: seq<Token>, allowIdentifiers: bool, literals: seq<Literal>) {
    var vs := NonCommas(ts);
    |vs| == |literals| && forall i :: 0 <= i < |vs| ==> ReadLiteral(vs[i], allowIdentifiers) == Read(literals[i])
  }

  /** The loop of `parseComaSeparatedLiterals` from `cursor` on. */
  function ListFrom(build: Build, tokens: seq<Token>, cursor: nat, allowIdentifiers: bool, endDelimiter: Token): (r: ParsingLiteralsResult)
    requires cursor <= |tokens|
    ensures r.Literals? ==> cursor <= r.cursor <= |tokens|
    ensures r.Literals? ==> r.cursor == |tokens| || IsDelimiter(build, tokens[r.cursor], endDelimiter)
    ensures r.LiteralsFailure? ==> r.error.UnexpectedToken?
    ensures r.LiteralsNumberFormatException? ==> ParseInt(r.text).None?
    decreases |tokens| - cursor
  {
    if cursor == |tokens| || IsDelimiter(build, tokens[cursor], endDelimiter) then Literals([], cursor)
    else
      var t := tokens[cursor];
      var next := if ExpectSymbol(tokens, cursor + 1, COMMA) then cursor + 2 else cursor + 1;
      match ReadLiteral(t, allowIdentifiers)
      case Rejected => LiteralsFailure(UnexpectedToken(t))
      case NotAnInt => LiteralsNumberFormatException(t.value)
      case Read(l) =>
        var rest := ListFrom(build, tokens, next, allowIdentifiers, endDelimiter);
        if rest.Literals? then Literals([l] + rest.literals, rest.cursor) else rest
  }

  /** A list that fails names one of its own tokens. */
  lemma {:induction false} ListFromFailureToken(build: Build, tokens: seq<Token>, cursor: nat, allowIdentifiers: bool, endDelimiter: Token)
    requires cursor <= |tokens|
    ensures var r := ListFrom(build, tokens, cursor, allowIdentifiers, endDelimiter);
      r.LiteralsFailure? ==> r.error.token in tokens[cursor..]
    decreases |tokens| - cursor
  {
    var r := ListFrom(build, tokens, cursor, allowIdentifiers, endDelimiter);
    if r.LiteralsFailure? && ReadLiteral(tokens[cursor], allowIdentifiers).Read? {
      var next := if ExpectSymbol(tokens, cursor + 1, COMMA) then cursor + 2 else cursor + 1;
      assert r == ListFrom(build, tokens, next, allowIdentifiers, endDelimiter);
      ListFromFailureToken(build, tokens, next, allowIdentifiers, endDelimiter);
      assert tokens[next..] == tokens[cursor..][next - cursor..];
    }
  }

  /** `parseComaSeparatedLiterals`: a list needs at least one token to start from. */
  function ParseLiterals(build: Build, tokens: seq<Token>, initialCursor: nat, allowIdentifiers: bool, endDelimiter: Token): (r: ParsingLiteralsResult)
    ensures initialCursor >= |tokens| <==> r == LiteralsFailure(UnexpectedEndOfTokens)
    ensures r.Literals? ==> initialCursor <= r.cursor <= |tokens|
    ensures r.Literals? ==> r.cursor == |tokens| || IsDelimiter(build, tokens[r.cursor], endDelimiter)
  {
    if initialCursor >= |tokens| then LiteralsFailure(UnexpectedEndOfTokens)
    else ListFrom(build, tokens, initialCursor, allowIdentifiers, endDelimiter)
  }

  /** Skipping a literal token and the comma after it drops one token that is not a comma. */
  lemma NonCommasAfterLiteral(tokens: seq<Token>, cursor: nat, next: nat, end: nat)
    requires cursor < next <= end <= |tokens| && !IsComma(tokens[cursor])
    requires next == cursor + 1 || (next == cursor + 2 && IsComma(tokens[cursor + 1]))
    ensures NonCommas(tokens[cursor..end]) == [tokens[cursor]] + NonCommas(tokens[next..end])
  {
    assert tokens[cursor..end][1..] == tokens[cursor + 1..end];
    if next == cursor + 2 {
      assert tokens[cursor + 1..end][1..] == tokens[next..end];
    }
  }

  /** A literal token in front of a list spells its literal in front of the list's. */
  lemma SpellsCons(ts: seq<Token>, tail: seq<Token>, t: Token, allowIdentifiers: bool, l: Literal, literals: seq<Literal>)
    requires NonCommas(ts) == [t] + NonCommas(tail)
    requires ReadLiteral(t, allowIdentifiers) == Read(l) && Spells(tail, allowIdentifiers, literals)
    ensures Spells(ts, allowIdentifiers, [l] + literals)
  {
    var vs := NonCommas(ts);
    forall i | 0 <= i < |vs|
      ensures ReadLiteral(vs[i], allowIdentifiers) == Read(([l] + literals)[i])
    {
      if i > 0 {
        assert vs[i] == NonCommas(tail)[i - 1];
      }
    }
  }

  /** The literals of a successful list are those its tokens spell, in token order. */
  lemma {:induction false} ListFromSpells(build: Build, tokens: seq<Token>, cursor: nat, allowIdentifiers: bool, endDelimiter: Token)
    requires cursor <= |tokens|
    ensures var r := ListFrom(build, tokens, cursor, allowIdentifiers, endDelimiter);
      r.Literals? ==> Spells(tokens[cursor..r.cursor], allowIdentifiers, r.literals)
    decreases |tokens| - cursor
  {
    var r := ListFrom(build, tokens, cursor, allowIdentifiers, endDelimiter);
    if cursor == |tokens| || IsDelimiter(build, tokens[cursor], endDelimiter) {
      assert tokens[cursor..r.cursor] == [];
    } else if r.Literals? {
      var t := tokens[cursor];
      var next := if ExpectSymbol(tokens, cursor + 1, COMMA) then cursor + 2 else cursor + 1;
      var l := ReadLiteral(t, allowIdentifiers).literal;
      var rest := ListFrom(build, tokens, next, allowIdentifiers, endDelimiter);
      ListFromSpells(build, tokens, next, allowIdentifiers, endDelimiter);
      NonCommasAfterLiteral(tokens, cursor, next, r.cursor);
      SpellsCons(tokens[cursor..r.cursor], tokens[next..r.cursor], t, allowIdentifiers, l, rest.literals);
    }
  }

  /** `result` put in front of the literals of a list that succeeds. */
  function PrefixLiterals(result: seq<Literal>, r: ParsingLiteralsResult): ParsingLiteralsResult {
    if r.Literals? then Literals(result + r.literals, r.cursor) else r
  }

  /** One literal read: the list from `cursor` is that literal, then the list after it and its comma. */
  lemma ListFromStep(build: Build, tokens: seq<Token>, cursor: nat, allowIdentifiers: bool, endDelimiter: Token,
                     result: seq<Literal>, l: Literal)
    requires cursor < |tokens| && !IsDelimiter(build, tokens[cursor], endDelimiter)
    requires ReadLiteral(tokens[cursor], allowIdentifiers) == Read(l)
    ensures var next := if ExpectSymbol(tokens, cursor + 1, COMMA) then cursor + 2 else cursor + 1;
      PrefixLiterals(result, ListFrom(build, tokens, cursor, allowIdentifiers, endDelimiter))
      == PrefixLiterals(result + [l], ListFrom(build, tokens, next, allowIdentifiers, endDelimiter))
  {
    var next := if ExpectSymbol(tokens, cursor + 1, COMMA) then cursor + 2 else cursor + 1;
    var rest := ListFrom(build, tokens, next, allowIdentifiers, endDelimiter);
    if rest.Literals? {
      assert result + ([l] + rest.literals) == (result + [l]) + rest.literals;
    }
  }

  /** A token that does not read as a literal ends the list with its error. */
  lemma ListFromStops(build: Build, tokens: seq<Token>, cursor: nat, allowIdentifiers: bool, endDelimiter: Token)
    requires cursor < |tokens| && !IsDelimiter(build, tokens[cursor], endDelimiter)
    requires !ReadLiteral(tokens[cursor], allowIdentifiers).Read?
    ensures ListFrom(build, tokens, cursor, allowIdentifiers, endDelimiter)
         == if ReadLiteral(tokens[cursor], allowIdentifiers) == NotAnInt then LiteralsNumberFormatException(tokens[cursor].value)
            else LiteralsFailure(UnexpectedToken(tokens[cursor]))
  {
  }

  /** `parseComaSeparatedLiterals`, with its loop. */
  method ParseComaSeparatedLiterals(build: Build, tokens: seq<Token>, initialCursor: nat, allowIdentifiers: bool, endDelimiter: Token)
    returns (r: ParsingLiteralsResult)
    ensures r == ParseLiterals(build, tokens, initialCursor, allowIdentifiers, endDelimiter)
  {
    if initialCursor >= |tokens| {
      return LiteralsFailure(UnexpectedEndOfTokens);
    }
    var cursor := initialCursor;
    var result: seq<Literal> := [];
    while cursor < |tokens| && !IsDelimiter(build, tokens[cursor], endDelimiter)
      invariant initialCursor <= cursor <= |tokens|
      invariant ListFrom(build, tokens, initialCursor, allowIdentifiers, endDelimiter)
        == PrefixLiterals(result, ListFrom(build, tokens, cursor, allowIdentifiers, endDelimiter))
      decreases |tokens| - cursor
    {
      var currentToken := tokens[cursor];
      ReadLiteralKinds(currentToken, allowIdentifiers);
      var literal: Literal;
      match currentToken.kind {
        case STRING =>
          literal := StringLiteral(currentToken.value);
        case NUMERIC =>
          var n := ParseInt(currentToken.value);
          if n.None? {
            ListFromStops(build, tokens, cursor, allowIdentifiers, endDelimiter);
            return LiteralsNumberFormatException(currentToken.value);
          }
          literal := IntLiteral(n.value);
        case IDENTIFIER =>
          if !allowIdentifiers {
            ListFromStops(build, tokens, cursor, allowIdentifiers, endDelimiter);
            return LiteralsFailure(UnexpectedToken(currentToken));
          }
          literal := IdentifierLiteral(currentToken.value);
        case _ =>
          ListFromStops(build, tokens, cursor, allowIdentifiers, endDelimiter);
          return LiteralsFailure(UnexpectedToken(currentToken));
      }
      ListFromStep(build, tokens, cursor, allowIdentifiers, endDelimiter, result, literal);
      result := result + [literal];
      cursor := cursor + 1;
      if ExpectSymbol(tokens, cursor, COMMA) {
        cursor := cursor + 1;
      }
    }
    assert ListFrom(build, tokens, cursor, allowIdentifiers, endDelimiter) == Literals([], cursor);
    assert result + [] == result;
    return Literals(result, cursor);
  }

  // ---------------------------------------------------------------------
  // Statements
  // ---------------------------------------------------------------------

  datatype ParsingStatementResult =
    | Parsed(statement: Statement, cursor: nat)
    | NotParsed
    | StatementNumberFormatException(text: string)

  /** `parseSelectStatement`: SELECT, a literal list ended by FROM, FROM, a table name. */
  function ParseSelect(build: Build, tokens: seq<Token>, initialCursor: nat): (r: ParsingStatementResult)
    ensures !ExpectKeyword(tokens, initialCursor, SELECT) ==> r == NotParsed
    ensures r.Parsed? ==> initialCursor + 3 <= r.cursor <= |tokens| && r.statement.SelectStatement?
    ensures r.Parsed? ==>
      && ExpectKeyword(tokens, r.cursor - 2, FROM)
      && ExpectIdentifier(tokens, r.cursor - 1)
      && r.statement.tableName == tokens[r.cursor - 1].value
      && Spells(tokens[initialCursor + 1..r.cursor - 2], true, r.statement.columns)
    ensures r.StatementNumberFormatException? ==> ParseInt(r.text).None?
  {
    if !ExpectKeyword(tokens, initialCursor, SELECT) then NotParsed
    else
      match ParseLiterals(build, tokens, initialCursor + 1, true, FromDelimiter)
      case LiteralsNumberFormatException(text) => StatementNumberFormatException(text)
      case LiteralsFailure(_) => NotParsed
      case Literals(columns, cursor) =>
        if !ExpectKeyword(tokens, cursor, FROM) then NotParsed
        else if !ExpectIdentifier(tokens, cursor + 1) then NotParsed
        else
          ListFromSpells(build, tokens, initialCursor + 1, true, FromDelimiter);
          Parsed(SelectStatement(columns, tokens[cursor + 1].value), cursor + 2)
  }

  /** INSERT INTO, a table name, VALUES and `(`, from `cursor` on. */
  predicate InsertHead(tokens: seq<Token>, cursor: nat) {
    && ExpectKeyword(tokens, cursor, INSERT)
    && ExpectKeyword(tokens, cursor + 1, INTO)
    && ExpectIdentifier(tokens, cursor + 2)
    && ExpectKeyword(tokens, cursor + 3, VALUES)
    && ExpectSymbol(tokens, cursor + 4, LEFT_PAREN)
  }

  /**
    `parseInsertStatement`: INSERT INTO, a table name, VALUES, `(`, a literal
    list without identifiers ended by `)`, `)`. The five checks of the head
    fail alike, so they are checked together.
  */
  function ParseInsert(build: Build, tokens: seq<Token>, initialCursor: nat): (r: ParsingStatementResult)
    ensures !ExpectKeyword(tokens, initialCursor, INSERT) ==> r == NotParsed
    ensures r.Parsed? ==> initialCursor + 6 <= r.cursor <= |tokens| && r.statement.InsertStatement?
    ensures r.Parsed? ==>
      && InsertHead(tokens, initialCursor)
      && r.statement.tableName == tokens[initialCursor + 2].value
      && ExpectSymbol(tokens, r.cursor - 1, RIGHT_PAREN)
      && Spells(tokens[initialCursor + 5..r.cursor - 1], false, r.statement.values)
    ensures r.StatementNumberFormatException? ==> ParseInt(r.text).None?
  {
    if !InsertHead(tokens, initialCursor) then NotParsed
    else
      match ParseLiterals(build, tokens, initialCursor + 5, false, RightParenDelimiter)
      case LiteralsNumberFormatException(text) => StatementNumberFormatException(text)
      case LiteralsFailure(_) => NotParsed
      case Literals(values, cursor) =>
        if !ExpectSymbol(tokens, cursor, RIGHT_PAREN) then NotParsed
        else
          ListFromSpells(build, tokens, initialCursor + 5, false, RightParenDelimiter);
          Parsed(InsertStatement(tokens[initialCursor + 2].value, values), cursor + 1)
  }

  /** The literals a list spells without identifiers hold no identifier. */
  lemma SpellsNoIdentifiers(ts: seq<Token>, literals: seq<Literal>)
    requires Spells(ts, false, literals)
    ensures forall i :: 0 <= i < |literals| ==> !literals[i].IdentifierLiteral?
  {
    var vs := NonCommas(ts);
    forall i | 0 <= i < |literals|
      ensures !literals[i].IdentifierLiteral?
    {
      assert ReadLiteral(vs[i], false) == Read(literals[i]);
    }
  }

  /** `parseCreateStatement` recognises nothing. */
  function ParseCreate(tokens: seq<Token>, cursor: nat): ParsingStatementResult {
    NotParsed
  }

  /**
    `parseStatement`: a select, else an insert, else a create. A
    NumberFormatException thrown while trying a select escapes before the
    insert is tried.
  */
  function ParseStatement(build: Build, tokens: seq<Token>, cursor: nat): (r: ParsingStatementResult)
    ensures r.Parsed? ==> cursor < r.cursor <= |tokens|
    ensures r.Parsed? ==> r.statement.SelectStatement? || r.statement.InsertStatement?
    ensures r.Parsed? && r.statement.SelectStatement? ==> r == ParseSelect(build, tokens, cursor)
    ensures r.Parsed? && r.statement.InsertStatement? ==>
      r == ParseInsert(build, tokens, cursor) && ParseSelect(build, tokens, cursor) == NotParsed
    ensures r.StatementNumberFormatException? ==> ParseInt(r.text).None?
  {
    var select := ParseSelect(build, tokens, cursor);
    if !select.NotParsed? then select
    else
      var insert := ParseInsert(build, tokens, cursor);
      if !insert.NotParsed? then insert
      else
        var create := ParseCreate(tokens, cursor);
        if create.Parsed? then create else NotParsed
  }

  /**
    `parseStatement` returns the select's result unless the select is not
    parsed, and then the insert's: the first of them that parses or throws.
  */
  lemma ParseStatementFirst(build: Build, tokens: seq<Token>, cursor: nat)
    ensures var r := ParseStatement(build, tokens, cursor);
      && (!ParseSelect(build, tokens, cursor).NotParsed? ==> r == ParseSelect(build, tokens, cursor))
      && (ParseSelect(build, tokens, cursor).NotParsed? ==> r == ParseInsert(build, tokens, cursor))
  {
  }

  // ---------------------------------------------------------------------
  // The statement loop
  // ---------------------------------------------------------------------

  /** The end of the run of semicolons that starts at `cursor`. */
  function SkipSemicolons(tokens: seq<Token>, cursor: nat): (r: nat)
    requires cursor <= |tokens|
    ensures cursor <= r <= |tokens| && !ExpectSemicolon(tokens, r)
    ensures forall k :: cursor <= k < r ==> ExpectSemicolon(tokens, k)
    decreases |tokens| - cursor
  {
    if ExpectSemicolon(tokens, cursor) then SkipSemicolons(tokens, cursor + 1) else cursor
  }

  /** The statements from `cursor` on: all of them, or a batch `parse` abandons, or the exception it throws. */
  datatype Batch = Complete(statements: seq<Statement>) | Abandoned | BatchNumberFormatException(text: string)

  function StatementsFrom(build: Build, tokens: seq<Token>, cursor: nat): (r: Batch)
    requires cursor <= |tokens|
    ensures r.Complete? ==> forall s :: s in r.statements ==> s.SelectStatement? || s.InsertStatement?
    ensures r.Complete? && cursor < |tokens| ==> ExpectSemicolon(tokens, |tokens| - 1)
    ensures r.BatchNumberFormatException? ==> ParseInt(r.text).None?
    decreases |tokens| - cursor
  {
    if cursor == |tokens| then Complete([])
    else
      match ParseStatement(build, tokens, cursor)
      case StatementNumberFormatException(text) => BatchNumberFormatException(text)
      case NotParsed => Abandoned
      case Parsed(statement, next) =>
        var after := SkipSemicolons(tokens, next);
        if after == next then Abandoned
        else
          var rest := StatementsFrom(build, tokens, after);
          assert rest.Complete? && after == |tokens| ==> ExpectSemicolon(tokens, after - 1);
          if rest.Complete? then Complete([statement] + rest.statements) else rest
  }

  /**
    One round of the statement loop: a statement that fails or that no `;`
    follows abandons the batch, and a parsed statement stands in front of
    the statements after its semicolons.
  */
  lemma StatementsFromStep(build: Build, tokens: seq<Token>, cursor: nat)
    requires cursor < |tokens|
    ensures var p := ParseStatement(build, tokens, cursor);
      && (p.NotParsed? ==> StatementsFrom(build, tokens, cursor) == Abandoned)
      && (p.StatementNumberFormatException? ==> StatementsFrom(build, tokens, cursor) == BatchNumberFormatException(p.text))
      && (p.Parsed? && SkipSemicolons(tokens, p.cursor) == p.cursor ==> StatementsFrom(build, tokens, cursor) == Abandoned)
      && (p.Parsed? && SkipSemicolons(tokens, p.cursor) != p.cursor ==>
            StatementsFrom(build, tokens, cursor) == PrefixBatch([p.statement], StatementsFrom(build, tokens, SkipSemicolons(tokens, p.cursor))))
  {
  }

  datatype ParseOutcome =
    | Statements(statements: seq<Statement>)
    | RuntimeException(position: nat)
    | NumberFormatException(text: string)

  /**
    The parse of a token list: every statement when each is followed by at
    least one semicolon, no statement at all when one of them fails.
  */
  function ParseTokens(build: Build, tokens: seq<Token>): (r: ParseOutcome)
    ensures r.Statements? ==> forall s :: s in r.statements ==> s.SelectStatement? || s.InsertStatement?
    ensures r.Statements? && r.statements != [] ==> |tokens| > 0 && ExpectSemicolon(tokens, |tokens| - 1)
    ensures r.NumberFormatException? ==> ParseInt(r.text).None?
    ensures !r.RuntimeException?
  {
    match StatementsFrom(build, tokens, 0)
    case Complete(statements) => Statements(statements)
    case Abandoned => Statements([])
    case BatchNumberFormatException(text) => NumberFormatException(text)
  }

  /** `parse(input)`: tokenize, then parse the tokens. */
  function ParseText(build: Build, input: string): ParseOutcome {
    var lexed := SqlLexer.Tokenize(build, input);
    if lexed.RuntimeException? then RuntimeException(lexed.position) else ParseTokens(build, lexed.tokens)
  }

  /** `statements` put in front of a batch that completes. */
  function PrefixBatch(statements: seq<Statement>, b: Batch): Batch {
    if b.Complete? then Complete(statements + b.statements) else b
  }

  /** A statement parsed and followed by semicolons: the batch goes on after them. */
  lemma StatementsStep(build: Build, tokens: seq<Token>, cursor: nat, result: seq<Statement>)
    requires cursor < |tokens| && ParseStatement(build, tokens, cursor).Parsed?
    ensures var p := ParseStatement(build, tokens, cursor);
      var after := SkipSemicolons(tokens, p.cursor);
      PrefixBatch(result, StatementsFrom(build, tokens, cursor))
      == if after == p.cursor then Abandoned
         else PrefixBatch(result + [p.statement], StatementsFrom(build, tokens, after))
  {
    var p := ParseStatement(build, tokens, cursor);
    var after := SkipSemicolons(tokens, p.cursor);
    if after != p.cursor {
      var rest := StatementsFrom(build, tokens, after);
      if rest.Complete? {
        assert result + ([p.statement] + rest.statements) == (result + [p.statement]) + rest.statements;
      }
    }
  }

  /** The statement loop of `Parser.parse`, over the tokens of the input. */
  method ParseStatements(build: Build, tokens: seq<Token>) returns (r: ParseOutcome)
    ensures r == ParseTokens(build, tokens)
  {
    var result: seq<Statement> := [];
    var cursor := 0;
    while cursor < |tokens|
      invariant cursor <= |tokens|
      invariant StatementsFrom(build, tokens, 0) == PrefixBatch(result, StatementsFrom(build, tokens, cursor))
      decreases |tokens| - cursor
    {
      var statement := ParseStatement(build, tokens, cursor);
      match statement {
        case StatementNumberFormatException(text) =>
          return NumberFormatException(text);
        case NotParsed =>
          return Statements([]);
        case Parsed(s, next) =>
          ghost var cursor0, result0 := cursor, result;
          cursor := next;
          result := result + [s];
          var atLeastOneSemicolon := false;
          while ExpectSemicolon(tokens, cursor)
            invariant next <= cursor <= |tokens|
            invariant SkipSemicolons(tokens, cursor) == SkipSemicolons(tokens, next)
            invariant atLeastOneSemicolon <==> cursor > next
            decreases |tokens| - cursor
          {
            atLeastOneSemicolon := true;
            cursor := cursor + 1;
          }
          StatementsStep(build, tokens, cursor0, result0);
          if !atLeastOneSemicolon {
            return Statements([]);
          }
      }
    }
    assert StatementsFrom(build, tokens, cursor) == Complete([]);
    assert result + [] == result;
    return Statements(result);
  }

  /** `Parser.parse`: tokenize, then parse the statements. */
  method Parse(build: Build, input: string) returns (r: ParseOutcome)
    ensures r == ParseText(build, input)
  {
    var lexed := SqlLexer.Lex(build, input);
    if lexed.RuntimeException? {
      return RuntimeException(lexed.position);
    }
    r := ParseStatements(build, lexed.tokens);
  }
}

/**
  What the parser makes of the tokenizer's output, as written and corrected.
  The literal lists of a select and an insert end at a delimiter token built
  at column 0; as written, a token only ends the list when it equals the
  delimiter location included, and only the first token of a tokenized input
  stands at column 0.
*/
module ParserDelimiters {
  import opened Text
  import opened Tokens
  import opened Ast
  import opened Parser
  import SqlLexer

  /** Tokens past the first stand at a column other than 0, as in every tokenized input. */
  predicate LaterColumnsNonZero(tokens: seq<Token>) {
    forall i :: 1 <= i < |tokens| ==> tokens[i].loc.col != 0
  }

  /** As written, no statement parses from tokens whose later columns are not 0. */
  lemma AsWrittenStatementFails(tokens: seq<Token>, cursor: nat)
    requires LaterColumnsNonZero(tokens)
    ensures !ParseStatement(AsWritten, tokens, cursor).Parsed?
  {
  }

  /** As written, such tokens parse to no statement, or the parse throws. */
  lemma AsWrittenParsesNothing(tokens: seq<Token>)
    requires LaterColumnsNonZero(tokens)
    ensures ParseTokens(AsWritten, tokens) == Statements([]) || ParseTokens(AsWritten, tokens).NumberFormatException?
  {
    if |tokens| > 0 {
      AsWrittenStatementFails(tokens, 0);
    }
  }

  /** Tokenized input has its later tokens past column 0. */
  lemma TokenizedColumns(build: Build, input: string)
    requires SqlLexer.Tokenize(build, input).Lexed?
    ensures LaterColumnsNonZero(SqlLexer.Tokenize(build, input).tokens)
  {
    var tokens := SqlLexer.Tokenize(build, input).tokens;
    forall i | 1 <= i < |tokens|
      ensures tokens[i].loc.col != 0
    {
      assert tokens[0].loc.col < tokens[i].loc.col;
    }
  }

  /** As written, `parse` returns no statement for any input (or throws). */
  lemma AsWrittenParsesNoText(input: string)
    ensures ParseText(AsWritten, input).Statements? ==> ParseText(AsWritten, input).statements == []
  {
    if SqlLexer.Tokenize(AsWritten, input).Lexed? {
      TokenizedColumns(AsWritten, input);
      AsWrittenParsesNothing(SqlLexer.Tokenize(AsWritten, input).tokens);
    }
  }

  // Rendering statements as tokens

  /** The token of a literal, at `loc`. */
  function LiteralToken(l: Literal, loc: Location): Token {
    match l
    case IntLiteral(n) => Token(IntToDecimal(n), NUMERIC, loc)
    case StringLiteral(s) => Token(s, STRING, loc)
    case IdentifierLiteral(name) => Token(name, IDENTIFIER, loc)
  }

  const Comma: Token := Token(SymbolValue(COMMA), SYMBOL, Location(0))

  /** Literal tokens separated by commas. */
  function ListTokens(literals: seq<Literal>, loc: Location): seq<Token> {
    if literals == [] then []
    else if |literals| == 1 then [LiteralToken(literals[0], loc)]
    else [LiteralToken(literals[0], loc), Comma] + ListTokens(literals[1..], loc)
  }

  predicate NoIdentifiers(literals: seq<Literal>) {
    forall i :: 0 <= i < |literals| ==> !literals[i].IdentifierLiteral?
  }

  /** A literal's token reads back as the literal. */
  lemma ReadLiteralToken(l: Literal, loc: Location, allowIdentifiers: bool)
    requires allowIdentifiers || !l.IdentifierLiteral?
    ensures ReadLiteral(LiteralToken(l, loc), allowIdentifiers) == Read(l)
  {
    if l.IntLiteral? {
      ParseIntOfDecimal(l.n);
    }
  }

  /**
    The tokens of `literals` stand at `cursor`, and either the tokens end
    there or a token follows that the delimiter test of `build` takes for
    the delimiter.
  */
  predicate ListAt(build: Build, tokens: seq<Token>, cursor: nat, literals: seq<Literal>, loc: Location, endDelimiter: Token) {
    var end := cursor + |ListTokens(literals, loc)|;
    && end <= |tokens|
    && tokens[cursor..end] == ListTokens(literals, loc)
    && (end < |tokens| ==> IsDelimiter(build, tokens[end], endDelimiter) && !IsComma(tokens[end]))
  }

  /** The tokens of a list of two or more literals: the first, a comma, then the tokens of the rest. */
  lemma ListTokensTail(build: Build, tokens: seq<Token>, cursor: nat, literals: seq<Literal>, loc: Location, allowIdentifiers: bool, endDelimiter: Token)
    requires |literals| >= 2 && (allowIdentifiers || NoIdentifiers(literals))
    requires ListAt(build, tokens, cursor, literals, loc, endDelimiter)
    ensures allowIdentifiers || NoIdentifiers(literals[1..])
    ensures |ListTokens(literals, loc)| == |ListTokens(literals[1..], loc)| + 2
    ensures tokens[cursor + 1] == Comma
    ensures ListAt(build, tokens, cursor + 2, literals[1..], loc, endDelimiter)
  {
    var lt := ListTokens(literals, loc);
    var rest := ListTokens(literals[1..], loc);
    assert lt == [LiteralToken(literals[0], loc), Comma] + rest;
    assert tokens[cursor + 1] == lt[1];
    assert tokens[cursor + 2..cursor + 2 + |rest|] == lt[2..];
    if !allowIdentifiers {
      forall i | 0 <= i < |literals| - 1 ensures literals[1..][i] == literals[i + 1] { }
    }
  }

  /** The first token of a list's tokens is its first literal's token, and is no delimiter. */
  lemma ListTokensHead(build: Build, tokens: seq<Token>, cursor: nat, literals: seq<Literal>, loc: Location, endDelimiter: Token)
    requires literals != [] && ListAt(build, tokens, cursor, literals, loc, endDelimiter)
    requires endDelimiter.kind == KEYWORD || endDelimiter.kind == SYMBOL
    ensures cursor < |tokens| && tokens[cursor] == LiteralToken(literals[0], loc)
    ensures !IsDelimiter(build, tokens[cursor], endDelimiter)
    ensures |literals| == 1 ==> !ExpectSymbol(tokens, cursor + 1, COMMA)
  {
    var lt := ListTokens(literals, loc);
    assert tokens[cursor] == tokens[cursor..cursor + |lt|][0];
    if |literals| == 1 && cursor + 1 < |tokens| {
      assert tokens[cursor + 1] == tokens[cursor + |lt|];
    }
  }

  /**
    Under either delimiter test, the tokens of a literal list standing at
    `cursor` read back as the list, the cursor on the token after them,
    whether the tokens end there or a delimiter follows.
  */
  lemma {:induction false} ListRoundTrip(build: Build, tokens: seq<Token>, cursor: nat, literals: seq<Literal>, loc: Location,
                                         allowIdentifiers: bool, endDelimiter: Token)
    requires allowIdentifiers || NoIdentifiers(literals)
    requires endDelimiter.kind == KEYWORD || endDelimiter.kind == SYMBOL
    requires ListAt(build, tokens, cursor, literals, loc, endDelimiter)
    ensures ListFrom(build, tokens, cursor, allowIdentifiers, endDelimiter)
         == Literals(literals, cursor + |ListTokens(literals, loc)|)
    decreases |literals|
  {
    if literals != [] {
      ListTokensHead(build, tokens, cursor, literals, loc, endDelimiter);
      ReadLiteralToken(literals[0], loc, allowIdentifiers);
      ListFromStep(build, tokens, cursor, allowIdentifiers, endDelimiter, [], literals[0]);
      if |literals| == 1 {
        assert ListFrom(build, tokens, cursor + 1, allowIdentifiers, endDelimiter) == Literals([], cursor + 1);
      } else {
        ListTokensTail(build, tokens, cursor, literals, loc, allowIdentifiers, endDelimiter);
        ListRoundTrip(build, tokens, cursor + 2, literals[1..], loc, allowIdentifiers, endDelimiter);
        assert literals == [literals[0]] + literals[1..];
      }
    }
  }

  /**
    A list whose tokens run to the end, with no delimiter after them, still
    reads as the whole list under either delimiter test.
  */
  lemma ListRunsOffEnd(build: Build, literals: seq<Literal>, loc: Location, allowIdentifiers: bool, endDelimiter: Token)
    requires literals != [] && (allowIdentifiers || NoIdentifiers(literals))
    requires endDelimiter.kind == KEYWORD || endDelimiter.kind == SYMBOL
    ensures ParseLiterals(build, ListTokens(literals, loc), 0, allowIdentifiers, endDelimiter)
         == Literals(literals, |ListTokens(literals, loc)|)
  {
    var tokens := ListTokens(literals, loc);
    assert tokens[0..|tokens|] == tokens;
    ListRoundTrip(build, tokens, 0, literals, loc, allowIdentifiers, endDelimiter);
  }

  /** A select statement as tokens, each at `loc`, ended by a semicolon. */
  function SelectTokens(columns: seq<Literal>, tableName: string, loc: Location): seq<Token> {
    [Token(KeywordValue(SELECT), KEYWORD, loc)] + ListTokens(columns, loc)
      + [Token(KeywordValue(FROM), KEYWORD, loc), Token(tableName, IDENTIFIER, loc), Token(SymbolValue(SEMICOLON), SYMBOL, loc)]
  }

  /** An insert statement as tokens, each at `loc`, ended by a semicolon. */
  function InsertTokens(tableName: string, values: seq<Literal>, loc: Location): seq<Token> {
    [ Token(KeywordValue(INSERT), KEYWORD, loc), Token(KeywordValue(INTO), KEYWORD, loc), Token(tableName, IDENTIFIER, loc),
      Token(KeywordValue(VALUES), KEYWORD, loc), Token(SymbolValue(LEFT_PAREN), SYMBOL, loc)]
      + ListTokens(values, loc)
      + [Token(SymbolValue(RIGHT_PAREN), SYMBOL, loc), Token(SymbolValue(SEMICOLON), SYMBOL, loc)]
  }

  /** The tokens of a select from `cursor` on, position by position. */
  predicate SelectShape(tokens: seq<Token>, cursor: nat, columns: seq<Literal>, tableName: string, loc: Location) {
    && cursor + 4 + |ListTokens(columns, loc)| <= |tokens|
    && tokens[cursor] == Token(KeywordValue(SELECT), KEYWORD, loc)
    && tokens[cursor + 1..cursor + 1 + |ListTokens(columns, loc)|] == ListTokens(columns, loc)
    && tokens[cursor + 1 + |ListTokens(columns, loc)|] == Token(KeywordValue(FROM), KEYWORD, loc)
    && tokens[cursor + 2 + |ListTokens(columns, loc)|] == Token(tableName, IDENTIFIER, loc)
    && tokens[cursor + 3 + |ListTokens(columns, loc)|] == Token(SymbolValue(SEMICOLON), SYMBOL, loc)
  }

  /** A slice of a slice is a slice. */
  lemma SliceOfSlice(tokens: seq<Token>, lo: nat, hi: nat, i: nat, j: nat)
    requires lo <= hi <= |tokens| && i <= j <= hi - lo
    ensures tokens[lo..hi][i..j] == tokens[lo + i..lo + j]
  {
    assert forall k :: 0 <= k < j - i ==> tokens[lo..hi][i..j][k] == tokens[lo + i + k];
  }

  /** A window holding `a + b` holds `a`, then `b`. */
  lemma WindowSplit(tokens: seq<Token>, cursor: nat, a: seq<Token>, b: seq<Token>)
    requires cursor + |a| + |b| <= |tokens| && tokens[cursor..cursor + |a| + |b|] == a + b
    ensures tokens[cursor..cursor + |a|] == a && tokens[cursor + |a|..cursor + |a| + |b|] == b
  {
    SliceOfSlice(tokens, cursor, cursor + |a| + |b|, 0, |a|);
    SliceOfSlice(tokens, cursor, cursor + |a| + |b|, |a|, |a| + |b|);
    assert (a + b)[..|a|] == a && (a + b)[|a|..] == b;
  }

  /** A window holding `w` at `cursor` holds its `k`-th token at `i`, offset `k` from `cursor`. */
  lemma WindowIndex(tokens: seq<Token>, cursor: nat, w: seq<Token>, k: nat, i: nat)
    requires cursor + |w| <= |tokens| && tokens[cursor..cursor + |w|] == w && k < |w| && i == cursor + k
    ensures tokens[i] == w[k]
  {
    assert tokens[cursor..cursor + |w|][k] == tokens[i];
  }

  /** A window holding one token, a list, then three tokens, position by position. */
  lemma SelectWindow(tokens: seq<Token>, cursor: nat, a: Token, list: seq<Token>, b: Token, c: Token, d: Token)
    requires cursor + |list| + 4 <= |tokens| && tokens[cursor..cursor + |list| + 4] == [a] + list + [b, c, d]
    ensures tokens[cursor] == a && tokens[cursor + 1..cursor + 1 + |list|] == list
    ensures tokens[cursor + 1 + |list|] == b && tokens[cursor + 2 + |list|] == c && tokens[cursor + 3 + |list|] == d
  {
    var n := |list|;
    WindowSplit(tokens, cursor, [a] + list, [b, c, d]);
    WindowSplit(tokens, cursor, [a], list);
    WindowIndex(tokens, cursor, [a], 0, cursor);
    WindowIndex(tokens, cursor + 1 + n, [b, c, d], 0, cursor + 1 + n);
    WindowIndex(tokens, cursor + 1 + n, [b, c, d], 1, cursor + 2 + n);
    WindowIndex(tokens, cursor + 1 + n, [b, c, d], 2, cursor + 3 + n);
  }

  lemma SelectTokensShape(tokens: seq<Token>, cursor: nat, columns: seq<Literal>, tableName: string, loc: Location)
    requires cursor + |SelectTokens(columns, tableName, loc)| <= |tokens|
    requires tokens[cursor..cursor + |SelectTokens(columns, tableName, loc)|] == SelectTokens(columns, tableName, loc)
    ensures SelectShape(tokens, cursor, columns, tableName, loc)
  {
    SelectWindow(tokens, cursor, Token(KeywordValue(SELECT), KEYWORD, loc), ListTokens(columns, loc),
                 Token(KeywordValue(FROM), KEYWORD, loc), Token(tableName, IDENTIFIER, loc), Token(SymbolValue(SEMICOLON), SYMBOL, loc));
  }

  /** A list whose tokens stand at `cursor`, before at least one more token, is what `parseComaSeparatedLiterals` reads there. */
  lemma ListParses(build: Build, tokens: seq<Token>, cursor: nat, literals: seq<Literal>, loc: Location,
                   allowIdentifiers: bool, endDelimiter: Token)
    requires allowIdentifiers || NoIdentifiers(literals)
    requires endDelimiter.kind == KEYWORD || endDelimiter.kind == SYMBOL
    requires ListAt(build, tokens, cursor, literals, loc, endDelimiter) && cursor + |ListTokens(literals, loc)| < |tokens|
    ensures ParseLiterals(build, tokens, cursor, allowIdentifiers, endDelimiter) == Literals(literals, cursor + |ListTokens(literals, loc)|)
  {
    ListRoundTrip(build, tokens, cursor, literals, loc, allowIdentifiers, endDelimiter);
  }

  /** The head of a select's tokens passes the check of `parseSelectStatement`; its columns stand as a list before FROM and the table name. */
  lemma SelectShapeParts(tokens: seq<Token>, cursor: nat, columns: seq<Literal>, tableName: string, loc: Location)
    requires SelectShape(tokens, cursor, columns, tableName, loc)
    ensures ExpectKeyword(tokens, cursor, SELECT)
    ensures ListAt(Corrected, tokens, cursor + 1, columns, loc, FromDelimiter)
    ensures ExpectKeyword(tokens, cursor + 1 + |ListTokens(columns, loc)|, FROM)
    ensures ExpectIdentifier(tokens, cursor + 2 + |ListTokens(columns, loc)|)
    ensures tokens[cursor + 2 + |ListTokens(columns, loc)|].value == tableName
  {
    KeywordValueUpper(SELECT);
    KeywordValueUpper(FROM);
  }

  /** A select whose column list reads up to a FROM followed by the table name parses as that select. */
  lemma ParseSelectOf(build: Build, tokens: seq<Token>, cursor: nat, columns: seq<Literal>, from: nat, tableName: string)
    requires ExpectKeyword(tokens, cursor, SELECT)
    requires ParseLiterals(build, tokens, cursor + 1, true, FromDelimiter) == Literals(columns, from)
    requires ExpectKeyword(tokens, from, FROM) && ExpectIdentifier(tokens, from + 1) && tokens[from + 1].value == tableName
    ensures ParseStatement(build, tokens, cursor) == Parsed(SelectStatement(columns, tableName), from + 2)
  {
  }

  /** With the corrected delimiter test, the tokens of a select parse as that statement, up to its semicolon. */
  lemma SelectTokensStatement(tokens: seq<Token>, cursor: nat, s: Statement, loc: Location)
    requires s.SelectStatement? && SelectShape(tokens, cursor, s.columns, s.tableName, loc)
    ensures ParseStatement(Corrected, tokens, cursor) == Parsed(s, cursor + 3 + |ListTokens(s.columns, loc)|)
  {
    var from := cursor + 1 + |ListTokens(s.columns, loc)|;
    SelectShapeParts(tokens, cursor, s.columns, s.tableName, loc);
    ListParses(Corrected, tokens, cursor + 1, s.columns, loc, true, FromDelimiter);
    ParseSelectOf(Corrected, tokens, cursor, s.columns, from, s.tableName);
  }

  /** Tokens holding one statement followed by its semicolon parse to that statement alone. */
  lemma OneStatement(build: Build, tokens: seq<Token>, statement: Statement, next: nat)
    requires next + 1 == |tokens| && ExpectSemicolon(tokens, next)
    requires ParseStatement(build, tokens, 0) == Parsed(statement, next)
    ensures ParseTokens(build, tokens) == Statements([statement])
  {
    assert SkipSemicolons(tokens, next) == next + 1;
    assert StatementsFrom(build, tokens, next + 1) == Complete([]);
    assert StatementsFrom(build, tokens, 0) == Complete([statement]);
  }

  /** The tokens of an insert from `cursor` on, position by position. */
  predicate InsertShape(tokens: seq<Token>, cursor: nat, tableName: string, values: seq<Literal>, loc: Location) {
    && cursor + 7 + |ListTokens(values, loc)| <= |tokens|
    && tokens[cursor] == Token(KeywordValue(INSERT), KEYWORD, loc)
    && tokens[cursor + 1] == Token(KeywordValue(INTO), KEYWORD, loc)
    && tokens[cursor + 2] == Token(tableName, IDENTIFIER, loc)
    && tokens[cursor + 3] == Token(KeywordValue(VALUES), KEYWORD, loc)
    && tokens[cursor + 4] == Token(SymbolValue(LEFT_PAREN), SYMBOL, loc)
    && tokens[cursor + 5..cursor + 5 + |ListTokens(values, loc)|] == ListTokens(values, loc)
    && tokens[cursor + 5 + |ListTokens(values, loc)|] == Token(SymbolValue(RIGHT_PAREN), SYMBOL, loc)
    && tokens[cursor + 6 + |ListTokens(values, loc)|] == Token(SymbolValue(SEMICOLON), SYMBOL, loc)
  }

  /** A window holding five tokens, a list, then two tokens, position by position. */
  lemma InsertWindow(tokens: seq<Token>, cursor: nat, a: Token, b: Token, c: Token, d: Token, e: Token, list: seq<Token>, f: Token, g: Token)
    requires cursor + |list| + 7 <= |tokens| && tokens[cursor..cursor + |list| + 7] == [a, b, c, d, e] + list + [f, g]
    ensures tokens[cursor] == a && tokens[cursor + 1] == b && tokens[cursor + 2] == c && tokens[cursor + 3] == d && tokens[cursor + 4] == e
    ensures tokens[cursor + 5..cursor + 5 + |list|] == list
    ensures tokens[cursor + 5 + |list|] == f && tokens[cursor + 6 + |list|] == g
  {
    var n := |list|;
    var head := [a, b, c, d, e];
    WindowSplit(tokens, cursor, head + list, [f, g]);
    WindowSplit(tokens, cursor, head, list);
    WindowIndex(tokens, cursor, head, 0, cursor);
    WindowIndex(tokens, cursor, head, 1, cursor + 1);
    WindowIndex(tokens, cursor, head, 2, cursor + 2);
    WindowIndex(tokens, cursor, head, 3, cursor + 3);
    WindowIndex(tokens, cursor, head, 4, cursor + 4);
    WindowIndex(tokens, cursor + 5 + n, [f, g], 0, cursor + 5 + n);
    WindowIndex(tokens, cursor + 5 + n, [f, g], 1, cursor + 6 + n);
  }

  lemma InsertTokensShape(tokens: seq<Token>, cursor: nat, tableName: string, values: seq<Literal>, loc: Location)
    requires cursor + |InsertTokens(tableName, values, loc)| <= |tokens|
    requires tokens[cursor..cursor + |InsertTokens(tableName, values, loc)|] == InsertTokens(tableName, values, loc)
    ensures InsertShape(tokens, cursor, tableName, values, loc)
  {
    InsertWindow(tokens, cursor, Token(KeywordValue(INSERT), KEYWORD, loc), Token(KeywordValue(INTO), KEYWORD, loc), Token(tableName, IDENTIFIER, loc),
                 Token(KeywordValue(VALUES), KEYWORD, loc), Token(SymbolValue(LEFT_PAREN), SYMBOL, loc),
                 ListTokens(values, loc), Token(SymbolValue(RIGHT_PAREN), SYMBOL, loc), Token(SymbolValue(SEMICOLON), SYMBOL, loc));
  }

  /** The head of an insert's tokens passes the checks of `parseInsertStatement`, not those of a select; its values stand as a list before `)`. */
  lemma InsertShapeParts(tokens: seq<Token>, cursor: nat, tableName: string, values: seq<Literal>, loc: Location)
    requires InsertShape(tokens, cursor, tableName, values, loc)
    ensures InsertHead(tokens, cursor) && !ExpectKeyword(tokens, cursor, SELECT) && tokens[cursor + 2].value == tableName
    ensures ListAt(Corrected, tokens, cursor + 5, values, loc, RightParenDelimiter)
    ensures ExpectSymbol(tokens, cursor + 5 + |ListTokens(values, loc)|, RIGHT_PAREN)
  {
    KeywordValueUpper(INSERT);
    KeywordValueUpper(INTO);
    KeywordValueUpper(VALUES);
  }

  /** An insert whose head passes and whose value list reads up to a `)` parses as that insert, unless a select does. */
  lemma ParseInsertOf(build: Build, tokens: seq<Token>, cursor: nat, tableName: string, values: seq<Literal>, paren: nat)
    requires InsertHead(tokens, cursor) && !ExpectKeyword(tokens, cursor, SELECT) && tokens[cursor + 2].value == tableName
    requires ParseLiterals(build, tokens, cursor + 5, false, RightParenDelimiter) == Literals(values, paren)
    requires ExpectSymbol(tokens, paren, RIGHT_PAREN)
    ensures ParseStatement(build, tokens, cursor) == Parsed(InsertStatement(tableName, values), paren + 1)
  {
  }

  /** With the corrected delimiter test, the tokens of an insert parse as that statement, up to its semicolon. */
  lemma InsertTokensStatement(tokens: seq<Token>, cursor: nat, s: Statement, loc: Location)
    requires s.InsertStatement? && NoIdentifiers(s.values) && InsertShape(tokens, cursor, s.tableName, s.values, loc)
    ensures ParseStatement(Corrected, tokens, cursor) == Parsed(s, cursor + 6 + |ListTokens(s.values, loc)|)
  {
    var paren := cursor + 5 + |ListTokens(s.values, loc)|;
    InsertShapeParts(tokens, cursor, s.tableName, s.values, loc);
    ListParses(Corrected, tokens, cursor + 5, s.values, loc, false, RightParenDelimiter);
    ParseInsertOf(Corrected, tokens, cursor, s.tableName, s.values, paren);
  }

  /** With the corrected delimiter test, the tokens of any select parse back to it. */
  lemma CorrectedSelectRoundTrip(columns: seq<Literal>, tableName: string, loc: Location)
    ensures ParseTokens(Corrected, SelectTokens(columns, tableName, loc)) == Statements([SelectStatement(columns, tableName)])
  {
    var tokens := SelectTokens(columns, tableName, loc);
    assert tokens[0..|tokens|] == tokens;
    SelectTokensShape(tokens, 0, columns, tableName, loc);
    SelectTokensStatement(tokens, 0, SelectStatement(columns, tableName), loc);
    OneStatement(Corrected, tokens, SelectStatement(columns, tableName), 0 + 3 + |ListTokens(columns, loc)|);
  }

  /** With the corrected delimiter test, the tokens of any insert of non-identifier values parse back to it. */
  lemma CorrectedInsertRoundTrip(tableName: string, values: seq<Literal>, loc: Location)
    requires NoIdentifiers(values)
    ensures ParseTokens(Corrected, InsertTokens(tableName, values, loc)) == Statements([InsertStatement(tableName, values)])
  {
    var tokens := InsertTokens(tableName, values, loc);
    assert tokens[0..|tokens|] == tokens;
    InsertTokensShape(tokens, 0, tableName, values, loc);
    InsertTokensStatement(tokens, 0, InsertStatement(tableName, values), loc);
    OneStatement(Corrected, tokens, InsertStatement(tableName, values), 0 + 6 + |ListTokens(values, loc)|);
  }

  /** The statements the parser produces, inserts holding no identifier. */
  predicate Renderable(s: Statement) {
    s.SelectStatement? || (s.InsertStatement? && NoIdentifiers(s.values))
  }

  /** A statement as tokens, each at `loc`, ended by a semicolon. */
  function StatementTokens(s: Statement, loc: Location): seq<Token>
    requires Renderable(s)
  {
    if s.SelectStatement? then SelectTokens(s.columns, s.tableName, loc) else InsertTokens(s.tableName, s.values, loc)
  }

  /** Statements as tokens, one after the other. */
  function BatchTokens(statements: seq<Statement>, loc: Location): seq<Token>
    requires forall i :: 0 <= i < |statements| ==> Renderable(statements[i])
  {
    if statements == [] then [] else StatementTokens(statements[0], loc) + BatchTokens(statements[1..], loc)
  }

  /** The tokens of a statement from `cursor` on, position by position. */
  predicate StatementShape(tokens: seq<Token>, cursor: nat, s: Statement, loc: Location) {
    if s.SelectStatement? then SelectShape(tokens, cursor, s.columns, s.tableName, loc)
    else s.InsertStatement? && InsertShape(tokens, cursor, s.tableName, s.values, loc)
  }

  /** A statement's tokens: a select's are four more than its columns', an insert's seven more than its values'. */
  lemma StatementTokensLength(s: Statement, loc: Location)
    requires Renderable(s)
    ensures s.SelectStatement? ==> |StatementTokens(s, loc)| == |ListTokens(s.columns, loc)| + 4
    ensures s.InsertStatement? ==> |StatementTokens(s, loc)| == |ListTokens(s.values, loc)| + 7
  {
  }

  /** A statement's tokens standing at `cursor` stand there position by position. */
  lemma StatementWindowShape(tokens: seq<Token>, cursor: nat, s: Statement, loc: Location)
    requires Renderable(s)
    requires cursor + |StatementTokens(s, loc)| <= |tokens|
    requires tokens[cursor..cursor + |StatementTokens(s, loc)|] == StatementTokens(s, loc)
    ensures StatementShape(tokens, cursor, s, loc)
  {
    if s.SelectStatement? {
      SelectTokensShape(tokens, cursor, s.columns, s.tableName, loc);
    } else {
      InsertTokensShape(tokens, cursor, s.tableName, s.values, loc);
    }
  }

  /** The tokens of a statement start with a keyword. */
  lemma StatementTokensStart(s: Statement, loc: Location)
    requires Renderable(s)
    ensures |StatementTokens(s, loc)| > 0 && StatementTokens(s, loc)[0].kind == KEYWORD
  {
  }

  /** A batch's tokens: its first statement's, then the rest's. */
  lemma BatchTokensSplit(tokens: seq<Token>, cursor: nat, statements: seq<Statement>, loc: Location)
    requires statements != [] && forall i :: 0 <= i < |statements| ==> Renderable(statements[i])
    requires cursor <= |tokens| && tokens[cursor..] == BatchTokens(statements, loc)
    ensures forall i :: 0 <= i < |statements| - 1 ==> Renderable(statements[1..][i])
    ensures var end := cursor + |StatementTokens(statements[0], loc)|;
      && end <= |tokens|
      && tokens[cursor..end] == StatementTokens(statements[0], loc)
      && tokens[end..] == BatchTokens(statements[1..], loc)
  {
    var first := StatementTokens(statements[0], loc);
    var end := cursor + |first|;
    assert forall i :: 0 <= i < |statements| - 1 ==> statements[1..][i] == statements[i + 1];
    assert tokens[cursor..] == first + BatchTokens(statements[1..], loc);
    assert tokens[cursor..end] == tokens[cursor..][..|first|];
    assert tokens[end..] == tokens[cursor..][|first|..];
  }

  /** A statement parsed at `cursor` and followed by one semicolon stands in front of the batch after it. */
  lemma StatementsFromParsed(build: Build, tokens: seq<Token>, cursor: nat, statement: Statement, next: nat)
    requires cursor <= next < |tokens| && ExpectSemicolon(tokens, next) && !ExpectSemicolon(tokens, next + 1)
    requires ParseStatement(build, tokens, cursor) == Parsed(statement, next)
    ensures StatementsFrom(build, tokens, cursor) == PrefixBatch([statement], StatementsFrom(build, tokens, next + 1))
  {
    assert SkipSemicolons(tokens, next + 1) == next + 1;
    assert SkipSemicolons(tokens, next) == next + 1;
    StatementsFromStep(build, tokens, cursor);
  }

  /** The statements from `j` on are statement `j`, then those after it. */
  lemma SuffixCons(statements: seq<Statement>, j: nat)
    requires j < |statements|
    ensures statements[j..] == [statements[j]] + statements[j + 1..]
  {
  }

  /** A statement in front of a batch that completes gives a batch that completes with it first. */
  lemma BatchJoin(build: Build, tokens: seq<Token>, start: nat, next: nat, statement: Statement, rest: seq<Statement>)
    requires start <= |tokens| && next <= |tokens|
    requires StatementsFrom(build, tokens, start) == PrefixBatch([statement], StatementsFrom(build, tokens, next))
    requires StatementsFrom(build, tokens, next) == Complete(rest)
    ensures StatementsFrom(build, tokens, start) == Complete([statement] + rest)
  {
  }

  /** From `start` on, the batch is `statement` in front of the batch from `next` on. */
  predicate StepsTo(build: Build, tokens: seq<Token>, start: nat, statement: Statement, next: nat) {
    start <= |tokens| && next <= |tokens|
    && StatementsFrom(build, tokens, start) == PrefixBatch([statement], StatementsFrom(build, tokens, next))
  }

  /**
    Statement `k` of the batch leads from `starts[k]` to `starts[k + 1]`,
    and the last of the starts is the end of the tokens.
  */
  predicate BatchChain(build: Build, tokens: seq<Token>, starts: seq<nat>, statements: seq<Statement>) {
    && |starts| == |statements| + 1
    && starts[|statements|] == |tokens|
    && forall k :: 0 <= k < |statements| ==> StepsTo(build, tokens, starts[k], statements[k], starts[k + 1])
  }

  /** Along such a chain, the batch from the `j`-th start completes with the statements from the `j`-th on. */
  lemma {:induction false} BatchChainSuffix(build: Build, tokens: seq<Token>, starts: seq<nat>, statements: seq<Statement>, j: nat)
    requires BatchChain(build, tokens, starts, statements) && j <= |statements|
    ensures starts[j] <= |tokens| && StatementsFrom(build, tokens, starts[j]) == Complete(statements[j..])
    decreases |statements| - j
  {
    if j == |statements| {
      assert StatementsFrom(build, tokens, starts[j]) == Complete([]);
    } else {
      BatchChainSuffix(build, tokens, starts, statements, j + 1);
      assert StepsTo(build, tokens, starts[j], statements[j], starts[j + 1]);
      SuffixCons(statements, j);
      BatchJoin(build, tokens, starts[j], starts[j + 1], statements[j], statements[j + 1..]);
    }
  }

  /** A first step in front of a chain makes a chain. */
  lemma BatchChainExtend(build: Build, tokens: seq<Token>, cursor: nat, statements: seq<Statement>, rest: seq<nat>)
    requires statements != [] && BatchChain(build, tokens, rest, statements[1..])
    requires StepsTo(build, tokens, cursor, statements[0], rest[0])
    ensures BatchChain(build, tokens, [cursor] + rest, statements)
  {
    var starts := [cursor] + rest;
    forall k | 0 <= k < |statements|
      ensures StepsTo(build, tokens, starts[k], statements[k], starts[k + 1])
    {
      if k > 0 {
        assert starts[k] == rest[k - 1] && starts[k + 1] == rest[k] && statements[k] == statements[1..][k - 1];
      }
    }
  }

  /** A statement parsed at `cursor` and followed by one semicolon, in front of a chain after it, makes a chain. */
  lemma BatchChainCons(build: Build, tokens: seq<Token>, cursor: nat, statements: seq<Statement>, semicolon: nat, rest: seq<nat>)
    requires statements != [] && cursor <= semicolon < |tokens|
    requires ParseStatement(build, tokens, cursor) == Parsed(statements[0], semicolon)
    requires ExpectSemicolon(tokens, semicolon) && !ExpectSemicolon(tokens, semicolon + 1)
    requires BatchChain(build, tokens, rest, statements[1..]) && rest[0] == semicolon + 1
    ensures BatchChain(build, tokens, [cursor] + rest, statements)
  {
    StatementsFromParsed(build, tokens, cursor, statements[0], semicolon);
    BatchChainExtend(build, tokens, cursor, statements, rest);
  }

  /** A batch's tokens: the first statement's, then the rest's, which start with a keyword unless they are empty. */
  lemma BatchHead(tokens: seq<Token>, cursor: nat, statements: seq<Statement>, loc: Location) returns (end: nat)
    requires statements != [] && forall i :: 0 <= i < |statements| ==> Renderable(statements[i])
    requires cursor <= |tokens| && tokens[cursor..] == BatchTokens(statements, loc)
    ensures end == cursor + |StatementTokens(statements[0], loc)| && end <= |tokens|
    ensures tokens[cursor..end] == StatementTokens(statements[0], loc)
    ensures tokens[end..] == BatchTokens(statements[1..], loc)
    ensures forall i :: 0 <= i < |statements| - 1 ==> Renderable(statements[1..][i])
    ensures end < |tokens| ==> tokens[end].kind == KEYWORD
  {
    end := cursor + |StatementTokens(statements[0], loc)|;
    BatchTokensSplit(tokens, cursor, statements, loc);
    var rest := statements[1..];
    if end < |tokens| {
      assert rest != [];
      StatementTokensStart(rest[0], loc);
      assert BatchTokens(rest, loc) == StatementTokens(rest[0], loc) + BatchTokens(rest[1..], loc);
      assert tokens[end] == tokens[end..][0];
    }
  }

  /** With the corrected delimiter test, a statement standing at `cursor` parses as that statement, up to the last of its tokens. */
  lemma StatementParses(tokens: seq<Token>, cursor: nat, s: Statement, end: nat, loc: Location)
    requires Renderable(s) && StatementShape(tokens, cursor, s, loc) && end == cursor + |StatementTokens(s, loc)|
    ensures ParseStatement(Corrected, tokens, cursor) == Parsed(s, end - 1)
  {
    StatementTokensLength(s, loc);
    if s.SelectStatement? {
      SelectTokensStatement(tokens, cursor, s, loc);
    } else {
      InsertTokensStatement(tokens, cursor, s, loc);
    }
  }

  /** A statement standing at `cursor`, then a keyword or the end, ends with a single semicolon. */
  lemma StatementSemicolon(tokens: seq<Token>, cursor: nat, s: Statement, end: nat, loc: Location)
    requires Renderable(s) && StatementShape(tokens, cursor, s, loc) && end == cursor + |StatementTokens(s, loc)|
    requires end < |tokens| ==> tokens[end].kind == KEYWORD
    ensures cursor < end <= |tokens|
    ensures ExpectSemicolon(tokens, end - 1) && !ExpectSemicolon(tokens, end)
  {
    StatementTokensLength(s, loc);
    if s.SelectStatement? {
      assert tokens[cursor + 3 + |ListTokens(s.columns, loc)|] == Token(SymbolValue(SEMICOLON), SYMBOL, loc);
    } else {
      assert tokens[cursor + 6 + |ListTokens(s.values, loc)|] == Token(SymbolValue(SEMICOLON), SYMBOL, loc);
    }
  }

  /**
    With the corrected delimiter test, a statement's tokens standing at
    `cursor` and followed by a keyword or the end parse as the statement,
    up to its single semicolon.
  */
  lemma StatementAt(tokens: seq<Token>, cursor: nat, s: Statement, end: nat, loc: Location) returns (semicolon: nat)
    requires Renderable(s) && StatementShape(tokens, cursor, s, loc)
    requires end == cursor + |StatementTokens(s, loc)|
    requires end < |tokens| ==> tokens[end].kind == KEYWORD
    ensures cursor <= semicolon < |tokens| && semicolon + 1 == end
    ensures ParseStatement(Corrected, tokens, cursor) == Parsed(s, semicolon)
    ensures ExpectSemicolon(tokens, semicolon) && !ExpectSemicolon(tokens, semicolon + 1)
  {
    StatementSemicolon(tokens, cursor, s, end, loc);
    StatementParses(tokens, cursor, s, end, loc);
    semicolon := end - 1;
    assert semicolon + 1 == end;
  }

  /** With the corrected delimiter test, the tokens of a batch standing at `cursor` and running to the end make a chain from `cursor`. */
  lemma {:induction false} BatchParses(tokens: seq<Token>, cursor: nat, statements: seq<Statement>, loc: Location) returns (starts: seq<nat>)
    requires forall i :: 0 <= i < |statements| ==> Renderable(statements[i])
    requires cursor <= |tokens| && tokens[cursor..] == BatchTokens(statements, loc)
    ensures BatchChain(Corrected, tokens, starts, statements) && starts[0] == cursor
    decreases |statements|
  {
    if statements == [] {
      assert cursor == |tokens|;
      starts := [cursor];
    } else {
      var end := BatchHead(tokens, cursor, statements, loc);
      StatementWindowShape(tokens, cursor, statements[0], loc);
      var semicolon := StatementAt(tokens, cursor, statements[0], end, loc);
      var rest := BatchParses(tokens, end, statements[1..], loc);
      BatchChainCons(Corrected, tokens, cursor, statements, semicolon, rest);
      starts := [cursor] + rest;
    }
  }

  /**
    With the corrected delimiter test, the tokens of any sequence of selects
    and inserts parse back to those statements, in their order.
  */
  lemma CorrectedBatchRoundTrip(statements: seq<Statement>, loc: Location)
    requires forall i :: 0 <= i < |statements| ==> Renderable(statements[i])
    ensures ParseTokens(Corrected, BatchTokens(statements, loc)) == Statements(statements)
  {
    var tokens := BatchTokens(statements, loc);
    assert tokens[0..] == tokens;
    var starts := BatchParses(tokens, 0, statements, loc);
    BatchChainSuffix(Corrected, tokens, starts, statements, 0);
    assert statements[0..] == statements;
  }

  /** The tokens of `SELECT name from users;`, each at the column where it starts. */
  const SelectNameFromUsers: seq<Token> := [
    Token("select", KEYWORD, Location(0)), Token("name", IDENTIFIER, Location(7)),
    Token("from", KEYWORD, Location(12)), Token("users", IDENTIFIER, Location(17)),
    Token(";", SYMBOL, Location(22))]

  /**
    The parser test's query: as written, its tokens parse to no statement,
    since `from` stands at column 12 and never equals the delimiter; with the
    corrected test they parse to the select the test expects.
  */
  lemma SelectNameFromUsersParse()
    ensures ParseTokens(AsWritten, SelectNameFromUsers) == Statements([])
    ensures ParseTokens(Corrected, SelectNameFromUsers) == Statements([SelectStatement([IdentifierLiteral("name")], "users")])
  {
    var tokens := SelectNameFromUsers;
    KeywordValueUpper(SELECT);
    KeywordValueUpper(FROM);
    assert ExpectKeyword(tokens, 0, SELECT);
    assert ListFrom(Corrected, tokens, 2, true, FromDelimiter) == Literals([], 2);
    assert ListFrom(Corrected, tokens, 1, true, FromDelimiter) == Literals([IdentifierLiteral("name")], 2);
    assert ExpectKeyword(tokens, 2, FROM);
    var statement := SelectStatement([IdentifierLiteral("name")], "users");
    assert ParseSelect(Corrected, tokens, 0) == Parsed(statement, 4);
    assert SkipSemicolons(tokens, 4) == 5;
    assert StatementsFrom(Corrected, tokens, 5) == Complete([]);
    assert StatementsFrom(Corrected, tokens, 0) == Complete([statement]);
    AsWrittenStatementFails(tokens, 0);
  }
}
