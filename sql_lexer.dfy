/**
  The driver `SqlLexer.lex` (Lexer.kt): from the start of the input it tries
  the sub-lexers in a fixed order, takes the first that recognises a token or
  skips input, and throws when none makes progress.

  `Tokenize` states the outcome recursively; the method `Lex` is the driver's
  loop, proved to return exactly that outcome.
*/
module SqlLexer {
  import opened Text
  import opened Tokens
  import opened SubLexers
  import Wrappers

  datatype SubLexer = KeywordLexer | SymbolLexer | StringLexer | NumericLexer | IdentifierLexer

  /** The `lexers` array, in its order: keywords before identifiers. */
  const Lexers: seq<SubLexer> := [KeywordLexer, SymbolLexer, StringLexer, NumericLexer, IdentifierLexer]

  /** A token's text stands in the input at the token's column, in the shape of its kind. */
  predicate TokenAt(input: string, t: Token) {
    var p := t.loc.col;
    match t.kind
    case KEYWORD => t.value in KeywordValues && SpelledAt(input, p, t.value)
    case SYMBOL => p < |input| && IsSymbolChar(input[p]) && t.value == [input[p]]
    case STRING => p < |input| && input[p] == '\''
    case NUMERIC => p + |t.value| <= |input| && input[p..p + |t.value|] == t.value && NumericShape(t.value)
    case IDENTIFIER => p + |t.value| <= |input| && input[p..p + |t.value|] == t.value && IdentifierShape(t.value)
  }

  /** A sub-lexer result that moved forward from `c`, keeping column and pointer equal. */
  predicate Moves(input: string, c: Cursor, r: LexerResult) {
    && c.pointer < r.cursor.pointer <= |input|
    && Aligned(r.cursor)
    && (r.Success? ==> r.token.loc.col == c.pointer && TokenAt(input, r.token))
  }

  /** `lexer.lex(input, cursor)`; the string lexer is the as-written or the corrected one. */
  function Apply(l: SubLexer, build: Build, input: string, c: Cursor): (r: LexerResult)
    requires c.pointer < |input|
    ensures Aligned(c) ==> r == Failure(c) || Moves(input, c, r)
  {
    match l
    case KeywordLexer => KeywordToken(input, c)
    case SymbolLexer => SymbolLex(input, c)
    case StringLexer => if build == AsWritten then StringToken(input, c) else CorrectedStringToken(input, c)
    case NumericLexer => NumericToken(input, c)
    case IdentifierLexer => IdentifierToken(input, c)
  }

  /** `lexer.lex(input, cursor)`, running the sub-lexer's own loop. */
  method RunSubLexer(l: SubLexer, build: Build, input: string, c: Cursor) returns (r: LexerResult)
    requires c.pointer < |input|
    ensures r == Apply(l, build, input, c)
  {
    match l
    case KeywordLexer => r := KeywordLex(input, c);
    case SymbolLexer => r := SymbolLex(input, c);
    case StringLexer =>
      if build == AsWritten {
        r := StringLex(input, c);
      } else {
        r := CorrectedStringToken(input, c);
      }
    case NumericLexer => r := NumericLex(input, c);
    case IdentifierLexer => r := IdentifierLex(input, c);
  }

  /** The first result, from the `i`-th sub-lexer on, that is a token or a moved cursor. */
  function FirstProgress(build: Build, input: string, c: Cursor, i: nat): (r: Wrappers.Option<LexerResult>)
    requires c.pointer < |input| && i <= |Lexers|
    ensures r.Some? ==> r.value.Success? || r.value.cursor != c
    ensures r.Some? && Aligned(c) ==> Moves(input, c, r.value)
    decreases |Lexers| - i
  {
    if i == |Lexers| then Wrappers.None
    else
      var res := Apply(Lexers[i], build, input, c);
      if res.Success? || res.cursor != c then Wrappers.Some(res)
      else FirstProgress(build, input, c, i + 1)
  }

  /**
    `FirstProgress` is the result of the first sub-lexer, from the `i`-th on,
    that does not fail in place: every sub-lexer tried before it failed with
    the cursor it was given.
  */
  lemma {:induction false} FirstProgressIsFirst(build: Build, input: string, c: Cursor, i: nat)
    requires c.pointer < |input| && i <= |Lexers|
    ensures var r := FirstProgress(build, input, c, i);
      r.Some? ==> exists j :: i <= j < |Lexers| && r.value == Apply(Lexers[j], build, input, c)
                              && forall k :: i <= k < j ==> Apply(Lexers[k], build, input, c) == Failure(c)
    decreases |Lexers| - i
  {
    if i < |Lexers| {
      var res := Apply(Lexers[i], build, input, c);
      var r := FirstProgress(build, input, c, i);
      if res.Success? || res.cursor != c {
        assert r.value == Apply(Lexers[i], build, input, c);
      } else if r.Some? {
        FirstProgressIsFirst(build, input, c, i + 1);
        var j :| i + 1 <= j < |Lexers| && r.value == Apply(Lexers[j], build, input, c)
                 && forall k :: i + 1 <= k < j ==> Apply(Lexers[k], build, input, c) == Failure(c);
        assert forall k :: i <= k < j ==> Apply(Lexers[k], build, input, c) == Failure(c);
      }
    }
  }

  /** `FirstProgress` finds nothing exactly when every remaining sub-lexer fails without moving. */
  lemma {:induction false} FirstProgressNone(build: Build, input: string, c: Cursor, i: nat)
    requires c.pointer < |input| && i <= |Lexers|
    ensures FirstProgress(build, input, c, i).None?
        <==> forall j :: i <= j < |Lexers| ==> Apply(Lexers[j], build, input, c) == Failure(c)
    decreases |Lexers| - i
  {
    if i < |Lexers| {
      FirstProgressNone(build, input, c, i + 1);
    }
  }

  /** What `SqlLexer.lex` returns: the tokens, or the position its RuntimeException reports. */
  datatype LexOutcome = Lexed(tokens: seq<Token>) | RuntimeException(position: nat)

  /** No sub-lexer makes progress at `p`. */
  predicate StuckAt(build: Build, input: string, p: nat) {
    p < |input| && FirstProgress(build, input, Cursor(p, Location(p)), 0).None?
  }

  /**
    The tokenizer from cursor `c` on. Every token stands in the input at its
    column, the columns strictly increase, and a failure names a position
    where no sub-lexer makes progress.
  */
  function LexFrom(build: Build, input: string, c: Cursor): (r: LexOutcome)
    requires Aligned(c) && c.pointer <= |input|
    ensures r.Lexed? ==> forall i :: 0 <= i < |r.tokens| ==> c.pointer <= r.tokens[i].loc.col < |input| && TokenAt(input, r.tokens[i])
    ensures r.Lexed? ==> forall i, j :: 0 <= i < j < |r.tokens| ==> r.tokens[i].loc.col < r.tokens[j].loc.col
    ensures r.RuntimeException? ==> c.pointer <= r.position && StuckAt(build, input, r.position)
    decreases |input| - c.pointer
  {
    if c.pointer >= |input| then Lexed([])
    else
      match FirstProgress(build, input, c, 0)
      case None => RuntimeException(c.pointer)
      case Some(res) =>
        var rest := LexFrom(build, input, res.cursor);
        if res.Success? && rest.Lexed? then Lexed([res.token] + rest.tokens) else rest
  }

  /**
    The tokenizer throws exactly at a position where every sub-lexer returns
    `Failure` with the cursor it was given.
  */
  lemma StuckExactly(build: Build, input: string, p: nat)
    requires p < |input|
    ensures StuckAt(build, input, p)
        <==> forall j :: 0 <= j < |Lexers| ==> Apply(Lexers[j], build, input, Cursor(p, Location(p))) == Failure(Cursor(p, Location(p)))
    ensures StuckAt(build, input, p) ==> LexFrom(build, input, Cursor(p, Location(p))) == RuntimeException(p)
  {
    FirstProgressNone(build, input, Cursor(p, Location(p)), 0);
  }

  /** Input made only of spaces and tabs yields no tokens. */
  lemma {:induction false} BlanksLexToNothing(build: Build, input: string, c: Cursor)
    requires Aligned(c) && c.pointer <= |input|
    requires forall k :: c.pointer <= k < |input| ==> IsBlank(input[k])
    ensures LexFrom(build, input, c) == Lexed([])
    decreases |input| - c.pointer
  {
    if c.pointer < |input| {
      NoKeywordWithoutLetter(input, c);
      var next := Cursor(c.pointer + 1, Location(c.pointer + 1));
      assert FirstProgress(build, input, c, 0) == Wrappers.Some(Failure(next));
      BlanksLexToNothing(build, input, next);
    }
  }

  /** `SqlLexer().lex(input)` */
  function Tokenize(build: Build, input: string): LexOutcome {
    LexFrom(build, input, Start)
  }

  /** Tokens already collected, in front of the outcome of the rest of the input. */
  function Prepend(tokens: seq<Token>, rest: LexOutcome): LexOutcome {
    if rest.Lexed? then Lexed(tokens + rest.tokens) else rest
  }

  /** `LexFrom` at a cursor where some sub-lexer makes progress, unfolded once. */
  lemma LexUnfold(build: Build, input: string, c: Cursor)
    requires Aligned(c) && c.pointer < |input|
    requires FirstProgress(build, input, c, 0).Some?
    ensures var res := FirstProgress(build, input, c, 0).value;
      var rest := LexFrom(build, input, res.cursor);
      LexFrom(build, input, c) == if res.Success? && rest.Lexed? then Lexed([res.token] + rest.tokens) else rest
  {
  }

  /** One round of the driver: the progress at `c` moves its token, if any, in front of the rest. */
  lemma LexStep(build: Build, input: string, c: Cursor, before: seq<Token>)
    requires Aligned(c) && c.pointer < |input|
    requires FirstProgress(build, input, c, 0).Some?
    ensures var res := FirstProgress(build, input, c, 0).value;
      Prepend(before, LexFrom(build, input, c))
      == Prepend(before + (if res.Success? then [res.token] else []), LexFrom(build, input, res.cursor))
  {
    var res := FirstProgress(build, input, c, 0).value;
    var rest := LexFrom(build, input, res.cursor);
    LexUnfold(build, input, c);
    if !res.Success? {
      assert before + [] == before;
    } else if rest.Lexed? {
      assert before + ([res.token] + rest.tokens) == before + [res.token] + rest.tokens;
    }
  }

  /** `SqlLexer.lex` */
  method Lex(build: Build, input: string) returns (r: LexOutcome)
    ensures r == Tokenize(build, input)
  {
    var cursor := Start;
    var result: seq<Token> := [];

    while cursor.pointer < |input|
      invariant Aligned(cursor) && cursor.pointer <= |input|
      invariant Tokenize(build, input) == Prepend(result, LexFrom(build, input, cursor))
      decreases |input| - cursor.pointer
    {
      ghost var start := cursor;
      ghost var before := result;
      var movedPointer := false;
      var i := 0;
      while i < |Lexers|
        invariant 0 <= i <= |Lexers|
        invariant !movedPointer && cursor == start && result == before
        invariant FirstProgress(build, input, start, 0) == FirstProgress(build, input, start, i)
      {
        var lexingResult := RunSubLexer(Lexers[i], build, input, cursor);

        if lexingResult.Success? {
          result := result + [lexingResult.token];
          cursor := lexingResult.cursor;
          movedPointer := true;
          break;
        }

        if lexingResult.Failure? && lexingResult.cursor != cursor {
          movedPointer := true;
          cursor := lexingResult.cursor;
          break;
        }
        i := i + 1;
      }

      if !movedPointer {
        return RuntimeException(cursor.pointer);
      }
      LexStep(build, input, start, before);
    }
    return Lexed(result);
  }
}
