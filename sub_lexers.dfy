/**
  The five sub-lexers of Lexer.kt. Each looks at the input at a cursor and
  either recognises one token (`Success`) or reports `Failure` with a cursor:
  the cursor it was given when it made no progress, or a moved one when it
  skipped input without producing a token (only `SymbolLexer`, on blanks).

  `SymbolLexer.lex` is pure and is a function here. The others work with
  update loops (`KeywordLexer` through `longestMatching`); each is a method
  with its loop, proved equal to a function that states the same scan
  declaratively (or, for strings, recursively), and the properties of the scan
  are proved about that function.
*/
module SubLexers {
  import Wrappers
  import opened Text
  import opened Tokens

  // ---------------------------------------------------------------- KeywordLexer

  /** `word`, read without regard to letter case, stands in `input` at `p`. */
  predicate SpelledAt(input: string, p: nat, word: string) {
    p + |word| <= |input| && ToLower(input[p..p + |word|]) == word
  }

  predicate StartsWith(word: string, prefix: string) {
    |prefix| <= |word| && word[..|prefix|] == prefix
  }

  /** `keywords.filter { it.startsWith(prefix) }` */
  method KeywordsStartingWith(prefix: string) returns (options: seq<string>)
    ensures forall w {:trigger w in options} :: w in options <==> w in KeywordValues && StartsWith(w, prefix)
    ensures options == [] ==> forall k {:trigger StartsWith(k, prefix)} :: k in KeywordValues ==> !StartsWith(k, prefix)
  {
    options := [];
    for i := 0 to |KeywordValues|
      invariant forall w :: w in options <==> w in KeywordValues[..i] && StartsWith(w, prefix)
    {
      assert KeywordValues[..i + 1] == KeywordValues[..i] + [KeywordValues[i]];
      if StartsWith(KeywordValues[i], prefix) {
        options := options + [KeywordValues[i]];
      }
    }
    assert KeywordValues[..|KeywordValues|] == KeywordValues;
  }

  /** The longest of `words` spelled at `p`, or "" when none is. */
  function LongestAmong(words: seq<string>, input: string, p: nat): (m: string)
    ensures m == "" || (m in words && SpelledAt(input, p, m))
    ensures forall w {:trigger SpelledAt(input, p, w)} :: w in words && SpelledAt(input, p, w) ==> |w| <= |m|
  {
    if words == [] then ""
    else
      var rest := LongestAmong(words[1..], input, p);
      assert forall w :: w in words[1..] ==> w in words;
      if SpelledAt(input, p, words[0]) && |words[0]| > |rest| then words[0] else rest
  }

  /** The longest keyword spelled at `p`, or "" when no keyword is. */
  function LongestKeyword(input: string, p: nat): (m: string)
    ensures m == "" || (m in KeywordValues && SpelledAt(input, p, m))
    ensures forall k {:trigger SpelledAt(input, p, k)} :: k in KeywordValues && SpelledAt(input, p, k) ==> |k| <= |m|
  {
    LongestAmong(KeywordValues, input, p)
  }

  /** No keyword is empty. */
  lemma KeywordValuesNonEmpty()
    ensures forall k :: k in KeywordValues ==> 2 <= |k|
  {
  }

  /** When the longest keyword spelled at `p` is "", no keyword is spelled there. */
  lemma NoKeywordSpelled(input: string, p: nat)
    requires LongestKeyword(input, p) == ""
    ensures forall k {:trigger SpelledAt(input, p, k)} :: k in KeywordValues ==> !SpelledAt(input, p, k)
  {
    KeywordValuesNonEmpty();
  }

  /** Two words spelled at the same place with the same length are the same word. */
  lemma SpelledSameLength(input: string, p: nat, a: string, b: string)
    requires SpelledAt(input, p, a) && SpelledAt(input, p, b) && |a| == |b|
    ensures a == b
  {
  }

  /** The two clauses of `LongestKeyword`'s contract determine its result. */
  lemma LongestKeywordUnique(input: string, p: nat, m: string)
    requires m == "" || (m in KeywordValues && SpelledAt(input, p, m))
    requires forall k {:trigger SpelledAt(input, p, k)} :: k in KeywordValues && SpelledAt(input, p, k) ==> |k| <= |m|
    ensures m == LongestKeyword(input, p)
  {
    var l := LongestKeyword(input, p);
    if m != "" && l != "" {
      SpelledSameLength(input, p, m, l);
    }
  }

  /** `m` is the longest of `words` of length at most `n` spelled at `p`, or "" when there is none. */
  predicate LongestUpTo(words: seq<string>, input: string, p: nat, n: nat, m: string) {
    && (m == "" || (m in words && SpelledAt(input, p, m)))
    && |m| <= n
    && forall k {:trigger SpelledAt(input, p, k)} :: k in words && SpelledAt(input, p, k) && |k| <= n ==> |k| <= |m|
  }

  /** A keyword spelled at `p` and longer than a candidate read there starts with that candidate. */
  lemma KeywordContinues(input: string, p: nat, pointer: nat, k: string)
    requires p <= pointer < |input|
    requires SpelledAt(input, p, k) && |k| > pointer - p
    ensures StartsWith(k, ToLower(input[p..pointer + 1]))
  {
    var n := pointer + 1 - p;
    ToLowerPrefix(input[p..p + |k|], n);
    assert input[p..p + |k|][..n] == input[p..pointer + 1];
  }

  /** When no keyword starts with the candidate of length `pointer + 1 - p`, every keyword spelled at `p` is shorter. */
  lemma NoKeywordContinues(input: string, p: nat, pointer: nat)
    requires p <= pointer < |input|
    requires forall k {:trigger StartsWith(k, ToLower(input[p..pointer + 1]))} :: k in KeywordValues ==> !StartsWith(k, ToLower(input[p..pointer + 1]))
    ensures forall k {:trigger SpelledAt(input, p, k)} :: k in KeywordValues && SpelledAt(input, p, k) ==> |k| <= pointer - p
  {
    forall k | k in KeywordValues && SpelledAt(input, p, k)
      ensures |k| <= pointer - p
    {
      if |k| > pointer - p {
        KeywordContinues(input, p, pointer, k);
        assert false;
      }
    }
  }

  /**
    One round of `longestMatching`'s loop keeps its invariant: the candidate
    of length `pointer + 1 - p` replaces the match when it is a keyword.
  */
  lemma CandidateStep(words: seq<string>, input: string, p: nat, pointer: nat, before: string, after: string)
    requires p <= pointer < |input|
    requires LongestUpTo(words, input, p, pointer - p, before)
    requires var value := ToLower(input[p..pointer + 1]); after == if value in words then value else before
    ensures LongestUpTo(words, input, p, pointer + 1 - p, after)
  {
    var value := ToLower(input[p..pointer + 1]);
    forall k | k in words && SpelledAt(input, p, k) && |k| == pointer + 1 - p
      ensures k == value
    {
      assert p + |k| == pointer + 1;
    }
  }

  /**
    `KeywordLexer.longestMatching`: grows a lower-cased candidate one character
    at a time, stops at the first length no keyword starts with, and keeps the
    longest candidate that equals a keyword.
  */
  method LongestMatching(input: string, inputCursor: Cursor) returns (longest: string)
    ensures longest == LongestKeyword(input, inputCursor.pointer)
  {
    var initialPointer := inputCursor.pointer;
    var cur := inputCursor;
    longest := "";
    while cur.pointer < |input|
      invariant initialPointer <= cur.pointer
      invariant cur.pointer <= |input| || cur.pointer == initialPointer
      invariant LongestUpTo(KeywordValues, input, initialPointer, cur.pointer - initialPointer, longest)
      decreases |input| - cur.pointer
    {
      var value := ToLower(input[initialPointer..cur.pointer + 1]);
      var matchingOptions := KeywordsStartingWith(value);

      if |matchingOptions| == 0 {
        NoKeywordContinues(input, initialPointer, cur.pointer);
        break;
      }

      ghost var before := longest;
      for i := 0 to |matchingOptions|
        invariant longest == before || (longest == value && value in matchingOptions)
        invariant forall j :: 0 <= j < i && matchingOptions[j] == value ==> longest == value
      {
        var option := matchingOptions[i];
        if option == value && |option| > |longest| {
          longest := option;
        }
      }
      assert StartsWith(value, value);
      assert value in KeywordValues ==> value in matchingOptions;
      CandidateStep(KeywordValues, input, initialPointer, cur.pointer, before, longest);
      cur := cur.(pointer := cur.pointer + 1);
    }
    LongestKeywordUnique(input, initialPointer, longest);
  }

  /**
    What `KeywordLexer.lex` returns: the longest keyword spelled at the cursor becomes a
    KEYWORD token with the keyword's lowercase value; pointer and column move
    past it. Without such a keyword the cursor is returned unchanged.
  */
  function KeywordToken(input: string, cursor: Cursor): (r: LexerResult)
    ensures r.Failure? ==> r.cursor == cursor && forall k {:trigger SpelledAt(input, cursor.pointer, k)} :: k in KeywordValues ==> !SpelledAt(input, cursor.pointer, k)
    ensures r.Success? ==>
      && r.token.value in KeywordValues
      && SpelledAt(input, cursor.pointer, r.token.value)
      && (forall k {:trigger SpelledAt(input, cursor.pointer, k)} :: k in KeywordValues && SpelledAt(input, cursor.pointer, k) ==> |k| <= |r.token.value|)
      && r.token.kind == KEYWORD
      && r.token.loc == cursor.loc
      && r.cursor == Cursor(cursor.pointer + |r.token.value|, Location(cursor.loc.col + |r.token.value|))
  {
    var longest := LongestKeyword(input, cursor.pointer);
    if longest == "" then
      NoKeywordSpelled(input, cursor.pointer);
      Failure(cursor)
    else
      Success(
        Token(longest, KEYWORD, Location(cursor.loc.col)),
        Cursor(cursor.pointer + |longest|, Location(cursor.loc.col + |longest|)))
  }

  /** Every keyword is a word of lowercase letters. */
  lemma KeywordsAreLowercaseWords()
    ensures forall k :: k in KeywordValues ==> 2 <= |k| && forall i :: 0 <= i < |k| ==> 'a' <= k[i] <= 'z'
  {
  }

  /** A keyword spelled at `p` begins with the lowercase of the character there. */
  lemma SpelledFirstChar(input: string, p: nat, k: string)
    requires SpelledAt(input, p, k) && 0 < |k|
    ensures k[0] == LowerChar(input[p])
  {
    assert input[p..p + |k|][0] == input[p];
  }

  /** No keyword starts at a character that is not a letter. */
  lemma NoKeywordWithoutLetter(input: string, cursor: Cursor)
    requires cursor.pointer < |input| && !IsLetter(input[cursor.pointer])
    ensures KeywordToken(input, cursor) == Failure(cursor)
  {
    var m := LongestKeyword(input, cursor.pointer);
    if m != "" {
      KeywordsAreLowercaseWords();
      SpelledFirstChar(input, cursor.pointer, m);
      assert false;
    }
  }

  /** `KeywordLexer.lex`, with its call of `longestMatching`. */
  method KeywordLex(input: string, cursor: Cursor) returns (r: LexerResult)
    ensures r == KeywordToken(input, cursor)
  {
    var longest := LongestMatching(input, cursor);
    if longest == "" {
      return Failure(cursor);
    }
    return Success(
      Token(longest, KEYWORD, Location(cursor.loc.col)),
      Cursor(cursor.pointer + |longest|, Location(cursor.loc.col + |longest|)));
  }

  // ----------------------------------------------------------------- StringLexer

  /**
    The loop of `StringLexer.lex` from `m`, with `value` built so far: the text
    and the pointer past the closing quote, or None when the input ends first.
    A quote followed by a quote appends one quote and moves on by ONE position,
    so the second quote of the pair is examined again. In effect the loop
    decodes nothing: it returns the raw text up to the first quote that is not
    followed by another quote.
  */
  function ScanString(input: string, m: nat, value: string): (r: Wrappers.Option<(string, nat)>)
    requires m <= |input|
    ensures r.Some? ==> m < r.value.1 <= |input|
    decreases |input| - m
  {
    if m < |input| then
      if input[m] == '\'' then
        if m + 1 == |input| || input[m + 1] != '\'' then Wrappers.Some((value, m + 1))
        else ScanString(input, m + 1, value + "'")
      else ScanString(input, m + 1, value + [input[m]])
    else Wrappers.None
  }

  /**
    The scan stops just past the first quote not followed by a quote, and the
    text is everything before that quote; it finds none exactly when every
    quote is followed by a quote.
  */
  lemma ScanStringStops(input: string, m: nat, value: string)
    requires m <= |input|
    ensures var r := ScanString(input, m, value);
      r.Some? ==>
      var (text, end) := r.value;
      && input[end - 1] == '\''
      && (end == |input| || input[end] != '\'')
      && text == value + input[m..end - 1]
      && forall k :: m <= k < end - 1 && input[k] == '\'' ==> input[k + 1] == '\''
    ensures ScanString(input, m, value).None?
        <==> forall k :: m <= k < |input| && input[k] == '\'' ==> k + 1 < |input| && input[k + 1] == '\''
  {
    ScanStringFound(input, m, value);
    ScanStringMissing(input, m, value);
  }

  /** A scan that finds a closing quote: where it stops and the text it collects. */
  lemma {:induction false} ScanStringFound(input: string, m: nat, value: string)
    requires m <= |input|
    ensures var r := ScanString(input, m, value);
      r.Some? ==>
      var (text, end) := r.value;
      && input[end - 1] == '\''
      && (end == |input| || input[end] != '\'')
      && text == value + input[m..end - 1]
      && forall k :: m <= k < end - 1 && input[k] == '\'' ==> input[k + 1] == '\''
    decreases |input| - m
  {
    if m < |input| {
      if input[m] == '\'' {
        if m + 1 == |input| || input[m + 1] != '\'' {
          assert value + input[m..m] == value;
        } else {
          var r := ScanString(input, m + 1, value + "'");
          assert ScanString(input, m, value) == r;
          ScanStringFound(input, m + 1, value + "'");
          if r.Some? {
            assert input[m..r.value.1 - 1] == [input[m]] + input[m + 1..r.value.1 - 1];
            assert [input[m]] == "'";
          }
        }
      } else {
        var r := ScanString(input, m + 1, value + [input[m]]);
        assert ScanString(input, m, value) == r;
        ScanStringFound(input, m + 1, value + [input[m]]);
        if r.Some? {
          assert input[m..r.value.1 - 1] == [input[m]] + input[m + 1..r.value.1 - 1];
        }
      }
    }
  }

  /** A scan finds no closing quote exactly when every quote from `m` on is followed by a quote. */
  lemma {:induction false} ScanStringMissing(input: string, m: nat, value: string)
    requires m <= |input|
    ensures ScanString(input, m, value).None?
        <==> forall k :: m <= k < |input| && input[k] == '\'' ==> k + 1 < |input| && input[k + 1] == '\''
    decreases |input| - m
  {
    if m < |input| {
      if input[m] == '\'' {
        if m + 1 < |input| && input[m + 1] == '\'' {
          ScanStringMissing(input, m + 1, value + "'");
        }
      } else {
        ScanStringMissing(input, m + 1, value + [input[m]]);
      }
    }
  }

  /** What `StringLexer.lex` returns. */
  function StringToken(input: string, cursor: Cursor): (r: LexerResult)
    ensures r.Failure? ==> r.cursor == cursor
    ensures cursor.pointer >= |input| || input[cursor.pointer] != '\'' ==> r.Failure?
    ensures r.Success? ==>
      && r.token.kind == STRING
      && r.token.loc == cursor.loc
      && cursor.pointer + 2 <= r.cursor.pointer <= |input|
      && Aligned(r.cursor)
      && input[cursor.pointer] == '\''
      && input[r.cursor.pointer - 1] == '\''
      && r.token.value == input[cursor.pointer + 1..r.cursor.pointer - 1]
  {
    if cursor.pointer >= |input| then Failure(cursor)
    else if input[cursor.pointer] != '\'' then Failure(cursor)
    else
      ScanStringStops(input, cursor.pointer + 1, "");
      match ScanString(input, cursor.pointer + 1, "")
      case None => Failure(cursor)
      case Some((value, end)) =>
        Success(Token(value, STRING, Location(cursor.loc.col)), Cursor(end, Location(end)))
  }

  /** `StringLexer.lex` */
  method StringLex(input: string, cursor: Cursor) returns (r: LexerResult)
    ensures r == StringToken(input, cursor)
  {
    if cursor.pointer >= |input| {
      return Failure(cursor);
    }
    if input[cursor.pointer] != '\'' {
      return Failure(cursor);
    }
    var value := "";
    var movingPointer := cursor.pointer + 1;
    while movingPointer < |input|
      invariant cursor.pointer < movingPointer <= |input|
      invariant ScanString(input, cursor.pointer + 1, "") == ScanString(input, movingPointer, value)
      decreases |input| - movingPointer
    {
      var nextCharacter := input[movingPointer];
      if nextCharacter == '\'' {
        if movingPointer + 1 == |input| || input[movingPointer + 1] != '\'' {
          movingPointer := movingPointer + 1;
          return Success(
            Token(value, STRING, Location(cursor.loc.col)),
            Cursor(movingPointer, Location(movingPointer)));
        } else {
          assert ScanString(input, movingPointer, value) == ScanString(input, movingPointer + 1, value + "'");
          value := value + "'";
          movingPointer := movingPointer + 1;
        }
      } else {
        assert ScanString(input, movingPointer, value) == ScanString(input, movingPointer + 1, value + [nextCharacter]);
        value := value + [nextCharacter];
        movingPointer := movingPointer + 1;
      }
    }
    return Failure(cursor);
  }

  /**
    A string whose content holds no quote comes back verbatim, with the cursor
    just past the closing quote (provided no quote follows the closing one).
  */
  lemma QuoteFreeString(input: string, cursor: Cursor, close: nat)
    requires cursor.pointer < close < |input|
    requires input[cursor.pointer] == '\'' && input[close] == '\''
    requires forall k :: cursor.pointer < k < close ==> input[k] != '\''
    requires close + 1 == |input| || input[close + 1] != '\''
    ensures StringToken(input, cursor)
         == Success(Token(input[cursor.pointer + 1..close], STRING, cursor.loc), Cursor(close + 1, Location(close + 1)))
  {
    ScanStringStops(input, cursor.pointer + 1, "");
  }

  /**
    As written, a doubled quote is not decoded: `'it''s'` yields the text `it'`
    and leaves the cursor on the `s`.
  */
  lemma EscapedQuoteAsWritten()
    ensures StringToken("'it''s'", Start) == Success(Token("it'", STRING, Location(0)), Cursor(5, Location(5)))
  {
  }

  /**
    The scan the comment at the escape evidently intends: a doubled quote
    stands for one quote, and the scan moves past both.
  */
  function ScanStringCorrected(input: string, m: nat, value: string): (r: Wrappers.Option<(string, nat)>)
    requires m <= |input|
    ensures r.Some? ==>
      var (_, end) := r.value;
      && m < end <= |input|
      && input[end - 1] == '\''
      && (end == |input| || input[end] != '\'')
    decreases |input| - m
  {
    if m < |input| then
      if input[m] == '\'' then
        if m + 1 == |input| || input[m + 1] != '\'' then Wrappers.Some((value, m + 1))
        else ScanStringCorrected(input, m + 2, value + "'")
      else ScanStringCorrected(input, m + 1, value + [input[m]])
    else Wrappers.None
  }

  /** `StringLexer.lex` with the corrected scan. */
  function CorrectedStringToken(input: string, cursor: Cursor): (r: LexerResult)
    ensures r.Failure? ==> r.cursor == cursor
    ensures cursor.pointer >= |input| || input[cursor.pointer] != '\'' ==> r.Failure?
    ensures r.Success? ==>
      && r.token.kind == STRING
      && r.token.loc == cursor.loc
      && cursor.pointer + 2 <= r.cursor.pointer <= |input|
      && Aligned(r.cursor)
      && input[cursor.pointer] == '\''
      && input[r.cursor.pointer - 1] == '\''
  {
    if cursor.pointer >= |input| then Failure(cursor)
    else if input[cursor.pointer] != '\'' then Failure(cursor)
    else
      match ScanStringCorrected(input, cursor.pointer + 1, "")
      case None => Failure(cursor)
      case Some((value, end)) =>
        Success(Token(value, STRING, Location(cursor.loc.col)), Cursor(end, Location(end)))
  }

  /** A text with every quote doubled, as SQL writes it between quotes. */
  function Escaped(s: string): (e: string)
    ensures |s| <= |e|
  {
    if s == [] then ""
    else if s[0] == '\'' then "''" + Escaped(s[1..])
    else [s[0]] + Escaped(s[1..])
  }

  /** The SQL string literal of a text. */
  function Quoted(s: string): string {
    "'" + Escaped(s) + "'"
  }

  /** The corrected scan reads an escaped text standing at `m`, up to the closing quote, back as the text. */
  lemma {:induction false} ScanEscaped(input: string, m: nat, s: string, value: string)
    requires m + |Escaped(s)| < |input| && input[m..m + |Escaped(s)|] == Escaped(s)
    requires input[m + |Escaped(s)|] == '\''
    requires m + |Escaped(s)| + 1 == |input| || input[m + |Escaped(s)| + 1] != '\''
    ensures ScanStringCorrected(input, m, value) == Wrappers.Some((value + s, m + |Escaped(s)| + 1))
    decreases |s|
  {
    var e := Escaped(s);
    if s == [] {
      assert value + s == value;
    } else {
      var tail := Escaped(s[1..]);
      var step := if s[0] == '\'' then 2 else 1;
      assert e == (if s[0] == '\'' then "''" else [s[0]]) + tail;
      assert input[m] == e[0];
      assert s[0] == '\'' ==> input[m + 1] == e[1];
      assert input[m + step..m + step + |tail|] == e[step..];
      ScanEscaped(input, m + step, s[1..], value + [s[0]]);
      assert value + [s[0]] + s[1..] == value + s;
    }
  }

  /**
    With the corrected scan, the literal of any text reads back as that text,
    wherever it stands, provided no quote follows the closing one.
  */
  lemma CorrectedStringRoundTrip(pre: string, s: string, rest: string)
    requires rest == [] || rest[0] != '\''
    ensures var end := |pre| + |Quoted(s)|;
      CorrectedStringToken(pre + Quoted(s) + rest, Cursor(|pre|, Location(|pre|)))
      == Success(Token(s, STRING, Location(|pre|)), Cursor(end, Location(end)))
  {
    var input := pre + Quoted(s) + rest;
    var e := Escaped(s);
    assert input == (pre + "'") + e + "'" + rest;
    assert input[|pre|] == '\'';
    assert input[|pre| + 1..|pre| + 1 + |e|] == e;
    ScanEscaped(input, |pre| + 1, s, "");
    assert "" + s == s;
  }

  /** The as-written scan does not read `'it''s'` back as `it's`; the corrected one does. */
  lemma EscapedQuoteCorrected()
    ensures Quoted("it's") == "'it''s'"
    ensures CorrectedStringToken("'it''s'", Start) == Success(Token("it's", STRING, Location(0)), Cursor(7, Location(7)))
    ensures StringToken(Quoted("it's"), Start).token.value != "it's"
  {
    assert Escaped("s") == "s" + Escaped("");
    assert Escaped("'s") == "''" + Escaped("s");
    assert Escaped("t's") == "t" + Escaped("'s");
    assert Escaped("it's") == "i" + Escaped("t's");
    var q := Quoted("it's");
    assert q == "'it''s'";
    CorrectedStringRoundTrip("", "it's", "");
    assert "" + q + "" == q;
    assert Cursor(|""|, Location(|""|)) == Start;
    EscapedQuoteAsWritten();
  }

  // ----------------------------------------------------------------- SymbolLexer

  /**
    `SymbolLexer.lex`: a blank is skipped (a `Failure` whose cursor has moved
    one position, with no token); one of `; * , ( )` becomes a one-character
    SYMBOL token; anything else is a `Failure` at the unchanged cursor.
  */
  function SymbolLex(input: string, cursor: Cursor): (r: LexerResult)
    requires cursor.pointer < |input|
    ensures r.Failure? && r.cursor != cursor <==> IsBlank(input[cursor.pointer])
    ensures r.Success? <==> IsSymbolChar(input[cursor.pointer])
    ensures r.Failure? && r.cursor != cursor ==> r.cursor == Cursor(cursor.pointer + 1, Location(cursor.pointer + 1))
    ensures r.Success? ==>
      && r.token == Token([input[cursor.pointer]], SYMBOL, Location(cursor.pointer))
      && r.cursor == Cursor(cursor.pointer + 1, Location(cursor.pointer + 1))
  {
    var currentChar := input[cursor.pointer];
    if IsBlank(currentChar) then
      Failure(Cursor(cursor.pointer + 1, Location(cursor.pointer + 1)))
    else if IsSymbolChar(currentChar) then
      Success(Token([currentChar], SYMBOL, Location(cursor.pointer)), Cursor(cursor.pointer + 1, Location(cursor.pointer + 1)))
    else
      Failure(cursor)
  }

  // ---------------------------------------------------------------- NumericLexer

  predicate IsDigitOrDot(c: char) { IsDigit(c) || c == '.' }

  /** The end of the longest run of characters of a class starting at `i`. */
  function RunEnd(s: string, i: nat, inClass: char -> bool): (e: nat)
    requires i <= |s|
    ensures i <= e <= |s|
    ensures forall k :: i <= k < e ==> inClass(s[k])
    ensures e == |s| || !inClass(s[e])
    decreases |s| - i
  {
    if i < |s| && inClass(s[i]) then RunEnd(s, i + 1, inClass) else i
  }

  /** Only the first index outside the class ends the run. */
  lemma RunEndAt(s: string, i: nat, inClass: char -> bool, e: nat)
    requires i <= e <= |s|
    requires forall k :: i <= k < e ==> inClass(s[k])
    requires e == |s| || !inClass(s[e])
    ensures RunEnd(s, i, inClass) == e
  {
  }

  function CountDots(s: string): nat {
    if s == [] then 0 else CountDots(s[..|s| - 1]) + (if s[|s| - 1] == '.' then 1 else 0)
  }

  /** Extending a slice by one character counts that character's dot. */
  lemma CountDotsExtend(input: string, q: nat, j: nat)
    requires q <= j < |input|
    ensures CountDots(input[q..j + 1]) == CountDots(input[q..j]) + (if input[j] == '.' then 1 else 0)
  {
    assert input[q..j + 1][..j - q] == input[q..j];
  }

  lemma {:induction false} CountDotsPrefix(s: string, j: nat)
    requires j <= |s|
    ensures CountDots(s[..j]) <= CountDots(s)
    decreases |s|
  {
    if j < |s| {
      assert s[..|s| - 1][..j] == s[..j];
      CountDotsPrefix(s[..|s| - 1], j);
    } else {
      assert s[..j] == s;
    }
  }

  lemma {:induction false} CountDotsNotDotFirst(c: char, s: string)
    requires c != '.'
    ensures CountDots([c] + s) == CountDots(s)
    decreases |s|
  {
    if s != [] {
      assert ([c] + s)[..|s|] == [c] + s[..|s| - 1];
      CountDotsNotDotFirst(c, s[..|s| - 1]);
    }
  }

  predicate HasDigit(s: string) { exists i :: 0 <= i < |s| && IsDigit(s[i]) }

  /** The text of a NUMERIC token: a digit, `-` or `.`, then digits and dots, at most one dot, some digit. */
  predicate NumericShape(v: string) {
    && 1 <= |v|
    && (IsDigit(v[0]) || v[0] == '-' || v[0] == '.')
    && (forall i :: 1 <= i < |v| ==> IsDigitOrDot(v[i]))
    && CountDots(v) <= 1
    && HasDigit(v)
  }

  /**
    What `NumericLexer.lex` returns, stated on the text rather than the loop:
    after an optional leading digit or `-`, the longest run of digits and dots;
    a run holding two dots fails even though a prefix of it was a number; the
    text read is a number (Kotlin's `toDoubleOrNull` succeeds) exactly when it
    holds a digit.
  */
  function NumericToken(input: string, cursor: Cursor): (r: LexerResult)
    requires cursor.pointer < |input|
    ensures r.Failure? ==> r.cursor == cursor
    ensures r.Success? ==>
      var end := r.cursor.pointer;
      && cursor.pointer < end <= |input|
      && r.cursor == Cursor(end, Location(end))
      && r.token == Token(input[cursor.pointer..end], NUMERIC, Location(cursor.pointer))
      && NumericShape(r.token.value)
      && (end == |input| || !IsDigitOrDot(input[end]))
  {
    var p := cursor.pointer;
    var q := NumericRunStart(input, p);
    var end := RunEnd(input, q, IsDigitOrDot);
    if CountDots(input[q..end]) >= 2 then Failure(cursor)
    else if !HasDigit(input[p..end]) then Failure(cursor)
    else
      assert q == p + 1 ==> input[p..end] == [input[p]] + input[q..end] && input[p] != '.';
      assert q == p + 1 ==> CountDots(input[p..end]) == CountDots(input[q..end]) by {
        if q == p + 1 { CountDotsNotDotFirst(input[p], input[q..end]); }
      }
      Success(Token(input[p..end], NUMERIC, Location(p)), Cursor(end, Location(end)))
  }

  /** Where the digit-and-dot loop of `NumericLexer.lex` starts: past a leading digit or `-`. */
  function NumericRunStart(input: string, p: nat): nat
    requires p < |input|
  {
    if IsDigit(input[p]) || input[p] == '-' then p + 1 else p
  }

  /** A second dot inside the run fails the whole token. */
  lemma SecondDotFails(input: string, cursor: Cursor, m: nat)
    requires cursor.pointer < |input|
    requires NumericRunStart(input, cursor.pointer) <= m < |input|
    requires forall k :: NumericRunStart(input, cursor.pointer) <= k < m ==> IsDigitOrDot(input[k])
    requires CountDots(input[NumericRunStart(input, cursor.pointer)..m]) == 1 && input[m] == '.'
    ensures NumericToken(input, cursor) == Failure(cursor)
  {
    var q := NumericRunStart(input, cursor.pointer);
    var end := RunEnd(input, q, IsDigitOrDot);
    assert m < end;
    var run := input[q..end];
    assert run[..m + 1 - q] == input[q..m + 1];
    CountDotsExtend(input, q, m);
    CountDotsPrefix(run, m + 1 - q);
    assert CountDots(run) >= 2;
  }

  /** A run that ends without a second dot gives a token exactly when it holds a digit. */
  lemma RunEndsNumeric(input: string, cursor: Cursor, m: nat)
    requires cursor.pointer < |input|
    requires NumericRunStart(input, cursor.pointer) <= m <= |input|
    requires forall k :: NumericRunStart(input, cursor.pointer) <= k < m ==> IsDigitOrDot(input[k])
    requires m == |input| || !IsDigitOrDot(input[m])
    requires CountDots(input[NumericRunStart(input, cursor.pointer)..m]) <= 1
    ensures NumericToken(input, cursor)
         == if HasDigit(input[cursor.pointer..m]) then Success(Token(input[cursor.pointer..m], NUMERIC, Location(cursor.pointer)), Cursor(m, Location(m)))
            else Failure(cursor)
  {
    RunEndAt(input, NumericRunStart(input, cursor.pointer), IsDigitOrDot, m);
  }

  /** One more digit or dot read by the loop of `NumericLexer.lex`. */
  lemma NumericRunGrows(input: string, p: nat, q: nat, m: nat)
    requires p <= q <= m < |input|
    requires forall k :: q <= k < m ==> IsDigitOrDot(input[k])
    ensures input[p..m + 1] == input[p..m] + [input[m]]
    ensures CountDots(input[q..m + 1]) == CountDots(input[q..m]) + (if input[m] == '.' then 1 else 0)
    ensures IsDigitOrDot(input[m]) ==> forall k :: q <= k < m + 1 ==> IsDigitOrDot(input[k])
  {
    CountDotsExtend(input, q, m);
  }

  /** `NumericLexer.lex` */
  method NumericLex(input: string, cursor: Cursor) returns (r: LexerResult)
    requires cursor.pointer < |input|
    ensures r == NumericToken(input, cursor)
  {
    var movingPointer := cursor.pointer;
    var result := "";
    var firstChar := input[movingPointer];
    if IsDigit(firstChar) || firstChar == '-' {
      result := result + [firstChar];
      movingPointer := movingPointer + 1;
    }
    ghost var q := movingPointer;
    assert q == NumericRunStart(input, cursor.pointer);

    var foundPointer := false;
    while movingPointer < |input|
      invariant q <= movingPointer <= |input|
      invariant result == input[cursor.pointer..movingPointer]
      invariant forall k :: q <= k < movingPointer ==> IsDigitOrDot(input[k])
      invariant CountDots(input[q..movingPointer]) == if foundPointer then 1 else 0
      decreases |input| - movingPointer
    {
      var currentChar := input[movingPointer];
      NumericRunGrows(input, cursor.pointer, q, movingPointer);
      if IsDigit(currentChar) {
        result := result + [currentChar];
        movingPointer := movingPointer + 1;
      } else if currentChar == '.' {
        if foundPointer {
          SecondDotFails(input, cursor, movingPointer);
          return Failure(cursor);
        }
        foundPointer := true;
        result := result + [currentChar];
        movingPointer := movingPointer + 1;
      } else {
        break;
      }
    }
    RunEndsNumeric(input, cursor, movingPointer);

    // `result.toDoubleOrNull()` is null exactly when the text holds no digit
    if !HasDigit(result) {
      return Failure(cursor);
    }
    return Success(
      Token(result, NUMERIC, Location(cursor.pointer)),
      Cursor(movingPointer, Location(movingPointer)));
  }

  // ------------------------------------------------------------- IdentifierLexer

  /** The text of an IDENTIFIER token: a letter, then letters and digits (no underscore). */
  predicate IdentifierShape(v: string) {
    1 <= |v| && IsLetter(v[0]) && forall i :: 1 <= i < |v| ==> IsLetterOrDigit(v[i])
  }

  /**
    What `IdentifierLexer.lex` returns: a letter followed by the longest run of
    letters and digits; no identifier starts with anything but a letter.
  */
  function IdentifierToken(input: string, cursor: Cursor): (r: LexerResult)
    requires cursor.pointer < |input|
    ensures r.Failure? <==> !IsLetter(input[cursor.pointer])
    ensures r.Failure? ==> r.cursor == cursor
    ensures r.Success? ==>
      var end := r.cursor.pointer;
      && cursor.pointer < end <= |input|
      && r.cursor == Cursor(end, Location(end))
      && r.token == Token(input[cursor.pointer..end], IDENTIFIER, Location(cursor.pointer))
      && IdentifierShape(r.token.value)
      && (end == |input| || !IsLetterOrDigit(input[end]))
  {
    var p := cursor.pointer;
    if !IsLetter(input[p]) then Failure(cursor)
    else
      var end := RunEnd(input, p + 1, IsLetterOrDigit);
      Success(Token(input[p..end], IDENTIFIER, Location(p)), Cursor(end, Location(end)))
  }

  /** `IdentifierLexer.lex` */
  method IdentifierLex(input: string, cursor: Cursor) returns (r: LexerResult)
    requires cursor.pointer < |input|
    ensures r == IdentifierToken(input, cursor)
  {
    var firstChar := input[cursor.pointer];
    if !IsLetter(firstChar) {
      return Failure(cursor);
    }
    var result := [firstChar];
    var movingPointer := cursor.pointer + 1;
    while movingPointer < |input|
      invariant cursor.pointer < movingPointer <= |input|
      invariant result == input[cursor.pointer..movingPointer]
      invariant forall k :: cursor.pointer < k < movingPointer ==> IsLetterOrDigit(input[k])
      decreases |input| - movingPointer
    {
      var currentChar := input[movingPointer];
      if IsLetterOrDigit(currentChar) {
        result := result + [currentChar];
        movingPointer := movingPointer + 1;
      } else {
        break;
      }
    }
    RunEndAt(input, cursor.pointer + 1, IsLetterOrDigit, movingPointer);
    return Success(
      Token(result, IDENTIFIER, Location(cursor.pointer)),
      Cursor(movingPointer, Location(movingPointer)));
  }
}
