# kotlinsql in Dafny

A model of the core of kotlinsql, a small SQL database written in Kotlin. It has three parts, each proved against its own specification:

- **The tokenizer** (`Lexer.kt`). Five sub-lexers each try to recognise one token class at a cursor: keywords, symbols (which also skip blanks), single-quoted strings, numbers and identifiers. The driver `SqlLexer.lex` tries them in a fixed order, takes the first that makes progress, and throws when none does.
- **The recursive-descent parser** (`Parser.kt`). It reads SELECT and INSERT statements from the token list. Each statement must be followed by at least one semicolon, and any failure abandons the whole batch.
- **The in-memory engine** (`InMemoryEngine.kt`, with `Cell`, `QueryResult` and the error codes of `Engine.kt`). It keeps a map from table name to table, and creates tables, inserts rows and answers selects.

Files (all modules are top level and import one another):

| file | module | models |
|---|---|---|
| `wrappers.dfy` | `Wrappers` | `Option` and `Result` |
| `text.dfy` | `Text` | ASCII character classes, `lowercase`/`uppercase`, Kotlin's `Int`, `Int.toString()` and `String.toInt()` |
| `lexer_tokens.dfy` | `Tokens` | `Location`, `Keyword`, `Symbol`, `TokenKind`, `Token`, `Cursor`, `LexerResult`; `Build` selects the as-written or corrected code of the two findings below |
| `sub_lexers.dfy` | `SubLexers` | `KeywordLexer`, `StringLexer`, `SymbolLexer`, `NumericLexer`, `IdentifierLexer` |
| `sql_lexer.dfy` | `SqlLexer` | `SqlLexer.lex` |
| `ast.dfy` | `Ast` | `Statement`, `ColumnDefinition`, `ColumnType`, `Literal` |
| `parser.dfy` | `Parser`, `ParserDelimiters` | `Parser`; the literal-list delimiter as written and corrected |
| `engine.dfy` | `Engine` | `StatementExecutionError`, `Cell`, `QueryResult` |
| `in_memory_engine.dfy` | `MemoryEngine` | `InMemoryEngine` and `Table` |

Where the source uses an update loop, the model has a method with that loop. The method's postcondition ties its result (or the engine's new state) to a function, and the properties of the source are proved about that function. For example, `SqlLexer.Lex` returns exactly `SqlLexer.Tokenize`, and `Parser.ParseStatements` returns exactly `Parser.ParseTokens`. Pure code (`SymbolLexer.lex`, the `expect*` predicates, `parseStatement`, `Cell`, the `QueryResult` accessors) is modelled as functions.

Exceptions the source throws are explicit outcomes:
- `RuntimeException(position)` from the tokenizer.
- `NumberFormatException(text)` from `String.toInt()` on a numeric token.
- `IllegalStateException` from `insertData`.
- `IndexOutOfBoundsException`, `NullPointerException` and `NumberFormatException` when reading a query result.

Three behaviours of the code are easy to misread, and the model follows the code:
- Identifiers are letters and digits only, with no underscore (`Lexer.kt:299`).
- Commas between literals are optional (`Parser.kt:152-154`).
- `parseCreateStatement` always fails, so no create statement is ever parsed (`Parser.kt:126-128`).

## Model

| member | source | states |
|---|---|---|
| Tokens.KeywordNamed | src/main/kotlin/com/piotrkafel/kotlinsql/Lexer.kt:11-22 | `Keyword.valueOf`: a name finds a keyword exactly when it is that keyword's upper-case name |
| Text.ParseInt | src/main/kotlin/com/piotrkafel/kotlinsql/Parser.kt:142 | `String.toInt()` succeeds exactly on an optional sign followed by decimal digits whose signed value fits in 32 bits, and then returns that value |
| Text.IntToDecimal | src/main/kotlin/com/piotrkafel/kotlinsql/Engine.kt:51 | `Int.toString()`: the text starts with `-` exactly when the number is negative, and the rest is digits |
| Text.ParseIntOfDecimal | src/main/kotlin/com/piotrkafel/kotlinsql/Engine.kt:45-51 | reading back the decimal text of any `Int` gives that `Int` |
| SubLexers.KeywordsStartingWith | src/main/kotlin/com/piotrkafel/kotlinsql/Lexer.kt:132 | the filtered options are exactly the keywords that start with the prefix |
| SubLexers.LongestKeyword | src/main/kotlin/com/piotrkafel/kotlinsql/Lexer.kt:123-149 | the result is "" or a keyword spelled (ignoring case) at the position, and no keyword spelled there is longer |
| SubLexers.LongestKeywordUnique | src/main/kotlin/com/piotrkafel/kotlinsql/Lexer.kt:123-149 | the longest-match contract determines the match: anything meeting it is `LongestKeyword` |
| SubLexers.NoKeywordSpelled | src/main/kotlin/com/piotrkafel/kotlinsql/Lexer.kt:104 | an empty match means no keyword is spelled at the position |
| SubLexers.LongestMatching | src/main/kotlin/com/piotrkafel/kotlinsql/Lexer.kt:123-149 | the loop of `longestMatching`, which stops at the first prefix no keyword starts with, returns the longest keyword spelled at the cursor |
| SubLexers.KeywordToken | src/main/kotlin/com/piotrkafel/kotlinsql/Lexer.kt:101-121 | Failure with the cursor unchanged exactly when no keyword is spelled at the cursor. Otherwise a KEYWORD token whose lowercase value is the longest keyword there, at the cursor's column, with pointer and column advanced by its length |
| SubLexers.KeywordLex | src/main/kotlin/com/piotrkafel/kotlinsql/Lexer.kt:101-121 | `KeywordLexer.lex` returns `KeywordToken` |
| SubLexers.KeywordsAreLowercaseWords | src/main/kotlin/com/piotrkafel/kotlinsql/Lexer.kt:99 | every keyword value is a word of at least two lowercase letters |
| SubLexers.NoKeywordWithoutLetter | src/main/kotlin/com/piotrkafel/kotlinsql/Lexer.kt:97-104 | the keyword lexer fails, cursor unchanged, at a character that is not a letter |
| SubLexers.ScanStringStops | src/main/kotlin/com/piotrkafel/kotlinsql/Lexer.kt:170-199 | the string loop stops just past the first quote not followed by a quote, and its text is the raw input before that quote. It runs off the end exactly when every quote is followed by a quote |
| SubLexers.StringToken | src/main/kotlin/com/piotrkafel/kotlinsql/Lexer.kt:156-202 | Failure with the cursor unchanged at end of input, at a non-quote, or with no closing quote. Success gives a STRING token at the cursor's column, whose value is the raw input between the opening and closing quotes, and an aligned cursor just past the close |
| SubLexers.StringLex | src/main/kotlin/com/piotrkafel/kotlinsql/Lexer.kt:156-202 | the `StringBuilder` loop returns `StringToken` |
| SubLexers.QuoteFreeString | src/main/kotlin/com/piotrkafel/kotlinsql/Lexer.kt:170-190 | quote-free content comes back verbatim, with the cursor just past the closing quote |
| SubLexers.EscapedQuoteAsWritten | src/main/kotlin/com/piotrkafel/kotlinsql/Lexer.kt:191-194 | `'it''s'` lexes to the text `it'` with the cursor left at 5 |
| SubLexers.ScanStringCorrected | src/main/kotlin/com/piotrkafel/kotlinsql/Lexer.kt:173-194 | the corrected loop stops just past a quote that is not followed by a quote |
| SubLexers.CorrectedStringToken | src/main/kotlin/com/piotrkafel/kotlinsql/Lexer.kt:156-202 | the same failures and token shape as `StringToken`, using the corrected loop |
| SubLexers.ScanEscaped | src/main/kotlin/com/piotrkafel/kotlinsql/Lexer.kt:173-194 | the corrected loop reads an escaped text (quotes doubled) back as the text, ending past its closing quote |
| SubLexers.CorrectedStringRoundTrip | src/main/kotlin/com/piotrkafel/kotlinsql/Lexer.kt:173-194 | with the corrected loop, the quoted and escaped literal of any text, anywhere in the input, lexes back to exactly that text |
| SubLexers.EscapedQuoteCorrected | src/main/kotlin/com/piotrkafel/kotlinsql/Lexer.kt:191-194 | the literal of `it's` is `'it''s'`. The corrected lexer reads it back as `it's` up to position 7, and the as-written lexer does not |
| SubLexers.SymbolLex | src/main/kotlin/com/piotrkafel/kotlinsql/Lexer.kt:209-238 | a blank gives Failure with pointer and column one further. One of `; * , ( )` gives a one-character SYMBOL token and pointer + 1. Anything else gives Failure with the cursor unchanged |
| SubLexers.RunEnd | src/main/kotlin/com/piotrkafel/kotlinsql/Lexer.kt:255-271 | the end of the longest run of a character class: every character before it is in the class, and the one at it is not |
| SubLexers.NumericToken | src/main/kotlin/com/piotrkafel/kotlinsql/Lexer.kt:243-283 | Failure keeps the cursor. Success gives a NUMERIC token of the maximal run (a digit or `-`, then digits and at most one dot, and some digit) at the cursor's column, with the cursor at the run's end |
| SubLexers.SecondDotFails | src/main/kotlin/com/piotrkafel/kotlinsql/Lexer.kt:262-263 | a second dot in the run fails the whole token with the cursor unchanged, whatever prefix was valid |
| SubLexers.RunEndsNumeric | src/main/kotlin/com/piotrkafel/kotlinsql/Lexer.kt:268-281 | a run ending with at most one dot gives a token exactly when it holds a digit |
| SubLexers.NumericLex | src/main/kotlin/com/piotrkafel/kotlinsql/Lexer.kt:243-283 | the loop with `foundPointer` returns `NumericToken` |
| SubLexers.IdentifierToken | src/main/kotlin/com/piotrkafel/kotlinsql/Lexer.kt:288-318 | Failure with the cursor unchanged exactly when the first character is not a letter. Otherwise an IDENTIFIER token of the maximal letter-and-digit run, ending before a character that is neither |
| SubLexers.IdentifierLex | src/main/kotlin/com/piotrkafel/kotlinsql/Lexer.kt:288-318 | the identifier loop returns `IdentifierToken` |
| SqlLexer.Apply | src/main/kotlin/com/piotrkafel/kotlinsql/Lexer.kt:72 | from an aligned cursor, every sub-lexer either fails in place or moves the pointer forward, keeping it aligned, with its token at the old pointer and standing in the input |
| SqlLexer.RunSubLexer | src/main/kotlin/com/piotrkafel/kotlinsql/Lexer.kt:72 | running a sub-lexer's loop returns `Apply` |
| SqlLexer.FirstProgress | src/main/kotlin/com/piotrkafel/kotlinsql/Lexer.kt:71-86 | a result found is a token or a moved cursor, and from an aligned cursor it moves forward with its token standing at the old pointer |
| SqlLexer.FirstProgressIsFirst | src/main/kotlin/com/piotrkafel/kotlinsql/Lexer.kt:71-86 | a result found is that of some sub-lexer, in the order Keyword, Symbol, String, Numeric, Identifier, and every sub-lexer before it failed with the cursor it was given |
| SqlLexer.FirstProgressNone | src/main/kotlin/com/piotrkafel/kotlinsql/Lexer.kt:88-90 | no progress exactly when every remaining sub-lexer fails with the cursor it was given |
| SqlLexer.LexFrom | src/main/kotlin/com/piotrkafel/kotlinsql/Lexer.kt:65-94 | every token stands in the input at its column, which is its start offset; token columns strictly increase; a throw names a position where nothing makes progress |
| SqlLexer.StuckExactly | src/main/kotlin/com/piotrkafel/kotlinsql/Lexer.kt:88-90 | the tokenizer is stuck exactly where every sub-lexer fails in place, and it throws there |
| SqlLexer.BlanksLexToNothing | src/main/kotlin/com/piotrkafel/kotlinsql/Lexer.kt:214-221 | input made only of spaces and tabs yields no tokens |
| SqlLexer.LexStep | src/main/kotlin/com/piotrkafel/kotlinsql/Lexer.kt:69-91 | one round of the driver moves the round's token, if any, in front of the rest |
| SqlLexer.Lex | src/main/kotlin/com/piotrkafel/kotlinsql/Lexer.kt:65-94 | the driver's loop, with its `break`s and `movedPointer`, returns `Tokenize` |
| Parser.ExpectKeywordIsValueOf | src/main/kotlin/com/piotrkafel/kotlinsql/Parser.kt:170-175 | comparing the upper-cased token value with the keyword's name is the same as comparing `Keyword.valueOf` of it with the keyword |
| Parser.KeywordValueUpper | src/main/kotlin/com/piotrkafel/kotlinsql/Parser.kt:174 | upper-casing a keyword's value gives the name `valueOf` looks up |
| Parser.ExpectKeywordOnKeywordValue | src/main/kotlin/com/piotrkafel/kotlinsql/Parser.kt:170-175 | on a lexed keyword value, `expectKeyword` holds exactly when the token is a KEYWORD with that keyword's value |
| Parser.ReadLiteral | src/main/kotlin/com/piotrkafel/kotlinsql/Parser.kt:140-149 | keywords and symbols are rejected, an identifier literal is read only when identifiers are allowed, and `toInt` fails exactly on a NUMERIC token that is not an `Int` |
| Parser.ReadLiteralKinds | src/main/kotlin/com/piotrkafel/kotlinsql/Parser.kt:140-144 | a STRING token becomes its string literal, a NUMERIC token the `Int` it reads as, and an IDENTIFIER token, when allowed, its identifier literal |
| Parser.ListFrom | src/main/kotlin/com/piotrkafel/kotlinsql/Parser.kt:137-157 | a list ends at the end of the tokens or at a delimiter, with the cursor in range. A failure names an unexpected token |
| Parser.ListFromFailureToken | src/main/kotlin/com/piotrkafel/kotlinsql/Parser.kt:137-157 | the unexpected token a failing list names is one of the tokens from the cursor on |
| Parser.ParseLiterals | src/main/kotlin/com/piotrkafel/kotlinsql/Parser.kt:133-157 | fails with `Unexpected end of tokens` exactly when the start is past the tokens. A success ends, in range, at the end of the tokens or at a delimiter |
| Parser.ListFromSpells | src/main/kotlin/com/piotrkafel/kotlinsql/Parser.kt:136-155 | the literals of a successful list are those its tokens spell, one per non-comma token, in token order |
| Parser.ListFromStops | src/main/kotlin/com/piotrkafel/kotlinsql/Parser.kt:140-148 | a token that does not read as a literal ends the list: a number that does not parse gives the number-format error with its text, any other a failure naming the token |
| Parser.ParseComaSeparatedLiterals | src/main/kotlin/com/piotrkafel/kotlinsql/Parser.kt:130-158 | the loop returns `ParseLiterals` |
| Parser.ParseSelect | src/main/kotlin/com/piotrkafel/kotlinsql/Parser.kt:52-83 | no SELECT means no parse. A parse ends after FROM and an identifier whose value is the table name, at least three tokens on, and the columns are the literals spelled between SELECT and FROM |
| Parser.ParseInsert | src/main/kotlin/com/piotrkafel/kotlinsql/Parser.kt:85-124 | a parse needs INSERT INTO, an identifier that is the table name, VALUES and `(`. Its values are the literals spelled up to the closing `)`, with no identifiers allowed |
| Parser.SpellsNoIdentifiers | src/main/kotlin/com/piotrkafel/kotlinsql/Parser.kt:143-145 | a list read without identifiers holds no identifier literal |
| Parser.ParseStatement | src/main/kotlin/com/piotrkafel/kotlinsql/Parser.kt:33-50 | it only ever yields a select or an insert, advancing the cursor. A select is the select parser's result, and an insert is parsed only when the select was not |
| Parser.ParseStatementFirst | src/main/kotlin/com/piotrkafel/kotlinsql/Parser.kt:33-50 | the result is the select parser's unless that one does not parse, and then the insert parser's (the create parser never parses) |
| Parser.StatementsFromStep | src/main/kotlin/com/piotrkafel/kotlinsql/Parser.kt:10-27 | one round of the loop: a failed statement or one no `;` follows abandons the batch, a number-format exception escapes, and a parsed statement stands in front of the statements after its semicolons |
| Parser.SkipSemicolons | src/main/kotlin/com/piotrkafel/kotlinsql/Parser.kt:16-20 | the end of the maximal run of semicolons |
| Parser.StatementsFrom | src/main/kotlin/com/piotrkafel/kotlinsql/Parser.kt:10-27 | a complete batch holds only selects and inserts, and when any token remained, the last token is a semicolon |
| Parser.ParseTokens | src/main/kotlin/com/piotrkafel/kotlinsql/Parser.kt:5-30 | a parse yields only selects and inserts, and a non-empty one only when the last token is a semicolon. It never throws the tokenizer's exception; the only exception is `toInt`'s, on a text that is no `Int` |
| Parser.ParseStatements | src/main/kotlin/com/piotrkafel/kotlinsql/Parser.kt:8-29 | the statement loop, with its inner semicolon loop, returns `ParseTokens` |
| Parser.Parse | src/main/kotlin/com/piotrkafel/kotlinsql/Parser.kt:5-30 | `parse` tokenizes, then parses: it returns `ParseText` |
| ParserDelimiters.AsWrittenStatementFails | src/main/kotlin/com/piotrkafel/kotlinsql/Parser.kt:137 | as written, no statement parses from tokens whose later columns are not 0 |
| ParserDelimiters.AsWrittenParsesNothing | src/main/kotlin/com/piotrkafel/kotlinsql/Parser.kt:5-30 | as written, such tokens parse to the empty list, or the parse throws |
| ParserDelimiters.TokenizedColumns | src/main/kotlin/com/piotrkafel/kotlinsql/Lexer.kt:65-94 | every token after the first that the tokenizer yields stands past column 0 |
| ParserDelimiters.AsWrittenParsesNoText | src/main/kotlin/com/piotrkafel/kotlinsql/Parser.kt:63 | as written, `parse` returns no statement for any input |
| ParserDelimiters.ReadLiteralToken | src/main/kotlin/com/piotrkafel/kotlinsql/Parser.kt:140-149 | the token of a literal reads back as the literal |
| ParserDelimiters.ListRoundTrip | src/main/kotlin/com/piotrkafel/kotlinsql/Parser.kt:135-157 | under either delimiter test, comma-separated literal tokens read back as those literals, whether a delimiter follows them or they run to the end of the tokens |
| ParserDelimiters.ListRunsOffEnd | src/main/kotlin/com/piotrkafel/kotlinsql/Parser.kt:133-157 | a list whose tokens run to the end, with no delimiter, still reads as the whole list under either delimiter test |
| ParserDelimiters.CorrectedSelectRoundTrip | src/main/kotlin/com/piotrkafel/kotlinsql/Parser.kt:52-83 | with the corrected test, the tokens of any select followed by `;` parse to exactly that select |
| ParserDelimiters.OneStatement | src/main/kotlin/com/piotrkafel/kotlinsql/Parser.kt:10-27 | tokens holding one statement that parses, then its semicolon, parse to exactly that statement |
| ParserDelimiters.CorrectedInsertRoundTrip | src/main/kotlin/com/piotrkafel/kotlinsql/Parser.kt:85-124 | with the corrected test, the tokens of any insert of non-identifier values followed by `;` parse to exactly that insert |
| ParserDelimiters.StatementsFromParsed | src/main/kotlin/com/piotrkafel/kotlinsql/Parser.kt:10-27 | a statement parsed and followed by exactly one semicolon stands in front of the batch after that semicolon |
| ParserDelimiters.BatchChainSuffix | src/main/kotlin/com/piotrkafel/kotlinsql/Parser.kt:10-27 | along a chain of such steps that reaches the end of the tokens, the batch from each step completes with the statements from that step on, in order |
| ParserDelimiters.CorrectedBatchRoundTrip | src/main/kotlin/com/piotrkafel/kotlinsql/Parser.kt:5-50 | with the corrected test, the tokens of any sequence of selects and inserts (values without identifiers), each ended by `;`, parse to exactly those statements, in their order |
| ParserDelimiters.SelectNameFromUsersParse | src/test/kotlin/com/piotrkafel/kotlinsql/ParserTest.kt:13-21 | the tokens of `SELECT name from users;` parse to nothing as written, and to the select of `name` from `users` the test expects when corrected |
| Engine.AsInt | src/main/kotlin/com/piotrkafel/kotlinsql/Engine.kt:45 | a cell reads as an `Int` only when its text is a decimal integer |
| Engine.OfIntAsInt | src/main/kotlin/com/piotrkafel/kotlinsql/Engine.kt:45-51 | `Cell.ofInt(n).asInt() == n` |
| Engine.OfStringAsText | src/main/kotlin/com/piotrkafel/kotlinsql/Engine.kt:47-53 | `Cell.ofString(s).asText() == s` |
| Engine.OfIntText | src/main/kotlin/com/piotrkafel/kotlinsql/Engine.kt:51 | the text of an int cell is its decimal digits, after a `-` exactly when negative, and reads back as the number |
| Engine.AsIntOfNonNumber | src/main/kotlin/com/piotrkafel/kotlinsql/Engine.kt:45 | `asInt` fails on any text that is not a decimal integer |
| Engine.WordsAreNotAnInt | src/test/kotlin/com/piotrkafel/kotlinsql/CellTest.kt:10-16 | `Cell.ofString("Talking to myself").asInt()` fails |
| Engine.Field | src/main/kotlin/com/piotrkafel/kotlinsql/Engine.kt:28 | `rows[rowNumber][fieldName]!!` succeeds exactly for a row in range that has the field. It fails with an index error exactly when the row is out of range |
| Engine.GetInt | src/main/kotlin/com/piotrkafel/kotlinsql/Engine.kt:27-29 | `getInt` succeeds with the number of the field's cell, and fails with a number-format error only when the field exists but is not an `Int` |
| Engine.GetString | src/main/kotlin/com/piotrkafel/kotlinsql/Engine.kt:31-33 | `getString` succeeds with the field's text, and never fails with a number-format error |
| Engine.GetIntOfInt | src/main/kotlin/com/piotrkafel/kotlinsql/Engine.kt:27-29 | a field holding an int cell reads back through `getInt` as its number |
| Engine.GetStringOfString | src/main/kotlin/com/piotrkafel/kotlinsql/Engine.kt:31-33 | a field holding a string cell reads back through `getString` as its text |
| Engine.ReadsOfMissingFields | src/main/kotlin/com/piotrkafel/kotlinsql/Engine.kt:27-33 | a missing row or field fails both reads with the same error |
| MemoryEngine.Creation | src/main/kotlin/com/piotrkafel/kotlinsql/InMemoryEngine.kt:5-9 | an existing name gives `TableAlreadyExistsError` and leaves the map unchanged. Otherwise the name maps to a table with the given columns and no rows, and the other tables are kept |
| MemoryEngine.CellFor | src/main/kotlin/com/piotrkafel/kotlinsql/InMemoryEngine.kt:24-27 | a value fits its column exactly when an int meets INT or a string meets TEXT; an identifier is unsupported |
| MemoryEngine.RowForCells | src/main/kotlin/com/piotrkafel/kotlinsql/InMemoryEngine.kt:19-29 | the values make a row exactly when each fits its column, and then each cell is its value's cell. Otherwise the first misfit decides between the type error and the exception |
| MemoryEngine.Insertion | src/main/kotlin/com/piotrkafel/kotlinsql/InMemoryEngine.kt:11-33 | a missing table gives `TableDoesNotExistError`, and a count mismatch gives `NumberOfValuesDoesNotMatchNumberOfColumns`. No error appends a row. Success appends exactly one row of column-count length and changes no other row or table |
| MemoryEngine.InsertionOutcomes | src/main/kotlin/com/piotrkafel/kotlinsql/InMemoryEngine.kt:19-32 | with the table present and the counts equal: success exactly when every value fits its column, the new row holding each value's cell. Otherwise the first misfit decides: `ValueTypeDoesNotMatchColumnType` exactly when it is a type mismatch, the IllegalStateException exactly when it is an identifier |
| MemoryEngine.ColumnIndex | src/main/kotlin/com/piotrkafel/kotlinsql/InMemoryEngine.kt:43 | `indexOfFirst`: the first column so named, or -1 exactly when there is none |
| MemoryEngine.IdentifiersColumns | src/main/kotlin/com/piotrkafel/kotlinsql/InMemoryEngine.kt:39-48 | the keys are exactly the selected identifiers' names, each associated with its column index, and some index is negative exactly when some identifier names no column |
| MemoryEngine.ResultRowKeys | src/main/kotlin/com/piotrkafel/kotlinsql/InMemoryEngine.kt:53-62 | a result map has exactly the keys of the selected literals |
| MemoryEngine.ResultRowValue | src/main/kotlin/com/piotrkafel/kotlinsql/InMemoryEngine.kt:54-60 | a key no later literal shares holds that literal's cell |
| MemoryEngine.Selection | src/main/kotlin/com/piotrkafel/kotlinsql/InMemoryEngine.kt:35-66 | `TableDoesNotExistError` exactly when the table is missing, and `ColumnDoesNotExistError` exactly when an identifier names no column. Success exactly when neither holds, and then one result map per row, in order |
| MemoryEngine.SelectionSize | src/main/kotlin/com/piotrkafel/kotlinsql/Engine.kt:35 | the result size of a select is the table's row count |
| MemoryEngine.SelectedIdentifier | src/main/kotlin/com/piotrkafel/kotlinsql/InMemoryEngine.kt:59 | an identifier key maps to the row's cell at the first column with that name |
| MemoryEngine.SelectedLiteral | src/main/kotlin/com/piotrkafel/kotlinsql/InMemoryEngine.kt:57-58 | an int key maps to the int's cell, and a string key to the string's cell |
| MemoryEngine.InMemoryEngine.constructor | src/main/kotlin/com/piotrkafel/kotlinsql/InMemoryEngine.kt:3 | the engine starts with no tables |
| MemoryEngine.InMemoryEngine.CreateTable | src/main/kotlin/com/piotrkafel/kotlinsql/InMemoryEngine.kt:5-9 | `createTable` leaves the map and returns as `Creation` says, and keeps every row fitting its table |
| MemoryEngine.InMemoryEngine.InsertData | src/main/kotlin/com/piotrkafel/kotlinsql/InMemoryEngine.kt:11-33 | `insertData`, with its row-building loop, leaves the map and returns as `Insertion` says, and keeps every row fitting its table |
| MemoryEngine.InMemoryEngine.SelectData | src/main/kotlin/com/piotrkafel/kotlinsql/InMemoryEngine.kt:35-66 | `selectData`, with its nested loops, returns `Selection` and changes nothing |
| MemoryEngine.UserAgeScenario | src/test/kotlin/com/piotrkafel/kotlinsql/InMemoryEngineTest.kt:15-32 | creating `user(age INT)`, inserting 13 and selecting `age` gives one row with one field, which reads as 13 |

## Left out

- Unicode: `isLetter`, `isDigit`, `isLetterOrDigit`, `lowercase` and `uppercase` are modelled on ASCII only.
- `toDoubleOrNull` in `NumericLexer` (`Lexer.kt:272`) involves floating point. For the texts the loop builds, it succeeds exactly when the text holds a digit, and that predicate (`HasDigit`) is what the model uses.
- `Keyword.valueOf` throws on a name that is no keyword (`Parser.kt:174`). The model treats that as "not the expected keyword", and the tokenizer only ever produces KEYWORD tokens whose value is a keyword.
- Cell bytes: a Kotlin `Cell` holds the UTF-8 bytes of its text. Here it holds the text, since encoding and decoding are library concerns.
- Unsigned wrap-around of the `UInt` pointers and columns in `Lexer.kt` is not modelled. Positions are natural numbers, bounded by the input length.
- Object identity: a `Table` is a value in the engine's map, so appending a row replaces the map entry instead of mutating a shared `MutableList`. Aliasing of a table outside the engine is not modelled.
- The engine constructor's map argument: only its default, the empty map, is modelled. A caller-supplied map could hold rows shorter than their tables' columns, which the engine's invariant excludes.
- Error messages: the message strings of `ParsingLiteralsResult.Failure` and of the exceptions are data (the offending token, the position, the text), not formatted strings.
- MemoryEngine.UserAgeScenario: the engine test reads the field by index (`rows[0][0]`); the model reads it by its name, `age`.
- `Parser.parse` calls `parseStatement` as a function: its select and insert parsers are straight-line code over a local cursor, so they are functions here and not methods.
- The tokenizer run on the concrete text `SELECT name from users;` is not evaluated. `ParserDelimiters.SelectNameFromUsersParse` starts from the tokens that text consists of, and `ParserDelimiters.AsWrittenParsesNoText` covers every input.
- `build.gradle.kts`, the application entry point and the test harness are not part of this model.

## Findings

| source | as written | input that shows it | evidently intended | confidence | as-written member | corrected member |
|---|---|---|---|---|---|---|
| src/main/kotlin/com/piotrkafel/kotlinsql/Lexer.kt:191-194 | a doubled quote inside a string appends one quote but moves on one position, so the second quote is read again and closes the string | `'it''s'` lexes to the text `it'` with the cursor at the `s`; tokenizing then throws at the final quote | a doubled quote stands for one quote and both are skipped, so `'it''s'` reads as `it's` | not executed | SubLexers.EscapedQuoteAsWritten | SubLexers.CorrectedStringRoundTrip |
| src/main/kotlin/com/piotrkafel/kotlinsql/Parser.kt:137 | the list ends only at a token equal to the delimiter, location included, and the delimiters are built at column 0 (`Parser.kt:63`, `Parser.kt:108`) | the tokens of `SELECT name from users;` (ParserTest.kt) parse to no statement, because `from` stands at column 12 | the list ends at a token with the delimiter's value and kind, wherever it stands | not executed | ParserDelimiters.AsWrittenParsesNoText | ParserDelimiters.CorrectedSelectRoundTrip |

`Build` selects which code runs: `AsWritten` is the code above, and `Corrected` is the evidently intended one. For the string escape, `SubLexers.EscapedQuoteCorrected` shows both on `'it''s'`. For the delimiter, `ParserDelimiters.SelectNameFromUsersParse` shows both on the parser test's tokens, and `ParserDelimiters.CorrectedInsertRoundTrip` proves the insert counterpart.
