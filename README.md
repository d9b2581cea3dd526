# A verified model of the `round` expression lexer

This project models the lexer of the `round` expression language (package
`org.dreamcat.round.lex`) in Dafny and proves properties of the model. The lexer turns an
expression string into a stream of tokens. Each token remembers its `[start, end)` span and,
in the eager stream, its line and column.

The model has these parts:

- **Tokens** (`tokens.dfy`, `operators.dfy`, `punctuation.dfy`, `numbers.dfy`):
  - `Tokens.Token` is one closed sum type covering the identifier, string, number, operator,
    punctuation and comment classes.
  - The capability queries default to false. The accessors are unsupported outside their own
    kind, so they are preconditions.
  - Equality and hashing follow the source's `equals`/`hashCode` on values: identifiers compare
    by spelling, value tokens by value. Object identity, which decides the rest in Java, is
    approximated by structural equality (see "Left out").
  - The operator table is written out as it stands: raw symbol, alias, priority and
    associativity. `search` finds the longest operator at an offset.
  - Punctuation lookup goes through a character map.
  - `parseNumber` chooses a number class by strategy. Integer literals follow `new BigInteger`,
    floating literals the syntax `new BigDecimal` accepts.
- **TokenInfo** (`token_info.dfy`):
  - A class with a fixed span and original token, and a replaceable wrapped token.
  - Its line/column fields start at 0, meaning "not computed".
- **Positions** (`positions.dfy`):
  - The line/column walk: a newline starts a new line at column 1; any other character moves
    one column on.
  - Two uses of it: the incremental position computation of the eager streams, and the position
    of a lexical error.
- **The rule machine** (`scanner.dfy`), which both lexers run at each index:
  - skip characters `<= ' '`;
  - then try single-line comments, block comments, identifiers/keywords, numbers, string
    literals, punctuation and operators, in that order;
  - otherwise report an invalid token.

  `Scanner.NextToken` is one step. `Scanner.ScanAll` is the whole scan of an expression. Both are
  pure specification functions. The rules say where scanning resumes after a block comment:
  `PastEnd`, one character past its end, is what both lexers do; `AtEnd` is the corrected scan
  (see "Findings").
- **The configuration** (`lex_config.dfy`): `LexConfig` with its defaults, `addKeyword`,
  `parseNumber` and the default lexical-exception producer.
- **The eager lexer** (`lexer.dfy`): `Lexer.lex` is an imperative loop that appends to a
  `SimpleTokenStream` and updates the two interning caches. It is proved to produce exactly the
  spans, caches and error of `ScanAll` with the `PastEnd` resume, in a fresh stream with exact
  positions and the cursor at the head.
- **The streams**:
  - `SimpleTokenStream` (`simple_stream.dfy`) and `SimpleTokenInfoStream`
    (`simple_info_stream.dfy`) are cursor classes over the token list.
  - Their `add` computes each token's position incrementally from the previous token. This is
    proved equal to the walk from the start of the text.
  - `LazyTokenStream` (`lazy_stream.dfy`) reads one token per `hasNext`. Its buffer only grows,
    and it holds, in order, the spans `ScanAll` finds. After a read that raised a lexical error,
    the next read resumes one past the failing character, as the source's `i++` does, and the
    spans read from then on are those of the scan from there.
- **Diagnostics** (`diagnostics.dfy`):
  - The default syntax-exception producer (`produceSyntaxCompileException` and `computeNearBy`),
    driven by the lazy stream's `throwWrongSyntax`.
  - Its sample of the expression around the reported token covers the token and is at most
    `sampleCharCount` characters long.

Helpers that the lexer calls but that are not part of this model are parameters of the model
(`Scanner.Collaborators`), each with the span contract the lexer relies on:

- `StringUtil.isFirstVariableChar`, `isNumberChar` and `unescape`;
- `StringSearcher.searchVar` and `searchLiteral`;
- `NumberSearcher.search`;
- `NumberUtil.parseNumber` and `isDoubleRange`.

Behaviour of the code that the model keeps on purpose:

- A comment marker counts only if at least one character follows it (`i < size - width`).
  Hence `//` at the very end of the text is two DIV operators.
- A number or string literal that the searcher rejects is reported at `size - 1`, not at the
  literal.
- An unterminated block comment is reported at its start.
- After a block comment both lexers resume one character past its end, so that character is
  never scanned (`Scanner.BlockCommentHidesNextCharacter`).
- The lexical error's column is one past the character: the walk also passes the offending
  character. On the first line the column is `offset + 2`.
- The number cache is keyed by literal text. The literal is parsed before the cache is looked
  up, so a strategy change does not affect cached numbers. A literal that `new BigInteger`
  or `new BigDecimal` rejects fails even when it is already cached.
- The lazy stream ignores `identifierValues` (`LexConfig.LazyRules`). It does not compute
  line/column fields, so its tokens keep 0 there.
- `reset` moves the cursor to the mark and clears the mark to 0, so a second `reset` goes to the
  head.
- `SimpleTokenStream.throwWrongSyntax` clamps and so moves the cursor. The lazy stream's does
  not, and its `next`, `previous` and `get` raise through it as written.
- The operator table has no arrow (`->`), triple-dot (`...`) or shift operators. Such text scans
  as shorter operators (`Operators.NoArrowOperator`, `Operators.NoTripleDotOperator`). The model
  follows the table as written.

## Model

| member | source | states |
|---|---|---|
| Tokens.CapabilitiesFollowType | src/main/java/org/dreamcat/round/lex/Token.java:15-89 | a token answers `isIdentifier`, `isValue` and `isOperator` exactly for its own kind and `isDot` only for DOT; comments answer no query |
| Tokens.PunctuationQueriesExact | src/main/java/org/dreamcat/round/lex/PunctuationToken.java:36-94 | each punctuation `isX` query holds for exactly its own constant |
| Tokens.TokenEquals | src/main/java/org/dreamcat/round/lex/IdentifierToken.java:25-34 | equal tokens are of the same kind, and equal tokens that are not value tokens have the same raw text |
| Tokens.TokenEqualsIsEquivalence | src/main/java/org/dreamcat/round/lex/IdentifierToken.java:25-34 | token equality (identifiers by spelling, value tokens by value, enum constants by identity) is reflexive, symmetric and transitive |
| Tokens.Wrap32 | src/main/java/org/dreamcat/round/lex/ValueToken.java:36-39 | the result is a 32-bit int congruent to the argument modulo 2^32, as Java's int arithmetic in `hashCode` |
| Tokens.StringHash | src/main/java/org/dreamcat/round/lex/IdentifierToken.java:36-39 | the hash of a spelling is a 32-bit int |
| Tokens.HashCode | src/main/java/org/dreamcat/round/lex/ValueToken.java:36-39 | a hash code is a 32-bit int, and there is one for every identifier and for every string, int, long and BigInteger value token |
| Tokens.HashAgreesWithEquals | src/main/java/org/dreamcat/round/lex/ValueToken.java:25-39 | tokens that are equal have equal hash codes |
| Tokens.Quoted | src/main/java/org/dreamcat/round/lex/StringToken.java:24-40 | a quoted string token's raw text is the quote, the raw value and the quote (two characters longer than the value); its value is the unescaped raw value; it has no prefix and no second separator |
| Tokens.OfSingle | src/main/java/org/dreamcat/round/lex/StringToken.java:24-28 | the single-quote factory makes `isSingle` true and `isDouble`, `isBacktick`, `isPrefix`, `isSeparator` false |
| Tokens.OfDouble | src/main/java/org/dreamcat/round/lex/StringToken.java:30-34 | the double-quote factory makes only `isDouble` true among the quote styles, with no prefix and no separator |
| Tokens.OfBacktick | src/main/java/org/dreamcat/round/lex/StringToken.java:36-40 | the backtick factory makes only `isBacktick` true among the quote styles, with no prefix and no separator |
| Tokens.OfPrefix | src/main/java/org/dreamcat/round/lex/StringToken.java:42-46 | the raw text is prefix, left character, raw value, right character; `isPrefix` and `isSeparator` hold; the value is the unescaped raw value |
| Tokens.OfSeparator | src/main/java/org/dreamcat/round/lex/StringToken.java:48-52 | the raw text is left, raw value, right; `isSeparator` holds and `isPrefix` does not; the value is the unescaped raw value |
| Tokens.QuoteStyleIgnoredByEquality | src/main/java/org/dreamcat/round/lex/ValueToken.java:25-34 | (example) a single- and a double-quoted string with the same content are equal although their raw texts differ |
| Tokens.SingleLineComment | src/main/java/org/dreamcat/round/lex/CommentToken.java:28-32 | the single-line comment factory keeps the raw text, records the separator, and makes `isSingle` true and `isMultiple` false |
| Tokens.MultiLineComment | src/main/java/org/dreamcat/round/lex/CommentToken.java:34-39 | the block comment factory keeps the raw text, records both separators, and makes `isMultiple` true and `isSingle` false |
| TokenInfos.TokenInfo.constructor | src/main/java/org/dreamcat/round/lex/TokenInfo.java:16-27 | both the original and the wrapped token are the argument, the span is stored, and every line/column field is 0 |
| TokenInfos.TokenInfo.Replace | src/main/java/org/dreamcat/round/lex/TokenInfo.java:35-42 | a bare token replaces the wrapped token and the wrapper is returned; a wrapper argument is returned and nothing changes; positions are untouched |
| Operators.OnlyAssignIsRightAssociative | src/main/java/org/dreamcat/round/lex/OperatorToken.java:14-56 | an operator is right-associative exactly when it is ASSIGN |
| Operators.ComparePriority | src/main/java/org/dreamcat/round/lex/OperatorToken.java:78-82 | `a.comparePriority(b)` holds iff `a` binds tighter (a smaller priority number), or on equal priorities iff `a` is not ASSIGN |
| Operators.ComparePriorityAntisymmetric | src/main/java/org/dreamcat/round/lex/OperatorToken.java:78-82 | for operators of different priority, `a.comparePriority(b)` is the negation of `b.comparePriority(a)` |
| Operators.IsShortCircuit | src/main/java/org/dreamcat/round/lex/OperatorToken.java:84-86 | exactly the operators spelt `&&` and `||` short-circuit |
| Operators.IsDot | src/main/java/org/dreamcat/round/lex/OperatorToken.java:73-76 | exactly the operator spelt `.` is the dot (not `..`) |
| Operators.Search | src/main/java/org/dreamcat/round/lex/OperatorToken.java:88-154 | a found operator ends one or two characters after the offset, inside the text, its raw symbol is the text there, and it is never IDENTIFIER, BRACKET or DOUBLE_COLON |
| Operators.Dispatch | src/main/java/org/dreamcat/round/lex/OperatorToken.java:89-153 | the dispatch on a character and its lookahead returns an operator whose raw symbol starts with the character and, when two long, continues with the lookahead |
| Operators.SearchIsLongestMatch | src/main/java/org/dreamcat/round/lex/OperatorToken.java:91-146 | wherever a searchable operator occurs, `search` finds one, and none occurring there is longer than the one it returns |
| Operators.SearchNoneIffNoOperator | src/main/java/org/dreamcat/round/lex/OperatorToken.java:151-153 | `search` returns null exactly when the character is none of `+-*/%=&|!<>^~.` |
| Operators.NoArrowOperator | src/main/java/org/dreamcat/round/lex/OperatorToken.java:14-38 | (example) `->` scans as SUB followed by GT |
| Operators.NoTripleDotOperator | src/main/java/org/dreamcat/round/lex/OperatorToken.java:91-96 | (example) `...` scans as DOUBLE_DOT followed by DOT |
| Punctuation.RawIsOneChar | src/main/java/org/dreamcat/round/lex/PunctuationToken.java:15-26 | every punctuation raw text is exactly one character |
| Punctuation.KeyInjective | src/main/java/org/dreamcat/round/lex/PunctuationToken.java:15-26 | distinct constants have distinct characters |
| Punctuation.KeysOfAll | src/main/java/org/dreamcat/round/lex/PunctuationToken.java:15-26 | the constants' characters, in declaration order, are `,;:()[]{}@#$` |
| Punctuation.FillLookup | src/main/java/org/dreamcat/round/lex/PunctuationToken.java:100-106 | the static initialiser files every constant under its own character and nothing else |
| Punctuation.SearchRoundTrip | src/main/java/org/dreamcat/round/lex/PunctuationToken.java:96-106 | `search(p.raw[0]) == p` for every constant |
| Punctuation.SearchExact | src/main/java/org/dreamcat/round/lex/PunctuationToken.java:96-98 | `search(c)` finds a constant exactly for the twelve punctuation characters, and that constant's raw text is `c` |
| Numbers.DigitsOfShowNat | src/main/java/org/dreamcat/round/lex/Lexer.java:164 | the decimal digits of a natural number have that number as value |
| Numbers.ParseShowRoundTrip | src/main/java/org/dreamcat/round/lex/Lexer.java:164 | the decimal text of any integer parses back to it |
| Numbers.ParseInteger | src/main/java/org/dreamcat/round/lex/Lexer.java:163-171 | an integer literal parses iff it is decimal; the value is kept; ALWAYS gives BigInteger; RANGE gives int within int range, long within long range outside it, BigInteger beyond |
| Numbers.ParseNumber | src/main/java/org/dreamcat/round/lex/LexConfig.java:88-110 | NONE delegates to the library parser; the integer branch is `ParseInteger`; the floating branch succeeds iff the literal has BigDecimal syntax, keeps the literal, and gives a double exactly under RANGE when it is in double range; a failure carries the literal |
| Numbers.IntegerLiteralIsDecimal | src/main/java/org/dreamcat/round/lex/LexConfig.java:93-99 | every literal `new BigInteger` accepts is also accepted by `new BigDecimal` |
| Numbers.FractionWithExponentIsDecimal | src/main/java/org/dreamcat/round/lex/LexConfig.java:93 | (example) `1.5e-3` is a decimal literal |
| Numbers.LeadingPointIsDecimal | src/main/java/org/dreamcat/round/lex/LexConfig.java:93 | (example) `.5` is a decimal literal |
| Numbers.SignedExponentIsDecimal | src/main/java/org/dreamcat/round/lex/LexConfig.java:93 | (example) `-2E+10` is a decimal literal |
| Numbers.DecimalLiteralRejects | src/main/java/org/dreamcat/round/lex/LexConfig.java:93 | (example) `.`, `1e` and `1.2.3` are not decimal literals, so parsing them fails |
| Numbers.JustPastIntRange | src/main/java/org/dreamcat/round/lex/Lexer.java:165-171 | (example) `2147483648` becomes a long under RANGE and a BigInteger under ALWAYS |
| Positions.WalkMeaning | src/main/java/org/dreamcat/round/lex/SimpleTokenStream.java:106-116 | the walk's line is the start line plus the newlines passed; its column counts from the last newline passed, or from the start column when there is none |
| Positions.WalkComposes | src/main/java/org/dreamcat/round/lex/SimpleTokenStream.java:94-116 | walking `[a, c)` equals walking `[b, c)` from the position reached by walking `[a, b)`, so resuming from the previous token's end equals walking from the start |
| Positions.WalkLineMonotone | src/main/java/org/dreamcat/round/lex/SimpleTokenStream.java:118-129 | a walk never decreases the line, so a token's end line is at least its start line |
| Positions.WalkSpan | src/main/java/org/dreamcat/round/lex/SimpleTokenStream.java:106-129 | the two counting loops compute the walk over `[prev, start)` from the origin and then over `[start, end)` from the start position |
| Positions.ReportPosition | src/main/java/org/dreamcat/round/lex/Lexer.java:176-185 | the error position is the walk over `text[0..offset]` inclusive from (1, 1); its line is one plus the newlines up to and including the offset |
| Positions.ReportedColumnOnFirstLine | src/main/java/org/dreamcat/round/lex/Lexer.java:177-185 | on a first line without newline the reported column is `offset + 2`, one past the walk to the character |
| LexConfigs.LimitRange | src/main/java/org/dreamcat/round/lex/LazyTokenStream.java:207-210 | the value clamped into a non-empty range stays in it, is unchanged inside it, and is the upper bound above it |
| LexConfigs.PutAllLookup | src/main/java/org/dreamcat/round/lex/LexConfig.java:74-86 | after putting a list of keywords, a spelling is present iff it was before or some keyword has it, and every keyword stays filed under its own spelling |
| LexConfigs.LexConfig.constructor | src/main/java/org/dreamcat/round/lex/LexConfig.java:31-70 | the defaults: no keywords, NONE, `//` and `/* */` comments, name `expression`, sample width 256, both flags off |
| LexConfigs.LexConfig.LazyRules | src/main/java/org/dreamcat/round/lex/LazyTokenStream.java:141-146 | the lazy stream's rules are well formed iff the eager ones are, hold no identifier values, and resume one past a block comment |
| LexConfigs.LexConfig.AddKeyword | src/main/java/org/dreamcat/round/lex/LexConfig.java:74-86 | the keyword map becomes the old one with each token put under its spelling, in order; no other field changes |
| LexConfigs.LexConfig.ProduceLexCompileException | src/main/java/org/dreamcat/round/lex/LexConfig.java:128-142 | the exception carries the expression, the offset and the position of the inclusive walk to the offset |
| Scanner.FirstOpening | src/main/java/org/dreamcat/round/lex/Lexer.java:45-48 | the first comment marker, in configuration order, that opens at `i` with at least one character after it |
| Scanner.Openers | src/main/java/org/dreamcat/round/lex/Lexer.java:61-62 | the opening markers of the block comment pairs, in order |
| Scanner.LineEnd | src/main/java/org/dreamcat/round/lex/Lexer.java:49 | the first newline at or after `j`, or the end of the text |
| Scanner.FindCloser | src/main/java/org/dreamcat/round/lex/Lexer.java:66-67 | the first index at or after `j` where the closing marker occurs, or none |
| Scanner.SingleCommentStep | src/main/java/org/dreamcat/round/lex/Lexer.java:43-57 | the rule applies iff a line-comment marker opens at `i`; the comment spans from `i` to the first newline or the end, scanning resumes after that newline, and the caches are unchanged |
| Scanner.BlockCommentStep | src/main/java/org/dreamcat/round/lex/Lexer.java:59-78 | the rule applies iff a block opener opens at `i`; a block comment spans from `i` to the end of its closing marker, or its start is reported as an invalid token; scanning resumes one past the end under `PastEnd` and at the end under `AtEnd` |
| Scanner.IdentifierStep | src/main/java/org/dreamcat/round/lex/Lexer.java:81-92 | the identifier spans `[i, i + |v|)`; a spelling that is neither keyword nor identifier value is the cached token, and only then is it added to the identifier cache |
| Scanner.NumberStep | src/main/java/org/dreamcat/round/lex/Lexer.java:96-108 | a number spans its literal; a cached literal reuses its token and leaves the caches alone; otherwise it is added to the number cache; a rejected literal is an error |
| Scanner.QuotedLiteral | src/main/java/org/dreamcat/round/lex/Lexer.java:112-125 | the string token's quote style is the opening character, its value the unescaped content, and its raw text two characters longer than the content |
| Scanner.TokenStep | src/main/java/org/dreamcat/round/lex/Lexer.java:80-146 | identifier, number, string, punctuation and operator rules in order give a non-empty span inside the text, or an error inside the text |
| Scanner.MatchAt | src/main/java/org/dreamcat/round/lex/Lexer.java:42-146 | at a non-blank character a span starting there and ending inside the text, or an error inside the text; after a block comment scanning resumes where the rules say; after any other token, or under `AtEnd`, it resumes at the end or after one blank character |
| Scanner.NextToken | src/main/java/org/dreamcat/round/lex/Lexer.java:38-146 | the next token starts at the first non-blank character at or after `i`; after a block comment the scan resumes where the rules say, after any other token only blanks are passed over; the scan ends only when nothing but blanks remain; the caches only grow |
| Scanner.ScanAll | src/main/java/org/dreamcat/round/lex/Lexer.java:33-150 | a reported invalid token lies inside the text |
| Scanner.ScanFollowsNextToken | src/main/java/org/dreamcat/round/lex/Lexer.java:38-147 | the whole scan is one step followed by the scan from where that step resumes |
| Scanner.NextTokenAfterBlanks | src/main/java/org/dreamcat/round/lex/LazyTokenStream.java:98-101 | skipping blanks first does not change the next token |
| Scanner.ScanContinues | src/main/java/org/dreamcat/round/lex/LazyTokenStream.java:97-205 | reading one token at a time follows the whole scan: each token read extends the prefix found so far, and the end or an error is the whole scan's |
| Scanner.ScanAtEnd | src/main/java/org/dreamcat/round/lex/Lexer.java:38 | past the end of the text the scan finds nothing |
| Scanner.ScanSkipsBlank | src/main/java/org/dreamcat/round/lex/Lexer.java:40 | a blank character does not change the rest of the scan |
| Scanner.ScanPassesBlank | src/main/java/org/dreamcat/round/lex/Lexer.java:39-40 | a scan in progress that meets a blank is the same scan one character on |
| Scanner.ScanFinishes | src/main/java/org/dreamcat/round/lex/Lexer.java:38-149 | a scan in progress that reaches the end of the text has found all its spans and no error |
| Scanner.ScanStopsAtError | src/main/java/org/dreamcat/round/lex/Lexer.java:75 | a failing match ends the scan with that error and no further spans |
| Scanner.ScanTakesToken | src/main/java/org/dreamcat/round/lex/Lexer.java:90-92 | a successful match contributes its span and the scan continues from its resume index with the updated caches |
| Scanner.ScanAdvances | src/main/java/org/dreamcat/round/lex/Lexer.java:42-146 | one match in a scan in progress either ends the scan with its error or extends the spans found so far |
| Scanner.ScanOrdered | src/main/java/org/dreamcat/round/lex/Lexer.java:38-147 | every emitted span is non-empty, inside the text, starts at a non-blank character, and comes strictly after the previous one without overlap |
| Scanner.OrderedCons | src/main/java/org/dreamcat/round/lex/Lexer.java:38-147 | a span before an ordered list of later spans gives an ordered list |
| Scanner.ScanCoversNonBlank | src/main/java/org/dreamcat/round/lex/Lexer.java:38-147 | what a successful scan covers, under either resume rule: every non-blank character lies in some token's span, or (as written, `PastEnd`, only) is the character right after a block comment |
| Scanner.CorrectedScanCoversNonBlank | src/main/java/org/dreamcat/round/lex/Lexer.java:69-72 | with the block comment resuming at its end (`AtEnd`), every non-blank character of a successfully scanned text lies in some token's span |
| Scanner.BlockCommentHidesNextCharacter | src/main/java/org/dreamcat/round/lex/Lexer.java:69-72 | as both lexers run (`PastEnd`), the character right after any block comment that does not end the text lies in no token's span, whatever it is |
| Scanner.NotCoveredCons | src/main/java/org/dreamcat/round/lex/Lexer.java:38-147 | a character covered neither by the first span nor by the rest is covered by no span of the list |
| Scanner.CoveredExtend | src/main/java/org/dreamcat/round/lex/Lexer.java:38-147 | a character covered by the first span or by the rest is covered by the whole list |
| Scanner.BlankTextHasNoTokens | src/main/java/org/dreamcat/round/lex/Lexer.java:38-40 | a text of blanks only scans to no tokens and no error |
| Scanner.BlanksReachEnd | src/main/java/org/dreamcat/round/lex/LazyTokenStream.java:99-101 | when only blanks remain the next step is the end |
| Scanner.ScanExtendsCaches | src/main/java/org/dreamcat/round/lex/Lexer.java:87-105 | scanning only adds entries to the interning caches, never changes one |
| Scanner.IdentifierLookupOrder | src/main/java/org/dreamcat/round/lex/Lexer.java:83-88 | keywords are looked up first, then identifier values, then the cache; within one lexer a spelling always yields the same identifier token |
| Scanner.BlockCommentSkipsFollowingCharacter | src/main/java/org/dreamcat/round/lex/Lexer.java:69-72 | (example) `/*c*/x` scans to the comment alone as the lexers run; with `AtEnd` the `x` is scanned at 5 |
| Scanner.UnterminatedBlockComment | src/main/java/org/dreamcat/round/lex/Lexer.java:65-75 | (example) `/*x` is an invalid token at offset 0 |
| Scanner.TrailingMarkerIsNotAComment | src/main/java/org/dreamcat/round/lex/Lexer.java:48 | (example) `//` with nothing after it scans as two DIV operators |
| Scanner.LineCommentStopsAtNewline | src/main/java/org/dreamcat/round/lex/Lexer.java:49-53 | (example) in `//c\nx` the comment spans `//c` and scanning resumes after the newline |
| Lexers.Lexer.constructor | src/main/java/org/dreamcat/round/lex/Lexer.java:21-26 | a new lexer has its configuration and empty caches |
| Lexers.Lexer.Clear | src/main/java/org/dreamcat/round/lex/Lexer.java:28-31 | both caches become empty |
| Lexers.Lexer.MatchSingleComment | src/main/java/org/dreamcat/round/lex/Lexer.java:43-57 | the marker loop and the newline search compute `SingleCommentStep` |
| Lexers.Lexer.FindLineEnd | src/main/java/org/dreamcat/round/lex/Lexer.java:49 | the newline search stops at the first newline at or after `j`, or at the end of the text |
| Lexers.Lexer.MatchBlockComment | src/main/java/org/dreamcat/round/lex/Lexer.java:59-78 | the marker loop computes `BlockCommentStep` |
| Lexers.Lexer.FindCloserAt | src/main/java/org/dreamcat/round/lex/Lexer.java:66-67 | the closing-marker search finds the first index at or after `j` where the marker occurs, or none |
| Lexers.Lexer.BlockCommentFrom | src/main/java/org/dreamcat/round/lex/Lexer.java:65-75 | the search for the closing marker computes `BlockCommentStep` under `PastEnd` once an opening marker is found: the comment, with scanning resuming one past its end, or the invalid token at its start |
| Lexers.Lexer.MatchToken | src/main/java/org/dreamcat/round/lex/Lexer.java:80-146 | the rule chain computes `TokenStep` and stores the updated caches only on success |
| Lexers.Lexer.Match | src/main/java/org/dreamcat/round/lex/Lexer.java:42-146 | one pass of the loop body at a non-blank character computes `MatchAt` under `PastEnd` |
| Lexers.Lexer.ThrowInvalidToken | src/main/java/org/dreamcat/round/lex/Lexer.java:176-186 | the counting loop yields the error at the offset with the line one plus the newlines up to and including it |
| Lexers.Lexer.ThrowScanError | src/main/java/org/dreamcat/round/lex/Lexer.java:97-100 | an invalid token becomes a positioned lexical error; a rejected literal becomes a number format error |
| Lexers.Lexer.AddToken | src/main/java/org/dreamcat/round/lex/Lexer.java:90 | appending a token that follows the last one adds a fresh entry with that token and span, and keeps the stream valid, ordered and exactly positioned with its cursor, mark and origin |
| Lexers.Lexer.LexToken | src/main/java/org/dreamcat/round/lex/Lexer.java:42-146 | appending one matched token keeps the stream valid, ordered and exactly positioned, and keeps it a prefix of the whole scan; a failure is the whole scan's error |
| Lexers.Lexer.LexInto | src/main/java/org/dreamcat/round/lex/Lexer.java:36-149 | the scanning loop leaves the caches and the error of the whole scan, and on success the scan's spans in the stream, which stays valid, ordered and exactly positioned |
| Lexers.Lexer.Lex | src/main/java/org/dreamcat/round/lex/Lexer.java:33-150 | `lex` succeeds iff the whole scan (`PastEnd`) has no error; the caches are the scan's caches; a failure is the scan's error; on success a fresh stream on the text whose spans are the scan's spans, valid, ordered, exactly positioned from (1, 1), with cursor and mark 0 |
| SimpleStreams.SimpleTokenStream.constructor | src/main/java/org/dreamcat/round/lex/SimpleTokenStream.java:15-28 | a new stream is empty, with the cursor and mark at 0 and the origin (1, 1) |
| SimpleStreams.SimpleTokenStream.ComputeTokenInfo | src/main/java/org/dreamcat/round/lex/SimpleTokenStream.java:88-135 | the end position is the walk over the token from its start position; after exactly positioned earlier tokens, start and end equal the walk from the beginning of the text |
| SimpleStreams.SimpleTokenStream.Add | src/main/java/org/dreamcat/round/lex/SimpleTokenStream.java:31-35 | exactly one entry is appended, `size` follows, the cursor and mark stay, and order and exact positions are kept |
| SimpleStreams.SimpleTokenStream.Get | src/main/java/org/dreamcat/round/lex/SimpleTokenStream.java:61-65 | inside the list the current entry without moving; otherwise a syntax error with the cursor clamped; the origin and exact positions are kept |
| SimpleStreams.SimpleTokenStream.Next | src/main/java/org/dreamcat/round/lex/SimpleTokenStream.java:39-48 | inside the list the current token and the cursor one on; otherwise a syntax error with the cursor clamped; the origin and exact positions are kept |
| SimpleStreams.SimpleTokenStream.Previous | src/main/java/org/dreamcat/round/lex/SimpleTokenStream.java:50-59 | after the head the previous token and the cursor one back; at the head a syntax error; the origin and exact positions are kept |
| SimpleStreams.SimpleTokenStream.Mark | src/main/java/org/dreamcat/round/lex/SimpleTokenStream.java:67-70 | the mark becomes the cursor; validity, the origin and exact positions are kept |
| SimpleStreams.SimpleTokenStream.Reset | src/main/java/org/dreamcat/round/lex/SimpleTokenStream.java:72-76 | the cursor becomes the mark and the mark becomes 0; validity, the origin and exact positions are kept |
| SimpleStreams.SimpleTokenStream.ThrowWrongSyntax | src/main/java/org/dreamcat/round/lex/SimpleTokenStream.java:80-84 | the cursor is clamped into `[0, size - 1]` and the error carries the entry there, or none when the stream is empty; the origin and exact positions are kept |
| SimpleInfoStreams.SimpleTokenInfoStream.constructor | src/main/java/org/dreamcat/round/lex/SimpleTokenInfoStream.java:11-18 | a new stream is empty and its own origin is (1, 1) |
| SimpleInfoStreams.SimpleTokenInfoStream.Add | src/main/java/org/dreamcat/round/lex/SimpleTokenInfoStream.java:21-26 | a fresh TokenInfo with the token and span is appended, positioned from this class's own origin; order and exact positions are kept |
| SimpleInfoStreams.SimpleTokenInfoStream.Copy | src/main/java/org/dreamcat/round/lex/SimpleTokenInfoStream.java:29-38 | a new stream and list with the same tokens, size, cursor, mark and origin fields; the inherited origin is the default; a valid stream gives a valid copy |
| LazyStreams.InOrderElements | src/main/java/org/dreamcat/round/lex/LazyTokenStream.java:97-205 | the buffered spans are non-empty, inside the text, and do not overlap |
| LazyStreams.InOrderAppend | src/main/java/org/dreamcat/round/lex/LazyTokenStream.java:112-197 | appending a later span keeps the buffer in order |
| LazyStreams.LazyTokenStream.constructor | src/main/java/org/dreamcat/round/lex/LazyTokenStream.java:20-35 | a new stream has `i = -1`, an empty buffer, cursor and mark 0, and follows the whole scan |
| LazyStreams.LazyTokenStream.ReadNextToken | src/main/java/org/dreamcat/round/lex/LazyTokenStream.java:97-205 | a read starts one past `i`, also after an earlier read raised a lexical error, and is judged against the scan from there (`Resumed`); `i` strictly increases; true appends exactly one fresh entry past the old `i` and keeps the rest; false appends none and means that scan is done; an error is that scan's, and `i` is then left on the failing character, the first non-blank past the old `i`, so the next read resumes one past it; once exhausted every call returns false |
| LazyStreams.LazyTokenStream.ReadFollowing | src/main/java/org/dreamcat/round/lex/LazyTokenStream.java:97-205 | the same read on a stream in step with its scan, which is left unchanged; on an error `i` is left on the failing character |
| LazyStreams.LazyTokenStream.Resync | src/main/java/org/dreamcat/round/lex/LazyTokenStream.java:97-98 | the scan the next read follows is the buffered spans and then the scan from one past `i`; on a stream already in step it is the scan it had |
| LazyStreams.LazyTokenStream.NextNonBlank | src/main/java/org/dreamcat/round/lex/LazyTokenStream.java:99-101 | the index moves over blanks only, to the next non-blank character or the end |
| LazyStreams.LazyTokenStream.ReadAt | src/main/java/org/dreamcat/round/lex/LazyTokenStream.java:103-202 | at a non-blank character one entry starting there is appended, or the whole scan's error is raised with `i` left on that character |
| LazyStreams.LazyTokenStream.Append | src/main/java/org/dreamcat/round/lex/LazyTokenStream.java:112-113 | one fresh entry with the step's span is appended and `i` is set to one before where the next read starts: the token's last character, the newline after a line comment, or the character right after a block comment |
| LazyStreams.LazyTokenStream.MatchHere | src/main/java/org/dreamcat/round/lex/LazyTokenStream.java:103-202 | the rule chain gives a span starting at `i` that extends the scan so far, or the whole scan's error |
| LazyStreams.LazyTokenStream.HasNext | src/main/java/org/dreamcat/round/lex/LazyTokenStream.java:37-41 | on any stream, also one left behind by a raised lexical error: true without reading or changing anything when the cursor is inside the buffer; otherwise one token is read from one past `i`, and true means the cursor is now inside the buffer; a raised lexical error leaves `i` on the failing character |
| LazyStreams.LazyTokenStream.Next | src/main/java/org/dreamcat/round/lex/LazyTokenStream.java:43-47 | on any stream, also one left behind by a raised lexical error: the token at the cursor and the cursor one on, reading one token first if needed; a raised lexical error leaves `i` on the failing character; at the end a syntax error on this stream, raised through `throwWrongSyntax` as written |
| LazyStreams.LazyTokenStream.Advance | src/main/java/org/dreamcat/round/lex/LazyTokenStream.java:46 | the buffered token under the cursor, with the cursor one on and nothing else changed |
| LazyStreams.LazyTokenStream.Previous | src/main/java/org/dreamcat/round/lex/LazyTokenStream.java:54-58 | after the head the previous token and the cursor one back, without reading; at the head a syntax error on this stream, raised through `throwWrongSyntax` as written |
| LazyStreams.LazyTokenStream.Get | src/main/java/org/dreamcat/round/lex/LazyTokenStream.java:60-64 | the entry at the cursor without moving; outside the buffer a syntax error on this stream, raised through `throwWrongSyntax` as written |
| LazyStreams.LazyTokenStream.Mark | src/main/java/org/dreamcat/round/lex/LazyTokenStream.java:66-69 | the mark becomes the cursor |
| LazyStreams.LazyTokenStream.Reset | src/main/java/org/dreamcat/round/lex/LazyTokenStream.java:71-75 | the cursor becomes the mark and the mark becomes 0 |
| LazyStreams.LazyTokenStream.Copy | src/main/java/org/dreamcat/round/lex/LazyTokenStream.java:85-93 | a new stream with equal `i`, buffer contents, cursor and mark, sharing the lexer |
| LazyStreams.LazyTokenStream.AdjustedOffset | src/main/java/org/dreamcat/round/lex/LazyTokenStream.java:207-210 | the cursor clamped into the buffer: the cursor itself inside it, the last entry beyond it |
| LazyStreams.LazyTokenStream.ThrowWrongSyntaxAsWritten | src/main/java/org/dreamcat/round/lex/LazyTokenStream.java:77-93 | an empty buffer reports no token and passes this stream; otherwise the adjusted entry and a copy whose cursor is the unclamped one |
| LazyStreams.LazyTokenStream.ThrowWrongSyntax | src/main/java/org/dreamcat/round/lex/LazyTokenStream.java:77-83 | as written, except that the copy's cursor is on the reported entry |
| LazyStreams.SameStateFollows | src/main/java/org/dreamcat/round/lex/LazyTokenStream.java:85-93 | a stream with the same lexer, text and cursor state as one that follows the whole scan follows it too |
| LazyStreams.SameStateResumes | src/main/java/org/dreamcat/round/lex/LazyTokenStream.java:85-93 | a copy with the same lexer, text, buffer and `i` reads on exactly as the original would, whatever its cursor |
| Diagnostics.WalkLeft | src/main/java/org/dreamcat/round/lex/LexConfig.java:185-192 | the backward walk stops at the first token starting at or before the left margin; the left token is the last one passed, or the reported token |
| Diagnostics.StepRight | src/main/java/org/dreamcat/round/lex/LexConfig.java:197-202 | one turn of the forward walk: the next token ending before the right margin is taken, or the walk stops at a token that does not or at the end of the scan |
| Diagnostics.TakeRight | src/main/java/org/dreamcat/round/lex/LexConfig.java:198-202 | with a token buffered under the cursor, it is taken (and the walk's invariant extended by one) exactly when it ends before the right margin; otherwise the stream is left where it was |
| Diagnostics.WalkRight | src/main/java/org/dreamcat/round/lex/LexConfig.java:197-203 | the forward walk stops at the first token ending at or after the right margin, or at the end of the scan; the right token is the last one passed |
| Diagnostics.SampleLeft | src/main/java/org/dreamcat/round/lex/LexConfig.java:184-195 | mark, walk left, reset: the cursor is back where it was, the mark is 0, and the left token is found |
| Diagnostics.SampleRight | src/main/java/org/dreamcat/round/lex/LexConfig.java:196-203 | the unconditional `next` and the forward walk; on an exhausted stream the `next` raises the syntax error again |
| Diagnostics.SampleCovers | src/main/java/org/dreamcat/round/lex/LexConfig.java:182-205 | on source-ordered tokens the substring from the left token's start to the right token's end covers the reported token |
| Diagnostics.SampleAround | src/main/java/org/dreamcat/round/lex/LexConfig.java:182-205 | the sample is the text from the left token to the right token, found by both walks |
| Diagnostics.SampleWithin | src/main/java/org/dreamcat/round/lex/LexConfig.java:179-205 | with margins `(W - width) >> 1` a sample between the stopping tokens is at most `W` characters long |
| Diagnostics.NearByAround | src/main/java/org/dreamcat/round/lex/LexConfig.java:179-205 | for a token no wider than `W`, the sample covers the token and is at most `W` characters long |
| Diagnostics.ComputeNearBy | src/main/java/org/dreamcat/round/lex/LexConfig.java:170-206 | on the stream handed over, also one left behind by a raised lexical error: a token wider than `W` gives its first `W` characters and leaves the stream alone; otherwise the walks' sample, at most `W` long, or the error a walk raises |
| Diagnostics.ProduceNearBy | src/main/java/org/dreamcat/round/lex/LexConfig.java:162-167 | the exception carries the token, its start line and column, and the sample |
| Diagnostics.ProduceSyntaxCompileException | src/main/java/org/dreamcat/round/lex/LexConfig.java:145-168 | null gives the empty-input exception, a bare token the invalid-token one, a non-positive `W` a positioned one without sample, and otherwise a positioned one with the sample |
| Diagnostics.RaiseWrongSyntaxAsWritten | src/main/java/org/dreamcat/round/lex/LazyTokenStream.java:77-93 | as written, on an exhausted stream whose last token fits the sample width the producer raises the same request again on a copy in the same situation |
| Diagnostics.RaiseWrongSyntax | src/main/java/org/dreamcat/round/lex/LazyTokenStream.java:77-83 | with the copy on the reported token the producer never re-enters and leaves the stream as it was; the exception is positioned on the adjusted token with a sample covering it of at most `W` characters |

## Left out

- The library helpers are parameters with span contracts (`Scanner.Collaborators`), not definitions. These are `StringSearcher.searchVar`/`searchLiteral`, `NumberSearcher.search`, `StringUtil.isFirstVariableChar`/`isNumberChar`/`unescape` and `NumberUtil.parseNumber`/`isDoubleRange`.
- `ObjectUtil.limitRange` and `StreamUtil.limitRange` are not part of this model. `LexConfigs.LimitRange` clamps, and on an empty range it yields the lower bound.
- Floating-point literals are kept as their text (`DoubleNum`, `BigDecimalNum`), with no value.
- The NONE strategy returns whatever the library parser gives.
- Numbers.ParseNumber: the floating branch states the syntax accepted and the class chosen, not the numeric value. An exponent beyond the 32-bit range, which `new BigDecimal` also rejects, is accepted here.
- Numbers.ParseNumber: `new BigInteger` and `new BigDecimal` also accept non-ASCII decimal digits (`Character.digit`); the model accepts ASCII digits only.
- Tokens.HashCode: doubles and BigDecimals, enum constants and comment tokens use Java's own or identity hashes, which are not modelled.
- Tokens.TokenEquals: comment tokens are equal in Java only when they are the same object. Values cannot tell two equal-looking comments apart, so here they compare structurally.
- Tokens.TokenEquals: floating values compare by their literal text here. Java compares a Double by its value (`1.0` equals `1.00`) and a BigDecimal by value and scale (`1e1` differs from `10`, `1e1` equals `1E1`).
- Interning identity: the caches hand back an equal token value. That the token is the same object as before, which the interning is for, is not observable in the model.
- Strings are sequences of Unicode scalar values. Java's `String` indexes UTF-16 code units, so offsets and columns differ from the source's for characters outside the Basic Multilingual Plane.
- `ConcurrentHashMap` concurrency: the caches and the keyword map are plain maps.
- Exception message texts (`String.format`) are not modelled. The model keeps only the branch taken and the data carried: `LexError`, `WrongSyntax` and `Diagnostics.SyntaxError`.
- The exception classes are datatypes. `RoundException`, `LexCompileException` and `SyntaxCompileException` themselves are not part of this model.
- User-supplied exception producers are not modelled, only the defaults.
- Lexer.java:186 passes four arguments to a two-argument lex producer. The model uses the default producer's line and column.
- SimpleTokenStream.java:83 passes one argument to a two-argument syntax producer. Its `throwWrongSyntax` is modelled up to the request it makes (`WrongSyntax`), so `computeNearBy` is modelled on the lazy stream only.
- `getIdentifierValues`, used at Lexer.java:85, is not declared in LexConfig.java. It is modelled as the map field `identifierValues`.
- `TokenInfo.of` is not defined in TokenInfo.java. It is modelled as the TokenInfo constructor.
- `getToken()`, called at SimpleTokenStream.java:47 and 58 and LazyTokenStream.java:46 and 57, is declared neither on `TokenInfo` nor on `TokenWrapper`. It is modelled as reading the wrapped `token` field, not `rawToken`; the two differ once `replace` has stored another token.
- `SimpleTokenInfoStream` refers to a `tokens` list and fields of its base class. It is modelled by composition over a `SimpleTokenStream` (`base`) plus its own origin fields.
- The `firstLineNo`/`firstCol` setters, `enableLazy`/`enableTokenInfo` and `name` are plain fields. Nothing in the core reads the flags.
- Token wrapper forwarding: `TokenInfo.Has` and `TokenInfo.GetRaw` are defined as the wrapped token's queries, so they have no contract of their own. `GetOperator` is likewise stated directly as a definition.
- `AbstractToken`, `NumberToken` and `IdentifierValueToken` are folded into `Tokens.Token`.
- `TokenStream` is an interface without behaviour.
- `LazyTokenInfoStream` does not compile against its base class.
- `LexerTest` does file and classpath I/O and printing.
- Comment markers must be non-empty (`Rules.WellFormed`), because the code reads their first character.
- LazyStreams.LazyTokenStream.ReadNextToken: each read is proved to follow the scan from one past `i` with the caches as they are when it starts, whether or not an earlier read raised a lexical error. The scan is not tied to earlier reads when something else (another thread, another stream sharing the lexer) changed the configuration or the caches in between.
- Diagnostics.ComputeNearBy: it is modelled for the token and stream that `throwWrongSyntax` hands the producer: the token is the one at the stream's adjusted cursor, and its span lies inside the text.
- Diagnostics.ComputeNearBy: it takes `sampleCharCount` by value; the producer passes the configuration's field.
- Diagnostics.ComputeNearBy: when the forward walk raises an error, that error is the result; no sample is built.
- Diagnostics.RaiseWrongSyntaxAsWritten: it states the empty-buffer case, that a cursor inside the buffer never re-enters, and the re-entry on an exhausted stream. It does not restate the sample in the other cases, which are those of `RaiseWrongSyntax`.

## Findings

| source | as written | input that shows it | evidently intended | confidence | as-written member | corrected member |
|---|---|---|---|---|---|---|
| src/main/java/org/dreamcat/round/lex/Lexer.java:69-72 | after a block comment the index is set to the comment's exclusive end and the loop's `i++` then passes one more character; the lazy stream does the same (its `i = j` and the `i++` that starts the next read). Both lexers are modelled this way (`PastEnd`) | `/*c*/x`: the `x` is never scanned, so the expression lexes to the comment alone; `a/**/+b` loses the `+` | scanning resumes at the comment's end, as after every other token (`AtEnd`) | not executed | Scanner.BlockCommentHidesNextCharacter | Scanner.CorrectedScanCoversNonBlank |
| src/main/java/org/dreamcat/round/lex/LazyTokenStream.java:77-93 | `throwWrongSyntax` hands the producer a copy whose cursor is not clamped; the default producer calls `next()` on it unconditionally (LexConfig.java:196), which on an exhausted copy calls `throwWrongSyntax` again with another such copy, without end | expression `a` on a lazy stream with the default configuration: `next()` twice; the second call raises, and the producer's `next()` on the copy raises again, and so on | the copy's cursor is on the reported token, as `getAdjusted` chooses it, so the producer's walk starts from that token | not executed | Diagnostics.RaiseWrongSyntaxAsWritten | Diagnostics.RaiseWrongSyntax |
