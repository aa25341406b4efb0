# Verification of the twerk expression front end and its kernels

These files model, and prove properties of, two parts of twerk.

**The expression front end of the compiler.** `Lexer` states the token table as languages of texts
and the scan as longest match; `LineStarts` converts offsets to lines and columns. `ExprParser` is
the backtracking recursive-descent parser over a cursor that its methods advance and put back. Each
method is proved to compute a function of `ParserSpec`, and to stay within a budget of token tests.
`ExprGrammar` says independently what an expression is: the printer `Flatten`, the precedence rules
`Stratified`, and `WrittenAt`, which places a tree with all its spans on a token list.
`ParserSoundness` and `ParserCompleteness` show that the parser decides exactly that grammar;
`ParserTheorems`, `ParserErrors`, `LexerTheorems` and `FrontEnd` draw the consequences, up to the
statement that the text under any node of a parsed tree parses to that node again. Other modules
tie the definitions used on the way to plain facts: `Precedence` states the shape of parsed trees by
constructors alone, `Spellings` gives texts with their trees, `TokenTable` proves the lexer's rules
against regular expressions with a semantics of their own (`Regexes`), `Gaps` is about blanks and
comments, and `SourceResults` says what parsing any source gives, errors with line and column included.

**Smaller kernels.** `Wildcard` is the dynamic-programming matcher, refined from "the text splits
into pieces that fit the pattern". `Base57` is the encoder of identifiers, an exact order embedding.
`Substrings` gives the meaning of finding and replacing; `FixedPoint`, `Overlaps`, `Redacters` and
`Redaction` are the redaction of texts, of task trees and jobs, and of logs; `CaseBlind` defines
comparison without regard to case, and `Stretches` says which characters redaction keeps. `LogStore` is the in-memory store
of task logs with its pages in machine arithmetic.

A text is a sequence of characters. A source text can be taken as its UTF-8 bytes, one character
each: the token table names ASCII characters only, so that it is the same table for bytes, and
offsets and columns then count bytes as the code does.

Findings that differ from the documentation of the code:

- The comment on `Redacter::wildcard` calls each key a wildcard pattern
  (`crates/twerk-core/src/redact.rs:72`). The code looks for the key as plain text, and so does the model.
- The recursion of `replace_key_until_fixed_point` does not always reach a fixed point: it never
  ends when the text has a key that is itself a part of the marker (`FixedPoint.StopsExactly`).
- A redacter can leave in its output a key that overlaps the marker, although every replacement
  ended (`Redacters.OverlappingKeyComesBack`). A key is never left, whatever keys stand beside it,
  if and only if it is not empty and cannot overlap the marker (`Redacters.SafeExactly`). The same
  holds of secrets in tasks, jobs and logs (`Redaction.HiddenExactly` and the two after it).
- The `job` map of a job's context is not redacted, so a secret in it stays (`Redaction.JobMapStays`).
- Page 0 overflows for every list and every page size but 0, and a negative size overflows on every
  page but the first (`LogStore.OverflowsExactly`). Page 1 of a negative size holds everything although no pages are reported
  (`LogStore.FirstPageOfNoSize`).

## Model

| member | source | states |
|---|---|---|
| SourceResults.SourceParsesExactly | crates/twerk-compiler/src/expr_parser.rs:17-35 | a source parses to a tree if and only if some tokens tile it, the tree is written on all of them, and every node has operands that may stand under it |
| SourceResults.UnexpectedExactly | crates/twerk-compiler/src/expr_parser.rs:17-35 | the error for an unexpected token, exactly: the source lexes, a token follows the longest expression it begins with, and the error has that token's line and column, counted in the text |
| SourceResults.ExpectedExactly | crates/twerk-compiler/src/expr_parser.rs:17-25 | the error for a missing expression, exactly: the source lexes and begins with no expression |
| SourceResults.LexErrorsPass | crates/twerk-compiler/src/expr_parser.rs:17-19 | a lexical error is passed on unchanged, exactly where the scan stops at a place no rule matches |
| FrontEnd.SliceReparses | crates/twerk-compiler/src/expr_parser.rs:17-303 | for every accepted source and every node of its tree, the slice of the source under the node's span parses to that node with all spans moved to the start of the slice |
| FrontEnd.PrintedTreesReparse | crates/twerk-compiler/src/expr_parser.rs:17-19 | source-level round trip: a stratified tree with well-formed payloads, printed with single spaces, parses back to itself up to spans |
| FrontEnd.ReprintingIsStable | crates/twerk-compiler/src/expr_parser.rs:17-19 | every parsed tree is such a tree: printing a parsed tree and parsing again changes only spans |
| FrontEnd.ParsedSpansNest | crates/twerk-compiler/src/expr_parser.rs:157-198 | in a parsed tree children lie inside their parent, siblings are disjoint and in order, and all is inside the source |
| FrontEnd.WrittenIsNested | crates/twerk-compiler/src/expr_parser.rs:288-303 | the same for any placed tree over ordered tokens |
| FrontEnd.NodePlace | crates/twerk-compiler/src/expr_parser.rs:41-198 | every node of a placed tree is itself an expression, written on a stretch of its parent's tokens |
| FrontEnd.ShiftWritten | crates/twerk-compiler/src/expr_parser.rs:301-303 | moving the tokens of a placed tree moves exactly its spans |
| ParserCompleteness.ParsesExactly | crates/twerk-compiler/src/expr_parser.rs:21-35 | the parser returns a tree if and only if the tree is stratified and written on the whole token list, every span from its first token to its last |
| Precedence.ParsesProperExactly | crates/twerk-compiler/src/expr_parser.rs:21-198 | the same with the shape in constructors alone |
| Precedence.AcceptedNodesFit | crates/twerk-compiler/src/expr_parser.rs:41-98 | in every node of a parsed tree: under `and` no `or`, nor `and` on the right; under `or` no `or` on the right; under a comparison no `or`, `and` or comparison; under a sum nothing looser, nor a sum on the right; under `not` only a primary |
| Precedence.OrThenAnd | crates/twerk-compiler/src/expr_parser.rs:41-61 | `a or b and c` is `a or (b and c)`, for all operands without those operators |
| Precedence.AndThenOr | crates/twerk-compiler/src/expr_parser.rs:41-61 | `a and b or c` is `(a and b) or c` |
| Precedence.TwoOperators | crates/twerk-compiler/src/expr_parser.rs:41-83 | for any two operators that are not both comparisons, which of them takes the middle operand |
| Precedence.TwoComparisons | crates/twerk-compiler/src/expr_parser.rs:63-72 | comparisons do not chain: the second operator is the unexpected token |
| Spellings.OperatorSpellings | crates/twerk-compiler/src/expr_parser.rs:200-225 | each operator's sign or word between two operands gives the node of that operator, left operand first |
| Spellings.AndBeforeOr | crates/twerk-compiler/src/expr_parser.rs:41-61 | `and` takes its operands before `or`, as text |
| Spellings.LiteralSpellings | crates/twerk-compiler/src/expr_parser.rs:104-155 | the text of each literal and its node |
| Spellings.SlotSpelling | crates/twerk-compiler/src/expr_parser.rs:157-172 | a slot's names in order |
| Spellings.CallSpellings | crates/twerk-compiler/src/expr_parser.rs:174-187 | each function name and its arguments in order |
| Spellings.PrefixSpellings | crates/twerk-compiler/src/expr_parser.rs:85-98 | `not` before a primary, and parentheses kept as a node |
| ParserTheorems.ParsingIsLossless | crates/twerk-compiler/src/expr_parser.rs:21-35 | the tree of an accepted list prints exactly the tokens of the list, and respects all precedence levels |
| ParserTheorems.PrintedTreesParse | crates/twerk-compiler/src/expr_parser.rs:21-198 | the tokens of every stratified tree, at whatever positions, parse back to that tree up to spans |
| ParserTheorems.AcceptsExactlyThePrinted | crates/twerk-compiler/src/expr_parser.rs:21-35 | a token list is accepted if and only if some stratified tree prints it |
| ParserTheorems.PrintingIsInjective | crates/twerk-compiler/src/expr_parser.rs:41-198 | the grammar is unambiguous: two stratified trees have the same tokens exactly if they differ only in spans |
| ParserTheorems.UnusableTokensAreRejected | crates/twerk-compiler/src/expr_parser.rs:21-35 | a list with any of the tokens star, slash, percent, brackets, colon, `as` is never accepted |
| ParserErrors.ErrorsExactly | crates/twerk-compiler/src/expr_parser.rs:21-35 | success and both errors from the grammar alone: the parser takes the longest expression at the start, and reports the token after it, or that there is none |
| ParserErrors.LevelReaches | crates/twerk-compiler/src/expr_parser.rs:41-98 | whatever follows a written expression, its level reads no less than it |
| ParserSoundness.LevelIsSound | crates/twerk-compiler/src/expr_parser.rs:41-98 | what a level returns is a tree of that level, placed on exactly the tokens consumed |
| ParserSoundness.ChainIsSound | crates/twerk-compiler/src/expr_parser.rs:41-61 | folding further operands onto a placed left-leaning chain gives a placed left-leaning chain |
| ParserSoundness.ComparisonIsSound | crates/twerk-compiler/src/expr_parser.rs:63-72 | a comparison has no comparison as a direct operand |
| ParserSoundness.UnaryIsSound | crates/twerk-compiler/src/expr_parser.rs:85-98 | `not` applies to one primary, and the span covers both |
| ParserSoundness.PrimaryIsSound | crates/twerk-compiler/src/expr_parser.rs:100-155 | a primary is a literal, slot, call or parenthesis placed on the tokens consumed |
| ParserSoundness.SlotIsSound | crates/twerk-compiler/src/expr_parser.rs:157-172 | a slot has a non-empty path and spans from the dollar to the last segment |
| ParserSoundness.CallIsSound | crates/twerk-compiler/src/expr_parser.rs:174-187 | a call spans from its name to the closing parenthesis, its arguments between |
| ParserSoundness.ArgsAreSound | crates/twerk-compiler/src/expr_parser.rs:177 | the arguments are expressions written with a comma between each two |
| ParserCompleteness.LevelIsComplete | crates/twerk-compiler/src/expr_parser.rs:41-98 | a level returns any tree of its level that is written at the cursor and not continued behind |
| ParserCompleteness.ChainPrefix | crates/twerk-compiler/src/expr_parser.rs:44-49 | the repetition reaches the end of any left-leaning chain with exactly that chain accumulated |
| ParserCompleteness.ComparisonIsComplete | crates/twerk-compiler/src/expr_parser.rs:63-72 | the optional comparison is never given up when its right operand is there |
| ParserCompleteness.PrimaryIsComplete | crates/twerk-compiler/src/expr_parser.rs:100-102 | no earlier alternative takes the input of a later one |
| ParserCompleteness.ArgsAreComplete | crates/twerk-compiler/src/expr_parser.rs:177 | arguments before a closing parenthesis are all read |
| ExprParser.ParseExpressionTokens | crates/twerk-compiler/src/expr_parser.rs:21-35 | computes the specified result with at most 21 token tests for each token and 21 more, on accepted and rejected lists alike |
| ExprParser.OperatorIsListed | crates/twerk-compiler/src/expr_parser.rs:200-218 | the alternatives of a level match exactly its operators, and no token matches two |
| ExprParser.TokenCursor.OneOf | crates/twerk-compiler/src/expr_parser.rs:357-361 | takes one token if and only if there is one of the kind, and otherwise does not move |
| ExprParser.TokenCursor.Operator | crates/twerk-compiler/src/expr_parser.rs:200-225 | takes the operator of the level at the cursor, if there is one |
| ExprParser.TokenCursor.Expression | crates/twerk-compiler/src/expr_parser.rs:37-39 | result, cursor and budget of the loosest level |
| ExprParser.TokenCursor.OrExpr | crates/twerk-compiler/src/expr_parser.rs:41-50 | result and cursor as specified; the tests are paid by the tokens read, or the cursor is back at an operator that no enclosing level takes |
| ExprParser.TokenCursor.AndExpr | crates/twerk-compiler/src/expr_parser.rs:52-61 | the same for `and` chains |
| ExprParser.TokenCursor.CmpExpr | crates/twerk-compiler/src/expr_parser.rs:63-72 | the same for the optional comparison, which is undone as a whole |
| ExprParser.TokenCursor.AddExpr | crates/twerk-compiler/src/expr_parser.rs:74-83 | the same for sums |
| ExprParser.TokenCursor.RepeatFold | crates/twerk-compiler/src/expr_parser.rs:44-49 | the loop folds operands from the left until an iteration fails and is undone |
| ExprParser.TokenCursor.UnaryExpr | crates/twerk-compiler/src/expr_parser.rs:85-98 | result, cursor and budget of an optional `not` |
| ExprParser.TokenCursor.Primary | crates/twerk-compiler/src/expr_parser.rs:100-102 | the alternatives in order, the cursor put back between them |
| ExprParser.TokenCursor.LiteralExpression | crates/twerk-compiler/src/expr_parser.rs:104-155 | succeeds exactly at a literal token, in at most five tests |
| ExprParser.TokenCursor.SlotAccessExpr | crates/twerk-compiler/src/expr_parser.rs:157-172 | reads the whole path, its tests paid by the tokens read |
| ExprParser.TokenCursor.Segments | crates/twerk-compiler/src/expr_parser.rs:160-161 | reads exactly the dot-name pairs, giving back a dot without a name |
| ExprParser.TokenCursor.FunctionNameToken | crates/twerk-compiler/src/expr_parser.rs:227-286 | takes exactly the four kinds of function name |
| ExprParser.TokenCursor.FuncCall | crates/twerk-compiler/src/expr_parser.rs:174-187 | result, cursor and budget of a call, also when its parenthesis is missing |
| ExprParser.TokenCursor.Separated | crates/twerk-compiler/src/expr_parser.rs:177 | reads the arguments, giving back a comma without an expression |
| ExprParser.TokenCursor.ParenExpr | crates/twerk-compiler/src/expr_parser.rs:189-198 | result, cursor and budget of a parenthesis |
| Lexer.LexesExactly | crates/twerk-compiler/src/lexer.rs:93-125 | a token list is returned if and only if it tiles the source: each token the longest match at its start, each gap a run of skip matches, nothing left over |
| SourceResults.TokensAreLocated | crates/twerk-compiler/src/lexer.rs:108-117 | every token's start and end have the line and column of their offsets, counted in the newlines of the text |
| TokenTable.RulesExactly | crates/twerk-compiler/src/lexer.rs:10-78 | which texts are skipped, numbers, strings and identifiers: those the regular expressions of the table accept, keywords excepted, with the token each gives |
| TokenTable.FixedTexts | crates/twerk-compiler/src/lexer.rs:14-71 | the text of each sign and keyword and its token |
| TokenTable.NumberRule | crates/twerk-compiler/src/lexer.rs:72 | numbers are what the expression for numbers accepts |
| TokenTable.StringRule | crates/twerk-compiler/src/lexer.rs:74 | strings, escapes included, are what the expression for strings accepts |
| TokenTable.IdentRule | crates/twerk-compiler/src/lexer.rs:76 | identifiers are what the expression for identifiers accepts |
| TokenTable.BlankRule | crates/twerk-compiler/src/lexer.rs:10 | blanks are what the first skip rule accepts |
| TokenTable.CommentRule | crates/twerk-compiler/src/lexer.rs:11-12 | comments are what the other two skip rules accept |
| Gaps.CommentIsAGap | crates/twerk-compiler/src/lexer.rs:10-12 | a comment of any text, with the newline that ends it, may stand between any tokens: the tokens are those before and after |
| Gaps.OneCharacter | crates/twerk-compiler/src/lexer.rs:10-12 | alone, exactly the five blanks and the hash are skipped |
| Lexer.LexErrorsExactly | crates/twerk-compiler/src/lexer.rs:102-125 | the scan fails exactly at the end of a tiled prefix where no rule matches, with the location of that place |
| Lexer.TilingBounds | crates/twerk-compiler/src/lexer.rs:102-117 | token spans are non-empty, ordered, disjoint and inside the source |
| LexerTheorems.SliceLexes | crates/twerk-compiler/src/lexer.rs:93-100 | locality of longest match: the text from the start of a token to the end of a later one lexes to exactly those tokens, moved |
| LexerTheorems.PrintedTokensLex | crates/twerk-compiler/src/lexer.rs:10-78 | well-formed tokens, spelled out with single spaces between them, lex to themselves |
| LexerTheorems.LexedTokensAreSpelled | crates/twerk-compiler/src/lexer.rs:93-151 | every token of a scan is well formed, and spelled again is the source under its span |
| LexerTheorems.SpelledIsLexed | crates/twerk-compiler/src/lexer.rs:13-78 | the spelling of a well-formed token belongs to its own rule and to no other that would win over it |
| LexerTheorems.LexedIsSpelled | crates/twerk-compiler/src/lexer.rs:143-151 | spelling undoes the rules, quotes included |
| LexerTheorems.SpaceEndsToken | crates/twerk-compiler/src/lexer.rs:10-78 | no rule accepts a token's text followed by a space and anything |
| LexerTheorems.StringEnds | crates/twerk-compiler/src/lexer.rs:74 | a string body, escapes and all, does not go on past its closing quote |
| LineStarts.LocationMeaning | crates/twerk-compiler/src/lexer.rs:158-177 | the line is one more than the newlines before the offset, the column counts from the start of that line |
| LineStarts.NewlinesAreCounted | crates/twerk-compiler/src/lexer.rs:160-161 | the newlines that make up the line number are as many as the text has before the offset |
| LineStarts.LineStartMeaning | crates/twerk-compiler/src/lexer.rs:169-173 | the start that columns count from is the text's, or behind a newline, with no newline up to the offset |
| LineStarts.LocationRoundTrip | crates/twerk-compiler/src/lexer.rs:168-176 | the table entry of the line and the column give the offset back |
| LineStarts.LocationsIncrease | crates/twerk-compiler/src/lexer.rs:168-176 | locations are in the strict order of their offsets |
| LineStarts.StartsArePartitioned | crates/twerk-compiler/src/lexer.rs:159-169 | the table of line starts ascends, so the partition point separates exactly the starts at most the offset from the others |
| LineStarts.NeverUnderflows | crates/twerk-compiler/src/lexer.rs:169 | the partition point is never zero, for any offset |
| Wildcard.WildcardMatch | crates/twerk-common/src/wildcard.rs:9-52 | shortcuts and table together decide whether the text splits into pieces that fit the pattern |
| Wildcard.FillFirstColumn | crates/twerk-common/src/wildcard.rs:29-36 | the first loop decides the first column and leaves the first row |
| Wildcard.FillRow | crates/twerk-common/src/wildcard.rs:38-49 | the inner loop decides row i + 1 of the flat table and leaves the rows before it |
| Wildcard.CellFromNeighbours | crates/twerk-common/src/wildcard.rs:40-47 | all four cells are in the table, and the three earlier decide the next |
| Wildcard.CellsAreDistinct | crates/twerk-common/src/wildcard.rs:30-40 | flat indices are in bounds, and equal only for the same row and column |
| Wildcard.MatchesStep | crates/twerk-common/src/wildcard.rs:41-47 | the recurrence, derived from splitting into pieces |
| Wildcard.MatchesLiteral | crates/twerk-common/src/wildcard.rs:16-18 | a pattern without star matches itself only |
| Wildcard.MatchesSplit | crates/twerk-common/src/wildcard.rs:7-9 | a pattern in two parts matches exactly the texts that split into matches of the parts |
| Wildcard.Reflexive | crates/twerk-common/src/wildcard.rs:9-52 | every text matches itself, stars included |
| Wildcard.Transitive | crates/twerk-common/src/wildcard.rs:9-52 | matching composes: what matches a text read as a pattern matches what that matches |
| Base57.EncodeBase57 | crates/twerk-common/src/uuid.rs:23-40 | the digit loop with its padding computes the 22-digit positional encoding |
| Base57.EncodingIsExact | crates/twerk-common/src/uuid.rs:14-40 | the encoding has 22 characters of the alphabet and decodes to the place-value sum of the bytes |
| Base57.BigEndianIsPlaceSum | crates/twerk-common/src/uuid.rs:24 | the number is the sum of the bytes, each times the power of 256 of its place, the first byte's the highest |
| Base57.AlphabetExactly | crates/twerk-common/src/uuid.rs:8-12 | the alphabet's characters are the digits and letters but 0, 1, I, O and l |
| Base57.EncodingKeepsOrder | crates/twerk-common/src/uuid.rs:12-40 | byte order of the inputs is text order of the encodings, both ways; the encoding is injective |
| Base57.TwentyTwoDigits | crates/twerk-common/src/uuid.rs:21 | 22 digits are enough for 16 bytes, and 21 are not |
| Base57.OrderOfValues | crates/twerk-common/src/uuid.rs:17-21 | at one width, order of digits is order of values, in any base |
| Base57.AlphabetAscends | crates/twerk-common/src/uuid.rs:12 | the 57 characters strictly ascend |
| FixedPoint.StopsExactly | crates/twerk-core/src/redact.rs:18-32 | for every text and every non-empty key, brackets or not, the recursion ends if and only if the key is absent or is no part of the marker |
| FixedPoint.ReplaceKeyUntilFixedPoint | crates/twerk-core/src/redact.rs:18-32 | where the recursion ends, no occurrence of the key is left, in any case of letters |
| Stretches.FixedPointMeaning | crates/twerk-core/src/redact.rs:18-32 | for a key that cannot overlap the marker: the input is pieces with stretches between them, each stretch the key in some case, first behind the one before, no piece with the key, and the result is the pieces as they were written, joined with the marker |
| Stretches.FixedPointOfCut | crates/twerk-core/src/redact.rs:18-32 | there is only one such cut |
| Stretches.FixedPointUnfolds | crates/twerk-core/src/redact.rs:19-30 | one round, for any non-empty key on which the recursion ends: the marker replaces the first stretch that is the key, the rest stays as it was written |
| Stretches.FixedPointTrace | crates/twerk-core/src/redact.rs:18-32 | for any such key, every character of the result is one of the input, in order, or a marker's |
| Stretches.WildcardMeaning | crates/twerk-core/src/redact.rs:77-86 | the redacter's output is the text with the marker in place of each key in turn, all else as written |
| Stretches.WildcardTrace | crates/twerk-core/src/redact.rs:77-86 | for any keys, wherever the redacter ends, every character is one of the input, in order, or a marker's |
| CaseBlind.AlikeExactly | crates/twerk-core/src/redact.rs:67 | two texts are the same in upper case exactly if they differ at most in the case of ASCII letters |
| CaseBlind.HasAlikeExactly | crates/twerk-core/src/redact.rs:67 | finding one upper-cased text in another is finding it in any case |
| FixedPoint.FixedPointIsOnePass | crates/twerk-core/src/redact.rs:18-32 | for a key that cannot overlap the marker, the fixed point is one pass from left to right, up to case |
| FixedPoint.FixedPointKeepsFree | crates/twerk-core/src/redact.rs:18-32 | replacing a key brings in no other key that cannot overlap the marker |
| FixedPoint.BracketFreeKeys | crates/twerk-core/src/redact.rs:11 | a key without brackets that is no part of the marker cannot overlap it |
| Redacters.WildcardIsComplete | crates/twerk-core/src/redact.rs:64-86 | with keys that cannot overlap the marker the redacter ends, finds nothing in its own output, and is idempotent |
| Redacters.SafeExactly | crates/twerk-core/src/redact.rs:77-86 | a key is never left in the output, whatever other keys there are and whatever the text, if and only if it is not empty and cannot overlap the marker |
| Redacters.WildcardCleansExactly | crates/twerk-core/src/redact.rs:64-86 | a given redacter cleans every text if its keys cannot overlap the marker, and only if none is a part of it; without brackets in the keys both conditions are one |
| Overlaps.Surroundings | crates/twerk-core/src/redact.rs:11-32 | for every key that overlaps the marker, a text without the key in which the marker, put in place of another text, completes the key |
| Overlaps.FixFiller | crates/twerk-core/src/redact.rs:18-32 | the recursion does put it there |
| Redacters.WildcardEndsExactly | crates/twerk-core/src/redact.rs:77-86 | for any keys, the redacter ends on every text if and only if no non-empty key is a part of the marker |
| Redacters.OverlappingKeyComesBack | crates/twerk-core/src/redact.rs:77-86 | ending is not enough: two keys and a text on which a later key brings an earlier one back |
| Redacters.UnsafeKeyMayBeCovered | crates/twerk-core/src/redact.rs:77-86 | a given redacter may always clean although a key overlaps the marker, when a safe key is a part of that key |
| Redacters.DefaultKeysAreSafe | crates/twerk-core/src/redact.rs:14-58 | the default keys cannot overlap the marker |
| Redacters.SecretKeysExactly | crates/twerk-core/src/redact.rs:106-109 | a name is sensitive exactly when some stretch of it is `secret`, `password` or `access_key` in whatever case |
| Redacters.ContainsExactly | crates/twerk-core/src/redact.rs:64-68 | the redacter finds a text exactly when some key is in it, in whatever case |
| Redaction.SensitiveIsHidden | crates/twerk-core/src/redact.rs:127-129 | the value of a variable with such a name becomes the marker |
| Redacters.SecretKeysAreTheDefault | crates/twerk-core/src/redact.rs:106-109 | a name is sensitive exactly when the default redacter finds a key in it |
| Redaction.TaskIsClean | crates/twerk-core/src/redact.rs:253-263 | in whatever order the secrets are taken, none that cannot overlap the marker is left in any environment value, mount option or subjob webhook header, at any depth |
| Redaction.HiddenExactly | crates/twerk-core/src/redact.rs:122-263 | a secret is removed from those places of every task, whatever other secrets there are and in whatever order, if and only if it is not empty and cannot overlap the marker |
| Redaction.HiddenInJobsExactly | crates/twerk-core/src/redact.rs:292-352 | the same for the secrets of a job, in the places of a job that are redacted |
| Redaction.HiddenInLogsExactly | crates/twerk-core/src/redact.rs:270-289 | the same for the contents of log parts |
| Redaction.ListHiddenExactly | crates/twerk-core/src/redact.rs:122-263 | a given list of secrets is removed from every task if none can overlap the marker, and only if none is a part of it; without brackets in the secrets both conditions are one |
| Redaction.RedactKeepsShape | crates/twerk-core/src/redact.rs:146-263 | tree shape and all other fields are kept; registry passwords and subjob secrets are hidden; elsewhere only secrets are replaced |
| Redaction.ScrubMeaning | crates/twerk-core/src/redact.rs:131-134 | the fold of replacements: for each secret in turn the text is cut at its occurrences from the left and joined with the marker, and nothing else is |
| Redaction.VarsKept | crates/twerk-core/src/redact.rs:122-139 | the keys stay, values of sensitive names are hidden, in other values only secrets are replaced |
| Redaction.VarsAreClean | crates/twerk-core/src/redact.rs:122-139 | no secret is left in any value of a redacted map |
| Redaction.JobIsClean | crates/twerk-core/src/redact.rs:292-352 | no secret of a job that cannot overlap the marker is left in its inputs, webhook headers and secrets, in the inputs, secrets and tasks of its context, and in the redacted places of its tasks and execution entries |
| Redaction.IterationExists | crates/twerk-core/src/redact.rs:347-349 | the secrets of every job can be iterated, so the results on jobs are about every job |
| Redaction.JobMapStays | crates/twerk-core/src/redact.rs:307-312 | the `job` map of the context has a secret after redaction exactly if it had it before |
| Redaction.RedactJobKeepsShape | crates/twerk-core/src/redact.rs:292-352 | a job keeps everything but the values that are to be hidden |
| Redaction.RedactJobIsIdempotent | crates/twerk-core/src/redact.rs:347-352 | for every job, and any order of the secrets in either pass, redacting twice is redacting once |
| Redaction.TaskAgain | crates/twerk-core/src/redact.rs:209-263 | a pass whose secrets are all markers leaves a redacted task tree as it is |
| Redaction.LogIsClean | crates/twerk-core/src/redact.rs:270-289 | no secret is left in the contents of a redacted log part |
| Redaction.LogIsKept | crates/twerk-core/src/redact.rs:270-289 | of a log part only the contents change, and there only the secrets |
| Substrings.ReplaceMeaning | crates/twerk-core/src/redact.rs:134 | replacing cuts the text at the leftmost occurrences in turn and joins the pieces again |
| Substrings.ReplaceOfCut | crates/twerk-core/src/redact.rs:134 | there is only one such cut |
| Substrings.ReplaceRemoves | crates/twerk-core/src/redact.rs:134 | what cannot overlap its replacement is gone |
| Substrings.ReplaceKeepsFree | crates/twerk-core/src/redact.rs:134 | a replacement brings in no other text that cannot overlap it |
| Substrings.ReplaceBySame | crates/twerk-core/src/redact.rs:134 | replacing a text by itself is the identity |
| LogStore.InMemoryLogStore.constructor | crates/twerk-core/src/repository_inmemory.rs:30-43 | a new store has no logs |
| LogStore.InMemoryLogStore.CreateTaskLogPart | crates/twerk-core/src/repository_inmemory.rs:163-175 | with a task id that is not empty, appends to the log of that id and leaves every other log; otherwise fails and changes nothing |
| LogStore.InMemoryLogStore.GetTaskLogParts | crates/twerk-core/src/repository_inmemory.rs:177-187 | the page of the task's log, empty for an unknown task |
| LogStore.LogPagesAreTheCalls | crates/twerk-core/src/repository_inmemory.rs:163-187 | after any run of create calls, all pages of a task's log in turn are the parts that carry its id, in order |
| LogStore.PagesLoseNothing | crates/twerk-core/src/repository_inmemory.rs:45-66 | pages 1 to the reported number are the whole list; all but the last are full, the last is not empty, later ones are empty |
| LogStore.PageHolds | crates/twerk-core/src/repository_inmemory.rs:45-66 | which items a page holds, with both totals |
| LogStore.PaginateExactly | crates/twerk-core/src/repository_inmemory.rs:45-66 | every page that does not overflow, for any page and size: its numbers, both totals and its items |
| LogStore.OverflowsExactly | crates/twerk-core/src/repository_inmemory.rs:46-53 | the pages whose arithmetic leaves the machine range, for every size: with positive sizes page 0 and pages near the ends of the range, with size 0 only the least page, with negative sizes every page but the first |
| LogStore.SliceIsInBounds | crates/twerk-core/src/repository_inmemory.rs:52-55 | the slice never starts after its end, for any page and size |
| LogStore.FirstPageOfNoSize | crates/twerk-core/src/repository_inmemory.rs:47-58 | without a positive size no pages are reported, yet page 1 of a negative size has every item |
| LogStore.StoreKeepsParts | crates/twerk-core/src/repository_inmemory.rs:163-175 | the log of an id is the parts that carry it, and none under the empty id |

## Left out

- Redacters.WildcardIsComplete: the direction from safe keys; the other is in SafeExactly, which lets the keys beside a key vary. For a given list of keys with brackets WildcardCleansExactly has a sufficient and a necessary condition, which differ: OverlappingKeyComesBack is a list that meets only the second and is not always cleaned, UnsafeKeyMayBeCovered one that meets only the second and is.
- Redacters.WildcardCleansExactly: for a given list of keys with brackets, the two conditions differ, as said above.
- Redaction.ListHiddenExactly: for a given list of secrets with brackets, the two conditions differ in the same way.
- Redaction.TaskIsClean: the direction from secrets that cannot overlap the marker; HiddenExactly has both.
- Redaction.VarsAreClean: the same.
- Redaction.JobIsClean: the same, with both directions in HiddenInJobsExactly.
- Redaction.LogIsClean: the same, with both directions in HiddenInLogsExactly.
- ParserErrors.ErrorsExactly: without the location of an "expected expression" error, which is wherever the combinator library left its cursor.
- ExprParser.ParseExpressionTokens: without that location too.
- Lexer.LexErrorsExactly: without the text fragment of the error, whose end the lexer library chooses.
- FixedPoint.StopsExactly: for ASCII text; upper-casing can change the length of other text, so that positions no longer line up.
- FixedPoint.ReplaceKeyUntilFixedPoint: for ASCII text.
- FixedPoint.FixedPointIsOnePass: for ASCII text.
- FixedPoint.FixedPointKeepsFree: for ASCII text.
- Redacters.WildcardEndsExactly: for ASCII text.
- Redacters.SafeExactly: for ASCII text.
- Stretches.FixedPointMeaning: for ASCII text.
- Stretches.WildcardMeaning: for ASCII text, and keys that cannot overlap the marker; WildcardTrace is for all keys.
- CaseBlind.AlikeExactly: case is that of ASCII letters.
- LogStore.PagesLoseNothing: asks that the length and the page size together stay below 2^63, as the page count computed from them does.
- The internals of winnow and logos: the combinators and longest match behave as their documentation says.
- `each.task` of a task and the tasks of a subjob: redaction does not descend into them, and the model only says they are unchanged.
- Hash map iteration: the secrets are given as the map's values in any order of its keys.
- Fields that no redaction touches are grouped in one record for each kind, with nested records and times simplified; an optional list of tasks is a datatype of its own.
- Wrap-around of overflowing page arithmetic in builds without overflow checks: an overflow is an outcome of its own here.
- Table sizes of the wildcard matcher beyond the machine's address range.
- Locks and asynchrony of the store: each call is one step.
- The other operations of the repository, its metrics and transactions: direct operations on maps.
- The rest of the compiler crate, which only carries the source length so far.
- The state tables of jobs and tasks and the webhook retry rules: facts read off one match each.
- The numeric kernels, servers, brokers, command line, configuration and benchmarks.
