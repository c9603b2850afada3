# realtime-GUI syntax checker, modelled in Dafny

`script.js` is a small in-browser editor for a toy language. Its core turns
the editor's text into tokens, parses the tokens, and reports the result:

- five regular expressions (`patterns`) each scan the whole text;
- `tokenize` sorts their matches and keeps a non-overlapping left-to-right
  selection;
- a recursive-descent `Parser` checks `let variable`/`let function`
  declarations, `if`/`else`, `return`, assignments and `+ - * /` expressions,
  and keeps a set of declared variable names;
- `calistir` tells apart three outcomes: no syntax error, an error located at
  a token (highlighted with the class `error`), and an "unknown error";
- `highlight` and `highlightWithError` build the editor's HTML markup from
  the tokens, escaping text with `escapeHTML`.

The Dafny modules follow that pipeline:

| module | file | what it holds |
|---|---|---|
| `Results` | results.dfy | `Option` and `Result` |
| `Lexicon` | lexicon.dfy | token categories, `Token`, the ASCII character classes behind `\w`, `\d`, `\b` |
| `Scanners` | scanners.dfy | one hand-written matcher per regular expression, the global `exec` loop (`Scan`), all candidates |
| `Resolver` | resolver.dfy | the stable sort on (start ascending, end descending) and the greedy `lastEnd` selection |
| `Tokenizer` | tokenizer.dfy | `tokenize` and its properties |
| `Parser` | parser.dfy | the parser as pure functions over `State(pos, declared)` returning a `Result` |
| `Escaping` | escaping.dfy | `escapeHTML` and its inverse |
| `Highlighting` | highlighting.dfy | the segments and markup of `highlight` / `highlightWithError` |
| `Reporting` | reporting.dfy | the outcome classification of `calistir` |
| `Examples` | examples.dfy | whole parses of small token sequences, and `y = 1` taken from text through `Tokenize` to the outcome |

Modelling choices:

- **Thrown exceptions.** Each becomes a `Failure`:
  - `ParseError(msg, Some(token))` for a `ParseError` that carries a token;
  - `ParseError(msg, None)` for the end-of-input error of `consume`;
  - `PlainError(msg)` for the `Error` thrown by `parseFactor`;
  - `TypeError` for reading `.type` of the missing token after a final `let`.
- **Error messages.** The Turkish sentences are replaced by `Message` constructors that carry the data each sentence interpolates.
- **Optional `value`.** The `value` argument of `consume` is a string, and `""` stands for an absent value. This is the JavaScript truthiness test `value && …`.
- **Regular expressions.** They are written out by hand with JavaScript semantics:
  - the keyword alternation is tried in order, and an alternative is accepted only if `\b` holds after it, so `var` does not match inside `variable`;
  - operators are greedy runs;
  - a quoted literal closes lazily at the first quote of any of the three kinds, and `.` does not cross a line terminator;
  - numbers backtrack over the optional fraction.

  No pattern matches the empty string, so every scan advances.

## Model

| member | source | states |
|---|---|---|
| Scanners.MatchKeyword | script.js:6 | the ordered alternation between `\b` checks: a match is non-empty, inside the text and starts with a letter; its exact result is given by `KeywordMatchIsWholeWord` and, conversely, `ReservedWordMatches` |
| Scanners.KeywordMatchIsWholeWord | script.js:6 | a keyword match starts at a word boundary and ends at one: the match is a whole word |
| Scanners.KeywordMatchSpansWord | script.js:6 | a keyword match starts a word and ends exactly where that word ends |
| Scanners.ReservedWordMatches | script.js:6 | every whole word that is one of the reserved words is matched by the keyword pattern, to its end |
| Scanners.MatchOperator | script.js:7 | an operator match exists exactly when the character is one of `+-*/=<>!`, and it runs to the end of the run of such characters |
| Scanners.MatchQuoted | script.js:8 | a quoted literal opens with a quote, closes at the first later quote of any kind, and has no quote or line terminator inside |
| Scanners.CloseQuote | script.js:8 | when no closing quote is found, every later quote comes after a line terminator |
| Scanners.MatchNumber | script.js:8 | a number starts a word with a digit, holds only digits and `.`, and is followed by a non-word character or the end |
| Scanners.NumberMatchIsLongest | script.js:8 | a number match lies between two word boundaries and is digits, optionally `.` and digits; every such span starting at the index is matched, and none ends after the match, so `1.5` gives all three characters and `1..2` gives `1` |
| Scanners.MatchLiteral | script.js:8 | on a quote the literal is the quoted match, and otherwise it is the number match; either way it starts with a quote or a digit and covers at least one character |
| Scanners.MatchBracket | script.js:9 | a bracket match exists exactly on one of `()[]{}` and is one character long |
| Scanners.MatchIdentifier | script.js:10 | an identifier match exists exactly at a word start with a letter or `_`, and ends where the word ends |
| Scanners.MatchAt | script.js:5-11 | a match of any category is non-empty, lies in the text, and starts with a character that category can start with |
| Scanners.Scan | script.js:24-31 | the global `exec` loop yields at most one token per character from its start index; what the tokens are is given by `ScanTokens`, `ScanAscending`, `ScanComplete` and `ScanCovers` |
| Scanners.ScanTokens | script.js:24-31 | every token the `exec` loop yields spans the text, carries its category, and is the pattern's match at its start |
| Scanners.ScanAscending | script.js:24-31 | one pattern's matches are ascending and pairwise disjoint |
| Scanners.ScanComplete | script.js:24-31 | every index the `exec` loop does not step over has no match: the loop misses nothing |
| Scanners.ScanCovers | script.js:24-31 | any index where the pattern matches lies inside one of the loop's tokens |
| Scanners.ScanFindsKeyword | script.js:6 | every reserved word standing as a whole word comes out of the keyword scan as a keyword token |
| Scanners.OperatorScanTakesWholeRuns | script.js:7 | an operator token never starts in the middle of a run of operator characters |
| Scanners.Candidates | script.js:22-32 | one full scan per pattern, in `patterns` order, giving at most five candidates per character; see `CandidateTokens`, `CandidatesSpanOrder`, `CandidateFromOwnScan` and `ScanInCandidates` |
| Scanners.CandidateTokens | script.js:22-32 | every candidate of every pattern spans the text and is its pattern's match at its start |
| Scanners.CandidatesSpanOrder | script.js:22-32 | among candidates with an identical span, the earlier pattern's candidate comes first |
| Scanners.CandidateFromOwnScan | script.js:22-32 | every candidate comes from its own category's scan |
| Scanners.ScanInCandidates | script.js:22-32 | every token of a category's scan is a candidate |
| Resolver.Sort | script.js:35 | the sort keeps the number of tokens; `SortPermutes` (a permutation), `SortSorted` (the comparator's order) and `SortIsStable` (ties keep their input order) fix its output |
| Resolver.InsertPermutes | script.js:35 | insertion adds exactly the inserted token, as a multiset |
| Resolver.InsertKeepsSorted | script.js:35 | insertion into a sorted sequence keeps it sorted by (start ascending, end descending) |
| Resolver.SortPermutes | script.js:35 | the sort is a permutation of its input |
| Resolver.SortSorted | script.js:35 | the sort's output is ordered by start ascending, then end descending |
| Resolver.SameSpanMembers | script.js:35 | the tokens with a given span are exactly the input's tokens with that span |
| Resolver.SortIsStable | script.js:35 | the tokens sharing a span keep their relative order through the sort |
| Resolver.SameSpanHeadRank | script.js:35 | when equal spans are ranked, the first token with a span has the lowest rank among those tokens |
| Resolver.Select | script.js:36-43 | the `lastEnd` loop keeps at most as many tokens as it is given; see `SelectFromInput`, `SelectAscending`, `SelectIsSubsequence`, `SelectCovers` and `SelectKeepsLongest` |
| Resolver.SelectFromInput | script.js:38-43 | every kept token is one of the input tokens |
| Resolver.SelectAscending | script.js:36-43 | kept tokens start at or after the initial `lastEnd`, and each starts at or after the previous kept end |
| Resolver.SelectIsSubsequence | script.js:38-43 | the kept tokens are a subsequence of the sorted candidates |
| Resolver.SelectCovers | script.js:38-43 | a token is dropped only when it starts inside a kept token or before the initial `lastEnd` |
| Resolver.KeptIndex | script.js:38-43 | a kept token is the first token of the input with its start |
| Resolver.SelectedHeadsSpan | script.js:38-43 | a kept token is the first input token with its exact span |
| Resolver.SelectKeepsLongest | script.js:35-43 | on sorted input, no input token with the same start as a kept token is longer |
| Tokenizer.Tokenize | script.js:19-46 | the tokens span the text and are pairwise disjoint in ascending order |
| Tokenizer.SortedSpans | script.js:35 | the sorted candidates are the candidates, non-empty, spanning the text, ordered by start |
| Tokenizer.TokensAreCandidates | script.js:35-45 | each token is a candidate that spans the text |
| Tokenizer.TokenizeIsSubsequence | script.js:35-45 | the tokens are a subsequence of the sorted candidates |
| Tokenizer.TokenizeCovers | script.js:35-45 | a candidate is missing from the tokens only when it starts inside a kept token |
| Tokenizer.TokenizeKeepsLongest | script.js:35-45 | no candidate with the same start as a token is longer than it |
| Tokenizer.TokenizePriority | script.js:5-11 | on an identical span, the kept token's pattern comes no later in `patterns` than any other candidate's |
| Tokenizer.CandidatesRanked | script.js:22-32 | the collected candidates put the earlier pattern first on every identical span |
| Tokenizer.KeywordsNeverIdentifiers | script.js:6-10 | no identifier token is a reserved word: `variable` always comes out as a keyword |
| Tokenizer.NoSemicolonTokens | script.js:5-11 | no token is `;`, because no pattern matches it |
| Tokenizer.OperatorTokensAreWholeRuns | script.js:7 | operator tokens are maximal runs of operator characters, so `==` is one token |
| Escaping.EscapeHtml | script.js:13-17 | `escapeHTML`: see `EscapeHtmlIsCharwise` (it equals escaping character by character), `UnescapeEscapeHtml` (its inverse) and `EscapedHasNoBrackets` |
| Escaping.ReplaceAll | script.js:14 | a global replacement by text without the character leaves none of it |
| Escaping.EscapeHtmlIsCharwise | script.js:13-17 | the three passes equal escaping character by character: `&` first, so no entity is escaped twice |
| Escaping.EscapeHtmlAppend | script.js:13-17 | escaping distributes over concatenation |
| Escaping.EscapedHasNoBrackets | script.js:13-17 | escaped text contains no `<` and no `>` |
| Escaping.UnescapeEscapeHtml | script.js:13-17 | undoing the three replacements gives back the input |
| Highlighting.Segments | script.js:303-315 | the loop of `highlight` as a list of gaps and marked tokens; see `SegmentsText` and `SegmentsMarks` |
| Highlighting.SegmentsText | script.js:303-315 | for ascending tokens spanning the text, the gaps and token texts of `highlight` concatenate to the text |
| Highlighting.SegmentsMarks | script.js:303-312 | `highlight` marks each token once, in order, with its category as class |
| Highlighting.ErrorSegments | script.js:273-287 | the loop of `highlightWithError` as a list of gaps and marked tokens; see `ErrorSegmentsText` and `ErrorSegmentsMarks` |
| Highlighting.ErrorSegmentsText | script.js:273-287 | the gaps and token texts of `highlightWithError` concatenate to the text |
| Highlighting.ErrorSegmentsMarks | script.js:273-285 | `highlightWithError` marks each token once, in order, with `error` on the error's span |
| Highlighting.PlainHtml | script.js:273-287 | for segments whose classes contain no `>` (`PlainClasses`), removing the tags from the markup and unescaping gives back the segments' text; it serves both `highlightWithError` (273-287) and `highlight` (303-315) |
| Highlighting.Highlight | script.js:298-318 | the markup string of `highlight` for given tokens; see `HighlightShowsCode` |
| Highlighting.HighlightShowsCode | script.js:298-318 | the markup of `highlight`, without its tags and unescaped, is exactly the code |
| Highlighting.HighlightWithError | script.js:269-287 | the markup string `highlightWithError` writes; see `HighlightWithErrorShowsCode` and `Reporting.ErrorMarksClasses` |
| Highlighting.HighlightWithErrorShowsCode | script.js:269-287 | the markup of `highlightWithError`, without its tags and unescaped, is exactly the code |
| Parser.Consume | script.js:74-81 | at the end it fails with no token; on a category or text mismatch it fails on the current token; otherwise it returns the current token |
| Parser.Expect | script.js:74-81 | a successful `consume` moves one token on and changes nothing else |
| Parser.OptionalSemicolon | script.js:128-130 | the optional `;` consumes at most one token and leaves the declared names unchanged |
| Parser.ParseStatement | script.js:202-221 | a statement only moves forward and declares only names of `variable` pairs it consumed; a non-empty one consumes a token |
| Parser.ParseDeclaration | script.js:105-115 | a declaration consumes tokens, declares only names of consumed `variable` pairs, and its errors carry a token at or after its start; a `TypeError` only arises when the last token is `let` |
| Parser.ParseVariableDeclaration | script.js:117-131 | on success the name after `variable` is declared, and nothing but names of consumed `variable` pairs is added |
| Parser.ParseInitializer | script.js:122-125 | the optional initializer adds no names |
| Parser.ParseFunctionDeclaration | script.js:133-146 | a function declaration consumes tokens and declares only names of `variable` pairs inside its body |
| Parser.ParseIfStatement | script.js:148-168 | an `if` statement consumes tokens and declares only names of `variable` pairs inside it |
| Parser.ParseBraced | script.js:154-158 | a braced block consumes tokens and declares only names of `variable` pairs inside it |
| Parser.ParseStatements | script.js:155-157 | the statement loop stops at the end or at a `}` |
| Parser.ParseReturnStatement | script.js:62-68 | a `return` statement consumes at least one token and leaves the declared names unchanged |
| Parser.ParseAssignment | script.js:222-234 | an assignment consumes tokens, and its errors carry a token at or after its start |
| Parser.ParseExpression | script.js:170-177 | an expression consumes at least one token and leaves the declared names unchanged |
| Parser.ExpressionTail | script.js:173-176 | the `+`/`-` loop leaves the declared names unchanged |
| Parser.ParseTerm | script.js:179-186 | a term consumes at least one token and leaves the declared names unchanged |
| Parser.TermTail | script.js:182-185 | the `*`/`/` loop leaves the declared names unchanged |
| Parser.ParseFactor | script.js:188-201 | a factor consumes at least one token and adds no names; a plain error is only ever a missing or invalid factor |
| Parser.ParseProgram | script.js:83-87 | on success every token is consumed |
| Parser.Parse | script.js:254-255 | a successful parse consumes every token; a `ParseError` with no token is always an end-of-input error; a `TypeError` means the last token is the keyword `let` (`nextToken` is undefined at script.js:107) |
| Parser.FinalLetIsTypeError | script.js:106-107 | conversely, a statement that is a `let` standing as the last token fails with `TypeError` |
| Parser.StatementRejects | script.js:213-220 | a statement starting with another keyword, or with neither a keyword nor a name, fails on its first token |
| Parser.UndeclaredAssignment | script.js:222-226 | assigning to an undeclared name fails on the name's token |
| Parser.ParseDeclaresOnlyVariables | script.js:117-120 | after a whole parse every declared name is the name of some `variable` pair |
| Reporting.Classify | script.js:257-264 | a located outcome is exactly a `ParseError` with a token; success is no syntax error; everything else is unknown |
| Reporting.Run | script.js:252-264 | `calistir`'s decision for a text: `Classify` of parsing `Tokenize(code)`; see `Classify`, `LocatedTokenIsToken` and `Examples.AssignUndeclared` |
| Reporting.ErrorView | script.js:258-259 | the error markup exists exactly when the outcome is located; see `ErrorViewMarksOnlyTheToken` for what it shows |
| Reporting.LocatedTokenIsToken | script.js:258-259 | a located error's token is one of the tokens of the code |
| Reporting.SpanIdentifiesToken | script.js:274-275 | among disjoint non-empty tokens, a span identifies one token |
| Reporting.ErrorViewMarksOnlyTheToken | script.js:258-259 | on a located error the markup shows the code unchanged and gives the class `error` to exactly the error's token |
| Reporting.ErrorMarksClasses | script.js:275-282 | the error marks pair each token with `error` on the error's span and its category elsewhere |
| Examples.DeclareThenAssign | script.js:222-229 | the tokens of `let variable x = 1 x = x + 2` are accepted and declare `x` |
| Examples.TokenizeAssignUndeclared | script.js:19-46 | the text `y = 1` tokenizes to the name `y` at 0, the operator `=` at 2 and the number `1` at 4 |
| Examples.AssignUndeclared | script.js:222-259 | `calistir` on the text `y = 1` reports the undeclared-name error of `parseAssignment`, located at the token `y` |
| Examples.UnclosedBlock | script.js:76 | on the tokens of `if (1) {`, the unclosed `{` is an end-of-input error without a token, so it is not located |
| Examples.LoneLet | script.js:106-108 | a lone `let` token is a `TypeError`, reported as unknown |
| Examples.InitializerNotChecked | script.js:188-193 | names in an initializer are not checked: the tokens of `let variable x = y` are accepted |
| Examples.SelfInitializer | script.js:119-124 | the tokens of `let variable x = x` are accepted |
| Examples.FunctionNameNotDeclared | script.js:133-135 | on the tokens of `let function f () f = 1`, the function's name is not declared, so assigning to it is located at the name |
| Examples.MissingFactor | script.js:190 | a lone `return` token is a plain error, reported as unknown |
| Examples.InvalidFactorToken | script.js:199 | on the tokens of `return )` there is a plain error on the invalid factor |
| Examples.StrayElse | script.js:213-214 | a lone `else` token is an unknown keyword located at `else` |

## Left out

- DOM and browser work. This covers the element lookups, the `innerHTML`/`innerText` writes, `updateEditor` and both input listeners (script.js:1-2, 247-250, 256-263, 289-293, 321-338, 388-416). `Run` and `ErrorView` return the outcome and the markup instead.
- Caret save/restore (script.js:341-386, and the second definitions at 426-468) and the Tab/Enter key handlers (script.js:419-424, 469-490). They act on DOM selections and key events, which this model has no counterpart for.
- `console.log` and `console.error`.
- The Turkish message texts. `Message` constructors carry what each sentence interpolates. The text of the JavaScript `TypeError` is not modelled.
- The first `parseStatement` (script.js:89-103). The second definition of the same method in the class body replaces it.
- `parseLiteral` (script.js:236-243). Nothing calls it.
- UTF-16: strings are sequences of `char` and indices are character positions. JavaScript counts UTF-16 code units, so for text with a character outside the Basic Multilingual Plane each `start`/`end` in JavaScript is larger by one for every such character before it. The token texts, their order, the markup and the outcome do not change. A lone surrogate, which a JavaScript string may hold and a Dafny `char` cannot, is not modelled.
- Call-stack exhaustion: deeply nested `(` or `{` makes JavaScript throw a `RangeError`, which `calistir` reports as an unknown error. The recursion in the model has no depth limit, so it has no such case.
- `Parser.ParseStatement`: `pos <= |tokens|` is a precondition of every parsing function, not a checked case. The class keeps it as an invariant: `pos` starts at 0 and only moves past a token that exists.
- `Highlighting.Highlight`: it takes the tokens as a parameter, whereas `highlight` calls `tokenize` itself. `Reporting.Run` and `Reporting.ErrorView` supply `Tokenizer.Tokenize(code)`. `Highlighting.HighlightShowsCode` holds for any tokens with that layout.
- `Parser.OptionalSemicolon`: the `;` branches (script.js:65-67, 128-130, 231-233) are modelled for any token sequence, but `Tokenizer.NoSemicolonTokens` shows they are never taken on tokenized input.
- Expressions never consult the declared names. The parser checks declarations only at the start of an assignment, and the model keeps that.
