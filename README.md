# serenity core, modelled in Dafny

This project models the sequential, stateful core of the serenity Discord bot and proves properties of that model.

**Command arguments.** The two quote-aware lexers turn a message into tokens. Each token has a `value`, the `raw` text consumed and the `trailing` whitespace. `joinTokens` spells the tokens back out. The parsers sort tokens into flags, option values and positional (`ordered`) tokens:
- the shared `Parser` cursor;
- `StandardParser`, which has a core copy and a framework copy with the same rules;
- `VariadicFlagParser`.

`ParserOutputWrapper` is a two-ended cursor over the positional tokens. It keeps a set of used indices and offers combinators on top of it, plus a single save/reset checkpoint.

**Collections.** `LinkedList` has a modifying iterator. `BitSet` keeps 32-bit words.

**Moderation preprocessing.** `CharacterIterator` decodes UTF-16 surrogate pairs. `PreprocessorOutputWriter` caps runs of a repeated character and records word boundaries. `PreprocessorOutput` holds the output buffers and the sentinel codes.

**Utilities:**
- the basic and the token/leaky-bucket rate limiters;
- `inspectTypeOf`, the type-string printer, over a metadata tree;
- `ActivityRotation`, the time-windowed presence rotation;
- the configuration rules for times of day, activity URLs and activity sets;
- the time-unit constants.

**How the model is written.**
- Every class whose fields the source updates is a Dafny `class` with those fields. Each method is proved against a specification function over the old state, and the lemmas about those functions carry the properties.
- Pure code (`joinTokens`, `inspectTypeOf`, the schema rules, the rate-limit arithmetic) is written as functions.
- Loops are `while` loops with invariants. A loop that only reads the object runs on a copy of its cursor in a module-level method, and the class method stores the cursor back.
- Clocks (`Date.now()`, `LocalTime.now()`) are parameters: `now` is milliseconds for the rate limiters and the millisecond of the day for the activity rotation, so a time within a window's end minute but past its first instant falls outside the window.
- `isWhiteSpace` from `@skyra/char`, which the lexers skip between tokens, is a predicate `ws` each lexer is built with. `setInput` trims with `trimLeft`, whose whitespace set is fixed by ECMAScript and is the predicate `IsJsWhiteSpace`; the two sets need not agree.
- Strings are `seq<char>`, one UTF-16 code unit per character. The code units handled by `CharacterIterator` are integers in `[0, 0x10000)`, so that lone surrogates can be represented.
- JavaScript numbers are unbounded integers, except where the source relies on 32-bit semantics (`BitSet`).

## Model

| member | source | states |
|---|---|---|
| Monads.EmptyErr | src/lib/utils/monads.ts:66-69 | `emptyErr` is a failed result whose error is the unit value standing for `undefined` |
| Tokens.JoinTokens | src/framework/commands/args/tokens.ts:39-47 | the loop returns `Join(tokens)`: each token's raw text then its trailing whitespace, in list order |
| Tokens.Join | src/framework/commands/args/tokens.ts:41-44 | defines the text `joinTokens` builds: each token's raw text then its trailing whitespace, front to back; `JoinTokens` computes it and `JoinAppend` proves it splits over concatenation |
| Tokens.JoinAppend | src/framework/commands/args/tokens.ts:40-46 | joining a concatenation of token lists is the concatenation of their joins |
| Tokens.JoinCons | src/framework/commands/args/tokens.ts:41-44 | the first token contributes its raw text and trailing whitespace before the rest |
| Tokens.JoinSpells | src/framework/commands/args/tokens.ts:41-44 | a token spelling `s[p..q]` followed by tokens spelling `s[q..]` spells `s[p..]` |
| Registry.SetAllKeys | src/core/commands/args/Lexer.ts:34-37 | after a series of `Map.set` calls, a key is present exactly when it was present before or some call set it |
| Registry.SetAllUntouched | src/core/commands/args/Lexer.ts:34-37 | a key no call sets keeps its old value |
| Registry.SetAllLastWins | src/core/commands/args/parser/StandardParser.ts:44-62 | the last call that sets a key decides its value, so a repeated prefix keeps the last id |
| TextScan.QuoteEntries | src/core/commands/args/Lexer.ts:34-35 | each quote pair becomes one `(open, close)` map entry, in order |
| TextScan.Resolve | src/framework/commands/args/Lexer.ts:189-194 | an escape `\c` yields one or two characters, the last being `c`; it yields two, a backslash then `c`, exactly when the framework lexer meets a `c` that is neither a registered close quote nor a backslash, and the core lexer always yields `c` alone |
| TextScan.WhiteSpaceEnd | src/core/commands/args/Lexer.ts:151-162 | the whitespace run from `p` ends at the input's end or at the first character that is not whitespace, and holds only whitespace |
| TextScan.TrimStart | src/core/commands/args/Lexer.ts:20 | drops a prefix that `ws` holds for, and leaves a text that is empty or starts with a character `ws` does not hold for; `trimLeft` is this with `ws` = `IsJsWhiteSpace` |
| TextScan.IsJsWhiteSpace | src/core/commands/args/Lexer.ts:20 | defines the characters `trimLeft` drops: the white space and line terminators of sections 12.2 and 12.3 of ECMA-262, not `isWhiteSpace` |
| TextScan.TrimLeftExamples | src/core/commands/args/Lexer.ts:20 | `trimLeft` drops a leading U+FEFF and keeps a leading U+0085 |
| TextScan.ScanWord | src/core/commands/args/Lexer.ts:122-149 | a bare word's raw text is exactly the characters consumed, and the word ends at the input's end or at whitespace |
| TextScan.ScanQuoted | src/core/commands/args/Lexer.ts:91-120 | a closed quoted phrase ends just past its close quote, and its raw text is the text between the quotes |
| TextScan.ScanWordUnescapes | src/core/commands/args/Lexer.ts:132-145 | a word's value is its raw text with every escape pair resolved |
| TextScan.ScanQuotedUnescapes | src/core/commands/args/Lexer.ts:103-116 | a quoted phrase's value is its inner raw text with every escape pair resolved |
| TextScan.WordToken | src/core/commands/args/Lexer.ts:122-162 | a word token consumes at least one character, `raw + trailing` is the text consumed, `trailing` is all whitespace and the next character is not whitespace |
| TextScan.QuotedToken | src/core/commands/args/Lexer.ts:91-101 | a quoted token's raw text starts with the open quote and ends with the close quote, and `raw + trailing` is the text consumed |
| CoreLexer.NextToken | src/core/commands/args/Lexer.ts:64-89 | `next()` on input left consumes at least one character, and the token's raw text plus trailing whitespace is exactly what it consumed |
| CoreLexer.LexedTokens | src/core/commands/args/Lexer.ts:56-58 | defines the tokens `lex()` yields from a position: `next()` repeated to the end of input; `LexJoin` proves they spell the input back |
| CoreLexer.LexJoin | src/core/commands/args/Lexer.ts:56-58 | round trip: joining the tokens `lex()` yields from `p` gives back the input from `p` |
| CoreLexer.BlankInputNoTokens | src/core/commands/args/Lexer.ts:19-23 | an input made only of characters `trimLeft` drops yields no tokens once `setInput` has trimmed it |
| CoreLexer.NextLineOnlyToken | src/core/commands/args/Lexer.ts:19-23 | with an `isWhiteSpace` that holds for U+0085, the input U+0085 survives `trimLeft` and lexes to one token with empty value and raw text and the character as trailing whitespace |
| CoreLexer.UnclosedQuoteIsWord | src/core/commands/args/Lexer.ts:73-88 | an open quote with no close quote after it backtracks: the token is the bare word at the quote, which keeps the quote |
| CoreLexer.LastCharacterIsWord | src/core/commands/args/Lexer.ts:68-71 | the last character is never a quoted phrase: it is a one-character token with no trailing whitespace |
| CoreLexer.TokenValue | src/core/commands/args/Lexer.ts:96-111 | a token's value is its raw text unescaped, or for a quoted phrase the unescaped text between an open quote and its close quote |
| CoreLexer.QuotedStep | src/core/commands/args/Lexer.ts:103-116 | one turn of the quoted-phrase loop advances and keeps the scan's final result unchanged |
| CoreLexer.WordStep | src/core/commands/args/Lexer.ts:132-145 | one turn of the bare-word loop advances and keeps the scan's final result unchanged |
| CoreLexer.ScanToCloseQuote | src/core/commands/args/Lexer.ts:94-119 | the quoted-phrase loop finds the close quote exactly when the phrase is closed, with the phrase's value and raw text |
| CoreLexer.ScanWordFrom | src/core/commands/args/Lexer.ts:125-146 | the bare-word loop computes the word's value, raw text and end |
| CoreLexer.WhiteSpaceFrom | src/core/commands/args/Lexer.ts:151-162 | the whitespace loop returns the whitespace run and stops at its end |
| CoreLexer.Lexer.constructor | src/core/commands/args/Lexer.ts:9-11 | a new lexer has empty input, position 0 and no quotes |
| CoreLexer.Lexer.SetInput | src/core/commands/args/Lexer.ts:19-23 | stores the input with what `trimLeft` drops (`IsJsWhiteSpace`) removed from its front, and resets the position to 0 |
| CoreLexer.Lexer.SetQuotes | src/core/commands/args/Lexer.ts:34-37 | sets each pair's close quote for its open quote, in order, keeping earlier pairs |
| CoreLexer.Lexer.Reset | src/core/commands/args/Lexer.ts:44-47 | the position becomes 0 |
| CoreLexer.Lexer.Done | src/core/commands/args/Lexer.ts:52-54 | defines `done`: the position is at or past the end of input |
| CoreLexer.Lexer.IsLastCharacter | src/core/commands/args/Lexer.ts:168-170 | defines `isLastCharacter`: the position is at the last character of the input |
| CoreLexer.Lexer.Next | src/core/commands/args/Lexer.ts:64-89 | when done, nothing and no move; otherwise the token `NextToken` gives and the position after it |
| CoreLexer.Lexer.Lex | src/core/commands/args/Lexer.ts:56-58 | every token from the position on, ending done |
| CoreLexer.Lexer.NextQuoted | src/core/commands/args/Lexer.ts:91-120 | the quoted token and its end when the phrase is closed, otherwise nothing |
| CoreLexer.Lexer.NextWord | src/core/commands/args/Lexer.ts:122-149 | the bare-word token and its end |
| CoreLexer.Lexer.ConsumingLeadingWhiteSpace | src/core/commands/args/Lexer.ts:151-162 | consumes and returns the whitespace run at the position |
| FrameworkLexer.CloseQuotesOf | src/framework/commands/args/Lexer.ts:41-47 | the close quotes registered are exactly those of the pairs given |
| FrameworkLexer.NextToken | src/framework/commands/args/Lexer.ts:66-124 | `next()` on input left consumes at least one character, and raw plus trailing is exactly what it consumed |
| FrameworkLexer.LexedTokens | src/framework/commands/args/Lexer.ts:135-137 | defines the tokens `lex()` yields from a position: `next()` repeated to the end of input; `LexJoin` proves they spell the input back |
| FrameworkLexer.LexJoin | src/framework/commands/args/Lexer.ts:135-137 | round trip: joining the tokens `lex()` yields from `p` gives back the input from `p` |
| FrameworkLexer.NoQuotesAllWords | src/framework/commands/args/Lexer.ts:69-70 | with no quotes registered, every token is a bare word, quote characters included |
| FrameworkLexer.LastCharacterToken | src/framework/commands/args/Lexer.ts:74-80 | with quotes registered, the last character is a one-character token with no trailing whitespace |
| FrameworkLexer.UnclosedQuoteIsWord | src/framework/commands/args/Lexer.ts:119-123 | an unclosed quote backtracks to a bare word that starts with the quote |
| FrameworkLexer.TokenValue | src/framework/commands/args/Lexer.ts:96-116 | a token's value is its raw text with escapes resolved the framework's way, or for a quoted phrase its inner raw text resolved so |
| FrameworkLexer.UnknownEscapeKept | src/framework/commands/args/Lexer.ts:189-194 | an escape of a character that is neither a close quote nor a backslash stays `\c` in the value |
| FrameworkLexer.QuotedStep | src/framework/commands/args/Lexer.ts:107-116 | one turn of the quoted-phrase loop advances and keeps the scan's final result unchanged |
| FrameworkLexer.WordStep | src/framework/commands/args/Lexer.ts:151-161 | one turn of the word loop advances and keeps the scan's final result unchanged |
| FrameworkLexer.ScanToCloseQuote | src/framework/commands/args/Lexer.ts:96-117 | the quoted-phrase loop finds the close quote exactly when the phrase is closed |
| FrameworkLexer.ScanWordFrom | src/framework/commands/args/Lexer.ts:142-162 | the word loop computes the word's value, raw text and end |
| FrameworkLexer.WhiteSpaceFrom | src/framework/commands/args/Lexer.ts:176-187 | the whitespace loop returns the whitespace run and stops at its end |
| FrameworkLexer.Lexer.constructor | src/framework/commands/args/Lexer.ts:16-19 | empty input, position 0, no quotes and no close quotes |
| FrameworkLexer.Lexer.SetInput | src/framework/commands/args/Lexer.ts:27-30 | stores the input with what `trimLeft` drops (`IsJsWhiteSpace`) removed from its front and, unlike the core lexer, keeps the position |
| FrameworkLexer.Lexer.SetQuotes | src/framework/commands/args/Lexer.ts:41-47 | adds the pairs to the quote table and their close quotes to the close-quote set |
| FrameworkLexer.Lexer.Reset | src/framework/commands/args/Lexer.ts:54-57 | the position becomes 0 |
| FrameworkLexer.Lexer.Done | src/framework/commands/args/Lexer.ts:62-64 | defines `done`: the position is at or past the end of input |
| FrameworkLexer.Lexer.Peek | src/framework/commands/args/Lexer.ts:171-174 | the character after the position, when there is one |
| FrameworkLexer.Lexer.Next | src/framework/commands/args/Lexer.ts:66-124 | when done, nothing and no move; otherwise the token `NextToken` gives and the position after it |
| FrameworkLexer.Lexer.NextQuoted | src/framework/commands/args/Lexer.ts:91-117 | the quoted token and its end when the phrase is closed, otherwise nothing |
| FrameworkLexer.Lexer.NextTokenIgnoreQuotes | src/framework/commands/args/Lexer.ts:139-165 | the bare-word token and its end |
| FrameworkLexer.Lexer.ConsumeLeadingSpaces | src/framework/commands/args/Lexer.ts:176-187 | consumes and returns the whitespace run at the position |
| FrameworkLexer.Lexer.Lex | src/framework/commands/args/Lexer.ts:135-137 | every token from the position on, ending done |
| ParserOutput.EmptyOutput | src/core/commands/args/parser/ParserOutput.ts:26 | no ordered tokens, no flags, no options |
| ParserOutput.AddOption | src/core/commands/args/parser/StandardParser.ts:86-88 | appends the value to the option's list, creating it when absent, and changes nothing else |
| ParserOutput.ExtendsTrans | src/core/commands/args/parser/ParserOutput.ts:6-21 | an output that grows from one that grew from a third also grows from the third |
| ParserOutput.AddOptionExtends | src/core/commands/args/parser/StandardParser.ts:86-88 | adding an option value only grows the output |
| StandardParser.Step | src/core/commands/args/parser/StandardParser.ts:64-110 | one `next` advances by one or two tokens and only grows the output |
| StandardParser.Run | src/framework/commands/args/parser/Parser.ts:55-61 | defines `parse()` with the standard rules: `Step` repeated on one output until the input is used up; `RunExtends` proves it only grows the output |
| StandardParser.RunExtends | src/framework/commands/args/parser/Parser.ts:55-61 | parsing to the end only grows the output |
| StandardParser.UnregisteredAllOrdered | src/framework/commands/args/parser/StandardParser.ts:102-107 | with nothing registered, the ordered tokens are exactly the input |
| StandardParser.OrderedUnregistered | src/core/commands/args/parser/StandardParser.ts:104-110 | every ordered token is an input token whose raw text is neither an option nor a flag prefix |
| StandardParser.FlagsFromInput | src/core/commands/args/parser/StandardParser.ts:94-102 | every flag id in the output was there before or is registered for some input token's raw text |
| StandardParser.OptionTakesNextValue | src/core/commands/args/parser/StandardParser.ts:76-92 | an option prefix followed by a token appends that token's value under the option id and consumes both |
| StandardParser.DanglingOptionDropped | src/core/commands/args/parser/StandardParser.ts:81-83 | an option prefix that is the last token is consumed and discarded |
| VariadicFlagParser.ValueEnd | src/framework/commands/args/parser/VariadicFlagParser.ts:78-85 | an option's value runs up to the end of input or the first token whose raw text is a registered flag or option |
| VariadicFlagParser.SpelledSnoc | src/framework/commands/args/parser/VariadicFlagParser.ts:83 | each further token adds its value and trailing whitespace to the option value |
| VariadicFlagParser.Step | src/framework/commands/args/parser/VariadicFlagParser.ts:49-92 | one `next` advances, only grows the output and never writes ordered tokens |
| VariadicFlagParser.Run | src/framework/commands/args/parser/Parser.ts:55-61 | defines `parse()` with the variadic rules: `Step` repeated until the input is used up; `RunNeverOrders` proves it never writes ordered tokens |
| VariadicFlagParser.RunNeverOrders | src/framework/commands/args/parser/VariadicFlagParser.ts:56-59 | parsing to the end leaves the ordered tokens untouched and only grows the output |
| VariadicFlagParser.OptionValueRun | src/framework/commands/args/parser/VariadicFlagParser.ts:64-92 | an option takes the next token whatever it is, then every following token up to a prefix, and appends their spelled value |
| VariadicFlagParser.FlagsFromInput | src/framework/commands/args/parser/VariadicFlagParser.ts:94-102 | every flag id in the output was there before or is registered for some input token's raw text |
| Parser.PrefixPairsKeys | src/core/commands/args/parser/StandardParser.ts:44-49 | a prefix is registered exactly when some entry lists it |
| Parser.StepOf | src/core/commands/args/parser/StandardParser.ts:64-74 | one `next` of either strategy advances |
| Parser.RunOf | src/framework/commands/args/parser/Parser.ts:55-61 | defines `parse()` for either strategy as that strategy's run; `RunOfUnfold` proves it is one step and then the rest |
| Parser.RunOfUnfold | src/framework/commands/args/parser/Parser.ts:55-61 | parsing from a position with input left is one step, then parsing from where it ends |
| Parser.CollectVariadic | src/framework/commands/args/parser/VariadicFlagParser.ts:74-85 | the value loop stops where `ValueEnd` says and returns the spelled value of the tokens it took |
| Parser.Parser.constructor | src/framework/commands/args/parser/Parser.ts:28-48 | a new parser has no input, position 0 and nothing registered |
| Parser.Parser.SetInput | src/framework/commands/args/parser/Parser.ts:28-32 | replaces the input and resets the position to 0 |
| Parser.Parser.Reset | src/framework/commands/args/parser/Parser.ts:46-48 | the position becomes 0 |
| Parser.Parser.Done | src/framework/commands/args/parser/Parser.ts:37-39 | defines `done`: the position is at or past the end of input |
| Parser.Parser.Advance | src/framework/commands/args/parser/Parser.ts:81-83 | the position grows by exactly `n` |
| Parser.Parser.RegisterFlags | src/core/commands/args/parser/StandardParser.ts:44-49 | sets every prefix of every entry to its id, in order |
| Parser.Parser.RegisterOptions | src/core/commands/args/parser/StandardParser.ts:57-62 | sets every prefix of every entry to its id, in order |
| Parser.Parser.Register | src/core/commands/args/parser/StandardParser.ts:44-62 | the shared registration loop |
| Parser.Parser.Next | src/core/commands/args/parser/StandardParser.ts:64-74 | when done, reports done and changes nothing; otherwise the strategy's step |
| Parser.Parser.ParseOption | src/core/commands/args/parser/StandardParser.ts:76-92 | nothing for a token that is not an option prefix; false for a dangling one; otherwise the value is taken as `Step` says |
| Parser.Parser.ParseVariadicOption | src/framework/commands/args/parser/VariadicFlagParser.ts:64-92 | as `ParseOption`, with the variadic value run |
| Parser.Parser.ParseFlag | src/core/commands/args/parser/StandardParser.ts:94-102 | a flag prefix adds its id to the flag set and advances by one; any other token changes nothing |
| Parser.Parser.ParseOrdered | src/core/commands/args/parser/StandardParser.ts:104-109 | appends the token to the ordered tokens and advances by one |
| Parser.Parser.Parse | src/framework/commands/args/parser/Parser.ts:55-61 | starts from the empty output and returns what parsing from the position to the end gives, ending done |
| WrapperScan.Reverse | src/core/commands/args/parser/ParserOutputWrapper.ts:153 | the reversal of a list |
| WrapperScan.TokensAtReverse | src/core/commands/args/parser/ParserOutputWrapper.ts:136-153 | the tokens at reversed indices are the reversed tokens |
| WrapperScan.UnusedBounds | src/core/commands/args/parser/ParserOutputWrapper.ts:137-138 | the indices a scan takes lie in its range and are free |
| WrapperScan.UnusedSorted | src/core/commands/args/parser/ParserOutputWrapper.ts:156-157 | a forward scan takes indices in increasing order |
| WrapperScan.UnusedComplete | src/core/commands/args/parser/ParserOutputWrapper.ts:156-157 | every free index of the range is visited |
| WrapperScan.UnusedDownReversed | src/core/commands/args/parser/ParserOutputWrapper.ts:136-137 | a backward scan visits the forward candidates in the opposite order |
| WrapperScan.FirstUnusedFrom | src/core/commands/args/parser/ParserOutputWrapper.ts:536 | the first free index from a position on, or the length |
| WrapperScan.LastUnusedUpTo | src/core/commands/args/parser/ParserOutputWrapper.ts:106-107 | the last free index at or below a position, or -1 |
| WrapperScan.FreeIndexBetweenCursors | src/core/commands/args/parser/ParserOutputWrapper.ts:37-39 | while fewer indices are used than there are tokens, a free index lies between the two cursors |
| WrapperScan.DoneIffAllUsed | src/core/commands/args/parser/ParserOutputWrapper.ts:37-39 | `done` holds exactly when every token index is used |
| WrapperScan.NextIsLowestFree | src/core/commands/args/parser/ParserOutputWrapper.ts:533-538 | the forward cursor's next token is the lowest free index |
| WrapperScan.LastIsHighestFree | src/core/commands/args/parser/ParserOutputWrapper.ts:104-115 | the backward cursor's next token is the highest free index |
| WrapperScan.ForwardTakesFirstFree | src/core/commands/args/parser/ParserOutputWrapper.ts:156-161 | a forward `retrieveMany` takes free indices in increasing order, at most `limit` of them, and leaves only later free ones |
| WrapperScan.BackwardTakesLastFree | src/core/commands/args/parser/ParserOutputWrapper.ts:135-153 | a backward `retrieveMany` returns free indices in increasing order, at most `limit` of them, and leaves only earlier free ones |
| WrapperScan.ForwardAtLimit | src/core/commands/args/parser/ParserOutputWrapper.ts:160 | a forward scan that reached its limit has done what `RetrievedForward` says |
| WrapperScan.ForwardAtEnd | src/core/commands/args/parser/ParserOutputWrapper.ts:156-163 | a forward scan that ran off the end has done what `RetrievedForward` says |
| WrapperScan.BackwardAtLimit | src/core/commands/args/parser/ParserOutputWrapper.ts:140 | a backward scan that reached its limit has done what `RetrievedBackward` says |
| WrapperScan.BackwardAtEnd | src/core/commands/args/parser/ParserOutputWrapper.ts:135-153 | a backward scan that ran past index 0 has done what `RetrievedBackward` says |
| WrapperScan.UseMoreKeepsValid | src/core/commands/args/parser/ParserOutputWrapper.ts:506-508 | using more token indices keeps the wrapper's invariant |
| WrapperTransforms.Leading | src/core/commands/args/parser/ParserOutputWrapper.ts:276-287 | how many candidates `fn` maps before its first failure |
| WrapperTransforms.FirstSome | src/core/commands/args/parser/ParserOutputWrapper.ts:337-346 | the position of the first candidate `fn` maps |
| WrapperTransforms.FirstOk | src/core/commands/args/parser/ParserOutputWrapper.ts:392-405 | the position of the first candidate `fn` parses |
| WrapperTransforms.Errors | src/core/commands/args/parser/ParserOutputWrapper.ts:392-405 | the errors of every candidate, in scan order |
| WrapperTransforms.Hits | src/core/commands/args/parser/ParserOutputWrapper.ts:455-467 | the candidates `fn` maps, in scan order |
| WrapperTransforms.HitsMembers | src/core/commands/args/parser/ParserOutputWrapper.ts:455-467 | the hits are exactly the candidates `fn` maps |
| WrapperTransforms.FilterEnd | src/core/commands/args/parser/ParserOutputWrapper.ts:462 | `filterMap` stops right after the candidate that gives it its `limit`-th value |
| WrapperTransforms.DoneLeavesNoCandidates | src/core/commands/args/parser/ParserOutputWrapper.ts:37-39 | a wrapper that is done has no free index anywhere |
| WrapperTransforms.MapWhileAtFailure | src/core/commands/args/parser/ParserOutputWrapper.ts:280-283 | `mapWhile` stopped by a failure has done what `MappedWhile` says |
| WrapperTransforms.MapWhileAtLimit | src/core/commands/args/parser/ParserOutputWrapper.ts:284 | `mapWhile` that reached its limit has done what `MappedWhile` says |
| WrapperTransforms.MapWhileAtEnd | src/core/commands/args/parser/ParserOutputWrapper.ts:276-287 | `mapWhile` that ran off the end has done what `MappedWhile` says |
| WrapperTransforms.FindMapAtHit | src/core/commands/args/parser/ParserOutputWrapper.ts:341-343 | `findMap` that found a candidate has done what `FoundMap` says |
| WrapperTransforms.FindMapAtEnd | src/core/commands/args/parser/ParserOutputWrapper.ts:337-346 | `findMap` that found nothing has done what `FoundMap` says |
| WrapperTransforms.FindParseAtHit | src/core/commands/args/parser/ParserOutputWrapper.ts:396-399 | `findParse` that found a candidate has done what `FoundParse` says |
| WrapperTransforms.FindParseAtEnd | src/core/commands/args/parser/ParserOutputWrapper.ts:392-405 | `findParse` that found nothing returns every error in scan order, as `FoundParse` says |
| WrapperTransforms.FilterAtLimit | src/core/commands/args/parser/ParserOutputWrapper.ts:462 | `filterMap` that met its limit has done what `FilteredMap` says |
| WrapperTransforms.FilterAtEnd | src/core/commands/args/parser/ParserOutputWrapper.ts:454-467 | `filterMap` that ran off the end has done what `FilteredMap` says |
| WrapperTransforms.FilterKeepsValid | src/core/commands/args/parser/ParserOutputWrapper.ts:458-459 | what `filterMap` uses are free candidates, so the wrapper's invariant holds |
| WrapperLoops.RetrieveForwardLoop | src/core/commands/args/parser/ParserOutputWrapper.ts:156-163 | the forward loop of `retrieveMany` does what `RetrievedForward` says |
| WrapperLoops.RetrieveBackwardLoop | src/core/commands/args/parser/ParserOutputWrapper.ts:135-153 | the backward loop and the final reversal do what `RetrievedBackward` says |
| WrapperLoops.MapWhileLoop | src/core/commands/args/parser/ParserOutputWrapper.ts:276-287 | the loop of `mapWhile` does what `MappedWhile` says |
| WrapperLoops.FindMapLoop | src/core/commands/args/parser/ParserOutputWrapper.ts:337-346 | the loop of `findMap` does what `FoundMap` says |
| WrapperLoops.FindParseLoop | src/core/commands/args/parser/ParserOutputWrapper.ts:392-405 | the loop of `findParse` does what `FoundParse` says |
| WrapperLoops.FilterMapLoop | src/core/commands/args/parser/ParserOutputWrapper.ts:454-467 | the loop of `filterMap` does what `FilteredMap` says |
| ParserOutputWrapper.ParserOutputWrapper.constructor | src/core/commands/args/parser/ParserOutputWrapper.ts:25-32 | nothing used, the forward cursor at 0, the backward cursor at `length - 1`, no checkpoint |
| ParserOutputWrapper.ParserOutputWrapper.Done | src/core/commands/args/parser/ParserOutputWrapper.ts:37-39 | defines `done`: the used indices are at least as many as the tokens; `WrapperScan.DoneIffAllUsed` proves this means every index is used |
| ParserOutputWrapper.ParserOutputWrapper.GetOptionAll | src/core/commands/args/parser/ParserOutputWrapper.ts:83-92 | `getOption(id, true)` gives every value of the option, or nothing when it has none; `getOption(id)` gives something exactly then, and it is the last of those values |
| ParserOutputWrapper.ParserOutputWrapper.MarkAsUsed | src/core/commands/args/parser/ParserOutputWrapper.ts:506-508 | adds the index to the used set and changes nothing else |
| ParserOutputWrapper.ParserOutputWrapper.Save | src/core/commands/args/parser/ParserOutputWrapper.ts:513-520 | the checkpoint becomes a copy of the current state |
| ParserOutputWrapper.ParserOutputWrapper.Reset | src/core/commands/args/parser/ParserOutputWrapper.ts:527-531 | restores the checkpoint exactly and clears it; a no-op without one |
| ParserOutputWrapper.ParserOutputWrapper.NextToken | src/core/commands/args/parser/ParserOutputWrapper.ts:533-538 | moves the forward cursor onto the first free index and returns its token |
| ParserOutputWrapper.ParserOutputWrapper.NextOrdered | src/core/commands/args/parser/ParserOutputWrapper.ts:101-116 | nothing when done; otherwise the first (or from the end, the last) free token's value, which becomes used, with the cursor moved past it |
| ParserOutputWrapper.ParserOutputWrapper.LastFreeToken | src/core/commands/args/parser/ParserOutputWrapper.ts:104-115 | the backward branch: uses the last free index at or below the backward cursor and steps below it |
| ParserOutputWrapper.ParserOutputWrapper.MapNext | src/core/commands/args/parser/ParserOutputWrapper.ts:177-188 | `fn` of the first free token; it is used and the cursor steps past it only when `fn` succeeds or `alwaysUse` is set |
| ParserOutputWrapper.ParserOutputWrapper.ParseNext | src/core/commands/args/parser/ParserOutputWrapper.ts:223-234 | as `MapNext`, with success meaning an `ok` result |
| ParserOutputWrapper.ParserOutputWrapper.RetrieveMany | src/core/commands/args/parser/ParserOutputWrapper.ts:126-164 | nothing when done; otherwise the first (or last) `limit` free tokens from the start position, in input order, now used |
| ParserOutputWrapper.ParserOutputWrapper.MapWhile | src/core/commands/args/parser/ParserOutputWrapper.ts:268-288 | nothing when done; otherwise the leading mapped values up to `limit`, with the failing token used only under `alwaysUse` |
| ParserOutputWrapper.ParserOutputWrapper.FindMap | src/core/commands/args/parser/ParserOutputWrapper.ts:331-347 | nothing when done; otherwise the first candidate `fn` maps, with the skipped candidates used only under `alwaysUse` |
| ParserOutputWrapper.ParserOutputWrapper.FindParse | src/core/commands/args/parser/ParserOutputWrapper.ts:386-406 | `err([])` when done; otherwise the first ok value, or every error in scan order |
| ParserOutputWrapper.ParserOutputWrapper.FilterMap | src/core/commands/args/parser/ParserOutputWrapper.ts:448-468 | nothing when done; otherwise the values of every mapped candidate, stopping once `limit` is met after a visit |
| LinkedList.IndexOfDistinct | src/lib/utils/collections/LinkedList.ts:201-219 | in a chain without repeats, the position of a node is where it is found |
| LinkedList.Values | src/lib/utils/collections/LinkedList.ts:180-184 | the values of the nodes of a chain, one per node, in order |
| LinkedList.ChainFrame | src/lib/utils/collections/LinkedList.ts:201-219 | changing nodes off the chain changes neither the chain nor its values |
| LinkedList.ChainRemove | src/lib/utils/collections/LinkedList.ts:81-82 | linking the node before a position past it leaves a chain without that node |
| LinkedList.ChainInsert | src/lib/utils/collections/LinkedList.ts:117-122 | linking a new node in after a position extends the chain there |
| LinkedList.ChainCons | src/lib/utils/collections/LinkedList.ts:144-148 | a new node linked in front of a chain extends it there |
| LinkedList.LinkedList.constructor | src/lib/utils/collections/LinkedList.ts:133-138 | a new list is empty |
| LinkedList.LinkedList.Unshift | src/lib/utils/collections/LinkedList.ts:144-148 | the value becomes the head, in front of the old contents |
| LinkedList.LinkedList.Shift | src/lib/utils/collections/LinkedList.ts:156-161 | nothing (the source throws) on an empty list; otherwise the head's value, and the contents lose their first element |
| LinkedList.LinkedList.Clear | src/lib/utils/collections/LinkedList.ts:166-168 | the list becomes empty |
| LinkedList.LinkedList.IsEmpty | src/lib/utils/collections/LinkedList.ts:173-175 | there is no head exactly when the list holds no values |
| LinkedList.LinkedList.Array | src/lib/utils/collections/LinkedList.ts:180-184 | the values from head to tail |
| LinkedList.LinkedList.LinkAfter | src/lib/utils/collections/LinkedList.ts:117-122 | a new node goes right after the given node, so the value appears after that node's position |
| LinkedList.LinkedList.Iter | src/lib/utils/collections/LinkedList.ts:193-195 | an iterator that has yielded nothing and whose next value is the first |
| LinkedList.LinkedListIterator.constructor | src/lib/utils/collections/LinkedList.ts:18-20 | no current element to operate on, current node at the head |
| LinkedList.LinkedListIterator.Done | src/lib/utils/collections/LinkedList.ts:41-44 | on the list, done exactly when every value has been yielded |
| LinkedList.LinkedListIterator.Next | src/lib/utils/collections/LinkedList.ts:46-63 | yields the values in order, then nothing with the state kept |
| LinkedList.LinkedListIterator.Skip | src/lib/utils/collections/LinkedList.ts:29-36 | throws exactly when fewer than `n` values are left; otherwise advances `n` values |
| LinkedList.LinkedListIterator.Remove | src/lib/utils/collections/LinkedList.ts:74-83 | throws before the first `next()`, and where `shift` throws on an empty list; otherwise removes the current value, by shifting the list at its head or by unlinking it after the previous node, and the others keep their order |
| LinkedList.LinkedListIterator.RemoveLinked | src/lib/utils/collections/LinkedList.ts:81-82 | links the previous node past the current one, which removes the current value |
| LinkedList.LinkedListIterator.Replace | src/lib/utils/collections/LinkedList.ts:92-100 | throws before the first `next()`; otherwise only the current value changes |
| LinkedList.LinkedListIterator.Insert | src/lib/utils/collections/LinkedList.ts:109-123 | the value goes right after the current element and becomes current; with no current node it is unshifted and the head becomes current |
| LinkedList.LinkedListIterator.InsertAfterCurrent | src/lib/utils/collections/LinkedList.ts:117-122 | the branch with a current node: the value lands right after it |
| BitSet.Unsigned | src/lib/utils/collections/BitSet.ts:27 | `x >>> 0` is in `[0, 2^32)` and agrees with `x` modulo 2^32 |
| BitSet.Signed | src/lib/utils/collections/BitSet.ts:15 | `x \| 0` is in `[-2^31, 2^31)` and agrees with `x` modulo 2^32 |
| BitSet.Offset | src/lib/utils/collections/BitSet.ts:27 | defines the word of a position, `p >>> 5` |
| BitSet.Bit | src/lib/utils/collections/BitSet.ts:29 | defines the place of a position in its word, the shift count of `1 << p`; `SamePosition` proves word and place fix the position |
| BitSet.SamePosition | src/lib/utils/collections/BitSet.ts:27-29 | a position is fixed by its word and its bit in the word |
| BitSet.InPositions | src/lib/utils/collections/BitSet.ts:26-30 | a position is held exactly when its bit is on |
| BitSet.InitialLengthCovers | src/lib/utils/collections/BitSet.ts:14-18 | `new BitSet(n)` allocates `ceil(n / 32)` words, room for `[0, n)` and not a word more |
| BitSet.WriteWords | src/lib/utils/collections/BitSet.ts:40-41 | a write reaches its word, the storage grows with zero words as needed, and every other word is kept |
| BitSet.HasSet | src/lib/utils/collections/BitSet.ts:38-42 | after `set(p)` a bit is on exactly when it is `p`'s or was on |
| BitSet.HasClear | src/lib/utils/collections/BitSet.ts:50-54 | after `clear(p)` a bit is on exactly when it is not `p`'s and was on |
| BitSet.HasToggle | src/lib/utils/collections/BitSet.ts:61-65 | after `toggle(p)` `p`'s bit is flipped and every other bit kept |
| BitSet.PositionsSet | src/lib/utils/collections/BitSet.ts:38-42 | `set(p)` adds `p >>> 0` and nothing else |
| BitSet.PositionsClear | src/lib/utils/collections/BitSet.ts:50-54 | `clear(p)` removes `p >>> 0` and nothing else |
| BitSet.PositionsToggle | src/lib/utils/collections/BitSet.ts:61-65 | `toggle(p)` flips `p >>> 0` and nothing else |
| BitSet.SetPresent | src/lib/utils/collections/BitSet.ts:33-42 | setting a bit that is already on leaves the words unchanged |
| BitSet.ToggleTwice | src/lib/utils/collections/BitSet.ts:61-65 | toggling a position twice gives back the same positions |
| BitSet.BitSet.constructor | src/lib/utils/collections/BitSet.ts:14-18 | `ceil(n / 32)` zero words and no member |
| BitSet.BitSet.Get | src/lib/utils/collections/BitSet.ts:26-30 | whether `p >>> 0` is a member; false beyond the stored words |
| BitSet.BitSet.Set | src/lib/utils/collections/BitSet.ts:38-42 | the members gain `p >>> 0` |
| BitSet.BitSet.Clear | src/lib/utils/collections/BitSet.ts:50-54 | the members lose `p >>> 0` |
| BitSet.BitSet.Toggle | src/lib/utils/collections/BitSet.ts:61-65 | `p >>> 0` becomes a member exactly when it was not |
| BitSet.BitSet.Ensure | src/lib/utils/collections/BitSet.ts:67-72 | pads the words with zeros to at least `offset` words |
| CharacterIterator.CharCodeAt | src/lib/moderation/filter/preprocessor/CharacterIterator.ts:24-28 | a code unit exactly for an index in range, `NaN` otherwise |
| CharacterIterator.DecodeAt | src/lib/moderation/filter/preprocessor/CharacterIterator.ts:22-38 | a high surrogate followed by a low surrogate is one code point in `[0x10000, 0x10FFFF]` two units wide; any other unit is itself, one unit wide |
| CharacterIterator.CodePoints | src/lib/moderation/filter/preprocessor/CharacterIterator.ts:22-38 | nothing at or past the end; otherwise between half as many values as units left and as many |
| CharacterIterator.EncodeScalar | src/lib/moderation/filter/preprocessor/CharacterIterator.ts:25-33 | the UTF-16 encoding of a scalar value (section 2.1 of RFC 2781): one unit below 0x10000, two above |
| CharacterIterator.DecodeScalar | src/lib/moderation/filter/preprocessor/CharacterIterator.ts:25-37 | decoding at the start of an encoded scalar value gives it back with its width |
| CharacterIterator.DecodeEncode | src/lib/moderation/filter/preprocessor/CharacterIterator.ts:22-38 | round trip: decoding the UTF-16 encoding of scalar values gives them back |
| CharacterIterator.CharacterIterator.constructor | src/lib/moderation/filter/preprocessor/CharacterIterator.ts:4-5 | empty text at position 0 |
| CharacterIterator.CharacterIterator.SetText | src/lib/moderation/filter/preprocessor/CharacterIterator.ts:7-11 | new text, decoded from its start |
| CharacterIterator.CharacterIterator.SetPosition | src/lib/moderation/filter/preprocessor/CharacterIterator.ts:13-16 | decoding resumes at the given position |
| CharacterIterator.CharacterIterator.Done | src/lib/moderation/filter/preprocessor/CharacterIterator.ts:18-20 | done exactly when no value is left |
| CharacterIterator.CharacterIterator.Next | src/lib/moderation/filter/preprocessor/CharacterIterator.ts:22-38 | nothing and no move when done; otherwise the first remaining value, the rest remaining, one or two units further |
| CharacterIterator.CharacterIterator.Reset | src/lib/moderation/filter/preprocessor/CharacterIterator.ts:40-42 | the position becomes 0 |
| CharacterIterator.CharacterIterator.Advance | src/lib/moderation/filter/preprocessor/CharacterIterator.ts:52-54 | the position grows by `n` |
| PreprocessorOutput.EmptyTextOutput | src/lib/moderation/filter/preprocessor/PreprocessorOutput.ts:8-10 | four empty buffers |
| PreprocessorOutput.Code | src/lib/moderation/filter/preprocessor/PreprocessorOutput.ts:12-15 | `WhiteSpace` is -2 and `Symbol` is -1, both negative and so no code point |
| PreprocessorOutput.CodeInjective | src/lib/moderation/filter/preprocessor/PreprocessorOutput.ts:12-15 | the two sentinels are distinct |
| PreprocessorOutputWriter.Initial | src/lib/moderation/filter/preprocessor/PreprocessorOutputWriter.ts:26-32 | empty output, no boundary, not in a word, last character and counter -1 |
| PreprocessorOutputWriter.WriteAlpha | src/lib/moderation/filter/preprocessor/PreprocessorOutputWriter.ts:34-57 | skipped exactly when it repeats the last character with the counter not positive; otherwise character and index are appended together, a new character re-arms the counter to its limit less one and a repeat decrements it |
| PreprocessorOutputWriter.Separator | src/lib/moderation/filter/preprocessor/PreprocessorOutputWriter.ts:59-64 | inside a word, records `characters.length - 2` as a boundary and leaves the word; outside, changes nothing; the run state is kept |
| PreprocessorOutputWriter.SeparatorIdempotent | src/lib/moderation/filter/preprocessor/PreprocessorOutputWriter.ts:59-64 | a second separator changes nothing |
| PreprocessorOutputWriter.RepeatState | src/lib/moderation/filter/preprocessor/PreprocessorOutputWriter.ts:34-57 | `n` writes of one character append `Kept` copies of it and leave the counter as the limit says |
| PreprocessorOutputWriter.RunLength | src/lib/moderation/filter/preprocessor/PreprocessorOutputWriter.ts:50-56 | after a different character, `n` writes of `c` emit `min(n, L)` copies for a limit `L >= 1`, and one copy for `L <= 0` |
| PreprocessorOutputWriter.SeparatorKeepsRun | src/lib/moderation/filter/preprocessor/PreprocessorOutputWriter.ts:59-64 | a separator between two writes does not change what the second write outputs: it neither re-arms nor resets the run counter |
| PreprocessorOutputWriter.PreprocessorOutputWriter.constructor | src/lib/moderation/filter/preprocessor/PreprocessorOutputWriter.ts:17-20 | the options given and the initial state |
| PreprocessorOutputWriter.PreprocessorOutputWriter.GetOutput | src/lib/moderation/filter/preprocessor/PreprocessorOutputWriter.ts:22-24 | the output, whose characters and original indices have equal lengths |
| PreprocessorOutputWriter.PreprocessorOutputWriter.Reset | src/lib/moderation/filter/preprocessor/PreprocessorOutputWriter.ts:26-32 | back to the initial state |
| PreprocessorOutputWriter.PreprocessorOutputWriter.WriteAlphaCharacter | src/lib/moderation/filter/preprocessor/PreprocessorOutputWriter.ts:34-57 | the new state is what `WriteAlpha` gives |
| PreprocessorOutputWriter.PreprocessorOutputWriter.WriteSeparator | src/lib/moderation/filter/preprocessor/PreprocessorOutputWriter.ts:59-64 | the new state is what `Separator` gives |
| BasicRateLimiter.Admit | src/lib/utils/ratelimits/BasicRateLimiter.ts:28-43 | a key seen less than `cooldown` ago waits the time left and nothing changes; otherwise it is admitted with wait 0 and its time set to `now` |
| BasicRateLimiter.WaitExact | src/lib/utils/ratelimits/BasicRateLimiter.ts:31-35 | retrying `t` later is admitted exactly when `t` is at least the wait returned |
| BasicRateLimiter.KeysIndependent | src/lib/utils/ratelimits/BasicRateLimiter.ts:28-43 | a request for one key does not change the wait of another |
| BasicRateLimiter.Live | src/lib/utils/ratelimits/BasicRateLimiter.ts:45-51 | the entries `prune` keeps are some of the entries, values unchanged; an entry is dropped exactly when a request for its key at `now` would be admitted |
| BasicRateLimiter.PruneUnobservable | src/lib/utils/ratelimits/BasicRateLimiter.ts:45-51 | pruning at `now` changes no wait at `now` or later |
| BasicRateLimiter.PruneEntries | src/lib/utils/ratelimits/BasicRateLimiter.ts:45-51 | the loop keeps exactly the entries still cooling down |
| BasicRateLimiter.Scenarios | tests/lib/utils/ratelimits/BasicRateLimiter.test.ts:17-47 | the waits of the unit tests: 0, 4995, 0, 0 and 4995 |
| BasicRateLimiter.BasicRateLimiter.constructor | src/lib/utils/ratelimits/BasicRateLimiter.ts:13-21 | cooldown 0 and no entries |
| BasicRateLimiter.BasicRateLimiter.SetCooldown | src/lib/utils/ratelimits/BasicRateLimiter.ts:23-26 | replaces the cooldown |
| BasicRateLimiter.BasicRateLimiter.Request | src/lib/utils/ratelimits/BasicRateLimiter.ts:28-43 | the entries and wait are what `Admit` gives |
| BasicRateLimiter.BasicRateLimiter.Prune | src/lib/utils/ratelimits/BasicRateLimiter.ts:45-51 | keeps exactly the entries still cooling down |
| ComplexRateLimiter.CheckRequestDelay | src/lib/utils/ratelimits/ComplexRateLimiter.ts:128-142 | a positive delay exactly when a cooldown is set and the last request is more recent than it; then the time left |
| ComplexRateLimiter.CheckEntry | src/lib/utils/ratelimits/ComplexRateLimiter.ts:144-157 | a positive wait exactly when the entry has not expired and is at capacity; then the time until it expires |
| ComplexRateLimiter.ComputeWaitTime | src/lib/utils/ratelimits/ComplexRateLimiter.ts:124-126 | the larger of the two waits |
| ComplexRateLimiter.ShouldResetEntry | src/lib/utils/ratelimits/ComplexRateLimiter.ts:159-161 | defines `shouldResetEntry`: the bucket is full or the entry has lived its lifetime |
| ComplexRateLimiter.Admit | src/lib/utils/ratelimits/ComplexRateLimiter.ts:87-113 | a first request creates an entry with one token; a refused request changes nothing; an expired entry restarts with one token; otherwise a token is added and the last time is set |
| ComplexRateLimiter.WaitExact | src/lib/utils/ratelimits/ComplexRateLimiter.ts:100-101 | retrying `t` later is admitted exactly when `t` is at least the wait returned |
| ComplexRateLimiter.AdmitBounded | src/lib/utils/ratelimits/ComplexRateLimiter.ts:103-110 | with capacity at least 1, a request keeps every entry between one token and the capacity |
| ComplexRateLimiter.StaleLater | src/lib/utils/ratelimits/ComplexRateLimiter.ts:115-122 | an entry stale now stays stale |
| ComplexRateLimiter.Live | src/lib/utils/ratelimits/ComplexRateLimiter.ts:115-122 | the entries `prune` keeps are some of the entries, values unchanged; a dropped entry would be admitted at `now` |
| ComplexRateLimiter.PruneUnobservable | src/lib/utils/ratelimits/ComplexRateLimiter.ts:115-122 | pruning at `now` changes no wait at `now` or later |
| ComplexRateLimiter.PruneEntries | src/lib/utils/ratelimits/ComplexRateLimiter.ts:115-122 | the loop keeps exactly the entries that are not stale |
| ComplexRateLimiter.LeakyBucketScenario | tests/lib/utils/ratelimits/ComplexRateLimiter.test.ts:25-33 | the waits of the leaky-bucket unit test |
| ComplexRateLimiter.TokenBucketScenario | tests/lib/utils/ratelimits/ComplexRateLimiter.test.ts:35-41 | the waits 0, 4995 and 0 of the token-bucket unit test, and the same 4995 when a prune follows the first request |
| ComplexRateLimiter.PruneScenario | tests/lib/utils/ratelimits/ComplexRateLimiter.test.ts:54-62 | `prune` right after the first request keeps the entry, so a request 5 ms later still waits 4995 ms |
| ComplexRateLimiter.CombinedScenario | tests/lib/utils/ratelimits/ComplexRateLimiter.test.ts:43-51 | the waits 0, 1995, 0, 6000 and 5000 of the combined token-and-leaky-bucket unit test |
| ComplexRateLimiter.ComplexRateLimiter.constructor | src/lib/utils/ratelimits/ComplexRateLimiter.ts:56-61 | no cooldown, lifetime 0, capacity 1, no entries |
| ComplexRateLimiter.ComplexRateLimiter.SetCooldown | src/lib/utils/ratelimits/ComplexRateLimiter.ts:71-74 | replaces the cooldown |
| ComplexRateLimiter.ComplexRateLimiter.SetEntryOptions | src/lib/utils/ratelimits/ComplexRateLimiter.ts:82-85 | replaces the entry options |
| ComplexRateLimiter.ComplexRateLimiter.Request | src/lib/utils/ratelimits/ComplexRateLimiter.ts:87-113 | the entries and wait are what `Admit` gives |
| ComplexRateLimiter.ComplexRateLimiter.Prune | src/lib/utils/ratelimits/ComplexRateLimiter.ts:115-122 | keeps exactly the entries that are not stale |
| TypeInspect.DefaultOptions | src/lib/utils/type/index.ts:12 | the defaults 200, 200 and 3 |
| TypeInspect.Deeper | src/lib/utils/type/index.ts:16 | one level less deep, the caps kept |
| TypeInspect.BelowTotal | src/lib/utils/type/index.ts:46 | the order `sort()` uses is total on distinct strings |
| TypeInspect.PlaceSorted | src/lib/utils/type/index.ts:39-46 | placing a new string into a sorted list without repeats keeps it sorted and without repeats |
| TypeInspect.Union | src/lib/utils/type/index.ts:36-46 | the set of types, sorted, is no longer than the list and non-empty for a non-empty list |
| TypeInspect.UnionElements | src/lib/utils/type/index.ts:36-46 | the union holds exactly the types of the list |
| TypeInspect.UnionSorted | src/lib/utils/type/index.ts:46 | the union is sorted and without repeats |
| TypeInspect.UnionGrows | src/lib/utils/type/index.ts:41 | the union of a prefix is no larger than the whole union, so an early `break` is final |
| TypeInspect.UnionSize | src/lib/utils/type/index.ts:39-41 | the union has as many members as the set of types, which `valueTypes.size` counts |
| TypeInspect.TrackDone | src/lib/utils/type/index.ts:36-44 | after the loop, the types are valid exactly when the union fits the cap, and then the collected set is the union |
| TypeInspect.TrackExceeded | src/lib/utils/type/index.ts:41-44 | a loop that found too many types has a union over the cap |
| TypeInspect.SequenceUnion | src/lib/utils/type/index.ts:26-48 | a sequence within the caps prints its sorted union of element types, each once, or the fallback when there are too many |
| TypeInspect.MapUnion | src/lib/utils/type/index.ts:54-90 | a map within the caps prints its key and value unions, each `unknown` when over the cap, and the fallback only when both are |
| TypeInspect.UninspectedFallback | src/lib/utils/type/index.ts:31-33 | a sequence or map at depth 0, empty, or over its size cap prints its default type, or else its type name with `unknown` arguments (index.ts:54-56 for maps) |
| TypeInspect.OversizeSetExample | tests/lib/utils/types/index.test.ts:37-42 | a set of 201 numbers at depth 1 is `Set<unknown>` |
| TypeInspect.OversizeMapExample | tests/lib/utils/types/index.test.ts:66-71 | a map of 201 entries at depth 1 is `Map<unknown, unknown>` |
| TypeInspect.SimpleExamples | tests/lib/utils/types/index.test.ts:5-12 | `unknown` and `null` from the unit tests |
| TypeInspect.ContainerExamples | tests/lib/utils/types/index.test.ts:15-23 | `Proxy<unknown>` at depth 0 and `Proxy<Function>` at depth 1 |
| TypeInspect.EmptySetExample | tests/lib/utils/types/index.test.ts:27-30 | an empty set is `Set<unknown>` |
| TypeInspect.ShallowSetExample | tests/lib/utils/types/index.test.ts:32-35 | a set at depth 0 is `Set<unknown>` |
| TypeInspect.EmptyMapExample | tests/lib/utils/types/index.test.ts:56-59 | an empty map is `Map<unknown, unknown>` |
| TypeInspect.SetExample | tests/lib/utils/types/index.test.ts:44-47 | two strings and a number give `Set<number \| string>` |
| TypeInspect.Inspect | src/lib/utils/type/index.ts:10-91 | defines the type string of `inspectTypeOf` by kind of value; `InspectTypeOf` computes it and `SequenceUnion` and `MapUnion` state what it prints |
| TypeInspect.SequenceResult | src/lib/utils/type/index.ts:44-47 | defines the printed type of an inspected sequence: the fallback when the union of element types is over the cap, otherwise the sorted union in angle brackets |
| TypeInspect.MapResult | src/lib/utils/type/index.ts:83-90 | defines the printed type of an inspected map: the fallback when both unions are over the cap, otherwise each union or `unknown` |
| TypeInspect.InspectTypeOf | src/lib/utils/type/index.ts:10-91 | the method computes `Inspect` |
| TypeInspect.InspectSequence | src/lib/utils/type/index.ts:26-48 | the sequence branch, with its early `break`, computes `Inspect` |
| TypeInspect.InspectMap | src/lib/utils/type/index.ts:50-90 | the map branch, with its two validity flags and early return, computes `Inspect` |
| TypeInspect.Collect | src/lib/utils/type/index.ts:38-41 | one turn of the loop keeps its bookkeeping |
| Schemas.DigitChar | src/lib/setup/config/schemas.ts:20 | the digit character of a value below 10 reads back as that value |
| Schemas.MatchesTimePattern | src/lib/setup/config/schemas.ts:20 | defines a match of `/^(\d{2}):(\d{2})$/`: two digits, a colon, two digits |
| Schemas.ParseTimeOfDay | src/lib/setup/config/schemas.ts:17-28 | accepted exactly when the text is two digits, a colon and two digits, with hour below 24 and minute below 60; the result is a minute of the day |
| Schemas.FormatTimeOfDay | src/lib/setup/config/schemas.ts:20-21 | the `HH:MM` spelling of a minute of the day matches the pattern |
| Schemas.ParseFormat | src/lib/setup/config/schemas.ts:17-28 | round trip: parsing a formatted minute of the day gives it back |
| Schemas.FormatParse | src/lib/setup/config/schemas.ts:17-28 | round trip: formatting a parsed time gives back the text |
| Schemas.TimeOfDayExamples | src/lib/setup/config/schemas.ts:20-26 | `00:00` and `23:59` are accepted; `24:00`, `12:60` and `1:00` are not |
| Schemas.MatchesTwitchUrl | src/lib/setup/config/schemas.ts:12 | defines a match of the URL pattern, whose unescaped `.` stands for any character but a line terminator; `TwitchChannel` and `TwitchLookalike` state what it accepts |
| Schemas.TwitchChannel | src/lib/setup/config/schemas.ts:12 | a Twitch URL is accepted exactly when the channel name is 4 to 25 word characters |
| Schemas.TwitchLookalike | src/lib/setup/config/schemas.ts:12 | the unescaped `.` in the pattern also accepts `https://twitchxtv/abcd` |
| Schemas.ParseActivitySet | src/lib/setup/config/schemas.ts:30-34 | accepted exactly when both times are valid and there is at least one valid activity |
| TimeConstants.Milliseconds | src/lib/utils/time/constants.ts:4-12 | a second is 1000 ms, a minute 60000, an hour 3600000, a day 86400000, a week 604800000, a year 31536000000 |
| TimeConstants.FiveMinutes | src/lib/structures/ActivityRotation.ts:30 | five minutes are 300000 ms |
| ActivityRotation.InWindow | src/lib/structures/ActivityRotation.ts:85-87 | defines the window: from the first instant of the start minute to the first instant of the end minute, both included, in milliseconds of the day |
| ActivityRotation.FindSetFrom | src/lib/structures/ActivityRotation.ts:85-87 | the first set from `k` on whose window holds the millisecond `now`, or -1 when none does |
| ActivityRotation.FindSet | src/lib/structures/ActivityRotation.ts:85-87 | the first set whose window holds the millisecond `now`, or -1 when none does |
| ActivityRotation.ActivityAt | src/lib/structures/ActivityRotation.ts:96 | an activity exactly for an index in range, `undefined` otherwise |
| ActivityRotation.Next | src/lib/structures/ActivityRotation.ts:83-102 | no matching set: nothing changes and no activity; a new set: its first activity; the same set: the next activity, wrapping after the last |
| ActivityRotation.NextInRange | src/lib/structures/ActivityRotation.ts:83-102 | with non-empty sets, the indices stay in range and a matching set always yields an activity |
| ActivityRotation.PollsFirstRound | src/lib/structures/ActivityRotation.ts:91-101 | within one window, the `n`-th poll shows activity `n - 1` for the first round |
| ActivityRotation.PollsPeriod | src/lib/structures/ActivityRotation.ts:93-96 | within one window, the polls repeat with a period of the set's size |
| ActivityRotation.TestScenarios | tests/lib/structures/ActivityRotation.test.ts:84-126 | the selections of the unit tests: 5:38, 3:51, 0:00, 23:59 and the rotation at 2:01; and 02:00:30, past the first instant of a window ending at 02:00, shows no activity |
| ActivityRotation.ActivityRotation.constructor | src/lib/structures/ActivityRotation.ts:28-34 | the sets given, a five-minute interval by default, the initial indices -1, not running |
| ActivityRotation.ActivityRotation.Start | src/lib/structures/ActivityRotation.ts:51-56 | running already: nothing; otherwise runs, polls once and registers the timer |
| ActivityRotation.ActivityRotation.Stop | src/lib/structures/ActivityRotation.ts:65-70 | not running and no timer afterwards, whatever the state before; the rotation is kept |
| ActivityRotation.ActivityRotation.SetNextActivity | src/lib/structures/ActivityRotation.ts:72-81 | shows the activity `Next` gives |
| ActivityRotation.ActivityRotation.GetNextActivity | src/lib/structures/ActivityRotation.ts:83-102 | the new indices and activity are what `Next` gives |

## Left out

- The `async` variants of the wrapper combinators (`mapNextAsync`, `parseNextAsync`, `mapWhileAsync`, `findMapAsync`, `findParseAsync`, `filterMapAsync`) are left out. They differ from the synchronous ones only by awaiting `fn`.
- ParserOutputWrapper.ParserOutputWrapper.MarkAsUsed: requires an index within the token range. The source accepts any number, but `done` counts the used set's size and would then go wrong.
- ParserOutputWrapper.ParserOutputWrapper.RetrieveMany: requires a forward start position that is not negative, and a backward one below the length.
- ParserOutputWrapper.ParserOutputWrapper.MapWhile: requires a start position that is not negative. The same holds for FindMap, FindParse and FilterMap.
- The framework's own `ParserOutput` class is left out: its shape is not what the framework parsers write. All parsers write the core `ParserOutput` record.
- The tests of the variadic parser target a copy of it that is not part of this model. The model follows `VariadicFlagParser.ts`, which appends `value + trailing` for every token, the last included.
- Parser.Parser: the abstract `Parser` and its `StandardParser` and `VariadicFlagParser` subclasses are one class whose `strategy` constant picks the subclass. The two `StandardParser` copies have the same rules and are modelled once.
- Updates in place are modelled as values. The parsers' output object is a value passed in and returned. The wrapper's saved state is a copy, which matches the deep copy made by `save`.
- LinkedList.LinkedList.Shift: returns the head's value rather than the node. An empty list gives `None` where the source throws.
- BitSet.BitSet.constructor: requires a size whose word count is not negative; there `new Array` throws.
- `Symbol.iterator` and the iterator protocol are modelled by the `next` methods. The lexer's `lex()` spreads that iterator.
- CharacterIterator.CharacterIterator.SetPosition: takes a natural number. A negative position makes the source read `NaN` code units.
- PreprocessorOutputWriter.PreprocessorOutputWriter: `wordBoundaries` is a set field of the writer. `writeSeparator` writes to it through the output object, which has no such field.
- `TextProcessor`, the caller of the preprocessor pieces, is not part of this model.
- Rate limiters: the abstract `RateLimiter` base is not part of this model. `Date.now()` is the parameter `now`.
- TypeInspect: the `getMetadata` reflection over JavaScript values is replaced by the `Metadata` datatype. Its `size` is the length of its element list.
- The tests that go over the union cap (index.test.ts:49-54 and 82-110) are not restated as example lemmas; `SequenceUnion` and `MapUnion` state those branches for every input.
- Schemas: only the time-of-day rule, the activity URL pattern and `activities.min(1)` are modelled, not the rest of the configuration schema.
- Schemas: a parsed time of day is a minute of the day, standing for the `LocalTime` with zero seconds and nanoseconds that `LocalTime.parse` gives. The clock is kept to the millisecond. Its sub-millisecond part is left out, so an instant less than a millisecond past the start of a window's end minute counts as inside the window.
- LinkedList.LinkedListIterator: the source iterator reads the list's head once, when it is created. The model ties the iterator to the list's current head, so a list changed outside the iterator (`unshift`, `shift` or `clear` on the list, or a second iterator) is not modelled.
- ActivityRotation.ActivityRotation: the interval timer is the flag `timer`. `setActivity` on the Discord client is the activity a poll returns. The logger is left out.
- JavaScript numbers are unbounded integers. Outside `BitSet` no code relies on their 53-bit precision.
