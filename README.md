# validate-form, modelled in Dafny

validate-form is a small JavaScript form-validation library. It has three parts, and this project models and proves things about each:

- **The validator** (`src/index.js`). A `Validator` holds a list of rules such as `minlength:5` or `range:[1,5)`. Its `check(value)` runs the rules against a value and returns `true` or the failing rule's message. The rules are looked up by name in a table of methods and messages that all validators share. The module also has `format`, which fills `{0}`, `{1}`, … placeholders in a message template.
- **The range engine** (`src/range.js`). It decides whether a number lies inside a range expression such as `[1,5) & (10,]`: `parse` cuts the text into tokens, `analysis` turns them into intervals and rejects badly ordered ones, `check` tests every interval, and `validate` chains the three.
- **The interval parser** (`src/parse/`). This is a Babel-style tokenizer (`Tokenizer`), a statement parser (`StatementParser`, `NodeUtil`) and a driver (`Parser`) that read the same kind of expression into a syntax tree of clause nodes.

The code is modelled in the form it is written in:

- **Classes whose state changes become Dafny classes.** In the tokenizer, every method moves `state.pos` and is proved to reach the state, or the error, that a pure specification function in `LexSpec` computes. The parser methods are proved against specification functions in `Parsing`. The validator keeps its rule list, and the registry keeps the method and message tables, in fields that the methods update.
- **Loops become methods with loop invariants.** This covers `range.js` `parse` and `analysis`, `format`, and `addRules`. Each is proved equal to a recursive specification function.
- **Pure code becomes functions**, and lemmas state what they promise.

Three behaviours of the code are modelled as they are written:

- `skipLineComment` calls `isNewLine`, which `tokenizer.js` never imports (src/parse/tokenizer.js:413), so skipping a `//` comment with text after it throws a ReferenceError.
- At an unterminated block comment, `skipSpace` sets `pos` to `-1 + 2` (src/parse/tokenizer.js:405-406) and goes on scanning from the second character, which can repeat for ever.
- The `do … while` of `parseStatement` (src/parse/statement.js:22-27) never ends when the tokenizer stops moving. This happens at a character that `getTokenFromCode` does not list, which leaves an `&` token current.

Files, one module each:

- `common.dfy`: `Option`, `Result`, `Outcome`, decimal digits.
- `charcodes.dfy`, `whitespace.dfy`, `types.dfy`: the constant tables of `src/parse`.
- `lexspec.dfy`, `lexfacts.dfy`, `tokenizer.dfy`: the tokenizer, as a specification, its properties, and the class.
- `node.dfy`, `parser.dfy`, `parsefacts.dfy`, `pipeline.dfy`: the parser, its properties, and lexer and parser together.
- `jsnumber.dfy`: JavaScript numbers, `Number(text)` and `trim`.
- `range.dfy`: `src/range.js`.
- `format.dfy`: `format`.
- `validator.dfy`: the rules, the registry and the `Validator` class.

## Model

| member | source | states |
|---|---|---|
| Common.NatToString | src/range.js:172 | the decimal text of the index `i` in the error message is a non-empty run of digits without a leading zero |
| Common.NatToStringRoundTrip | src/range.js:172 | the decimal text of a natural number reads back as that number |
| Common.NatToStringInjective | src/range.js:172 | distinct indices give distinct texts |
| TokenTypes.Keywords.constructor | src/parse/types.js:7 | the keyword map starts empty |
| CharCodes.IsDigitIsDigitTable | src/parse/charcodes.js:106-108 | `isDigit` holds exactly for the ten codes `0`–`9`, and the digit constants are consecutive from 48 |
| CharCodes.LetterLayout | src/parse/charcodes.js:1-104 | the letter constants are laid out as ASCII: A–Z and a–z are runs of 26, with lower case 32 above upper case |
| CharCodes.StructuralCodes | src/parse/charcodes.js:1-104 | the six punctuation codes the tokenizer dispatches on are `( ) [ ] , &`, pairwise distinct and none of them a digit |
| Whitespace.IsWhitespaceIsEcmaWhiteSpace | src/parse/is-whitespace.js:3-30 | `isWhitespace` is exactly tab, vertical tab, form feed and the space separators that ECMA-262 counts as WhiteSpace |
| Whitespace.IsNewLineIsEcmaLineTerminator | src/parse/is-whitespace.js:33-43 | `isNewLine` is exactly the four line terminators LF, CR, LS and PS |
| Whitespace.WhitespaceNewLineDisjoint | src/parse/is-whitespace.js:3-43 | no code is both white space and a new line |
| Whitespace.ClassifiersOutsideRange | src/parse/is-whitespace.js:3-43 | codes outside 0..0xFFFF, including the -1 that stands for `NaN`, are neither |
| TokenTypes.TableShape | src/parse/types.js:15-28 | the table has ten distinct types, none a keyword, and each punctuation type is labelled with its own character |
| TokenTypes.PunctuationLabelsDistinct | src/parse/types.js:15-28 | two distinct types of the table have distinct labels |
| TokenTypes.Keywords.CreateKeyword | src/parse/types.js:7-13 | `createKeyword(name)` returns a new type labelled `name`, not one of the table, and records it under `name` in the keyword map |
| LexSpec.FinishTokenSpec | src/parse/tokenizer.js:397-402 | `finishToken` ends the token at the current position and leaves `pos` and `start` alone |
| LexSpec.MaskIsDivMod | src/parse/tokenizer.js:114-117 | the masks `& 0xfc00` and `& 0x3ff` on a 16-bit code are its high part and its remainder modulo 0x400 |
| LexSpec.CodePointAtPos | src/parse/tokenizer.js:112-122 | the code point is -1 (standing for `NaN`) exactly off the input, is never above 0x10FFFF, and is above 0xFFFF only when a lead surrogate is followed by a trail surrogate |
| LexSpec.CodePointAtPosDecodesUtf16 | src/parse/tokenizer.js:112-122 | `codePointAtPos` reads back every Unicode scalar value from its UTF-16 encoding |
| LexSpec.CodePointAtPosUnpaired | src/parse/tokenizer.js:112-122 | a code unit that does not begin a surrogate pair is returned as it is |
| LexSpec.DigitValueIsStandard | src/parse/tokenizer.js:266-276 | for radix 2, 8, 10 and 16, the digit value `readInt` computes is accepted exactly for the standard digits of that radix, and equals their value |
| LexSpec.ReadIntFrom | src/parse/tokenizer.js:240-287 | the scanning loop of `readInt` never moves past the end of the input |
| LexSpec.ReadIntSpec | src/parse/tokenizer.js:223-298 | `readInt` stops inside the input, and returns `null` exactly when it read no digit |
| LexSpec.RunEnd | src/parse/tokenizer.js:266-283 | the digit run that `readInt` consumes: every unit before its end is a digit of the radix, and the unit at its end is not |
| LexSpec.HornerIsPositional | src/parse/tokenizer.js:286 | the accumulation `total = total * radix + val` is positional notation |
| LexSpec.HornerBound | src/parse/tokenizer.js:286 | n digits of radix r accumulate to less than r^n |
| LexSpec.ReadIntValue | src/parse/tokenizer.js:223-298 | without separators, `readInt` throws at an `_` that ends the run; otherwise it returns the positional value of the run, or `null` for an empty run, and stops at the run's end |
| LexSpec.ReadIntThrowsAtUnderscore | src/parse/tokenizer.js:244-259 | an `_` reached when separators are not allowed throws |
| LexSpec.RemoveUnits | src/parse/tokenizer.js:213-215 | `.replace(/[_n]/g, '')` leaves no removed unit and is never longer |
| LexSpec.ReadRadixNumberSpec | src/parse/tokenizer.js:190-221 | a radix literal that is read ends after its `0x`/`0o`/`0b` prefix and inside the input |
| LexSpec.ReadNumberSpec | src/parse/tokenizer.js:300-395 | a decimal literal that is read ends after its first digit and inside the input |
| LexSpec.NumberFraction | src/parse/tokenizer.js:331-337 | the fraction step keeps the token inside the input |
| LexSpec.NumberFractionReads | src/parse/tokenizer.js:331-337 | after a non-octal integer part, a `.` is consumed and `readInt(10)` reads the fraction digits, whose count and value the literal keeps |
| LexSpec.NumberExponent | src/parse/tokenizer.js:339-353 | the exponent step keeps the token inside the input |
| LexSpec.NumberExponentReads | src/parse/tokenizer.js:339-353 | at `e`/`E` an optional sign is skipped and `readInt(10)` reads the exponent; a throw there is a lex error |
| LexSpec.NumberExponentSkips | src/parse/tokenizer.js:339-353 | an octal literal, or one without `e`/`E`, has no exponent |
| LexSpec.NumberSuffix | src/parse/tokenizer.js:355-394 | the `n`/`m` suffix step ends the token inside the input and after the scanned parts; the tokens themselves are stated by `LexFacts.ReadNumberSuffixed` and `LexSpec.NumberSuffixNone` |
| LexSpec.NumberSuffixNone | src/parse/tokenizer.js:379-394 | without a suffix the token is a `num` whose value is that of the scanned parts |
| LexSpec.Finished | src/parse/tokenizer.js:397-402 | finishing a scanned lexeme succeeds exactly when the scan did, and moves `pos` to the lexeme's end with its type and value |
| LexSpec.IndexOf | src/parse/tokenizer.js:406 | `indexOf('*/', from)` is the first occurrence at or after `from`, or -1 when there is none |
| LexSpec.SkipRunFrom | src/parse/tokenizer.js:419-476 | a pass of the skip loop that stops does so inside the input, at a unit that is not skipped |
| LexSpec.SkipSpaceSpec | src/parse/tokenizer.js:419-476 | `skipSpace` stops at a unit it does not skip |
| LexSpec.NextTokenSpec | src/parse/tokenizer.js:99-110 | `nextToken` never moves past the end of the input |
| LexFacts.StructuralTokenAdvancesOne | src/parse/tokenizer.js:124-149 | each of `( ) [ ] , &` is a one-unit token of the type labelled by that character, with an undefined value |
| LexSpec.GetTokenFromCodeSpec | src/parse/tokenizer.js:124-188 | a token read from the code stays inside the input; the position moves exactly when the code is one of `( ) [ ] , &` or a digit, and by one unit for the punctuation |
| LexFacts.OtherCodeChangesNothing | src/parse/tokenizer.js:124-188 | a code that no `case` lists leaves the state unchanged |
| LexFacts.RadixOfPrefixLetters | src/parse/tokenizer.js:150-175 | `0x`/`0X` select radix 16, `0o`/`0O` radix 8, `0b`/`0B` radix 2, and nothing else selects a radix |
| LexFacts.DigitDispatch | src/parse/tokenizer.js:150-186 | a digit starts a radix literal after a `0` with a prefix letter, and a decimal literal otherwise |
| LexFacts.NextTokenAtEnd | src/parse/tokenizer.js:99-107 | at the end of the input `nextToken` finishes an `eof` token |
| LexFacts.EofIsStable | src/parse/tokenizer.js:99-107 | `nextToken` after `eof` gives `eof` again |
| LexFacts.SkipRunOverSkippable | src/parse/tokenizer.js:419-476 | a tail of white space and new lines is skipped to the end |
| LexFacts.NextTokenOverSkippable | src/parse/tokenizer.js:99-110 | after nothing but white space the token is `eof` |
| LexFacts.SkipSpaceStopsAtOnce | src/parse/tokenizer.js:419-476 | `skipSpace` does not move at a unit it does not skip |
| LexFacts.BlockCommentSkipped | src/parse/tokenizer.js:404-408 | a terminated block comment is skipped up to just past its `*/` |
| LexFacts.UnterminatedCommentRestarts | src/parse/tokenizer.js:404-408 | an unterminated block comment sets `pos` to 1, and skipping goes on from there |
| LexFacts.RemoveUnitsKeeps | src/parse/tokenizer.js:213-215 | removing units that do not occur changes nothing |
| LexFacts.RemoveUnitsAppend | src/parse/tokenizer.js:213-215 | removing units works piece by piece on a concatenation |
| LexFacts.ReadRadixNumberFails | src/parse/tokenizer.js:195-206 | a radix literal without digits, or followed by `_` or `m`, is an error |
| LexFacts.ReadRadixNumberValue | src/parse/tokenizer.js:190-221 | a radix literal with digits and no suffix is a `num` token of their positional value, unless an identifier start follows |
| LexFacts.RadixLiteralText | src/parse/tokenizer.js:212-216 | the text of a radix BigInt is its digits with the `n` removed |
| LexFacts.ReadRadixNumberBigInt | src/parse/tokenizer.js:199-216 | a radix literal ending in `n` is a `bigint` token of the literal's text, unless an identifier start follows |
| LexFacts.BigIntFromRead | src/parse/tokenizer.js:199-216 | the `bigint` token's text is the slice with `_` and `n` removed |
| LexFacts.ReadNumberOctal | src/parse/tokenizer.js:311-329 | a literal of two or more digits that starts with `0` and has no 8 or 9 is read in base eight |
| LexFacts.ReadNumberInteger | src/parse/tokenizer.js:300-395 | a plain run of decimal digits is a `num` token of its decimal value |
| LexFacts.ReadNumberFraction | src/parse/tokenizer.js:331-337 | a non-octal integer part (a lone `0`, a part with an 8 or 9 such as `08`, or one without a leading zero), a `.` and a possibly empty run of digits form a `num` token of the integer part plus the fraction, as in `0.5`, `08.5` and `1.` |
| LexFacts.FractionFromReads | src/parse/tokenizer.js:331-394 | the value of a fraction literal is built from its two `readInt` results, the second of which is `null` for an empty fraction |
| LexFacts.ReadNumberExponent | src/parse/tokenizer.js:339-394 | `digits e [+-] digits` after a non-octal integer part (`1e3`, `5E-2`) is a `num` token of the integer part times ten to the exponent, negated after `-`, ending after the exponent's digits |
| LexFacts.ReadNumberFractionExponent | src/parse/tokenizer.js:331-394 | `digits . [digits] e [+-] digits` (`2.5e-1`, `1.e5`) is a `num` token of the decimal value of its three digit runs, ending after the exponent's digits |
| LexFacts.ExponentFromReads | src/parse/tokenizer.js:339-353 | the exponent step, from the `readInt` result of the exponent digits, scales the scanned parts by ten to the signed exponent |
| LexFacts.DecimalScaled | src/parse/tokenizer.js:378-394 | the decimal value of `int.frac e[+-]exp` is `(int + frac / 10^len) * 10^(+-exp)`, with `len` the number of fraction digits |
| LexFacts.ReadNumberSuffixed | src/parse/tokenizer.js:355-394 | decimal digits followed by `n` are a `bigint` token, and followed by `m` a token of undefined type; either way its text is the digits with the suffix removed and it ends after the suffix |
| LexFacts.PointFiveRead | src/parse/tokenizer.js:311-337 | `0.5` reads as the number 0.5: a lone leading `0` is not octal |
| LexFacts.ThousandRead | src/parse/tokenizer.js:339-353 | `1e3` reads as the number 1000 |
| LexFacts.BigIntRead | src/parse/tokenizer.js:355-386 | `5n` reads as the `bigint` token with text `5`, ending after the `n` |
| Lexer.Tokenizer.constructor | src/parse/tokenizer.js:76-80 | a new tokenizer is at position 0 with nothing else set |
| Lexer.Tokenizer.StepIs | src/parse/tokenizer.js:82-84 | one `next()` is `nextToken` from any state |
| Lexer.Tokenizer.Next | src/parse/tokenizer.js:82-84 | `next()` reaches the state one step of the tokenizer gives |
| Lexer.Tokenizer.Eat | src/parse/tokenizer.js:86-93 | `eat(t)` returns whether the current type is `t`, and moves on one token exactly then |
| Lexer.Tokenizer.Match | src/parse/tokenizer.js:95-97 | `match(t)` holds exactly when the current token's type is `t` |
| Lexer.Tokenizer.NextToken | src/parse/tokenizer.js:99-110 | the method reaches `NextTokenSpec`'s state or error |
| Lexer.Tokenizer.GetTokenFromCode | src/parse/tokenizer.js:124-188 | the method reaches `GetTokenFromCodeSpec`'s state or error |
| Lexer.Tokenizer.ReadRadixNumber | src/parse/tokenizer.js:190-221 | the method reaches `ReadRadixNumberSpec`'s token or error |
| Lexer.Tokenizer.ReadInt | src/parse/tokenizer.js:223-298 | the loop's result and end position are `ReadIntSpec`'s, or it throws as that says |
| Lexer.Tokenizer.ReadNumber | src/parse/tokenizer.js:300-330 | the method reaches `ReadNumberSpec`'s token |
| Lexer.Tokenizer.ReadNumberFraction | src/parse/tokenizer.js:331-337 | the fraction step reaches `NumberFraction`'s token |
| Lexer.Tokenizer.ReadNumberExponent | src/parse/tokenizer.js:339-353 | the exponent step reaches `NumberExponent`'s token |
| Lexer.Tokenizer.FinishNumber | src/parse/tokenizer.js:355-394 | the suffix step reaches `NumberSuffix`'s token |
| Lexer.Tokenizer.FinishToken | src/parse/tokenizer.js:397-402 | the new state is `FinishTokenSpec` of the old |
| Lexer.Tokenizer.SkipBlockComment | src/parse/tokenizer.js:404-408 | `pos` becomes the index of the next `*/` plus two, which is 1 when there is none |
| Lexer.Tokenizer.SkipLineComment | src/parse/tokenizer.js:410-417 | a line comment with text after `//` throws a ReferenceError; one at the very end moves `pos` to the end |
| Lexer.Tokenizer.SkipSpace | src/parse/tokenizer.js:419-476 | the loop stops where `SkipSpaceSpec` says, or fails as it says |
| Nodes.Node.constructor | src/parse/node.js:3 | a new node has no property set |
| Nodes.StartNode | src/parse/node.js:6-8 | `startNode` returns a new empty node |
| Nodes.FinishNodeAt | src/parse/node.js:14-19 | `finishNodeAt` sets the node's type and end and nothing else, and returns the node |
| Nodes.FinishNode | src/parse/node.js:10-12 | `finishNode` sets the type, and sets the end to `lastTokEnd`, which is undefined |
| Parsing.ClauseSpec | src/parse/statement.js:30-65 | a clause is inclusive at its lower end exactly when it starts at `[` |
| Parsing.TurnSpec | src/parse/statement.js:22-28 | the loop goes on only after an eaten `&` whose next token is not the end token |
| Parsing.StatementsSpec | src/parse/statement.js:22-28 | the loop reads at least one clause and at most one per turn allowed, after the ones already read |
| Parsing.ParseStatementContent | src/parse/statement.js:30-65 | the new node is a finished `AA` node holding `ClauseSpec`'s clause, and the tokenizer is where that leaves it |
| Parsing.ParseTurn | src/parse/statement.js:22-28 | one turn appends one new clause node to the body and eats the `&` |
| Parsing.ParseStatement | src/parse/statement.js:22-28 | the body gains new nodes that hold the clauses of `StatementsSpec`, in order |
| Parsing.ParseBlockBody | src/parse/statement.js:17-20 | the node's body becomes exactly the new clause nodes |
| Parsing.ParseProgram | src/parse/statement.js:11-15 | the program node is a finished `Program` whose body holds the clauses |
| Parsing.ParseTopLevel | src/parse/statement.js:5-9 | the file node is a finished `File` whose program is the program node |
| Parsing.Parse | src/parse/parser.js:4-11 | `parse` returns a new `File` node whose new `Program` holds the clauses of `ParseSpec` |
| ParseFacts.ClauseRoundTrip | src/parse/statement.js:30-65 | the tokens of a clause written as `[,b)`, `[a]` or `(a,b]` are read back as that clause |
| ParseFacts.StatementsRoundTrip | src/parse/statement.js:22-28 | clauses joined by `&` and ended by `eof` are read back in order, one turn each |
| ParseFacts.ParseRoundTrip | src/parse/parser.js:4-11 | `parse` of the tokens of a list of clauses gives back that list |
| ParseFacts.FirstClauseError | src/parse/parser.js:4-11 | a failure inside the first clause is the failure of `parse` |
| ParseFacts.StuckLoopNeverEnds | src/parse/statement.js:22-28 | when the tokenizer comes back to the same clause after an `&`, the loop never ends |
| ParseFacts.LoopStops | src/parse/statement.js:22-28 | a turn whose clause is not followed by `&` is the last turn |
| ParseFacts.LoopGoesOn | src/parse/statement.js:22-28 | a turn that eats `&` before a token other than `eof` hands the loop on to that token |
| ParseFacts.Turns | src/parse/statement.js:22-28 | from the k-th of a run of clauses each joined to the next by `&`, the loop reads the rest of the run and stops where the last clause ends |
| ParseFacts.Positions | src/parse/statement.js:22-28 | the states spelling the tokens of a list of clauses split into where each clause starts and ends, consecutive clauses joined by `&` and the last one followed by `eof` |
| Parsing.StatementsUnfold | src/parse/statement.js:22-28 | one turn of the loop with fuel left: a failure of the turn is the loop's failure, otherwise the loop stops or goes on from the turn's end |
| Pipeline.StructuralNext | src/parse/tokenizer.js:99-149 | `nextToken` at a punctuation character reads exactly that character |
| Pipeline.DigitNext | src/parse/tokenizer.js:99-110 | `nextToken` at a lone digit reads the number that digit stands for |
| Pipeline.HalfOpenParses | src/parse/parser.js:4-11 | tokenizing and parsing `[1,5)` gives the one clause from 1 inclusive to 5 exclusive |
| JsNumbers.OrderTotal | src/range.js:164 | off `NaN` the comparisons are a total order, and with `NaN` every comparison is false |
| JsNumbers.Trim | src/index.js:169 | `trim()` leaves no white space at either end |
| JsNumbers.StringToNumber | src/range.js:164 | `Number(text)`: white space around the literal is ignored, the empty text is 0, a sign may precede `Infinity` or a decimal literal with an optional exponent, and anything else is `NaN` (its properties are stated by the lemmas after it) |
| JsNumbers.TrimRemovesEnds | src/index.js:169 | `trim()` is a slice of the text with only white space outside it |
| JsNumbers.NatToStringNumber | src/range.js:164 | `Number` of a natural number's decimal text is that number |
| JsNumbers.DecimalNumber | src/range.js:187-195 | `Number("a.b")` is the decimal fraction of the digits |
| JsNumbers.IntegerNumber | src/range.js:187-195 | `Number` of a run of digits is its value |
| JsNumbers.TwoDotsNaN | src/range.js:164 | a number token with two dots is `NaN` |
| JsNumbers.SpaceNumber | src/range.js:164 | `Number` of white space alone is 0 |
| Ranges.MarkOf | src/range.js:7-50 | a one-character token is never a number or white space |
| Ranges.NumberRun | src/range.js:52-71 | the inner loop collects the digits and dots after the first digit and leaves `i` on the last of them |
| Ranges.SpaceRun | src/range.js:73-94 | the inner loop collects the white space and leaves `i` on the last of it |
| Ranges.Parse | src/range.js:1-107 | `parse` returns the token list of the specification `Tokens` |
| Ranges.Tokens | src/range.js:1-107 | the token list `parse` builds has no more tokens than the text has characters |
| Ranges.TokenCount | src/range.js:1-107 | from any index on, each character with the run it starts gives at most one token |
| Ranges.PunctuationInOrder | src/range.js:1-107 | the punctuation tokens are those of the text's `( ) [ ] , &` characters, in order |
| Ranges.TokensWellFormed | src/range.js:52-94 | every number token starts with a digit and holds only digits and dots, and every white-space token only white space |
| Ranges.DropWhitespace | src/range.js:79-81 | without the white-space option the tokens are those with it, minus the white-space tokens |
| Ranges.ValuesSpellInput | src/range.js:1-107 | with white space kept, the token values together spell the text without the characters no rule takes |
| Ranges.Analysis | src/range.js:109-177 | `analysis` returns or throws what the specification `Intervals` gives |
| Ranges.Turn | src/range.js:116-149 | one token changes at most one end of the clause being built; reading a token past the end, which throws a TypeError, happens only within the last two tokens |
| Ranges.Collect | src/range.js:116-161 | the first loop of `analysis`: a closer that is last or followed by `&` appends the clause and starts a new one (its properties are stated by `Ranges.CollectFails`, `Ranges.CollectCount` and `Ranges.ClauseCollect`) |
| Ranges.OrderCheck | src/range.js:163-174 | the order check only ever throws a `Range Error` message, and only for an index inside the list |
| Ranges.Intervals | src/range.js:109-177 | `analysis` throws only the TypeError of a missing token or a `Range Error` |
| Ranges.CollectFails | src/range.js:116-161 | the first loop throws a TypeError exactly when an opener or comma is last, or a comma before a number is the second-to-last token |
| Ranges.CollectCount | src/range.js:150-160 | one interval is collected per closer that is last or followed by `&` |
| Ranges.ClauseCollect | src/range.js:116-161 | a written clause yields its interval, which is kept when an `&` or the end follows |
| Ranges.JoinedCollect | src/range.js:116-161 | clauses joined by `&` yield their intervals in order |
| Ranges.UnseparatedClauses | src/range.js:150-160 | of two clauses with no `&` between them, only the second's interval is kept |
| Ranges.FirstDisorderReported | src/range.js:163-174 | the order check passes exactly when no interval has its lower bound at or above its upper bound; otherwise it throws `Range Error at i for …` for the first such interval |
| Ranges.IntervalsOutcome | src/range.js:109-177 | `analysis` throws the TypeError exactly when a token is missing, throws the range error exactly when an interval is out of order, and every interval it returns is properly ordered unless one of its bounds is `NaN` |
| Ranges.EqualBoundsRejected | src/range.js:163-174 | a clause with equal bounds is rejected with the message that shows it |
| Ranges.NumberTokenValue | src/range.js:164 | `Number` of a number token is its integer, or its decimal fraction, or `NaN` past a second dot |
| Ranges.Reduce | src/range.js:179-203 | the fold is true exactly when the accumulator was, or some interval admits the value |
| Ranges.Check | src/range.js:179-203 | `check` is true exactly when some interval admits the value, each end tested strictly or not as its bracket says |
| Ranges.CheckUnion | src/range.js:179-203 | `check` on two lists joined is the disjunction of the two |
| Ranges.Validation | src/range.js:205-211 | `validate` throws exactly what `analysis` throws, and otherwise says whether some interval admits the value |
| Ranges.Validate | src/range.js:205-211 | the method computes `Validation` |
| Ranges.TokensAppend | src/range.js:1-107 | `parse` of two texts joined at a clean boundary is the concatenation of their tokens |
| Ranges.NumberTextTokens | src/range.js:52-71 | a well-formed number text is one number token |
| Ranges.ClauseTextTokens | src/range.js:1-107 | a clause written as text is parsed to its tokens |
| Ranges.JoinedTextTokens | src/range.js:1-107 | clauses written and joined by `&` are parsed to their joined tokens |
| Ranges.ValidateJoined | src/range.js:205-211 | for clauses written by the model, `validate` throws exactly when one is out of order, and otherwise admits the value exactly when one of them does |
| Ranges.JoinedIntervals | src/range.js:109-177 | `analysis` of written clauses gives their intervals, or the error for the first one out of order |
| Formats.Split | src/index.js:163 | `split` gives at least one piece |
| Formats.ReplaceAll | src/index.js:26-31 | the global replacement of `format` (its properties are stated by `Formats.ReplaceAllIsJoinOfSplit` and the lemmas after it) |
| Formats.ReplaceLength | src/index.js:26-31 | a replacement no longer than the pattern never lengthens the text, and one no shorter never shortens it |
| Formats.ReplaceAllIsJoinOfSplit | src/index.js:26-31 | a global replacement of a text is its split pieces joined by the replacement |
| Formats.ReplaceBySelf | src/index.js:26-31 | replacing a pattern by itself changes nothing |
| Formats.SplitJoinRoundTrip | src/index.js:163 | joining the split pieces with the separator gives the text back |
| Formats.PiecesFree | src/index.js:163 | no piece of a split contains the separator |
| Formats.FirstPieceIsPrefix | src/index.js:163-164 | the first piece, the rule's name, is a prefix of the text |
| Formats.ReplaceAbsent | src/index.js:26-31 | a text without the pattern's first character is unchanged |
| Formats.SplitAbsent | src/index.js:163 | a text without the separator is one piece |
| Formats.SplitAtFirst | src/index.js:163 | the split of `a + sep + b`, with no separator in `a`, is `a` then the split of `b` |
| Formats.ReplaceAtFirst | src/index.js:26-31 | replacing in `a + pat + b` replaces at the first match and goes on after it |
| Formats.Texts | src/index.js:25-32 | each argument is turned into the text a replacement callback returns for it |
| Formats.Placeholder | src/index.js:27 | the pattern `{i}` is braces around the index |
| Formats.Format | src/index.js:3-35 | `format` returns what `Formatting` gives: a curried function for a lone source, the source for `undefined`, a TypeError for `null`, else the source with `{0}`, `{1}`, … replaced in turn |
| Formats.Formatting | src/index.js:3-35 | `format` throws exactly when its first parameter is `null`, and returns the curried function exactly for a lone `source` |
| Formats.ArgumentsArePacked | src/index.js:17-19 | several arguments are treated as one array of them |
| Formats.SingleArgumentIsWrapped | src/index.js:21-23 | a lone argument that is not an array is wrapped in one |
| Formats.NoPlaceholderUnchanged | src/index.js:25-32 | a text without `{` is left as it is by every replacement |
| Formats.FormatWithoutPlaceholder | src/index.js:3-35 | `format` of a source without `{` gives the source |
| Formats.FirstPlaceholderFilled | src/index.js:25-32 | `{0}` is replaced by the first parameter, and the later ones go on replacing in the result |
| Formats.EarlierReplacementRescanned | src/index.js:25-32 | a placeholder brought in by an earlier replacement is filled by a later one |
| Validators.TextLessTotal | src/index.js:82-85 | the string order of `<` is strict and total |
| Validators.TextLessTransitive | src/index.js:82-85 | the string order is transitive |
| Validators.TextLessEqMeans | src/index.js:82-85 | `a <= b` on strings is `a == b` or `a < b` |
| Validators.LengthRules | src/index.js:70-75 | `minlength:n` passes a text longer than n, or at least n long with a truthy third parameter; `maxlength:n` passes one shorter than n, or at most n long |
| Validators.LengthRulesRejectNumbers | src/index.js:70-75 | a number has no `length`, so both length rules fail it |
| Validators.MinLength | src/index.js:70-72 | `minlength` passes only a string, and only against a numeric bound |
| Validators.MaxLength | src/index.js:73-75 | `maxlength` passes only a string, and only against a numeric bound |
| Validators.Min | src/index.js:81-83 | `min` passes nothing against a missing bound, and no `NaN` |
| Validators.MaxAsWritten | src/index.js:84-86 | `max` as written passes nothing against a missing bound, and in its strict branch only a string |
| Validators.Max | src/index.js:84-86 | the corrected `max` passes nothing against a missing bound, and no `NaN` |
| Validators.NumberRules | src/index.js:81-86 | `min:n` passes a number above n, or at least n; the corrected `max:n` (what `addMethod` can install) passes one below n, or at most n |
| Validators.MinMaxComplement | src/index.js:81-86 | off `NaN`, inclusive `min` passes exactly what strict `max` fails |
| Validators.MaxAsWrittenRejectsNumbers | src/index.js:84-86 | `max` as written, strict, fails every number |
| Validators.MaxAsWrittenCounterexample | src/index.js:84-86 | `max:5` as written fails 3, which the corrected rule passes |
| Validators.CheckStrictMaxRejectsNumbers | src/index.js:177-203 | `check` with a strict `max:n` first rule returns its message for every number |
| Validators.CheckMaxAsWritten | src/index.js:177-203 | `check` with `max:5` returns the default message with 5 filled in for the number 3, and passes the text `9` |
| Validators.CheckCorrectedMax | src/index.js:138-141 | after the corrected `max` is installed with `addMethod`, `check` with a first `max` rule passes exactly the values the corrected rule admits |
| Validators.MaxMessage | src/index.js:134 | the default `max` message is the curried template with `{0}` |
| Validators.MaxTemplateFilled | src/index.js:189-190 | that template filled with 5 has 5 in place of `{0}` |
| Validators.RangeRuleOnText | src/index.js:87-89 | `range` on a text tests `Number(text)` against the range expression |
| Validators.RangeLengthOnText | src/index.js:76-80 | `rangelength` on a text tests its length against the range expression, passing iff one of its intervals admits the length |
| Validators.RangeLengthDisordered | src/index.js:76-80 | `rangelength:[5,1]` throws `Range Error at 0 for [5, 1]` for every value |
| Ranges.DisorderedText | src/range.js:163-173 | the text `[5,1]` is rejected at clause 0, shown as `[5, 1]` |
| Validators.EqualToMeans | src/index.js:116-118 | `equalTo` passes exactly a text equal to the first parameter |
| Validators.Apply | src/index.js:183 | `methods[name].apply(...)`: the comparison rules, `equalTo` and the library rules never throw; a value that is not a function throws a TypeError, and so do `range` and `rangelength` without a parameter; `rangelength` with a parameter throws exactly when the range expression does |
| Validators.Registry.constructor | src/index.js:43-136 | the shared tables start as the built-in methods and messages |
| Validators.Registry.AddMethod | src/index.js:138-141 | `addMethod` sets the method, and the message unless that is undefined or null, when the old one is kept |
| Validators.AddedMethodKnown | src/index.js:138-141 | after `addMethod` the name counts as known exactly when the method is truthy; a given message replaces the old one |
| Validators.TrimAll | src/index.js:169 | every parameter is trimmed |
| Validators.RuleStringRoundTrip | src/index.js:163-164 | the rule name and its parameters, joined with `:`, give the rule string back |
| Validators.BareRuleName | src/index.js:163-170 | a rule string without `:` is its own name, with no parameters |
| Validators.RuleWithParams | src/index.js:163-170 | `name:a:b` gives the name and the trimmed parameters `a`, `b` |
| Validators.AddingMeans | src/index.js:143-175 | `addRules` appends the entries of the rules up to the first unknown name, then throws `Not Found [name] in Validator` for it; it passes exactly when every name is known |
| Validators.AddingStep | src/index.js:159-175 | a known rule is appended and the rest go on; an unknown one throws |
| Validators.Specs | src/index.js:143-157 | a lone rule is added as it is; a list is added item by item, a string standing for `{name: string}` |
| Validators.HasPlaceholder | src/index.js:186-191 | `/\$?\{(\d+)\}/` matches exactly when the text has `{digits}` somewhere |
| Validators.NoDollarKept | src/index.js:193 | a text without `$` is unchanged by the rewrite of `${i}` to `{i}` |
| Validators.DropDollarsLength | src/index.js:193 | the rewrite never lengthens the text and only keeps characters of it |
| Validators.FilledNeverFails | src/index.js:187-198 | a message is never a failure: a template is formatted with the parameters, a text with a placeholder is formatted after the rewrite, and any other text is returned as it is |
| Validators.Checked | src/index.js:177-203 | `check` returns undefined exactly when there are no rules, and passes only when the first rule's method returns true |
| Validators.CheckFirstRuleOnly | src/index.js:177-203 | `check` decides on the first rule alone: it fails exactly when that rule's method is missing or fails, and passes exactly when the method returns true |
| Validators.CheckWithoutParams | src/index.js:177-203 | with no rules `check` returns undefined; a template message of a rule without parameters is returned as the curried function |
| Validators.DollarPlaceholderFilled | src/index.js:191-196 | `${0}!` with parameter 5 becomes `5!` |
| Validators.CheckFillsDollarPlaceholder | src/index.js:177-203 | `min:5` with message `${0}!` on 3 returns `5!` |
| Validators.MinLengthMessage | src/index.js:130 | the default `minlength` message is the curried template with `{0}` |
| Validators.MinLengthTemplateFilled | src/index.js:189-190 | that template filled with 5 has 5 in place of `{0}` |
| Validators.DefaultMessageFilled | src/index.js:177-203 | `minlength:5` on `abc` returns the default message with 5 filled in |
| Validators.Validator.constructor | src/index.js:37-39 | a validator starts with the given rules, or none |
| Validators.Validator.AddRule | src/index.js:159-175 | `addRule` appends the rule's entry exactly when its name is a known method, and otherwise throws `Not Found [name] in Validator` and leaves the rules alone |
| Validators.Validator.AddRules | src/index.js:143-157 | the rules gain the entries of `Adding` and the outcome is its outcome |
| Validators.Validator.AddEach | src/index.js:144-153 | the loop over a list adds what `Adding` says, stopping at the first throw |
| Validators.Validator.Check | src/index.js:177-203 | `check` returns what `Checked` gives for the rules and the shared tables |

## Findings

| source | as written | input that shows it | evidently intended | confidence | as-written member | corrected member |
|---|---|---|---|---|---|---|
| src/index.js:84-86 | the strict branch of `max` tests `value.length < param` | the number 3 against `max:5`: a number has no `length`, so `undefined < "5"` is false and the value is rejected | `value < param`, mirroring `min` | high, not executed | Validators.MaxAsWritten, which `check` runs (Validators.MaxAsWrittenCounterexample, Validators.MaxAsWrittenRejectsNumbers, Validators.CheckMaxAsWritten, Validators.CheckStrictMaxRejectsNumbers) | Validators.Max, installed through `addMethod` (Validators.NumberRules, Validators.MinMaxComplement, Validators.CheckCorrectedMax) |

## Left out

- I/O and the environment: nothing in the core does I/O. `isIdentifierStart` comes from `./identifier`, which is not part of this model, so it is a parameter of the tokenizer.
- Numbers are exact rationals. IEEE-754 rounding, overflow to `Infinity`, and `parseFloat` of very long digit strings are not modelled.
- `Number(text)` covers decimal texts, signs, exponents and `Infinity`. The hexadecimal, octal and binary forms of StringToNumber read as `NaN` here.
- Strings are sequences of characters. In `range.js` and `index.js` a character is one Dafny `char`, not a UTF-16 code unit, so the `length` and ordering of characters outside the Basic Multilingual Plane differ. The tokenizer works on UTF-16 code units.
- The tokenizer state after a throw is not modelled: a failing method only reports the error.
- `curLine` and `lineStart`, which `skipSpace` updates and nothing reads, are not modelled.
- `addComment` and the `comments` array of `skipSpace` are unreachable, because both skip methods return undefined, so they are not modelled.
- An unterminated block comment reached a second time after the reset to position 1 makes `skipSpace` loop for ever. The model reports this as the outcome `Hangs`.
- Parsing.StatementsSpec: the `do … while` loop of `parseStatement` need not end, so it takes a bound on the number of turns and fails with `OutOfFuel` past it. `ParseFacts.StuckLoopNeverEnds` shows a loop that no bound lets finish.
- `readInt`'s `len` and `forceLen` parameters are always undefined at the call sites, so they are not modelled. `readNumber`'s `startsWithDot` is always false.
- The `required`, `email`, `url`, `date`, `number`, `digits` and `step` methods depend on regular expressions, `Date` and floating-point arithmetic. The model keeps them as named methods whose answers are a parameter of the registry (`given`).
- Validators.Apply: for a number, `rangelength` keeps the range expression's errors, but whether the length of `String(value)` lies inside the range is the registry's `given` answer, because JavaScript's number-to-text conversion is not modelled. On texts the rule is modelled in full.
- Validators.Value: `check` is modelled on numbers and strings. Arrays, which `[].concat` would spread into several arguments, and other objects are not modelled.
- Custom methods are functions from the value and the parameters to a result. A throwing method is an `Err`.
- A message callback is a function of the parameters that returns a string.
- `format` ignores its `this`, so a rebound curried function is not modelled.
- Names inherited from `Object.prototype`, which `this.methods[name]` would also find, are not modelled. The method table is a plain map.
- A rule object without a `name`, on which `addRule` would throw a TypeError, is not modelled; a rule always has a name.
- The static `Validator.addMethod` (src/index.js:205-209) reads `this.messages` on the constructor, which is undefined, so it throws when no message is given. Only the prototype method is modelled.
- `lib/index.js` is a built copy of the sources and is not modelled.
- Validators.Validator.Check: it is written as an `if` rather than a loop, because the source's loop returns during its first turn.
- TokenTypes.Keywords.CreateKeyword: token types are values, not objects, so two types created with the same label are equal; the object identity that `match` compares is not modelled.
- Pipeline.HalfOpenParses: the tokenizer and the parser are connected on the text `[1,5)` only. `ParseFacts.ParseRoundTrip` starts from the tokens of a clause list, and no lemma connects an arbitrary clause text to those tokens.
- `readNumber`'s commented-out `raise` calls (a missing exponent, an invalid `bigint` or `decimal`, an identifier after the number) do nothing in the source, so the model does not raise there either.
