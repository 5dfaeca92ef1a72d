# Pascal-S front end with Indonesian keywords, modelled in Dafny

This project models the core of a front end for a Pascal-S dialect whose keywords are
Indonesian (`mulai`/`selesai`, `jika`/`maka`/`selain-itu`, `turun-ke`, ...). It covers
five parts:

- **Lexer.** A source position and a character reader. A table-driven DFA with named
  character classes, and the validation of its configuration. The maximal-munch
  tokenizer and its three rewrite passes: negative numbers, character literals and
  hyphenated keywords.
- **Syntax tree.** The tree the parser builds, and its `to_dict` serialisation, each
  paired with a decoder and a round trip.
- **Semantic analysis.** The type model. The Wirth-style symbol table (`tab`, `atab`,
  `btab`, `display`). The semantic visitor that enters declarations and checks types.
- **Error context.** How an error is located in the source, and how the window of
  source lines around it is laid out.

One Dafny module stands for each source file:

| module | file | form |
|---|---|---|
| `Positions` | `position.dfy` | datatype and pure functions |
| `Readers` | `reader.dfy` | class `Reader` |
| `Automata` | `automaton.dfy` | class `Automaton` |
| `Dfa` | `dfa.dfy` | class `DFA` over a transition table |
| `Validator` | `validator.dfy` | methods with worklist loops |
| `Lexing` | `lexer.dfy` | class `Lexer`, proved against the function `Lex` |
| `NegativeNumbers` | `negative_number.dfy` | loop method, proved against a function |
| `CharLiterals` | `char_literal.dfy` | loop method, proved against a function |
| `HyphenatedKeywords` | `hyphenated_keywords.dfy` | loop method, proved against a function |
| `Tokens` | `tokens.dfy` | token kinds and tokens |
| `Ast` | `ast.dfy` | the tree as datatypes |
| `JsonValues` | `json.dfy` | what `to_dict` produces |
| `ExpressionJson` | `expression_json.dfy` | serialisers and decoders |
| `StatementJson` | `statement_json.dfy` | serialisers and decoders |
| `DeclarationJson` | `declaration_json.dfy` | serialisers and decoders |
| `Types` | `types.dfy` | the type model |
| `SymbolTables` | `symbol_table.dfy` | class `SymbolTable`, with its lookup as functions over the tables |
| `Typing` | `typing.dfy` | the typing rules of the visitor as functions |
| `Semantic` | `visitor.dfy` | class `SemanticVisitor`, proved against `Analysis` |
| `Analysis` | `analysis.dfy` | what the visitor computes, as functions |
| `ErrorContext` | `error_context.dfy` | locating an error and `format_error_context` |
| `SourceLines` | `source_lines.dfy` | `index_to_line_col`, `line_bounds`, `splitlines` |
| `ContextWindow` | `context_window.dfy` | how the context window is laid out |

`Errors`, `Strings` and `Wrappers` hold the error values and a few helpers:
- decimal rendering of integers;
- ASCII lower-casing;
- padding;
- `Option`, `Result` and `Outcome`.

Where the code raises an exception, the model returns an error value
(`Result.Err`, `Outcome.Fail`).

A configuration file is loaded as JSON, and a regular expression is compiled for each
character class. The model takes the configuration as a value instead. Each character
class is a predicate on characters.

## Model

| member | source | states |
|---|---|---|
| `Positions.AdvanceMoves` | src/io/position.py:10-13 | advancing moves the index by one; a newline starts the next line at column 1, anything else moves one column right |
| `Positions.Copy` | src/io/position.py:15-16 | the copy has the same index, line and column |
| `Positions.ToString` | src/io/position.py:18-19 | the rendering has the form `(line …)` |
| `Positions.ToStringInjective` | src/io/position.py:18-19 | two positions that render alike have the same line and column |
| `Positions.AdvanceOverStart` | src/io/position.py:10-13 | after advancing from the start over a text, the index is its length, the line is one plus its newlines, and the column counts the characters after the last newline |
| `Positions.PositionAtNext` | src/io/position.py:10-13 | the position at offset i+1 is the position at i advanced over character i |
| `Readers.Reader.constructor` | src/text/reader.py:10-13 | a new reader is at index 0, line 1, column 1, and its current character is the first one, or none for an empty text |
| `Readers.Reader.Advance` | src/text/reader.py:20-28 | at the end nothing changes; otherwise the position advances over the current character and the current character becomes the next one, or none past the end |
| `Readers.Reader.Peek` | src/text/reader.py:30-35 | the character k places ahead, or none outside the text; peeking 0 ahead gives the current character |
| `Readers.Reader.Expect` | src/text/reader.py:37-41 | fails exactly when the current character is not the expected one, with a lexical error that names both and the position |
| `Readers.Reader.Eof` | src/text/reader.py:43-44 | the reader is at the end exactly when its index is the text's length |
| `Automata.Automaton.constructor` | src/automaton/abstract.py:14-16 | no start state and no final states |
| `Automata.Automaton.SetStart` | src/automaton/abstract.py:19-20 | the start state becomes the given one and the final states are unchanged |
| `Automata.Automaton.AddFinal` | src/automaton/abstract.py:22-23 | the state becomes final and no other state changes finality |
| `Automata.Automaton.FinalStates` | src/automaton/abstract.py:32-34 | the final states are exactly the states that are final |
| `Dfa.TableOfWellFormed` | src/automaton/dfa/dfa.py:36-39 | the transition dictionary's keys are exactly the (state, symbol) pairs of the configured transitions, each listed once in the key order |
| `Dfa.LaterDuplicateWins` | src/automaton/dfa/dfa.py:36-39 | when a (state, symbol) pair occurs more than once, the last occurrence gives the target |
| `Dfa.OrderIsFirstOccurrence` | src/automaton/dfa/dfa.py:36-39 | the dictionary iterates its keys in the order of their first occurrence in the configuration |
| `Dfa.ClassMatchFromFirst` | src/automaton/dfa/dfa.py:51-55 | the character-class fallback takes the first applicable transition in key order |
| `Dfa.ClassMatchFromSome` | src/automaton/dfa/dfa.py:51-57 | the fallback succeeds exactly when some character-class transition from the current state matches the character |
| `Dfa.DFA.constructor` | src/automaton/dfa/dfa.py:21-39 | the start state is the configured one, the final states are the configured ones, and the current state is the start state |
| `Dfa.DFA.Reset` | src/automaton/dfa/dfa.py:41-43 | the current state goes back to the start state |
| `Dfa.DFA.Step` | src/automaton/dfa/dfa.py:45-57 | takes the exact literal transition if there is one, else the first matching class transition; otherwise it stays put and returns none |
| `Dfa.DFA.CanTransition` | src/automaton/dfa/dfa.py:62-72 | true exactly when `Step` on the same character would succeed |
| `Dfa.DFA.GetTokenType` | src/automaton/dfa/dfa.py:59-60 | the token kind configured for the current state, present exactly when that state is final |
| `Validator.InferStates` | src/automaton/dfa/validator.py:147-158 | the inferred states are the start state, the final states and both ends of every transition, and nothing else |
| `Validator.InferredStatesCoverConfig` | src/automaton/dfa/validator.py:78-85 | every state the configuration names is an inferred state, so the existence checks never raise |
| `Validator.ForwardGraph` | src/automaton/dfa/validator.py:169-171 | the successor sets hold exactly the transition edges |
| `Validator.ReverseGraph` | src/automaton/dfa/validator.py:195-197 | the predecessor sets hold exactly the reversed transition edges |
| `Validator.Explore` | src/automaton/dfa/validator.py:173-182 | the depth-first search finds every root, is closed under successors, and finds only states reachable from a root |
| `Validator.ReachableStates` | src/automaton/dfa/validator.py:161-183 | the result holds the start state, is closed under transitions, and holds only states reachable from the start |
| `Validator.DeadStates` | src/automaton/dfa/validator.py:186-211 | a state is dead exactly when it is one of the states and no final state can be reached from it; no final state is dead |
| `Validator.Warnings` | src/automaton/dfa/validator.py:109-128 | one warning per literal symbol whose length is not one, plus warnings for unreachable and for dead states exactly when there are any; literal warnings come first by transition index, then the unreachable states, then the dead ones |
| `Validator.Analyse` | src/automaton/dfa/validator.py:71-144 | the report holds the inferred, reachable, unreachable and dead states, and the warnings above |
| `Validator.ValidateDfaConfig` | src/automaton/dfa/validator.py:32-144 | the critical errors come in the source's order (empty start, no finals, no transitions, the first bad transition, an empty class name); it succeeds exactly when none applies, and then reports as `Analyse` does |
| `Lexing.DeltaIsNext` | src/automaton/dfa/dfa.py:45-57 | the lexer's transition function is the DFA's `step` on the configured table |
| `Lexing.Probe` | src/lexer/lexer.py:46-52 | the inner loop stops within the text, and the last accepting point it records ends in a final state after the start |
| `Lexing.ProbeSound` | src/lexer/lexer.py:46-52 | the recorded point is the last point before the stop where the DFA run is in a final state |
| `Lexing.StuckStaysStuck` | src/lexer/lexer.py:46 | once the DFA cannot move, no longer input from the same start is run through |
| `Lexing.LongestAccepted` | src/lexer/lexer.py:46-54 | maximal munch: the accepted lexeme is the longest prefix from the current offset that drives the DFA into a final state, and none is accepted only when no prefix is |
| `Lexing.ProbeStops` | src/lexer/lexer.py:46 | probing stops at the end of the text or where the DFA has no move |
| `Lexing.LexWellPlaced` | src/lexer/lexer.py:36-90 | every token's text is the source text between its start and end, and tokens come in order without overlapping |
| `Lexing.LexFromMaximal` | src/lexer/lexer.py:54-76 | when something is accepted, the first token is the longest accepted lexeme, classified, and the rest are the tokens from right after it |
| `Lexing.UnknownAtStop` | src/lexer/lexer.py:78-88 | when nothing is accepted, the UNKNOWN token is the character where probing stopped, and the rest are the tokens from right after that character |
| `Lexing.KeywordCaseInsensitive` | src/lexer/lexer.py:60-61 | two identifiers that lower-case to the same keyword are both keywords |
| `Lexing.ClassifyCases` | src/lexer/lexer.py:59-63 | only identifiers are reclassified; a keyword match wins over the reserved map, and the reserved map is consulted with the exact spelling |
| `Lexing.Lexer.constructor` | src/lexer/lexer.py:10-15 | the lexer owns a fresh DFA built from its configuration |
| `Lexing.Lexer.Tokenize` | src/lexer/lexer.py:36-90 | the tokens are exactly those `Lex` defines for the source |
| `Lexing.Lexer.NextToken` | src/lexer/lexer.py:39-88 | one round of the outer loop: the token it appends and the offset where the next round starts |
| `Lexing.Lexer.Scan` | src/lexer/lexer.py:46-52 | the inner loop ends where `Probe` stops, with the last accepted state and lexeme `Probe` records |
| `Lexing.Lexer.Feed` | src/lexer/lexer.py:47-52 | one character moves the reader one place and keeps the scan's loop state |
| `Lexing.Lexer.Reclassify` | src/lexer/lexer.py:59-63 | the kind `Classify` gives |
| `Lexing.ReaderAt` | src/lexer/lexer.py:73-76 | the rewind gives a fresh reader over the source at the given offset |
| `Lexing.LexFromRound` | src/lexer/lexer.py:39-88 | the tokens from an offset are the round's token, followed by the tokens from where the round ends |
| `Lexing.LexDropsProbedText` | src/lexer/lexer.py:78-88 | see Findings: the text of an unaccepted probe is dropped |
| `Lexing.CorrectedHead` | src/lexer/lexer.py:54-88 | see Findings: every corrected token spans the text between its bounds |
| `Lexing.LexCorrectedRoundTrip` | src/lexer/lexer.py:36-90 | see Findings: the corrected tokens' texts concatenate back to the source, and the tokens tile it |
| `Lexing.CorrectionKeepsAcceptedTokens` | src/lexer/lexer.py:54-76 | see Findings: where a lexeme is accepted, the correction gives the same token |
| `NegativeNumbers.NextMeaningful` | src/lexer/negative_number.py:21-24 | the look-ahead skips whitespace and comments, up to the first other token or the end |
| `NegativeNumbers.LastMeaningfulBelow` | src/lexer/negative_number.py:30-32 | the look-back finds the last result token that is not whitespace or a comment, or -1 |
| `NegativeNumbers.MergeNegativeNumbers` | src/lexer/negative_number.py:5-77 | the result is `MergeNegatives` of the tokens |
| `NegativeNumbers.LookAhead` | src/lexer/negative_number.py:22-24 | the loop's index is `NextMeaningful` |
| `NegativeNumbers.IsUnary` | src/lexer/negative_number.py:30-58 | a minus is unary at the start, after an operator, bracket, comma, colon or range, or after one of the keywords then/else/do/of/to/downto |
| `NegativeNumbers.Copy` | src/lexer/negative_number.py:73-75 | a token that does not merge is copied unchanged |
| `NegativeNumbers.MergeNegativesShorter` | src/lexer/negative_number.py:60-71 | merging never lengthens the token list |
| `NegativeNumbers.MergeNegativesKeepsText` | src/lexer/negative_number.py:60-71 | apart from whitespace and comments, the text of the tokens is unchanged |
| `NegativeNumbers.MergeNegativesOrigin` | src/lexer/negative_number.py:60-75 | every output token is an input token, or a NUMBER `-n` spanning from a minus to the number after it |
| `NegativeNumbers.MergeNegativesWithoutMinus` | src/lexer/negative_number.py:17-19 | without a minus operator the tokens come out unchanged |
| `NegativeNumbers.MinusMerged` | src/lexer/negative_number.py:60-71 | a minus in sign position whose next meaningful token is a NUMBER becomes the NUMBER `-n` from the minus to the number; the whitespace and comments between are dropped and the scan resumes after the number |
| `NegativeNumbers.MinusAfterOperandCopied` | src/lexer/negative_number.py:30-58 | a minus after an identifier, a number or a closing bracket is subtraction: it is copied and the scan goes on with the next token |
| `NegativeNumbers.MergeFromCopies` | src/lexer/negative_number.py:73-75 | tokens other than a minus are copied one by one |
| `NegativeNumbers.AssignNegativeLiteral` | src/lexer/negative_number.py:60-71 | `x := -5` gives the NUMBER `-5` spanning the minus and the digit |
| `NegativeNumbers.SubtractionUnchanged` | src/lexer/negative_number.py:30-58 | `x - 5` comes out unchanged |
| `CharLiterals.FixChar` | src/lexer/char_literal.py:10-24 | a STRING_LITERAL whose text has three characters becomes a CHAR_LITERAL with the same text and bounds; nothing else changes |
| `CharLiterals.FixAll` | src/lexer/char_literal.py:5-26 | each token is fixed in place |
| `CharLiterals.FixCharLiterals` | src/lexer/char_literal.py:5-26 | the result is `FixAll` of the tokens |
| `CharLiterals.FixAllIdempotent` | src/lexer/char_literal.py:5-26 | fixing twice is fixing once |
| `CharLiterals.FixAllKeepsTexts` | src/lexer/char_literal.py:5-26 | the texts are unchanged |
| `HyphenatedKeywords.MergeHyphenatedKeywords` | src/lexer/hyphenated_keywords.py:10-55 | the result is `Hyphenate` of the tokens |
| `HyphenatedKeywords.HyphenateAt` | src/lexer/hyphenated_keywords.py:25-53 | at each place, a word, a `-` and a word that spell a hyphenated keyword (in any case) merge into one KEYWORD; otherwise the token is copied |
| `HyphenatedKeywords.HyphenateShorter` | src/lexer/hyphenated_keywords.py:10-55 | merging never lengthens the token list |
| `HyphenatedKeywords.HyphenateKeepsTexts` | src/lexer/hyphenated_keywords.py:37-49 | the concatenated texts are unchanged |
| `HyphenatedKeywords.HyphenateKeepsTiles` | src/lexer/hyphenated_keywords.py:44-49 | tokens that tile a stretch of source still tile it after merging |
| `HyphenatedKeywords.HyphenateOrigin` | src/lexer/hyphenated_keywords.py:37-55 | every output token is an input token, or a KEYWORD joined from three consecutive input tokens |
| `HyphenatedKeywords.JoinedIsHyphenated` | src/lexer/hyphenated_keywords.py:4-7 | a merged token is a KEYWORD whose lower-cased text is `turun-ke` or `selain-itu` |
| `HyphenatedKeywords.HyphenateWithoutMinus` | src/lexer/hyphenated_keywords.py:31-37 | without a minus operator the tokens come out unchanged |
| `Tokens.TextsAppend` | src/syntax/token.py:29-34 | the text of two token lists together is the two texts concatenated |
| `Tokens.ConsTiles` | src/syntax/token.py:29-34 | a token ending where a tiling starts extends the tiling |
| `Ast.OnlyParenthesizedLacksHandler` | src/parse_tree/expression.py:190-191 | every node's `accept` names a handler the analyzer defines, except the parenthesized expression |
| `JsonValues.StringsRoundTrip` | src/parse_tree/declaration.py:26-33 | a list of identifiers decodes back from its JSON array |
| `ExpressionJson.LiteralsRoundTrip` | src/parse_tree/statement.py:182-195 | case constants decode back from their JSON |
| `ExpressionJson.ExpressionRoundTrip` | src/parse_tree/expression.py:33-221 | every expression's `to_dict` decodes back to the expression; a Variable with an empty field comes back without one, because `to_dict` omits a falsy field |
| `ExpressionJson.ExpressionsRoundTrip` | src/parse_tree/expression.py:215-221 | argument lists decode back |
| `StatementJson.StatementRoundTrip` | src/parse_tree/statement.py:33-230 | every statement's `to_dict` decodes back to the statement, up to the same empty-field normalisation inside expressions |
| `StatementJson.StatementsRoundTrip` | src/parse_tree/statement.py:33-39 | statement lists decode back |
| `StatementJson.CaseArmsRoundTrip` | src/parse_tree/statement.py:182-195 | the arms of a case statement decode back |
| `DeclarationJson.TypeSpecRoundTrip` | src/parse_tree/declaration.py:181-248 | every type specification's `to_dict` decodes back, range bounds included |
| `DeclarationJson.IndexRoundTrip` | src/parse_tree/declaration.py:205-228 | an array's index (a range or a type) decodes back |
| `DeclarationJson.VarDeclarationsRoundTrip` | src/parse_tree/declaration.py:26-33 | variable declarations and record fields decode back |
| `DeclarationJson.ParametersRoundTrip` | src/parse_tree/declaration.py:147-154 | parameter lists decode back |
| `DeclarationJson.DeclarationRoundTrip` | src/parse_tree/declaration.py:26-131 | every declaration, routines with their blocks included, decodes back |
| `DeclarationJson.BlockRoundTrip` | src/parse_tree/program.py:50-56 | a block decodes back |
| `DeclarationJson.ProgramRoundTrip` | src/parse_tree/program.py:27-34 | a program's `to_dict` decodes back to the program |
| `Types.Simple` | src/semantic/types.py:33-37 | a new type has the kind and no array or record part |
| `Types.SimpleAcceptsSameKind` | src/semantic/types.py:54-57 | a simple type accepts any type of its kind |
| `Types.RealWidensInteger` | src/semantic/types.py:61-62 | real accepts integer, and integer does not accept real |
| `Types.RecordAcceptsNothing` | src/semantic/types.py:54-64 | a record type that is not an array is compatible with another type only through the real-integer widening; its fields are never compared |
| `Types.ArraysByElement` | src/semantic/types.py:58-59 | two arrays of a kind are compatible exactly when their element types are |
| `Types.CompatibleKinds` | src/semantic/types.py:54-64 | compatible types have the same kind, or are real and integer |
| `Types.MutuallyCompatibleAreSame` | src/semantic/types.py:54-69 | types compatible both ways are equal under `==`, which compares kinds |
| `Types.CompatibleReflexive` | src/semantic/types.py:54-64 | a type is compatible with itself exactly when its innermost element type is simple |
| `Types.CompatibleTransitive` | src/semantic/types.py:54-64 | compatibility is transitive |
| `Types.SameIgnoresStructure` | src/semantic/types.py:66-69 | integer and a record are equal under `==`, since both have kind integer; integer accepts the record, but the record does not accept integer |
| `Types.ReprDistinguishesKinds` | src/semantic/types.py:71-76 | simple types that print alike have the same kind |
| `Types.ReprLayers` | src/semantic/types.py:71-76 | an array prints as one `array of ` per array layer, then its innermost type |
| `SymbolTables.Chain` | src/semantic/symbol_table.py:124-127 | a link chain visits strictly decreasing positive indices, starting at or below its start |
| `SymbolTables.ChainFind` | src/semantic/symbol_table.py:124-127 | finds the first entry on the chain with the name, or none when none has it |
| `SymbolTables.GlobalFind` | src/semantic/symbol_table.py:129-131 | the fallback finds the newest level-0 entry with the name, or none |
| `SymbolTables.Resolve` | src/semantic/symbol_table.py:119-132 | a found entry has the name; none is found only when no level-0 entry has it |
| `SymbolTables.ResolveFindsChained` | src/semantic/symbol_table.py:119-128 | a name on the chain of any open scope is found |
| `SymbolTables.AppendKeepsLinks` | src/semantic/symbol_table.py:70-85 | with the link rule, every link points back, and a variable links only to a variable |
| `SymbolTables.ChainAfterAppend` | src/semantic/symbol_table.py:61-98 | the new entry heads its block's chain, followed by the chain its link starts |
| `SymbolTables.NewestIsResolved` | src/semantic/symbol_table.py:85 | the newest entry of the current block is what lookup finds for its name |
| `SymbolTables.KeptKeepsOuterChains` | src/semantic/symbol_table.py:145-155 | work inside an inner scope leaves the chains of the outer scopes alone |
| `SymbolTables.ScopeRoundKept` | src/semantic/symbol_table.py:145-155 | entering and leaving a scope leaves the enclosing scopes as they were, apart from new entries |
| `SymbolTables.CorrectedLinkKeepsChain` | src/semantic/symbol_table.py:80-81 | see Findings: linking every entry to its block's last entry keeps the whole chain |
| `SymbolTables.ConstantLostBehindVariable` | src/semantic/symbol_table.py:70-71 | see Findings: a constant declared before a variable in a procedure is not found |
| `SymbolTables.SymbolTable.Snapshot` | src/semantic/symbol_table.py:49-59 | the tables lookup reads |
| `SymbolTables.SymbolTable.constructor` | src/semantic/symbol_table.py:50-59 | empty tables, one empty block, level 0, `dx` 0, and a display of ten zeros |
| `SymbolTables.SymbolTable.Enter` | src/semantic/symbol_table.py:61-98 | appends the entry with the level, address and link the source computes, makes it its block's last entry, bumps `dx` and the block's variable size for a variable, and returns its index; lookup at that level then finds it |
| `SymbolTables.SymbolTable.EnterArray` | src/semantic/symbol_table.py:100-111 | appends the array entry, its size being the element count times the element size, and returns its index |
| `SymbolTables.SymbolTable.EnterBlock` | src/semantic/symbol_table.py:113-117 | appends an empty block and returns its index |
| `SymbolTables.SymbolTable.Lookup` | src/semantic/symbol_table.py:119-132 | the result is `Resolve` on the current tables |
| `SymbolTables.SymbolTable.LookupCurrentScope` | src/semantic/symbol_table.py:134-143 | the first entry with the name on the current block's chain |
| `SymbolTables.SymbolTable.WalkChain` | src/semantic/symbol_table.py:124-127 | the loop finds what `ChainFind` finds |
| `SymbolTables.SymbolTable.EnterScope` | src/semantic/symbol_table.py:145-149 | raises the level, opens a new block in the display and sets `dx` to 3; fails with a display overflow when the level would reach 10 |
| `SymbolTables.SymbolTable.ExitScope` | src/semantic/symbol_table.py:151-155 | at level 0 nothing changes; otherwise the level drops by one and `dx` becomes the variable size of the enclosing block |
| `SymbolTables.SymbolTable.GetEntry` | src/semantic/symbol_table.py:157-160 | the entry at the index, present exactly when the index is in range |
| `SymbolTables.SymbolTable.GetArrayEntry` | src/semantic/symbol_table.py:162-165 | the array entry at the index, present exactly when the index is in range |
| `SymbolTables.SymbolTable.GetBlockEntry` | src/semantic/symbol_table.py:167-170 | the block at the index, present exactly when the index is in range |
| `Typing.InferConstType` | src/semantic/visitor.py:466-477 | a boolean, integer or real value has that type; a one-character string is a char and any other string is a string |
| `Typing.ArrayOf` | src/semantic/visitor.py:209-228 | an array type has kind integer, the given index and element types, and size (high - low + 1) times the element size |
| `Typing.NestedArraySize` | src/semantic/visitor.py:479-484 | the sizes of nested arrays multiply |
| `Typing.BoundsByValue` | src/semantic/visitor.py:486-491 | an integer bound has its value whether raw or wrapped in a node; a bound without an integer value counts as 0 |
| `Typing.BinaryOpType` | src/semantic/visitor.py:340-377 | a typed binary operation is simple, its operator is known, and it is boolean exactly for logical and relational operators |
| `Typing.ArithmeticTyping` | src/semantic/visitor.py:347-354 | `+ - * /` type exactly for numeric operands, and give real exactly when an operand is real |
| `Typing.IntegerOperatorTyping` | src/semantic/visitor.py:356-360 | `div mod bagi` type exactly for integer operands, and give integer |
| `Typing.LogicalTyping` | src/semantic/visitor.py:362-366 | `and or dan atau` type exactly for boolean operands, and give boolean |
| `Typing.ComparisonTyping` | src/semantic/visitor.py:368-372 | a comparison types exactly when the right operand is acceptable where the left is expected, and gives boolean |
| `Typing.ComparisonIsDirectional` | src/semantic/visitor.py:368-372 | real < integer types, integer < real is a mismatch |
| `Typing.ArithmeticAcceptsArrays` | src/semantic/visitor.py:347-354 | arrays have kind integer, so arithmetic on them types |
| `Typing.UnknownOperatorRejected` | src/semantic/visitor.py:373-374 | any other operator is an unknown operation |
| `Typing.UnaryOpType` | src/semantic/visitor.py:379-392 | `+`/`-` keep a numeric operand's type; `not` needs and gives boolean; nothing else types |
| `Typing.OnlyNotNegates` | src/semantic/visitor.py:387-392 | the keyword `tidak` is an unknown unary operator, only `not` negates |
| `Typing.ExpressionType` | src/semantic/visitor.py:340-456 | operators and literals give simple types |
| `Typing.VariableType` | src/semantic/visitor.py:406-425 | an index needs an array and gives its element type; a field needs a record holding it and gives its type; otherwise the declared type |
| `Typing.TypedHasNoParens` | src/parse_tree/expression.py:190-191 | no expression containing a parenthesized one types, since the analyzer has no handler for it |
| `Typing.PassedArgumentsType` | src/semantic/visitor.py:453-454 | arguments that pass each type |
| `Typing.TypedArgumentsPass` | src/semantic/visitor.py:453-454 | arguments that each type pass |
| `Typing.FieldsMapKeys` | src/semantic/visitor.py:238-242 | the record's dictionary holds exactly the field names |
| `Typing.FieldsLaidOut` | src/semantic/visitor.py:238-242 | with distinct names, each field is in the dictionary with its own type, at the summed size of the fields before it |
| `Typing.RecordOf` | src/semantic/visitor.py:244-247 | a record type has kind integer and a record part, no array part |
| `Typing.TypeSpecType` | src/semantic/visitor.py:194-247 | array specifications give arrays and record specifications give records, both of kind integer |
| `Typing.SimpleTypeType` | src/semantic/visitor.py:181-192 | the type map by lower-cased name first, else a TYPE entry lookup finds; else an undeclared identifier |
| `Typing.RecordPairs` | src/semantic/visitor.py:234-242 | the fields so far are kept, and new ones are added after them |
| `Typing.AddNames` | src/semantic/visitor.py:238-242 | each name is added with the field type, or the first name already present is a duplicate declaration |
| `Typing.AddNamesDistinct` | src/semantic/visitor.py:239-240 | names added to a record stay distinct |
| `Typing.RecordPairsDistinct` | src/semantic/visitor.py:234-242 | a record that types has distinct field names |
| `Typing.RecordLayout` | src/semantic/visitor.py:230-247 | a record that types holds each field with its type at the summed size of the fields before it, and its size is the sum of all |
| `Typing.AssignmentCheck` | src/semantic/visitor.py:254-262 | an assignment passes exactly when both sides type and the value is acceptable where the target is expected |
| `Typing.ConditionCheck` | src/semantic/visitor.py:264-267 | a condition passes exactly when it types with kind boolean |
| `Typing.ForBoundsCheck` | src/semantic/visitor.py:284-292 | the bounds of `for` pass exactly when both type and both are ordinal |
| `Typing.CallCheck` | src/semantic/visitor.py:323-335 | a passing call names a procedure; an unknown name is an undeclared identifier |
| `Typing.CallPasses` | src/semantic/visitor.py:323-335 | a call passes exactly when the name is a procedure and every argument types |
| `Typing.ProcedureOrFunction` | src/semantic/visitor.py:323-335 | no name both passes as a procedure call and types as a function call |
| `Semantic.SemanticVisitor.constructor` | src/semantic/visitor.py:28-38 | the builtin type map, no current function, and the table holding every reserved word and builtin routine at level 0, each one found by lookup |
| `Semantic.SemanticVisitor.EnterBuiltins` | src/semantic/visitor.py:553-559 | each builtin is appended with its name, kind and type, in order |
| `Semantic.SemanticVisitor.EnterHere` | src/semantic/symbol_table.py:61-98 | an entry at the current level heads its block's chain and is found in the current scope; names already there stay found; the new state is `EnterCurrent` of the old |
| `Semantic.SemanticVisitor.VisitProgram` | src/semantic/visitor.py:40-49 | the program name is entered as a level-0 PROGRAM before the block; outcome and new state are those `ProgramStep` gives |
| `Semantic.SemanticVisitor.VisitBlock` | src/semantic/visitor.py:51-55 | outcome and new state are those `BlockStep` gives; a block that passes keeps the enclosing scopes and the current function type |
| `Semantic.SemanticVisitor.VisitDeclaration` | src/semantic/visitor.py:57-163 | outcome and new state are those `DeclarationStep` gives for each kind of declaration; one that passes keeps the enclosing scopes |
| `Semantic.SemanticVisitor.VisitVarDeclaration` | src/semantic/visitor.py:57-74 | the type is visited first; then each identifier is entered as a VARIABLE of that type, or the first one already in the scope is a duplicate; outcome and new state are those `VariableDeclarationStep` gives |
| `Semantic.SemanticVisitor.EnterVariables` | src/semantic/visitor.py:60-68 | every identifier is entered in order, each found in the current scope, or a duplicate is reported; outcome and new state are those `VariablesStep` gives |
| `Semantic.SemanticVisitor.VisitConstDeclaration` | src/semantic/visitor.py:76-87 | a duplicate in the current scope fails and changes nothing; else the constant is entered with its inferred type, as `DeclarationStep` gives |
| `Semantic.SemanticVisitor.VisitTypeDeclaration` | src/semantic/visitor.py:89-102 | a duplicate fails and changes nothing; else the type is visited, put in the type map under the lower-cased name, and entered as a TYPE, as `DeclarationStep` gives |
| `Semantic.SemanticVisitor.VisitProcedureDeclaration` | src/semantic/visitor.py:104-129 | a duplicate fails and changes nothing; else the procedure is declared in the enclosing scope, its scope is opened and closed again, and the level is restored; outcome and new state are those `DeclarationStep` gives |
| `Semantic.SemanticVisitor.VisitFunctionDeclaration` | src/semantic/visitor.py:131-163 | as for a procedure, with the return type visited first; the function type is current only while the body is visited; outcome and new state are those `DeclarationStep` gives |
| `Semantic.SemanticVisitor.VisitRoutine` | src/semantic/visitor.py:108-127 | the scope is opened (or a display overflow reported), the routine is entered one level out with its block as `ref`, and the scope is closed; outcome and new state are those `RoutineStep` gives |
| `Semantic.SemanticVisitor.OpenRoutine` | src/semantic/visitor.py:108-121 | opens the scope and enters the routine at the enclosing level, the state `EnterIn` of `OpenScope` gives; on overflow nothing changes |
| `Semantic.SemanticVisitor.VisitRoutineBody` | src/semantic/visitor.py:123-126 | the parameters and the block keep the enclosing scopes; outcome and new state are those `RoutineBodyStep` gives |
| `Semantic.SemanticVisitor.VisitParameters` | src/semantic/visitor.py:123-124 | parameters that pass keep the enclosing scopes; outcome and new state are those `ParametersStep` gives |
| `Semantic.SemanticVisitor.VisitParameter` | src/semantic/visitor.py:165-179 | the parameter type is visited, then each identifier is entered as a VARIABLE, or a duplicate is reported; outcome and new state are those `VariableDeclarationStep` gives |
| `Semantic.SemanticVisitor.VisitTypeSpec` | src/semantic/visitor.py:181-247 | the type `TypeSpecType` gives; only array entries are added, and `dx` is kept |
| `Semantic.SemanticVisitor.VisitSimpleType` | src/semantic/visitor.py:181-192 | the type `SimpleTypeType` gives |
| `Semantic.SemanticVisitor.VisitArrayType` | src/semantic/visitor.py:194-228 | the type `TypeSpecType` gives, with one array entry added |
| `Semantic.SemanticVisitor.VisitRecordType` | src/semantic/visitor.py:230-247 | the type `TypeSpecType` gives |
| `Semantic.SemanticVisitor.AddFields` | src/semantic/visitor.py:238-242 | the loop builds the dictionary and offset `AddNames` describes |
| `Semantic.SemanticVisitor.VisitStatement` | src/semantic/visitor.py:249-338 | outcome and new state are those `StatementStep` gives; a statement that passes keeps the enclosing scopes |
| `Semantic.SemanticVisitor.VisitStatements` | src/semantic/visitor.py:249-252 | outcome and new state are those `StatementsStep` gives (fail-fast order: `StatementsFailFast`); statements that pass keep the enclosing scopes |
| `Semantic.SemanticVisitor.VisitAssignment` | src/semantic/visitor.py:254-262 | the outcome `AssignmentCheck` gives |
| `Semantic.SemanticVisitor.VisitCondition` | src/semantic/visitor.py:265-267 | the outcome `ConditionCheck` gives |
| `Semantic.SemanticVisitor.VisitIf` | src/semantic/visitor.py:264-273 | a failing condition fails first and changes nothing; otherwise outcome and new state are those `StatementStep` gives: the then-branch, then the else-branch if the then-branch passed |
| `Semantic.SemanticVisitor.VisitWhile` | src/semantic/visitor.py:275-282 | a failing condition fails first and changes nothing; otherwise outcome and new state are those `StatementStep` gives for the body |
| `Semantic.SemanticVisitor.VisitRepeat` | src/semantic/visitor.py:304-313 | outcome and new state are those `StatementStep` gives: the statements first, then the condition in the state they left; a pass means the condition is boolean |
| `Semantic.SemanticVisitor.VisitFor` | src/semantic/visitor.py:284-302 | bounds that fail come first; else a control variable missing from the scope is entered as an integer VARIABLE, then the body is visited, as `StatementStep` gives |
| `Semantic.SemanticVisitor.VisitForBounds` | src/semantic/visitor.py:285-292 | the outcome `ForBoundsCheck` gives |
| `Semantic.SemanticVisitor.VisitCase` | src/semantic/visitor.py:315-321 | a selector that fails to type fails first; otherwise outcome and new state are those `ArmsStep` gives for the arms' statements, in order |
| `Semantic.SemanticVisitor.VisitProcedureCall` | src/semantic/visitor.py:323-335 | the outcome `CallCheck` gives |
| `Semantic.SemanticVisitor.VisitArguments` | src/semantic/visitor.py:332-333 | the outcome `ArgumentsOk` gives |
| `Semantic.SemanticVisitor.VisitExpression` | src/semantic/visitor.py:340-456 | the type `ExpressionType` gives |
| `Semantic.SemanticVisitor.VisitVariable` | src/semantic/visitor.py:394-425 | the type `ExpressionType` gives for the variable |
| `Semantic.SemanticVisitor.VisitInScope` | src/semantic/visitor.py:152-161 | inside the scope: the parameters and block as `RoutineBodyStep` gives, then the scope closed (`CloseScope`) and the function type put back when they passed |
| `Semantic.SemanticVisitor.LeaveScope` | src/semantic/symbol_table.py:151-156 | `exit_scope` one level up: the new state is `CloseScope` of the old |
| `Analysis.EnterIn` | src/semantic/symbol_table.py:61-98 | one entry named `name` is appended and becomes the newest of the block of level `l`; level, display and block count are kept, the tables stay well formed |
| `Analysis.EnterCurrent` | src/semantic/symbol_table.py:61-98 | the entry is appended at the current level and is then found by `lookup_current_scope` |
| `Analysis.OpenScope` | src/semantic/symbol_table.py:145-149 | one level deeper, the tables staying well formed |
| `Analysis.CloseScope` | src/semantic/symbol_table.py:151-156 | one level up, nothing at level 0; the entries and the type map are kept |
| `Analysis.StatementStep` | src/semantic/visitor.py:249-338 | a statement keeps the level and the type map, and only appends entries |
| `Analysis.StatementsStep` | src/semantic/visitor.py:249-252 | a statement list keeps the level and the type map, and only appends entries |
| `Analysis.ArmsStep` | src/semantic/visitor.py:318-319 | the arms of a case keep the level and the type map, and only append entries |
| `Analysis.VariablesStep` | src/semantic/visitor.py:60-68 | identifiers only append entries at the current level; a failure is a duplicate of one of them |
| `Analysis.VariableDeclarationStep` | src/semantic/visitor.py:165-179 | a variable or parameter declaration keeps the type map and the level, and only appends entries |
| `Analysis.ParametersStep` | src/semantic/visitor.py:123-124 | the parameters keep the type map and the level, and only append entries |
| `Analysis.DeclarationStep` | src/semantic/visitor.py:57-163 | a declaration only appends entries, and one that passes is back at its own level |
| `Analysis.RoutineStep` | src/semantic/visitor.py:104-163 | a routine fails exactly on a display overflow or when its body fails in the opened scope; one that passes is back at the enclosing level; entries are only appended |
| `Analysis.RoutineOpened` | src/semantic/visitor.py:108-127 | once the scope fits, the routine's step is its body's step in the opened scope, closed again on a pass |
| `Analysis.RoutineBodyStep` | src/semantic/visitor.py:123-126 | the parameters and block only append entries, and pass at the level they started at |
| `Analysis.DeclarationsStep` | src/semantic/visitor.py:52-53 | the declarations only append entries, and pass at the level they started at |
| `Analysis.BlockStep` | src/semantic/visitor.py:51-55 | a block only appends entries, and passes at the level it started at |
| `Analysis.ProgramStep` | src/semantic/visitor.py:40-49 | the program name is the first new entry, and a program that passes ends at the level where it began |
| `Analysis.StatementsSnoc` | src/semantic/visitor.py:250-251 | one more statement is visited only if the list before it passed, in the state the list left |
| `Analysis.StatementsFailFast` | src/semantic/visitor.py:249-252 | the statements pass exactly when each passes in the state the earlier ones left; a failure is the failure of the first failing statement, all before it having passed |
| `Analysis.DeclarationsSnoc` | src/semantic/visitor.py:52-53 | one more declaration is visited only if the list before it passed, in the state the list left |
| `Analysis.DeclarationsFailFast` | src/semantic/visitor.py:51-55 | the declarations pass exactly when each passes in the state the earlier ones left; a failure is that of the first failing one |
| `Analysis.PrefixTransitive` | src/semantic/symbol_table.py:61-98 | entries are only ever appended: being a prefix is transitive |
| `ErrorContext.LocationRule` | src/utils/error_context.py:66-91 | a position is taken as it is, with span 1. A token with a start gives that start, its line and column in the source, and a span of end - start when that is positive, else 1. A token without a start, and anything else, is not located |
| `ErrorContext.FormatErrorContext` | src/utils/error_context.py:94-134 | the string is the context entries joined by newlines, and empty for an empty source |
| `SourceLines.IndexToLineCol` | src/utils/error_context.py:26-44 | the clamped index's line is one plus the newlines before it, and its column counts from the line start |
| `SourceLines.WalkCounts` | src/utils/error_context.py:36-44 | the loop's line and column, in closed form |
| `SourceLines.SplitLinesRejoin` | src/utils/error_context.py:53 | the lines kept with their ends concatenate back to the source |
| `SourceLines.SplitLinesShape` | src/utils/error_context.py:53 | every line but the last ends in its only newline |
| `SourceLines.LineBoundsAreALine` | src/utils/error_context.py:47-63 | for an existing line, the bounds hold exactly that line's text without its newline |
| `SourceLines.LineBoundsWithin` | src/utils/error_context.py:47-63 | for an existing line, the start is the total length of the lines before it, and the end is the line's end less a final newline |
| `SourceLines.LineBoundsOutside` | src/utils/error_context.py:51-56 | a line number below 1 gives (0, 0), and one past the last line gives an empty span |
| `SourceLines.SplitLines` | src/utils/error_context.py:108 | as many lines as with ends kept |
| `SourceLines.SomeLine` | src/utils/error_context.py:105-111 | a non-empty source has at least one line |
| `ContextWindow.ContextLine` | src/utils/error_context.py:124-126 | a source row starts with `>` exactly on the target line |
| `ContextWindow.CaretLineShape` | src/utils/error_context.py:128-132 | the carets start after column - 1 spaces past the gutter, and there are span of them, at least one |
| `ContextWindow.WindowBounds` | src/utils/error_context.py:113-115 | the clamped target line and the window stay within the lines, and a non-negative window holds the target |
| `ContextWindow.EmitWindow` | src/utils/error_context.py:120-134 | the loop emits the header and the rows `Emitted` describes |
| `ContextWindow.WindowAround` | src/utils/error_context.py:108-134 | no entries for no lines, else the window around the clamped target line |
| `ContextWindow.EmittedShape` | src/utils/error_context.py:120-132 | the header, then one row per shown line plus the caret row; only the target's row is marked, and the caret row follows it |

## Left out

- The command-line programs (`main.py`, `parser_main.py`, `semantic_main.py`) and file writing (`writer.py`) are not part of this model. Nor are the parser, the tree formatter, the semantic printer, and the contract checkers: they are outside the modelled core.
- Loading the configuration file (`_load_config`) is left out, together with its missing-file error and the `TokenType[...]` name lookup, which raises on an unknown kind name. The configuration is a parameter, with token kinds already as values.
- Character classes are regular expressions compiled with `re`. Here each class is a predicate on characters, and `match` is that predicate.
- `Validator.ValidateDfaConfig`: the regex compilation errors, the type checks on a value that is not a string, list or dict, and the `warn`, `strict` and overlap-range options are left out. Typed values cannot be ill-typed, and regular expressions are not modelled.
- The character-class overlap scan (`_detect_char_class_overlaps`) is left out. It needs regular expressions, and its output is only printed as warnings.
- Printing is left out: the warnings that validation prints, `print_error_context`, and `maybe_print_error_context_from_exception`. The environment flag read by `debug_enabled` is left out too, because I/O and the environment are not modelled. Warnings are returned as values.
- `Readers.Reader.constructor`: `Reader.from_file` is left out (file I/O); the constructor takes the text.
- Node decorations (`tab_index`, `sym_type`, `sym_level`, which the visitor writes onto nodes) are not kept on the tree. The visitor returns the computed types and outcomes instead.
- `Semantic.SemanticVisitor.VisitProgram`: returns an outcome rather than the decorated node.
- Floating-point numbers are modelled as exact reals.
- Python's Unicode `lower()` is modelled as ASCII lower-casing.
- `splitlines()` is modelled as splitting at `'\n'` only. The other line boundaries Python recognises (`\r`, `\r\n`, form feed and others) are not modelled.
- `SymbolTables.SymbolTable.EnterScope`: on a display overflow the source first raises the level and appends a block, then raises `IndexError`. The model leaves the table unchanged and returns a `DisplayOverflow` error.
- `SymbolTables.SymbolTable.Enter`: requires the level to be within the display. The source raises `IndexError` outside it, or, for a negative level, indexes the display from its end.
- `Readers.Reader.Peek`: Dafny has no default arguments, so the source's default look-ahead of one is written out by the caller as `Peek(1)`.
- `Readers.Reader.Expect`: returns the lexical error instead of raising it. The error message text is not modelled, only what it names.
- `Ast.OnlyParenthesizedLacksHandler`: visiting a parenthesized expression raises `AttributeError` in the source. The model reports a `MissingAttribute` error value instead.
- `ExpressionJson.ExpressionRoundTrip`: a Variable's empty-string field is dropped by `to_dict` (its `if self.field:` test), so the round trip holds up to that normalisation.
- The error message strings of the semantic errors are not modelled. Each error carries the names and types its message would show.
- `Lexing.ClassifyCases`: the reserved map is consulted with the exact spelling of the lexeme, as the code does, even though keywords are matched case-insensitively.
- `Lexing.UnknownAtStop`: the UNKNOWN token is the character where probing stopped, as the code does, not the character where the token started (see Findings).

## Findings

| source | as written | input that shows it | evidently intended | confidence | as-written member | corrected member |
|---|---|---|---|---|---|---|
| src/lexer/lexer.py:78-88 | The DFA can move over some characters without reaching a final state. The reader is then not rewound: the UNKNOWN token is the character where probing stopped, and the probed characters are lost. At the end of the input no token is emitted at all. | A configuration whose only token is `ab`, and the source `a`. Probing reads `a` into a non-final state and reaches the end, so `tokenize` returns no tokens. | The character where the token started is reported as UNKNOWN, and scanning resumes right after it. Every character of the source then ends up in exactly one token. | medium; not executed | `Lexing.LexDropsProbedText` | `Lexing.LexCorrectedRoundTrip` |
| src/semantic/symbol_table.py:70-71 | A VARIABLE links to the block's last entry only when that entry is itself a VARIABLE. After a constant, type or routine, the link is 0, which cuts the earlier entries of the block off its chain. Lookup then falls back to level-0 entries only. | Inside a procedure, a constant `k` is declared and then a variable `x`. Looking up `k` afterwards finds nothing. | Every entry links to its block's previous last entry, as the other kinds already do at line 81. The whole chain then stays reachable. | medium; not executed | `SymbolTables.ConstantLostBehindVariable` | `SymbolTables.CorrectedLinkKeepsChain` |

The classes `Lexing.Lexer` and `SymbolTables.SymbolTable` keep the code's behaviour as written. The corrected definitions (`Lexing.LexCorrected` and `SymbolTables.CorrectedLink`) stand beside them, with their properties proved.
