# A verified model of a small language processor

This project models, in Dafny, the pipeline of a small imperative language
with `let`/`keep` declarations, `func`/`proc` subroutines, `give`, `show`,
`if`/`elif`/`else`, `while` with `skip` and `stop`, and integer, string and
boolean values. The pipeline has four stages:

- a scanner that turns source text into positioned tokens (`tokens.dfy`,
  `scanning.dfy`, `lexical_analyzer.dfy`);
- a recursive-descent parser with one token of lookahead that builds the
  syntax tree (`ast.dfy`, `parser.dfy`, `parser_properties.dfy`,
  `syntactic_analyzer.dfy`);
- a semantic analyzer over a chain of scoped symbol tables (`symbol_table.dfy`,
  `semantics.dfy`, `semantic_properties.dfy`, `semantic_analyzer.dfy`);
- a tree-walking interpreter over a call stack of activation records
  (`call_stack.dfy`, `interpretation.dfy`, `interpretation_properties.dfy`,
  `interpreter.dfy`).

Beside the pipeline, `translators.dfy` models the two serialisers of the
calculator's arithmetic trees into prefix and postfix notation.

Each stage that works by mutation is modelled twice:

- as pure functions over an explicit state: `Scanning`, `Parsing`,
  `Semantics` and `Interpretation`. These carry the properties.
- as classes whose fields the methods update in place: `LexicalAnalyzer`,
  `SyntacticAnalyzer`, `ScopedSymbolTable`, `SemanticAnalyzer`,
  `ActivationRecord`, `CallStack` and `Interpreter`. Each method is proved
  to report the result, and to reach the state, that the matching function
  prescribes.

Python exceptions become explicit outcomes:

- lexical, syntactic, semantic and runtime errors are `Result` values;
- `SkipException` and `StopException` become an `Escaped` outcome that only
  `while` catches;
- the `{"give": value}` dictionary becomes the `Gave` flow;
- a Python exception the interpreter does not handle (`IndexError`,
  `KeyError`, `TypeError`, ...) becomes the `Crash` fault;
- an operation that needs floating point becomes the `NotModelled` fault.

Where the code departs from the language's evident intent, the model follows
the code:

- Every expression the parser reads goes through the boolean precedence
  chain. An arithmetic expression in a declaration or an assignment is
  therefore wrapped as arithmetic-as-boolean, so `let number x = 2` stores
  `True`.
- The semantic analyzer accepts a `skip` or `stop` inside a function or
  procedure that is declared inside a `while`. Its scope walk passes the
  subroutine's scope and finds the loop's
  (`SemanticProperties.SkipAcceptedInSubroutineInWhile`,
  `InterpretationProperties.LoopLeavingThroughProcedureAccepted`). At run
  time the signal then escapes the call before its `pop`, and the
  procedure's record stays on the stack
  (`InterpretationProperties.StopInProcedureLeavesRecord`). The stack-balance
  guarantees (`Interpretation.Balanced`) are therefore stated only for
  programs whose every `skip` and `stop` lies inside a loop of its own body
  (`Interpretation.Contained`).
- The postfix translation does not tell a unary operator from a binary one
  of the same spelling (`Translation.PostfixConflatesUnaryMinus`).

## Model

| member | source | states |
|---|---|---|
| Tokens.Lookup | _1_lexical_analysis/tokens.py:82-115 | a table lookup finds nothing exactly when no entry has the key, and a found kind is paired with that key in the table |
| Tokens.LookupKeyword | _1_lexical_analysis/tokens.py:92-115 | the `KEYWORDS` table yields only reserved-word kinds |
| Tokens.KeywordsMatchValues | _1_lexical_analysis/tokens.py:92-115 | every keyword lexeme maps to the kind whose enumeration value is that lexeme |
| Tokens.LookupKeywordValue | _1_lexical_analysis/tokens.py:92-115 | whatever kind a keyword lookup finds has the looked-up word as its value |
| Tokens.MultiCharacterOperatorsMatchValues | _1_lexical_analysis/tokens.py:82-90 | every multi-character operator is two characters long and maps to the kind with that value |
| Tokens.SingleCharacterLexemesMatchValues | _1_lexical_analysis/tokens.py:65-80 | every single-character lexeme maps to the kind with that value |
| Tokens.NewToken | _1_lexical_analysis/tokens.py:144-156 | construction succeeds exactly when line and column are at least 1; otherwise the positional error, with the line checked first |
| Tokens.NewTokenWithLexeme | _1_lexical_analysis/tokens.py:166-171 | succeeds exactly when the position is valid and the lexeme non-empty; position errors come before the empty-lexeme error |
| Tokens.NumericValue | _1_lexical_analysis/tokens.py:173-189 | a kind other than number literal is an invalid-token-type error; otherwise the lexeme succeeds exactly when it has a '.' and is float text (digits, one point, digits, not the point alone, optional sign) or has no '.' and is integer text (optional sign, digits), a float keeping its text and an integer being the signed value of its digits; every other lexeme is an invalid-lexeme error |
| Tokens.NumericValueOfDecimalText | _1_lexical_analysis/tokens.py:173-189 | a number token carrying `str(n)` of any integer n reads back as the integer n |
| Tokens.TwoPointsRejected | _1_lexical_analysis/tokens.py:182-189 | `1.2.3` is an invalid-lexeme error, as `float()` rejects it |
| Tokens.LonePointRejected | _1_lexical_analysis/tokens.py:182-189 | a lone `.` is an invalid-lexeme error |
| Tokens.SignedIntegers | _1_lexical_analysis/tokens.py:182-183 | `+5` reads as the integer 5 and `-5` as -5, as `int()` accepts a sign |
| Tokens.PointFirstFloat | _1_lexical_analysis/tokens.py:182-183 | `.5` is a float, kept as its text |
| Tokens.StringValue | _1_lexical_analysis/tokens.py:191-207 | succeeds exactly on a string literal of length at least 2, and the value is the lexeme without its first and last characters |
| Tokens.BooleanValue | _1_lexical_analysis/tokens.py:209-227 | succeeds exactly on a boolean literal spelled "true" or "false", giving true exactly for "true"; the two error codes otherwise |
| Tokens.IdentifierName | _1_lexical_analysis/tokens.py:229-238 | succeeds exactly on an identifier, and the name is its non-empty lexeme |
| Scanning.CharAt | src/lexical_analysis/lexical_analyzer.py:66-70 | the current character exists exactly before the end of the text and is the character at that position |
| Scanning.LineColumn | src/lexical_analysis/lexical_analyzer.py:58-65 | lines and columns counted by `_advance` never drop below 1 |
| Scanning.SkipWhitespaceMeaning | src/lexical_analysis/lexical_analyzer.py:76-82 | whitespace skipping passes only blanks other than '\n' and stops at the end or at a non-blank |
| Scanning.SkipToNewlineMeaning | src/lexical_analysis/lexical_analyzer.py:84-87 | a comment is skipped up to, not including, the next '\n' or the end |
| Scanning.SkipComment | src/lexical_analysis/lexical_analyzer.py:84-87 | skipping a comment always moves forward and stays inside the text |
| Scanning.SkipNewlinesMeaning | src/lexical_analysis/lexical_analyzer.py:89-91 | consecutive newlines are all passed and skipping stops at a character that is not '\n' |
| Scanning.NumberEndShape | src/lexical_analysis/lexical_analyzer.py:122-130 | the number loop reads digits and at most one '.', each '.' followed by a digit, and stops where no digit follows |
| Scanning.ScanNumber | src/lexical_analysis/lexical_analyzer.py:116-143 | a scanned number is a well-formed number-literal token at the line and column where it starts, and the scan advances |
| Scanning.ScanNumberSucceeds | src/lexical_analysis/lexical_analyzer.py:274-279 | from a digit, or a '.' followed by a digit, the number scan succeeds and its lexeme is exactly the characters it passed, a valid number lexeme |
| Scanning.StringBody | src/lexical_analysis/lexical_analyzer.py:161-189 | the string loop stops only at the closing quote, and every failure is an unterminated-string error |
| Scanning.ScanString | src/lexical_analysis/lexical_analyzer.py:145-204 | a scanned string literal starts and ends with the opening quote character and stands where the quote was |
| Scanning.StringBodyOfQuoted | src/lexical_analysis/lexical_analyzer.py:152-189 | reading a text written with the escape table gives back exactly that text, ending at the closing quote |
| Scanning.ScanStringOfQuoted | src/lexical_analysis/lexical_analyzer.py:145-204 | a quoted and escaped text scans to a literal whose string value is the original text (escape round trip) |
| Scanning.ClassifyWord | src/lexical_analysis/lexical_analyzer.py:217-231 | the token for a word keeps the word's position and is never EOF; a token with a lexeme carries the word |
| Scanning.ClassifyWordKinds | src/lexical_analysis/lexical_analyzer.py:217-231 | "true"/"false" are boolean literals, a keyword is its lexeme-less keyword token, and exactly the other words are identifiers |
| Scanning.IdentifierEndMeaning | src/lexical_analysis/lexical_analyzer.py:211-215 | the identifier loop passes only letters, digits, '_' and '$' and stops at the first other character |
| Scanning.ScanIdentifier | src/lexical_analysis/lexical_analyzer.py:206-231 | a scanned word advances, is well formed, is not EOF and stands where it starts |
| Scanning.ScanIdentifierSpan | src/lexical_analysis/lexical_analyzer.py:206-215 | a word is the longest run of letters, digits, '_' and '$' from its start |
| Scanning.MatchesMeansSlice | src/lexical_analysis/lexical_analyzer.py:247-255 | an operator matches exactly when the text from the current position spells it |
| Scanning.FirstMatch | src/lexical_analysis/lexical_analyzer.py:233-245 | the operator found matches at the position; none is found exactly when no table entry matches |
| Scanning.MultiCharacterOperatorsLongestFirst | src/lexical_analysis/lexical_analyzer.py:236-240 | the table is already longest-first with distinct keys, so the sort does not change which operator wins |
| Scanning.ScanOperator | src/lexical_analysis/lexical_analyzer.py:290-314 | an operator token advances and stands where it starts; the scan fails exactly when neither a two-character nor a one-character operator matches, with an invalid-character error at that position |
| Scanning.ScanAt | src/lexical_analysis/lexical_analyzer.py:268-306 | each branch of `next_token` after whitespace yields a well-formed non-EOF token at its start that advances |
| Scanning.NextToken | src/lexical_analysis/lexical_analyzer.py:257-314 | a token is well formed; EOF stands just past the text; any other token advances the position |
| Scanning.Tokenize | src/lexical_analysis/lexical_analyzer.py:316-323 | the token list is non-empty, ends with EOF, holds no earlier EOF, and every token is well formed |
| Scanning.NewlineRunIsOneToken | src/lexical_analysis/lexical_analyzer.py:268-272 | a run of '\n' is one NEWLINE token at the first of them, and scanning resumes after the run |
| Scanning.FirstMatchOfDistinct | src/lexical_analysis/lexical_analyzer.py:236-245 | in a table of distinct two-character keys the operator spelled at the position is the one found |
| Scanning.MultiCharacterOperatorIsOneToken | src/lexical_analysis/lexical_analyzer.py:290-292 | a two-character operator is read as one token of its kind, never as two single characters |
| Scanning.NextTokenAtOperator | src/lexical_analysis/lexical_analyzer.py:290-306 | at an operator's first character `next_token` takes the operator branch |
| Scanning.OperatorStartIsNotOtherToken | src/lexical_analysis/lexical_analyzer.py:261-288 | such a character starts no comment, newline, number, string or word |
| Scanning.NextTokenNeverInvalidNumber | src/lexical_analysis/lexical_analyzer.py:132-139 | the invalid-number error is unreachable from `next_token` |
| Scanning.InvalidCharacterExactly | src/lexical_analysis/lexical_analyzer.py:308-314 | `next_token` raises the invalid-character error exactly at a character no branch accepts, at that character's position |
| Ast.NodeTypeOf | _2_syntactic_analysis/ast.py:167-171 | a type node keeps the value string of its token's kind |
| Ast.NodeTypeNames | _2_syntactic_analysis/ast.py:167-171 | the three type keywords give "number", "string" or "boolean", and two type nodes are equal exactly when their keywords are |
| Ast.ArithmeticOrBoolean | _2_syntactic_analysis/ast.py:125-139 | every expression node belongs to exactly one of the arithmetic and boolean families |
| Ast.Dispatch | _2_syntactic_analysis/ast.py:9-17 | `visit` reaches the node's own `visit_X` exactly when the visitor overrides it; otherwise the not-implemented error |
| Ast.VisitorCoverage | _2_syntactic_analysis/ast.py:9-111 | the semantic analyzer handles every node but types and parameters; the interpreter also leaves elif and else to the if statement |
| Tokens.KeywordKinds | _1_lexical_analysis/tokens.py:92-115 | every entry of the `KEYWORDS` table maps to a reserved-word kind |
| Text.DigitValue | _1_lexical_analysis/tokens.py:173-189 | a decimal digit's value lies below ten |
| Text.DigitChar | _1_lexical_analysis/tokens.py:173-189 | the digit character of a value below ten is a digit whose value is that number |
| Text.NatToString | _4_interpretation/interpreter.py:96-98 | `str` of a natural is a non-empty run of digits without a leading zero |
| Text.IntToString | _4_interpretation/interpreter.py:96-98 | `str` of an integer is non-empty and starts with '-' exactly when the integer is negative |
| Text.DigitsValueOfNatToString | _1_lexical_analysis/tokens.py:173-189 | `int` of the decimal text of a natural gives back that natural |
| Text.NatToStringInjective | _4_interpretation/interpreter.py:96-98 | distinct naturals have distinct decimal texts |
| Text.Unsigned | _1_lexical_analysis/tokens.py:183 | dropping the optional leading sign never lengthens a text |
| Text.IntegerTextOfIntToString | _1_lexical_analysis/tokens.py:183 | `str(n)` of any integer is integer text whose signed value is n, so `int(str(n)) == n` |
| Text.IntegerTextIsNoFloatText | _1_lexical_analysis/tokens.py:183 | integer text holds no point and is never float text, so the two readings never overlap |
| Scanning.SkipWhitespace | src/lexical_analysis/lexical_analyzer.py:76-82 | skipping whitespace never moves backwards nor past the end of the source |
| Scanning.SkipToNewline | src/lexical_analysis/lexical_analyzer.py:84-87 | skipping a comment never moves backwards nor past the end of the source |
| Scanning.SkipNewlines | src/lexical_analysis/lexical_analyzer.py:89-91 | skipping newlines never moves backwards nor past the end of the source |
| Scanning.NumberEnd | src/lexical_analysis/lexical_analyzer.py:122-130 | the end of a number never lies before its start nor past the end of the source |
| Scanning.IdentifierEnd | src/lexical_analysis/lexical_analyzer.py:211-215 | the end of an identifier never lies before its start nor past the end of the source |
| LexicalAnalysis.TokenizeStep | src/lexical_analysis/lexical_analyzer.py:316-323 | one non-EOF token read moves from the tokens still to come to the list already built, leaving the final list unchanged |
| LexicalAnalysis.LexicalAnalyzer.constructor | src/lexical_analysis/lexical_analyzer.py:42-47 | a fresh analyzer stands at position 0, line 1, column 1, with the current character that of position 0 |
| LexicalAnalysis.LexicalAnalyzer.Advance | src/lexical_analysis/lexical_analyzer.py:58-70 | one position further; after a '\n' the next line at column 1, otherwise one column on; the current character follows the position |
| LexicalAnalysis.LexicalAnalyzer.Peek | src/lexical_analysis/lexical_analyzer.py:72-74 | a character exists exactly when position plus offset is inside the text, and it is that character |
| LexicalAnalysis.LexicalAnalyzer.SkipWhitespace | src/lexical_analysis/lexical_analyzer.py:76-82 | the cursor ends where `Scanning.SkipWhitespace` says |
| LexicalAnalysis.LexicalAnalyzer.SkipComment | src/lexical_analysis/lexical_analyzer.py:84-87 | the cursor ends where `Scanning.SkipComment` says |
| LexicalAnalysis.LexicalAnalyzer.SkipConsecutiveNewlines | src/lexical_analysis/lexical_analyzer.py:89-91 | the cursor ends where `Scanning.SkipNewlines` says |
| LexicalAnalysis.LexicalAnalyzer.TokenizeNumber | src/lexical_analysis/lexical_analyzer.py:116-143 | token or error and the new position are those of `Scanning.ScanNumber` |
| LexicalAnalysis.LexicalAnalyzer.TokenizeString | src/lexical_analysis/lexical_analyzer.py:145-204 | token or error and the new position are those of `Scanning.ScanString` |
| LexicalAnalysis.LexicalAnalyzer.TokenizeIdentifier | src/lexical_analysis/lexical_analyzer.py:206-231 | the token and the new position are those of `Scanning.ScanIdentifier` |
| LexicalAnalysis.LexicalAnalyzer.MatchesOperator | src/lexical_analysis/lexical_analyzer.py:247-255 | true exactly when the text at the cursor spells the operator |
| LexicalAnalysis.LexicalAnalyzer.TokenizeMultiCharacterOperator | src/lexical_analysis/lexical_analyzer.py:233-245 | when an operator matches, its token at the old position and the cursor past it; otherwise None and the cursor unmoved |
| LexicalAnalysis.LexicalAnalyzer.ScanToken | src/lexical_analysis/lexical_analyzer.py:268-314 | token or error and the new position are those of `Scanning.ScanAt` |
| LexicalAnalysis.LexicalAnalyzer.NextToken | src/lexical_analysis/lexical_analyzer.py:257-314 | token or error and the new position are those of `Scanning.NextToken` |
| LexicalAnalysis.LexicalAnalyzer.Tokenize | src/lexical_analysis/lexical_analyzer.py:316-323 | the result is `Scanning.Tokenize` of the text from the old position |
| Parsing.LexedFrom | src/lexical_analysis/lexical_analyzer.py:257-323 | the results of repeated `next_token` calls end at the first EOF or lexical error, and only the last can be either |
| Parsing.TokenValue | 2_syntactic_analysis/syntactic_analyser.py:349-351 | a token without a lexeme contributes its kind's value |
| Parsing.NextState | 2_syntactic_analysis/syntactic_analyser.py:61-65 | reading the next token moves one result on before EOF, and a lexical error in the stream becomes the parser's error |
| Parsing.Consume | 2_syntactic_analysis/syntactic_analyser.py:61-70 | succeeds only on the expected kind, returning the current token and moving one token on; any other kind is an unexpected-token error |
| Parsing.PeekNextToken | 2_syntactic_analysis/syntactic_analyser.py:72-85 | the token after the current one, failing exactly when reading it fails; the state is kept |
| Parsing.Parse | 2_syntactic_analysis/syntactic_analyser.py:51-59 | a parsed program starts at '{' and leaves only EOF, the last token of the stream |
| Parsing.ParseSource | 2_syntactic_analysis/syntactic_analyser.py:47-59 | a text parses only when its first token is '{' and the scanner reaches EOF without a lexical error |
| Parsing.ProgramRule | 2_syntactic_analysis/syntactic_analyser.py:87-88 | a program is a block, so it starts at '{' and consumes tokens |
| Parsing.OptionalNewline | 2_syntactic_analysis/syntactic_analyser.py:93-94 | one NEWLINE is consumed if it is current; otherwise the state is unchanged |
| Parsing.BlockRule | 2_syntactic_analysis/syntactic_analyser.py:90-115 | a block starts at '{' and consumes tokens; a present statement list is never empty |
| Parsing.BlockStatements | 2_syntactic_analysis/syntactic_analyser.py:98-113 | the block loop never goes back, keeps the statements already read as a prefix and stops at '}' |
| Parsing.StatementRule | 2_syntactic_analysis/syntactic_analyser.py:117-148 | a statement consumes tokens, and one starting with an identifier is always an assignment |
| Parsing.VariableDeclaration | 2_syntactic_analysis/syntactic_analyser.py:150-166 | `let` with at least one identifier, and, when there are initialisers, exactly one per identifier |
| Parsing.ConstantDeclaration | 2_syntactic_analysis/syntactic_analyser.py:168-182 | `keep` with the '=' required and exactly one expression per identifier, at least one |
| Parsing.Initializers | 2_syntactic_analysis/syntactic_analyser.py:156-164 | '=' then an expression list whose length must equal the identifier count, else the wrong-number error |
| Parsing.IdentifierRule | 2_syntactic_analysis/syntactic_analyser.py:349-351 | an identifier node is the name of the IDENTIFIER token |
| Parsing.IdentifierList | 2_syntactic_analysis/syntactic_analyser.py:184-189 | at least one identifier, and the list ends where no ',' follows |
| Parsing.IdentifierRest | 2_syntactic_analysis/syntactic_analyser.py:186-188 | the loop keeps what was read as a prefix and stops where no ',' follows |
| Parsing.ExpressionList | 2_syntactic_analysis/syntactic_analyser.py:191-196 | at least one expression, each a well-typed boolean node, ending where no ',' follows |
| Parsing.ExpressionRest | 2_syntactic_analysis/syntactic_analyser.py:193-195 | the loop keeps what was read as a prefix, and every element stays a well-typed boolean node |
| Parsing.ParenthesisedArguments | 2_syntactic_analysis/syntactic_analyser.py:241-269 | '(' then arguments unless ')' follows at once; a present argument list is non-empty and well typed |
| Parsing.FunctionDeclaration | 2_syntactic_analysis/syntactic_analyser.py:198-210 | `func` name, optional non-empty parameters, '->' type and block |
| Parsing.ProcedureDeclaration | 2_syntactic_analysis/syntactic_analyser.py:212-223 | `proc` name, optional non-empty parameters and block, with no give type |
| Parsing.Header | 2_syntactic_analysis/syntactic_analyser.py:198-207 | the keyword, the name and the parenthesised parameters, with a present parameter list non-empty |
| Parsing.ParenthesisedParameters | 2_syntactic_analysis/syntactic_analyser.py:201-207 | parameters are absent exactly when ')' follows '(', and otherwise non-empty |
| Parsing.ParameterList | 2_syntactic_analysis/syntactic_analyser.py:225-230 | at least one parameter |
| Parsing.ParameterRest | 2_syntactic_analysis/syntactic_analyser.py:227-229 | the loop keeps what was read as a prefix and stops where no ',' follows |
| Parsing.ParameterRule | 2_syntactic_analysis/syntactic_analyser.py:232-235 | a parameter starts with a type keyword |
| Parsing.TypeRule | 2_syntactic_analysis/syntactic_analyser.py:332-347 | succeeds exactly on a type keyword, giving the type node of that token |
| Parsing.ProcedureCall | 2_syntactic_analysis/syntactic_analyser.py:252-262 | `exec` name and parenthesised optional arguments |
| Parsing.AssignmentStatement | 2_syntactic_analysis/syntactic_analyser.py:271-275 | name '=' expression, naming the identifier token, with a well-typed boolean expression |
| Parsing.GiveStatement | 2_syntactic_analysis/syntactic_analyser.py:277-281 | `give` has no expression exactly when NEWLINE or '}' follows |
| Parsing.ShowStatement | 2_syntactic_analysis/syntactic_analyser.py:283-285 | `show` and a required expression |
| Parsing.IfStatement | 2_syntactic_analysis/syntactic_analyser.py:287-300 | `if` condition block, with a present elif list non-empty |
| Parsing.OptionalElifs | 2_syntactic_analysis/syntactic_analyser.py:294-295 | elifs are present exactly when `elif` is current, are then non-empty, and none follows |
| Parsing.ElifRest | 2_syntactic_analysis/syntactic_analyser.py:302-306 | one branch per leading `elif`, keeping those read as a prefix |
| Parsing.ElifRule | 2_syntactic_analysis/syntactic_analyser.py:308-312 | an elif branch starts at `elif` |
| Parsing.OptionalElse | 2_syntactic_analysis/syntactic_analyser.py:297-298 | an else branch is present exactly when `else` is current |
| Parsing.WhileStatement | 2_syntactic_analysis/syntactic_analyser.py:318-322 | `while` with a well-typed boolean condition, then a block |
| Parsing.BooleanExpression | 2_syntactic_analysis/syntactic_analyser.py:353-357 | every expression is a well-typed boolean node starting at `not` or at what a primary boolean expression starts with |
| Parsing.LogicalOrExpression | 2_syntactic_analysis/syntactic_analyser.py:359-368 | the or level yields a well-typed boolean node |
| Parsing.OrRest | 2_syntactic_analysis/syntactic_analyser.py:362-366 | the or loop stops where no `or` follows and keeps a well-typed boolean node |
| Parsing.LogicalAndExpression | 2_syntactic_analysis/syntactic_analyser.py:370-379 | the and level yields a well-typed boolean node |
| Parsing.AndRest | 2_syntactic_analysis/syntactic_analyser.py:373-377 | the and loop stops where no `and` follows and keeps a well-typed boolean node |
| Parsing.LogicalNotExpression | 2_syntactic_analysis/syntactic_analyser.py:381-388 | a negation can only come from `not`, or from a parenthesised expression |
| Parsing.PrimaryBooleanExpression | 2_syntactic_analysis/syntactic_analyser.py:390-401 | a boolean literal, a parenthesised boolean expression, or a comparison |
| Parsing.ComparisonExpression | 2_syntactic_analysis/syntactic_analyser.py:403-421 | a success starts with a successful arithmetic expression, and the node is a comparison exactly when a comparator token follows that expression |
| ParsingProperties.ComparisonShape | 2_syntactic_analysis/syntactic_analyser.py:403-421 | with a comparator after the left arithmetic expression, the node compares it with the next arithmetic expression, the comparator's text kept; without one, the node is the left expression wrapped as a boolean and the state is the one after it |
| Parsing.ArithmeticExpression | 2_syntactic_analysis/syntactic_analyser.py:423-424 | a well-typed arithmetic node starting with an arithmetic token |
| Parsing.AdditiveExpression | 2_syntactic_analysis/syntactic_analyser.py:426-433 | a well-typed arithmetic node after which no '+' or '-' follows |
| Parsing.AdditiveRest | 2_syntactic_analysis/syntactic_analyser.py:428-432 | the loop stops where no '+' or '-' follows, and returns its left operand unchanged when none is current |
| Parsing.MultiplicativeExpression | 2_syntactic_analysis/syntactic_analyser.py:435-447 | a well-typed arithmetic node after which no '*', '/', '//' or '%' follows |
| Parsing.MultiplicativeRest | 2_syntactic_analysis/syntactic_analyser.py:437-446 | the loop stops where no multiplicative operator follows, and returns its left operand unchanged when none is current |
| Parsing.PowerExpression | 2_syntactic_analysis/syntactic_analyser.py:449-456 | '**' takes the whole power expression after it as its right operand (right grouping) and none follows |
| Parsing.UnaryExpression | 2_syntactic_analysis/syntactic_analyser.py:458-464 | leading signs over a primary expression give a well-typed arithmetic node |
| Parsing.PrimaryExpression | 2_syntactic_analysis/syntactic_analyser.py:466-518 | a literal, identifier, call or parenthesised arithmetic expression, a well-typed arithmetic node |
| Parsing.FunctionCall | 2_syntactic_analysis/syntactic_analyser.py:241-250 | a call starts at an identifier and names that identifier |
| ParsingProperties.AdditiveUnfold | 2_syntactic_analysis/syntactic_analyser.py:428-432 | one round of the additive loop is its operator and one multiplicative operand, continuing from the node they build |
| ParsingProperties.AdditiveOperandFails | 2_syntactic_analysis/syntactic_analyser.py:428-432 | a round whose operand fails fails the whole loop with that error |
| ParsingProperties.AdditiveRestKeepsLeft | 2_syntactic_analysis/syntactic_analyser.py:426-433 | the additive loop only ever builds on top of the operand it started with |
| ParsingProperties.AdditiveGroupsLeft | 2_syntactic_analysis/syntactic_analyser.py:426-433 | '+' and '-' group to the left: the first operator's node lies on the left spine of the result |
| ParsingProperties.MultiplicativeUnfold | 2_syntactic_analysis/syntactic_analyser.py:437-446 | one round of the multiplicative loop is its operator and one power-level operand |
| ParsingProperties.MultiplicativeOperandFails | 2_syntactic_analysis/syntactic_analyser.py:437-446 | a round whose operand fails fails the whole loop with that error |
| ParsingProperties.MultiplicativeRestKeepsLeft | 2_syntactic_analysis/syntactic_analyser.py:435-447 | the multiplicative loop only ever builds on top of the operand it started with |
| ParsingProperties.MultiplicativeGroupsLeft | 2_syntactic_analysis/syntactic_analyser.py:435-447 | '*', '/', '//' and '%' group to the left |
| ParsingProperties.NotNotRejected | 2_syntactic_analysis/syntactic_analyser.py:381-401 | `not not x` is a syntax error, because `not` applies to a primary boolean expression only |
| ParsingProperties.LexedFromTokenize | src/lexical_analysis/lexical_analyzer.py:316-323 | when `tokenize` succeeds, the stream the parser reads token by token is the same tokens in the same order |
| ParsingProperties.LexedFromTokenizeFailure | src/lexical_analysis/lexical_analyzer.py:316-323 | when `tokenize` fails, the token-by-token stream ends with the same error |
| ParsingProperties.StatementsNeedSeparators | 2_syntactic_analysis/syntactic_analyser.py:105-112 | two statements on one line, with neither NEWLINE nor '}' after the first, make the block fail |
| SyntacticAnalysis.LexedFromStep | 2_syntactic_analysis/syntactic_analyser.py:61-65 | one more `next_token` call puts its result in front of the stream read from where it leaves the cursor |
| SyntacticAnalysis.AdvanceSucceeds | 2_syntactic_analysis/syntactic_analyser.py:61-65 | a successful `next_token` call reads the stream's next token and moves the cursor with the parser state |
| SyntacticAnalysis.AdvanceFails | 2_syntactic_analysis/syntactic_analyser.py:61-65 | a failing `next_token` call is the failure the stream holds next |
| SyntacticAnalysis.NextTokenAtEnd | src/lexical_analysis/lexical_analyzer.py:265-266 | at the end of the text the scanner keeps returning the same EOF token and stays where it is |
| SyntacticAnalysis.SyntacticAnalyzer.Create | 2_syntactic_analysis/syntactic_analyser.py:47-49 | the constructor reads the first token; a lexical error there is its failure, and otherwise the parser starts at state 0 of the stream |
| SyntacticAnalysis.SyntacticAnalyzer.Consume | 2_syntactic_analysis/syntactic_analyser.py:61-70 | result and new state are those of `Parsing.Consume` |
| SyntacticAnalysis.SyntacticAnalyzer.PeekNextToken | 2_syntactic_analysis/syntactic_analyser.py:72-85 | the result is `Parsing.PeekNextToken`, and on success the scanner's position, character, line and column are restored |
| SyntacticAnalysis.SyntacticAnalyzer.IdentifierRule | 2_syntactic_analysis/syntactic_analyser.py:349-351 | result and new parser state are those of `Parsing.IdentifierRule` |
| SyntacticAnalysis.SyntacticAnalyzer.TypeRule | 2_syntactic_analysis/syntactic_analyser.py:332-347 | result and new parser state are those of `Parsing.TypeRule` |
| SyntacticAnalysis.SyntacticAnalyzer.IdentifierList | 2_syntactic_analysis/syntactic_analyser.py:184-189 | result and new parser state are those of `Parsing.IdentifierList` |
| SyntacticAnalysis.SyntacticAnalyzer.Parse | 2_syntactic_analysis/syntactic_analyser.py:51-59 | result and new parser state are those of `Parsing.Parse` |
| SyntacticAnalysis.SyntacticAnalyzer.ProgramRule | 2_syntactic_analysis/syntactic_analyser.py:87-88 | result and new parser state are those of `Parsing.ProgramRule` |
| SyntacticAnalysis.SyntacticAnalyzer.BlockRule | 2_syntactic_analysis/syntactic_analyser.py:90-115 | result and new parser state are those of `Parsing.BlockRule` |
| SyntacticAnalysis.SyntacticAnalyzer.BlockStatements | 2_syntactic_analysis/syntactic_analyser.py:98-113 | result and new parser state are those of `Parsing.BlockStatements (from no statements)` |
| SyntacticAnalysis.SyntacticAnalyzer.StatementRule | 2_syntactic_analysis/syntactic_analyser.py:117-148 | result and new parser state are those of `Parsing.StatementRule` |
| SyntacticAnalysis.SyntacticAnalyzer.ControlStatement | 2_syntactic_analysis/syntactic_analyser.py:131-148 | result and new parser state are those of `Parsing.StatementRule` |
| SyntacticAnalysis.SyntacticAnalyzer.VariableDeclaration | 2_syntactic_analysis/syntactic_analyser.py:150-166 | result and new parser state are those of `Parsing.VariableDeclaration` |
| SyntacticAnalysis.SyntacticAnalyzer.ConstantDeclaration | 2_syntactic_analysis/syntactic_analyser.py:168-182 | result and new parser state are those of `Parsing.ConstantDeclaration` |
| SyntacticAnalysis.SyntacticAnalyzer.Initializers | 2_syntactic_analysis/syntactic_analyser.py:156-164 | result and new parser state are those of `Parsing.Initializers` |
| SyntacticAnalysis.SyntacticAnalyzer.ExpressionList | 2_syntactic_analysis/syntactic_analyser.py:191-196 | result and new parser state are those of `Parsing.ExpressionList` |
| SyntacticAnalysis.SyntacticAnalyzer.ParenthesisedArguments | 2_syntactic_analysis/syntactic_analyser.py:241-269 | result and new parser state are those of `Parsing.ParenthesisedArguments` |
| SyntacticAnalysis.SyntacticAnalyzer.FunctionDeclaration | 2_syntactic_analysis/syntactic_analyser.py:198-210 | result and new parser state are those of `Parsing.FunctionDeclaration` |
| SyntacticAnalysis.SyntacticAnalyzer.ProcedureDeclaration | 2_syntactic_analysis/syntactic_analyser.py:212-223 | result and new parser state are those of `Parsing.ProcedureDeclaration` |
| SyntacticAnalysis.SyntacticAnalyzer.Header | 2_syntactic_analysis/syntactic_analyser.py:198-207 | result and new parser state are those of `Parsing.Header` |
| SyntacticAnalysis.SyntacticAnalyzer.ParenthesisedParameters | 2_syntactic_analysis/syntactic_analyser.py:201-207 | result and new parser state are those of `Parsing.ParenthesisedParameters` |
| SyntacticAnalysis.SyntacticAnalyzer.ParameterList | 2_syntactic_analysis/syntactic_analyser.py:225-230 | result and new parser state are those of `Parsing.ParameterList` |
| SyntacticAnalysis.SyntacticAnalyzer.ParameterRule | 2_syntactic_analysis/syntactic_analyser.py:232-235 | result and new parser state are those of `Parsing.ParameterRule` |
| SyntacticAnalysis.SyntacticAnalyzer.ProcedureCall | 2_syntactic_analysis/syntactic_analyser.py:252-262 | result and new parser state are those of `Parsing.ProcedureCall` |
| SyntacticAnalysis.SyntacticAnalyzer.AssignmentStatement | 2_syntactic_analysis/syntactic_analyser.py:271-275 | result and new parser state are those of `Parsing.AssignmentStatement` |
| SyntacticAnalysis.SyntacticAnalyzer.GiveStatement | 2_syntactic_analysis/syntactic_analyser.py:277-281 | result and new parser state are those of `Parsing.GiveStatement` |
| SyntacticAnalysis.SyntacticAnalyzer.ShowStatement | 2_syntactic_analysis/syntactic_analyser.py:283-285 | result and new parser state are those of `Parsing.ShowStatement` |
| SyntacticAnalysis.SyntacticAnalyzer.IfStatement | 2_syntactic_analysis/syntactic_analyser.py:287-300 | result and new parser state are those of `Parsing.IfStatement` |
| SyntacticAnalysis.SyntacticAnalyzer.OptionalElifs | 2_syntactic_analysis/syntactic_analyser.py:302-306 | result and new parser state are those of `Parsing.OptionalElifs` |
| SyntacticAnalysis.SyntacticAnalyzer.ElifRule | 2_syntactic_analysis/syntactic_analyser.py:308-312 | result and new parser state are those of `Parsing.ElifRule` |
| SyntacticAnalysis.SyntacticAnalyzer.OptionalElse | 2_syntactic_analysis/syntactic_analyser.py:314-316 | result and new parser state are those of `Parsing.OptionalElse` |
| SyntacticAnalysis.SyntacticAnalyzer.WhileStatement | 2_syntactic_analysis/syntactic_analyser.py:318-322 | result and new parser state are those of `Parsing.WhileStatement` |
| SyntacticAnalysis.SyntacticAnalyzer.BooleanExpression | 2_syntactic_analysis/syntactic_analyser.py:353-357 | result and new parser state are those of `Parsing.BooleanExpression` |
| SyntacticAnalysis.SyntacticAnalyzer.LogicalOrExpression | 2_syntactic_analysis/syntactic_analyser.py:359-368 | result and new parser state are those of `Parsing.LogicalOrExpression` |
| SyntacticAnalysis.SyntacticAnalyzer.LogicalAndExpression | 2_syntactic_analysis/syntactic_analyser.py:370-379 | result and new parser state are those of `Parsing.LogicalAndExpression` |
| SyntacticAnalysis.SyntacticAnalyzer.LogicalNotExpression | 2_syntactic_analysis/syntactic_analyser.py:381-388 | result and new parser state are those of `Parsing.LogicalNotExpression` |
| SyntacticAnalysis.SyntacticAnalyzer.PrimaryBooleanExpression | 2_syntactic_analysis/syntactic_analyser.py:390-401 | result and new parser state are those of `Parsing.PrimaryBooleanExpression` |
| SyntacticAnalysis.SyntacticAnalyzer.ComparisonExpression | 2_syntactic_analysis/syntactic_analyser.py:403-421 | result and new parser state are those of `Parsing.ComparisonExpression` |
| SyntacticAnalysis.SyntacticAnalyzer.ArithmeticExpression | 2_syntactic_analysis/syntactic_analyser.py:423-424 | result and new parser state are those of `Parsing.ArithmeticExpression` |
| SyntacticAnalysis.SyntacticAnalyzer.AdditiveExpression | 2_syntactic_analysis/syntactic_analyser.py:426-433 | result and new parser state are those of `Parsing.AdditiveExpression` |
| SyntacticAnalysis.SyntacticAnalyzer.MultiplicativeExpression | 2_syntactic_analysis/syntactic_analyser.py:435-447 | result and new parser state are those of `Parsing.MultiplicativeExpression` |
| SyntacticAnalysis.SyntacticAnalyzer.PowerExpression | 2_syntactic_analysis/syntactic_analyser.py:449-456 | result and new parser state are those of `Parsing.PowerExpression` |
| SyntacticAnalysis.SyntacticAnalyzer.UnaryExpression | 2_syntactic_analysis/syntactic_analyser.py:458-464 | result and new parser state are those of `Parsing.UnaryExpression` |
| SyntacticAnalysis.SyntacticAnalyzer.PrimaryExpression | 2_syntactic_analysis/syntactic_analyser.py:466-518 | result and new parser state are those of `Parsing.PrimaryExpression` |
| SyntacticAnalysis.SyntacticAnalyzer.IdentifierOrCall | 2_syntactic_analysis/syntactic_analyser.py:481-504 | result and new parser state are those of `Parsing.PrimaryExpression` at an identifier; on an error the scanner cursor is put back first |
| SyntacticAnalysis.SyntacticAnalyzer.FunctionCall | 2_syntactic_analysis/syntactic_analyser.py:241-250 | result and new parser state are those of `Parsing.FunctionCall` |
| SyntacticAnalysis.ParseSource | 2_syntactic_analysis/syntactic_analyser.py:47-59 | the tree or error of the whole text-to-tree pipeline is `Parsing.ParseSource` |
| SymbolTable.BuiltInScope | _3_semantic_analysis/symbol_table.py:138-172 | a level-1 scope holds exactly the three built-in types, each under its own name; every deeper scope starts empty |
| SymbolTable.DefineOnlyItsKey | _3_semantic_analysis/symbol_table.py:174-175 | `define` sets the entry of the symbol's identifier and leaves every other entry as it was |
| SymbolTable.LookupInnermost | _3_semantic_analysis/symbol_table.py:177-183 | a found symbol comes from the innermost scope that has the name, and no scope inside it has the name |
| SymbolTable.LookupNone | _3_semantic_analysis/symbol_table.py:177-183 | a lookup comes back empty exactly when no scope of the chain has the name |
| SymbolTable.DefineAll | _3_semantic_analysis/symbol_table.py:174-175 | defining symbols in turn keeps every earlier key and leaves the last symbol under its own identifier; `SemanticProperties.DefineAllKeys` states that exactly their identifiers are added |
| SymbolTable.LookupCurrent | _3_semantic_analysis/symbol_table.py:177-183 | a current-scope-only lookup finds a symbol exactly when the scope has the name, and it is the one stored there |
| SymbolTable.LookupChain | _3_semantic_analysis/symbol_table.py:177-183 | a found symbol is stored under the name in some scope of the chain; `SymbolTable.LookupInnermost` and `SymbolTable.LookupNone` say which one and when none is |
| SymbolTable.Shadowing | _3_semantic_analysis/symbol_table.py:177-180 | an inner scope that has the name hides every outer binding of it |
| SymbolTable.LookupSkipsScope | _3_semantic_analysis/symbol_table.py:181-182 | a scope that lacks the name defers to the scopes around it |
| SymbolTable.ScopedSymbolTable.Chain | _3_semantic_analysis/symbol_table.py:129-155 | the chain of scopes from the outermost to this one is never empty, ends with this scope, and has length 1 exactly when there is no enclosing scope |
| SymbolTable.ScopedSymbolTable.constructor | _3_semantic_analysis/symbol_table.py:144-158 | a new scope has the given name, type, level and enclosing scope, starts with the built-ins at level 1, and extends the enclosing chain by one scope |
| SymbolTable.ScopedSymbolTable.Define | _3_semantic_analysis/symbol_table.py:174-175 | the scope's symbols gain or replace the entry of the symbol's identifier, and the chain changes only in its innermost scope |
| SymbolTable.ScopedSymbolTable.EnclosingChain | _3_semantic_analysis/symbol_table.py:181-182 | the enclosing scope's chain is this chain without its last scope |
| SymbolTable.ScopedSymbolTable.Lookup | _3_semantic_analysis/symbol_table.py:177-183 | current-scope-only lookups see only this scope's symbols; other lookups search the chain from the inside out |
| SymbolTable.DefineInnermost | _3_semantic_analysis/symbol_table.py:174-175 | defining in the innermost scope leaves the outer scopes alone |
| SymbolTable.DefineThenLookup | _3_semantic_analysis/symbol_table.py:174-183 | after a definition the name resolves to the new symbol, and every other name resolves as before |
| Semantics.Enter | _3_semantic_analysis/semantic_analyzer.py:354-365 | entering a scope pushes exactly one new scope on the chain and keeps the chain below it |
| Semantics.Exit | _3_semantic_analysis/semantic_analyzer.py:367-369 | leaving a scope never empties the chain |
| Semantics.ParameterSymbols | _3_semantic_analysis/semantic_analyzer.py:76-79 | one variable symbol per parameter, in order, with the parameter's name and type; none for an absent list |
| Semantics.VisitBlock | _3_semantic_analysis/semantic_analyzer.py:37-39 | a passing block changes the symbols of the current scope only |
| Semantics.VisitStatements | _3_semantic_analysis/semantic_analyzer.py:37-39 | a passing run of statements changes the symbols of the current scope only |
| Semantics.VisitNested | _3_semantic_analysis/semantic_analyzer.py:229-270 | a passing nested block leaves the chain exactly as before: the scope it entered is left again |
| Semantics.VisitStatement | _3_semantic_analysis/semantic_analyzer.py:41-307 | a passing statement changes the symbols of the current scope only |
| Semantics.VisitLoopControl | _3_semantic_analysis/semantic_analyzer.py:287-307 | a passing skip or stop changes nothing |
| Semantics.VisitSubroutineDeclaration | _3_semantic_analysis/semantic_analyzer.py:68-113 | a passing function or procedure declaration changes the symbols of the current scope only |
| Semantics.VisitAssignment | _3_semantic_analysis/semantic_analyzer.py:115-133 | a passing assignment changes nothing |
| Semantics.VisitProcedureCall | _3_semantic_analysis/semantic_analyzer.py:160-183 | a passing procedure call changes nothing |
| Semantics.VisitIf | _3_semantic_analysis/semantic_analyzer.py:229-241 | a passing if statement leaves the chain as it was |
| Semantics.VisitElif | _3_semantic_analysis/semantic_analyzer.py:243-251 | a passing elif branch leaves the chain as it was |
| Semantics.VisitElifs | _3_semantic_analysis/semantic_analyzer.py:238-239 | passing elif branches leave the chain as it was |
| Semantics.VisitElse | _3_semantic_analysis/semantic_analyzer.py:253-260 | a passing else branch leaves the chain as it was |
| Semantics.VisitWhile | _3_semantic_analysis/semantic_analyzer.py:262-270 | a passing while statement leaves the chain as it was |
| Semantics.DeclareVariables | _3_semantic_analysis/semantic_analyzer.py:41-53 | a passing variable declaration changes the symbols of the current scope only |
| Semantics.DeclareVariable | _3_semantic_analysis/semantic_analyzer.py:43-53 | a passing identifier is defined as a variable of the declared type in the current scope and nowhere else |
| Semantics.DeclareConstants | _3_semantic_analysis/semantic_analyzer.py:55-66 | a passing constant declaration changes the symbols of the current scope only |
| Semantics.DeclareConstant | _3_semantic_analysis/semantic_analyzer.py:57-66 | a passing identifier is defined as a constant of the declared type in the current scope |
| Semantics.NearestSubroutineFrom | _3_semantic_analysis/semantic_analyzer.py:186-191 | the scope found is a function or procedure scope with none inside it; nothing is found exactly when there is none |
| Semantics.NearestSubroutineAt | _3_semantic_analysis/semantic_analyzer.py:186-191 | a function or procedure scope with no other one inside it is the one the search finds |
| Semantics.VisitExpression | _3_semantic_analysis/semantic_analyzer.py:309-352 | an expression can only fail with an undeclared name, a call of a non-function or a wrong argument count; an identifier passes exactly when it resolves; a call passes only for a name resolving to a function; literals always pass |
| Semantics.CheckArguments | _3_semantic_analysis/semantic_analyzer.py:148-158 | a call whose argument count differs from the parameter count is the wrong-number-of-arguments error; a passing call has every argument passing |
| Semantics.VisitExpressions | _3_semantic_analysis/semantic_analyzer.py:157-158 | a run of arguments passes exactly when each of them passes, and fails only with an expression error |
| Semantics.VisitGive | _3_semantic_analysis/semantic_analyzer.py:185-224 | a give outside every function and procedure is the wrong-symbol-type error; an empty-give error means no value was given, a procedure-giving-value error means one was; a passing give lies inside a function or procedure scope that is not the outermost |
| Semantics.Analyze | _3_semantic_analysis/semantic_analyzer.py:20-35 | an accepted program leaves one scope, the level-1 global program scope, still holding the three built-in types |
| SemanticProperties.GlobalScope | _3_semantic_analysis/semantic_analyzer.py:20-23 | the analysis starts in one level-1 program scope named "global" that holds the built-in types |
| SemanticProperties.EnterThenExit | _3_semantic_analysis/semantic_analyzer.py:354-369 | entering a scope and leaving it gives back the chain one started from |
| SemanticProperties.ExitAtRoot | _3_semantic_analysis/semantic_analyzer.py:367-369 | the outermost scope is never left |
| SemanticProperties.DefineAllKeys | _3_semantic_analysis/semantic_analyzer.py:363-364 | defining a list of symbols adds exactly their identifiers to the keys |
| SemanticProperties.DefineAllDistinct | _3_semantic_analysis/semantic_analyzer.py:363-364 | a parameter whose name no later parameter repeats is defined under its own name |
| SemanticProperties.DefineAllKeeps | _3_semantic_analysis/semantic_analyzer.py:363-364 | a key no defined symbol names keeps its entry |
| SemanticProperties.EnteredScope | _3_semantic_analysis/semantic_analyzer.py:354-365 | a child scope is one level deeper, has the given name and type, and holds exactly the parameters' names |
| SemanticProperties.DeclareOneVariable | _3_semantic_analysis/semantic_analyzer.py:41-53 | a declared variable is rejected as a duplicate exactly when the current scope has the name, whatever the outer scopes hold |
| SemanticProperties.RedeclarationShadows | _3_semantic_analysis/semantic_analyzer.py:41-53 | a name from an outer scope may be declared again in the current one, and then resolves to the new symbol |
| SemanticProperties.VariablesDeclared | _3_semantic_analysis/semantic_analyzer.py:41-53 | a passing declaration's names were new to the current scope and distinct, and each is bound to a variable of the declared type |
| SemanticProperties.ConstantWithoutExpression | _3_semantic_analysis/semantic_analyzer.py:55-66 | a constant with no expression for its name fails at that name |
| SemanticProperties.FunctionDeclared | _3_semantic_analysis/semantic_analyzer.py:68-92 | a function declaration passes exactly when its name is new to the current scope and its body passes in a function scope entered after the symbol was defined; afterwards only that symbol is added |
| SemanticProperties.ProcedureDeclared | _3_semantic_analysis/semantic_analyzer.py:94-113 | the same for procedures |
| SemanticProperties.SubroutineVisibleInBody | _3_semantic_analysis/semantic_analyzer.py:81-91 | inside the body the subroutine's own name resolves to it unless a parameter has that name |
| SemanticProperties.ExpressionPasses | _3_semantic_analysis/semantic_analyzer.py:309-352 | an expression passes exactly when every name it uses resolves and every call it makes is of a function taking that many arguments |
| SemanticProperties.ExpressionsPass | _3_semantic_analysis/semantic_analyzer.py:157-158 | a list of expressions passes exactly when all their references resolve |
| SemanticProperties.IdentifierPasses | _3_semantic_analysis/semantic_analyzer.py:309-314 | an identifier passes exactly when some scope of the chain has the name |
| SemanticProperties.CallPasses | _3_semantic_analysis/semantic_analyzer.py:135-158 | a passing call names a function whose parameter count is the argument count |
| SemanticProperties.ProcedureCallPasses | _3_semantic_analysis/semantic_analyzer.py:160-183 | a procedure call passes exactly when its name resolves to a procedure with as many parameters as arguments and its arguments pass; it changes nothing |
| SemanticProperties.AssignmentOutcome | _3_semantic_analysis/semantic_analyzer.py:115-133 | undeclared, constant and non-variable targets fail with their own codes; a variable target passes exactly when the expression does |
| SemanticProperties.GiveLegal | _3_semantic_analysis/semantic_analyzer.py:185-224 | a passing give lies below a function or procedure scope whose symbol is a function when the give has a value and a procedure when it has none |
| SemanticProperties.GiveOutside | _3_semantic_analysis/semantic_analyzer.py:193-197 | with no function or procedure scope on the chain every give is rejected |
| SemanticProperties.GiveInFunction | _3_semantic_analysis/semantic_analyzer.py:207-213 | in a function body an empty give is rejected and a give of an expression passes exactly when the expression does |
| SemanticProperties.GiveInProcedure | _3_semantic_analysis/semantic_analyzer.py:214-219 | in a procedure body a give with a value is rejected and one without passes |
| SemanticProperties.SkipNeedsWhile | _3_semantic_analysis/semantic_analyzer.py:287-296 | skip passes exactly when some scope on the chain is a while block, and changes nothing |
| SemanticProperties.StopNeedsWhile | _3_semantic_analysis/semantic_analyzer.py:298-307 | stop passes exactly when some scope on the chain is a while block, and changes nothing |
| SemanticProperties.SkipAtTopLevel | _3_semantic_analysis/semantic_analyzer.py:287-296 | at the top level of a program skip is rejected |
| SemanticProperties.SkipAcceptedInSubroutineInWhile | _3_semantic_analysis/semantic_analyzer.py:287-296 | the walk for skip passes through procedure scopes, so a skip in a procedure declared inside a while block is accepted |
| SemanticAnalysis.AnalyzeProgram | _3_semantic_analysis/semantic_analyzer.py:20-35 | a fresh analyzer's verdict on a program is `Semantics.Analyze`: both pass, or both fail with the same error |
| SemanticAnalysis.SubroutineFound | _3_semantic_analysis/semantic_analyzer.py:186-191 | the scope where the give walk stops is the one `Semantics.NearestSubroutine` finds |
| SemanticAnalysis.NoSubroutineFound | _3_semantic_analysis/semantic_analyzer.py:186-193 | a give walk that finds nothing agrees with the specification's search |
| SemanticAnalysis.WhileFound | _3_semantic_analysis/semantic_analyzer.py:287-296 | the skip and stop walk finds a scope exactly when the chain holds a while block |
| SemanticAnalysis.SemanticAnalyzer.constructor | _3_semantic_analysis/semantic_analyzer.py:20-23 | the analyzer starts in the level-1 program scope "global" |
| SemanticAnalysis.SemanticAnalyzer.Analyze | _3_semantic_analysis/semantic_analyzer.py:31-35 | same outcome as `Semantics.VisitBlock` of the program's block, and on success the resulting chain |
| SemanticAnalysis.SemanticAnalyzer.EnterScope | _3_semantic_analysis/semantic_analyzer.py:354-365 | a fresh child of the current scope becomes current, and the chain is `Semantics.Enter` of the old one |
| SemanticAnalysis.SemanticAnalyzer.DefineParameters | _3_semantic_analysis/semantic_analyzer.py:363-364 | each parameter is defined, in order, in the new scope |
| SemanticAnalysis.SemanticAnalyzer.ExitScope | _3_semantic_analysis/semantic_analyzer.py:367-369 | the enclosing scope becomes current unless there is none, and the chain is `Semantics.Exit` of the old one |
| SemanticAnalysis.SemanticAnalyzer.VisitNestedBlock | _3_semantic_analysis/semantic_analyzer.py:236-237 | same outcome as `Semantics.VisitNested`, and on success the same current scope and chain as before |
| SemanticAnalysis.SemanticAnalyzer.VisitBlock | _3_semantic_analysis/semantic_analyzer.py:37-39 | same outcome as `Semantics.VisitBlock`, and on success the chain it gives |
| SemanticAnalysis.SemanticAnalyzer.VisitStatements | _3_semantic_analysis/semantic_analyzer.py:38-39 | same outcome as `Semantics.VisitStatements`, and on success the chain it gives |
| SemanticAnalysis.SemanticAnalyzer.VisitStatement | _2_syntactic_analysis/ast.py:10-11 | same outcome as `Semantics.VisitStatement`, and on success the chain it gives |
| SemanticAnalysis.SemanticAnalyzer.VisitSimpleStatement | _3_semantic_analysis/semantic_analyzer.py:41-227 | same outcome as `Semantics.VisitStatement`, and on success the chain it gives |
| SemanticAnalysis.SemanticAnalyzer.VisitControlStatement | _3_semantic_analysis/semantic_analyzer.py:229-307 | same outcome as `Semantics.VisitStatement`, and on success the chain it gives |
| SemanticAnalysis.SemanticAnalyzer.VisitVariableDeclaration | _3_semantic_analysis/semantic_analyzer.py:41-53 | same outcome as `Semantics.DeclareVariables`, and on success the chain it gives |
| SemanticAnalysis.SemanticAnalyzer.DeclareVariable | _3_semantic_analysis/semantic_analyzer.py:43-53 | same outcome as `Semantics.DeclareVariable`, and on success the chain it gives |
| SemanticAnalysis.SemanticAnalyzer.VisitConstantDeclaration | _3_semantic_analysis/semantic_analyzer.py:55-66 | same outcome as `Semantics.DeclareConstants`, and on success the chain it gives |
| SemanticAnalysis.SemanticAnalyzer.DeclareConstant | _3_semantic_analysis/semantic_analyzer.py:57-66 | same outcome as `Semantics.DeclareConstant`, and on success the chain it gives |
| SemanticAnalysis.SemanticAnalyzer.VisitSubroutineDeclaration | _3_semantic_analysis/semantic_analyzer.py:68-113 | same outcome as `Semantics.VisitSubroutineDeclaration`, and on success the chain it gives |
| SemanticAnalysis.SemanticAnalyzer.VisitIfStatement | _3_semantic_analysis/semantic_analyzer.py:229-241 | same outcome as `Semantics.VisitIf`, and on success the chain it gives |
| SemanticAnalysis.SemanticAnalyzer.VisitElifs | _3_semantic_analysis/semantic_analyzer.py:238-239 | same outcome as `Semantics.VisitElifs`, and on success the chain it gives |
| SemanticAnalysis.SemanticAnalyzer.VisitElif | _3_semantic_analysis/semantic_analyzer.py:243-251 | same outcome as `Semantics.VisitElif`, and on success the chain it gives |
| SemanticAnalysis.SemanticAnalyzer.VisitElse | _3_semantic_analysis/semantic_analyzer.py:253-260 | same outcome as `Semantics.VisitElse`, and on success the chain it gives |
| SemanticAnalysis.SemanticAnalyzer.VisitWhileStatement | _3_semantic_analysis/semantic_analyzer.py:262-270 | same outcome as `Semantics.VisitWhile`, and on success the chain it gives |
| SemanticAnalysis.SemanticAnalyzer.VisitAssignmentStatement | _3_semantic_analysis/semantic_analyzer.py:115-133 | same outcome as `Semantics.VisitAssignment` |
| SemanticAnalysis.SemanticAnalyzer.VisitProcedureCall | _3_semantic_analysis/semantic_analyzer.py:160-183 | same outcome as `Semantics.VisitProcedureCall` |
| SemanticAnalysis.SemanticAnalyzer.InnermostOfType | _3_semantic_analysis/semantic_analyzer.py:186-191 | the walk outwards returns the innermost scope of one of the given types, or none exactly when the chain has no such scope |
| SemanticAnalysis.SemanticAnalyzer.VisitGiveStatement | _3_semantic_analysis/semantic_analyzer.py:185-224 | the result is `Semantics.VisitGive` |
| SemanticAnalysis.SemanticAnalyzer.VisitLoopControl | _3_semantic_analysis/semantic_analyzer.py:287-307 | same outcome as `Semantics.VisitLoopControl` |
| SemanticAnalysis.SemanticAnalyzer.VisitExpression | _3_semantic_analysis/semantic_analyzer.py:309-352 | the result is `Semantics.VisitExpression`, and nothing changes |
| SemanticAnalysis.SemanticAnalyzer.CheckArguments | _3_semantic_analysis/semantic_analyzer.py:148-158 | the result is `Semantics.CheckArguments` |
| SemanticAnalysis.SemanticAnalyzer.VisitArguments | _3_semantic_analysis/semantic_analyzer.py:157-158 | the result is `Semantics.VisitExpressions` |
| CallStacks.NewFrame | _4_interpretation/call_stack.py:17-23 | a new record keeps the name, type and level it is given and has no members |
| CallStacks.SetMember | _4_interpretation/call_stack.py:33-34 | `record[k] = v` keeps the record's name, type and level, adds k to the keys, maps k to v and keeps every other member's value |
| CallStacks.GetMember | _4_interpretation/call_stack.py:39-40 | `get` finds a value exactly for a key of the record, and it is the stored one |
| CallStacks.PushFrame | _4_interpretation/call_stack.py:49-50 | a push adds exactly one record, on top, and keeps the records below |
| CallStacks.PopFrame | _4_interpretation/call_stack.py:52-53 | a pop fails exactly on the empty stack; otherwise the remaining stack with the popped record put back on top is the old stack |
| CallStacks.PeekFrame | _4_interpretation/call_stack.py:55-56 | a peek fails on the empty stack and otherwise returns the top record |
| CallStacks.SetThenGet | _4_interpretation/call_stack.py:33-40 | after `record[k] = v`, `get(k)` is v, every other key reads as before, and name, type and level are kept |
| CallStacks.GetMissing | _4_interpretation/call_stack.py:39-40 | `get` finds nothing exactly for the keys never set |
| CallStacks.PushThenPop | _4_interpretation/call_stack.py:49-56 | last in, first out: after a push, peek and pop see the pushed record and pop gives back the stack as it was |
| CallStacks.PopThenPush | _4_interpretation/call_stack.py:49-53 | popping and pushing the popped record back restores the stack |
| CallStacks.PopAndPeek | _4_interpretation/call_stack.py:52-56 | pop and peek fail exactly on the empty stack and otherwise agree on the top record, pop removing one |
| CallStacks.ActivationRecord.constructor | _4_interpretation/call_stack.py:17-23 | the record's value is a new frame with no members |
| CallStacks.ActivationRecord.Set | _4_interpretation/call_stack.py:33-34 | the record's value is the old one with the member set |
| CallStacks.ActivationRecord.Get | _4_interpretation/call_stack.py:39-40 | the member's value, or none for a missing key |
| CallStacks.FramesOf | _4_interpretation/call_stack.py:43-47 | one frame per record, in the same order |
| CallStacks.CallStack.constructor | _4_interpretation/call_stack.py:46-47 | a new stack is empty |
| CallStacks.CallStack.Push | _4_interpretation/call_stack.py:49-50 | the record goes on top and no record changes |
| CallStacks.CallStack.Pop | _4_interpretation/call_stack.py:52-53 | the top record is removed and returned; an empty stack fails and stays empty |
| CallStacks.CallStack.Peek | _4_interpretation/call_stack.py:55-56 | the top record is returned and left in place; an empty stack fails |
| Interpretation.FloorDivision | _4_interpretation/interpreter.py:335-377 | Python's `//` and `%` as modelled reconstruct the dividend, and the remainder lies between zero and the divisor, with the divisor's sign |
| Interpretation.Repeat | _4_interpretation/interpreter.py:335-377 | `s * n` has length `|s| * n`, and is empty for a count of zero or below |
| Interpretation.Current | _4_interpretation/call_stack.py:43-56 | `peek()` succeeds exactly when the stack is non-empty, returns the top record and changes nothing |
| Interpretation.ApplyBinary | _4_interpretation/interpreter.py:335-377 | a string result comes only from `+` or `*` with a string operand, any other result is a number from numeric operands; `/`, `//` and `%` raise division by zero exactly when the divisor is zero; the invalid-operation error is raised exactly for an unknown operator; `InterpretationProperties.DivModReconstruct`, `SubtractUndoesAdd` and `ConcatenationLength` relate the operators |
| Interpretation.ApplyUnary | _4_interpretation/interpreter.py:379-394 | succeeds exactly for `+` or `-` on a number or boolean, giving the operand's value or its negation; a string fails the `assert` |
| Interpretation.PyEqual | _4_interpretation/interpreter.py:430-451 | `==` is reflexive, and a string equals only the string with the same content |
| Interpretation.Compare | _4_interpretation/interpreter.py:430-451 | succeeds exactly for `==`, `!=`, or an ordering between two numeric values or two strings; an ordering of numbers holds exactly as of their difference; anything else is a `TypeError` or, for an unknown operator, the invalid-operation error; `InterpretationProperties.CompareConverse` relates the operators |
| Interpretation.Truthy | _4_interpretation/interpreter.py:453-465 | a number or boolean is true exactly when it is not zero; `InterpretationProperties.TruthyUnlessDefault` relates truth to the default values |
| Interpretation.NumberLiteral | _4_interpretation/interpreter.py:467-468 | succeeds exactly for a lexeme without '.' that is integer text, with its signed value; a float is not modelled and every other lexeme is `ValueError` |
| Interpretation.StringLiteral | _4_interpretation/interpreter.py:470-471 | `lexeme[1:-1]` is two characters shorter than the lexeme, or empty, and lies between its first and last characters |
| Interpretation.DefaultValue | _4_interpretation/interpreter.py:33-37 | succeeds exactly for `number`, `string` and `boolean`, with a falsy value of the matching type; any other name is a `KeyError` |
| Interpretation.Bind | _4_interpretation/interpreter.py:83-86 | binding a name in one record keeps the stack's height, every other record, the routines and the output, and the record then maps the name to the value |
| Interpretation.BindFrom | _4_interpretation/interpreter.py:145-149 | binding parameters keeps the caller's keys and defines every parameter that has an argument; `InterpretationProperties.BindFromKeys`, `BindFromKeeps` and `BindFromLastWins` give the exact members |
| Interpretation.CalleeFrame | _4_interpretation/interpreter.py:141-149 | the callee's record has the routine's name, the given record type and one level more than the caller's, and holds every member the caller has |
| Interpretation.RunProgram | _4_interpretation/interpreter.py:47-53 | a program that completes yields no given value and leaves the stack no lower; one that fails or lets a signal escape leaves the program's record above the records it found |
| Interpretation.Interpret | _4_interpretation/interpreter.py:39-53 | `interpret` completes without a given value, and a failure or escaping signal leaves the program's record on the stack |
| InterpretationProperties.RunProgramKeepsRecords | _4_interpretation/interpreter.py:47-53 | whatever its outcome, running a program leaves every record it found on the stack unchanged |
| Interpretation.Eval | _4_interpretation/interpreter.py:324-474 | evaluating an expression leaves every record below the current one untouched and never shortens the stack; from a state whose recorded bodies are contained, a completed evaluation leaves the stack as long as before, no signal escapes, and the recorded bodies stay contained |
| Interpretation.EvalLogical | _4_interpretation/interpreter.py:396-417 | `and`/`or` with short-circuit: keeps the outer records, and balances pushes and pops without letting a signal escape |
| Interpretation.EvalBool | _4_interpretation/interpreter.py:476-484 | a condition's evaluation keeps the outer records and balances the stack |
| Interpretation.EvalArguments | _4_interpretation/interpreter.py:141-149 | the argument values, evaluated left to right, keep the outer records and balance the stack |
| Interpretation.EvalFrom | _4_interpretation/interpreter.py:141-149 | evaluating the remaining arguments keeps the outer records and balances the stack |
| Interpretation.Invoke | _4_interpretation/interpreter.py:129-210 | a call completes only for a recorded function or procedure symbol; it keeps the caller's outer records, and when the callee's body is contained it pops exactly the record it pushed |
| Interpretation.CallFunction | _4_interpretation/interpreter.py:129-171 | a function call keeps the outer records and, from a clean state, pops the record it pushed and lets no signal escape; what it returns and when it fails is `InterpretationProperties.FunctionCallOutcome` |
| Interpretation.CallProcedure | _4_interpretation/interpreter.py:173-210 | a procedure call that completes yields no given value; it keeps the outer records and balances the stack; when it fails for giving a value is `InterpretationProperties.ProcedureGivesNoValue` |
| Interpretation.ExecBlock | _4_interpretation/interpreter.py:55-64 | a block keeps the outer records; when every skip and stop in it lies inside a loop it balances the stack, and a signal escapes only from a block inside a loop |
| Interpretation.ExecFrom | _4_interpretation/interpreter.py:55-64 | the statements from the `i`-th on satisfy the same frame and balance guarantees as a block |
| Interpretation.ExecStatement | _4_interpretation/interpreter.py:47-474 | any statement keeps the outer records, and a contained statement balances the stack and lets a signal escape only inside a loop |
| Interpretation.ExecVariableDeclaration | _4_interpretation/interpreter.py:66-74 | declaring variables keeps the outer records and balances the stack without a signal |
| Interpretation.ExecConstantDeclaration | _4_interpretation/interpreter.py:76-81 | declaring constants keeps the outer records and balances the stack without a signal |
| Interpretation.ExecAssignment | _4_interpretation/interpreter.py:83-86 | an assignment keeps the outer records and balances the stack without a signal |
| Interpretation.ExecGive | _4_interpretation/interpreter.py:88-94 | a give keeps the outer records and balances the stack without a signal |
| Interpretation.ExecShow | _4_interpretation/interpreter.py:96-98 | a show keeps the outer records and balances the stack without a signal |
| Interpretation.DeclareVariables | _4_interpretation/interpreter.py:66-74 | binding the remaining identifiers in the `at`-th record keeps every record below it and balances the stack |
| Interpretation.DeclareConstants | _4_interpretation/interpreter.py:76-81 | binding the remaining constants in the `at`-th record keeps every record below it and balances the stack |
| Interpretation.ExecIf | _4_interpretation/interpreter.py:212-226 | an if statement keeps the outer records, and when contained it balances the stack and lets a signal escape only inside a loop |
| Interpretation.ExecElifs | _4_interpretation/interpreter.py:212-226 | the remaining elif branches and the else branch satisfy the same guarantees as the if statement |
| Interpretation.ExecWhile | _4_interpretation/interpreter.py:228-248 | a while loop keeps the outer records, and when its body is contained it balances the stack and catches every skip and stop, so none escapes the loop |
| InterpretationProperties.DivisionByZeroExactly | _4_interpretation/interpreter.py:335-377 | `/`, `//` and `%` raise the division-by-zero runtime error exactly when the divisor is 0 or False |
| InterpretationProperties.SubtractUndoesAdd | _4_interpretation/interpreter.py:335-377 | on numbers and booleans, `+` succeeds and `-` of the same operand gives back the first operand's number |
| InterpretationProperties.ConcatenationLength | _4_interpretation/interpreter.py:335-377 | `+` with a string on either side succeeds with the `str` of the left operand followed by the `str` of the right |
| InterpretationProperties.DivModReconstruct | _4_interpretation/interpreter.py:335-377 | for a non-zero divisor `//` and `%` both succeed, quotient times divisor plus remainder is the dividend, and the remainder has the divisor's sign and is smaller in size |
| InterpretationProperties.TruthyUnlessDefault | _4_interpretation/interpreter.py:33-37 | a value used as a condition (lines 453-465) is true exactly when it differs from the default value of its type |
| InterpretationProperties.NumberLiteralShown | _4_interpretation/interpreter.py:467-468 | the number literal `str(n)` of any integer n evaluates to n, and showing n prints `str(n)` again |
| InterpretationProperties.LexCompareAntisymmetric | _4_interpretation/interpreter.py:430-451 | comparing two strings the other way round gives the opposite order |
| InterpretationProperties.LexCompareZero | _4_interpretation/interpreter.py:430-451 | two strings compare equal from position `i` exactly when their tails from `i` are equal |
| InterpretationProperties.PrefixOrdersFirst | _4_interpretation/interpreter.py:430-451 | a proper prefix of a string orders before it |
| InterpretationProperties.CompareConverse | _4_interpretation/interpreter.py:430-451 | `a < b` is `b > a`, `a <= b` is `b >= a`, `==` is symmetric, and `!=` always succeeds as the negation of `==` |
| InterpretationProperties.StringEqualityIsOrderEquality | _4_interpretation/interpreter.py:430-451 | strings are `==` exactly when both `<=` and `>=` hold between them |
| InterpretationProperties.BindFromKeys | _4_interpretation/interpreter.py:141-149 | the callee's members after binding are the caller's members plus exactly the parameters paired with an argument |
| InterpretationProperties.BindFromKeeps | _4_interpretation/interpreter.py:141-149 | a member that is not a paired parameter keeps its value |
| InterpretationProperties.BindFromLastWins | _4_interpretation/interpreter.py:141-149 | a parameter holds the argument of its last paired position |
| InterpretationProperties.CalleeSees | _4_interpretation/interpreter.py:141-149 | the callee's record has the routine's name, the given record type and one more nesting level, and holds every caller member that no paired parameter hides |
| InterpretationProperties.ParameterBound | _4_interpretation/interpreter.py:141-149 | with distinct parameter names, each parameter paired with an argument holds that argument in the callee's record |
| InterpretationProperties.LogicalConnectives | _4_interpretation/interpreter.py:396-417 | `and`/`or` yield the left value without evaluating the right operand when the left decides, the boolean connective of both values otherwise, and the left operand's failure or signal unchanged |
| InterpretationProperties.GiveEndsBlock | _4_interpretation/interpreter.py:55-64 | once a statement gives a value, appending further statements to the block changes nothing |
| InterpretationProperties.BlockSequence | _4_interpretation/interpreter.py:55-64 | a block that completes without a give followed by more statements runs those statements from the state it reached |
| InterpretationProperties.ExecFromShift | _4_interpretation/interpreter.py:55-64 | running a concatenation of statements from a position past its first part is running the second part |
| InterpretationProperties.DeclaredWithDefault | _4_interpretation/interpreter.py:66-74 | a variable declared without initializer is bound to its type's default in the current record, and an unknown type fails with the state unchanged |
| InterpretationProperties.ContainedProgramBalances | _4_interpretation/interpreter.py:47-53 | a program whose skips and stops lie inside loops of the same body lets no signal escape, and when it completes the call stack is as it was before |
| InterpretationProperties.InterpretEmptiesStack | _4_interpretation/interpreter.py:44-53 | interpreting such a program lets no signal escape and, when it completes, leaves the call stack empty |
| InterpretationProperties.SkipEscapesProgram | _4_interpretation/interpreter.py:318-322 | a skip at the top level of a program escapes `interpret` with the program's record still pushed |
| InterpretationProperties.InvokeRuns | _4_interpretation/interpreter.py:151-155 | once the arguments are evaluated, a call runs the routine's block in the record it pushes; a completed block ends the call with that record popped and the block's flow, and a failed or escaping block ends the call the same way |
| InterpretationProperties.FunctionCallOutcome | _4_interpretation/interpreter.py:151-171 | a function call returns the value its body gives, in the state with its record popped; an empty give fails with `FUNCTION_EMPTY_GIVE`, a body that ends without giving fails with `FUNCTION_NOT_GIVING`, and a body that fails or escapes ends the call the same way |
| InterpretationProperties.ProcedureGivesNoValue | _4_interpretation/interpreter.py:196-210 | a procedure call whose body completes fails with `PROCEDURE_GIVING_VALUE` exactly when the body gives a value, and otherwise completes with its record popped; a body that fails or escapes ends the call the same way |
| InterpretationProperties.UnknownRoutineCrashes | _4_interpretation/interpreter.py:129-139 | calling a name under which no function (or no procedure) is declared fails with the `AttributeError` of reading `identifier` from `None` |
| InterpretationProperties.CallOfLeaveEscapes | _4_interpretation/interpreter.py:173-210 | calling a procedure whose body is a stop pushes its record, and the stop escapes before the pop |
| InterpretationProperties.LoopBodyEscapes | _4_interpretation/interpreter.py:55-64 | a block that declares that procedure and calls it lets the stop escape with the procedure's record on top |
| InterpretationProperties.LoopEndsWithRecordPushed | _4_interpretation/interpreter.py:228-248 | a `while true` loop around that block catches the stop and ends with the procedure's record still pushed |
| InterpretationProperties.StopInProcedureLeavesRecord | _4_interpretation/interpreter.py:47-53 | interpreting that program completes with the program's own record left on the call stack |
| InterpretationProperties.LeaveDeclarationAccepted | _3_semantic_analysis/semantic_analyzer.py:94-113 | the semantic analyzer accepts the procedure declaration whose body is a stop, inside the loop's scope, and defines the procedure there |
| InterpretationProperties.LeaveCallAccepted | _3_semantic_analysis/semantic_analyzer.py:160-183 | the semantic analyzer accepts the call of that procedure without arguments |
| InterpretationProperties.LoopBodyAccepted | _3_semantic_analysis/semantic_analyzer.py:37-39 | the semantic analyzer accepts the loop's body |
| InterpretationProperties.LoopAccepted | _3_semantic_analysis/semantic_analyzer.py:262-270 | the semantic analyzer accepts the loop and restores the global scope chain |
| InterpretationProperties.LoopLeavingThroughProcedureAccepted | _3_semantic_analysis/semantic_analyzer.py:31-35 | the semantic analyzer accepts the whole program whose interpretation leaves a record behind |
| Interpreting.AssignmentSteps | _4_interpretation/interpreter.py:83-86 | an assignment is the evaluation of its expression, whose failure or signal ends it, followed by the store into the record current after the evaluation |
| Interpreting.InvokeSteps | _4_interpretation/interpreter.py:129-210 | a call evaluates its arguments first, and only then looks at the current record and the routine |
| Interpreting.DeclareVariablesStep | _4_interpretation/interpreter.py:66-74 | each identifier's initial value (initializer or type default) is computed and bound before the next identifier is considered, and the target record stays on the stack |
| Interpreting.DeclareConstantsStep | _4_interpretation/interpreter.py:76-81 | each constant's expression is evaluated and bound before the next constant is considered, and the target record stays on the stack |
| Interpreting.IfSteps | _4_interpretation/interpreter.py:212-226 | the if condition is evaluated once; it runs the block when true and goes on to the elifs when false |
| Interpreting.ElifStep | _4_interpretation/interpreter.py:212-226 | each elif condition decides between its block and the next branch |
| Interpreting.WhileStep | _4_interpretation/interpreter.py:228-248 | one iteration: a failing condition fails the loop, a skip signal goes on, a stop or a false condition ends it, otherwise the body runs and its outcome decides |
| Interpreting.Interpret | _4_interpretation/interpreter.py:39-53 | a fresh interpreter running the program reports the outcome of `Interpretation.Interpret` and prints exactly the lines that function's state holds |
| Interpreting.SeedMembers | _4_interpretation/interpreter.py:141-143 | the loop copying the caller's members leaves the callee's members equal to the caller's |
| Interpreting.BindParameters | _4_interpretation/interpreter.py:145-149 | the loop over the zipped parameters and arguments leaves the callee's members equal to `Interpretation.BindFrom` of the old ones |
| Interpreting.Interpreter.constructor | _4_interpretation/interpreter.py:39-42 | a new interpreter is valid and is the empty state of `Interpretation.InitialState` |
| Interpreting.Interpreter.Store | _4_interpretation/call_stack.py:14-40 | writing a member into the record at position `at` is `Interpretation.Bind` on the state, and keeps the interpreter valid |
| Interpreting.Interpreter.VisitProgram | _4_interpretation/interpreter.py:47-53 | running a program reports the outcome and reaches the state of `Interpretation.RunProgram` |
| Interpreting.Interpreter.Eval | _4_interpretation/interpreter.py:324-474 | evaluating an expression reports the outcome and reaches the state of `Interpretation.Eval`, without popping or replacing any record it found |
| Interpreting.Interpreter.EvalIdentifier | _4_interpretation/interpreter.py:324-333 | an identifier's lookup in the current record changes nothing and reports the outcome of `Interpretation.Eval` |
| Interpreting.Interpreter.EvalBinary | _4_interpretation/interpreter.py:335-377 | a binary arithmetic operation agrees with `Interpretation.Eval` |
| Interpreting.Interpreter.EvalUnary | _4_interpretation/interpreter.py:379-394 | a unary arithmetic operation agrees with `Interpretation.Eval` |
| Interpreting.Interpreter.EvalAsBoolean | _4_interpretation/interpreter.py:453-465 | an arithmetic expression used as a boolean agrees with `Interpretation.Eval` |
| Interpreting.Interpreter.EvalNot | _4_interpretation/interpreter.py:419-428 | `not` agrees with `Interpretation.Eval` |
| Interpreting.Interpreter.EvalComparison | _4_interpretation/interpreter.py:430-451 | a comparison agrees with `Interpretation.Eval` |
| Interpreting.Interpreter.EvalLogical | _4_interpretation/interpreter.py:396-417 | `and`/`or` agree with `Interpretation.EvalLogical`, the right operand visited only when the left does not decide |
| Interpreting.Interpreter.EvalBool | _4_interpretation/interpreter.py:476-484 | a condition agrees with `Interpretation.EvalBool` |
| Interpreting.Interpreter.EvalArguments | _4_interpretation/interpreter.py:141-149 | the argument loop agrees with `Interpretation.EvalArguments` |
| Interpreting.Interpreter.Invoke | _4_interpretation/interpreter.py:129-210 | the shared part of both calls, through the pop, agrees with `Interpretation.Invoke` |
| Interpreting.Interpreter.Call | _4_interpretation/interpreter.py:129-210 | a call with its argument values known agrees with the step after the arguments in `Interpreting.InvokeSteps` |
| Interpreting.Interpreter.Open | _4_interpretation/interpreter.py:136-155 | building the callee's record from the current one and running the body push, run and pop it as `Interpretation.CalleeFrame` and the body prescribe |
| Interpreting.Interpreter.Activate | _4_interpretation/interpreter.py:151-155 | pushing a new record, running the block and popping the top record on completion, keeping every record found below |
| Interpreting.Interpreter.NewCallee | _4_interpretation/interpreter.py:141-149 | a new record object whose value is `Interpretation.CalleeFrame` of the caller's |
| Interpreting.Interpreter.Enter | _4_interpretation/call_stack.py:43-56 | `push` appends the record to the stack and its value to the state's frames |
| Interpreting.Interpreter.Leave | _4_interpretation/call_stack.py:43-56 | `pop` removes the top record and the top frame, nothing else |
| Interpreting.Interpreter.CallFunction | _4_interpretation/interpreter.py:129-171 | a function call agrees with `Interpretation.CallFunction` |
| Interpreting.Interpreter.CallProcedure | _4_interpretation/interpreter.py:173-210 | a procedure call agrees with `Interpretation.CallProcedure` |
| Interpreting.Interpreter.ExecBlock | _4_interpretation/interpreter.py:55-64 | a block agrees with `Interpretation.ExecBlock` |
| Interpreting.Interpreter.ExecStatement | _4_interpretation/interpreter.py:47-322 | the visit of any statement agrees with `Interpretation.ExecStatement` |
| Interpreting.Interpreter.ExecVariableDeclaration | _4_interpretation/interpreter.py:66-74 | a variable declaration agrees with `Interpretation.ExecVariableDeclaration` |
| Interpreting.Interpreter.DeclareVariables | _4_interpretation/interpreter.py:66-74 | the loop over the identifiers binds them in the record current at the start, as `Interpretation.DeclareVariables` does |
| Interpreting.Interpreter.DeclareVariable | _4_interpretation/interpreter.py:68-74 | one identifier: on success the rest of the declaration is the rest of `Interpretation.DeclareVariables`, on failure it reports that function's outcome; the target record stays in place |
| Interpreting.Interpreter.ExecConstantDeclaration | _4_interpretation/interpreter.py:76-81 | a constant declaration agrees with `Interpretation.ExecConstantDeclaration` |
| Interpreting.Interpreter.DeclareConstants | _4_interpretation/interpreter.py:76-81 | the loop over the constants binds them in the record current at the start, as `Interpretation.DeclareConstants` does |
| Interpreting.Interpreter.DeclareConstant | _4_interpretation/interpreter.py:77-81 | one constant: on success the rest is the rest of `Interpretation.DeclareConstants`, on failure it reports that function's outcome |
| Interpreting.Interpreter.ExecAssignment | _4_interpretation/interpreter.py:83-86 | an assignment agrees with `Interpretation.ExecAssignment` |
| Interpreting.Interpreter.Assign | _4_interpretation/interpreter.py:85-86 | the store into the current record fails on an empty stack and otherwise binds the name in the top frame |
| Interpreting.Interpreter.ExecGive | _4_interpretation/interpreter.py:88-94 | a give agrees with `Interpretation.ExecGive` |
| Interpreting.Interpreter.ExecShow | _4_interpretation/interpreter.py:96-98 | a show agrees with `Interpretation.ExecShow`, appending one line to the output |
| Interpreting.Interpreter.ExecIf | _4_interpretation/interpreter.py:212-226 | an if statement agrees with `Interpretation.ExecIf` |
| Interpreting.Interpreter.ExecBranches | _4_interpretation/interpreter.py:218-226 | the elif loop and the else branch agree with `Interpretation.ExecElifs` from the first elif |
| Interpreting.Interpreter.TryElif | _4_interpretation/interpreter.py:218-221 | one elif either ends the statement with `Interpretation.ExecElifs`'s outcome or leaves the remaining branches equivalent to the next one |
| Interpreting.Interpreter.ExecWhile | _4_interpretation/interpreter.py:228-248 | the `while True` loop agrees with `Interpretation.ExecWhile`, one unit of fuel per iteration |
| Interpreting.Interpreter.Iterate | _4_interpretation/interpreter.py:231-246 | one iteration either ends the loop with `Interpretation.ExecWhile`'s outcome or leaves the loop equivalent to its run with one unit of fuel less |
| Interpreting.Interpreter.RunBody | _4_interpretation/interpreter.py:237-246 | the body of one iteration and the handling of its skip, stop or give agree with `Interpreting.WhileStep`'s last case |
| Translation.PostfixWords | interpreting/visitors/postfix_translator.py:8-21 | the words of the postfix form, never empty: the words of a binary operation, or of a unary one other than `+`, end with its operator, after at least one word per operand |
| Translation.PrefixWords | interpreting/visitors/prefix_translator.py:6-19 | the words of the prefix form in Polish notation, never empty |
| Translation.JoinAppend | interpreting/visitors/postfix_translator.py:11-14 | joining two non-empty runs of words separates them by one space |
| Translation.PostfixIsJoinedWords | interpreting/visitors/postfix_translator.py:8-24 | the postfix translation is its words joined by single spaces, operands before their operator |
| Translation.Unbracketed | interpreting/visitors/prefix_translator.py:9-19 | removing the parentheses of a text leaves none behind |
| Translation.UnbracketedAppend | interpreting/visitors/prefix_translator.py:9-19 | removing parentheses distributes over concatenation |
| Translation.UnbracketedPlain | interpreting/visitors/prefix_translator.py:6-7 | a text without parentheses is unchanged by their removal |
| Translation.NumberPlain | interpreting/visitors/prefix_translator.py:6-7 | `str` of an integer holds no parenthesis |
| Translation.UnbracketedPieces | interpreting/visitors/prefix_translator.py:9-19 | the brackets vanish and the space stays when parentheses are removed |
| Translation.UnbracketedBinary | interpreting/visitors/prefix_translator.py:9-12 | removing the parentheses of `(op a b)` leaves `op a b` with the operands' own parentheses removed |
| Translation.UnbracketedUnary | interpreting/visitors/prefix_translator.py:14-19 | removing the parentheses of `(op a)` leaves `op a` |
| Translation.PrefixIsBracketedWords | interpreting/visitors/prefix_translator.py:6-22 | without its parentheses, the prefix translation is its Polish-notation words joined by single spaces |
| Translation.Reverse | interpreting/visitors/postfix_translator.py:8-21 | reversing a sequence keeps its length |
| Translation.ReverseAppend | interpreting/visitors/postfix_translator.py:11-14 | the reverse of a concatenation is the reversed parts in swapped order |
| Translation.PostfixMirrorsPrefix | interpreting/visitors/postfix_translator.py:8-24 | the postfix words are the prefix words of the tree with every binary operation's operands swapped, read backwards |
| Translation.PlainWellBracketed | interpreting/visitors/prefix_translator.py:6-7 | a text without parentheses is well bracketed |
| Translation.ConcatWellBracketed | interpreting/visitors/prefix_translator.py:9-12 | the concatenation of well-bracketed texts is well bracketed |
| Translation.WrapWellBracketed | interpreting/visitors/prefix_translator.py:12 | parenthesising a well-bracketed text keeps it well bracketed |
| Translation.BinaryWellBracketed | interpreting/visitors/prefix_translator.py:9-12 | `(op a b)` is well bracketed when its operands are and the operator holds no parenthesis |
| Translation.UnaryWellBracketed | interpreting/visitors/prefix_translator.py:14-19 | `(op a)` is well bracketed when its operand is and the operator holds no parenthesis |
| Translation.PrefixWellBracketed | interpreting/visitors/prefix_translator.py:6-22 | every closing parenthesis of the prefix translation matches an earlier opening one and none is left open |
| Translation.UnaryPlusInvisible | interpreting/visitors/prefix_translator.py:14-19 | a unary `+` leaves no trace in either translation: both equal the translations of the tree without it |
| Translation.PostfixOfMinusOfDifference | interpreting/visitors/postfix_translator.py:8-21 | the postfix form of `-(1 - 2)` is `1 2 - -` |
| Translation.PostfixOfDifferenceWithMinus | interpreting/visitors/postfix_translator.py:8-21 | the postfix form of `1 - (-2)` is `1 2 - -` as well |
| Translation.PrefixesOfTheTwoDiffer | interpreting/visitors/prefix_translator.py:6-19 | the prefix forms of the two trees differ in their fourth character |
| Translation.PostfixConflatesUnaryMinus | interpreting/visitors/postfix_translator.py:16-21 | `-(1 - 2)` and `1 - (-2)` are different trees with the same postfix form and different prefix forms |
| Translation.Prefix | interpreting/visitors/prefix_translator.py:6-22 | the prefix translation is non-empty, and a binary operation or a unary operation other than `+` is parenthesised |
| Translation.Postfix | interpreting/visitors/postfix_translator.py:8-24 | the postfix translation is non-empty, and that of a binary operation is at least two operands, two spaces and its operator long; `Translation.PostfixIsJoinedWords` gives it as its words joined by spaces |

## Left out

- Floating point. Numbers are integers only. A float literal, true division `/` on numbers, and a negative exponent of `**` with a non-zero base end in the `NotModelled` fault. A negative exponent of a zero base ends in `Crash("ZeroDivisionError")`, as Python raises it. `Tokens.NumericValue` keeps a float lexeme as its text. `str` of a float, in `show` and in the translators, is not modelled.
- Python `TypeError`s from mixing types in arithmetic or in an ordering comparison end in `Crash("TypeError")`; the exception's message is not modelled.
- `%` with a string on the left is Python's string formatting; it ends in `NotModelled`. A zero right operand is tested first, so such a `%` by zero still gives the "Modulo by zero" `DIVISION_BY_ZERO` error.
- `for` loops. The for node, its interpretation and its semantic check are not modelled. `ScopeType` has no scope kind for them, and no parser builds one. The `for`, `to` and `step` keywords are still scanned.
- Output. `print` in `show` appends the value's `str` to an output sequence of lines.
- Termination. Every `while` iteration and every call consumes one unit of fuel, and running out of fuel ends in the `OutOfFuel` fault. Programs that need more iterations or deeper calls than the fuel given are not described.
- Tokens.NumericValue: `int()` and `float()` are modelled on an optional sign followed by decimal digits, with at most one point for `float()`. Surrounding whitespace, digit-group underscores, exponents and the `inf`/`nan` spellings, which Python also accepts, are invalid lexemes here; the scanner never produces them.
- Interpretation.NumberLiteral: `int()` of a lexeme is read on the same text shapes as `Tokens.NumericValue`, with the same omissions.
- The scanner reads its single-character table under the name `SINGLE_CHARACTER_LEXEMES`, while tokens.py spells it `SINGLE_CHARACTER_LEXEMS`, which would raise `AttributeError` on the first operator. The model assumes the intended table, `Tokens.SingleCharacterLexemes`.
- Tokens.NumericValue, Tokens.StringValue, Tokens.BooleanValue, Tokens.IdentifierName: these model the bodies of the `numeric_value`, `string_value`, `boolean_value` and `identifier_name` accessors. In tokens.py each accessor is a `cached_property` on a `slots=True` dataclass (_1_lexical_analysis/tokens.py:135, 159, 173, 191, 209, 229). Such an instance has no `__dict__` to cache into, so every access would raise `TypeError` before the body runs. The model assumes the intended accessors. No modelled stage calls them; the interpreter reads the lexeme directly.
- The interpreter imports `RuntimeError` from utils/error_handling.py (_4_interpretation/interpreter.py:15), but that module defines only the base class `Error` (utils/error_handling.py:44), so the import would raise `ImportError`. The interpreter's codes are also spelled without the `RUN_`/`SEM_` prefixes that the module's `ErrorCode` uses (for example `ErrorCode.DIVISION_BY_ZERO` at _4_interpretation/interpreter.py:353, against `RUN_DIVISION_BY_ZERO` at utils/error_handling.py:38), so each raise would otherwise be an `AttributeError`. The model assumes the intended runtime error class and codes: `Interpretation.Fault.RuntimeError` carries an `Interpretation.RuntimeErrorCode`, with one constructor per code the interpreter raises.
- The parser comes from an earlier iteration of the language. Its literal and type token names (`INT_LITERAL`, `FLOAT_LITERAL`, `BOOL_LITERAL`, `INT_TYPE`, ...) are mapped onto the current `NUMBER_LITERAL`, `BOOLEAN_LITERAL`, `NUMBER_TYPE`, `STRING_TYPE` and `BOOLEAN_TYPE`. Its `NodeComparison` is the current `NodeComparisonExpression`, and its `NodeIntegerLiteral` and `NodeFloatLiteral` (2_syntactic_analysis/syntactic_analyser.py:469-475) are both the current `NodeNumberLiteral`.
- The parser reads `token.value` (2_syntactic_analysis/syntactic_analyser.py:351, 393, 471-479, 497), but the current `Token` and `TokenWithLexeme` have no `value` field (_1_lexical_analysis/tokens.py:141-171), so these reads would raise `AttributeError`. The model reads the lexeme of a token that has one, and otherwise its kind's value (`Parsing.TokenValue`).
- The parser saves and restores `lexical_analyzer.current_char` around its lookaheads (2_syntactic_analysis/syntactic_analyser.py:74, 81, 483-503), but the current scanner's `__slots__` only has `current_character` (src/lexical_analysis/lexical_analyzer.py:40), so this too would raise `AttributeError`. The imperative `SyntacticAnalysis.SyntacticAnalyzer` saves and restores the scanner's position, current character, line and column around its lookaheads, as the source does, with `current_char` read as the scanner's `currentCharacter` field (`PeekNextToken`, `IdentifierOrCall`). The functional `Parsing` definitions that specify it read a token sequence the scanner has already produced, so there a lookahead is a read at a later index and nothing is saved or restored.
- Visitor dispatch. The AST's `NodeVisitor.visit` dispatches by double dispatch: it calls `node.accept(self)`, and each node's `accept` calls its own `visit_X`, whose base version raises `NotImplementedError` (_2_syntactic_analysis/ast.py:9-17). The translators' visitor instead looks up `visit_X` with `getattr` (interpreting/visitor.py:9-11). The model replaces both with pattern matching on the node datatype. `Ast.Dispatch` states that `visit` reaches a node's own `visit_X` exactly when the visitor overrides it and raises `NotImplementedError` otherwise; `Ast.VisitorCoverage` states which nodes each visitor handles.
- Error classes. Lexical, syntactic, semantic and runtime errors are datatypes carrying the error code, the message text as the source builds it and, where the source has one, the token. Only the `__str__` formatting of the exception classes (`ClassName: message (token)`, _1_lexical_analysis/tokens.py:125-126) is not modelled.
- Interactive shells, file reading and the command line are not part of this model.
- Superseded iterations of the scanner, parser, analyzer, interpreter and translators, which duplicate or contradict the modelled files, are not part of this model.
