# dcc: a verified model of a small C compiler

dcc compiles one C function over `int` (variables, blocks, `if`/`else`, `?:`, assignment expressions, `&&`/`||`,
32-bit arithmetic and division) to x86-64 assembly. This project models every phase and proves that the phases
together do what C11 says the program does.

The main result is `Compiler.EndToEnd`: for every null-free function without dots in its names that the scope analyzer
accepts, in which no declaration hides a visible name, and whose behaviour C11 defines, running the emitted lines by
program counter on a 32-bit machine with flags, registers and a frame, from *any* machine state and within as many steps as
there are lines, returns the value of the function in `%eax` (0 when it falls off its end), or faults exactly when the
program divides without a quotient. Pseudo-registers are known by their text and jumps go to the text of a label, as in the
printed assembly. `Compiler.Compile` runs lexer, parser, analyzer, TACKY generator, code selection, slot allocation and
printing in order and returns those lines; `Compiler.TextToBehaviour` states the theorem for every source text the phases
take to the end (`Compiler.Compiles`), and `FrontNames.FrontDotless` shows that no name in such a text contains a dot.

The condition on hidden names is exact: `Compiler.SourceExactly` says that a source hides no name *if and only if* every
source with the same blocks and declared names, whose behaviour C11 defines, is compiled to lines that do what C11 says.

How the parts fit together:

| layer | files | what is proved |
|---|---|---|
| characters to tokens | `Names`, `Scanning`, `Lexer`, `LexerCorrect` | round trip, maximal munch, exact keywords and operators, line and column of every token |
| tokens to trees | `Tokens`, `Grammar`, `Parsing`, `Parser`, `ParserCorrect`, `StatementParser`, `Layers`, `RoundTrip`, `Reading`, `SourceText`, `FrontNames` | the parser decides the expression grammar of C11; no token is lost; dangling `else`; minimal parentheses; names read from a text |
| scopes | `Scoping`, `Semantic`, `Renaming`, `Shadowing` | acceptance is well-scopedness; renamed expressions keep their meaning |
| C to TACKY | `Words`, `CSemantics`, `CLaws`, `FlatSemantics`, `SourceCorrect`, `Hiding`, `TackyGen`, `TackyCorrect`, `TackyStatements`, `TackyFrame`, `TackyControl` | meaning is preserved, exactly where nothing is hidden; forward jumps; frame of every expression |
| TACKY to lines | `Asm`, `CodeGen`, `AsmCorrect`, `BackEnd` | selection, allocation and fixups, each a simulation |
| all of it | `Flow`, `Spelled`, `Compiler`, `Counterexamples`, `Example` | one simulation theorem for labelled code; jumps by text; the end-to-end theorem and its converse |

What has to be read as a definition, because the theorems are about it: the C semantics (`CSemantics`; `CLaws` relates its
operators to numbers and to each other as C11 does), the machine (`Asm.Step` and `Asm.Encodable`), the scoping judgement
(`Scoping`), the expression grammar (`Layers`), the statement grammar (`Grammar.EmitStmt`, `Grammar.Proper`) and the
spelling of tokens (`Layers.OperatorText`, `LexerCorrect.Spelling`). `Example` follows one program from its characters to
the value in `%eax`.

Where the source changes state the model does too: `Lexer.Lexer`, `Parser.Parser`, `Semantic.SemanticAnalyzer`,
`TackyGen.Generator` and `CodeGen.CodeGenerator` are classes with the source's fields, and each of their methods is proved
against a function of the old state. The properties are then proved about those functions. An exception of the source is
`Thrown` (or `ok == false`, after which the object is not used).

Facts of the code the model keeps:

- The resolved tree is never used: block items are taken from a result field no visitor assigns, and the driver hands the
  original tree to the generator. TACKY therefore sees the source's own names in one flat name space.
- An operand that is a plain variable, or an assignment, stays a reference and is read when the operator is applied, after
  the right operand has run.
- Any conditional expression may stand to the left of `=`, where C11 6.5.16 asks for a unary expression; scope analysis then
  rejects what is not a variable.
- `return;` and the unchecked operands of `?:` can leave null children (`NullExpr`) in a tree.
- A lone `&` or `|` lexes as `:`, `&|` lexes as `||`, and a `>` is given the text of a `<`.
- The text of `=`, of two-character operators and of invalid tokens is cut out of the source one character early; at the
  very start of a source that throws. Scanning from the end of the source violates an assertion, so a source needs white
  space after its last token.

Two properties one might expect are false of the code, and are stated with the condition under which they hold:

- Meaning can be lost where a declaration hides a visible name: `Counterexamples.ShadowingDiffers` gives a program, read
  from its text and accepted, that returns 1 in C and whose lines return 2. `Hiding.FlatExactly`, `Compiler.CompiledExactly`
  and `Compiler.SourceExactly` say that this is the exact condition: where nothing is hidden (`Scoping.ShadowFree`) every
  program with those scopes is compiled correctly, and where something is hidden `Hiding.WitnessFor` builds one with those
  scopes that is not. A single program that hides a name may still compile correctly by chance. Hiding nothing means that a
  name stands for one variable at every point of the function (`Shadowing.OneNameOneVariable`), and pairwise distinct names
  imply it (`Scoping.DistinctItems`).
- `x + (x = 1)` from `x == 0` computes 2, not 1 (`Counterexamples.LateReadDiffers`, on a program read from its text and
  accepted). C11 6.5 p2 leaves such programs undefined, and so does `CSemantics`. The exact
  condition is syntactic (`SourceCorrect.OrderExactly`): reading `x` late is reading it first, for every strict operator,
  every store and every right operand that assigns the same variables, *if and only if* `x` is not one of them.
  `TackyFrame.WritesExactlyAssigned` says it of the code: the code of the right operand holds a write to `x` if and only if
  the operand assigns it. `SourceCorrect.StrictDefined` is the C11 side, in one direction: without such an assignment the
  operator is undefined only if an operand is.

The C semantics reports as undefined a read of a variable in which nothing was stored (C11 6.3.2.1 p2) and a right operand
that stores into the variable its left operand stands for. Signed overflow wraps around, so nothing is excluded there.

The generator's names are kept in structured form (`Names.Name`, `Names.LabelName`) up to TACKY. From code selection on a
variable is its spelling: pseudo-registers and slots are keyed by text, and the proof of selection needs that no two names
are spelled alike, which holds for names without dots (`Names.SpellInjective`, `TackyFrame.FunctionPlain`). Labels keep their
structure, and `Spelled.RunTextIsRun` shows that jumping by their text is the same run.

## Model

| member | source | states |
|---|---|---|
| `Compiler.EndToEnd` | src/asm.cpp:50-186 | the emitted lines, with variables and labels known by their text, from any machine state, end with the value C11 gives the function, or with a divide fault exactly when the program divides without a quotient |
| `Compiler.CompiledRuns` | src/asm.cpp:50-186 | without any condition on hidden names: the emitted lines of an accepted function do what its flat late-reading meaning says |
| `Compiler.SourceExactly` | tools/dcc.cpp:142-207 | a source that compiles hides no name if and only if every source that compiles, has the same blocks and declared names, and is defined by C11 is compiled to lines that do what C11 says |
| `Compiler.CompiledExactly` | src/semantic.cpp:19-30 | the same for syntax trees |
| `Compiler.WitnessText` | tools/dcc.cpp:142-207 | the wrongly compiled program is read from its text and taken to the end by all phases |
| `Compiler.Compile` | tools/dcc.cpp:142-207 | the phases in driver order succeed exactly on texts that lex, parse and pass the analyzer, and return the lines of the parsed function |
| `Compiler.TextToBehaviour` | tools/dcc.cpp:142-207 | every source text that compiles, hides no name and is defined by C11 has lines that behave as C11 says |
| `Example.AnswerRuns` | tools/dcc.cpp:142-207 | from the characters of `int main(void) { int a = 10; return 2 + a * 4; }` all phases come to the end, and the lines return 42 from every machine state |
| `Compiler.AcceptedGood` | src/tacky.cpp:100-113 | what the analyzer accepts never makes the generator throw on an assignment target |
| `SourceCorrect.FlatIsC` | src/tacky.cpp:5-192 | one direction: for a well-scoped function without hidden names whose behaviour is defined, the flat late-reading meaning is the C11 meaning from every initial store |
| `SourceCorrect.StrictDefined` | src/tacky.cpp:79-89 | if the right operand does not assign the variable the left operand is read from, the operator is undefined exactly if an operand is |
| `SourceCorrect.OrderExactly` | src/tacky.cpp:79-89 | reading the left variable late is reading it first, for every strict operator, store and right operand with the same assigned variables, if and only if it is not one of those variables |
| `Counterexamples.LateReadDiffers` | src/tacky.cpp:79-89 | `int main(void) { int x = 0; return x + (x = 1); }` is read from its text, accepted, hides nothing and is undefined in C11; left to right the sum is 1, the emitted lines return 2 from every state |
| `Counterexamples.ShadowingDiffers` | src/semantic.cpp:19-30 | `int main(void) { int a = 1; { int a = 2; } return a; }` is read from its text, accepted and returns 1 in C11; the emitted lines return 2 from every state |
| `Hiding.FlatExactly` | src/tacky.cpp:100-125 | an accepted function hides no name if and only if, for every accepted function with the same blocks and declared names whose behaviour is defined, the flat late-reading meaning is the C11 meaning from every store |
| `Hiding.WitnessDiffers` | src/semantic.cpp:19-30 | wherever a name is hidden, the program built for those scopes is accepted, returns 1 in C11 and 2 in one flat store |
| `Hiding.ItemsFree` | src/semantic.cpp:64-81 | whether a name is hidden depends on nothing but the blocks and the names they declare |
| `FrontNames.FrontDotless` | src/lexer.cpp:166-185 | no name in a function read from a source text contains a dot |
| `FrontNames.FrontSpellable` | src/lexer.cpp:166-213 | whatever lexer and parser return, its names are identifiers and its constants are not negative |
| `Spelled.RunTextIsRun` | include/libdcc/asm.hpp:308-355 | looking labels up by their text gives the same run as looking them up by prefix and counter |
| `Scoping.DistinctItems` | src/tacky.cpp:115-125 | pairwise distinct declared names leave nothing hidden |
| `TackyGen.Generator.AcceptExpr` | src/tacky.cpp:5-92 | an expression visit throws exactly on a target that is no variable, and otherwise extends instructions, counters and current value as the visit function says |
| `TackyGen.Generator.AcceptStmt` | src/tacky.cpp:94-183 | the same for statements |
| `TackyGen.Generator.GenerateTacky` | include/libdcc/tacky.hpp:212-222 | resets the generator and returns the closed-form code of the function, final return of 0 included |
| `TackyGen.Generator.MakeTemporaryName` | include/libdcc/tacky.hpp:174-176 | a temporary with the old counter, which then advances |
| `TackyGen.Generator.MakeLabelName` | include/libdcc/tacky.hpp:178-181 | a label with the old counter, which then advances |
| `TackyGen.VisitEmits` | src/tacky.cpp:5-179 | threading the state through a visit only appends, and appends the closed form, using exactly the counted temporaries and labels |
| `TackyGen.VisitItemsEmits` | include/libdcc/tacky.hpp:255-259 | the same for a block |
| `TackyCorrect.ExprRuns` | src/tacky.cpp:5-179 | the code of any expression, in front of any code, computes the late-reading value and updates, traps exactly when the meaning does, and keeps every earlier temporary |
| `TackyCorrect.LogicalRuns` | src/tacky.cpp:21-75 | `&&` and `||` jump over the right operand exactly when the left one decides |
| `TackyStatements.FunctionRuns` | src/tacky.cpp:94-192 | running the code of a function from any store gives the late-reading meaning of its body |
| `TackyFrame.OwnWrites` | src/tacky.cpp:18-92 | the code of an expression writes only temporaries of its own counter interval and variables it assigns |
| `TackyFrame.EmitKeeps` | src/tacky.cpp:18-92 | running the code of an expression to its end leaves every variable it does not assign, and every temporary outside its interval, unchanged |
| `TackyFrame.WritesExactlyAssigned` | src/tacky.cpp:79-92 | the code of an expression holds a write to a variable if and only if the expression assigns it |
| `TackyFrame.FunctionPlain` | src/tacky.cpp:185-192 | if no name of the function contains a dot, no two names in its code are spelled alike |
| `TackyFrame.StepKeeps` | src/tacky.cpp:86-89 | an instruction that writes inside an interval leaves every name outside it unchanged |
| `TackyControl.FunctionForward` | src/tacky.cpp:21-75 | in every generated list label names are distinct and every jump goes to a label strictly later |
| `TackyControl.FunctionHalts` | src/tacky.cpp:185-192 | every run by program counter ends in a return or a fault within as many steps as there are instructions |
| `TackyControl.FunctionSeparate` | src/tacky.cpp:86-89 | the destination of a binary instruction is never its second source |
| `Names.SpellInjective` | include/libdcc/tacky.hpp:174-176 | a temporary is never spelled like an identifier without a dot, and no two temporaries are spelled alike; the proof of selection rests on it |
| `Names.SpellLabelInjective` | include/libdcc/tacky.hpp:178-181 | labels with different prefix or counter are spelled differently |
| `CodeGen.CodeGenerator.Visit` | src/asm.cpp:50-171 | every visit appends the selected sequence of the instruction |
| `CodeGen.CodeGenerator.GenerateFunction` | src/asm.cpp:173-186 | selection of the whole list, then replacement of every operand with the map filled on first use |
| `CodeGen.CodeGenerator.ReplacePseudo` | include/libdcc/asm.hpp:150-160 | a new pseudo-register takes the next offset; the operand becomes the slot of its name |
| `CodeGen.CodeGenerator.AllocatePseudo` | include/libdcc/asm.hpp:187-195 | each instruction replaces its operands in order and becomes its renaming |
| `CodeGen.CodeGenerator.AllocateSlots` | src/asm.cpp:180-184 | replacing in place with the map of the moment is renaming everything with the final map |
| `CodeGen.RenameStable` | include/libdcc/asm.hpp:149-160 | a variable keeps its slot: renaming with an earlier map that covers the instruction is renaming with any later one |
| `CodeGen.PrintFunction` | include/libdcc/asm.hpp:401-410 | the lines of the body, one instruction after the other |
| `AsmCorrect.SelectionCorrect` | src/asm.cpp:50-171 | the selected code of a list does what the list does, from agreeing states |
| `AsmCorrect.SelectionMatches` | src/asm.cpp:58-165 | each TACKY step is matched by its sequence, where destination and second source differ |
| `AsmCorrect.SelectedDivision` | src/asm.cpp:88-101 | `cdq`/`idivl` leaves the truncated quotient or remainder in the destination, or faults exactly when there is none |
| `AsmCorrect.SelectedExact` | src/asm.cpp:118-130 | the selected `addl`, `subl` or `imull` leaves the mathematical result in the destination if it is an int, and otherwise differs by a multiple of 2 to the 32 |
| `Words.WrapIs` | src/asm.cpp:118-130 | wrapping keeps every int and otherwise adds a multiple of 2 to the 32 |
| `CLaws.ArithmeticExact` | src/tacky.cpp:79-89 | `+`, `-` and `*` of the C semantics are the mathematical result where it is an int |
| `CLaws.DivisionLaw` | src/asm.cpp:88-101 | quotient times divisor plus remainder is the dividend, and both are missing exactly for 0 and for the least int by -1 |
| `CLaws.ComplementFlips` | src/asm.cpp:75-84 | `~` flips each of the 32 bits |
| `AsmCorrect.SelectedRelational` | src/asm.cpp:103-117 | compare, zeroing move and `setcc` leave exactly 0 or 1, the signed comparison |
| `Asm.FlagsCompare` | src/asm.cpp:11-34 | the flags of a wraparound `cmpl`, read through the condition code, are the signed mathematical comparison |
| `Words.DivisionTruncates` | src/asm.cpp:88-101 | the remainder is smaller than the divisor and takes the sign of the dividend (C11 6.5.5 p6) |
| `Words.DivisionUnique` | src/asm.cpp:88-101 | no other quotient and remainder have those properties |
| `Words.QuotientFits` | src/asm.cpp:88-101 | the quotient of two words is a word except for the least word divided by -1 |
| `AsmCorrect.AllocationMatches` | src/asm.cpp:180-184 | replacing pseudo-registers by slots, with an injective map, leaves every step unchanged |
| `BackEnd.AllocationIsPacked` | src/asm.cpp:180-184 | over the whole loop the map is injective onto exactly -4, ..., -4n and the current offset is -4n |
| `BackEnd.GeneratedShape` | include/libdcc/asm.hpp:225-374 | no pseudo-register survives, and every operand is one the printer can handle |
| `AsmCorrect.PrintEncodable` | include/libdcc/asm.hpp:176-368 | no printed line has two memory operands, a memory destination of `imull`, an immediate second operand of `cmpl`, or an immediate `idivl` |
| `AsmCorrect.PrintMatches` | include/libdcc/asm.hpp:176-368 | the printed lines have the effect of the instruction on slots, `%eax`, `%edx` and flags, and only the scratch registers differ afterwards |
| `AsmCorrect.PrintCorrect` | include/libdcc/asm.hpp:176-368 | running all printed lines on the machine that rejects unencodable ones is running the instructions |
| `BackEnd.BackEndCorrect` | src/asm.cpp:173-186 | from any machine state the printed lines, run by program counter, give the outcome of the TACKY list started with the contents of the frame |
| `Flow.Simulation` | src/asm.cpp:176-178 | replacing each instruction by a block that matches it preserves whole executions, jumps included |
| `Flow.RunIsExec` | src/tacky.cpp:185-192 | with forward jumps only, running by program counter is executing the rest of the list |
| `Semantic.SemanticAnalyzer.LookupVariable` | include/libdcc/semantic.hpp:47-54 | the search loop finds the innermost binding |
| `Semantic.SemanticAnalyzer.Resolve` | src/semantic.cpp:32-92 | resolving throws exactly when the resolution function has no result, and otherwise leaves it in the result field |
| `Semantic.SemanticAnalyzer.VisitItem` | src/semantic.cpp:64-81 | a redeclaration throws; otherwise the name is bound before its initializer is resolved, and the resolved declaration has the unique name and that initializer |
| `Semantic.UniqueNameText` | include/libdcc/semantic.hpp:57-59 | a unique name is the name, a dot and the counter in base ten |
| `Semantic.SemanticAnalyzer.VisitBlock` | src/semantic.cpp:19-30 | push, items, pop |
| `Semantic.SemanticAnalyzer.VisitProgram` | src/semantic.cpp:5-13 | accepts as the check function says, and leaves the scope stack as it was |
| `Semantic.SemanticAnalyzer.MakeTemporaryVarName` | include/libdcc/semantic.hpp:57-59 | the name, a dot and the old counter, which then advances |
| `Semantic.AcceptsIffScoped` | src/semantic.cpp:5-120 | a null-free function is accepted if and only if every use sees an earlier or own declaration in an enclosing block, no block declares a name twice and every assignment target is a variable |
| `Shadowing.OneNameOneVariable` | src/tacky.cpp:100-125 | in an accepted function a source name stands for one variable at every point, as the flat name space assumes, if and only if no declaration hides a visible name |
| `Semantic.BlockRestores` | src/semantic.cpp:19-30 | after a block the scope stack is exactly what it was on entry |
| `Renaming.ReachableNamesDistinct` | include/libdcc/semantic.hpp:57-59 | in every reachable scope stack all generated names are pairwise distinct |
| `Renaming.RenamingCorrect` | src/semantic.cpp:32-92 | evaluating the resolved expression over a flat store gives the value and the updates of evaluating the original over nested scopes |
| `Parser.Parser.Advance` | include/libdcc/parser.hpp:349-353 | the cursor moves on, but never past the end of file |
| `Parser.Parser.Consume` | include/libdcc/parser.hpp:370-376 | throws exactly when the next token is of another kind |
| `Parser.Parser.ParseFactor` | src/parser.cpp:134-180 | computes the factor function on what is left and stays inside the token vector, also when it throws; a constant that fits an int is the sum of its digits times powers of ten |
| `Tokens.ConstantIsPlaceValue` | src/parser.cpp:137-146 | a constant is in range when its digits times powers of ten add up to an int, and that sum is its value |
| `Names.ValueIsPlaceValue` | src/parser.cpp:137-146 | the value of a string of digits is the sum of each digit times the power of ten of its place |
| `Names.DecimalPlaceValue` | include/libdcc/tacky.hpp:174-181 | a counter is written with digits that add up to it, without a leading zero |
| `Names.DecimalUnique` | include/libdcc/tacky.hpp:174-181 | no other string of digits without a leading zero has that value |
| `Parser.Parser.ParseExpr` | src/parser.cpp:184-229 | the same for precedence climbing, loop included; which trees these are is `Layers.ParsesExpressions` |
| `Parser.Parser.ParseStatement` | src/parser.cpp:49-116 | the same for statements |
| `Parser.Parser.ParseDeclaration` | src/parser.cpp:118-132 | the same for declarations |
| `Parser.Parser.ParseItems` | src/parser.cpp:26-38 | the loop over block items collects exactly the items up to the closing brace |
| `Parser.Parser.ParseProgram` | include/libdcc/parser.hpp:314-319 | one function and the end of the file |
| `Parsing.Climb` | src/parser.cpp:184-229 | an expression that is not null consumes at least one token; a null one consumes none |
| `Parsing.ReadItem` | src/parser.cpp:40-47 | a block item consumes at least one token, so the parser halts on every input |
| `Layers.ParsesExpressions` | src/parser.cpp:184-259 | `parse_expr()` returns a null-free tree if and only if the tokens are an expression by the grammar of C11 6.5.3 to 6.5.16, one nonterminal for each class of operators, and no operator follows |
| `Layers.ExpressionIs` | src/parser.cpp:231-259 | the expressions of that grammar, which has no precedence numbers, are exactly the trees stratified by precedence |
| `Layers.OperandLayers` | src/parser.cpp:184-229 | which layer each operand of each binary operator belongs to: `*` `/` `%` above `+` `-`, above the relations, above `==` `!=`, above `&&`, above the disjunction |
| `Layers.OperatorLevels` | src/parser.cpp:231-259 | which operators share a level, and the order of the levels down to `?:` and `=` |
| `Layers.OperatorsSpelled` | src/parser.cpp:148-219 | a token read as an operator is spelled as C11 spells that operator |
| `Reading.ParserKeepsTokens` | src/parser.cpp:13-229 | apart from parentheses, the tokens read are those of the returned tree, from left to right |
| `ParserCorrect.ParsesExactly` | src/parser.cpp:134-259 | `parse_expr(m)` for every level m: a null-free tree is returned if and only if the tokens are a derivation of it at level m in the grammar stratified by precedence and no operator of level m or more follows |
| `ParserCorrect.ReachesLoop` | src/parser.cpp:184-229 | reading any derivation brings the loop to the end of it with that tree on the left |
| `ParserCorrect.Unambiguous` | src/parser.cpp:231-259 | the stratified grammar gives an input at most one tree |
| `RoundTrip.ExpressionRoundTrip` | src/parser.cpp:134-259 | every null-free expression, written with minimal parentheses for level m and followed by anything below m, is parsed back, stopping exactly there |
| `RoundTrip.FewestTokens` | src/parser.cpp:184-229 | no input that parses to the same expression has fewer tokens |
| `StatementParser.ParsesStatementExactly` | src/parser.cpp:49-116 | a statement is returned if and only if the tokens are a derivation in which no `else` is separated from the nearest `if`, and an open `if` is not followed by `else` |
| `RoundTrip.StatementRoundTrip` | src/parser.cpp:49-132 | every statement of that shape is parsed back from its rendering |
| `RoundTrip.ParsesProgramExactly` | src/parser.cpp:13-24 | the same for whole programs, up to the end of the file |
| `RoundTrip.ProgramRoundTrip` | src/parser.cpp:13-38 | every program of that shape is parsed back from its rendering |
| `RoundTrip.ParsedIsParsable` | src/parser.cpp:76-105 | every program the parser returns has that shape, so each `else` binds to the nearest `if` (C11 6.8.4.1 p3) |
| `Lexer.Lexer.Advance` | include/libdcc/lexer.hpp:79-94 | position, line and column move together; at the end nothing moves |
| `Lexer.Lexer.GetNextToken` | src/lexer.cpp:18-145 | from any position before the end: the scanned token and the position after it, or the exception; line and column of the lexer stay those of the position |
| `Scanning.TokenStandsAt` | src/lexer.cpp:27-145 | the line of every token is one plus the newlines before, and its column one plus the characters since the last of them, at its first character for operators, after it for words and constants, at the end for the end of the file |
| `LexerCorrect.OperatorsExactly` | src/lexer.cpp:46-145 | for every pair of characters: the longest operator is taken and has the kind that is spelled so; a lone `&` or bar is `:`, `&` before a bar is the disjunction, and anything else is invalid |
| `LexerCorrect.OperatorText` | src/lexer.cpp:46-145 | which text operator and invalid tokens carry, cut out of the source or given |
| `Scanning.CharacterClasses` | src/lexer.cpp:21-44 | white space, digits, letters and word characters, listed |
| `LexerCorrect.LexesInTurn` | tools/dcc.cpp:142-153 | the loop succeeds with a list if and only if each token is scanned where the one before ends, none is invalid and the last is the only end of file |
| `Lexer.Lexer.ScanIdentifier` | src/lexer.cpp:166-185 | the longest run of word characters, and its keyword kind |
| `Scanning.KeywordsExactly` | src/lexer.cpp:147-164 | a word is a keyword if and only if it is `if`, `int`, `void`, `else` or `return` |
| `Lexer.Lexer.ScanConstant` | src/lexer.cpp:188-213 | the longest run of digits, or an invalid token where a letter follows |
| `Lexer.Tokenize` | tools/dcc.cpp:142-153 | the lexing loop collects the tokens up to the end of file, and fails on an invalid token or at the end of the source |
| `LexerCorrect.LexRoundTrip` | src/lexer.cpp:18-213 | correctly spelled tokens with white space around them, or none where the next does not continue the one before, lex to the same kinds and texts and then the end of file |
| `LexerCorrect.MaximalMunch` | src/lexer.cpp:147-212 | every call moves on; identifiers, keywords and constants take in all the characters they can (C11 6.4 p4); an identifier is none of the five keywords, and a keyword token has the spelling of its kind |
| `LexerCorrect.LexedIsClean` | src/lexer.cpp:175-178 | a successful loop ends in its only end of file; constants are digits; identifiers contain no dot |
| `Scanning.LineCounts` | include/libdcc/lexer.hpp:79-94 | the line is one plus the number of newlines consumed |
| `Scanning.ColumnCounts` | include/libdcc/lexer.hpp:79-94 | the column is one plus the characters since the last newline |
| `SourceText.FrontRoundTrip` | tools/dcc.cpp:142-165 | lexer and parser together read every program that can be written back from its text |

## Left out

- tools/dcc.cpp: preprocessing, files, flags, progress output and linking; only the order of the phases and the lexing loop are modelled.
- include/CLI/CLI11.hpp, src/libdcc.cpp, the build files and the placeholder test: no compiler logic.
- AST `print` methods: partial debug output.
- Assembly as text: emitted lines are instructions with operands; prologue, epilogue, `.globl` and the `.L` in front of labels are not modelled. `ret` ends the run with the value of `%eax`.
- The frame: no `subq` is emitted, so the slots lie below the stack pointer; the model gives the function a private map from offsets to 32-bit words. `AllocateStackASM` is never instantiated and not modelled.
- Resolved statements, declarations and blocks: nothing reads them; only resolved expressions and the resolved declaration are modelled.
- `std::monostate` in a TACKY value: every value an operand is built from is a constant or a variable.
- Counters (`size_t`, `int`) and positions are unbounded, and so is the offset.
- The wording of exceptions, and the state of an object after it has thrown.
- Constants out of the range of `int`: the source leaves the variable unset. The parser is proved to stay inside the tokens and to halt on them too, with 0 for the unset value; `Compiler.Handled` excludes them from the theorems about meaning.
- Trees with null children after parsing: later phases dereference them; `Compiler.Handled` excludes them.
- Tokens `++`, `--`, `+=`, `-=`: they are lexed, but no grammar rule uses them.
- Characters beyond ASCII: the classification functions are those of the C locale.
- `unique_ptr` ownership and `string_view` lifetimes: trees and texts are values.
- SourceCorrect.FlatIsC: one direction; the converse, over all programs with the same scopes, is `Hiding.FlatExactly`. Whether one particular program that hides a name happens to compile to what was meant is not characterised.
- SourceCorrect.StrictDefined: sufficient for one expression: a right operand that assigns the variable only in a branch not taken is not undefined. `SourceCorrect.OrderExactly` is exact over all right operands that assign the same variables.
