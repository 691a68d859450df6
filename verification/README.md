# A verified model of the calculator compiler

`calculator.cpp` reads arithmetic expressions and compiles each one into an
anonymous IR function. It prints that function and then removes it from the
module. This project models its pipeline in Dafny:

- **Lexer** (`lexer.dfy`): `gettok` with its static one-character lookahead
  `LastChar`. `Lex` and `Tokenize` specify one call and the whole token
  stream. The `Scanner` class holds the lookahead and the unread input, and
  its loops are proved against those functions.
- **Precedence** (`precedence.dfy`): the table `BinopPrecedence` and
  `GetTokPrecedence`. This includes the entry of 0 that `operator[]` inserts
  under a missing key.
- **Ast** (`ast.dfy`): `NumberExprAST`, `BinaryExprAST`, `PrototypeAST` and
  `FunctionAST`.
- **Grammar** (`grammar.dfy`): what each recursive-descent routine computes
  on a token stream. Precedence climbing is characterised by
  left-associativity and tighter-operator-first lemmas, and every parsed
  tree is proved to read back, in order, as the tokens it consumed without
  their parentheses.
- **Parser** (`parser.dfy`): the class holding `CurTok`, the table and the
  lexer. Each parsing routine is a method proved to compute its `Grammar`
  function.
- **Ir** (`ir.dfy`): the instructions the code generator asks the IR builder
  for, and an execution of a basic block over an open floating-point
  semantics.
- **Codegen** (`codegen.dfy`): the `codegen` methods over an abstract module,
  the builder's insertion block and `NamedValues`. There are pure
  specifications and a `CodeGenerator` class proved against them. The
  generated block is proved to compute the reference meaning of the
  expression, to be well formed, and to list its opcodes in post-order.
- **Driver** (`driver.dfy`): `HandleTopLevelExpression` and `MainLoop`. It
  covers the loop as written and the loop with the error recovery the code
  evidently intends. Only the corrected loop terminates on every input.
- **Scenarios** (`scenarios.dfy`): worked sessions with the standard
  operators.

## Model

| member | source | states |
|---|---|---|
| Lexer.Code | calculator.cpp:24-28 | tokens other than raw characters have the negative codes of the `Token` enum; a raw character is its own non-negative code |
| Lexer.SkipSpace | calculator.cpp:35-37 | the result is a suffix of the pending characters whose first character, if any, is not whitespace |
| Lexer.SkipSpaceDropsBlanks | calculator.cpp:35-37 | what the loop drops before that suffix is whitespace only |
| Lexer.NumberLength | calculator.cpp:45-50 | the leading run of digits and dots is maximal: every character in it is a digit or a dot, and the next one is neither |
| Lexer.LexPlain | calculator.cpp:45-62 | never an error; end of input exactly when nothing is pending; a character that starts no number is returned as itself and consumed alone; a digit or dot starts a number token whose lexeme is the maximal run of digits and dots, consumed exactly |
| Lexer.Lex | calculator.cpp:33-63 | one call of `gettok` consumes a prefix of the pending characters: end of input leaves nothing pending, and every other token consumes input |
| Lexer.Tokenize | calculator.cpp:33-63 | the token stream up to end of input holds no end-of-input token and is no longer than the text |
| Lexer.LexSkipsSpace | calculator.cpp:35-37 | leading whitespace never changes the token or what remains |
| Lexer.LexNumber | calculator.cpp:45-53 | a maximal run of digits and dots, with any number of dots, is one number token carrying that lexeme |
| Lexer.LexRawChar | calculator.cpp:59-62 | a character outside the other classes is returned as itself and consumed |
| Lexer.LexLetter | calculator.cpp:39-43 | a letter followed by an alphanumeric character gives an error token; followed by anything else, that character is lexed by the plain rules without skipping whitespace |
| Lexer.LexEofStable | calculator.cpp:55-57 | end of input consumes nothing, so every later call reports it again and the stream is empty |
| Lexer.TokenizeAfterBlank | calculator.cpp:34 | the initial lookahead, a blank, adds no token |
| Lexer.TokenizeNumber | calculator.cpp:45-53 | a maximal number starts the stream with one number token |
| Lexer.TokenizeRaw | calculator.cpp:59-62 | a character of no other class starts the stream as a token of its own |
| Lexer.TokenizeBlank | calculator.cpp:35-37 | whitespace between tokens contributes nothing to the stream |
| Lexer.TokenizeLetter | calculator.cpp:39-43 | a letter followed by a character that is neither alphanumeric nor a dot is dropped, and that character, even whitespace, becomes a token |
| Lexer.Scanner.constructor | calculator.cpp:34 | the lookahead starts as a blank ahead of the whole input |
| Lexer.Scanner.ReadChar | calculator.cpp:49 | `getchar` drops the first pending character; at end of input nothing changes |
| Lexer.Scanner.SkipWhitespace | calculator.cpp:35-37 | the loop leaves exactly `SkipSpace` of the pending characters |
| Lexer.Scanner.ScanNumber | calculator.cpp:45-53 | the `do`-`while` loop gathers exactly the maximal run of digits and dots that `NumberLength` measures, and leaves the characters after it |
| Lexer.Scanner.GetTok | calculator.cpp:33-63 | returns the token `Lex` specifies and leaves the pending characters it specifies |
| Precedence.Touch | calculator.cpp:136 | `operator[]` keeps every entry, and the keys grow by exactly the character of an ASCII token, whose new entry is 0 |
| Precedence.Lookup | calculator.cpp:131-140 | -1 or positive; positive exactly for an ASCII character with a positive entry, and then that entry |
| Precedence.Effective | calculator.cpp:127-128 | the binary operators are exactly the ASCII keys with positive entries, at those entries |
| Precedence.TouchKeepsLookup | calculator.cpp:136 | the inserted 0 never changes a later lookup |
| Precedence.TouchKeepsEffective | calculator.cpp:136 | the inserted 0 never changes the set of operators |
| Precedence.EffectiveLookup | calculator.cpp:131-140 | looking up in the operators alone gives what the whole table gives |
| Precedence.DefaultOperators | calculator.cpp:389-395 | with `main`'s table exactly `< > = + - * /` are operators, at precedences 10, 20 and 40 |
| Precedence.DefaultTableEffective | calculator.cpp:389-395 | every entry of `main`'s table defines an operator |
| Grammar.ParseNumberExpr | calculator.cpp:155-159 | a number becomes a leaf carrying its lexeme, and exactly one token is consumed |
| Grammar.ParsePrimary | calculator.cpp:178-187 | anything but a number or `(` fails with "unexpected token" and consumes nothing; success consumes input and builds a tree of declared operators |
| Grammar.ParseParenExpr | calculator.cpp:162-172 | success consumes both parentheses and yields a tree of declared operators |
| Grammar.ParseExpression | calculator.cpp:223-229 | success consumes input, builds a tree of declared operators and stops on a token that is not an operator |
| Grammar.ParseBinOpRHS | calculator.cpp:191-219 | success stops on a token binding looser than `exprPrec` and keeps the tree's operators declared |
| Grammar.ParseOperand | calculator.cpp:203-214 | a right operand consumes input, is built from declared operators, and stops on an operator no tighter than its own |
| Grammar.ParseTopLevelExpr | calculator.cpp:232-239 | success wraps the expression under the anonymous prototype with no parameters, and stops on a non-operator |
| Grammar.NumberPrimary | calculator.cpp:182-183 | a number token is a primary leaf, and the rest is left |
| Grammar.RoundStops | calculator.cpp:196-198 | the loop returns the left operand on a token binding looser than `exprPrec` |
| Grammar.RoundTakesNumber | calculator.cpp:200-217 | an operator and a number not followed by a tighter operator become the new left operand |
| Grammar.RoundDefersToTighter | calculator.cpp:208-214 | a number followed by a tighter operator is first taken by the inner call at the operator's precedence plus one |
| Grammar.LeftAssociative | calculator.cpp:191-219 | operators of equal precedence associate to the left |
| Grammar.TighterOperatorFirst | calculator.cpp:191-219 | a tighter operator in the middle takes its operands first, and a looser one after it applies to the whole |
| Grammar.ParenthesesGroup | calculator.cpp:162-172 | a parenthesised group is one operand, whatever the precedences around it |
| Grammar.UnclosedParenthesis | calculator.cpp:168-169 | a group without `)` fails with "expected ')'" at the token after the inner expression |
| Grammar.PrimaryCovers | calculator.cpp:178-187 | when neither parenthesis is an operator, a parsed primary consumed a prefix of the stream, and its tree read in order is exactly that prefix without parentheses |
| Grammar.ParenCovers | calculator.cpp:162-172 | the same for a group: the tree is the inner expression's, both parentheses are consumed and dropped |
| Grammar.ExpressionCovers | calculator.cpp:223-229 | the same for an expression |
| Grammar.BinOpRHSCovers | calculator.cpp:191-219 | the loop extends the left operand's tokens by exactly the prefix it consumed, without parentheses: each round adds the operator and its operand's tokens |
| Grammar.OperandCovers | calculator.cpp:203-214 | the same for a right operand, with or without the inner call |
| Grammar.DefaultExpressionCovers | calculator.cpp:389-395 | with `main`'s table every parsed expression is exactly the numbers and operators it consumed, in order |
| Parser.Parser.constructor | calculator.cpp:387-399 | `main` installs the standard table and reads the first token; the stream is that of the whole text |
| Parser.Parser.GetNextToken | calculator.cpp:122-125 | the stream advances by one token, or stays empty at end of input; the table is unchanged |
| Parser.Parser.GetTokPrecedence | calculator.cpp:131-140 | returns the `Lookup` of the current token; the table gains at most a 0 entry, and the operators are unchanged |
| Parser.Parser.ParseNumberExpr | calculator.cpp:155-159 | computes `Grammar.ParseNumberExpr` on the stream and leaves the stream it leaves |
| Parser.Parser.ParsePrimary | calculator.cpp:178-187 | computes `Grammar.ParsePrimary`: a null result exactly when it fails, the same tree otherwise, and the same tokens left |
| Parser.Parser.ParseParenExpr | calculator.cpp:162-172 | computes `Grammar.ParseParenExpr` in the same sense |
| Parser.Parser.ParseExpression | calculator.cpp:223-229 | computes `Grammar.ParseExpression` in the same sense |
| Parser.Parser.ParseBinOpRHS | calculator.cpp:191-219 | the `while` loop computes `Grammar.ParseBinOpRHS` in the same sense |
| Parser.Parser.ParseOperand | calculator.cpp:203-214 | the primary and optional inner call of one round compute `Grammar.ParseOperand` |
| Parser.Parser.ParseTopLevelExpr | calculator.cpp:232-239 | computes `Grammar.ParseTopLevelExpr` in the same sense |
| Codegen.GenExpr | calculator.cpp:253-287 | only appends to the block, and yields a value exactly when every operator has a case in the `switch` |
| Codegen.EmitShape | calculator.cpp:264-286 | a case of the `switch` appends only, yields the result of its last instruction exactly for the seven operators, and keeps the block closed and free of `ret` |
| Codegen.GenShape | calculator.cpp:253-287 | generation keeps the block's prefix; the value is a constant or an earlier result, never a parameter; closedness and absence of `ret` are preserved |
| Codegen.Eval | calculator.cpp:264-286 | the reference meaning is defined exactly for the expressions the `switch` handles |
| Codegen.Apply | calculator.cpp:264-286 | an operator has a meaning exactly when it is one of the seven of the `switch` |
| Codegen.ArithMeaning | calculator.cpp:265-272 | `fadd`, `fsub`, `fmul`, `fdiv` compute the operator's meaning on the operands' doubles |
| Codegen.CompareMeaning | calculator.cpp:273-283 | `fcmp ult`, `ugt`, `ueq` yield the bit whose widening is the operator's meaning |
| Codegen.EmitComputes | calculator.cpp:264-286 | running the block a case appended to gives the operator's meaning on the values its operands hold |
| Codegen.GenComputes | calculator.cpp:253-287 | running the generated block, the value `codegen` returned holds the reference meaning of the expression |
| Codegen.EmitOpcodes | calculator.cpp:264-286 | a case appends exactly its operator's opcodes: one arithmetic instruction, or a comparison followed by `uitofp` |
| Codegen.GenEmitsPostOrder | calculator.cpp:258-287 | the opcodes are emitted in post-order: left operand, right operand, then the operator; a number emits nothing |
| Codegen.Bindings | calculator.cpp:318-320 | `NamedValues` binds exactly the parameter names, each to a parameter at a position that carries that name |
| Codegen.Completed | calculator.cpp:322-324 | the generated body followed by `ret` of its value is a well-formed block: closed, ending in its only `ret` |
| Codegen.GenFunction | calculator.cpp:304-335 | succeeds exactly when the body generates; on success the function of the prototype's name ends with the current block, which is well formed; on failure it is erased; other functions are unchanged; `NamedValues` binds the parameters of the reused or declared function |
| Codegen.GenFunctionSucceeds | calculator.cpp:322-329 | with a body that generates, the block completed by `ret` is appended to the reused or declared function |
| Codegen.GenFunctionFails | calculator.cpp:332-334 | with a body that fails, the function is erased from the module |
| Codegen.GenFunctionComputes | calculator.cpp:304-335 | the block of a generated function returns the reference meaning of its body |
| Codegen.Initial | calculator.cpp:339-346 | `InitializeModule` starts from an empty module, an empty block and no named values |
| Codegen.CodeGenerator.constructor | calculator.cpp:339-346 | the state is `Initial` |
| Codegen.CodeGenerator.ExprCodegen | calculator.cpp:253-287 | the `codegen` of an expression updates the block and returns the value as `GenExpr` specifies |
| Codegen.CodeGenerator.PrototypeCodegen | calculator.cpp:289-302 | adds a function of the prototype's name, with its arguments named in order and no blocks |
| Codegen.CodeGenerator.DeclareFunction | calculator.cpp:306-309 | the existing function of the name, or a new declaration, which is then in the module |
| Codegen.CodeGenerator.GenerateBody | calculator.cpp:312-322 | a fresh entry block holds exactly what `GenExpr` generates for the body, and `NamedValues` binds the parameters |
| Codegen.CodeGenerator.BindArguments | calculator.cpp:318-320 | `NamedValues` becomes `Bindings` of the parameters |
| Codegen.CodeGenerator.Complete | calculator.cpp:322-334 | on a value, `ret` completes the block and the function gets it; otherwise the function is erased and the block is untouched |
| Codegen.CodeGenerator.EraseFunction | calculator.cpp:333 | removes exactly that function from the module |
| Codegen.CodeGenerator.FunctionCodegen | calculator.cpp:304-335 | returns and leaves the state that `GenFunction` specifies |
| Driver.DeclaredOperatorsGenerate | calculator.cpp:284-285 | when every operator in the table has a `switch` case, every parsed tree generates |
| Driver.DefaultOperatorsGenerate | calculator.cpp:389-395 | `main`'s table declares only operators with a `switch` case |
| Driver.Compile | calculator.cpp:350-357 | succeeds exactly when the body generates; a printed function has the parameters it was generated with and a well-formed last block; the module is unchanged when the name was free; one function is printed per success |
| Driver.HandleTopLevel | calculator.cpp:348-363 | never adds tokens, and leaves the module unchanged when the anonymous name is free |
| Driver.Step | calculator.cpp:366-381 | stops exactly at end of input; an error token or `;` is skipped alone; no iteration adds tokens |
| Driver.HandleTopLevelPrints | calculator.cpp:348-363 | with the standard table, a parsed expression is printed as a function of no parameters whose one well-formed block returns the expression's meaning; the module is unchanged |
| Driver.StepStalls | calculator.cpp:348-363 | a token that starts no expression and is not end of input, an error or `;` leaves the loop's state unchanged |
| Driver.HandleTopLevelRecovering | calculator.cpp:348-363 | a parse failure or a code-generation failure skips one token, a success leaves the tokens after the expression; always consumes a token, and leaves the module unchanged when the anonymous name is free |
| Driver.StepRecovering | calculator.cpp:366-381 | stops exactly at end of input |
| Driver.StepRecoveringProgresses | calculator.cpp:366-381 | every corrected iteration before end of input consumes a token |
| Driver.StepsAgreeOnSuccess | calculator.cpp:348-363 | the two loops take the same step wherever parsing succeeds or nothing is parsed, with any table |
| Driver.RunRecovering | calculator.cpp:366-381 | the corrected loop ends at end of input |
| Driver.StepRecoveringKeepsModule | calculator.cpp:356-357 | one corrected iteration leaves the module as it found it and only appends to what is printed |
| Driver.RunRecoveringKeepsModule | calculator.cpp:356-357 | the corrected loop leaves the module as it found it and only appends to what is printed |
| Driver.HandleTopLevelExpression | calculator.cpp:348-363 | over the parser and code generator, leaves the tokens and state and extends the printed functions as `HandleTopLevel` specifies |
| Driver.GenerateAndPrint | calculator.cpp:351-357 | reports success, prints and erases a generated function as `Compile` specifies |
| Driver.HandleTopLevelExpressionRecovering | calculator.cpp:348-363 | leaves the tokens, state and printed functions that `HandleTopLevelRecovering` specifies, skipping a token after either kind of failure |
| Driver.MainLoop | calculator.cpp:366-381 | the corrected loop returns at end of input having printed what `RunRecovering` prints |
| Scenarios.PrintsWhole | calculator.cpp:348-363 | a stream that parses whole prints the anonymous function of its block, and leaves the module empty |
| Scenarios.SubtractionChain | calculator.cpp:191-219 | `8 - 3 - 2` records `fsub 8, 3`, then `fsub` of that and 2, then `ret` |
| Scenarios.MixedPrecedence | calculator.cpp:389-395 | `2 + 25 * 2 - 8` records the product first, then the sum, then the difference |
| Scenarios.GroupedSum | calculator.cpp:162-172 | `(1 + 2) * 3` records the sum before the product |
| Scenarios.Comparison | calculator.cpp:273-276 | `3 < 5` records `fcmp ult`, `uitofp` and `ret`, returning the widened comparison |
| Scenarios.UnclosedGroup | calculator.cpp:168-169 | `(1 + 2` prints nothing and leaves the loop at end of input |
| Scenarios.LetterThenBlankStalls | calculator.cpp:39-43 | text starting with a letter and a blank lexes to a blank token, on which the loop as written repeats for ever |
| Scenarios.LetterThenBlankRecovers | calculator.cpp:39-43 | with the corrected recovery, the blank is skipped |

## Left out

- LLVM objects (context, module, builder, `Value`, `Function`): the module is a map from names to parameter names and blocks. The builder is the current block as a sequence of instructions.
- IRBuilder constant folding: the real builder folds operations on two constants, so `4 + 5` prints `ret double 9.0`. The model records every `Create*` call as an instruction.
- IEEE 754 arithmetic and `strtod`: numbers are kept as lexemes, and instructions run over an open semantics (`Ir.Semantics`) that gives constants and operations their meaning.
- `verifyFunction`: its verdict is ignored by the source. The model proves the block well formed instead.
- Bytes and the C locale: `getchar` reads bytes and `isspace`, `isalpha`, `isalnum` and `isdigit` classify them in the C locale, while the model reads Unicode code points and classifies only ASCII ones. A non-ASCII character is one raw-character token here but two to four one-byte tokens in the program, so `Lexer.Tokenize` and the number of recovery iterations differ on such text; the printed functions do not.
- I/O: reading from standard input is a text parameter. The "ready>" prompts, the error messages and the printing of IR text are left out. The printed functions are collected as values.
- `main` printing the module at the end: the corrected loop is proved to leave the module as it found it.
- LLVM's renaming of clashing function or argument names: `Codegen.CodeGenerator.PrototypeCodegen` requires that the name is free, as `FunctionCodegen` guarantees.
- The loop as written is not a method: it does not terminate on text such as `a + 1` or `)`. It is modelled by `Driver.Step`, and only the corrected loop is a method (`Driver.MainLoop`).
- Lexer scenarios over character strings: worked sessions start from token streams. The lexer is characterised one lexeme at a time instead.
- `Parser.Parser.ParseOperand` and `Grammar.ParseOperand` are the part of a round of `ParseBinOpRHS` after the operator, factored out of the loop body; the code path is unchanged.
- `Lexer.Scanner.GetTok`: the `while` loop on an alphanumeric character after a letter returns on its first iteration, so it is modelled as an `if`.
- Disagreements with the description of the system, where the code is followed:
  - after a letter, the next character is lexed without skipping whitespace, so `a + 1` yields a blank token rather than an error for the whole identifier;
  - a parse failure does not discard a token; see Findings.

## Findings

| source | as written | input that shows it | evidently intended | confidence | as-written member | corrected member |
|---|---|---|---|---|---|---|
| calculator.cpp:348-363 | the `else` that skips a token belongs to the code-generation check, so a parse failure consumes nothing and `MainLoop` sees the same token again | `a + 1` (lexes to a blank token first) or `)` | a parse failure skips one token, as a code-generation failure does, so every iteration makes progress and the loop ends at end of input | not executed | Driver.StepStalls | Driver.StepRecoveringProgresses |
