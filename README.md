# Rustration core in Dafny

A model of the core of Rustration, a Brainfuck interpreter and compiler. It covers:

- **the lexer**: bytes become tokens tagged with their line and column.
- **the recursive parser**: one call of `parse` per nesting level. It comes in two forms:
  - over a fixed buffer (`RawParser`);
  - over a buffer that is refilled chunk by chunk from a channel (`ReplParser`).
- **the syntax tree and how it runs**: it runs on a tape machine (`Context`) whose tape grows on the right.
- **the compiler**: the tree becomes bytecode, with loop labels `LOOP<n>`.
- **the peephole optimizer**: it merges runs of cell changes and of pointer moves.
- **the emitter**: it writes the assembly text of a bytecode program.

The modules follow the source files:

| module | file | source |
|---|---|---|
| `Base` | `base.dfy` | `u8`, `Option`, `Result` |
| `Tokens` | `token.dfy` | `src/parse/token.rs` |
| `Interpreter` | `interpreter.dfy` | `src/interpreter.rs` (`Context`) |
| `Ast` | `ast.dfy` | `src/parse/ast.rs` |
| `Parsing` | `parsing.dfy` | `src/parse/parsing.rs` |
| `ParsingProps` | `parsing_props.dfy` | lemmas about `parse` on the text of a block |
| `ParsingText` | `parsing_text.dfy` | lemmas about `parse` on any text, comments included |
| `ParsingBack` | `parsing_back.dfy` | lemmas that a successful `parse` read back exactly the text of the block it returned |
| `Decimal` | `decimal.dfy` | `format!("{}")` for integers |
| `Bytecode` | `bytecode.dfy` | `src/compile/bytecode.rs` |
| `Compiler` | `compiler.dfy` | `src/compile/compiler.rs` |
| `Optimizer` | `optimizer.dfy` | `src/compile/optimizer.rs` |

State that the source changes in place is a class with `modifies` clauses:

- `Context`;
- `RawParser`;
- `ReplParser`;
- `SimpleCompiler`.

Each method of such a class is proved against a function on values:

- `Machine` for `Context`;
- `Lexer`, `Lex` and `ParseSpec` for the parsers;
- `CompiledExpr` and `CompiledSeq` for the compiler.

The loops of the source are methods with loop invariants:

- `Context::move_right`;
- `Block::run` and `Loop::run`;
- the loop of `parse`;
- the refill loop of `ReplParser::next_token`;
- `emit`;
- `optimize`, `optimize_add` and `optimize_move`.

The lemmas relate each function to a partner:

- **Parsing and its inverse.** `ParseUnparse` proves that parsing the text `Unparse` writes for a block gives that block back. `ParseCommented` extends this to any text whose command bytes, in order, are the text of a block: comments and newlines change only the positions. `ParsedText` proves the converse: when a parse succeeds, the command bytes of the input are the text of the block returned. So `ParseExactly` holds: a text parses to a block exactly when its command bytes spell that block. As a consequence, `UnbalancedFails` proves that a text with a `]` that closes nothing, or a `[` that is never closed, fails.
- **Emitting and its reader.** A reader of the assembly text is the partner of the emitter. `DisassembleEmitted` proves that the emitted text determines the program.
- **Compiling and parsing.** Erasing the compiled code back to command bytes and parsing it gives the tree back (`CompileThenParse`).
- **The optimizer and its invariants.** `BoundariesKept` and `TotalsKept` state what the optimizer preserves. `NotIdempotent` states what it does not.

Two behaviours of the code are easy to misread:

- **Byte 255.** `Token::from` in `src/parse/token.rs:15-28` maps the eight command bytes to their tokens and every other byte to `Comment`. Byte 255 is one of those bytes, and no byte maps to `Eof`. So no byte in a chunk ends a streaming parse. A streaming parse ends only when the data channel is closed and no chunk is left.
- **Position of an unclosed `[`.** After a `[`, `parse` in `src/parse/parsing.rs:163-171` records the position of the first token it reads, one column back. `UnmatchedOpenBrace` reports that position. When the `[` and that token are on the same line, it is the position of the `[` itself (`UnmatchedOpen`, `ReplUnmatchedOpen`). When the `[` is the last byte of a fixed buffer, the first token read is the end of input. That token is made at line 0, column 0, so the column reported is `0 - 1` (`UnclosedLevel`).

## Model

| member | source | states |
|---|---|---|
| Tokens.FromByte | src/parse/token.rs:15-28 | every byte maps to a command or to a comment, never to the end-of-input token |
| Tokens.CommandByte | src/parse/token.rs:17-25 | a token has a spelling byte exactly when it is one of the eight commands |
| Tokens.FromCommandByte | src/parse/token.rs:17-25 | every command token is read back from the byte that spells it |
| Tokens.CommandByteOfFromByte | src/parse/token.rs:17-26 | a byte yields a command exactly when it is that command's spelling; every other byte, newline and 255 included, is a comment |
| Tokens.FromByteInjectiveOnCommands | src/parse/token.rs:17-25 | two different command bytes give two different tokens |
| Tokens.CommandBytes | src/parse/token.rs:17-26 | the bytes that yield a command token are exactly `>` `<` `+` `-` `.` `,` `[` `]`; every other byte, 255 included, is a comment |
| Tokens.EightCommandBytes | src/parse/token.rs:17-26 | exactly eight of the 256 byte values are commands |
| Decimal.NatToString | src/compile/compiler.rs:98 | the decimal text of a count is a non-empty digit string without a leading zero |
| Decimal.DigitsValueOfNat | src/compile/compiler.rs:98 | reading back the digits of a count gives the count |
| Decimal.IntToString | src/compile/bytecode.rs:72-76 | the text of an operand consists of digits and a minus sign |
| Decimal.ParseIntToString | src/compile/bytecode.rs:72-76 | the text of every integer operand reads back as that integer |
| Decimal.IntToStringInjective | src/compile/bytecode.rs:72-76 | different operands are written as different texts |
| Interpreter.WrappingInc | src/interpreter.rs:179-182 | `wrapping_add(1)` on a byte is addition modulo 256 |
| Interpreter.WrappingDec | src/interpreter.rs:185-188 | `wrapping_sub(1)` on a byte is subtraction modulo 256 |
| Interpreter.Machine.MoveRight | src/interpreter.rs:134-139 | the cursor moves one right and stays on the tape; the tape keeps its cells and grows by at most one zero cell at its end |
| Interpreter.Machine.MoveLeft | src/interpreter.rs:142-146 | the cursor moves one left, clamped at 0; nothing else changes |
| Interpreter.Machine.Write | src/interpreter.rs:170-172 | the current cell becomes the value and no other cell changes |
| Interpreter.Machine.Increment | src/interpreter.rs:179-182 | the current cell goes up by one modulo 256, and only that cell changes |
| Interpreter.Machine.Decrement | src/interpreter.rs:185-188 | the current cell goes down by one modulo 256, and only that cell changes |
| Interpreter.Machine.Output | src/interpreter.rs:162-168 | the current cell is appended to the output; the tape, the cursor and the input are unchanged |
| Interpreter.Machine.Input | src/interpreter.rs:149-159 | a result exists exactly when input is left; the first input byte is then consumed and written into the current cell |
| Interpreter.Fresh | src/interpreter.rs:125-131 | a new context has one zero cell under the cursor, all of the input still to come, and no output |
| Interpreter.IncrementDecrement | src/interpreter.rs:179-188 | increment and decrement undo each other |
| Interpreter.MoveRightThenLeft | src/interpreter.rs:134-146 | moving right then left restores the cursor and keeps the old cells |
| Interpreter.IncrementsAdd | src/interpreter.rs:179-182 | n increments add n modulo 256 to the current cell and change nothing else |
| Interpreter.WriteSame | src/interpreter.rs:170-172 | writing the value a cell holds changes nothing |
| Interpreter.IncrementsWrap | src/interpreter.rs:179-182 | 256 increments leave the machine as it was |
| Interpreter.Context.constructor | src/interpreter.rs:125-131 | `Context::new` is the fresh machine |
| Interpreter.Context.MoveRight | src/interpreter.rs:134-139 | the growing loop leaves the state that `Machine.MoveRight` specifies |
| Interpreter.Context.MoveLeft | src/interpreter.rs:142-146 | the new state is `Machine.MoveLeft` of the old |
| Interpreter.Context.Write | src/interpreter.rs:170-172 | the new state is `Machine.Write` of the old |
| Interpreter.Context.Read | src/interpreter.rs:174-176 | returns the current cell |
| Interpreter.Context.Increment | src/interpreter.rs:179-182 | the new state is `Machine.Increment` of the old |
| Interpreter.Context.Decrement | src/interpreter.rs:185-188 | the new state is `Machine.Decrement` of the old |
| Interpreter.Context.CurrentCellIsZero | src/interpreter.rs:191-193 | true exactly when the current cell is 0 |
| Interpreter.Context.Output | src/interpreter.rs:162-168 | the new state is `Machine.Output` of the old |
| Interpreter.Context.Input | src/interpreter.rs:149-159 | succeeds exactly when input is left, then gives `Machine.Input`; otherwise nothing changes |
| Ast.Expr.Run | src/parse/ast.rs:71-81 | each expression performs its context operation, a loop runs as a loop; the result and new state are those of `ExecExpr` |
| Ast.Block.New | src/parse/ast.rs:112-114 | a new block is empty |
| Ast.Block.AddExpr | src/parse/ast.rs:119-121 | the expression goes after all those already in the block, which are kept in order |
| Ast.Block.Run | src/parse/ast.rs:124-128 | the loop over the expressions leaves the state `ExecExprs` gives, and stops where an expression does not return |
| Ast.Loop.Run | src/parse/ast.rs:146-150 | the loop while the cell is not zero leaves the state `ExecLoop` gives |
| Ast.Program.Run | src/parse/ast.rs:95-98 | the entry block runs on a fresh context; the output is that of `ExecProgram` |
| Ast.ExecExpr | src/parse/ast.rs:71-81 | running an expression keeps the cursor on the tape |
| Ast.ExecExprs | src/parse/ast.rs:124-128 | running a block keeps the cursor on the tape |
| Ast.ExecLoop | src/parse/ast.rs:146-150 | a loop on a zero cell does nothing, and a loop that finishes, finishes on a zero cell |
| Ast.ExecProgram | src/parse/ast.rs:95-98 | a finished program leaves the cursor on the tape |
| Ast.ExecExprsAppend | src/parse/ast.rs:124-128 | running `a + b` is running `a`, then `b` on what `a` left |
| Ast.ExecExprMonotone | src/parse/ast.rs:71-81 | more fuel never changes a result that was reached |
| Ast.ExecExprsMonotone | src/parse/ast.rs:124-128 | more fuel never changes a block result that was reached |
| Ast.ExecLoopMonotone | src/parse/ast.rs:146-150 | more fuel never changes a loop result that was reached |
| Ast.ExecIncrements | src/parse/ast.rs:75 | n `+` expressions are n increments of the current cell |
| Ast.IncrementsWrapAround | src/parse/ast.rs:75 | 256 `+` expressions leave the machine unchanged |
| Ast.MoveLeftClamped | src/parse/ast.rs:74 | `<` on the first cell leaves the machine unchanged |
| Parsing.Start | src/parse/parsing.rs:122-130 | a new raw parser is at index 0, level 0, line 1, column 1 |
| Parsing.Consume | src/parse/parsing.rs:94-99 | a newline moves to the next line at column 1; any other byte moves one column on |
| Parsing.RawLex | src/parse/parsing.rs:89-105 | the next byte's token, tagged with the position before it, then that byte consumed; nothing once the buffer is exhausted |
| Parsing.Lex | src/parse/parsing.rs:29-44 | tokens are only missing from a fixed buffer; every token but the end moves the source forward; the streaming end comes only when buffer and channel are both empty |
| Parsing.CommandExpr | src/parse/parsing.rs:173-179 | the six simple commands are expressions that are not loops |
| Parsing.ParseFrom | src/parse/parsing.rs:153-204 | the rest of a call of `parse` never moves the source backwards and keeps its kind; when it succeeds, the nesting counter is back at the level's exit value |
| Parsing.ParseToken | src/parse/parsing.rs:154-198 | one turn of the loop never moves the source backwards; a success ends with the level closed |
| Parsing.AfterLoop | src/parse/parsing.rs:180-183 | after a loop body, the parse never moves the source backwards; a success ends with the level closed |
| Parsing.ParseSpec | src/parse/parsing.rs:147-206 | a whole call of `parse` never moves the source backwards; when it succeeds, every level it opened was closed: an inner level ends one below where it was entered (its `]` was found), the outermost ends at 0 |
| Parsing.StartAfter | src/parse/parsing.rs:163-171 | the first token of a level fixes the reported start, one column back, and later tokens keep it |
| Parsing.RawParser.constructor | src/parse/parsing.rs:122-130 | `RawParser::new` is the start state over the data |
| Parsing.RawParser.NextToken | src/parse/parsing.rs:89-105 | the returned token and new state are those of `RawLex` |
| Parsing.RawParser.IncrementNestLevel | src/parse/parsing.rs:107-109 | only the nesting counter changes, by one up |
| Parsing.RawParser.DecrementNestLevel | src/parse/parsing.rs:111-113 | only the nesting counter changes, by one down |
| Parsing.RawParser.NestLevel | src/parse/parsing.rs:115-117 | returns the nesting counter |
| Parsing.RawParser.EofToken | src/parse/parsing.rs:132-134 | the end-of-input token at the current position |
| Parsing.RawParser.Append | src/parse/parsing.rs:37 | the chunk is appended to the buffer, and nothing else changes |
| Parsing.RawParser.ParseProgram | src/parse/parsing.rs:137-140 | the program is the block `ParseSpec` gives without running anything, or its error |
| Parsing.ReplParser.constructor | src/parse/parsing.rs:61-67 | an empty buffer, every chunk still to come, nothing reported |
| Parsing.ReplParser.NextToken | src/parse/parsing.rs:29-44 | the refill loop returns the token and leaves the state that `Lex` gives |
| Parsing.ReplParser.IncrementNestLevel | src/parse/parsing.rs:46-48 | only the nesting counter changes, by one up |
| Parsing.ReplParser.DecrementNestLevel | src/parse/parsing.rs:50-52 | only the nesting counter changes, by one down |
| Parsing.ReplParser.NestLevel | src/parse/parsing.rs:54-56 | returns the nesting counter |
| Parsing.ReplParser.ParseAndRun | src/parse/parsing.rs:70-74 | the program and the executed expressions are those of `ParseSpec` with running on, and `Exited` is reported last |
| Parsing.Source.NextToken | src/parse/parsing.rs:14 | either source returns the token `Lex` gives |
| Parsing.Source.IncrementNestLevel | src/parse/parsing.rs:16 | either source raises its nesting counter by one |
| Parsing.Source.DecrementNestLevel | src/parse/parsing.rs:17 | either source lowers its nesting counter by one |
| Parsing.Source.NestLevel | src/parse/parsing.rs:18 | either source returns its nesting counter |
| Parsing.Parse | src/parse/parsing.rs:147-206 | the loop of `parse` returns the result, final source state and executed expressions of `ParseSpec` |
| Parsing.ParseStep | src/parse/parsing.rs:153-204 | one turn of the loop either ends `parse` with its outcome or moves the source forward, leaving the outcome unchanged |
| Parsing.ParseCommand | src/parse/parsing.rs:173-203 | one of the six simple commands adds its expression to the block and runs it at level 0 of a running parse, as `ParseToken` says |
| Parsing.ParseEnd | src/parse/parsing.rs:184-197 | a `]` closes the level or, at level 0, fails at its own position; the end of input fails inside an open level at the recorded start |
| Parsing.ParseLoop | src/parse/parsing.rs:180-183 | a `[` parses the body one level deeper; its error ends `parse`, otherwise the loop is added and run at level 0 |
| Parsing.LoopNew | src/parse/ast.rs:140-143 | the loop body is the block `ParseSpec` gives without running anything, or its error |
| ParsingProps.ExprToken | src/parse/parsing.rs:173-179 | every non-loop expression comes from a simple command token, the one `parse` turns into it |
| ParsingProps.ExprByte | src/parse/parsing.rs:173-179 | every non-loop expression has a command byte that parses back to it |
| ParsingProps.Brackets | src/parse/token.rs:15-28 | the loop brackets are the bytes that spell the two jump tokens |
| ParsingProps.StepCommand | src/parse/parsing.rs:173-203 | a command byte adds its expression, runs it at level 0 when running, and moves one column on |
| ParsingProps.StepOpen | src/parse/parsing.rs:180-183 | a `[` hands the rest to a parse one level deeper |
| ParsingProps.StepClose | src/parse/parsing.rs:184-190 | a `]` ends the level, or at level 0 fails at its own line and column |
| ParsingProps.StepEnd | src/parse/parsing.rs:192-197 | the end of a fixed buffer finishes the block at level 0 and fails at the recorded start otherwise |
| ParsingProps.StepEndStream | src/parse/parsing.rs:29-39 | a streaming source with no chunk left reports `Ready` and then ends at the current position |
| ParsingProps.StepRefill | src/parse/parsing.rs:29-37 | an exhausted streaming buffer reports `Ready` and takes the next chunk |
| ParsingProps.ParseLevel | src/parse/parsing.rs:147-206 | the text of a block parses to that block at any level, running all of it at level 0 |
| ParsingProps.ParseBody | src/parse/ast.rs:140-143 | a loop body followed by its `]` parses to the body and closes the level |
| ParsingProps.ParseOne | src/parse/parsing.rs:173-203 | the text of one expression adds exactly that expression |
| ParsingProps.ParseThrough | src/parse/parsing.rs:153-204 | the text of a sequence of expressions appends exactly those expressions |
| ParsingProps.ParseUnparse | src/parse/parsing.rs:147-206 | parsing the text of a block gives back that block and reads the whole buffer (`ParseCommented` is the general form) |
| ParsingProps.UnmatchedClose | src/parse/parsing.rs:184-187 | a stray `]` fails at its own position after what came before was run |
| ParsingProps.UnclosedLevel | src/parse/parsing.rs:192-195 | an inner level that reaches the end of a fixed buffer fails at its first token, one column back, or at line 0, column -1 when it has none |
| ParsingProps.ParseOpenRest | src/parse/parsing.rs:180-183 | a failing loop body makes the whole parse fail with its error |
| ParsingProps.UnmatchedOpen | src/parse/parsing.rs:163-195 | an unclosed `[` fails at the `[` when a token follows it, and what came before was run |
| ParsingProps.ReplFirstChunk | src/parse/parsing.rs:29-37 | a streaming parse first reports `Ready` and takes the first chunk |
| ParsingProps.ReplParse | src/parse/parsing.rs:236-249 | a streaming parse sent a block's text and then closed returns that block, runs all of it and reports `Ready` twice |
| ParsingProps.UnclosedLevelStream | src/parse/parsing.rs:192-195 | an inner level that reaches the end of a closed stream fails one column before its first token |
| ParsingText.StepComment | src/parse/parsing.rs:163-191 | a byte that is not a command adds nothing, executes nothing and moves the position over it, a newline to the next line; as the first token of a level it fixes the start |
| ParsingText.ParseText | src/parse/parsing.rs:153-204 | a text whose command bytes are the text of `s`, comments anywhere, appends exactly `s`, runs it at level 0 and moves over the whole text |
| ParsingText.InnerLevel | src/parse/parsing.rs:180-190 | the parse one level deeper after a `[` returns the body up to the matching `]`, runs nothing and restores the nesting counter |
| ParsingText.ParseCommented | src/parse/parsing.rs:147-206 | any text whose command bytes, in order, are the text of a block parses to that block, runs all of it when running, and reads the whole buffer |
| ParsingBack.ParsedFrom | src/parse/parsing.rs:147-206 | from any state of a fixed buffer, a successful parse read exactly the text of the expressions it appended, followed by the `]` that closed an inner level; the outermost level read up to the end of the buffer |
| ParsingBack.ParsedComment | src/parse/parsing.rs:191 | a non-command byte is read with nothing appended for it |
| ParsingBack.ParsedCommand | src/parse/parsing.rs:173-179 | a simple command byte is read as the text of the expression appended for it |
| ParsingBack.ParsedOpen | src/parse/parsing.rs:180-183 | a `[`, the body the deeper level read and its `]` are read as the text of the loop appended |
| ParsingBack.ParsedClose | src/parse/parsing.rs:184-190 | a `]` is the whole text an inner level reads on closing, and at level 0 the parse fails |
| ParsingBack.ParsedText | src/parse/parsing.rs:147-206 | when parsing a whole text succeeds, the command bytes of the text are the text of the block returned |
| ParsingBack.ParseExactly | src/parse/parsing.rs:147-206 | a text parses to a block exactly when its command bytes, in order, are the text of that block |
| ParsingBack.UnbalancedFails | src/parse/parsing.rs:180-197 | a text whose command bytes are the text of no block, such as one with an unmatched bracket, fails |
| ParsingProps.ReplUnmatchedOpen | src/parse/parsing.rs:252-265 | a streaming parse sent an unclosed `[` fails at the `[`, after running what came before |
| Bytecode.FromOps | src/compile/bytecode.rs:47-53 | the program holds exactly the operations given |
| Bytecode.ToOps | src/compile/bytecode.rs:55-59 | converting back to operations and forth again gives the same program |
| Bytecode.Prelude | src/compile/bytecode.rs:61-68 | the prelude is six lines |
| Bytecode.Bss | src/compile/bytecode.rs:108-111 | the trailer is two lines |
| Bytecode.NativeCode | src/compile/bytecode.rs:70-106 | every operation is written as one to five lines |
| Bytecode.Emit | src/compile/bytecode.rs:35-44 | the loop writes the prelude, then each operation's lines in order, then the trailer |
| Bytecode.DecodeAdd | src/compile/bytecode.rs:72 | the line of `Add(n)` reads back as `Add(n)` |
| Bytecode.DecodeSub | src/compile/bytecode.rs:73 | the line of `Sub(n)` reads back as `Sub(n)` |
| Bytecode.DecodeMoveRight | src/compile/bytecode.rs:74 | the line of `MoveRight(n)` reads back as `MoveRight(n)` |
| Bytecode.DecodeMoveLeft | src/compile/bytecode.rs:76 | the line of `MoveLeft(n)` reads back as `MoveLeft(n)` |
| Bytecode.DecodeJump | src/compile/bytecode.rs:91-94 | the two lines of a jump read back as that jump |
| Bytecode.DecodeJumpNotZero | src/compile/bytecode.rs:95-99 | the three lines of a conditional jump read back as that jump |
| Bytecode.DecodeNativeCode | src/compile/bytecode.rs:70-106 | every operation's lines read back as that operation, whatever follows |
| Bytecode.DecodeNativeCodes | src/compile/bytecode.rs:39-41 | the lines of any sequence of operations read back as that sequence |
| Bytecode.DisassembleEmitted | src/compile/bytecode.rs:35-44 | the emitted text determines the program |
| Compiler.LoopLabel | src/compile/compiler.rs:98 | a loop label is `LOOP` followed by decimal digits |
| Compiler.LoopLabelInjective | src/compile/compiler.rs:97-101 | two labels are equal exactly when their counts are |
| Compiler.SimpleCompiler.constructor | src/compile/compiler.rs:91-95 | a new compiler has used no labels |
| Compiler.SimpleCompiler.NextLoopLabel | src/compile/compiler.rs:97-101 | returns the label of the current count and advances the count by one |
| Compiler.SimpleCompiler.CompileExpr | src/compile/compiler.rs:39-87 | the code is `CompiledExpr` at the old count, and the count advances by the loops in the expression |
| Compiler.SimpleCompiler.CompileBlock | src/compile/compiler.rs:78 | the loop over the block's expressions joins their code in order and advances the count by the block's loops |
| Compiler.SimpleCompiler.CompileProgram | src/compile/compiler.rs:31-37 | the entry block's code followed by `Exit` |
| Compiler.JumpLabelsCompiled | src/compile/compiler.rs:70-85 | the jump labels of a block's code are the labels minted for its loops, in order |
| Compiler.JumpLabelsExpr | src/compile/compiler.rs:70-85 | the jump labels of one expression's code are the labels minted for its loops |
| Compiler.JumpsDistinct | src/compile/compiler.rs:70-85 | a block's code has one jump per loop, and no two jumps share a label |
| Compiler.ScanExpr | src/compile/compiler.rs:70-85 | the code of one expression opens and closes its labels like brackets |
| Compiler.ScanSeq | src/compile/compiler.rs:70-85 | the code of a block opens and closes its labels like brackets |
| Compiler.Balanced | src/compile/compiler.rs:70-85 | every conditional jump in a block's code closes the innermost open jump with the same label |
| Compiler.NoExit | src/compile/compiler.rs:39-87 | a block's code contains no `Exit` |
| Compiler.NoExitExpr | src/compile/compiler.rs:39-87 | an expression's code contains no `Exit` |
| Compiler.ProgramExits | src/compile/compiler.rs:31-37 | a program's code ends with `Exit`, its only `Exit` |
| Compiler.EraseCompiled | src/compile/compiler.rs:42-69 | each command compiles to its own operation with magnitude 1, so erasing a block's code gives the block's text |
| Compiler.EraseExpr | src/compile/compiler.rs:39-87 | erasing an expression's code gives that expression's text, and every operation is a single step |
| Compiler.CompileThenParse | src/compile/compiler.rs:39-87 | parsing the erased code of a block gives the block back |
| Optimizer.Flush | src/compile/optimizer.rs:46-52 | a run becomes at most one operation of its kind with a positive magnitude, carrying the run's net amount |
| Optimizer.RunLength | src/compile/optimizer.rs:41-45 | the run of one kind that opens the queue, and the first operation that stops it |
| Optimizer.Collapse | src/compile/optimizer.rs:39-58 | the rest of the queue starts right after the run |
| Optimizer.CollapseStopped | src/compile/optimizer.rs:45-54 | a run stopped by another operation is flushed with its net amount, and that operation is put back |
| Optimizer.OptimizedRunStep | src/compile/optimizer.rs:29-32 | a cell change or pointer move opens a collapsed run |
| Optimizer.OptimizedBoundaryStep | src/compile/optimizer.rs:33 | every other operation is passed on unchanged |
| Optimizer.OptimizeAdd | src/compile/optimizer.rs:39-58 | the loop of `optimize_add` returns the flushed cell run and the rest of the queue |
| Optimizer.OptimizeMove | src/compile/optimizer.rs:60-79 | the loop of `optimize_move` returns the flushed pointer run and the rest of the queue |
| Optimizer.OptimizeOps | src/compile/optimizer.rs:25-37 | the loop of `optimize` returns the whole pass over the queue |
| Optimizer.Optimizer.Optimize | src/compile/optimizer.rs:20-22 | the optimized program is the pass over the program's operations |
| Optimizer.TotalOutside | src/compile/optimizer.rs:29-33 | operations outside a run of one kind add nothing to that kind's total |
| Optimizer.FlushedRun | src/compile/optimizer.rs:39-58 | a maximal run stopped by another operation becomes its flushed net amount, and the pass goes on from there |
| Optimizer.TrailingRunDropped | src/compile/optimizer.rs:41-57 | a run that reaches the end of the queue is dropped |
| Optimizer.BoundariesKept | src/compile/optimizer.rs:25-37 | every operation that is not a cell change or pointer move comes through the pass, in order |
| Optimizer.OptimizedShape | src/compile/optimizer.rs:46-52 | every emitted cell change and pointer move has a positive magnitude, and the pass never lengthens the code |
| Optimizer.TotalsKept | src/compile/optimizer.rs:25-79 | over code that ends with a boundary, the pass keeps the net cell change and net pointer move |
| Optimizer.TrailingAddLost | src/compile/optimizer.rs:41-57 | `[Add(1)]` optimizes to nothing, so a final run loses its amount |
| Optimizer.NotIdempotent | src/compile/optimizer.rs:25-37 | a second pass can change the result of the first: a pointer run that cancels out joins two cell runs |

## Left out

- `Repl` (the interactive driver in `src/interpreter.rs:22-114`) is not modelled: threads, the barrier, terminal prompts, reading lines and the `quit` command. The streaming parser instead takes the chunks the driver would send, as a list fixed in advance. Closing the channel is the end of that list.
- Parsing.ReplParser.NextToken: a failed `Ready` send, which ends the stream in the source, is not modelled. Every send is taken to succeed.
- Parsing.ReplParser.ParseAndRun: the `Exited` report is always recorded; its send failure, ignored by the source, has no effect here either.
- Parsing.Parse: the private `Context` that `parse` runs expressions on is discarded by the source. The model records the expressions handed to it (`executed`) and does not run them.
- Parsing.StartAfter: the column is an unbounded integer. Where the source computes `0 - 1` in `usize`, the model gives -1. The source would panic in a debug build and wrap in a release build.
- Parsing.Source: the generic `parse<T: Parser>` over the `Parser` trait is a datatype with one case per token source.
- Ast.Block.AddExpr: the block is a value, and adding returns the new block. The source pushes onto the block in place, but no block is shared, so nothing observes the difference.
- Ast.Loop.Run: non-termination is bounded by fuel. `false` means no final state within the fuel, which is what the source shows by not returning.
- Interpreter.Context.Input: when standard input is exhausted the source keeps reading forever; the model returns `false`. Standard input and output are sequences of bytes in the state. Flushing and its failure message are not modelled.
- Interpreter.Context.Output: the source prints `char::from(cell)`, the code point 0 to 255 of the cell, which Rust writes to standard output in UTF-8. A cell below 128 is one byte, but a cell from 128 up becomes two bytes. The model appends the cell value itself, one entry per `.`, so its output holds code points, not the bytes of standard output.
- Interpreter.Machine.Input: standard input is given in advance as one sequence, so the line-by-line refill of the input buffer is not modelled.
- Bytecode.Emit: the writer is a sequence of lines. A failed write, which panics in the source, is not modelled.
- Bytecode: `Label` is declared here rather than in the compiler, so that the bytecode needs no import of the compiler.
- Compiler.SimpleCompiler.CompileBlock: `Program::compile` and `Block::compile` are not part of this model. They are taken to be the entry block's compilation and the joined compilation of a block's expressions.
- Optimizer.OptimizeAdd: the running sum is an unbounded integer. The source's `isize` overflow is not modelled, and neither is negating `isize::MIN`.
- Optimizer.OptimizeMove: the same for pointer moves.
- Optimizer.OptimizeAdd: the queue passed as `&mut VecDeque` is a sequence that goes in and a rest that comes back out.
- Optimizer: preservation of the compiled program's meaning is not stated; the pass is characterised by its totals and boundaries instead.
- `src/main.rs` (command line, file reading) and the `Display` text of errors (`src/parse/error.rs`) are not part of this model.
