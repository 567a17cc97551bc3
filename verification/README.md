# tinyCompile, verified

tinyCompile compiles a small C-like language to x86-64 machine code in memory: a Pratt parser, a
scope and type checker, a linear intermediate representation, a one-shot register and slot
allocator with an encoder, backpatching, and a linker. This project models the compiler stage by
stage, from the characters of a file to the bytes that a processor runs, and proves what the
stages promise each other.

## How the model is laid out

- `Words`, `WordLaws`, `Ast`, `Numerals`, `Source`: 64-bit words and what their operations mean in
  integers and bits, syntax trees, numerals, and what a program means: an interpreter with fuel,
  whose outcomes are a returned value, a trap (division by zero, or the smallest number by -1),
  falling off the end, being stuck, or being out of fuel, with the trace of calls.
- `Tokens`, `Parsing`, `Recovery`, `Freshness`, `Printing`, `Grouping`, `Lexing`, `Spacing`,
  `TextRoundTrip`, `Crashes`, `Scanner`, `Parser`: the lexer and the parser as functions, a
  printer, how operators group, what may stand between tokens, the round trip, recovery, which
  files break the parser, and the two classes that work step by step.
- `OpenAddressing`, `SymbolTable`, `Semantic`, `Annotation`, `Analyzer`, `Globals`, `ConstEval`,
  `SilentLoss`, `Resolvers`, `SelfInit`, `Soundness`: scope tables, the analyser, what it accepts
  and fills in, the program-wide function table, constant evaluation, and how the two scope
  resolvers agree.
- `Typing`, `Ir`, `Lowering`, `IrShape`, `LoweringCorrect`, `IrGen`, `TableRoom`, `Callees`: the
  intermediate representation and its interpreter, lowering, that it preserves meaning and calls,
  and when the generator runs out of room.
- `X86`, `Machine`, `Emission`, `Encoders`, `Allocation`, `CodeLayout`, `Templates`,
  `CallProtocol`, `Simulation`, `CallSimulation`, `Divergence`, `FrameSafety`: instruction bytes and
  their decoder, a processor that runs bytes, and the forward simulation of the intermediate
  representation, of runs that end and of runs that do not.
- `Jit`, `JitContext`, `Backpatching`, `Linking`, `Driver`, `Compiler`: the two passes,
  backpatching, linking, and one program from source to bytes.
- `Programs`, `Units`, `Acceptance`, `Pipeline`, `SyntaxErrors`: what the declarations of all files
  mean, that the front end accepts exactly those that mean a program, and the compiler as a whole.
- `Arena`: the allocator. `Limits`: the constants of `incs/defines.h`.

The objects that the original updates in place are classes (`Parsers.Parser`, `Scanners.Lexer`,
`SymbolTables.SymbolTable`, `Analyzers.SemanticAnalyzer`, `Globals.GlobalScope`,
`IrGen.IrBuilder`, `Emission.Emitter`, `JitContexts.JitContext`, `Arenas.Arena`). Their methods
are proved against the functions that the theorems are about. All lemmas are proved without
automatic induction.

## Premises

The theorems about running programs need these, and say so:

- Expressions contain no assignment; the generator rejects them (`srcs/ir/ir_gen.c:230-241`).
- An initialiser does not mention the variable that it initialises. See `SelfInitMisread`.
- A branch or loop body is not a bare declaration.
- Functions have a type other than void. A run that goes off the end of a function, where the
  original emits no epilogue, is told apart from all others and nothing is said of it.
- At most 1024 calls stand in the program; the original does not record more of them. What it then
  leaves is said by `Driver.CapLeaves`.

## Findings

Places where the code does not do what a reader of it would expect. Each is a theorem.

- The generator declares a variable before it lowers the initialiser, and the analyser after it has
  checked it. `int x = 1; { int x = x; return x; }` is accepted, means 1, and compiles to code that
  reads a slot that was never written. The resolvers agree exactly when no initialiser mentions
  its own variable (`SelfInit.SelfInitMisread`, `Resolvers.ResolversAgree`).
- The narrowing check compares types, not values. `int x = 65536 * 65536;` is accepted without a
  warning, and leaves 0 in `x`. Silence can be relied on exactly when the destination is the
  smaller type, or its size is neither one nor four bytes, or the value fits
  (`SilentLosses.SilentLoss`, `ConstEval.SilenceExact`).
- After an error an expression may have no tree, and an assignment or call that follows looks into
  it: `int f() { 1 = (` and `int f() { ()) =` follow a null pointer, whatever comes next. That
  happens exactly when `=` or `(` is met without a tree, and then an error has been reported; it
  cannot happen where neither comes directly after `)`, `;`, `=` or `(`
  (`Crashes.FilesThatCrash`, `Crashes.CrashesExactly`, `Crashes.CalmIsSafe`).
- Syntax errors are reported, and the program is compiled all the same: what counts is whether there is a
  tree. Any file that ends in a function may lack its last brace
  (`SyntaxErrors.ErrorsAreIgnored`, `Pipeline.CompileTexts`).
- The array for parameters has room for 16, and nothing stops a 17th. A file that is read without an
  error overruns it exactly when one of its declarations has more than 16
  (`Crashes.WideListBreaks`, `Crashes.WideExactly`).
- Linking can succeed although calls were left out: those after the first 1024 keep the placeholder
  0xDEADBEEFDEADBEEF as their target, and need not even be defined
  (`Driver.CapLeaves`, `Driver.LinksExactly`).
- A character outside the language, such as `$` or `@`, is passed over without any error
  (`Spacing.UnreadableIsSkipped`).
- Sizes wrap around in the arena: asked for 2^64 - 11 bytes, an empty arena maps one page, hands
  out an address, and the next allocation lies inside the block's header. What is handed out is
  safe exactly when the request is smaller than the address space
  (`Arenas.WrappedAllocation`, `Arenas.AllocatedSafe`).
- A temporary scope that began on an empty arena is not rolled back: all blocks but the first are
  unmapped, although they stay in the chain (`Arenas.LostRollback`). That is so exactly when the
  arena was empty at the beginning and is not at the end (`Arenas.Arena.TempEnd`).

## Model

| member | source | states |
|---|---|---|
| Pipeline.AcceptedProgramRuns | srcs/compile/compile.c:109-145 | Let `q` be the program that the declarations of all files mean, statement by statement, and let it be linked in memory. The machine code of every function comes back with the value that the source interpreter gives, callee-saved registers and the caller's memory unchanged, or faults where the source traps; and the source is never stuck. |
| Pipeline.AcceptedProgramRunsOn | srcs/compile/compile.c:109-145 | In the same setting a call that never ends in the source keeps the processor running for ever, without a fault; if nothing can be executed at the return address, it never comes back there, and (unless a run falls off a function's end) the processor runs for ever only then. |
| Acceptance.AcceptedExactly | srcs/compile/compile.c:109-145 | Whatever the hash function, the declarations of all files are accepted if and only if they are coherent and mean a program: a function for each definition and no other, with its name, type, parameters and all its statements, every name declared, every call to a function that the same file declares, with the right number of arguments, and every node typed; there is only one such program, and it is the one compiled. |
| Pipeline.CompileTexts | srcs/main.c:47-75 | From characters: succeeds exactly when every file is read to declarations without holes, with or without errors (all files are parsed, also after one that is refused), and collecting, analysing, generating, compiling and linking succeed; then memory holds the linked code of the program that these declarations mean. |
| Pipeline.PrintedIsRead | srcs/parser/parser.c:13-51 | Every file within the parser's limits has a text that is read as that file, without an error. |
| SyntaxErrors.ErrorsAreIgnored | srcs/compile/compile.c:89-107 | Whatever the file, if it ends in a function and its last brace is left out, an error is reported and it is read as the same declarations all the same. |
| Pipeline.CompileFiles | srcs/compile/compile.c:109-145 | Succeeds exactly when the declarations are consistent, every body is accepted with the signatures of its own file, every function compiles within the memory, and every recorded call is to a function of the program; then (unless call sites were dropped) the linked code of the program that the declarations mean is in memory, with every called function in it. |
| Units.AcceptedAgrees | srcs/semantic/semantic.c:500-603 | The arity that any file sees for a function is the arity of its definition. |
| Compiler.CompilerCorrect | srcs/jit/jit.c:188-367 | From source to bytes: a settled run of a typed program is reproduced by the processor on the linked bytes, with value, stack pointer, callee-saved registers and the caller's memory as the System V AMD64 ABI demands, or faults. |
| Compiler.CompilerDiverges | srcs/jit/jit.c:188-367 | A call of a typed program that no amount of fuel settles leaves the processor running after any number of steps: it does not fault, and never comes back to a return address where there is no code. |
| Driver.BuiltProgramRuns | srcs/jit/jit.c:326-367 | What the compile pass and the linker leave in memory runs as the source program does. |
| Driver.BuiltProgramDiverges | srcs/jit/jit.c:326-367 | And where the source program runs without end, so does what is in memory. |
| Driver.LinksExactly | srcs/jit/jit.c:293-324 | Every recorded call site has an address exactly when every recorded call of the source is to a function of the program; recorded are the first 1024. |
| Driver.SitesAreCalls | srcs/jit/encoders.c:388-398 | The call sites of the code are the calls of the source, one for one, in the order of evaluation, function by function. |
| Driver.CapLeaves | srcs/jit/encoders.c:395-396 | After linking, each of the first 1024 call sites holds the address of its function, if it has one, and every later site still holds the placeholder, whether linking reported success or not. |
| Driver.Build | srcs/jit/jit.c:293-367 | Succeeds exactly when every function lowers, its names and labels fit their tables, there are not too many functions, their code fits the memory, and every recorded call is to a function of the program; then the code of every function, with its calls filled in, is at the address registered for its name. |
| Driver.CompilePass | srcs/jit/jit.c:326-367 | Compiles all functions, each with its own code in its own segment, exactly when each of them compiles and together they fit. |
| Callees.CallsAreKept | srcs/ir/ir_gen.c:80-112 | The calls in the code are the calls in the source, in the order of evaluation, inner calls first, reached or not: the same callees, and directly before each CALL exactly as many ARGs as the call has arguments. |
| Callees.LoweredCalls | srcs/ir/ir_gen.c:80-112 | The functions that the code calls are exactly those that the source calls. |
| LoweringCorrect.InvokeCorrect | srcs/ir/ir_gen.c:445-507 | Lowering preserves meaning: for every call of a typed program that does not get stuck, with loops, blocks, shadowing and recursion, the generated code ends in the same value or trap with the same calls in the same order; and with fuel that does not settle the source, the code is not settled either. |
| LoweringCorrect.ExprCorrect | srcs/ir/ir_gen.c:197-243 | Running the code of an expression reaches its end with the value in the result register, disturbing no register that was in use, or traps as the source does. |
| LoweringCorrect.StmtCorrect | srcs/ir/ir_gen.c:415-443 | Running the code of a statement leaves every variable in scope in its slot or register with its new value, or ends the call with the same outcome. |
| LoweringCorrect.IfElseCorrect | srcs/ir/ir_gen.c:245-294 | The same of an if-else: the branch that the source takes is the one that the jumps reach. |
| LoweringCorrect.WhileCorrect | srcs/ir/ir_gen.c:296-324 | The same of a loop, over any number of iterations. |
| LoweringCorrect.VarDeclCorrect | srcs/ir/ir_gen.c:326-360 | A declaration opens a slot of its own, holding the initial value narrowed to its width, or zero. |
| LoweringCorrect.BlockCorrect | srcs/ir/ir_gen.c:406-413 | After a block the names mean what they meant before it. |
| LoweringCorrect.CallCorrect | srcs/ir/ir_gen.c:80-112 | Arguments are evaluated left to right, the callee gets exactly their values, and its value arrives in the result register. |
| IrShape.LoweredIsWellFormed | srcs/ir/ir_gen.c:14-33 | Generated code is well formed: temporaries are defined once, in straight-line code before their uses; only parameters are assigned; every label is placed once; arguments are numbered from 0 and nothing comes between them and their CALL; no instruction was dropped. |
| IrGen.GenFunction | srcs/ir/ir_gen.c:445-507 | The step-by-step generator, with its chunks, counters and symbol table, gives exactly the code of `LowerFunc`, whatever the hash function, and no code exactly when an error was recorded; it stops exactly when a name meets a full symbol table. |
| TableRoom.RoomIsNames | srcs/ir/ir_symboltable.c:37-69 | For a function that lowers, that is seen in the source: the table is full exactly when a new name is declared while as many distinct names as it has slots are in scope. |
| IrGen.IrBuilder.EmitInstr | srcs/ir/ir_gen.c:14-33 | Appends the instruction, filling the last chunk or starting a new one, or drops it at the cap. |
| IrGen.IrBuilder.GenExpression | srcs/ir/ir_gen.c:197-243 | The new state and result register are those of `LowerExpr`. |
| IrGen.IrBuilder.GenCall | srcs/ir/ir_gen.c:80-112 | The same of a call: all arguments are evaluated before the first ARG. |
| IrGen.IrBuilder.GenIf | srcs/ir/ir_gen.c:245-294 | The new state is that of `LowerStmt`, with the symbol table as it stood but for the undo log; it stops exactly when the table has no room for a name inside. |
| IrGen.IrBuilder.GenWhile | srcs/ir/ir_gen.c:296-324 | The same of a loop. |
| IrGen.IrBuilder.GenVarDecl | srcs/ir/ir_gen.c:326-360 | The same of a declaration, whose name is bound, or finds the table full, before its initialiser is generated. |
| IrGen.IrBuilder.GenAssignment | srcs/ir/ir_gen.c:362-392 | The same of an assignment to a slot or a parameter. |
| IrGen.IrBuilder.GenBlock | srcs/ir/ir_gen.c:406-413 | The same of a block, after which the table is restored to what it was. |
| IrGen.IrBuilder.GenStatement | srcs/ir/ir_gen.c:415-443 | The same of any statement. |
| SymbolTables.RunRefines | srcs/ir/ir_symboltable.c:20-79 | Any interleaving of entering, adding, declaring as a stack variable and leaving on the table with its undo log is the same interleaving on a stack of maps, and probing finds the innermost binding. |
| SymbolTables.LeaveRestores | srcs/ir/ir_symboltable.c:71-79 | Restoring to a mark after any well nested run gives back exactly the entries and the log at the mark. |
| SymbolTables.SymbolTable.Lookup | srcs/ir/ir_symboltable.c:20-35 | Finds the slot of the name exactly if it is bound. |
| SymbolTables.SymbolTable.Add | srcs/ir/ir_symboltable.c:37-69 | Binds the name, logging the old entry; fails only if the table is full. |
| SymbolTables.SymbolTable.RoomExactly | srcs/ir/ir_symboltable.c:37-69 | There is a slot for a name exactly when it has one already or fewer names than slots are bound. |
| SymbolTables.SymbolTable.Restore | srcs/ir/ir_symboltable.c:71-79 | Undoes the log back to the mark, newest change first, keeping probe chains whole. |
| OpenAddressing.AddedPosition | srcs/ir/ir_symboltable.c:37-69 | Adding one name does not change where any other is found. |
| OpenAddressing.FullExactly | srcs/ir/ir_symboltable.c:37-69 | Linear probing from any hash finds a slot for a name exactly when it is bound or the table is not full. |
| Annotation.FuncErased | srcs/semantic/semantic.c:243-498 | The analyser gives back the function that it was given, up to the types that it fills in, whether it accepts it or not. |
| Annotation.AcceptsExactly | srcs/semantic/semantic.c:243-498 | A function as the parser builds it is accepted if and only if it can be well annotated: names resolve to the innermost declaration, scopes have no duplicates and room, calls are in sight and fit, void is converted to nothing else, and every node has its type; the annotation is unique and is what the analyser gives back, whatever the hash function. |
| Freshness.ReadFresh | srcs/parser/parser.c:13-51 | On every token stream the trees that the parser builds leave all types to be filled in. |
| Semantic.AcceptedIsTyped | srcs/semantic/semantic.c:243-498 | A function that the analyser accepts leaves it with every identifier resolved and annotated with its declaration's type. |
| Soundness.AcceptedIsSound | srcs/semantic/semantic.c:243-634 | When every function is accepted and every called function is defined, no run is stuck on an unknown name, a missing function or a wrong number of arguments. |
| Analyzers.SemanticAnalyzer.ScopeLookup | srcs/semantic/semantic.c:29-48 | Probes the scopes from the innermost outwards, and finds what `LookupVar` gives. |
| Analyzers.SemanticAnalyzer.ScopeDeclare | srcs/semantic/semantic.c:50-88 | Declares in the innermost scope, refusing a name that it has. |
| Analyzers.SemanticAnalyzer.AnalyzeExpression | srcs/semantic/semantic.c:243-396 | Accepts and annotates as `CheckExpr`. |
| Analyzers.SemanticAnalyzer.AnalyzeStatement | srcs/semantic/semantic.c:398-498 | Accepts and annotates as `CheckStmt`, and leaves the scopes that it gives. |
| Analyzers.SemanticAnalyzer.AnalyzeFunction | srcs/semantic/semantic.c:605-634 | Accepts and annotates as `CheckFunc`, in one scope for parameters and body, and closes it. |
| Resolvers.ResolversAgree | srcs/semantic/semantic.c:398-418 | The two resolvers, one declaring before the initialiser and one after, agree on every identifier exactly when no initialiser mentions its own variable. |
| Resolvers.LoweredTouches | srcs/ir/ir_gen.c:52-78 | The loads and stores of generated code touch the slots that the early resolver names, in order. |
| Resolvers.SlotsHaveOneType | srcs/ir/ir_gen.c:326-392 | In accepted functions every load and store of a slot uses the type of the declaration to which the analyser resolved the name. |
| Resolvers.AcceptedLowers | srcs/ir/ir_gen.c:52-78 | The generator's "undefined variable" paths are never taken on accepted functions: only registers or instructions can run out. |
| SelfInit.SelfInitMisread | srcs/ir/ir_gen.c:331-340 | The input on which the resolvers disagree: accepted, returns 1 in the source, and its code reads a slot that was never written. |
| Globals.CollectsConsistent | srcs/semantic/semantic.c:500-603 | Collecting declarations succeeds exactly when those of each name agree on return type and arity, with at most one definition, within the limits; and then the table says of each name what its declarations say. |
| Globals.OrderIrrelevant | srcs/compile/compile.c:113-131 | The order of files and declarations does not matter to acceptance. |
| Globals.OneDefinition | srcs/semantic/semantic.c:555-573 | After collection two declarations of a name have one arity and type, and are not both definitions. |
| Globals.LookupCollected | srcs/semantic/semantic.c:595-603 | After collection looking up a declared name finds the arity and type of all its declarations. |
| Globals.TableSpeaks | srcs/semantic/semantic.c:540-573 | The parameters in the table are those of the definition, wherever it stands, and without one those of the first declaration. |
| Globals.GlobalScope.DeclareFunction | srcs/semantic/semantic.c:500-593 | Updates the table in place as `Declare`; a conflict leaves it as it was. |
| Globals.GlobalScope.CollectAll | srcs/compile/compile.c:113-131 | Goes on after a failure, and succeeds exactly on consistent declarations. |
| ConstEval.ConstSound | srcs/semantic/semantic.c:125-191 | When the evaluator succeeds without undefined behaviour, the expression is accepted and evaluates to that value in every program and environment. |
| ConstEval.ConstFormExactly | srcs/semantic/semantic.c:125-191 | Only numerals under minus, tilde, arithmetic, shifts and bitwise operators have a value, and without a division every such expression is taken for a constant. |
| ConstEval.OneOperation | srcs/semantic/semantic.c:166-186 | One operation has a value exactly where the machine's result is that of the integers and C defines it. |
| ConstEval.ConstLowered | srcs/ir/ir_gen.c:145-195 | So does its generated code: a run of it leaves that value in the result register. |
| ConstEval.NarrowingExact | srcs/semantic/semantic.c:193-241 | For every constant and all types: under its guard the check is silent exactly when the value survives in a local of one or four bytes; without it the check is always silent and survival is fitting. |
| ConstEval.SilenceExact | srcs/semantic/semantic.c:205-231 | Silence implies survival if and only if the destination is the smaller type, or is not of one or four bytes, or the value fits. |
| ConstEval.SilentSurvives | srcs/jit/emit.c:174-220 | The same in the cell: a silent constant stored with the local's width is what the sign-extending load gives, exactly under that condition. |
| SilentLosses.SilentLoss | srcs/semantic/semantic.c:193-207 | A function accepted without a warning whose constant initialiser 4294967296 is 0 in every run of its code. |
| X86.UniquelyDecodable | srcs/jit/emit.c:8-220 | Decoding the bytes of any sequence of emitted instructions gives exactly those instructions, with their registers, displacements and immediates. |
| X86.DecodeEncode | srcs/jit/emit.c:8-220 | One instruction is decoded from its bytes whatever follows them. |
| Emission.Emitter.EmitU8 | srcs/jit/emit.c:18-26 | Writes one byte if there is a buffer, and counts it in any case. |
| Emission.Emitter.EmitAlu | srcs/jit/emit.c:81-89 | Appends exactly the encoding of the instruction. |
| Emission.Emitter.EmitSetCc | srcs/jit/emit.c:121-135 | Appends exactly the encoding of the instruction. |
| Emission.Emitter.EmitLoadSignExt | srcs/jit/emit.c:174-194 | Appends exactly the encoding of the load of the given size. |
| Emission.Emitter.EmitStoreSized | srcs/jit/emit.c:196-220 | Appends exactly the encoding of the store of the given size. |
| Emission.Emitter.LoadLocation | srcs/jit/helpers.c:6-24 | Appends the code that brings a register or a cell into a register, and nothing for a register that is there already. |
| Emission.Emitter.StoreLocation | srcs/jit/helpers.c:26-43 | Appends the code that stores a register to a location. |
| Allocation.LocateAllSound | srcs/jit/jit.c:24-57 | Whatever registers are asked for in whatever order, no two share a physical register, only callee-saved ones are handed out, a physical register is marked exactly if some register has it, and the others have their own cells. |
| Allocation.StateSound | srcs/jit/jit.c:24-57 | So it is at every instruction of a function. |
| Allocation.FirstServed | srcs/jit/jit.c:31-57 | The first five registers to be asked for get RBX, R12, R13, R14 and R15 in this order, every later one its stack cell. |
| Encoders.Locate | srcs/jit/jit.c:31-57 | A location that was given is never changed. |
| JitContexts.JitContext.GetLocation | srcs/jit/jit.c:31-57 | The table updated in place answers and changes as `Locate`. |
| FrameSafety.FrameIsSafe | srcs/jit/jit.c:161-186 | Cells of locals and registers are pairwise apart, strictly below the saved registers, and at or above the stack pointer, except for the last register's cell, just below it exactly when the number of cells is odd. |
| FrameSafety.LowestCellIdle | srcs/jit/encoders.c:332-416 | At a call neither an argument nor a register relied on afterwards is in the cell below the stack pointer. |
| Templates.BinaryEffect | srcs/jit/helpers.c:45-113 | The code of a binary operation leaves its meaning in the destination's home, or faults exactly where the operation has none, and disturbs only scratch registers. |
| Words.DivideTraps | srcs/jit/encoders.c:209-239 | A division has no result exactly when the divisor is 0, or the smallest number is divided by -1. |
| WordLaws.DivisionLaw | srcs/jit/encoders.c:209-239 | Division cuts off toward zero: the remainder is smaller than the divisor and has the sign of the dividend. |
| WordLaws.WrapLaw | srcs/jit/encoders.c:179-207 | Results keep their residue modulo 2^64, 2^32 or 2^8 and come into the signed range. |
| WordLaws.NarrowLaw | srcs/jit/emit.c:174-220 | A local of one or four bytes keeps the residue of its size as a signed number; every other local keeps all of its value. |
| WordLaws.StoreLaw | srcs/jit/emit.c:196-220 | A sized store leaves the rest of its cell alone. |
| WordLaws.ShiftLeftLaw | srcs/ir/ir_gen.c:168-176 | Shifting left multiplies by a power of two modulo 2^64, with counts modulo 64. |
| WordLaws.ShiftRightLaw | srcs/ir/ir_gen.c:168-176 | Shifting right divides by a power of two and rounds down, of the signed or of the unsigned value. |
| WordLaws.BitwiseLaw | srcs/ir/ir_gen.c:177-179 | And, or and exclusive or work on each of the 64 bits by itself. |
| WordLaws.SizesAreNamed | incs/types.def:16-32 | The size of a type is the number in its name, in bits, and the types whose names start with u, and bool, are unsigned. |
| Numerals.NumeralIsRead | incs/string_view.h:25-42 | The decimal numeral of every number, with any zeros before it, has that number as its value, or the largest word. |
| Numerals.NumeralsAreThese | srcs/lexer/lexer.c:20-28 | Every non-empty string of digits is such a numeral. |
| CallProtocol.EpilogueEffect | srcs/jit/encoders.c:418-446 | The epilogue restores the callee-saved registers, the frame pointer and the stack pointer. |
| Simulation.SimulateBin | srcs/jit/encoders.c:179-239 | The code of a binary operation leads to a state related to the next configuration, or faults where it traps. |
| Simulation.SimulateLoad | srcs/jit/encoders.c:470-489 | The same of a load from a local slot. |
| Simulation.SimulateStore | srcs/jit/encoders.c:448-468 | The same of a store to a local slot, which changes no other cell. |
| Simulation.SimulateJmp | srcs/jit/encoders.c:111-116 | The same of a jump, forwards or backwards. |
| Simulation.SimulateBranch | srcs/jit/encoders.c:118-130 | The same of a conditional jump, taken or not. |
| Simulation.SimulateRet | srcs/jit/encoders.c:418-446 | A return leaves the activation with the value in RAX and the caller's registers and memory as it left them. |
| CallSimulation.BeforeCall | srcs/jit/encoders.c:332-404 | At the call the stack pointer is a multiple of 16 and registers and stack hold exactly the argument values, for any number of them, and no callee-saved register and nothing at or above the old stack pointer has changed. |
| CallSimulation.EnterFunction | srcs/jit/jit.c:81-132 | The prologue saves what must be saved, aligns the stack, and moves every argument to its parameter's home. |
| CallSimulation.AfterReturn | srcs/jit/encoders.c:400-416 | After the return the caller's state is what it was, with the result in its home. |
| CallSimulation.RunSimulated | srcs/jit/encoders.c:76-507 | Whole runs, with loops and recursion: started in a state related to the configuration, the processor returns the same value to the caller, or faults where the run traps. |
| CallSimulation.CalleeSimulated | srcs/jit/encoders.c:332-446 | Both sides of the call protocol together, by induction over recursion. |
| Divergence.EndlessRunsForever | srcs/jit/encoders.c:76-507 | An endless run of the intermediate representation, through loops or ever deeper recursion, keeps the processor busy for ever: instructions without code of their own cannot follow each other without end. |
| Backpatching.PassesAgree | srcs/jit/jit.c:188-275 | The measuring pass goes through the same allocations and pending arguments as the writing pass and counts the same bytes after every instruction. |
| Backpatching.BackpatchingResolves | srcs/jit/encoders.c:11-55 | After the writing pass no patch is left, every jump has the displacement that it would have with all labels known beforehand, and no other byte of memory has changed. |
| JitContexts.JitContext.EncodeLabel | srcs/jit/encoders.c:132-164 | Placing a label fills in all jumps that wait for it, and keeps the other patches in order. |
| JitContexts.JitContext.EncodeCall | srcs/jit/encoders.c:332-416 | Emits the call sequence of the pending arguments, records the site while there is room, and forgets the arguments. |
| JitContexts.JitContext.EncodePrologue | srcs/jit/jit.c:81-132 | Emits the prologue of the specification, locating the parameters in order. |
| JitContexts.JitContext.Measure | srcs/jit/jit.c:204-219 | The pass without a buffer gives the size of the final code, and records no call. |
| JitContexts.JitContext.Write | srcs/jit/jit.c:230-275 | The pass with a buffer writes the final code at the base and nothing elsewhere, and leaves no patch. |
| JitContexts.JitContext.CompileFunction | srcs/jit/jit.c:188-291 | Compiles exactly when labels, memory and the registry suffice; the checks of pass 2 against pass 1 cannot fail; other functions' code is untouched. |
| JitContexts.JitContext.LinkAll | srcs/jit/jit.c:293-324 | Succeeds exactly if every recorded target has been compiled; each site then holds the address that its name was first registered with, and no other byte changes. |
| Linking.CodeLinked | srcs/jit/jit.c:293-324 | Filling the call sites turns the unlinked code of a function into its linked code, eight bytes at each call. |
| Linking.SegmentLinked | srcs/jit/jit.c:293-324 | After linking all sites of all functions, each function's segment is its linked code. |
| Parsing.ParseStmt | srcs/parser/parser_stmt.c:4-12 | On every token stream a statement that is not at the end takes at least one token, and expression depth is balanced. |
| Parsing.ParseExpr | srcs/parser/parser_expr.c:3-33 | On every token stream the expression depth comes back to what it was, and tokens are never given back. |
| Parsing.Synchronize | srcs/parser/parser_utils.c:43-63 | Recovery ends on every token stream, and may stay where it is. |
| Recovery.SynchronizeStops | srcs/parser/parser_utils.c:43-63 | Recovery takes tokens exactly up to the first place after a semicolon, or before `if`, `while`, `return`, `int`, `{` or the end, and changes nothing else. |
| Recovery.OnlySixStart | srcs/parser/parser_expr.c:12-20 | At a token that is no number, name, minus, `!`, `~` or parenthesis an expression has no tree, takes that token, and reports an error. |
| Parsers.Parser.ParseExpression | srcs/parser/parser_expr.c:3-33 | The parser with two tokens in hand and a lexer behind it does exactly what `ParseExpr` says, on state and tree. |
| Parsers.Parser.ParseArguments | srcs/parser/parser_expr.c:143-161 | The loop over arguments collects those of `ParseArgs`. |
| Parsers.Parser.ParseStatements | srcs/parser/parser_stmt.c:22-37 | The loop over statements, with recovery after one that fails, collects those of `ParseStmts`. |
| Parsers.Parser.ParseFunctionDecl | srcs/parser/parser_stmt.c:53-106 | Reads a prototype or definition as `ParseFunction` says, marking the fault when the array for parameters is overrun. |
| Parsers.ParseText | srcs/parser/parser.c:13-51 | A file is read from its characters as its tokens are read: a fault, a refusal or declarations, with the number of errors. |
| Printing.PrintIsParsed | srcs/parser/parser_expr.c:3-33 | What is printed of an expression without assignments, with parentheses only where precedence or associativity needs them, is parsed back to it, and nothing after it is taken. |
| Grouping.TwoOperators | incs/lexer_tokens.def:31-54 | For all atoms and binary operators, `a o1 b o2 c` is read as `(a o1 b) o2 c` if `o1` is at least as high as `o2` in the order of C, factors over terms over shifts over comparisons over equality over `&` over `^` over the bar, and as `a o1 (b o2 c)` if it is lower. |
| Grouping.PrefixFirst | srcs/parser/parser_expr.c:51-66 | A prefix operator takes the atom after it before any binary operator does. |
| Grouping.ParenthesesVanish | srcs/parser/parser_expr.c:107-112 | Parentheses that do not matter leave no trace in the tree. |
| Printing.StmtParses | srcs/parser/parser_stmt.c:4-202 | The same of statements, with any statements as branches and loop bodies: an else belongs to the nearest if that has none. |
| Printing.UnitParses | srcs/parser/parser.c:13-51 | The same of whole files. |
| Printing.VoidParses | srcs/parser/parser_stmt.c:64-70 | `f(void)` is read as `f()`. |
| Lexing.TokenLexes | srcs/lexer/lexer.c:12-110 | Longest match, exactly: a token is read from what is spelled of it if and only if the character after it does not go on with it. |
| Lexing.SpelledLexes | srcs/lexer/lexer.c:12-110 | Lexing the spelling of any tokens, one space after each, gives the tokens back. |
| Spacing.LayoutLexes | srcs/lexer/helpers.c:57-121 | However tokens are laid out, with any blanks, comments of both kinds and preprocessor lines between them or nothing at all, they are read back as long as none runs into the next. |
| Spacing.PieceIsInvisible | srcs/lexer/helpers.c:57-121 | A blank, a line comment or preprocessor line up to its line end, or a block comment up to its end, before any text whatever, changes none of its tokens. |
| Spacing.NothingAfterOpenComment | srcs/lexer/helpers.c:88-121 | A comment that is not ended takes the rest of the file. |
| Spacing.UnreadableIsSkipped | srcs/parser/parser_utils.c:3-12 | A character that belongs to no token is passed over without an error. |
| TextRoundTrip.TextComesBack | srcs/parser/parser_stmt.c:53-106 | From declarations to characters and back: the same declarations, without an error and without a crash. |
| Scanners.Lexer.Scan | srcs/lexer/lexer.c:12-101 | The lexer with its pointer reads the token that `NextToken` says and moves just past it. |
| Scanners.Lexer.SkipWhitespace | srcs/lexer/helpers.c:57-87 | Moves past blanks and comments, of both kinds. |
| Crashes.CrashesExactly | srcs/parser/parser_expr.c:35-48 | On every token stream the parser ends without a fault exactly when it meets no assignment and no call without a tree on the left and no list of more than 16 parameters; and a null pointer is followed only after an error. |
| Crashes.CalmIsSafe | srcs/parser/parser_expr.c:35-48 | A condition on the tokens alone: where no `=` and no `(` comes directly after `)`, `;`, `=` or `(`, no null pointer is followed. |
| Crashes.WideExactly | srcs/parser/parser_stmt.c:64-78 | A file that is read without an error overruns the array for parameters exactly when one of its declarations has more than 16, and otherwise gives its declarations. |
| Crashes.WideListBreaks | srcs/parser/parser_stmt.c:64-78 | Any beginning of a declaration with more than 16 parameters overruns the array, whatever comes next. |
| Crashes.ErrorFreeIsWhole | srcs/parser/parser_stmt.c:4-202 | A file that is read without an error has no tree with a hole in it, and a file that is refused has an error. |
| Crashes.FilesThatCrash | srcs/parser/parser_expr.c:124-130 | Two beginnings of a file on which a null pointer is followed, whatever comes next. |
| Arenas.AllocatedSafe | incs/memarena.h:170-295 | Allocation keeps blocks and live allocations apart, in bounds and aligned, through growth in place and new blocks, with sizes modulo 2^64: what is handed out is safe exactly when the size is below the address space. |
| Arenas.WrappedAllocation | incs/memarena.h:170-197 | The input on which sizes wrap around: 2^64 - 11 bytes are handed out from one page, and the next allocation lies in the header. |
| Arenas.LiveDisjoint | incs/memarena.h:243-295 | Live allocations never overlap, in one block or in two. |
| Arenas.Arena.AllocAligned | incs/memarena.h:243-295 | Computes `Allocated` in place; older allocations stay. Refuses exactly empty requests, alignments that are no power of two, and requests for which the system denies a block of the size that is asked of it. |
| Arenas.RefusedExactly | incs/memarena.h:170-220 | When a request is refused: the system denied the first block of an empty arena, or the newest block is too small, cannot be extended in place, and a new block was denied. |
| Arenas.LackIsReal | incs/memarena.h:243-295 | Below the address space nothing wraps around: the newest block is found too small exactly when the aligned allocation would end after it, and what is then asked for has room for it. |
| Arenas.PlacedNext | incs/memarena.h:243-295 | A request that the newest block has room for is met at the first aligned address after what is in use, and takes up no more than its size. |
| Arenas.Arena.TempEnd | incs/memarena.h:314-337 | Comes back to the position exactly if the arena had a block at the beginning or has none now; allocations made before survive, and otherwise nothing is restored. |
| Arenas.LostRollback | incs/memarena.h:314-337 | The run on which a rollback is lost: a temporary scope on an empty arena, two allocations in two blocks, and the end of the scope, after which one block is mapped and both are in the chain with all they held. |
| Arenas.Arena.Reset | incs/memarena.h:222-236 | Forgets all allocations and keeps the first block. |

## Left out

- Diagnostics: errors are counted, not worded; lines, columns and the printing of the intermediate representation have no part.
- Files, memory mapping and protection, process setup, cleanup and `main`: what `mmap` answers is a parameter, and the files are given as characters or declarations.
- The hash function of names is any function of the characters.
- JitContexts.JitContext.CompileFunction: executable memory is one buffer of a given capacity; the original's arena for code grows by new blocks, so `Driver.Build`, which succeeds exactly within the capacity, may fail where the original goes on. When the original's arena cannot grow, it continues through a null pointer; the model stops.
- Stack exhaustion: the simulated stack is unbounded, and so is the recursion of parser, analyser and generator on nested statements.
- Parsing.ParseParams: the overrun at the 17th parameter is an outcome of its own (`Broken`), marked when the list is complete; what the write past the array does is undefined and not modelled.
- JitContexts.JitContext.EncodeArg: does not bound the pending arguments at 32, as the original does not; the parser never builds a call with more.
- Dropped call sites: the theorems about running programs assume that there are none; of others only what linking leaves in memory is said.
- Void functions, bare `return;` and runs that go off the end of a function: told apart in the semantics (`FellOff`), but nothing is said of the machine there.
- Assignments inside expressions: the analyser lets them pass unseen and the generator rejects them; the theorems about meaning exclude them.
- Flags that the processor leaves undefined, such as the zero flag after IMUL, and all instructions that the encoder does not emit.
- Pipeline.CompileTexts: where a declaration is missing or an operand, condition or assigned value has no tree after a syntax error, the original goes on with the null pointer; the model parses the other files and stops.
- After a fault of the parser the model's state goes on, and counts for nothing; its result is `Broken`.
- Driver.CompilePass: the generator can report an error, for an assignment inside an expression or for want of registers, and still return code; the original compiles that code, and the model stops.
- The analyser gives back new trees where the original fills in fields, and its scopes, the chunks of code, patch lists and argument lists are sequences that the methods reassign; sharing of nodes has no part.
- A symbol table that is full stops the original's process; in the model the methods answer false, exactly then.
- Local declarations start with `int`, `char` or `void` only; the other type names are identifiers to the lexer, as in the original.
- The numeral of a number is saturated as glibc's `atoll` does.
- Poisoning for address sanitizers, statistics and the string helpers of the arena.
