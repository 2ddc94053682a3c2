# Rapira26: a verified model of the compiler back end and its virtual machine

Rapira26 compiles a modern version of the Rapira language to bytecode for a stack machine. This
project models the chain from the syntax tree to the running interpreter, and two cores beside
it, the indentation-aware lexer and the UTF-8 codec, and proves what they promise.

- **What programs mean.** `Semantics` is a fuel-bounded evaluator of the syntax tree, `Scoping`
  its flat, textual name resolution. Function values are entry addresses; fuel is spent by calls
  and loop turns. Where the code's scoping differs from the language description, the code is
  followed: names resolve in textual order whatever execution does, `и` and `или` are strict, a
  plain-name selector is read again for every case, and a counting loop evaluates its step again
  in every round.
- **What the meaning is worth.** Generator and evaluator read names, operators and variants off
  the same tables, so those are pinned down by laws that do without the tables: `NameLaws` and
  `CallLaws` (parameters, declarations, globals, calls by name), `OperatorLaws` (operators and
  built-in functions in arithmetic's own terms), `TypeLaws` and `SelectionLaws` (types, instances,
  cases, fields), `CollectionLaws` (texts, tuples, slices, equality as equality of what values
  show, output), `LineLaws` (a line written with tokens reads back as them) and `FormatLaws`
  (opcodes, byte order and file layout as documented).
- **Code generation.** `Codegen` and `Linking` say what is emitted for expressions, statements,
  units and whole programs; `Generator` computes it with the mutable state of `BcGen`.
  `CompilerCorrectness` and `ProgramCorrectness` prove that compiled code does what the evaluator
  says; `Balance` and `BalancedCode` that it is stack balanced on every path; `LabelNames` when
  its labels clash; `ForLoops` how often a counting loop runs, `HeldLoops` when its bound and step
  may as well be read once; `TidyCode` carries a condition on program text to the emitted code.
- **Assembler and bytefile.** `Bytecode`, `Encoding`, `Assembly`, `StringTable` and `Container`
  are instruction set, byte encoding, two-pass label resolution, string table and file format;
  `Bytefile` and `Decoder` hold the objects that build, write, parse and decode;
  `GeneratedFile` is the file a program generates, `Codability` says which programs the byte
  encoding can hold.
- **The machine, twice.** `Machine` and `Runtime` run on values with a heap that only grows.
  `RefCount` and `CountedMachine` add reference counts, cascading frees and the reuse of uniquely
  owned floats; `CountedCorrectness` and `CountedRuns` prove that the counted machine refines the
  first one with exact counts, `Uncounted` says of every
  instruction exactly when it keeps them, `TameHeaps` which instructions always do. `Memory` and
  `Interpreter` are the objects that change heap, stack and registers in place, byte by byte of
  the code section. `Safety`, `RuntimeFacts` and `ProgramSafety` prove that
  every run keeps the chain of frames.
- **Slices.** `Slices` relates slices to copies and holds the copying loops of the tuple runtime.
- **Lexer and codec.** `Tokens` says what a token stream has to do with its source text, `Lexer`
  is the lexer; `Utf8` is the codec.

`EndToEnd` puts the chain together: `ProgramsFinish` takes modules from their meaning to the end
of the run of the file written for them, with counts exact and memory given back;
`TidyProgramsFinish` does so under a condition on the program text alone.

The machine word, 32-bit truncation and floor division are in `Numbers`; `Results` holds the
result types and the one list of faults. A fault stands for a VM error, a fatal runtime error or
a panic; `Undefined` stands for C code reading or writing outside an object, and for
signed 32-bit overflow in it. Reaching the
operand stack's limit is everywhere an allowed outcome, since the evaluator knows no such limit.

What is outside the repository, or left to libraries, enters as parameters: double arithmetic and
conversions (`Fpu`, on 64-bit patterns), the depth of the C stack (`Library`, whose schemas
`WithSchemas` reads from the bytefile), Unicode's letters and the reading of real literals
(`Alphabet`).

To verify everything: `dafny verify dfyconfig.toml`.

## Findings

Properties that fail, each with the condition under which they hold:

- A step of zero: the generated guard and the specification's differ (`SpecGuard`).
- The specification passes bound and step once, the generated loop evaluates both in every round:
  a body that sets its bound of 3 to 0 ends after one round, where the held bound gives three
  (`BoundMoves`). The loop is the one with held bound and step when each is a literal, or a name
  whose variable the body does not assign and, for a global, whose body calls no function of the
  program (`ForIsHeld`); then its number of rounds is known before it starts (`CountOnText`).
- A loop variable that reuses a live name of its context hides it for good, whatever the body
  does (`LoopVariableRestored`).
- A slice of a slice is clamped to the root, not to the first slice (`SliceOfSlice`), a slice
  with a negative upper bound lies outside its parent (`ClampedIff`), and an empty range widens
  to the item at its end.
- Assigning an item through a slice has no meaning, although the item can be read through it
  (`ItemAssignmentDefinedIff`).
- Some operations do not keep reference counts, `PrimExactIff` gives the condition for each:
  slice assignment moves references without counting them and leaks the copy of a replacement
  that is a slice (`SliceAssignExactIff`); repeating a tuple counts its references twice
  (`TupleRepeatExactIff`); equality leaks a copy of every slice it comes to (`EqualityExactIff`);
  taking an item of a text, or copying a slice of one, does not count the reference it copies
  (`ElemExactIff`, `CopyExactIff`); and a text of one item stored into itself frees that item
  first (`SetItemExactIff`).
- The decoder does not know the length builtin nor capture loads and stores, although the
  interpreter dispatches the former (`DecodeAgrees`, `ComesBackIff`).
- The opcode reference calls 0x72 unused, the encoder gives it to the length builtin
  (`LengthUndocumented`); everything else is encoded as the reference says
  (`EncodedAsDocumented`).
- Output without newline and without values, `вывод бпс:`, compiles to an instruction that the
  interpreter reads past its end (`SilentOutput`). Input of text without variables would too, but
  the parser refuses it; nothing else does while sizes fit (`CodableIff`).
- When a sum, difference or product does not fit 32 bits the VM's fast path keeps its low bits,
  and the runtime's C code has no meaning (`OverflowWraps`). Division, plain or floor, of -2^31 by
  -1 is the one where the VM wraps and the runtime refuses (`FastPathsDiffer`). Apart from these
  two the VM and the runtime agree on 32-bit integers (`IntegersAgreeIff`).
- The comment above the reading of texts lets groups of four quotes stand for one and any other
  quote close the text. Two quotes in a row end it behind the second, three in a row are two
  quotes and the end: the code meets the comment exactly as `LiteralDocumentedIff` says, with
  `ThreeQuotes` as an input where it does not.
- A line that tabs indent is reported, leaves the indentation stack as it was, and so belongs to
  the block of the line before it, whatever its indentation (`ProcessLineStart`,
  `TabKeepsBlocks`). On every other line the blocks follow the indentation, and a line is
  misaligned exactly when it is less indented than the innermost block and its indentation is
  none of the open ones (`ReindentedIff`).
- Inside parentheses the lexer never starts a line: `at_line_start` is set outside parentheses
  only, so that branch of `process_line_start` is never taken (the clause
  `atLineStart ==> depth == 0` of `Lexing.Lexer.Valid`, which every method keeps).

## Model

| member | source | states |
|---|---|---|
| `EndToEnd.ProgramsFinish` | crates/vm-interp/src/interpreter.rs:243-268 | A program whose modules mean a memory, compiled, assembled, written to a file and read back, is run by the reference-counting interpreter from main to its END with exactly that output and those globals, for every run whose instructions are all `Countable`; releasing the stack then leaves only what hangs off reference cycles, and nothing when the heap is acyclic. The one alternative is the stack limit |
| `EndToEnd.TidyProgramsFinish` | crates/vm-interp/src/interpreter.rs:243-268 | The same of every program whose text writes and assigns no slice, assigns no item and does not use both `*` and tuples, with no condition on the run: output and globals are what the modules mean, counts stay exact and an acyclic heap is given back, unless the stack limit stops it |
| `EndToEnd.TidyOps` | crates/vm-interp/src/interpreter.rs:1468-1487 | In every run of tidy code from a safe state, over any number of steps, the heap holds no slice and no text with references, and every instruction finds operands on which it keeps counts exact |
| `TidyCode.StmtTidy` | crates/compiler-core/src/codegen/bcgen.rs:423-992 | A statement of any nesting without slices, item targets, and `*` beside tuples compiles to code without slicing, slice and item stores, and multiplication beside tuple building |
| `TameHeaps.StepTame` | crates/vm-interp/src/interpreter.rs:301-309 | No instruction of such code makes a slice, stores a reference in a text, or builds a tuple where tuples are excluded |
| `TameHeaps.TidyIsCountable` | crates/vm-interp/src/interpreter.rs:1468-1487 | On such heaps equality meets no slice, items taken from texts are no references, and every other instruction of such code counts what it copies |
| `EndToEnd.RunFile` | crates/vm-interp/src/interpreter.rs:192-268 | Reading a file, running at most n instructions and draining the stack does what the counted machine does from its start state, instruction for instruction, including which references the drain frees |
| `EndToEnd.SafeRunFollows` | crates/vm-interp/src/interpreter.rs:863-909 | On a balanced program the counting interpreter follows the value machine for any number of steps: stack balance supplies what END needs of reference counting |
| `EndToEnd.FileIsLinked` | crates/vm-core/src/bytefile.rs:295-454 | What the interpreter loads from the written file is the linked program: same code, strings, globals and entry point, and schemas with the names the generator stored |
| `EndToEnd.CompiledAssembles` | crates/compiler-core/src/codegen/bcgen.rs:1155-1155 | Of a program whose sizes fit and whose outputs and inputs carry a count, everything the assembler accepts can be held by the byte code, and the schemas the interpreter reads from the table have the fields the generator gave them |
| `CompilerCorrectness.ExprRuns` | crates/compiler-core/src/codegen/bcgen.rs:222-421 | Wherever the code emitted for an expression stands, running it from its first offset pushes exactly the value the evaluator gives, with the evaluator's globals, heap and output, arguments, locals and the stack below untouched, and falls through behind the code |
| `CompilerCorrectness.StmtRuns` | crates/compiler-core/src/codegen/bcgen.rs:423-992 | Code of a statement, under any nesting of if, match, while, repeat, for and calls: a normal end reaches the fall-through point, an exit the innermost loop's end label, a return the callee's END with its value; always with the evaluator's variables, heap and output and the stack below unchanged |
| `CompilerCorrectness.BlockRuns` | crates/compiler-core/src/codegen/bcgen.rs:1206-1211 | Statements in textual order thread scope, labels and strings as the generator does, and leave early on exit or return |
| `CompilerCorrectness.ConditionalRuns` | crates/compiler-core/src/codegen/bcgen.rs:725-784 | A conditional reaches the same point with the same memory whichever branch runs, and its labels are where its jumps go |
| `CompilerCorrectness.WhileRuns` | crates/compiler-core/src/codegen/bcgen.rs:688-717 | A while loop runs the body while the condition holds, for any number of turns, and `выход` leaves it behind its end label |
| `CompilerCorrectness.RepeatRuns` | crates/compiler-core/src/codegen/bcgen.rs:538-588 | A counted loop keeps its remaining count in a hidden slot |
| `CompilerCorrectness.ForRuns` | crates/compiler-core/src/codegen/bcgen.rs:589-687 | A counting loop evaluates start, bound and step as the evaluator does, in the same order and as often |
| `CompilerCorrectness.ShortGuardRefines` | crates/compiler-core/src/codegen/bcgen.rs:633-671 | The one-comparison guard for a missing step and a bound that is a plain load or constant agrees with the general guard on value, memory and failure |
| `CompilerCorrectness.MatchRuns` | crates/compiler-core/src/codegen/bcgen.rs:785-885 | Selection: cases are tried in order, a plain name is read again for every case, any other subject is held once; bindings take new slots; no case means the else part |
| `CompilerCorrectness.FunctionCallRuns` | crates/compiler-core/src/codegen/bcgen.rs:313-369 | A call evaluates a computed callee first, then the arguments left to right, whatever the callee turns out to be |
| `CompilerCorrectness.InvokeRuns` | crates/vm-interp/src/interpreter.rs:343-376 | CALL and CALLC end with the caller's stack plus the callee's value, the caller's frame pointer, argument and local counts and instruction pointer restored, at any recursion depth |
| `CompilerCorrectness.UnitRuns` | crates/compiler-core/src/codegen/bcgen.rs:1174-1222 | A function body from its BEGIN to its END computes what the evaluator returns, also where the generator appended an implicit null result |
| `CompilerCorrectness.BeginRuns` | crates/vm-interp/src/interpreter.rs:911-958 | BEGIN turns arguments and return address into a frame whose locals start at integer 0 |
| `CompilerCorrectness.EndRuns` | crates/vm-interp/src/interpreter.rs:863-909 | END finds the frame words BEGIN stored and gives the caller its registers, its stack and the result back |
| `CompilerCorrectness.AssignmentRuns` | crates/compiler-core/src/codegen/bcgen.rs:438-507 | Assignment to a name, an item, a slice or a field stores into what the evaluator says, and leaves no temporary behind |
| `ProgramCorrectness.ProgramRuns` | crates/compiler-core/src/codegen/bcgen.rs:1099-1172 | From the emulated call of main, the assembled program initialises every module once in order and stops at main's END with the globals, heap and output the modules mean, or at the stack limit |
| `ProgramCorrectness.LinkLoads` | crates/compiler-core/src/codegen/bcgen.rs:1155-1155 | Every emitted instruction is read at the offset the assembler gave it, every unit stands at its label, and every offset fits the machine's words |
| `ProgramCorrectness.ModulesLink` | crates/compiler-core/src/codegen/bcgen.rs:1116-1130 | Units of all modules are placed one behind the other, sharing one label counter, one string table and one global area |
| `ProgramCorrectness.InitsRun` | crates/compiler-core/src/codegen/bcgen.rs:1138-1153 | main calls the modules' initialisations in order and drops each result |
| `Scoping.StmtExtends` | crates/compiler-core/src/codegen/bcgen.rs:997-1048 | No statement takes more slots than `count_locals` counted, slots are taken in order and none twice; names of the other context stay as they are |
| `Scoping.BlockExtends` | crates/compiler-core/src/codegen/bcgen.rs:997-1048 | The same for whole bodies: every local index is below BEGIN's local count |
| `Scoping.LoopVariableRestored` | crates/compiler-core/src/codegen/bcgen.rs:684-684 | After a loop, whatever its body declares, the loop variable's name means what it meant before exactly when the context had not declared it already: reusing a live name hides it for good |
| `ProgramSafety.TopScopeFits` | crates/compiler-core/src/codegen/bcgen.rs:1132-1132 | Every global slot a module uses is below the global area size, and modules take disjoint slots |
| `ProgramSafety.ModulesFit` | crates/compiler-core/src/codegen/bcgen.rs:1116-1132 | Every unit of every module finds its argument, local and global slots inside frame and global area, and its schemas in the table |
| `NameLaws.ParameterReads` | crates/compiler-core/src/codegen/bcgen.rs:1174-1187 | In a called function the i-th parameter, unless a later one has its name, reads the i-th argument, whatever the globals of the module are |
| `NameLaws.ParameterAssigned` | crates/compiler-core/src/codegen/bcgen.rs:97-102 | Assigning to a parameter changes that argument and leaves every global, local and other argument as it was |
| `NameLaws.DeclaredReads` | crates/compiler-core/src/codegen/bcgen.rs:68-80 | After a declaration, in a function or at the top level, the name reads the value declared and every other variable what it read before |
| `NameLaws.AssignedReads` | crates/compiler-core/src/codegen/bcgen.rs:438-447 | An assignment gives its variable the value and leaves what every other name reads |
| `NameLaws.StmtStanding` | crates/compiler-core/src/codegen/bcgen.rs:68-102 | The scopes these two speak of are those of every statement: no statement leaves them |
| `NameLaws.GlobalReads` | crates/compiler-core/src/codegen/bcgen.rs:97-102 | Anywhere in a function a name that is neither local nor parameter reads the global of its module |
| `NameLaws.DifferenceOfParameters` | crates/compiler-core/src/codegen/bcgen.rs:1174-1222 | A function of a and b that returns a - b, called with x and y, returns x - y |
| `NameLaws.ImportedCallRuns` | crates/compiler-core/src/codegen/bcgen.rs:186-220 | A call of an imported name runs the imported function, even where the module defines the name itself |
| `NameLaws.CountIsExact` | crates/compiler-core/src/codegen/bcgen.rs:997-1048 | For a body without input whose cases have one value each, the counted frame size is exactly the number of slots it takes, and one more for each selection on a plain name |
| `NameLaws.HiddenNamesDiffer` | crates/compiler-core/src/codegen/bcgen.rs:546-549 | Hidden variables of loops and selections at different places have different names |
| `CallLaws.ProgramCallRuns` | crates/compiler-core/src/codegen/bcgen.rs:313-369 | In every assembled program a call by name, where the name is no builtin, constructor or import, runs the body of the last function so named in the calling module, in a new frame with the arguments by position and locals at 0 |
| `CallLaws.ProgramHolds` | crates/compiler-core/src/codegen/bcgen.rs:1116-1155 | Every unit of every module of an assembled program has an entry of its own under its label |
| `OperatorLaws.IntegerLaw` | crates/compiler-core/src/codegen/bcgen.rs:1050-1070 | Sums, differences, products and comparisons of any two integer expressions are those of arithmetic, left operand evaluated first; a result beyond 32 bits has no meaning |
| `OperatorLaws.LiteralLaw` | crates/compiler-core/src/codegen/bcgen.rs:1050-1070 | The same on written numbers |
| `OperatorLaws.FloorLaw` | runtime/arithmetic.c:267-283 | Floor division and remainder give the one pair q, r with m = q * n + r and r on the divisor's side of zero |
| `OperatorLaws.DivideLaw` | runtime/arithmetic.c:243-265 | Division is the exact quotient where there is one that fits, the double quotient where there is none, and an error by zero |
| `OperatorLaws.BooleanLaw` | crates/vm-interp/src/interpreter.rs:1247-1271 | Conjunction, disjunction, equality and inequality of any two truth values; both sides are evaluated, every other operator refuses them |
| `OperatorLaws.DoubleLaw` | runtime/arithmetic.c:109-335 | With a double among two numbers every operator is the double operation of its own sign, left operand first, but for integer times double |
| `OperatorLaws.UnaryLaw` | crates/vm-interp/src/interpreter.rs:1338-1357 | Minus gives the negative, `не` the other truth value, `#` the number of items, plus the operand itself |
| `OperatorLaws.BuiltinLaw` | crates/compiler-core/src/codegen/bcgen.rs:24-38 | Each built-in function by its name in the program: absolute value, root, rounding, and the tests of kind; a function of the program with that name does not hide it |
| `TypeLaws.TypeKnown` | crates/compiler-core/src/codegen/bcgen.rs:1224-1253 | After its definition each variant of a type has a schema with its own fields and its position as tag, unless a later type takes the name |
| `TypeLaws.FieldIndexIs` | crates/compiler-core/src/codegen/bcgen.rs:1246-1250 | A field name keeps the position it was first seen at, and a new one gets its first position |
| `TypeLaws.SchemasAreRead` | crates/vm-core/src/bytefile.rs:295-454 | From any later string table the interpreter reads for each variant the type's name, the tag, and the field names in order, in UTF-8 |
| `SelectionLaws.MatchesIff` | crates/vm-interp/src/interpreter.rs:501-509 | An instance made with one schema is accepted by a stored schema exactly when the tags are equal |
| `SelectionLaws.SelectsItsCase` | crates/compiler-core/src/codegen/bcgen.rs:785-885 | A selection over an instance of the k-th variant of a type passes over the cases of the type's other variants and runs the first case that names the k-th, its names bound |
| `SelectionLaws.SelectionRuns` | crates/compiler-core/src/codegen/bcgen.rs:785-885 | So does a whole selection statement whose subject is computed, and it ends as that case's body does |
| `SelectionLaws.BoundRead` | crates/compiler-core/src/codegen/bcgen.rs:835-856 | The i-th name of a case reads the instance's i-th field, and other names keep their values |
| `SelectionLaws.Constructed` | crates/vm-interp/src/interpreter.rs:433-488 | A constructor makes a new instance of its own schema with the arguments as its fields |
| `SelectionLaws.FieldAssigned` | crates/vm-interp/src/interpreter.rs:526-540 | Assigning to a field changes that content of that object and nothing else |
| `CollectionLaws.TextLaw` | crates/vm-interp/src/interpreter.rs:1058-1072 | A text literal is a new text of the characters that were written |
| `CollectionLaws.ItemLaw` | crates/vm-interp/src/interpreter.rs:542-565 | `c[i]` is the item at i counted from 0, of a text a new text of that letter, and an error outside |
| `CollectionLaws.ItemAssigned` | runtime/tuple.c:21-48 | `c[i] := x` changes that item of that object and nothing else; a text takes the letter of a text of one letter |
| `CollectionLaws.SliceLaw` | crates/vm-interp/src/interpreter.rs:1412-1466 | `c[a:b]` shows the items from a up to b; a missing a is 0, a missing b the number of items |
| `CollectionLaws.SumLaw` | runtime/arithmetic.c:109-160 | The sum of two texts or tuples is the one followed by the other |
| `CollectionLaws.MultipleLaw` | runtime/arithmetic.c:172-241 | A tuple or text times n has n times the items, the i-th being the item at i modulo their number |
| `CollectionLaws.EqualLaw` | runtime/arithmetic.c:325-404 | Values that show something are equal exactly when they show the same, through tuples, slices and instances; only unequal values can be refused |
| `CollectionLaws.OutputLaw` | runtime/core.c:208-300 | Output adds one line with what its values show, in order, and its end as asked for; without values it adds nothing |
| `ForLoops.SpecGuard` | doc/archive/spec_old.md:1116-1133 | The generated guard on integers is the specification's (b - i) * c >= 0 exactly when the step is not zero or the bound is not above the variable |
| `ForLoops.TripsStep` | crates/compiler-core/src/codegen/bcgen.rs:633-671 | One more round is due exactly while the guard holds, and each round uses one up |
| `HeldLoops.BoundMoves` | crates/compiler-core/src/codegen/bcgen.rs:589-687 | The loop from 1 to n, whose body sets n, which was 3, to 0: the generated loop ends after one round, the loop with the bound held from the start after three |
| `HeldLoops.ForIsHeld` | doc/archive/spec_old.md:1116-1133 | A loop whose bound and step are each a literal, or a variable that the body does not assign and, if global, whose body calls no function of the program, is the loop of the specification that receives both once, with the same memory, way of ending and failures |
| `HeldLoops.CountOnText` | doc/archive/spec_old.md:1116-1133 | If the body leaves the loop variable alone as well, an integer loop with nonzero step c from a to b is max(0, floor((b - a) / c) + 1) rounds of its body, at a, a + c, and so on, unless a round leaves it |
| `HeldLoops.BlockKeeps` | crates/compiler-core/src/codegen/bcgen.rs:423-992 | A body that does not assign a name and, for a global, calls no function of the program leaves the name's variable as it was, whatever loops, selections and calls it runs |
| `HeldLoops.UnitsDistinct` | crates/compiler-core/src/codegen/bcgen.rs:1174-1222 | In the scopes that units start from no two names share a slot |
| `HeldLoops.StmtDistinct` | crates/compiler-core/src/codegen/bcgen.rs:68-102 | No statement makes two names share a slot, whatever it declares and removes |
| `ForLoops.ForCounts` | crates/compiler-core/src/codegen/bcgen.rs:589-687 | With a nonzero step, steady bounds and no overflow, the body runs exactly max(0, floor((to - from) / step) + 1) times, upwards or downwards, with the variable advanced after each |
| `BalancedCode.ExprRises` | crates/compiler-core/src/codegen/bcgen.rs:222-421 | Every path through an expression's code nets one push and never reaches below its start |
| `BalancedCode.StmtBalanced` | crates/compiler-core/src/codegen/bcgen.rs:423-992 | Every statement's code nets zero on every path, jumps and landings agree on the depth, and only loop ends are jumped to from inside |
| `BalancedCode.BlockBalanced` | crates/compiler-core/src/codegen/bcgen.rs:423-992 | So does every block |
| `BalancedCode.ReturningBlock` | crates/compiler-core/src/codegen/bcgen.rs:1206-1217 | A body with a top-level return never falls out of its end |
| `BalancedCode.EpilogueEnds` | crates/compiler-core/src/codegen/bcgen.rs:1213-1217 | With or without the appended null result, control never runs past a unit's last instruction |
| `Safety.StepSafe` | crates/vm-interp/src/interpreter.rs:301-309 | One step keeps the whole chain of frames: the stack is globals, then frames each leading back to its caller, then the temporaries the code's balance predicts; END sees exactly one temporary |
| `Safety.Instruction` | crates/vm-interp/src/interpreter.rs:301-309 | In every state of such a chain the instruction pointer is the offset of the current instruction of a unit, read with exactly the operand bytes written for it, and the next one follows behind them |
| `Safety.RunSafe` | crates/vm-interp/src/interpreter.rs:243-268 | Any number of steps does; the only failures left are the language's own errors and the stack limit |
| `Safety.EndSafe` | crates/vm-interp/src/interpreter.rs:863-909 | END unwinds exactly its own frame; at main it leaves globals and one result |
| `Safety.BeginSafe` | crates/vm-interp/src/interpreter.rs:911-958 | BEGIN frames exactly the arguments its callers pushed: every CALL and callable value agrees with it on the argument count |
| `Safety.VariableSafe` | crates/vm-interp/src/interpreter.rs:791-861 | Loads and stores stay inside globals, arguments and locals of the current frame |
| `Safety.JumpSafe` | crates/vm-interp/src/interpreter.rs:582-614 | Jumps land inside the same unit at the depth both ends agree on |
| `Safety.FramePointersFall` | crates/vm-interp/src/interpreter.rs:863-909 | Saved frame pointers fall strictly from the innermost frame to the boundary above the globals |
| `Safety.BootSafe` | crates/vm-interp/src/interpreter.rs:192-241 | The emulated call of main starts such a chain |
| `ProgramSafety.ProgramLinks` | crates/compiler-core/src/codegen/bcgen.rs:1099-1172 | A program whose calls match their definitions links: every jump, CALL and CLOSURE target is resolved, CALL and CLOSURE targets are offsets of a BEGIN, and argument counts agree |
| `ProgramSafety.ProgramRunsSafely` | crates/compiler-core/src/codegen/bcgen.rs:1099-1172 | Every run of such a program, finishing or not, stays in that chain |
| `RuntimeFacts.PrimQuiet` | crates/vm-interp/src/interpreter.rs:616-748 | No runtime operation invents a callable value, and its failures are the language's own |
| `LabelNames.LabelsClashIff` | crates/vm-core/src/bytefile.rs:107-160 | The assembler's first pass refuses a program for a duplicate label exactly when two of its modules or functions share a qualified name |
| `LabelNames.StmtOwn` | crates/compiler-core/src/codegen/bcgen.rs:104-109 | Labels generated inside a statement carry pairwise different numbers, taken between the counter before and after |
| `LabelNames.NumberUnique` | crates/compiler-core/src/codegen/bcgen.rs:104-109 | A label ends in one number only |
| `LabelNames.ConditionalOwn` | crates/compiler-core/src/codegen/bcgen.rs:725-784 | Also where the labels stand in another order than they were numbered in |
| `LabelNames.UnitsMix` | crates/compiler-core/src/codegen/bcgen.rs:1174-1222 | A unit adds its own name, once, and numbered labels of its body |
| `Assembly.PlacedOnce` | crates/vm-core/src/bytefile.rs:107-160 | After a successful first pass no label is defined twice |
| `Generators.BcGen.Generate` | crates/compiler-core/src/codegen/bcgen.rs:1099-1172 | Generating succeeds exactly when every statement can be emitted, no label clashes, every instruction encodes and every symbol is found; the bytefile is then the file the program's code, schemas, strings and symbols describe |
| `Generators.BcGen.EmitStatement` | crates/compiler-core/src/codegen/bcgen.rs:423-992 | Emits the specified code and leaves counters, name maps, loop labels and string table as specified |
| `Generators.BcGen.EmitExpr` | crates/compiler-core/src/codegen/bcgen.rs:222-421 | Emits the specified code; only the string table grows |
| `Generators.BcGen.EmitBlock` | crates/compiler-core/src/codegen/bcgen.rs:1206-1211 | The loop over a body threads the environment through all its statements |
| `Generators.BcGen.EmitConditional` | crates/compiler-core/src/codegen/bcgen.rs:725-784 | Three or two fresh labels, the branches in order |
| `Generators.BcGen.EmitFor` | crates/compiler-core/src/codegen/bcgen.rs:589-687 | Bounds before the variable exists, the variable removed after the body, the loop label popped |
| `Generators.BcGen.EmitRepeat` | crates/compiler-core/src/codegen/bcgen.rs:538-588 | The hidden counter lives exactly as long as the loop |
| `Generators.BcGen.EmitWhile` | crates/compiler-core/src/codegen/bcgen.rs:688-717 | Condition, body and jump back between two labels |
| `Generators.BcGen.EmitMatch` | crates/compiler-core/src/codegen/bcgen.rs:785-885 | A held subject's slot lives exactly as long as the selection |
| `Generators.BcGen.EmitBindings` | crates/compiler-core/src/codegen/bcgen.rs:835-856 | One new variable per bound field, in order |
| `Generators.BcGen.EmitInputs` | crates/compiler-core/src/codegen/bcgen.rs:940-974 | A variable that does not exist yet is declared |
| `Generators.BcGen.AllocateVariable` | crates/compiler-core/src/codegen/bcgen.rs:68-80 | The next slot of the current context, bound to the name |
| `Generators.BcGen.FreshLabel` | crates/compiler-core/src/codegen/bcgen.rs:104-109 | Prefix and running number |
| `Generators.BcGen.EmitFunctionDef` | crates/compiler-core/src/codegen/bcgen.rs:1174-1222 | Label, BEGIN with argument count and counted locals, body, epilogue; globals are left alone |
| `Generators.BcGen.EmitTopLevelDef` | crates/compiler-core/src/codegen/bcgen.rs:1255-1276 | A module's statements become its initialisation |
| `Generators.BcGen.EmitTypeDef` | crates/compiler-core/src/codegen/bcgen.rs:1224-1253 | One schema per variant with its position as tag; a field name keeps its first index |
| `Generators.BcGen.ConfigureModule` | crates/compiler-core/src/codegen/bcgen.rs:186-220 | A clean scope and the module's call targets, imports last |
| `Generators.BcGen.EmitModule` | crates/compiler-core/src/codegen/bcgen.rs:1116-1130 | Types, initialisation, functions of one module, carried into the next |
| `Generators.BcGen.AddPublicSymbols` | crates/compiler-core/src/codegen/bcgen.rs:1157-1167 | main and every function get a name in the table and a symbol with their offset |
| `Assembly.AssembledCodeAt` | crates/vm-core/src/bytefile.rs:107-160 | The two passes agree: assembled code is read back instruction by instruction from the very offsets the first pass gave to the labels, whatever stands before and after it |
| `Assembly.CodeAtIndex` | crates/vm-core/src/bytefile.rs:107-160 | The k-th instruction sits at the total size of those before it, ends where the next begins, and a label names the offset of the instruction after it |
| `Assembly.SizeIsEncoded` | crates/vm-core/src/bytefile.rs:111-139 | Filling a target in never changes an instruction's size, and only labels have none |
| `FormatLaws.EncodedAsDocumented` | doc/opcodes.typ:35-239 | Every instruction the opcode reference has is encoded with the opcode byte and the operands, in order and little-endian, that the reference gives it |
| `FormatLaws.LengthUndocumented` | doc/opcodes.typ:239-239 | The length builtin is encoded as 0x72, which the reference calls unused |
| `FormatLaws.ToLeAt` | crates/vm-core/src/decoder.rs:220-394 | Byte i of an encoded integer counts 256 to the power i |
| `FormatLaws.FileLayout` | crates/vm-core/src/bytefile.rs:249-293 | A file begins with string table size, global area size, number of symbols, the marker, and number of schemas, as little-endian words; its strings stand behind the symbols and its code at the end |
| `FormatLaws.FunctionsExported` | crates/compiler-core/src/codegen/bcgen.rs:1157-1172 | Every function of every module is exported as the module's name, two colons and its own name |
| `GeneratedFile.SymbolsNamed` | crates/compiler-core/src/codegen/bcgen.rs:1157-1172 | The i-th symbol of a generated file points at the i-th exported name's string and at that name's code |
| `FormatLaws.CharacterValue` | runtime/core.c:65-111 | A well-formed UTF-8 character decodes to the number its payload bits spell |
| `FormatLaws.PackedOperand` | crates/compiler-core/src/codegen/bcgen.rs:508-537 | Output is one call whose operand holds the number of values and, in bit 30, whether the line ends |
| `Encoding.FetchUndoesEncode` | crates/vm-core/src/decoder.rs:220-393 | The interpreter reads back exactly the operand bytes the encoder wrote, for every codable instruction at any place in the code |
| `Encoding.I32RoundTrip` | crates/vm-core/src/decoder.rs:62-74 | Four little-endian bytes carry exactly the 32-bit integers |
| `Encoding.FromToLe` | crates/vm-core/src/decoder.rs:62-74 | Little-endian bytes of any width carry their number modulo their range |
| `Decoding.DecodeAgrees` | crates/vm-core/src/decoder.rs:76-217 | Decoder and interpreter dispatch agree on every byte string except at the three opcodes the decoder does not know, where it fails |
| `Decoding.ComesBackIff` | crates/vm-core/src/decoder.rs:76-217 | An encoded instruction decodes to itself with its label name erased exactly when it is no capture load or store, no length builtin, and a builtin's count has the shape the encoder writes |
| `Codability.CodableIff` | crates/vm-core/src/decoder.rs:367-381 | Within the widths of sizes and arities, the byte encoding can hold a program's code exactly when no output without newline and no input of text has an empty list |
| `Codability.StmtCoded` | crates/compiler-core/src/codegen/bcgen.rs:423-992 | So for every statement under any nesting: its code is within what the encoding holds exactly when the outputs and inputs inside it are |
| `Codability.SilentOutput` | crates/compiler-core/src/codegen/bcgen.rs:508-530 | `вывод бпс:` with no values becomes a call whose zero count the encoder leaves out and the interpreter reads nevertheless |
| `Decoding.StreamRoundTrip` | crates/vm-core/src/decoder.rs:62-217 | Decoding undoes encoding on streams, anywhere in a code section: labels disappear, label names are erased, exactly the encoded bytes are consumed |
| `Decoding.Decoder.DecodeAll` | crates/vm-core/src/decoder.rs:62-217 | The decoder object advances its instruction pointer through a code section and returns its instructions |
| `Container.SurvivesIff` | crates/vm-core/src/bytefile.rs:249-454 | Writing and parsing a bytefile returns it exactly when its recorded sizes are real, its numbers fit their fields, its offsets are inside the table and its first symbol is main at the entry point |
| `Container.ParsedIsWellFormed` | crates/vm-core/src/bytefile.rs:295-454 | Everything the parser accepts is such a bytefile |
| `Container.WrittenParses` | crates/vm-core/src/bytefile.rs:295-454 | The written form of such a bytefile parses to the same contents |
| `Bytefiles.Bytefile.AddInstructions` | crates/vm-core/src/bytefile.rs:107-160 | Places labels in one pass and appends resolved, encoded instructions in the other; a duplicate label or an unencodable instruction fails |
| `Bytefiles.Bytefile.PlaceLabels` | crates/vm-core/src/bytefile.rs:111-139 | Every label gets the offset its instruction will have |
| `Bytefiles.Bytefile.EncodeBytes` | crates/vm-core/src/bytefile.rs:249-293 | Loops over symbols, schemas and bytes write the file format |
| `Bytefiles.Bytefile.Parse` | crates/vm-core/src/bytefile.rs:295-454 | The moving reader accepts and refuses what the format says, with the same error |
| `Bytefiles.Bytefile.AddString` | crates/vm-core/src/bytefile.rs:86-93 | Appends, also when the string is there already |
| `Bytefiles.Bytefile.FindStringOffset` | crates/vm-core/src/bytefile.rs:188-204 | The first stored string that equals the one looked for |
| `Bytefiles.Bytefile.InternString` | crates/compiler-core/src/codegen/bcgen.rs:240-253 | A literal's offset: reused or appended |
| `Bytefiles.Bytefile.GetStringAtOffset` | crates/vm-core/src/bytefile.rs:477-492 | The bytes up to the terminator, or why there are none |
| `Bytefiles.Bytefile.AddPublicSymbol` | crates/vm-core/src/bytefile.rs:173-186 | A symbol whose name is in the table already |
| `StringTable.InternReads` | crates/vm-core/src/bytefile.rs:86-93 | The offset of a literal reads it back, cut at an embedded NUL, in every later table |
| `StringTable.StringAtStable` | crates/vm-core/src/bytefile.rs:477-492 | An offset keeps reading the same string as the table grows |
| `StringTable.FindFromReads` | crates/vm-core/src/bytefile.rs:188-204 | What is found is there |
| `StringTable.FindFromComplete` | crates/vm-core/src/bytefile.rs:188-204 | What was added is found |
| `GeneratedFile.GeneratedSurvives` | crates/compiler-core/src/codegen/bcgen.rs:1155-1169 | The file a program generates is well formed and reads back as itself, whenever its sizes fit the format |
| `GeneratedFile.SchemasStable` | crates/vm-interp/src/interpreter.rs:214-229 | The tags and names the interpreter reads for a variant are those the generator stored, whatever strings are added to the table later |
| `RefCount.ReuseUnobservable` | crates/vm-interp/src/interpreter.rs:1307-1328 | Overwriting a uniquely owned float operand leaves exactly what always allocating leaves: exact counts, one owned result, and every other slot and object showing what it showed, also when both operands are one object |
| `RefCount.DecExact` | runtime/core.c:300-378 | Releasing a held reference keeps every count exact through any cascade of frees; nothing still referred to is freed and the heap shows what it showed |
| `RefCount.DecAllExact` | runtime/core.c:319-378 | So does releasing a list of references one after another |
| `RefCount.IncExact` | runtime/core.c:295-298 | Taking a reference keeps every count exact |
| `RefCount.AllocExact` | runtime/tuple.c:6-19 | A new object takes over the references it is made of |
| `RefCount.RebodyExact` | runtime/variant.c:82-91 | Replacing what an object holds keeps counts exact when the references lost and gained are accounted for |
| `RefCount.NoDangling` | runtime/core.c:300-378 | With exact counts nothing that is referred to has been freed |
| `RefCount.FreeShrinks` | runtime/core.c:319-378 | Each nested free removes one live object, so a cascade ends |
| `RefCount.SurvivorsHangOffCycles` | runtime/core.c:300-378 | With no reference held, anything still alive is reached from a reference cycle |
| `RefCount.NothingLeaks` | runtime/core.c:130-137 | An acyclic heap then ends empty |
| `CountedCorrectness.PrimRefines` | crates/vm-interp/src/interpreter.rs:1468-1487 | Every counted handler that pops operands and pushes results consumes exactly its operands' references, hands on those it pushes, keeps all counts exact and shows the value machine's result, provided the instruction is `Countable`; `PrimExactIff` shows that no weaker condition would do |
| `CountedCorrectness.FloatsRefine` | crates/vm-interp/src/interpreter.rs:1082-1125 | Float addition, subtraction and multiplication in place refine the arithmetic on values |
| `CountedCorrectness.SetFieldRefines` | runtime/variant.c:82-91 | Field assignment counts the new content before it releases the old one |
| `CountedCorrectness.SetItemRefines` | runtime/tuple.c:21-48 | Item assignment keeps counts exact, references stored in texts included: the old item is released before the new one is counted, which is safe unless a text gets its own only item |
| `CountedCorrectness.ElemRefines` | crates/vm-interp/src/interpreter.rs:542-565 | A looked-up item gains a reference, a character becomes a text of its own, the collection is released |
| `CountedCorrectness.SliceRefines` | crates/vm-interp/src/interpreter.rs:1412-1442 | A new slice counts its root parent |
| `CountedCorrectness.ConcatenateRefines` | runtime/arithmetic.c:109-158 | Concatenation shares the items of both operands |
| `CountedCorrectness.AggregateRefines` | crates/vm-interp/src/interpreter.rs:433-488 | Variants take their arguments' references over, tuples count their own |
| `CountedRuns.StepFollows` | crates/vm-interp/src/interpreter.rs:301-309 | One counted step shows the value machine's step and keeps every count exact: each live object's count is the number of stack slots holding it plus the places in live objects pointing at it |
| `CountedRuns.RunFollows` | crates/vm-interp/src/interpreter.rs:243-268 | So does every run |
| `CountedRuns.StoreFollows` | crates/vm-interp/src/interpreter.rs:825-857 | A store moves the popped reference into the slot and releases what the slot held, also for x = x |
| `CountedRuns.EndFollows` | crates/vm-interp/src/interpreter.rs:863-909 | END releases arguments, metadata and locals and keeps the result's reference |
| `CountedRuns.BootSound` | crates/vm-interp/src/interpreter.rs:192-241 | The start state's counts are exact |
| `CountedRuns.DrainLeavesCyclesOnly` | crates/vm-interp/src/interpreter.rs:262-266 | Draining the stack after a run succeeds and leaves only what hangs off cycles |
| `CountedCorrectness.EqualAgrees` | runtime/arithmetic.c:325-383 | A comparison that meets no slice decides what equality of values is, and changes nothing |
| `Uncounted.PrimExactIff` | crates/vm-interp/src/interpreter.rs:1468-1487 | For every instruction that pops operands and pushes results, on operands for which it has a meaning: it leaves counts exact if and only if it is `Countable` |
| `Uncounted.SliceAssignExactIff` | runtime/tuple.c:269-306 | Slice assignment, its release included, leaves counts exact exactly when the replacement is no slice and refers to the same objects, as often, as the items it replaces; the copy made of a replacement that is a slice is never given back |
| `Uncounted.EqualityExactIff` | runtime/arithmetic.c:325-383 | Equality and inequality leave counts exact exactly when the comparison meets no slice: as an operand, or as an item it reaches because everything before is equal |
| `Uncounted.CopyExactIff` | runtime/tuple.c:230-264 | The copy made of a slice is exactly counted exactly when it copies no reference out of a text |
| `Uncounted.ElemExactIff` | runtime/tuple.c:50-102 | Looking an item up leaves counts exact exactly when it copies no reference out of a text, directly or through a slice |
| `Uncounted.SetItemExactIff` | runtime/tuple.c:21-48 | Item assignment leaves counts exact except when a text of one item, with the only reference to that item, is stored into itself: the item is then freed before it is stored again |
| `Uncounted.TupleRepeatExactIff` | runtime/arithmetic.c:186-206 | Tuple repetition leaves counts exact exactly when no reference is repeated |
| `Memories.Memory.DecRef` | runtime/core.c:300-317 | In place: the last reference takes the object and everything it alone kept alive with it |
| `Memories.Memory.FreeObject` | runtime/core.c:319-378 | The loop over an object's references, each of which may free another object |
| `Memories.Memory.IncRef` | runtime/core.c:295-298 | In place: one more reference, or failure on a freed object |
| `Memories.Memory.ConsumeFloatBinop` | crates/vm-interp/src/interpreter.rs:1307-1328 | In place: the left operand if uniquely owned, else the right one, else a new float |
| `Interpreting.Interpreter.constructor` | crates/vm-interp/src/interpreter.rs:192-241 | Globals and an emulated call of main |
| `Interpreting.Interpreter.Push` | crates/vm-interp/src/interpreter.rs:1446-1455 | Refuses at the stack limit |
| `Interpreting.Interpreter.Pop` | crates/vm-interp/src/interpreter.rs:1458-1465 | Never below the globals |
| `Interpreting.Interpreter.EvalLoad` | crates/vm-interp/src/interpreter.rs:791-819 | The slot keeps its reference, the copy gains one |
| `Interpreting.Interpreter.EvalStore` | crates/vm-interp/src/interpreter.rs:825-857 | The popped reference moves in, the old one is released |
| `Interpreting.Interpreter.EvalCallc` | crates/vm-interp/src/interpreter.rs:343-376 | The callable is removed from under its arguments and released |
| `Interpreting.Interpreter.EvalBegin` | crates/vm-interp/src/interpreter.rs:911-958 | Registers saved, metadata and zeroed locals pushed one by one |
| `Interpreting.Interpreter.EvalEnd` | crates/vm-interp/src/interpreter.rs:863-909 | The frame's references released, the stack cut, the caller's registers restored |
| `Interpreting.Interpreter.EvalBinop` | crates/vm-interp/src/interpreter.rs:1082-1305 | Integer, float and logical fast paths and the runtime behind them, references consumed |
| `Interpreting.Interpreter.EvalTuple` | crates/vm-interp/src/interpreter.rs:1367-1392 | Items counted by the tuple, then popped and released from the top |
| `Interpreting.Interpreter.EvalVariant` | crates/vm-interp/src/interpreter.rs:433-488 | Arguments popped without releasing them |
| `Interpreting.Interpreter.EvalDup` | crates/vm-interp/src/interpreter.rs:774-782 | One more reference for the copy |
| `Interpreting.Interpreter.Dispatch` | crates/vm-interp/src/interpreter.rs:301-309 | Reads one instruction's bytes, moves the instruction pointer behind them and does its step |
| `Interpreting.Interpreter.Run` | crates/vm-interp/src/interpreter.rs:243-260 | At most n instructions do what the counted machine does in n steps |
| `Interpreting.Interpreter.Drain` | crates/vm-interp/src/interpreter.rs:262-266 | Every remaining slot is released |
| `Runtime.FastPathsAgree` | crates/vm-interp/src/interpreter.rs:1082-1305 | Whenever an operator has a meaning in the runtime, in particular whenever an integer result fits, the VM's fast path computes exactly that |
| `Runtime.OverflowWraps` | runtime/arithmetic.c:53-63 | Sums, differences and products: the VM keeps the low 32 bits of the true result, the runtime calculates in 32 bits, which has a meaning exactly when the true result fits them; then and only then the two agree |
| `Runtime.FastPathsDiffer` | runtime/arithmetic.c:243-283 | Division and floor division of 32-bit integers by a divisor that is not zero: VM and runtime differ at -2^31 divided by -1 and nowhere else; there the VM wraps and the runtime refuses |
| `Runtime.IntegersAgreeIff` | crates/vm-interp/src/interpreter.rs:1082-1305 | For every operator on 32-bit integers, zero divisors aside, VM and runtime agree exactly when a sum, difference or product fits 32 bits, or a quotient is not -2^31 by -1; remainder, powers, comparisons and logic always agree |
| `Numbers.FloorDivision` | runtime/arithmetic.c:38-51 | Quotient and remainder built from truncating division recompose the dividend, with the remainder on the divisor's side, for every nonzero divisor |
| `Numbers.FloorDivisionUnique` | runtime/arithmetic.c:267-283 | No other pair does |
| `Numbers.SpecIntegerDivision` | doc/archive/spec_old.md:1189-1224 | The specification's repeated subtraction computes the same quotient |
| `Numbers.BoxRoundTrip` | crates/vm-interp/src/object.rs:57-111 | Boxing and unboxing keep exactly the low 32 bits, and integer and logical words never clash |
| `Slices.ClampedIff` | runtime/tuple.c:203-215 | Clamping yields a range of the items exactly when the upper bound is not negative, and what it then yields |
| `Slices.SliceShows` | runtime/tuple.c:190-227 | A slice of a text or tuple shows the items from a up to b, of the same kind |
| `Slices.SliceOfSlice` | runtime/tuple.c:195-201 | For all bounds that are not negative, a slice of a slice points at the root, and shows what the same slice of a copy shows exactly when it asks for no root item behind the first slice |
| `Slices.ItemAssignmentDefinedIff` | runtime/tuple.c:21-48 | Assigning an item has a meaning exactly on texts and tuples and at their indices; on a slice it never has, though the item can be read there: the code writes through the slice's own fields |
| `Slices.ElemThroughSlice` | runtime/tuple.c:72-95 | Looking an item up through a slice is looking it up in a copy, for every index, errors included |
| `Slices.AssignedReads` | runtime/tuple.c:269-306 | After assigning to a slice its parent reads as before, then the replacement, then as before; nothing else has changed |
| `Slices.PutGet` | runtime/tuple.c:269-306 | What was put through a slice is what its place then shows |
| `Slices.GetPut` | runtime/tuple.c:269-306 | Putting back what a slice shows changes nothing |
| `Slices.Items.Splice` | runtime/tuple.c:284-305 | Three copying loops build prefix, replacement and suffix in a new array that replaces the old one |
| `Slices.Items.Materialized` | runtime/tuple.c:234-250 | The copying loop yields the subsequence |
| `Slices.Items.Appended` | runtime/tuple.c:104-125 | Two loops concatenate |
| `Slices.Items.Repeated` | runtime/arithmetic.c:186-206 | Nested loops repeat |
| `Utf8.DecodeUndoesEncode` | runtime/core.c:65-111 | Decoding the concatenated encodings of any non-zero code points returns them; the encodings hold no NUL and fit four bytes each |
| `Utf8.EncodeUndoesDecode` | runtime/core.c:65-111 | Re-encoding any well-formed NUL-free UTF-8 string (section 4 of RFC 3629) returns it byte for byte |
| `Utf8.EncodeIsWellFormed` | runtime/core.c:94-111 | What is encoded from scalar values is well-formed UTF-8 |
| `Utf8.DecodeText` | runtime/core.c:65-92 | The decoding loop with its growing buffer returns the code points of the string |
| `Utf8.EncodeText` | runtime/core.c:247-259 | The encoding loop stays inside a buffer of count * 4 + 1 bytes and terminates it |
| `Lexing.Tokenize` | crates/compiler-core/src/lexer.rs:461-645 | For every source the lexer ends; the stream accounts for the whole source (each token is spelled by its span and by no more of it, between spans there are only blanks and comments) and keeps the layout rules: block indentations climb from 0 and are all closed at the end |
| `Lexing.LaidOut` | crates/compiler-core/src/lexer.rs:185-287 | Hence Dedents never exceed Indents and balance at the end, inside parentheses there is no Newline and no Indent, and a Dedent there stands at the end of the source |
| `Lexing.Lexer.Next` | crates/compiler-core/src/lexer.rs:461-645 | Hands out the next lexeme, keeps the stream's invariant, and makes progress |
| `Lexing.Lexer.ProcessLineStart` | crates/compiler-core/src/lexer.rs:189-271 | Ends at the first line with content, behind lines of blanks and comments; a tab there is reported and leaves the open indentations as they were, any other line opens or closes blocks by its own indentation alone |
| `Lexing.Lexer.EmitEnd` | crates/compiler-core/src/lexer.rs:274-287 | One Dedent for every block still open |
| `LineLaws.LineReads` | crates/compiler-core/src/lexer.rs:291-644 | Any line of keywords, names, operators, numbers and texts, each written as the language says with single spaces between, has one reading: those tokens at those places |
| `LineLaws.TokenizeLine` | crates/compiler-core/src/lexer.rs:291-644 | The lexer hands out exactly that |
| `LineLaws.IntegerReads` | crates/compiler-core/src/lexer.rs:406-414 | A number below 2^63 in decimal, with any leading zeros, is the one token of its value |
| `LineLaws.DecimalRoundTrip` | crates/compiler-core/src/lexer.rs:406-409 | Reading the decimal spelling of a number gives the number |
| `LineLaws.SpellsOnly` | crates/compiler-core/src/lexer.rs:291-644 | At one place of a source at most one token is spelled, with one end |
| `Lexing.KeywordFound` | crates/compiler-core/src/lexer.rs:303-347 | The spelling of each keyword is recognised as that keyword: no two are spelled the same |
| `Lexing.Lexer.LexNumber` | crates/compiler-core/src/lexer.rs:349-415 | Digits, fraction and exponent, as far as they go; an integer that does not fit 64 bits is an error |
| `Lexing.Lexer.LexText` | crates/compiler-core/src/lexer.rs:417-459 | The literal's text and end by the rule of the quotes |
| `Lexing.Lexer.LexSymbol` | crates/compiler-core/src/lexer.rs:550-620 | The longest operator that stands there |
| `Lexing.Lexer.LexWord` | crates/compiler-core/src/lexer.rs:291-347 | The whole word, a keyword exactly when it is spelled like one |
| `Tokens.LaidClimbs` | crates/compiler-core/src/lexer.rs:248-267 | The layout rules make open indentations climb strictly from 0, one per Indent not yet closed |
| `Tokens.LiteralRoundTrip` | crates/compiler-core/src/lexer.rs:417-459 | A text written with fourfold quotes reads back as itself |
| `Tokens.LiteralDocumentedIff` | crates/compiler-core/src/lexer.rs:417-459 | From any place of any source, the lexer reads a text as documented (four quotes for one, any other quote closes) exactly when the first run of quotes whose length is no multiple of four is one longer than such, or there is none; it says the same text exactly when that run is not three longer |
| `Tokens.ThreeQuotes` | crates/compiler-core/src/lexer.rs:435-443 | Three quotes: the lexer reads two of them and ends behind the third, the documentation an empty text that ends behind the first |
| `Tokens.ReindentedIff` | crates/compiler-core/src/lexer.rs:248-267 | The open indentations after a line without tabs climb strictly, the innermost is not deeper than the line, and it equals the line's exactly when the line is deeper than the block before or matches an open one; otherwise the line is misaligned |
| `Tokens.TabKeepsBlocks` | crates/compiler-core/src/lexer.rs:220-228 | A line that a tab indents stays in the block of the line before it: blocks do not change, and its first token is admitted whatever its indentation, where that of any other line is admitted only at its block's |

## Left out

Stated weaker than the code, or under conditions:

- EndToEnd.ProgramsFinish: speaks of runs whose every instruction is `Countable` on the operands it finds, which by `PrimExactIff` are those that keep counts exact; of programs whose call argument counts match their definitions, whose names hold no NUL and which satisfy `ProgramSpeaks`; and of sizes that fit the operands and the file format. `Countable` is a condition on an instruction and its operands; `TidyText` is a condition on the text that implies it and is not necessary, since a text may write slices that a run never makes.
- EndToEnd.TidyProgramsFinish: the other conditions of `ProgramsFinish` on calls, names and sizes stay; all of them are conditions on the text and what is generated for it.
- CompilerCorrectness.StmtRuns: `ввод`, whose values come from outside, and `вывод` of 2^30 or more values have no meaning in the evaluator; for a program that uses them nothing is claimed about its output. Bare `возврат` and assignment to nested collections have none either: the generator refuses them.
- CompilerCorrectness.ExprRuns: integer results must fit 32 bits; beyond that the fast paths wrap (see `OverflowWraps`) while the evaluator, which follows the runtime library, gives no value.
- ForLoops.ForCounts: bounds and step are taken to be steady in every memory; `HeldLoops.CountOnText` counts under a condition on the text instead. With other bounds the loop follows the evaluator, which evaluates them in every round.
- HeldLoops.ForIsHeld: goes from the text to the held loop; a body may also assign its bound the value it has. Integer literals must fit 32 bits; a text as bound has no order to compare.
- HeldLoops.CountOnText: of a bound or step that is a literal or a variable, with an integer value.
- CallLaws.ProgramCallRuns: of names that no builtin, constructor or import takes (those win, by `BuiltinLaw`, `Constructed` and `ImportedCallRuns`) and arguments that are evaluated without an error.
- NameLaws.CountIsExact: without `ввод`, whose variables may be known already, and cases of several values, whose further values take no slot; for all bodies the count is enough by `StmtExtends`.
- SelectionLaws.SelectsItsCase: of cases that name variants of one type; a case with any other value compares by `EqualLaw`. A plain-name selector must mean the same in the scope of every case.
- CollectionLaws.EqualLaw: of values without doubles and functions, texts of characters, slices inside their parents, and instances whose field names differ.
- LineLaws.LineReads: of one line with single spaces and without comments; lines and blocks are `ProcessLineStart`'s.
- Decoding.StreamRoundTrip: excludes the instructions `ComesBackIff` names.
- RefCount.DecExact: states conservation for successful steps; references lost on error paths are not modelled.
- Slices.SliceOfSlice: for slices inside their root's items and bounds that are not negative (`ClampedIff` covers those); what a slice shows after its root shrank is undefined in C and a fault here.
- Memories.Memory.FreeObject: gives the cell up before its references are released, the C code after; nothing looks at the cell in between. A freed cell keeps what it last showed for specification only, and addresses are never used again.
- Interpreting.Interpreter.EvalBinop: shows the fast paths in place; what the runtime does behind them, with its references, is taken from `CountedBinop`, so for those operands the contract holds by construction.
- Interpreting.Interpreter.Run: states which runs fail, not which of several errors is reported.
- Lexing.Tokenize: positions are character indices; the byte offsets of the code are their UTF-8 lengths.

Not modelled:

- Input: `Lread`, `ввод` and reading files. Output is an abstract log of shown values; the formatting of numbers is not modelled. The interpreter hands the shown text to `printf` as its format string (crates/vm-interp/src/interpreter.rs:670-671), so text with `%` prints otherwise than the log says.
- Floating-point arithmetic, powers, roots and rounding: parameters. Printing of floats likewise.
- The handlers behind `EvalLibrary` (item lookup, slices, fields, builtins other than the fast paths, constants): the interpreter object takes their effect from `CountedPrim`, so update in place inside them is not shown, only for load, store, calls, frames, operators on numbers, tuples, variants, duplication and release.
- The temporaries of slice concatenation and of printing appear by their net effect on counts.
- Sizes of 2^32 and more of texts, tuples and code; instruction operands are unbounded and encoded by their low 32 bits, and `Codable` is the range in which that loses nothing.
- `is_alphabetic` and the reading of real literals: library functions, parameters of the lexer.
- Texts are masked and shifted arithmetically in `Utf8`; ill-formed input bytes are decoded as the code does, without a claim about the result.
- The parser, the module loader's topological sort, the optimisation passes, `verifyer.rs`, `index_of`, `CBEGIN`, `ARRAY` and captures, error texts, the command line, benchmarks and the editor extension.
- The tail-call mechanics of dispatch: a step at a time instead.
