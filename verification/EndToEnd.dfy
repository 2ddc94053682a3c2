/** The whole chain: a program's modules, compiled, assembled, written to a file, read back and
    run by the reference-counting interpreter, print and leave what the modules mean, and give
    all memory back. */
module EndToEnd {
  import opened Results
  import opened Bytecode
  import opened Assembly
  import opened Codegen
  import opened Container
  import opened Encoding
  import opened GeneratedFile
  import opened Linking
  import opened RefCount
  import opened CountedMachine
  import opened CountedCorrectness
  import opened CountedRuns
  import opened Codability
  import opened Numbers
  import opened Safety
  import opened StringTable
  import opened TameHeaps
  import opened TidyCode
  import PC = ProgramCorrectness
  import PS = ProgramSafety
  import Semantics
  import M = Machine
  import RT = Runtime
  import opened Bytefiles
  import opened Interpreting

  /** No step of the run executes an uncounted operation. */
  ghost predicate CountableOps(img: M.Image, s: RState, n: nat)
    decreases n
  {
    n == 0 || (CountableOp(img, s) && (GoesOn(img, s) ==> CountableOps(img, CountedStep(img, s).state, n - 1)))
  }

  /** Both machines take the step and run on. */
  ghost predicate GoesOn(img: M.Image, s: RState) { M.Step(img, ViewState(s)).Running? && CountedStep(img, s).Running? }

  /** Stack balance supplies what reference counting needs of END. */
  lemma {:induction false} SafeRunFollows(img: M.Image, labels: Labels, pieces: set<Piece>, s: RState, n: nat)
    requires Linked(img, labels, pieces) && Safe(img, pieces, ViewState(s))
    requires Sound(s) && img.lib.depth > 0 && CountableOps(img, s, n)
    ensures Follows(M.Run(img, ViewState(s), n), CountedRun(img, s, n))
    decreases n
  {
    hide Linked, Safe, Sound, View, ViewAll, M.Step, CountedStep, CountableOp;
    if n > 0 {
      StepSafe(img, labels, pieces, ViewState(s));
      StepFollows(img, s);
      if M.Step(img, ViewState(s)).Running? { SafeRunFollows(img, labels, pieces, CountedStep(img, s).state, n - 1); }
    }
  }

  // Programs whose text uses no uncounted operation

  ghost predicate TidyPieces(pieces: set<Piece>, tuples: bool) { forall p :: p in pieces ==> AllTidy(p.body, tuples) }

  /** What a safe state of tidy code is about to execute. */
  lemma TidyNow(img: M.Image, labels: Labels, pieces: set<Piece>, s: M.State, tuples: bool)
    requires Linked(img, labels, pieces) && Safe(img, pieces, s) && TidyPieces(pieces, tuples)
    ensures s.ip in img.program && (M.IsControl(img.program[s.ip].instr) || Tidy(img.program[s.ip].instr, tuples))
  {
    hide Linked, Safe;
    SafeNow(img, labels, pieces, s);
    if !AtBegin(img, s) {
      var p, i :| p in pieces && i in p.body && img.program[s.ip].instr == Assembly.Target(labels, i);
      assert Tidy(i, tuples);
    }
  }

  lemma TidyOp(img: M.Image, s: RState, tuples: bool)
    requires s.ip in img.program && (M.IsControl(img.program[s.ip].instr) || Tidy(img.program[s.ip].instr, tuples))
    requires Tame(View(s.heap), tuples)
    ensures CountableOp(img, s)
  {
    hide View, Tame, Tidy, Countable, M.Pops;
    var i := img.program[s.ip].instr;
    var k := M.Pops(img.lib, i);
    if !M.IsControl(i) && |s.stack| >= k { TidyIsCountable(img, i, s.heap, s.stack[|s.stack| - k..], tuples); }
  }

  /** Tidy code never leaves tame heaps, so it executes no uncounted operation. */
  lemma {:induction false} TidyOps(img: M.Image, labels: Labels, pieces: set<Piece>, s: RState, tuples: bool, n: nat)
    requires Linked(img, labels, pieces) && Safe(img, pieces, ViewState(s)) && TidyPieces(pieces, tuples)
    requires Sound(s) && img.lib.depth > 0 && Tame(View(s.heap), tuples)
    ensures CountableOps(img, s, n)
    decreases n
  {
    hide Linked, Safe, Sound, View, ViewAll, M.Step, CountedStep, CountableOp, TidyPieces, Tame, Tidy;
    if n > 0 {
      TidyNow(img, labels, pieces, ViewState(s), tuples);
      TidyOp(img, s, tuples);
      if GoesOn(img, s) {
        StepSafe(img, labels, pieces, ViewState(s));
        StepFollows(img, s);
        StepTame(img, ViewState(s), tuples);
        TidyOps(img, labels, pieces, CountedStep(img, s).state, tuples, n - 1);
      }
    }
  }

  lemma {:induction false} InitCallsTidy(ms: seq<ModuleDef>, tuples: bool)
    ensures AllTidy(InitCalls(ms), tuples)
    decreases |ms|
  {
    hide InitLabel;
    if ms != [] { InitCallsTidy(ms[1..], tuples); }
  }

  lemma TidyPiece(ms: seq<ModuleDef>, p: Piece, tuples: bool)
    requires PS.FromProgram(ms, p) && UnitsTidy(ProgramUnits(ms), tuples)
    ensures AllTidy(p.body, tuples)
  {
    hide EmitProgram, ProgramUnits, EmitBlock, TidyBlock;
    if p.body == InitCalls(ms) + ([NULL] + [END]) {
      InitCallsTidy(ms, tuples);
    } else {
      var u :| u in ProgramUnits(ms) && PS.EmittedFor(u.unit, p.body);
      UnitTidy(u.unit, p.body, tuples);
    }
  }

  lemma UnitTidy(u: Semantics.Unit, body: Code, tuples: bool)
    requires PS.EmittedFor(u, body) && TidyBlock(u.body, tuples)
    ensures AllTidy(body, tuples)
  {
    hide EmitBlock, TidyBlock;
    var n: nat, tab: Strings :| PS.BodyFrom(EmitBlock(u.cfg, GenEnv(u.scope, n, [], tab), u.body), body);
    BlockTidy(u.cfg, GenEnv(u.scope, n, [], tab), u.body, tuples);
  }

  /** A finished run that did what the program means, and whose heap holds nothing but what
      hangs off reference cycles once the stack is released. */
  ghost predicate Clean(img: M.Image, r: ROutcome, m: Semantics.Mem, rank: nat -> nat) {
    && r.Halted? && r.state.log == m.log && img.globals <= |r.state.stack|
    && ViewAll(r.state.heap.flts, r.state.stack)[..img.globals] == m.globals
    && Drained(r.state).Ok? && Exact(Drained(r.state).value, multiset{})
    && (Acyclic(Drained(r.state).value, rank) ==> forall v: RVal :: CountOf(Drained(r.state).value, v) == 0)
  }

  /** Either the interpreter finishes so, or its stack limit stops it. */
  ghost predicate Finishes(img: M.Image, main: nat, m: Semantics.Mem, rank: nat -> nat) {
    exists n: nat :: Clean(img, CountedRun(img, CountedBoot(img, main), n), m, rank)
      || M.Run(img, M.Boot(img, main), n) == M.Failed(StackOverflow)
  }

  /** The runtime library with the program's own schemas. */
  function ProgramLib(ms: seq<ModuleDef>, lib: RT.Library): RT.Library {
    WithSchemas(lib, ProgramGen(ms).schemas, ProgramGen(ms).strings)
  }

  /** The program compiles and assembles, its calls and imports match, its sizes fit, and it
      never writes nothing without newline. */
  ghost predicate Compiled(ms: seq<ModuleDef>, labels: Labels, bytes: seq<Byte>, lib: RT.Library) {
    && EmitProgram(ms).Ok? && Place(ProgramCode(ms), 0, map[]) == Ok(labels)
    && Emit(labels, ProgramCode(ms)) == Ok(bytes) && FitsI32(|bytes|)
    && PS.ProgramMatches(ms) && SizesFit(ms) && ProgramSpeaks(ms)
    && lib.depth > 0 && ProgramGen(ms).globals + BOOT + 1 <= M.MAX_STACK && MAIN in labels
  }

  /** The modules mean `m`: the memory after every module's initialisation. */
  predicate Meaning(ms: seq<ModuleDef>, labels: Labels, lib: RT.Library, fuel: nat, m: Semantics.Mem) {
    EvalProgram(WorldOf(labels, ProgramUnits(ms), ProgramLib(ms, lib)), fuel, ms, StartMem(ProgramGen(ms).globals)) == Ok(m)
  }

  /** What the interpreter runs once it has read a file. */
  ghost function Load(c: Contents, lib: RT.Library): M.Image {
    M.Image(DecodedAt(c.code), c.strings, c.globalAreaSize, WithSchemas(lib, c.schemas, c.strings))
  }

  /** The file can be written: sizes fit the format, names hold no NUL. */
  predicate Writable(ms: seq<ModuleDef>, labels: Labels, bytes: seq<Byte>) {
    && (forall n :: n in Exported(ms) ==> Plain(n))
    && match FileOf(ms, labels, bytes) case Ok(c) => Small(c) case Err(_) => true
  }

  /** The interpreter that reads the written file back runs `img` from `main`. */
  ghost predicate ReadBack(ms: seq<ModuleDef>, labels: Labels, bytes: seq<Byte>, lib: RT.Library, img: M.Image, main: nat) {
    match FileOf(ms, labels, bytes)
    case Err(_) => true
    case Ok(file) =>
      match ParseFile(EncodeFile(file))
      case Ok(c) => img == Load(c, lib) && main == c.main
      case Err(_) => true
  }

  /** The modules compile, are written and read back, and mean `m`. */
  ghost predicate Ready(ms: seq<ModuleDef>, labels: Labels, bytes: seq<Byte>, lib: RT.Library, fuel: nat,
                        img: M.Image, main: nat, m: Semantics.Mem)
  {
    && Compiled(ms, labels, bytes, lib) && Writable(ms, labels, bytes) && ReadBack(ms, labels, bytes, lib, img, main)
    && Meaning(ms, labels, lib, fuel, m)
  }

  /** In addition the run uses no uncounted operation. */
  ghost predicate Means(ms: seq<ModuleDef>, labels: Labels, bytes: seq<Byte>, lib: RT.Library, fuel: nat,
                        img: M.Image, main: nat, m: Semantics.Mem)
  {
    Ready(ms, labels, bytes, lib, fuel, img, main, m) && forall n: nat :: CountableOps(img, CountedBoot(img, main), n)
  }

  /** `img` and `main` are the linked program's. */
  ghost predicate IsLink(ms: seq<ModuleDef>, labels: Labels, bytes: seq<Byte>, more: Strings, lib: RT.Library,
                         img: M.Image, main: nat)
  {
    && Compiled(ms, labels, bytes, lib) && PC.Assembled(ProgramCode(ms), labels, bytes)
    && PS.SchemasRead(ProgramGen(ms), ProgramLib(ms, lib))
    && img == PC.Link(ms, labels, bytes, more, ProgramLib(ms, lib)).img && main == OffsetOf(labels, MAIN)
  }

  /** What the assembler accepts of such a program is what the byte code can hold. */
  lemma CompiledAssembles(ms: seq<ModuleDef>, labels: Labels, bytes: seq<Byte>, lib: RT.Library)
    requires Compiled(ms, labels, bytes, lib)
    ensures PC.Assembled(ProgramCode(ms), labels, bytes) && PS.SchemasRead(ProgramGen(ms), ProgramLib(ms, lib))
  {
    hide EmitProgram, PS.ProgramMatches, SizesFit, ProgramSpeaks, Place, Emit, AllCodable;
    CodableIff(ms, ProgramLib(ms, lib));
  }

  /** The file reads back, and it is the linked program. */
  lemma FileIsLinked(ms: seq<ModuleDef>, labels: Labels, bytes: seq<Byte>, lib: RT.Library, fuel: nat,
                     img: M.Image, main: nat, m: Semantics.Mem) returns (more: Strings)
    requires Ready(ms, labels, bytes, lib, fuel, img, main, m)
    ensures IsLink(ms, labels, bytes, more, lib, img, main)
  {
    hide EmitProgram, PC.Assembled, EvalProgram, ParseFile, EncodeFile, PS.ProgramMatches, PS.SchemasRead, SizesFit, ProgramSpeaks,
      AddSymbols, Place, Emit, WithSchemas, Terminated, SchemasIn;
    CompiledAssembles(ms, labels, bytes, lib);
    GeneratedSurvives(ms, labels, bytes, lib);
    var c, g := FileOf(ms, labels, bytes).value, ProgramGen(ms);
    more := c.strings[|g.strings|..];
    assert c.strings == g.strings + more;
    TableIsSound(ms);
    SchemasStable(lib, g.schemas, g.strings, more);
  }

  lemma TableIsSound(ms: seq<ModuleDef>)
    requires EmitProgram(ms).Ok?
    ensures Terminated(ProgramGen(ms).strings) && SchemasIn(ProgramGen(ms).schemas, ProgramGen(ms).strings)
  {
    hide EmitModules, Terminated;
    StartsTerminated(ms);
    ModulesIn(ms, NEW_GEN);
  }

  lemma ProgramsFinish(ms: seq<ModuleDef>, labels: Labels, bytes: seq<Byte>, lib: RT.Library, fuel: nat,
                       img: M.Image, main: nat, m: Semantics.Mem, rank: nat -> nat)
    requires Means(ms, labels, bytes, lib, fuel, img, main, m)
    ensures Finishes(img, main, m, rank)
  {
    hide Ready, CountableOps, Finishes, IsLink;
    var more := FileIsLinked(ms, labels, bytes, lib, fuel, img, main, m);
    LinkedFinishes(ms, labels, bytes, more, lib, fuel, img, main, m, rank);
  }

  lemma LinkedFinishes(ms: seq<ModuleDef>, labels: Labels, bytes: seq<Byte>, more: Strings, lib: RT.Library, fuel: nat,
                       img: M.Image, main: nat, m: Semantics.Mem, rank: nat -> nat)
    requires Means(ms, labels, bytes, lib, fuel, img, main, m)
    requires IsLink(ms, labels, bytes, more, lib, img, main)
    ensures Finishes(img, main, m, rank)
  {
    hide EmitProgram, PC.Assembled, EvalProgram, FileOf, ParseFile, EncodeFile, Writable, Linked, Safe, M.Run, CountedRun, CountableOps, Sound,
      PS.ProgramMatches, PS.SchemasRead, SizesFit, ProgramSpeaks, Place, Emit, ProgramLib, View, ViewAll;
    var own := ProgramLib(ms, lib);
    SameDepth(ms, lib);
    PS.LinkGlobals(ms, labels, bytes, more, own);
    var (v, h) := RT.Alloc(m.heap, RT.Null);
    PC.ProgramRuns(ms, labels, bytes, more, own, fuel);
    var final := PC.MainFinal(img.globals, m.(heap := h), v);
    var n: nat :| M.Run(img, M.Boot(img, main), n) in {M.Halted(final), M.Failed(StackOverflow)};
    if M.Run(img, M.Boot(img, main), n) == M.Halted(final) {
      var pieces, piece := PS.ProgramLinks(ms, labels, bytes, more, own);
      BootSafe(img, pieces, piece);
      BootSound(img, main);
      SafeRunFollows(img, labels, pieces, CountedBoot(img, main), n);
      var s := CountedRun(img, CountedBoot(img, main), n).state;
      DrainLeavesCyclesOnly(s, rank);
      assert final.stack[..img.globals] == m.globals;
      assert Clean(img, CountedRun(img, CountedBoot(img, main), n), m, rank);
    }
  }

  /** No slice is written or assigned, no item is assigned, and `*` and tuples are not both used:
      such a program finishes so, whatever it does. */
  lemma TidyProgramsFinish(ms: seq<ModuleDef>, labels: Labels, bytes: seq<Byte>, lib: RT.Library, fuel: nat,
                           img: M.Image, main: nat, m: Semantics.Mem, rank: nat -> nat)
    requires Ready(ms, labels, bytes, lib, fuel, img, main, m) && (TidyText(ms, true) || TidyText(ms, false))
    ensures Finishes(img, main, m, rank)
  {
    hide Ready, CountableOps, Finishes, IsLink, TidyText;
    var more := FileIsLinked(ms, labels, bytes, lib, fuel, img, main, m);
    var tuples := TidyText(ms, true);
    forall n: nat ensures CountableOps(img, CountedBoot(img, main), n) {
      TidyRuns(ms, labels, bytes, more, lib, img, main, tuples, n);
    }
    ProgramsFinish(ms, labels, bytes, lib, fuel, img, main, m, rank);
  }

  /** Every run of a tidy program executes counted operations only. */
  lemma TidyRuns(ms: seq<ModuleDef>, labels: Labels, bytes: seq<Byte>, more: Strings, lib: RT.Library,
                 img: M.Image, main: nat, tuples: bool, n: nat)
    requires IsLink(ms, labels, bytes, more, lib, img, main) && TidyText(ms, tuples)
    ensures CountableOps(img, CountedBoot(img, main), n)
  {
    hide EmitModules, PC.Assembled, Linked, Safe, CountableOps, Sound, PS.ProgramMatches, PS.SchemasRead, SizesFit, ProgramSpeaks, Place, Emit,
      ProgramLib, TidyText, UnitsTidy, PS.FromProgram, AllTidy;
    var own := ProgramLib(ms, lib);
    SameDepth(ms, lib);
    PS.LinkGlobals(ms, labels, bytes, more, own);
    ModulesTidy(ms, NEW_GEN, tuples);
    var pieces, piece := PS.ProgramLinks(ms, labels, bytes, more, own);
    forall p | p in pieces ensures AllTidy(p.body, tuples) { TidyPiece(ms, p, tuples); }
    BootSafe(img, pieces, piece);
    BootSound(img, main);
    TidyOps(img, labels, pieces, CountedBoot(img, main), tuples, n);
  }

  lemma SameDepth(ms: seq<ModuleDef>, lib: RT.Library)
    ensures ProgramLib(ms, lib).depth == lib.depth
  {
    hide EmitProgram;
  }

  /** The virtual machine as a program: read a file, run it for at most `n` instructions, and
      when main has ended release what the stack holds. It does what the counted machine does
      from its start, so `ProgramsFinish` speaks of it. */
  method RunFile(file: seq<Byte>, lib: RT.Library, n: nat) returns (r: Signal, log: seq<RT.Event>, left: RHeap)
    requires ParseFile(file).Ok? && ParseFile(file).value.globalAreaSize + BOOT + 1 <= M.MAX_STACK
    ensures var c := ParseFile(file).value;
      match CountedRun(Load(c, lib), CountedBoot(Load(c, lib), c.main), n)
      case Running(s) => r == Go && log == s.log
      case Halted(s) => log == s.log && (if Drained(s).Ok? then r == Stop && left == Drained(s).value else r.Fail?)
      case Failed(_) => r.Fail?
  {
    hide CountedRun, Drained, ParseFile, DecodedAt;
    var parsed := Bytefile.Parse(file);
    var b := parsed.value;
    var vm := new Interpreter(b.code, b.strings, b.globalAreaSize, WithSchemas(lib, b.schemas, b.strings), b.main);
    r := vm.Run(n);
    log, left := vm.log, vm.memory.Heap();
    if r.Stop? {
      var ok := vm.Drain();
      left := vm.memory.Heap();
      if !ok { r := Fail(Undefined); }
    }
  }
}
