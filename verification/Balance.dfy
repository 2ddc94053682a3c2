/** Emitted code read without running it: how deep the frame's temporaries are at every
    point, where jumps lead, and which slots and callees are named. */
module Balance {
  import opened Results
  import opened Bytecode
  import opened Numbers
  import opened Ast
  import opened Scoping
  import opened Codegen
  import M = Machine
  import RT = Runtime
  import StringTable

  /** What code may refer to: slot counts of the frame and the callable entries with their
      arities. */
  datatype Ctx = Ctx(lib: RT.Library, cfg: Config, locals: nat, args: nat, globals: nat)

  // Depth

  /** How many values an instruction without control leaves. */
  function Pushes(i: Instr): nat {
    if i.SETFIELD? || i.STS? || i.DROP? then 0
    else if i.DUP? || i.SWAP? then 2
    else if i.CALLBUILTIN? && i.name == Lwrite then 0
    else if i.CALLBUILTIN? && i.name == Lread then M.WriteCount(i.n)
    else 1
  }

  /** Temporaries after an instruction; jumps and END need them used up, and what follows a
      jump starts from none. */
  function DepthAfter(lib: RT.Library, i: Instr, d: nat): Option<nat> {
    if i.LABEL? || i.NOP? || i.LINE? then Some(d)
    else if i.JMP? then (if d == 0 then Some(0) else None)
    else if i.CJMP? || i.END? then (if d == 1 then Some(0) else None)
    else if i.CALL? then (if 0 <= i.n <= d then Some(d - i.n + 1) else None)
    else if i.CALLC? then (if 0 <= i.arity < d then Some(d - i.arity) else None)
    else if i.BEGIN? then None
    else if i.LOAD? then Some(d + 1)
    else if i.STORE? then (if d >= 1 then Some(d - 1) else None)
    else if M.Pops(lib, i) <= d then Some(d - M.Pops(lib, i) + Pushes(i))
    else None
  }

  function Depth(lib: RT.Library, code: Code, d: nat): Option<nat>
    decreases |code|
  {
    if code == [] then Some(d)
    else match DepthAfter(lib, code[0], d)
      case None => None
      case Some(d') => Depth(lib, code[1..], d')
  }

  lemma {:induction false} DepthSplit(lib: RT.Library, a: Code, b: Code, d: nat)
    ensures Depth(lib, a + b, d) == match Depth(lib, a, d) { case None => None case Some(d') => Depth(lib, b, d') }
    decreases |a|
  {
    hide DepthAfter;
    if a == [] {
      assert a + b == b;
    } else {
      assert (a + b)[1..] == a[1..] + b && (a + b)[0] == a[0];
      if DepthAfter(lib, a[0], d).Some? { DepthSplit(lib, a[1..], b, DepthAfter(lib, a[0], d).value); }
    }
  }

  lemma DepthOne(lib: RT.Library, i: Instr, d: nat)
    ensures Depth(lib, [i], d) == DepthAfter(lib, i, d)
  {
  }

  // Jumps

  function Target(i: Instr): set<string> { if i.JMP? || i.CJMP? then {i.dest.name} else {} }

  function Targets(code: Code): set<string> { set i, t | i in code && t in Target(i) :: t }

  /** Labels that stand where there are no temporaries. */
  function Landings(lib: RT.Library, code: Code, d: nat): set<string>
    decreases |code|
  {
    if code == [] then {}
    else
      (if code[0].LABEL? && d == 0 then {code[0].mark} else {})
      + match DepthAfter(lib, code[0], d) { case None => {} case Some(d') => Landings(lib, code[1..], d') }
  }

  lemma {:induction false} LandingsSplit(lib: RT.Library, a: Code, b: Code, d: nat)
    requires Depth(lib, a, d).Some?
    ensures Landings(lib, a + b, d) == Landings(lib, a, d) + Landings(lib, b, Depth(lib, a, d).value)
    decreases |a|
  {
    hide DepthAfter;
    if a == [] {
      assert a + b == b;
    } else {
      assert (a + b)[1..] == a[1..] + b && (a + b)[0] == a[0];
      LandingsSplit(lib, a[1..], b, DepthAfter(lib, a[0], d).value);
    }
  }

  // Instructions on their own

  /** Slots are inside the frame, callees are known with their arity. */
  predicate Fits(x: Ctx, i: Instr) {
    && !i.BEGIN? && !i.CBEGIN?
    && (i.LOAD? ==> SlotFits(x, i.rel, i.index)) && (i.STORE? ==> SlotFits(x, i.rel, i.index))
    && (i.CALL? ==> i.n >= 0 && (i.dest.name, i.n) in x.cfg.callTargets.Values)
    && (i.CLOSURE? ==> i.arity >= 0 && (i.dest.name, i.arity) in x.cfg.callTargets.Values)
  }

  predicate SlotFits(x: Ctx, rel: ValueRel, index: int) {
    match rel
    case Global => 0 <= index < x.globals
    case Local => 0 <= index < x.locals
    case Arg => 0 <= index < x.args
    case Capture => false
  }

  predicate AllFit(x: Ctx, code: Code) { forall i :: i in code ==> Fits(x, i) }

  /** No label, jump or END: control goes straight through. */
  predicate Straight(code: Code) { forall i :: i in code ==> !i.LABEL? && !i.JMP? && !i.CJMP? && !i.END? }

  /** Straight code that leaves `n` more temporaries, from any depth. */
  ghost predicate Rises(x: Ctx, code: Code, n: nat) {
    Straight(code) && AllFit(x, code) && forall d: nat :: Depth(x.lib, code, d) == Some(d + n)
  }

  /** Code of a statement: it starts and ends without temporaries, and its jumps lead to its
      own landing labels or to the ends of enclosing loops. */
  predicate Balanced(x: Ctx, code: Code, ends: seq<string>) {
    && Depth(x.lib, code, 0) == Some(0) && AllFit(x, code)
    && forall t :: t in Targets(code) ==> t in Landings(x.lib, code, 0) || t in ends
  }

  // Putting code together

  lemma RisesSeq(x: Ctx, a: Code, m: nat, b: Code, n: nat)
    requires Rises(x, a, m) && Rises(x, b, n)
    ensures Rises(x, a + b, m + n)
  {
    forall d: nat ensures Depth(x.lib, a + b, d) == Some(d + (m + n)) { DepthSplit(x.lib, a, b, d); }
  }

  /** Operands, then an instruction that turns them into `n` values. */
  lemma RisesOp(x: Ctx, a: Code, m: nat, i: Instr, n: nat)
    requires Rises(x, a, m) && Straight([i]) && Fits(x, i)
    requires forall d: nat :: d >= m ==> DepthAfter(x.lib, i, d) == Some(d - m + n)
    ensures Rises(x, a + [i], n)
  {
    hide DepthAfter, Fits;
    forall d: nat ensures Depth(x.lib, a + [i], d) == Some(d + n) {
      DepthSplit(x.lib, a, [i], d);
      DepthOne(x.lib, i, d + m);
    }
  }

  lemma RisesNone(x: Ctx)
    ensures Rises(x, [], 0)
  {
  }

  lemma RisesOne(x: Ctx, i: Instr)
    requires Straight([i]) && Fits(x, i) && forall d: nat :: DepthAfter(x.lib, i, d) == Some(d + 1)
    ensures Rises(x, [i], 1)
  {
    hide DepthAfter, Fits;
    forall d: nat ensures Depth(x.lib, [i], d) == Some(d + 1) { DepthOne(x.lib, i, d); }
  }

  lemma TargetsSplit(a: Code, b: Code)
    ensures Targets(a + b) == Targets(a) + Targets(b)
  {
  }

  lemma StraightIsQuiet(lib: RT.Library, code: Code, d: nat)
    requires Straight(code)
    ensures Targets(code) == {} && Landings(lib, code, d) == {}
    decreases |code|
  {
    if code != [] && DepthAfter(lib, code[0], d).Some? {
      StraightIsQuiet(lib, code[1..], DepthAfter(lib, code[0], d).value);
    }
  }

  lemma BalancedNil(x: Ctx, ends: seq<string>)
    ensures Balanced(x, [], ends)
  {
  }

  lemma BalancedSeq(x: Ctx, a: Code, b: Code, ends: seq<string>)
    requires Balanced(x, a, ends) && Balanced(x, b, ends)
    ensures Balanced(x, a + b, ends)
  {
    hide Fits, Targets;
    DepthSplit(x.lib, a, b, 0);
    LandingsSplit(x.lib, a, b, 0);
    TargetsSplit(a, b);
  }

  lemma BalancedRises(x: Ctx, a: Code, ends: seq<string>)
    requires Rises(x, a, 0)
    ensures Balanced(x, a, ends)
  {
    hide Fits, Targets;
    StraightIsQuiet(x.lib, a, 0);
  }

  /** A computed value that a last instruction consumes. */
  lemma BalancedThen(x: Ctx, a: Code, i: Instr, ends: seq<string>)
    requires Rises(x, a, 1) && Fits(x, i) && DepthAfter(x.lib, i, 1) == Some(0) && !i.LABEL?
    requires forall t :: t in Target(i) ==> t in ends
    ensures Balanced(x, a + [i], ends)
  {
    hide Fits, DepthAfter;
    DepthSplit(x.lib, a, [i], 0);
    DepthOne(x.lib, i, 1);
    TargetsSplit(a, [i]);
    StraightIsQuiet(x.lib, a, 0);
    OneTarget(i);
  }

  lemma OneTarget(i: Instr)
    ensures Targets([i]) == Target(i)
  {
    assert forall t :: t in Target(i) ==> i in [i] && t in Targets([i]);
  }

  lemma BalancedJump(x: Ctx, name: string, ends: seq<string>)
    requires name in ends
    ensures Balanced(x, [JMP(Named(name))], ends)
  {
    OneTarget(JMP(Named(name)));
  }

  lemma BalancedLabel(x: Ctx, name: string, ends: seq<string>)
    ensures Balanced(x, [LABEL(name)], ends) && name in Landings(x.lib, [LABEL(name)], 0)
  {
    OneTarget(LABEL(name));
  }

  /** Code that defines a landing needs it no longer from outside. */
  lemma BalancedClose(x: Ctx, code: Code, name: string, ends: seq<string>)
    requires Balanced(x, code, ends + [name]) && name in Landings(x.lib, code, 0)
    ensures Balanced(x, code, ends)
  {
  }

  lemma BalancedWeaken(x: Ctx, code: Code, ends: seq<string>, more: seq<string>)
    requires Balanced(x, code, ends) && forall t :: t in ends ==> t in more
    ensures Balanced(x, code, more)
  {
  }

  lemma LandsLater(x: Ctx, a: Code, b: Code, name: string)
    requires Depth(x.lib, a, 0) == Some(0) && name in Landings(x.lib, b, 0)
    ensures name in Landings(x.lib, a + b, 0)
  {
    LandingsSplit(x.lib, a, b, 0);
  }

  lemma LandsEarlier(x: Ctx, a: Code, b: Code, name: string)
    requires Depth(x.lib, a, 0).Some? && name in Landings(x.lib, a, 0)
    ensures name in Landings(x.lib, a + b, 0)
  {
    LandingsSplit(x.lib, a, b, 0);
  }
}
