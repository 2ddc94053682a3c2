/** What operators and built-in functions compute, in arithmetic's own terms: nothing here is
    said with the tables that choose an instruction for an operator
    (crates/compiler-core/src/codegen/bcgen.rs, runtime/arithmetic.c, runtime/builtins.c). */
module OperatorLaws {
  import opened Results
  import opened Bytecode
  import opened Numbers
  import opened Ast
  import opened Scoping
  import opened Semantics
  import RT = Runtime

  /** The left operand is evaluated before the right one. */
  ghost predicate Operands(w: World, fuel: nat, cfg: Config, sc: Scope, a: Expr, b: Expr, m: Mem, x: Value, y: Value, m': Mem) {
    match EvalExpr(w, fuel, cfg, sc, a, m)
    case Ok((v, m1)) => v == x && EvalExpr(w, fuel, cfg, sc, b, m1) == Ok((y, m'))
    case Err(_) => false
  }

  /** A 32-bit result; beyond it the operation has no meaning. */
  function Whole(n: int, m: Mem): Result<ValueAnd> {
    if -0x8000_0000 <= n < 0x8000_0000 then Ok((RT.Int(n), m)) else Err(Undefined)
  }

  function Truth(b: bool, m: Mem): Result<ValueAnd> { Ok((RT.Bool(b), m)) }

  // ---------------------------------------------------------------- integers

  /** Arithmetic and comparison of integers, whatever expressions the operands are. */
  lemma IntegerLaw(w: World, fuel: nat, cfg: Config, sc: Scope, op: BinaryOperator, a: Expr, b: Expr, m: int, n: int, before: Mem, after: Mem)
    requires Operands(w, fuel, cfg, sc, a, b, before, RT.Int(m), RT.Int(n), after) && w.lib.depth > 0
    ensures var r := EvalExpr(w, fuel, cfg, sc, Binary(op, a, b), before);
      match op
      case Add => r == Whole(m + n, after)
      case Subtract => r == Whole(m - n, after)
      case Multiply => r == Whole(m * n, after)
      case Less => r == Truth(m < n, after)
      case LessOrEqual => r == Truth(m <= n, after)
      case Greater => r == Truth(m > n, after)
      case GreaterOrEqual => r == Truth(m >= n, after)
      case Equal => r == Truth(m == n, after)
      case NotEqual => r == Truth(m != n, after)
      case _ => true
  {
    hide EvalExpr, RT.Binop;
    if !op.Dot? {
      BinaryIs(w, fuel, cfg, sc, op, a, b, before, RT.Int(m), RT.Int(n), after);
      OnIntegers(w.lib, after.heap, op, m, n);
    }
  }

  lemma OnIntegers(lib: RT.Library, h: Heap, op: BinaryOperator, m: int, n: int)
    requires Operator(op).Ok? && lib.depth > 0
    ensures var r := RT.Binop(lib, h, Operator(op).value, RT.Int(m), RT.Int(n));
      match op
      case Add => r == (if FitsI32(m + n) then Ok((RT.Int(m + n), h)) else Err(Undefined))
      case Subtract => r == (if FitsI32(m - n) then Ok((RT.Int(m - n), h)) else Err(Undefined))
      case Multiply => r == (if FitsI32(m * n) then Ok((RT.Int(m * n), h)) else Err(Undefined))
      case Less => r == Ok((RT.Bool(m < n), h))
      case LessOrEqual => r == Ok((RT.Bool(m <= n), h))
      case Greater => r == Ok((RT.Bool(m > n), h))
      case GreaterOrEqual => r == Ok((RT.Bool(m >= n), h))
      case Equal => r == Ok((RT.Bool(m == n), h))
      case NotEqual => r == Ok((RT.Bool(m != n), h))
      case _ => true
  {
  }

  /** One level of the evaluator, for whatever operator. */
  lemma BinaryIs(w: World, fuel: nat, cfg: Config, sc: Scope, op: BinaryOperator, a: Expr, b: Expr, before: Mem, x: Value, y: Value, after: Mem)
    requires Operands(w, fuel, cfg, sc, a, b, before, x, y, after) && Operator(op).Ok?
    ensures EvalExpr(w, fuel, cfg, sc, Binary(op, a, b), before) == InHeap(after, RT.Binop(w.lib, after.heap, Operator(op).value, x, y))
  {
  }

  /** Floor division and remainder: the one pair of numbers that recomposes the dividend with a
      remainder on the divisor's side of zero. */
  lemma FloorLaw(w: World, fuel: nat, cfg: Config, sc: Scope, a: Expr, b: Expr, m: int, n: int, q: int, rem: int, before: Mem, after: Mem)
    requires Operands(w, fuel, cfg, sc, a, b, before, RT.Int(m), RT.Int(n), after)
    requires FitsI32(n) && m == q * n + rem && (0 <= rem < n || n < rem <= 0) && FitsI32(q)
    ensures EvalExpr(w, fuel, cfg, sc, Binary(IntegerDivide, a, b), before) == Ok((RT.Int(q), after))
    ensures EvalExpr(w, fuel, cfg, sc, Binary(Remainder, a, b), before) == Ok((RT.Int(rem), after))
  {
    hide EvalExpr;
    BinaryIs(w, fuel, cfg, sc, IntegerDivide, a, b, before, RT.Int(m), RT.Int(n), after);
    BinaryIs(w, fuel, cfg, sc, Remainder, a, b, before, RT.Int(m), RT.Int(n), after);
    FloorDivisionUnique(m, n, q, rem);
  }

  /** Division of integers is exact where it can be, of doubles where it cannot. */
  lemma DivideLaw(w: World, fuel: nat, cfg: Config, sc: Scope, a: Expr, b: Expr, m: int, n: int, before: Mem, after: Mem)
    requires Operands(w, fuel, cfg, sc, a, b, before, RT.Int(m), RT.Int(n), after)
    ensures var r := EvalExpr(w, fuel, cfg, sc, Binary(Divide, a, b), before);
      if n == 0 then r == Err(DivisionByZero)
      else if m % n != 0 then r == Ok((RT.Flt(w.lib.fpu.arith(DIV, w.lib.fpu.ofInt(m), w.lib.fpu.ofInt(n))), after))
      else if FitsI32(m / n) then r == Ok((RT.Int(m / n), after))
      else r == Err(IntegerRange)
  {
    hide EvalExpr;
    BinaryIs(w, fuel, cfg, sc, Divide, a, b, before, RT.Int(m), RT.Int(n), after);
    if n != 0 { TruncatedExact(m, n); }
  }

  /** Where division is exact all roundings agree. */
  lemma TruncatedExact(m: int, n: int)
    requires n != 0
    ensures TruncRem(m, n) == 0 <==> m % n == 0
    ensures m % n == 0 ==> TruncDiv(m, n) == m / n
  {
    var q := TruncDiv(m, n);
    assert TruncRem(m, n) == m - q * n;
    if m < 0 {
      assert -m == (-m) / n * n + (-m) % n;
      if TruncRem(m, n) == 0 { MultipleDivides(m, n, q); }
      if m % n == 0 {
        Negated(m, n);
        MultipleDivides(-m, n, -(m / n));
      }
    }
  }

  lemma Negated(m: int, n: int)
    requires n != 0 && m % n == 0
    ensures -m == -(m / n) * n
  {
    assert m == m / n * n + m % n;
  }

  lemma MultipleDivides(m: int, n: int, q: int)
    requires n != 0 && m == q * n
    ensures m % n == 0 && m / n == q
  {
    var d, k := m / n, q - m / n;
    assert m == d * n + m % n;
    assert k * n == q * n - d * n;
    if k != 0 { MultipleIsLarge(k, n); }
  }

  /** Dividing by integer zero is an error for every kind of division. */
  lemma ZeroLaw(w: World, fuel: nat, cfg: Config, sc: Scope, op: BinaryOperator, a: Expr, b: Expr, x: Value, before: Mem, after: Mem)
    requires Operands(w, fuel, cfg, sc, a, b, before, x, RT.Int(0), after) && op in {Divide, IntegerDivide, Remainder}
    ensures EvalExpr(w, fuel, cfg, sc, Binary(op, a, b), before) == Err(DivisionByZero)
  {
    hide EvalExpr;
    BinaryIs(w, fuel, cfg, sc, op, a, b, before, x, RT.Int(0), after);
  }

  /** The laws on written numbers. */
  lemma LiteralLaw(w: World, fuel: nat, cfg: Config, sc: Scope, op: BinaryOperator, m: int, n: int, mem: Mem)
    requires FitsI32(m) && FitsI32(n) && w.lib.depth > 0
    ensures var r := EvalExpr(w, fuel, cfg, sc, Binary(op, IntegerLit(m), IntegerLit(n)), mem);
      match op
      case Add => r == Whole(m + n, mem)
      case Subtract => r == Whole(m - n, mem)
      case Multiply => r == Whole(m * n, mem)
      case Less => r == Truth(m < n, mem)
      case LessOrEqual => r == Truth(m <= n, mem)
      case Greater => r == Truth(m > n, mem)
      case GreaterOrEqual => r == Truth(m >= n, mem)
      case Equal => r == Truth(m == n, mem)
      case NotEqual => r == Truth(m != n, mem)
      case _ => true
  {
    assert Operands(w, fuel, cfg, sc, IntegerLit(m), IntegerLit(n), mem, RT.Int(m), RT.Int(n), mem);
    IntegerLaw(w, fuel, cfg, sc, op, IntegerLit(m), IntegerLit(n), m, n, mem, mem);
  }

  // ---------------------------------------------------------------- booleans and doubles

  /** Conjunction, disjunction and comparison of truth values; both sides are evaluated. */
  lemma BooleanLaw(w: World, fuel: nat, cfg: Config, sc: Scope, op: BinaryOperator, a: Expr, b: Expr, p: bool, q: bool, before: Mem, after: Mem)
    requires Operands(w, fuel, cfg, sc, a, b, before, RT.Bool(p), RT.Bool(q), after) && w.lib.depth > 0
    ensures var r := EvalExpr(w, fuel, cfg, sc, Binary(op, a, b), before);
      match op
      case And => r == Truth(p && q, after)
      case Or => r == Truth(p || q, after)
      case Equal => r == Truth(p == q, after)
      case NotEqual => r == Truth(p != q, after)
      case _ => r.Err?
  {
    hide EvalExpr, RT.Binop;
    if op.Dot? {
      NoBooleanFields(w, fuel, cfg, sc, a, b, p, before);
    } else {
      BinaryIs(w, fuel, cfg, sc, op, a, b, before, RT.Bool(p), RT.Bool(q), after);
      OnBooleans(w.lib, after.heap, op, p, q);
    }
  }

  lemma OnBooleans(lib: RT.Library, h: Heap, op: BinaryOperator, p: bool, q: bool)
    requires Operator(op).Ok? && lib.depth > 0
    ensures var r := RT.Binop(lib, h, Operator(op).value, RT.Bool(p), RT.Bool(q));
      match op
      case And => r == Ok((RT.Bool(p && q), h))
      case Or => r == Ok((RT.Bool(p || q), h))
      case Equal => r == Ok((RT.Bool(p == q), h))
      case NotEqual => r == Ok((RT.Bool(p != q), h))
      case _ => r.Err?
  {
  }

  lemma NoBooleanFields(w: World, fuel: nat, cfg: Config, sc: Scope, a: Expr, b: Expr, p: bool, before: Mem)
    requires match EvalExpr(w, fuel, cfg, sc, a, before) case Ok((v, _)) => v == RT.Bool(p) case Err(_) => false
    ensures EvalExpr(w, fuel, cfg, sc, Binary(Dot, a, b), before).Err?
  {
  }

  /** A number as the double an operator takes it for. */
  function Double(lib: RT.Library, v: Value): F64
    requires v.Int? || v.Flt?
  {
    if v.Int? then lib.fpu.ofInt(v.n) else v.f
  }

  /** As soon as one operand is a double, doubles are computed with, left operand first; only
      an integer times a double is taken the other way round. */
  lemma DoubleLaw(w: World, fuel: nat, cfg: Config, sc: Scope, op: BinaryOperator, a: Expr, b: Expr, x: Value, y: Value, before: Mem, after: Mem)
    requires Operands(w, fuel, cfg, sc, a, b, before, x, y, after) && w.lib.depth > 0
    requires (x.Int? || x.Flt?) && (y.Int? || y.Flt?) && (x.Flt? || y.Flt?) && y != RT.Int(0)
    ensures var r, fpu, d, e := EvalExpr(w, fuel, cfg, sc, Binary(op, a, b), before), w.lib.fpu, Double(w.lib, x), Double(w.lib, y);
      match op
      case Add => r == Ok((RT.Flt(fpu.arith(ADD, d, e)), after))
      case Subtract => r == Ok((RT.Flt(fpu.arith(SUB, d, e)), after))
      case Multiply => r == Ok((RT.Flt(if x.Int? then fpu.arith(MUL, e, d) else fpu.arith(MUL, d, e)), after))
      case Divide => r == Ok((RT.Flt(fpu.arith(DIV, d, e)), after))
      case Power => r == Ok((RT.Flt(fpu.arith(POW, d, e)), after))
      case Less => r == Truth(fpu.compare(LT, d, e), after)
      case LessOrEqual => r == Truth(fpu.compare(LEQ, d, e), after)
      case Greater => r == Truth(fpu.compare(GT, d, e), after)
      case GreaterOrEqual => r == Truth(fpu.compare(GEQ, d, e), after)
      case Equal => r == Truth(fpu.compare(EQ, d, e), after)
      case NotEqual => r == Truth(!fpu.compare(EQ, d, e), after)
      case _ => true
  {
    hide EvalExpr, RT.Binop;
    if !op.Dot? {
      BinaryIs(w, fuel, cfg, sc, op, a, b, before, x, y, after);
      OnDoubles(w.lib, after.heap, op, x, y);
    }
  }

  lemma OnDoubles(lib: RT.Library, h: Heap, op: BinaryOperator, x: Value, y: Value)
    requires Operator(op).Ok? && lib.depth > 0
    requires (x.Int? || x.Flt?) && (y.Int? || y.Flt?) && (x.Flt? || y.Flt?) && y != RT.Int(0)
    ensures var r, d, e := RT.Binop(lib, h, Operator(op).value, x, y), Double(lib, x), Double(lib, y);
      match op
      case Add => r == Ok((RT.Flt(lib.fpu.arith(ADD, d, e)), h))
      case Subtract => r == Ok((RT.Flt(lib.fpu.arith(SUB, d, e)), h))
      case Multiply => r == Ok((RT.Flt(if x.Int? then lib.fpu.arith(MUL, e, d) else lib.fpu.arith(MUL, d, e)), h))
      case Divide => r == Ok((RT.Flt(lib.fpu.arith(DIV, d, e)), h))
      case Power => r == Ok((RT.Flt(lib.fpu.arith(POW, d, e)), h))
      case Less => r == Ok((RT.Bool(lib.fpu.compare(LT, d, e)), h))
      case LessOrEqual => r == Ok((RT.Bool(lib.fpu.compare(LEQ, d, e)), h))
      case Greater => r == Ok((RT.Bool(lib.fpu.compare(GT, d, e)), h))
      case GreaterOrEqual => r == Ok((RT.Bool(lib.fpu.compare(GEQ, d, e)), h))
      case Equal => r == Ok((RT.Bool(lib.fpu.compare(EQ, d, e)), h))
      case NotEqual => r == Ok((RT.Bool(!lib.fpu.compare(EQ, d, e)), h))
      case _ => true
  {
  }

  /** An integer to an integer power, where the power fits. */
  lemma PowerLaw(w: World, fuel: nat, cfg: Config, sc: Scope, a: Expr, b: Expr, m: int, n: int, before: Mem, after: Mem)
    requires Operands(w, fuel, cfg, sc, a, b, before, RT.Int(m), RT.Int(n), after)
    ensures EvalExpr(w, fuel, cfg, sc, Binary(Power, a, b), before)
      == if FitsI32(w.lib.fpu.powInt(m, n)) then Ok((RT.Int(w.lib.fpu.powInt(m, n)), after)) else Err(IntegerRange)
  {
    hide EvalExpr;
    BinaryIs(w, fuel, cfg, sc, Power, a, b, before, RT.Int(m), RT.Int(n), after);
  }

  // ---------------------------------------------------------------- signs and negation

  lemma UnaryLaw(w: World, fuel: nat, cfg: Config, sc: Scope, a: Expr, v: Value, before: Mem, after: Mem)
    requires EvalExpr(w, fuel, cfg, sc, a, before) == Ok((v, after))
    ensures EvalExpr(w, fuel, cfg, sc, Unary(Plus, a), before) == Ok((v, after))
    ensures var r := EvalExpr(w, fuel, cfg, sc, Unary(Minus, a), before);
      match v
      case Int(n) => r == Whole(0 - n, after)
      case Flt(f) => r == Ok((RT.Flt(w.lib.fpu.negate(f)), after))
      case _ => r == Err(TypeMismatch)
    ensures var r := EvalExpr(w, fuel, cfg, sc, Unary(Negation, a), before);
      r == match v case Bool(b) => Ok((RT.Bool(if b then false else true), after)) case _ => Err(TypeMismatch)
    ensures var r := EvalExpr(w, fuel, cfg, sc, Unary(Length, a), before);
      match RT.Deref(after.heap, v)
      case Some(Text(items)) => FitsI32(|items|) ==> r == Ok((RT.Int(|items|), after))
      case Some(Tuple(items)) => FitsI32(|items|) ==> r == Ok((RT.Int(|items|), after))
      case Some(Slice(_, from, to)) => FitsI32(to - from) ==> r == Ok((RT.Int(to - from), after))
      case _ => r == Err(TypeMismatch)
  {
    hide EvalExpr;
    UnaryIs(w, fuel, cfg, sc, a, v, before, after);
  }

  lemma UnaryIs(w: World, fuel: nat, cfg: Config, sc: Scope, a: Expr, v: Value, before: Mem, after: Mem)
    requires EvalExpr(w, fuel, cfg, sc, a, before) == Ok((v, after))
    ensures forall u :: EvalExpr(w, fuel, cfg, sc, Unary(u, a), before) == ApplyUnary(w, u, v, after)
  {
  }

  // ---------------------------------------------------------------- built-in functions

  /** A built-in function of one argument, by its name in the program; a function of the program
      with that name does not hide it. */
  lemma BuiltinLaw(w: World, fuel: nat, cfg: Config, sc: Scope, name: string, a: Expr, v: Value, before: Mem, after: Mem)
    requires EvalExpr(w, fuel, cfg, sc, a, before) == Ok((v, after)) && fuel > 0 && name !in cfg.variants
    ensures var r, o, fpu := EvalExpr(w, fuel, cfg, sc, FunctionCall(Name(name), [a]), before), RT.Deref(after.heap, v), w.lib.fpu;
      && (name in {"abs", "абс"} && v.Int? ==> r == Whole(if v.n < 0 then 0 - v.n else v.n, after))
      && (name in {"abs", "абс"} && v.Flt? ==> r == Ok((RT.Flt(fpu.math(Abs, v.f)), after)))
      && (name in {"sqrt", "корень"} && (v.Int? || v.Flt?) ==> r == Ok((RT.Flt(fpu.math(Sqrt, Double(w.lib, v))), after)))
      && (name == "целч" && v.Flt? && FitsI32(fpu.toInt(Floor, v.f)) ==> r == Ok((RT.Int(fpu.toInt(Floor, v.f)), after)))
      && (name == "окрч" && v.Flt? && FitsI32(fpu.toInt(Round, v.f)) ==> r == Ok((RT.Int(fpu.toInt(Round, v.f)), after)))
      && (name == "тип_цел" ==> r == Truth(v.Int?, after)) && (name == "тип_вещ" ==> r == Truth(v.Flt?, after))
      && (name == "тип_лог" ==> r == Truth(v.Bool?, after))
      && (name == "тип_текст" ==> r == Truth(o.Some? && o.value.Text?, after))
      && (name == "тип_корт" ==> r == Truth(o.Some? && o.value.Tuple?, after))
      && (name == "тип_срез" ==> r == Truth(o.Some? && o.value.Slice?, after))
      && (name == "тип_пуст" ==> r == Truth(o.Some? && o.value.Null?, after))
  {
    hide EvalExpr, RT.CallBuiltin;
    if BuiltinNamed(name).Some? {
      CallIs(w, fuel, cfg, sc, name, a, v, before, after);
      BuiltinIs(w.lib, after.heap, BuiltinNamed(name).value, v);
    }
  }

  lemma CallIs(w: World, fuel: nat, cfg: Config, sc: Scope, name: string, a: Expr, v: Value, before: Mem, after: Mem)
    requires EvalExpr(w, fuel, cfg, sc, a, before) == Ok((v, after)) && fuel > 0 && name !in cfg.variants && BuiltinNamed(name).Some?
    ensures EvalExpr(w, fuel, cfg, sc, FunctionCall(Name(name), [a]), before)
      == InHeap(after, RT.CallBuiltin(w.lib, after.heap, BuiltinNamed(name).value, v))
  {
    hide BuiltinNamed, RT.CallBuiltin;
    assert [a][1..] == [] && [v] + [] == [v];
    assert EvalExprs(w, fuel, cfg, sc, [a], before) == Ok(([v], after)) by {
      assert EvalExprs(w, fuel, cfg, sc, [a][1..], after) == Ok(([], after));
    }
  }

  lemma BuiltinIs(lib: RT.Library, h: Heap, name: Builtin, v: Value)
    ensures var r, o := RT.CallBuiltin(lib, h, name, v), RT.Deref(h, v);
      match name
      case Abs =>
        if v.Int? then r == (if FitsI32(if v.n < 0 then -v.n else v.n) then Ok((RT.Int(if v.n < 0 then -v.n else v.n), h)) else Err(Undefined))
        else v.Flt? ==> r == Ok((RT.Flt(lib.fpu.math(Abs, v.f)), h))
      case Sqrt => v.Int? || v.Flt? ==> r == Ok((RT.Flt(lib.fpu.math(Sqrt, Double(lib, v))), h))
      case Floor => v.Flt? && FitsI32(lib.fpu.toInt(Floor, v.f)) ==> r == Ok((RT.Int(lib.fpu.toInt(Floor, v.f)), h))
      case Round => v.Flt? && FitsI32(lib.fpu.toInt(Round, v.f)) ==> r == Ok((RT.Int(lib.fpu.toInt(Round, v.f)), h))
      case Tint => r == Ok((RT.Bool(v.Int?), h))
      case Tfloat => r == Ok((RT.Bool(v.Flt?), h))
      case Tbool => r == Ok((RT.Bool(v.Bool?), h))
      case Ttext => r == Ok((RT.Bool(o.Some? && o.value.Text?), h))
      case Ttuple => r == Ok((RT.Bool(o.Some? && o.value.Tuple?), h))
      case Tslice => r == Ok((RT.Bool(o.Some? && o.value.Slice?), h))
      case Tnull => r == Ok((RT.Bool(o.Some? && o.value.Null?), h))
      case _ => true
  {
  }
}
