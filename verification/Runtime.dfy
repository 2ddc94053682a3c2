/** Values and the runtime library's operations on them (runtime/arithmetic.c, tuple.c,
    variant.c, builtins.c), on a heap that only grows. Floats are values here; the
    reference-counted heap, where they are objects too, is in RefCount. */
module Runtime {
  import opened Results
  import opened Bytecode
  import opened Numbers
  import Utf8
  import StringTable

  datatype Value = Int(n: int) | Bool(b: bool) | Flt(f: F64) | Ref(addr: nat)

  datatype Obj<+V> =
    | Null
    | Callable(entry: nat, arity: nat)
    | Text(items: seq<V>)
    | Tuple(items: seq<V>)
    | Slice(parent: nat, from: int, to: int)
    | Variant(schema: nat, fields: seq<V>)

  type Heap = seq<Obj<Value>>

  /** The double arithmetic of the C library, as a parameter. */
  datatype Fpu = Fpu(
    arith: (Op, F64, F64) -> F64,
    compare: (Op, F64, F64) -> bool,
    ofInt: int -> F64,
    negate: F64 -> F64,
    math: (Builtin, F64) -> F64,
    toInt: (Builtin, F64) -> int,
    powInt: (int, int) -> int)

  datatype Schema = Schema(name: seq<Byte>, tag: nat, fields: seq<seq<Byte>>)

  /** What the runtime library is linked with; `depth` bounds its recursion on the C stack. */
  datatype Library = Library(fpu: Fpu, schemas: seq<Schema>, depth: nat)

  // Access

  function Alloc(h: Heap, o: Obj<Value>): (Value, Heap) { (Ref(|h|), h + [o]) }

  function Deref(h: Heap, v: Value): Option<Obj<Value>> {
    if v.Ref? && v.addr < |h| then Some(h[v.addr]) else None
  }

  predicate IsObj(h: Heap, v: Value) { v.Ref? && v.addr < |h| }

  predicate IsTuple(h: Heap, v: Value) { IsObj(h, v) && h[v.addr].Tuple? }

  predicate IsText(h: Heap, v: Value) { IsObj(h, v) && h[v.addr].Text? }

  predicate IsSlice(h: Heap, v: Value) { IsObj(h, v) && h[v.addr].Slice? }

  predicate IsVariant(h: Heap, v: Value) { IsObj(h, v) && h[v.addr].Variant? }

  /** The integer in a word's upper half; a pointer's upper half is an address. */
  function Unbox(v: Value): Result<int> {
    match v
    case Int(n) => Ok(n)
    case Bool(_) => Ok(0)
    case Flt(_) => Err(Undefined)
    case Ref(_) => Err(Undefined)
  }

  /** The character code in an item of a text. */
  function CodeOf(v: Value): int { if v.Int? then v.n else 0 }

  function NewInt(n: int): Result<Value> {
    if FitsI32(n) then Ok(Int(n)) else Err(IntegerRange)
  }

  /** A result the C code computes in 32 bits: overflow there is undefined. */
  function Signed(n: int): Result<Value> {
    if FitsI32(n) then Ok(Int(n)) else Err(Undefined)
  }

  /** Variables that hold nothing yet hold integer 0. */
  function Zeros(n: nat): (z: seq<Value>)
    ensures |z| == n && forall i :: 0 <= i < n ==> z[i] == Int(0)
  {
    seq(n, _ => Int(0))
  }

  /** Items of a text or tuple. */
  function ItemsOf(h: Heap, a: nat): Result<seq<Value>> {
    if a < |h| && (h[a].Text? || h[a].Tuple?) then Ok(h[a].items) else Err(Undefined)
  }

  // Slices

  /** A slice turned into the text or tuple it shows; any other object is itself. */
  function Materialize(h: Heap, a: nat): Result<Obj<Value>> {
    if a >= |h| then Err(Undefined)
    else if !h[a].Slice? then Ok(h[a])
    else
      var s := h[a];
      var items :- ItemsOf(h, s.parent);
      if s.from >= s.to then
        Ok(if h[s.parent].Text? then Text([]) else Tuple([]))
      else if !(0 <= s.from <= s.to <= |items|) then Err(Undefined)
      else
        Ok(if h[s.parent].Text? then Text(items[s.from..s.to]) else Tuple(items[s.from..s.to]))
  }

  /** Clamped bounds of a new slice over `count` items; an empty range inside widens by one. */
  function ClampBounds(from: int, to: int, count: nat): (int, int) {
    var from1 := if from < 0 then 0 else from;
    var to1 := if to > count then count else to;
    var from2 := if from1 > to1 then to1 else from1;
    if from2 == to1 && to1 < count then (from2, to1 + 1) else (from2, to1)
  }

  function CreateSlice(h: Heap, c: Value, from: int, to: int): Result<Obj<Value>> {
    if !IsObj(h, c) then Err(TypeMismatch)
    else
      var o := h[c.addr];
      var (parent, from', to') :=
        if o.Slice? then (o.parent, from + o.from, to + o.from) else (c.addr, from, to);
      var items :- ItemsOf(h, parent);
      var (lo, hi) := ClampBounds(from', to', |items|);
      Ok(Slice(parent, lo, hi))
  }

  function Length(h: Heap, v: Value): Result<int> {
    match Deref(h, v)
    case None => Err(TypeMismatch)
    case Some(o) =>
      if o.Text? || o.Tuple? then Ok(|o.items|)
      else if o.Slice? then Ok(o.to - o.from)
      else Err(TypeMismatch)
  }

  /** `k[a:b]` as the VM performs it: a missing or negative end means the length. */
  function SliceOf(h: Heap, c: Value, from: Option<Value>, to: Option<Value>): Result<(Value, Heap)> {
    var hi :- (match to case None => Ok(-1) case Some(v) => Unbox(v));
    var lo :- (match from case None => Ok(0) case Some(v) => Unbox(v));
    var hi' :- (if hi < 0 then Length(h, c) else Ok(hi));
    var s :- CreateSlice(h, c, lo, hi');
    Ok(Alloc(h, s))
  }

  /** Item lookup behind a checked index: text yields a fresh one-character text. */
  function GetItem(h: Heap, c: Value, index: nat): Result<(Value, Heap)> {
    match Deref(h, c)
    case None => Err(TypeMismatch)
    case Some(o) =>
      if o.Text? then
        if index < |o.items| then Ok(Alloc(h, Text([o.items[index]]))) else Err(Undefined)
      else if o.Tuple? then
        if index < |o.items| then Ok((o.items[index], h)) else Err(OutOfBounds)
      else if o.Slice? then
        if o.from + index >= o.to + index then Err(OutOfBounds)
        else
          var items :- ItemsOf(h, o.parent);
          if !(0 <= o.from + index < |items|) then Err(Undefined)
          else if h[o.parent].Text? then Ok(Alloc(h, Text([items[o.from + index]])))
          else Ok((items[o.from + index], h))
      else Err(TypeMismatch)
  }

  /** `k[a]`. */
  function Elem(h: Heap, c: Value, i: Value): Result<(Value, Heap)> {
    var index :- Unbox(i);
    var length :- Length(h, c);
    if index < 0 || index >= length then Err(OutOfBounds)
    else GetItem(h, c, index)
  }

  /** `k[a] = x` on a tuple or text; the index is not checked by the runtime. */
  function SetItem(h: Heap, c: Value, i: Value, x: Value): Result<Heap> {
    var index :- Unbox(i);
    match Deref(h, c)
    case None => Err(TypeMismatch)
    case Some(o) =>
      if o.Slice? then Err(Undefined)
      else if !(o.Text? || o.Tuple?) then Err(TypeMismatch)
      else if !(0 <= index < |o.items|) then Err(Undefined)
      else if o.Tuple? then Ok(h[c.addr := Tuple(o.items[index := x])])
      else Ok(h[c.addr := Text(o.items[index := TextItem(h, x)])])
  }

  /** A one-character text stored into a text is stored as its character. */
  function TextItem(h: Heap, x: Value): Value {
    if IsText(h, x) && |h[x.addr].items| == 1 then h[x.addr].items[0] else x
  }

  /** Prefix, replacement and suffix. */
  function Spliced<V>(items: seq<V>, from: nat, to: nat, new_: seq<V>): seq<V>
    requires from <= to <= |items|
  {
    items[..from] + new_ + items[to..]
  }

  function WithItems<V>(o: Obj<V>, items: seq<V>): Obj<V>
    requires o.Text? || o.Tuple?
  {
    if o.Text? then Text(items) else Tuple(items)
  }

  /** `k[a:b] = x`: the parent's items are replaced by prefix, replacement and suffix. */
  function SliceAssign(h: Heap, slice: Value, x: Value): Result<Heap> {
    if !IsSlice(h, slice) || !IsObj(h, x) then Err(TypeMismatch)
    else
      var s := h[slice.addr];
      var replacement :- Materialize(h, x.addr);
      var items :- ItemsOf(h, s.parent);
      if !(replacement.Text? || replacement.Tuple?) then Err(Undefined)
      else if !(0 <= s.from <= s.to <= |items|) then Err(Undefined)
      else
        Ok(h[s.parent := WithItems(h[s.parent], Spliced(items, s.from, s.to, replacement.items))])
  }

  // Variants

  function NewVariant(lib: Library, h: Heap, schema: int, values: seq<Value>): Result<(Value, Heap)> {
    if !(0 <= schema < |lib.schemas|) then Err(InvalidSchema)
    else if |values| != |lib.schemas[schema].fields| then Err(ArityMismatch)
    else Ok(Alloc(h, Variant(schema, values)))
  }

  function Field(h: Heap, v: Value, index: int): Result<Value> {
    if index < 0 then Err(OutOfBounds)
    else if !IsVariant(h, v) then Err(TypeMismatch)
    else if index >= |h[v.addr].fields| then Err(OutOfBounds)
    else Ok(h[v.addr].fields[index])
  }

  function SetField(h: Heap, v: Value, index: int, x: Value): Result<Heap> {
    if index < 0 then Err(OutOfBounds)
    else if !IsVariant(h, v) then Err(TypeMismatch)
    else if index >= |h[v.addr].fields| then Err(OutOfBounds)
    else Ok(h[v.addr := h[v.addr].(fields := h[v.addr].fields[index := x])])
  }

  function TagOf(lib: Library, h: Heap, v: Value): Result<nat> {
    if !IsVariant(h, v) || h[v.addr].schema >= |lib.schemas| then Err(TypeMismatch)
    else Ok(lib.schemas[h[v.addr].schema].tag)
  }

  /** Tags are compared, not type names. */
  function MatchesVariant(lib: Library, h: Heap, v: Value, schema: int): Result<bool> {
    if !(0 <= schema < |lib.schemas|) then Err(InvalidSchema)
    else Ok(TagOf(lib, h, v) == Ok(lib.schemas[schema].tag))
  }

  // Arithmetic

  predicate IsNumeric(v: Value) { v.Int? || v.Flt? }

  function AsDouble(lib: Library, v: Value): F64 {
    if v.Int? then lib.fpu.ofInt(v.n) else if v.Flt? then v.f else 0
  }

  function Repeat<V>(items: seq<V>, n: int): (r: seq<V>)
    decreases n
  {
    if n <= 0 then [] else items + Repeat(items, n - 1)
  }

  function NewArith(lib: Library, h: Heap, op: Op, a: Value, b: Value): Result<(Value, Heap)> {
    Ok((Flt(lib.fpu.arith(op, AsDouble(lib, a), AsDouble(lib, b))), h))
  }

  function Add(lib: Library, h: Heap, a: Value, b: Value): Result<(Value, Heap)> {
    if a.Int? && b.Int? then
      var n :- Signed(a.n + b.n);
      Ok((n, h))
    else if IsNumeric(a) && IsNumeric(b) then NewArith(lib, h, ADD, a, b)
    else if IsTuple(h, a) && IsTuple(h, b) then
      Ok(Alloc(h, Tuple(h[a.addr].items + h[b.addr].items)))
    else if IsSlice(h, a) && IsSlice(h, b) then
      var x :- Materialize(h, a.addr);
      var y :- Materialize(h, b.addr);
      if x.Tuple? && y.Tuple? then Ok(Alloc(h, Tuple(x.items + y.items))) else Err(TypeMismatch)
    else if IsText(h, a) && IsText(h, b) then
      Ok(Alloc(h, Text(h[a.addr].items + h[b.addr].items)))
    else Err(TypeMismatch)
  }

  function Multiply(lib: Library, h: Heap, a: Value, b: Value): Result<(Value, Heap)> {
    if a.Int? && b.Int? then
      var n :- Signed(a.n * b.n);
      Ok((n, h))
    else if a.Int? && b.Flt? then
      Ok((Flt(lib.fpu.arith(MUL, b.f, lib.fpu.ofInt(a.n))), h))
    else if IsNumeric(a) && IsNumeric(b) then NewArith(lib, h, MUL, a, b)
    else if IsTuple(h, a) && b.Int? then Ok(Alloc(h, Tuple(Repeat(h[a.addr].items, b.n))))
    else if IsText(h, a) && b.Int? then Ok(Alloc(h, Text(Repeat(h[a.addr].items, b.n))))
    else if a.Int? && IsText(h, b) then Ok(Alloc(h, Text(Repeat(h[b.addr].items, a.n))))
    else Err(TypeMismatch)
  }

  function Divide(lib: Library, h: Heap, a: Value, b: Value): Result<(Value, Heap)> {
    if a.Int? && b.Int? && b.n != 0 && TruncRem(a.n, b.n) == 0 then
      var n :- NewInt(TruncDiv(a.n, b.n));
      Ok((n, h))
    else if IsNumeric(a) && IsNumeric(b) then NewArith(lib, h, DIV, a, b)
    else Err(TypeMismatch)
  }

  function Power(lib: Library, h: Heap, a: Value, b: Value): Result<(Value, Heap)> {
    if a.Int? && b.Int? then
      var n :- NewInt(lib.fpu.powInt(a.n, b.n));
      Ok((n, h))
    else if IsNumeric(a) && IsNumeric(b) then NewArith(lib, h, POW, a, b)
    else Err(TypeMismatch)
  }

  function CompareInts(op: Op, m: int, n: int): bool {
    match op
    case LT => m < n
    case LEQ => m <= n
    case GT => m > n
    case GEQ => m >= n
    case _ => m == n
  }

  function Compare(lib: Library, op: Op, a: Value, b: Value): Result<bool> {
    if a.Int? && b.Int? then Ok(CompareInts(op, a.n, b.n))
    else if IsNumeric(a) && IsNumeric(b) then Ok(lib.fpu.compare(op, AsDouble(lib, a), AsDouble(lib, b)))
    else Err(TypeMismatch)
  }

  // Equality

  /** Position of the first field of that name. */
  function FieldNamed(names: seq<seq<Byte>>, name: seq<Byte>): (i: nat)
    requires name in names
    ensures i < |names| && names[i] == name
  {
    if names[0] == name then 0 else 1 + FieldNamed(names[1..], name)
  }

  /** Each field's content, looked up by the field's name. */
  function ByName<V>(names: seq<seq<Byte>>, fields: seq<V>): (r: seq<V>)
    requires |names| == |fields|
    ensures |r| == |fields| && forall x :: x in r ==> x in fields
  {
    seq(|names|, i requires 0 <= i < |names| => fields[FieldNamed(names, names[i])])
  }

  /** Structural equality, deep to the given recursion depth. */
  function Equal(lib: Library, h: Heap, depth: nat, a: Value, b: Value): Result<bool>
    decreases depth, 0, 0
  {
    if depth == 0 then Err(StackOverflow)
    else if a.Ref? != b.Ref? then Err(TypeMismatch)
    else if a.Ref? then
      var x :- Materialize(h, a.addr);
      var y :- Materialize(h, b.addr);
      if x.Text? && y.Text? then SameCharacters(x.items, y.items)
      else if x.Null? && y.Null? then Ok(true)
      else if x.Tuple? && y.Tuple? then
        if |x.items| != |y.items| then Ok(false) else EqualItems(lib, h, depth - 1, x.items, y.items)
      else if x.Variant? && y.Variant? then EqualVariants(lib, h, depth, x, y)
      else Err(TypeMismatch)
    else if a.Bool? && b.Bool? then Ok(a.b == b.b)
    else Compare(lib, EQ, a, b)
  }

  /** Characters are compared as integers, up to the first difference. */
  function SameCharacters(xs: seq<Value>, ys: seq<Value>): Result<bool> {
    if |xs| != |ys| then Ok(false)
    else if xs == [] then Ok(true)
    else
      var a :- Unbox(xs[0]);
      var b :- Unbox(ys[0]);
      if a == b then SameCharacters(xs[1..], ys[1..]) else Ok(false)
  }

  /** Item by item, stopping at the first difference. */
  function EqualItems(lib: Library, h: Heap, depth: nat, xs: seq<Value>, ys: seq<Value>): Result<bool>
    requires |xs| == |ys|
    decreases depth, 1, |xs|
  {
    if xs == [] then Ok(true)
    else
      var same :- Equal(lib, h, depth, xs[0], ys[0]);
      if same then EqualItems(lib, h, depth, xs[1..], ys[1..]) else Ok(false)
  }

  /** What two variants are compared by: nothing when type name, tag or field count differ, else
      each field looked up by its name. */
  function FieldPairs<V>(lib: Library, x: Obj<V>, y: Obj<V>): (r: Result<Option<(seq<V>, seq<V>)>>)
    requires x.Variant? && y.Variant?
    ensures r.Ok? && r.value.Some? ==> |r.value.value.0| == |r.value.value.1|
    ensures r.Ok? && r.value.Some? ==> (forall v :: v in r.value.value.0 ==> v in x.fields) && (forall v :: v in r.value.value.1 ==> v in y.fields)
  {
    if x.schema >= |lib.schemas| || y.schema >= |lib.schemas| then Err(InvalidSchema)
    else
      var s, t := lib.schemas[x.schema], lib.schemas[y.schema];
      if |x.fields| != |s.fields| || |y.fields| != |t.fields| then Err(InvalidSchema)
      else if s.name != t.name || s.tag != t.tag || |s.fields| != |t.fields| then Ok(None)
      else Ok(Some((ByName(s.fields, x.fields), ByName(t.fields, y.fields))))
  }

  function EqualVariants(lib: Library, h: Heap, depth: nat, x: Obj<Value>, y: Obj<Value>): Result<bool>
    requires depth > 0 && x.Variant? && y.Variant?
    decreases depth - 1, 2, 0
  {
    var pairs :- FieldPairs(lib, x, y);
    match pairs
    case None => Ok(false)
    case Some((xs, ys)) => EqualItems(lib, h, depth - 1, xs, ys)
  }

  /** The comparison comes to a slice: it is an operand, or an item the comparison reaches
      because everything before it is equal. */
  predicate Meets(lib: Library, h: Heap, depth: nat, a: Value, b: Value)
    decreases depth, 0, 0
  {
    depth > 0 && IsObj(h, a) && IsObj(h, b) &&
    var x, y := h[a.addr], h[b.addr];
    if x.Slice? || y.Slice? then true
    else if x.Tuple? && y.Tuple? then |x.items| == |y.items| && MeetsItems(lib, h, depth - 1, x.items, y.items)
    else if x.Variant? && y.Variant? then
      match FieldPairs(lib, x, y)
      case Ok(Some((xs, ys))) => MeetsItems(lib, h, depth - 1, xs, ys)
      case _ => false
    else false
  }

  predicate MeetsItems(lib: Library, h: Heap, depth: nat, xs: seq<Value>, ys: seq<Value>)
    requires |xs| == |ys|
    decreases depth, 1, |xs|
  {
    xs != [] &&
    (Meets(lib, h, depth, xs[0], ys[0])
     || (Equal(lib, h, depth, xs[0], ys[0]) == Ok(true) && MeetsItems(lib, h, depth, xs[1..], ys[1..])))
  }

  // Operators

  function ToBool(b: bool, h: Heap): Result<(Value, Heap)> { Ok((Bool(b), h)) }

  /** The runtime library's own operator, on any operands. */
  function RuntimeBinop(lib: Library, h: Heap, op: Op, a: Value, b: Value): Result<(Value, Heap)> {
    match op
    case ADD => Add(lib, h, a, b)
    case SUB =>
      if a.Int? && b.Int? then var n :- Signed(a.n - b.n); Ok((n, h))
      else if IsNumeric(a) && IsNumeric(b) then NewArith(lib, h, SUB, a, b)
      else Err(TypeMismatch)
    case MUL => Multiply(lib, h, a, b)
    case DIV => Divide(lib, h, a, b)
    case MOD =>
      if a.Int? && b.Int? && b.n != 0 then var n :- NewInt(FloorRemainder(a.n, b.n)); Ok((n, h))
      else Err(TypeMismatch)
    case IDIV =>
      if a.Int? && b.Int? && b.n != 0 then var n :- NewInt(FloorQuotient(a.n, b.n)); Ok((n, h))
      else Err(TypeMismatch)
    case POW => Power(lib, h, a, b)
    case EQ => var same :- Equal(lib, h, lib.depth, a, b); ToBool(same, h)
    case NEQ => var same :- Equal(lib, h, lib.depth, a, b); ToBool(!same, h)
    case AND => if a.Bool? && b.Bool? then ToBool(a.b && b.b, h) else Err(TypeMismatch)
    case OR => if a.Bool? && b.Bool? then ToBool(a.b || b.b, h) else Err(TypeMismatch)
    case _ => var holds :- Compare(lib, op, a, b); ToBool(holds, h)
  }

  predicate DividesByZero(op: Op, b: Value) { op in {DIV, MOD, IDIV} && b == Int(0) }

  /** What an operator of the language means: the runtime's, with division by integer zero
      always an error. */
  function Binop(lib: Library, h: Heap, op: Op, a: Value, b: Value): Result<(Value, Heap)> {
    if DividesByZero(op, b) then Err(DivisionByZero) else RuntimeBinop(lib, h, op, a, b)
  }

  /** The VM's operator: unchecked integer, float and logical fast paths before the runtime. */
  function VmBinop(lib: Library, h: Heap, op: Op, a: Value, b: Value): Result<(Value, Heap)> {
    if DividesByZero(op, b) then Err(DivisionByZero)
    else if a.Int? && b.Int? && FastOnInts(op, a.n, b.n) then Ok((FastInts(op, a.n, b.n), h))
    else if a.Flt? && b.Flt? && op in {ADD, SUB, MUL} then Ok((Flt(lib.fpu.arith(op, a.f, b.f)), h))
    else if a.Bool? && b.Bool? && op in {EQ, NEQ, AND, OR} then
      ToBool(match op case EQ => a.b == b.b case NEQ => a.b != b.b case AND => a.b && b.b case _ => a.b || b.b, h)
    else RuntimeBinop(lib, h, op, a, b)
  }

  predicate FastOnInts(op: Op, m: int, n: int) {
    match op
    case AND => false
    case OR => false
    case POW => false
    case DIV => n != 0 && TruncRem(m, n) == 0
    case MOD => n != 0
    case IDIV => n != 0
    case _ => true
  }

  /** Boxing keeps the low 32 bits only. */
  function FastInts(op: Op, m: int, n: int): Value
    requires FastOnInts(op, m, n)
  {
    match op
    case ADD => Int(AsI32(m + n))
    case SUB => Int(AsI32(m - n))
    case MUL => Int(AsI32(m * n))
    case DIV => Int(AsI32(TruncDiv(m, n)))
    case MOD => Int(AsI32(FloorRemainder(m, n)))
    case IDIV => Int(AsI32(FloorQuotient(m, n)))
    case NEQ => Bool(m != n)
    case _ => Bool(CompareInts(op, m, n))
  }

  /** The fast paths are a refinement: whenever the operator has a meaning, in particular
      whenever an integer result fits an SMI, the VM computes exactly that meaning. */
  lemma FastPathsAgree(lib: Library, h: Heap, op: Op, a: Value, b: Value)
    requires Binop(lib, h, op, a, b).Ok? && lib.depth > 0
    ensures VmBinop(lib, h, op, a, b) == Binop(lib, h, op, a, b)
  {
  }

  /** Overflow: the VM keeps the low 32 bits of the true sum, difference or product; the C
      operator, which calculates in 32 bits, has a meaning just when that is the true result. */
  lemma OverflowWraps(lib: Library, h: Heap, op: Op, m: int, n: int)
    requires op in {ADD, SUB, MUL} && FitsI32(m) && FitsI32(n)
    ensures VmBinop(lib, h, op, Int(m), Int(n)) == Ok((Int(AsI32(Exact(op, m, n))), h))
    ensures VmBinop(lib, h, op, Int(m), Int(n)) == RuntimeBinop(lib, h, op, Int(m), Int(n)) <==> FitsI32(Exact(op, m, n))
    ensures !FitsI32(Exact(op, m, n)) ==> RuntimeBinop(lib, h, op, Int(m), Int(n)) == Err(Undefined)
  {
    assert FitsI32(Exact(op, m, n)) ==> AsI32(Exact(op, m, n)) == Exact(op, m, n);
  }

  function Exact(op: Op, m: int, n: int): int {
    match op
    case ADD => m + n
    case SUB => m - n
    case MUL => m * n
    case _ => 0
  }

  /** Both divisions are calculated in 64 bits and their result checked: on 32-bit integers VM
      and runtime differ at one pair of operands only, where the VM wraps and the runtime
      refuses. */
  lemma FastPathsDiffer(lib: Library, h: Heap, op: Op, m: int, n: int)
    requires op in {DIV, IDIV} && FitsI32(m) && FitsI32(n) && n != 0
    ensures VmBinop(lib, h, op, Int(m), Int(n)) == RuntimeBinop(lib, h, op, Int(m), Int(n))
      <==> !(m == -0x8000_0000 && n == -1)
    ensures VmBinop(lib, h, op, Int(-0x8000_0000), Int(-1)) == Ok((Int(-0x8000_0000), h))
    ensures RuntimeBinop(lib, h, op, Int(-0x8000_0000), Int(-1)) == Err(IntegerRange)
  {
    QuotientFits(m, n);
    if TruncRem(m, n) == 0 {
      FloorDivision(m, n);
      assert TruncDiv(m, n) == FloorQuotient(m, n);
    }
    assert FloorQuotient(-0x8000_0000, -1) == 0x8000_0000;
    assert TruncDiv(-0x8000_0000, -1) == 0x8000_0000 && TruncRem(-0x8000_0000, -1) == 0;
  }

  /** On 32-bit integers, zero divisors aside, no other operator distinguishes VM and runtime. */
  lemma IntegersAgreeIff(lib: Library, h: Heap, op: Op, m: int, n: int)
    requires FitsI32(m) && FitsI32(n) && (op in {DIV, MOD, IDIV} ==> n != 0) && lib.depth > 0
    ensures VmBinop(lib, h, op, Int(m), Int(n)) == RuntimeBinop(lib, h, op, Int(m), Int(n)) <==>
      if op in {ADD, SUB, MUL} then FitsI32(Exact(op, m, n))
      else op in {DIV, IDIV} ==> !(m == -0x8000_0000 && n == -1)
  {
    if op in {ADD, SUB, MUL} {
      OverflowWraps(lib, h, op, m, n);
    } else if op in {DIV, IDIV} {
      FastPathsDiffer(lib, h, op, m, n);
    } else if op == MOD {
      FloorDivision(m, n);
    }
  }

  /** A quotient leaves the range of its operands in one case. */
  lemma QuotientFits(m: int, n: int)
    requires FitsI32(m) && FitsI32(n) && n != 0
    ensures FitsI32(FloorQuotient(m, n)) <==> !(m == -0x8000_0000 && n == -1)
  {
  }

  function Unop(lib: Library, h: Heap, op: UnaryOp, a: Value): Result<(Value, Heap)> {
    match op
    case Negate =>
      if a.Int? then var n :- Signed(-a.n); Ok((n, h))
      else if a.Flt? then Ok((Flt(lib.fpu.negate(a.f)), h))
      else Err(TypeMismatch)
    case Not => if a.Bool? then ToBool(!a.b, h) else Err(TypeMismatch)
  }

  /** Builtins of one argument. */
  function CallBuiltin(lib: Library, h: Heap, name: Builtin, a: Value): Result<(Value, Heap)> {
    match name
    case Llength => var n :- Length(h, a); var v :- NewInt(n); Ok((v, h))
    case Abs =>
      if a.Int? then var n :- Signed(Magnitude(a.n)); Ok((n, h))
      else if a.Flt? then Ok((Flt(lib.fpu.math(Abs, a.f)), h))
      else Err(TypeMismatch)
    case Sqrt => if IsNumeric(a) then Ok((Flt(lib.fpu.math(Sqrt, AsDouble(lib, a))), h)) else Err(TypeMismatch)
    case Floor => if a.Flt? then var n :- NewInt(lib.fpu.toInt(Floor, a.f)); Ok((n, h)) else Err(TypeMismatch)
    case Round => if a.Flt? then var n :- NewInt(lib.fpu.toInt(Round, a.f)); Ok((n, h)) else Err(TypeMismatch)
    case Tint => ToBool(a.Int?, h)
    case Tbool => ToBool(a.Bool?, h)
    case Tfloat => ToBool(a.Flt?, h)
    case Ttext => ToBool(IsText(h, a), h)
    case Ttuple => ToBool(IsTuple(h, a), h)
    case Tslice => ToBool(IsSlice(h, a), h)
    case Tnull => ToBool(IsObj(h, a) && h[a.addr].Null?, h)
    case Lread => Err(NotImplemented)
    case Lwrite => Err(NotImplemented)
  }

  function NewText(h: Heap, bytes: seq<Byte>): Result<(Value, Heap)> {
    var cps :- Utf8.DecodeAll(bytes);
    Ok(Alloc(h, Text(seq(|cps|, i requires 0 <= i < |cps| => Int(cps[i])))))
  }

  // Output

  /** The printed form of a value, up to the formatting of numbers. */
  datatype Shown =
    | ShownInt(n: int) | ShownBool(b: bool) | ShownFloat(f: F64) | ShownNull | ShownFunction
    | ShownText(codes: seq<int>) | ShownTuple(parts: seq<Shown>) | ShownUnknown

  function Stringify(h: Heap, depth: nat, v: Value): Result<Shown>
    decreases depth, 0
  {
    if depth == 0 then Err(StackOverflow)
    else match v
      case Int(n) => Ok(ShownInt(n))
      case Bool(b) => Ok(ShownBool(b))
      case Flt(f) => Ok(ShownFloat(f))
      case Ref(a) =>
        var o :- Materialize(h, a);
        if o.Null? then Ok(ShownNull)
        else if o.Callable? then Ok(ShownFunction)
        else if o.Text? then
          if exists i :: 0 <= i < |o.items| && Unbox(o.items[i]).Err? then Err(Undefined)
          else Ok(ShownText(seq(|o.items|, i requires 0 <= i < |o.items| => CodeOf(o.items[i]))))
        else if o.Tuple? then
          var parts :- StringifyAll(h, depth - 1, o.items);
          Ok(ShownTuple(parts))
        else Ok(ShownUnknown)
  }

  function StringifyAll(h: Heap, depth: nat, vs: seq<Value>): Result<seq<Shown>>
    decreases depth, 1 + |vs|
  {
    if vs == [] then Ok([])
    else
      var first :- Stringify(h, depth, vs[0]);
      var rest :- StringifyAll(h, depth, vs[1..]);
      Ok([first] + rest)
  }

  datatype Event = Event(shown: seq<Shown>, newline: bool)

  /** `вывод`: with no values nothing is printed, not even the newline. */
  function Write(lib: Library, h: Heap, values: seq<Value>, newline: bool): Result<seq<Event>> {
    if values == [] then Ok([])
    else
      var shown :- StringifyAll(h, lib.depth, values);
      Ok([Event(shown, newline)])
  }
}
