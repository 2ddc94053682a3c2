/** Byte encodings of instructions: the decoder's `encode` and `decode`
    (crates/vm-core/src/decoder.rs) and the operand reads of the interpreter's own
    dispatch (crates/vm-interp/src/interpreter.rs). */
module Encoding {
  import opened Results
  import opened Bytecode
  import opened Numbers

  // Little-endian integers

  function Pow256(k: nat): (p: nat)
    ensures p > 0
  {
    if k == 0 then 1 else 256 * Pow256(k - 1)
  }

  function ToLe(n: int, k: nat): (bs: seq<Byte>)
    ensures |bs| == k
    decreases k
  {
    if k == 0 then [] else [n % 256] + ToLe(n / 256, k - 1)
  }

  function FromLe(bs: seq<Byte>): nat {
    if bs == [] then 0 else bs[0] + 256 * FromLe(bs[1..])
  }

  lemma {:induction false} FromToLe(n: nat, k: nat)
    requires n < Pow256(k)
    ensures FromLe(ToLe(n, k)) == n
  {
    if k > 0 {
      FromToLe(n / 256, k - 1);
      assert ToLe(n, k)[1..] == ToLe(n / 256, k - 1);
    }
  }

  function I32Bytes(n: int): (bs: seq<Byte>)
    ensures |bs| == 4
  {
    ToLe(n % TWO32, 4)
  }

  function F64Bytes(f: F64): (bs: seq<Byte>)
    ensures |bs| == 8
  {
    ToLe(f, 8)
  }

  lemma PowSizes()
    ensures Pow256(2) == 0x1_0000 && Pow256(4) == TWO32 && Pow256(8) == 0x1_0000_0000_0000_0000
  {
    assert Pow256(2) == 256 * Pow256(1) && Pow256(1) == 256;
    assert Pow256(4) == 256 * Pow256(3) && Pow256(3) == 256 * Pow256(2);
    assert Pow256(6) == 256 * Pow256(5) && Pow256(5) == 256 * Pow256(4);
    assert Pow256(8) == 256 * Pow256(7) && Pow256(7) == 256 * Pow256(6);
  }

  lemma I32RoundTrip(n: int)
    ensures AsI32(FromLe(I32Bytes(n))) == AsI32(n)
  {
    PowSizes();
    FromToLe(n % TWO32, 4);
  }

  lemma {:induction false} FromLeBound(bs: seq<Byte>)
    ensures FromLe(bs) < Pow256(|bs|)
  {
    if bs != [] { FromLeBound(bs[1..]); }
  }

  // Reads from a code section

  function ReadByte(code: seq<Byte>, ip: nat): Result<Byte> {
    if ip + 1 > |code| then Err(EndOfCode) else Ok(code[ip])
  }

  function ReadI32(code: seq<Byte>, ip: nat): Result<int> {
    if ip + 4 > |code| then Err(EndOfCode) else Ok(AsI32(FromLe(code[ip..ip + 4])))
  }

  function ReadF64(code: seq<Byte>, ip: nat): Result<F64> {
    if ip + 8 > |code| then Err(EndOfCode)
    else
      FromLeBound(code[ip..ip + 8]);
      PowSizes();
      Ok(FromLe(code[ip..ip + 8]))
  }

  // Encoding

  function WithOffset(opcode: Byte, dest: Label, rest: seq<Byte>): Result<seq<Byte>> {
    if dest.offset.None? then Err(UnknownLabel) else Ok([opcode] + I32Bytes(dest.offset.value) + rest)
  }

  function Encode(i: Instr): Result<seq<Byte>> {
    match i
    case NOP => Ok([0x00])
    case BINOP(op) => Ok([OpNumber(op) + 1])
    case CONST(value) => Ok([0x10] + I32Bytes(value))
    case STRING(offset) => Ok([0x11] + I32Bytes(offset))
    case TUPLE(n) => Ok([0x12] + I32Bytes(n))
    case STS => Ok([0x13])
    case STA => Ok([0x14])
    case JMP(dest) => WithOffset(0x15, dest, [])
    case END => Ok([0x16])
    case SLICE(bounds) => Ok([0x17, bounds % 256])
    case DROP => Ok([0x18])
    case DUP => Ok([0x19])
    case SWAP => Ok([0x1a])
    case ELEM => Ok([0x1b])
    case CONSTF(double) => Ok([0x1c] + F64Bytes(double))
    case LOAD(rel, index) => Ok([0x20 + RelNumber(rel)] + I32Bytes(index))
    case UNARY(uop) => Ok([0x30 + UnaryNumber(uop)])
    case STORE(rel, index) => Ok([0x40 + RelNumber(rel)] + I32Bytes(index))
    case CJMP(dest, kind) => WithOffset(if kind.ISZERO? then 0x50 else 0x51, dest, [])
    case BEGIN(args, locals) => Ok([0x52] + I32Bytes(args) + I32Bytes(locals))
    case CBEGIN(args, locals) => Ok([0x53] + I32Bytes(args) + I32Bytes(locals))
    case CLOSURE(dest, arity) => WithOffset(0x54, dest, I32Bytes(arity))
    case CALLC(arity) => Ok([0x55] + I32Bytes(arity))
    case CALL(dest, n) => WithOffset(0x56, dest, I32Bytes(n))
    case ARRAY(n) => Ok([0x58] + I32Bytes(n))
    case VARIANT(schema) => Ok([0x59] + I32Bytes(schema))
    case LINE(n) => Ok([0x5a] + I32Bytes(n))
    case VARIANTTAG => Ok([0x5b])
    case FIELD(index) => Ok([0x5c] + I32Bytes(index))
    case SETFIELD(index) => Ok([0x5d] + I32Bytes(index))
    case ISVARIANT(schema) => Ok([0x5e] + I32Bytes(schema))
    case CALLBUILTIN(name, n) => Ok([0x70 + BuiltinNumber(name)] + (if n != 0 then I32Bytes(n) else []))
    case BOOL(flag) => Ok([0x75, if flag then 1 else 0])
    case NULL => Ok([0x76])
    case LABEL(_) => Ok([])
  }

  /** An instruction as the byte code carries it: label names are gone. */
  function Erase(i: Instr): Instr {
    if i.JMP? then JMP(Label("", i.dest.offset))
    else if i.CJMP? then CJMP(Label("", i.dest.offset), i.kind)
    else if i.CLOSURE? then CLOSURE(Label("", i.dest.offset), i.arity)
    else if i.CALL? then CALL(Label("", i.dest.offset), i.n)
    else i
  }

  predicate DestFits(dest: Label) { dest.offset.Some? ==> FitsI32(dest.offset.value) }

  /** Every operand has the width the encoding gives it. */
  predicate OperandsFit(i: Instr) {
    match i
    case CONST(value) => FitsI32(value)
    case STRING(offset) => FitsI32(offset)
    case TUPLE(n) => FitsI32(n)
    case JMP(dest) => DestFits(dest)
    case SLICE(bounds) => 0 <= bounds < 256
    case LOAD(_, index) => FitsI32(index)
    case STORE(_, index) => FitsI32(index)
    case CJMP(dest, _) => DestFits(dest)
    case BEGIN(args, locals) => FitsI32(args) && FitsI32(locals)
    case CBEGIN(args, locals) => FitsI32(args) && FitsI32(locals)
    case CLOSURE(dest, arity) => DestFits(dest) && FitsI32(arity)
    case CALLC(arity) => FitsI32(arity)
    case CALL(dest, n) => DestFits(dest) && FitsI32(n)
    case ARRAY(n) => FitsI32(n)
    case VARIANT(schema) => FitsI32(schema)
    case LINE(n) => FitsI32(n)
    case FIELD(index) => FitsI32(index)
    case SETFIELD(index) => FitsI32(index)
    case ISVARIANT(schema) => FitsI32(schema)
    case CALLBUILTIN(name, n) => FitsI32(n)
    case _ => true
  }

  /** Input and output carry a non-zero operand, every other builtin none: `encode` drops
      a zero operand, the readers go by the builtin. */
  predicate BuiltinShape(i: Instr) {
    i.CALLBUILTIN? ==> (i.n != 0 <==> i.name in {Lread, Lwrite})
  }

  predicate Codable(i: Instr) { OperandsFit(i) && BuiltinShape(i) }

  // The interpreter's fetch

  datatype Decoded = Decoded(instr: Instr, next: nat)

  function Operand(code: seq<Byte>, ip: nat, make: int -> Instr): Result<Decoded> {
    var n :- ReadI32(code, ip + 1);
    Ok(Decoded(make(n), ip + 5))
  }

  function Operands(code: seq<Byte>, ip: nat, make: (int, int) -> Instr): Result<Decoded> {
    var m :- ReadI32(code, ip + 1);
    var n :- ReadI32(code, ip + 5);
    Ok(Decoded(make(m, n), ip + 9))
  }

  function To(offset: int): Label { Label("", Some(offset)) }

  /** The dispatch table of the interpreter with the operands each handler reads. */
  function Fetch(code: seq<Byte>, ip: nat): Result<Decoded> {
    var b :- ReadByte(code, ip);
    if b == 0x00 then Ok(Decoded(NOP, ip + 1))
    else if b < 0x10 then
      var op :- OpOfSubopcode(b);
      Ok(Decoded(BINOP(op), ip + 1))
    else if b < 0x20 then FetchBasic(code, ip, b)
    else if b < 0x50 then FetchVariable(code, ip, b)
    else if b < 0x60 then FetchControl(code, ip, b)
    else if 0x70 <= b < 0x80 then FetchBuiltin(code, ip, b)
    else Err(InvalidOpcode)
  }

  function FetchBasic(code: seq<Byte>, ip: nat, b: Byte): Result<Decoded> {
    if b == 0x10 then Operand(code, ip, n => CONST(n))
    else if b == 0x11 then Operand(code, ip, n => STRING(n))
    else if b == 0x12 then Operand(code, ip, n => TUPLE(n))
    else if b == 0x13 then Ok(Decoded(STS, ip + 1))
    else if b == 0x14 then Ok(Decoded(STA, ip + 1))
    else if b == 0x15 then Operand(code, ip, n => JMP(To(n)))
    else if b == 0x16 then Ok(Decoded(END, ip + 1))
    else if b == 0x17 then
      var bounds :- ReadByte(code, ip + 1);
      Ok(Decoded(SLICE(bounds), ip + 2))
    else if b == 0x18 then Ok(Decoded(DROP, ip + 1))
    else if b == 0x19 then Ok(Decoded(DUP, ip + 1))
    else if b == 0x1a then Ok(Decoded(SWAP, ip + 1))
    else if b == 0x1b then Ok(Decoded(ELEM, ip + 1))
    else if b == 0x1c then
      var f :- ReadF64(code, ip + 1);
      Ok(Decoded(CONSTF(f), ip + 9))
    else Err(InvalidOpcode)
  }

  function FetchVariable(code: seq<Byte>, ip: nat, b: Byte): Result<Decoded> {
    if 0x21 <= b <= 0x24 then
      var rel :- RelOfSubopcode(b - 0x20);
      Operand(code, ip, n => LOAD(rel, n))
    else if 0x30 <= b <= 0x31 then
      var op :- UnaryOfSubopcode(b - 0x30);
      Ok(Decoded(UNARY(op), ip + 1))
    else if 0x41 <= b <= 0x44 then
      var rel :- RelOfSubopcode(b - 0x40);
      Operand(code, ip, n => STORE(rel, n))
    else Err(InvalidOpcode)
  }

  function FetchControl(code: seq<Byte>, ip: nat, b: Byte): Result<Decoded> {
    if b == 0x50 then Operand(code, ip, n => CJMP(To(n), ISZERO))
    else if b == 0x51 then Operand(code, ip, n => CJMP(To(n), ISNONZERO))
    else if b == 0x52 then Operands(code, ip, (m, n) => BEGIN(m, n))
    else if b == 0x53 then Operands(code, ip, (m, n) => CBEGIN(m, n))
    else if b == 0x54 then Operands(code, ip, (m, n) => CLOSURE(To(m), n))
    else if b == 0x55 then Operand(code, ip, n => CALLC(n))
    else if b == 0x56 then Operands(code, ip, (m, n) => CALL(To(m), n))
    else if b == 0x58 then Operand(code, ip, n => ARRAY(n))
    else if b == 0x59 then Operand(code, ip, n => VARIANT(n))
    else if b == 0x5a then Operand(code, ip, n => LINE(n))
    else if b == 0x5b then Ok(Decoded(VARIANTTAG, ip + 1))
    else if b == 0x5c then Operand(code, ip, n => FIELD(n))
    else if b == 0x5d then Operand(code, ip, n => SETFIELD(n))
    else if b == 0x5e then Operand(code, ip, n => ISVARIANT(n))
    else Err(InvalidOpcode)
  }

  function FetchBuiltin(code: seq<Byte>, ip: nat, b: Byte): Result<Decoded> {
    if b == 0x75 then
      var flag :- ReadByte(code, ip + 1);
      Ok(Decoded(BOOL(flag != 0), ip + 2))
    else if b == 0x76 then Ok(Decoded(NULL, ip + 1))
    else
      var name :- BuiltinOfSubopcode(b - 0x70);
      if name in {Lread, Lwrite} then Operand(code, ip, n => CALLBUILTIN(name, n))
      else Ok(Decoded(CALLBUILTIN(name, 0), ip + 1))
  }

  // Fetching undoes encoding

  /** The bytes `bs` stand in the code at `ip`. */
  predicate Holds(code: seq<Byte>, ip: nat, bs: seq<Byte>) {
    ip + |bs| <= |code| && code[ip..ip + |bs|] == bs
  }

  lemma HoldsSplit(code: seq<Byte>, ip: nat, a: seq<Byte>, b: seq<Byte>)
    requires Holds(code, ip, a + b)
    ensures Holds(code, ip, a) && Holds(code, ip + |a|, b)
  {
    var all := code[ip..ip + |a + b|];
    assert all[..|a|] == a && all[|a|..] == b;
    assert code[ip..ip + |a|] == all[..|a|];
    assert code[ip + |a|..ip + |a| + |b|] == all[|a|..];
  }

  lemma HoldsI32(code: seq<Byte>, ip: nat, n: int)
    requires Holds(code, ip, I32Bytes(n)) && FitsI32(n)
    ensures ReadI32(code, ip) == Ok(n)
  {
    I32RoundTrip(n);
  }

  lemma HoldsOpcode(code: seq<Byte>, ip: nat, b: Byte, rest: seq<Byte>)
    requires Holds(code, ip, [b] + rest)
    ensures ReadByte(code, ip) == Ok(b) && code[ip] == b && Holds(code, ip + 1, rest)
  {
    HoldsSplit(code, ip, [b], rest);
    assert code[ip] == code[ip..ip + 1][0];
  }

  lemma HoldsOperand(code: seq<Byte>, ip: nat, b: Byte, n: int)
    requires Holds(code, ip, [b] + I32Bytes(n)) && FitsI32(n)
    ensures ReadByte(code, ip) == Ok(b) && ReadI32(code, ip + 1) == Ok(n)
  {
    HoldsOpcode(code, ip, b, I32Bytes(n));
    HoldsI32(code, ip + 1, n);
  }

  lemma HoldsOperands(code: seq<Byte>, ip: nat, b: Byte, m: int, n: int)
    requires Holds(code, ip, [b] + I32Bytes(m) + I32Bytes(n)) && FitsI32(m) && FitsI32(n)
    ensures ReadByte(code, ip) == Ok(b) && ReadI32(code, ip + 1) == Ok(m) && ReadI32(code, ip + 5) == Ok(n)
  {
    HoldsSplit(code, ip, [b] + I32Bytes(m), I32Bytes(n));
    HoldsOperand(code, ip, b, m);
    HoldsI32(code, ip + 5, n);
  }

  /** Where an encoded instruction stands, the interpreter reads that instruction with its
      label name erased and moves exactly past it. */
  lemma FetchUndoesEncode(code: seq<Byte>, ip: nat, i: Instr)
    requires Codable(i) && Encode(i).Ok? && !i.LABEL?
    requires Holds(code, ip, Encode(i).value)
    ensures Fetch(code, ip) == Ok(Decoded(Erase(i), ip + |Encode(i).value|))
  {
    hide Fetch, Holds, OperandsFit, I32Bytes, F64Bytes;
    if i.CALLBUILTIN? {
      FetchBuiltinUndoesEncode(code, ip, i.name, i.n);
    } else if i.CONSTF? {
      FetchFloat(code, ip, i.double);
    } else if i.BEGIN? || i.CBEGIN? || i.CLOSURE? || i.CALL? {
      FetchTwoOperands(code, ip, i);
    } else if i.SLICE? || i.BOOL? {
      FetchTwoBytes(code, ip, i);
    } else if |Encode(i).value| == 1 {
      FetchByte(code, ip, i);
    } else {
      FetchOneOperand(code, ip, i);
    }
  }

  lemma FetchTwoOperands(code: seq<Byte>, ip: nat, i: Instr)
    requires Codable(i) && Encode(i).Ok? && (i.BEGIN? || i.CBEGIN? || i.CLOSURE? || i.CALL?)
    requires Holds(code, ip, Encode(i).value)
    ensures |Encode(i).value| == 9 && Fetch(code, ip) == Ok(Decoded(Erase(i), ip + 9))
  {
    hide I32Bytes, F64Bytes, ReadI32, ReadF64, BuiltinShape, Holds;
    match i
    case BEGIN(m, n) => HoldsOperands(code, ip, 0x52, m, n);
    case CBEGIN(m, n) => HoldsOperands(code, ip, 0x53, m, n);
    case CLOSURE(dest, n) => HoldsOperands(code, ip, 0x54, dest.offset.value, n);
    case CALL(dest, n) => HoldsOperands(code, ip, 0x56, dest.offset.value, n);
  }

  lemma FetchFloat(code: seq<Byte>, ip: nat, double: F64)
    requires Holds(code, ip, [0x1c] + F64Bytes(double))
    ensures |F64Bytes(double)| == 8 && Fetch(code, ip) == Ok(Decoded(CONSTF(double), ip + 9))
  {
    HoldsOpcode(code, ip, 0x1c, F64Bytes(double));
    PowSizes();
    FromToLe(double, 8);
  }

  lemma FetchByte(code: seq<Byte>, ip: nat, i: Instr)
    requires Encode(i).Ok? && |Encode(i).value| == 1 && !i.CALLBUILTIN? && Holds(code, ip, Encode(i).value)
    ensures Fetch(code, ip) == Ok(Decoded(Erase(i), ip + 1))
  {
    hide I32Bytes, F64Bytes, ReadI32, ReadF64, Operand, Operands, Holds;
    var bs := Encode(i).value;
    assert bs == [bs[0]] + [];
    HoldsOpcode(code, ip, bs[0], []);
  }

  lemma FetchTwoBytes(code: seq<Byte>, ip: nat, i: Instr)
    requires (i.SLICE? || i.BOOL?) && Codable(i) && Holds(code, ip, Encode(i).value)
    ensures |Encode(i).value| == 2 && Fetch(code, ip) == Ok(Decoded(Erase(i), ip + 2))
  {
    hide Holds;
    var bs := Encode(i).value;
    assert bs == [bs[0]] + ([bs[1]] + []);
    HoldsOpcode(code, ip, bs[0], [bs[1]] + []);
    HoldsOpcode(code, ip + 1, bs[1], []);
  }

  lemma FetchOneOperand(code: seq<Byte>, ip: nat, i: Instr)
    requires Codable(i) && Encode(i).Ok? && |Encode(i).value| == 5 && !i.CALLBUILTIN?
    requires Holds(code, ip, Encode(i).value)
    ensures Fetch(code, ip) == Ok(Decoded(Erase(i), ip + 5))
  {
    hide I32Bytes, F64Bytes, ReadI32, ReadF64, Operands, BuiltinShape, Holds;
    var bs := Encode(i).value;
    var n := OnlyOperand(i);
    assert bs == [bs[0]] + I32Bytes(n);
    HoldsOperand(code, ip, bs[0], n);
  }

  function OnlyOperand(i: Instr): int
    requires Encode(i).Ok?
  {
    match i
    case CONST(value) => value
    case STRING(offset) => offset
    case TUPLE(n) => n
    case JMP(dest) => dest.offset.value
    case LOAD(_, index) => index
    case STORE(_, index) => index
    case CJMP(dest, _) => dest.offset.value
    case CALLC(arity) => arity
    case ARRAY(n) => n
    case VARIANT(schema) => schema
    case LINE(n) => n
    case FIELD(index) => index
    case SETFIELD(index) => index
    case ISVARIANT(schema) => schema
    case _ => 0
  }

  lemma FetchBuiltinUndoesEncode(code: seq<Byte>, ip: nat, name: Builtin, n: int)
    requires Codable(CALLBUILTIN(name, n)) && Holds(code, ip, Encode(CALLBUILTIN(name, n)).value)
    ensures Fetch(code, ip) == Ok(Decoded(CALLBUILTIN(name, n), ip + |Encode(CALLBUILTIN(name, n)).value|))
  {
    if n != 0 {
      HoldsOperand(code, ip, 0x70 + BuiltinNumber(name), n);
    } else {
      HoldsOpcode(code, ip, 0x70 + BuiltinNumber(name), []);
    }
  }
}
