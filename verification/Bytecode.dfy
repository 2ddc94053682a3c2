/** The instruction set and the opcode number tables, in both directions
    (crates/vm-core/src/bytecode.rs). */
module Bytecode {
  import opened Results

  type Byte = n: int | 0 <= n < 256
  /** An IEEE 754 double, kept as its 64-bit pattern. */
  type F64 = n: int | 0 <= n < 0x1_0000_0000_0000_0000

  const NEWLINE_FLAG := 0x4000_0000

  datatype Op = ADD | SUB | MUL | DIV | MOD | LT | LEQ | GT | GEQ | EQ | NEQ | AND | OR | IDIV | POW

  datatype UnaryOp = Negate | Not

  datatype ValueRel = Global | Local | Arg | Capture

  datatype JumpKind = ISZERO | ISNONZERO

  datatype Builtin =
    | Lread | Lwrite | Llength | Abs | Ttuple | Sqrt | Floor | Round
    | Tslice | Tint | Tfloat | Ttext | Tbool | Tnull

  /** A named point of the code; `offset` is filled in when the label is resolved. */
  datatype Label = Label(name: string, offset: Option<int>)

  /** Operands are integers here; encoding keeps their low 32 bits, as the `as i32`
      casts of the code generator do. */
  datatype Instr =
    | NOP
    | END
    | BINOP(op: Op)
    | CONST(value: int)
    | STRING(offset: int)
    | BEGIN(args: int, locals: int)
    | CBEGIN(args: int, locals: int)
    | CLOSURE(dest: Label, arity: int)
    | STORE(rel: ValueRel, index: int)
    | LOAD(rel: ValueRel, index: int)
    | CALL(dest: Label, n: int)
    | CALLBUILTIN(name: Builtin, n: int)
    | CALLC(arity: int)
    | LINE(n: int)
    | DROP
    | DUP
    | SWAP
    | JMP(dest: Label)
    | CJMP(dest: Label, kind: JumpKind)
    | ELEM
    | STS
    | STA
    | ARRAY(n: int)
    | BOOL(flag: bool)
    | UNARY(uop: UnaryOp)
    | CONSTF(double: F64)
    | TUPLE(n: int)
    | NULL
    | LABEL(mark: string)
    | SLICE(bounds: int)
    | VARIANT(schema: int)
    | VARIANTTAG
    | FIELD(index: int)
    | SETFIELD(index: int)
    | ISVARIANT(schema: int)

  /** A variant description as the bytefile holds it: offsets of strings. */
  datatype StoredSchema = StoredSchema(nameOffset: nat, tag: nat, fieldOffsets: seq<nat>)

  function OpNumber(op: Op): int {
    match op
    case ADD => 0 case SUB => 1 case MUL => 2 case DIV => 3 case MOD => 4
    case LT => 5 case LEQ => 6 case GT => 7 case GEQ => 8 case EQ => 9
    case NEQ => 10 case AND => 11 case OR => 12 case IDIV => 13 case POW => 14
  }

  function OpOfSubopcode(k: int): Result<Op> {
    if k == 0x1 then Ok(ADD) else if k == 0x2 then Ok(SUB) else if k == 0x3 then Ok(MUL)
    else if k == 0x4 then Ok(DIV) else if k == 0x5 then Ok(MOD) else if k == 0x6 then Ok(LT)
    else if k == 0x7 then Ok(LEQ) else if k == 0x8 then Ok(GT) else if k == 0x9 then Ok(GEQ)
    else if k == 0xa then Ok(EQ) else if k == 0xb then Ok(NEQ) else if k == 0xc then Ok(AND)
    else if k == 0xd then Ok(OR) else if k == 0xe then Ok(IDIV) else if k == 0xf then Ok(POW)
    else Err(InvalidOpcode)
  }

  function UnaryNumber(op: UnaryOp): int {
    match op case Negate => 0 case Not => 1
  }

  function UnaryOfSubopcode(k: int): Result<UnaryOp> {
    if k == 0 then Ok(Negate) else if k == 1 then Ok(Not) else Err(InvalidOpcode)
  }

  function RelNumber(rel: ValueRel): int {
    match rel case Global => 1 case Local => 2 case Arg => 3 case Capture => 4
  }

  function RelOfSubopcode(k: int): Result<ValueRel> {
    if k == 1 then Ok(Global) else if k == 2 then Ok(Local) else if k == 3 then Ok(Arg)
    else if k == 4 then Ok(Capture) else Err(InvalidOpcode)
  }

  function BuiltinNumber(b: Builtin): int {
    match b
    case Lread => 0 case Lwrite => 1 case Llength => 2 case Tbool => 3 case Ttext => 4
    case Abs => 7 case Ttuple => 8 case Sqrt => 9 case Floor => 10 case Round => 11
    case Tslice => 12 case Tint => 13 case Tfloat => 14 case Tnull => 15
  }

  function BuiltinOfSubopcode(k: int): Result<Builtin> {
    if k == 0x0 then Ok(Lread) else if k == 0x1 then Ok(Lwrite) else if k == 0x2 then Ok(Llength)
    else if k == 0x3 then Ok(Tbool) else if k == 0x4 then Ok(Ttext) else if k == 0x7 then Ok(Abs)
    else if k == 0x8 then Ok(Ttuple) else if k == 0x9 then Ok(Sqrt) else if k == 0xa then Ok(Floor)
    else if k == 0xb then Ok(Round) else if k == 0xc then Ok(Tslice) else if k == 0xd then Ok(Tint)
    else if k == 0xe then Ok(Tfloat) else if k == 0xf then Ok(Tnull) else Err(InvalidOpcode)
  }
}
