/** The byte formats as they are documented (doc/opcodes.typ; section 3 of RFC 3629): opcode
    numbers, operand order, byte order and the layout of a file, written out here a second time
    and compared with what the encoders produce. */
module FormatLaws {
  import opened Results
  import opened Bytecode
  import opened Numbers
  import opened Ast
  import opened Codegen
  import opened Encoding
  import opened Container
  import opened GeneratedFile
  import opened Linking
  import Scoping
  import Utf8

  // ---------------------------------------------------------------- byte order

  /** Byte i of the little-endian form counts 256^i. */
  lemma {:induction false} ToLeAt(n: nat, k: nat, i: nat)
    requires i < k
    ensures ToLe(n, k)[i] == n / Pow256(i) % 256
    decreases k
  {
    if i > 0 {
      ToLeAt(n / 256, k - 1, i - 1);
      DivideTwice(n, Pow256(i - 1));
    } else {
      assert Pow256(0) == 1;
    }
  }

  lemma DivideTwice(n: nat, p: nat)
    requires p > 0
    ensures n / 256 / p == n / (256 * p)
  {
    var q, r := n / 256, n % 256;
    var s, t := q / p, q % p;
    assert n == s * (256 * p) + (256 * t + r) by {
      assert q == s * p + t && n == 256 * q + r;
      assert 256 * (s * p) == s * (256 * p);
    }
    assert 0 <= 256 * t + r < 256 * p;
    FloorDivisionUnique(n, 256 * p, s, 256 * t + r);
  }

  function Quad(n: nat): seq<Byte> { [n % 256, n / 0x100 % 256, n / 0x1_0000 % 256, n / 0x100_0000 % 256] }

  lemma QuadIs(n: nat)
    ensures ToLe(n, 4) == Quad(n)
  {
    hide ToLe;
    ToLeAt(n, 4, 0);
    ToLeAt(n, 4, 1);
    ToLeAt(n, 4, 2);
    ToLeAt(n, 4, 3);
    Powers();
  }

  lemma Powers()
    ensures Pow256(0) == 1 && Pow256(1) == 0x100 && Pow256(2) == 0x1_0000 && Pow256(3) == 0x100_0000
    ensures Pow256(4) == 0x1_0000_0000 && Pow256(5) == 0x100_0000_0000 && Pow256(6) == 0x1_0000_0000_0000
    ensures Pow256(7) == 0x100_0000_0000_0000
  {
    assert Pow256(1) == 256 * Pow256(0) && Pow256(2) == 256 * Pow256(1) && Pow256(3) == 256 * Pow256(2);
    assert Pow256(4) == 256 * Pow256(3) && Pow256(5) == 256 * Pow256(4) && Pow256(6) == 256 * Pow256(5) && Pow256(7) == 256 * Pow256(6);
  }

  function Octet(n: nat): seq<Byte> {
    [n % 256, n / 0x100 % 256, n / 0x1_0000 % 256, n / 0x100_0000 % 256,
     n / 0x1_0000_0000 % 256, n / 0x100_0000_0000 % 256, n / 0x1_0000_0000_0000 % 256, n / 0x100_0000_0000_0000 % 256]
  }

  lemma OctetIs(n: nat)
    ensures ToLe(n, 8) == Octet(n)
  {
    hide ToLe;
    ToLeAt(n, 8, 0);
    ToLeAt(n, 8, 1);
    ToLeAt(n, 8, 2);
    ToLeAt(n, 8, 3);
    ToLeAt(n, 8, 4);
    ToLeAt(n, 8, 5);
    ToLeAt(n, 8, 6);
    ToLeAt(n, 8, 7);
    Powers();
  }

  // ---------------------------------------------------------------- opcodes

  /** An operand as the reference describes it: a 32-bit integer, a byte, or a double. */
  datatype Operand = I32(n: int) | U8(b: Byte) | F64Le(f: F64)

  /** An instruction's row in the reference: its opcode byte and its operands in order. */
  datatype Row = Row(opcode: Byte, operands: seq<Operand>)

  function Just(opcode: Byte): Option<Row> { Some(Row(opcode, [])) }

  function One(opcode: Byte, n: int): Option<Row> { Some(Row(opcode, [I32(n)])) }

  function Two(opcode: Byte, m: int, n: int): Option<Row> { Some(Row(opcode, [I32(m), I32(n)])) }

  function TargetOf(dest: Label): int { if dest.offset.Some? then dest.offset.value else 0 }

  /** The reference's table. It has no row for the length builtin; labels are no instructions. */
  function Reference(i: Instr): Option<Row> {
    match i
    case NOP => Just(0x00)
    case BINOP(op) => Just(match op
        case ADD => 0x01 case SUB => 0x02 case MUL => 0x03 case DIV => 0x04 case MOD => 0x05
        case LT => 0x06 case LEQ => 0x07 case GT => 0x08 case GEQ => 0x09 case EQ => 0x0a
        case NEQ => 0x0b case AND => 0x0c case OR => 0x0d case IDIV => 0x0e case POW => 0x0f)
    case CONST(value) => One(0x10, value)
    case STRING(index) => One(0x11, index)
    case TUPLE(n) => One(0x12, n)
    case STS => Just(0x13)
    case STA => Just(0x14)
    case JMP(dest) => One(0x15, TargetOf(dest))
    case END => Just(0x16)
    case SLICE(bounds) => Some(Row(0x17, [U8(bounds % 256)]))
    case DROP => Just(0x18)
    case DUP => Just(0x19)
    case SWAP => Just(0x1a)
    case ELEM => Just(0x1b)
    case CONSTF(value) => Some(Row(0x1c, [F64Le(value)]))
    case LOAD(rel, index) => One(match rel case Global => 0x21 case Local => 0x22 case Arg => 0x23 case Capture => 0x24, index)
    case UNARY(op) => Just(match op case Negate => 0x30 case Not => 0x31)
    case STORE(rel, index) => One(match rel case Global => 0x41 case Local => 0x42 case Arg => 0x43 case Capture => 0x44, index)
    case CJMP(dest, kind) => One(match kind case ISZERO => 0x50 case ISNONZERO => 0x51, TargetOf(dest))
    case BEGIN(args, locals) => Two(0x52, args, locals)
    case CBEGIN(args, locals) => Two(0x53, args, locals)
    case CLOSURE(dest, arity) => Two(0x54, TargetOf(dest), arity)
    case CALLC(arity) => One(0x55, arity)
    case CALL(dest, n) => Two(0x56, TargetOf(dest), n)
    case ARRAY(n) => One(0x58, n)
    case VARIANT(schema) => One(0x59, schema)
    case LINE(n) => One(0x5a, n)
    case VARIANTTAG => Just(0x5b)
    case FIELD(index) => One(0x5c, index)
    case SETFIELD(index) => One(0x5d, index)
    case ISVARIANT(schema) => One(0x5e, schema)
    case CALLBUILTIN(name, n) => ReferenceBuiltin(name, n)
    case BOOL(flag) => Some(Row(0x75, [U8(if flag then 1 else 0)]))
    case NULL => Just(0x76)
    case LABEL(_) => None
  }

  function ReferenceBuiltin(name: Builtin, n: int): Option<Row> {
    match name
    case Lread => One(0x70, n) case Lwrite => One(0x71, n) case Llength => None
    case Tbool => Just(0x73) case Ttext => Just(0x74) case Abs => Just(0x77) case Ttuple => Just(0x78)
    case Sqrt => Just(0x79) case Floor => Just(0x7a) case Round => Just(0x7b) case Tslice => Just(0x7c)
    case Tint => Just(0x7d) case Tfloat => Just(0x7e) case Tnull => Just(0x7f)
  }

  function OperandBytes(o: Operand): seq<Byte> {
    match o
    case I32(n) => Quad(n % 0x1_0000_0000)
    case U8(b) => [b]
    case F64Le(f) => Octet(f)
  }

  function RowBytes(r: Row): seq<Byte> { [r.opcode] + AllBytes(r.operands) }

  function AllBytes(os: seq<Operand>): seq<Byte> { if os == [] then [] else OperandBytes(os[0]) + AllBytes(os[1..]) }

  predicate Resolved(i: Instr) { i.JMP? || i.CJMP? || i.CALL? || i.CLOSURE? ==> i.dest.offset.Some? }

  /** Every instruction with a row in the reference is encoded as the reference says. */
  lemma EncodedAsDocumented(i: Instr)
    requires Reference(i).Some? && BuiltinShape(i) && Resolved(i)
    ensures Encode(i) == Ok(RowBytes(Reference(i).value))
  {
    hide Encode, Reference, RowBytes, BuiltinShape, Resolved;
    if i.JMP? || i.CJMP? || i.CALL? || i.CLOSURE? {
      TargetEncoded(i);
    } else if i.CALLBUILTIN? {
      BuiltinEncoded(i);
    } else {
      OtherEncoded(i);
    }
  }

  lemma WordsEncoded()
    ensures forall n: int :: I32Bytes(n) == Quad(n % 0x1_0000_0000)
  {
    hide Quad, ToLe;
    forall n: int ensures I32Bytes(n) == Quad(n % 0x1_0000_0000) { QuadIs(n % 0x1_0000_0000); }
  }

  lemma TargetEncoded(i: Instr)
    requires (i.JMP? || i.CJMP? || i.CALL? || i.CLOSURE?) && Resolved(i)
    ensures Reference(i).Some? && Encode(i) == Ok(RowBytes(Reference(i).value))
  {
    hide Quad, ToLe, RowBytes, I32Bytes;
    var r := Reference(i).value;
    WordsEncoded();
    RowIs(r);
    var target := I32Bytes(i.dest.offset.value);
    assert [r.opcode] + target + [] == [r.opcode] + target;
  }

  lemma BuiltinEncoded(i: Instr)
    requires i.CALLBUILTIN? && Reference(i).Some? && BuiltinShape(i)
    ensures Encode(i) == Ok(RowBytes(Reference(i).value))
  {
    hide Quad, ToLe, RowBytes, I32Bytes;
    var r := Reference(i).value;
    WordsEncoded();
    RowIs(r);
    if i.n == 0 { assert [r.opcode] + [] == [r.opcode]; }
  }

  lemma OtherEncoded(i: Instr)
    requires Reference(i).Some? && !i.JMP? && !i.CJMP? && !i.CALL? && !i.CLOSURE? && !i.CALLBUILTIN?
    ensures Encode(i) == Ok(RowBytes(Reference(i).value))
  {
    hide Quad, Octet, ToLe, RowBytes, I32Bytes;
    WordsEncoded();
    RowIs(Reference(i).value);
    if i.CONSTF? { OctetIs(i.double); }
  }

  lemma RowIs(r: Row)
    ensures r.operands == [] ==> RowBytes(r) == [r.opcode]
    ensures |r.operands| == 1 ==> RowBytes(r) == [r.opcode] + OperandBytes(r.operands[0])
    ensures |r.operands| == 1 && r.operands[0].U8? ==> RowBytes(r) == [r.opcode, r.operands[0].b]
    ensures |r.operands| == 2 ==> RowBytes(r) == [r.opcode] + OperandBytes(r.operands[0]) + OperandBytes(r.operands[1])
  {
    hide OperandBytes;
    if |r.operands| == 1 {
      assert r.operands[1..] == [] && AllBytes(r.operands) == OperandBytes(r.operands[0]);
      assert r.operands[0].U8? ==> OperandBytes(r.operands[0]) == [r.operands[0].b] by { ByteIs(r.operands[0]); }
    } else if |r.operands| == 2 {
      assert r.operands[1..][1..] == [] && AllBytes(r.operands[1..]) == OperandBytes(r.operands[1]);
    }
  }

  lemma ByteIs(o: Operand)
    ensures o.U8? ==> OperandBytes(o) == [o.b]
  {
  }

  /** The length builtin has an opcode that the reference calls unused. */
  lemma LengthUndocumented()
    ensures Encode(CALLBUILTIN(Llength, 0)) == Ok([0x72]) && forall i :: Reference(i).Some? ==> Reference(i).value.opcode != 0x72
  {
    assert [0x72] + [] == [0x72];
  }

  // ---------------------------------------------------------------- files

  /** A file begins with five little-endian words, then symbols, strings, schemas, code. */
  lemma FileLayout(c: Contents)
    requires Fits32(c.stringtabSize) && Fits32(c.globalAreaSize) && Fits32(c.symbolsNumber) && Fits32(|c.schemas|)
    ensures var f, n := EncodeFile(c), 20 + 8 * |c.symbols|;
      && |f| >= n + |c.strings| + |c.code|
      && f[0..4] == Quad(c.stringtabSize) && f[4..8] == Quad(c.globalAreaSize) && f[8..12] == Quad(c.symbolsNumber)
      && f[12..16] == [255, 255, 255, 255] && f[16..20] == Quad(|c.schemas|)
      && f[n..n + |c.strings|] == c.strings && f[|f| - |c.code|..] == c.code
  {
    hide SymbolBytes, SchemaBytes, Quad, ToLe;
    QuadIs(c.stringtabSize);
    QuadIs(c.globalAreaSize);
    QuadIs(c.symbolsNumber);
    MarkerBytes();
    QuadIs(|c.schemas|);
  }

  lemma MarkerBytes()
    ensures U32(MARKER) == [255, 255, 255, 255]
  {
    QuadIs(MARKER);
  }

  /** The i-th symbol: its name's offset, then its code offset. */
  lemma {:induction false} SymbolLayout(symbols: seq<Symbol>, i: nat)
    requires i < |symbols| && Fits32(symbols[i].name) && Fits32(symbols[i].offset)
    ensures SymbolBytes(symbols)[8 * i..8 * i + 4] == Quad(symbols[i].name)
    ensures SymbolBytes(symbols)[8 * i + 4..8 * i + 8] == Quad(symbols[i].offset)
    decreases |symbols|
  {
    hide Quad, ToLe;
    var first := U32(symbols[0].name) + U32(symbols[0].offset);
    assert SymbolBytes(symbols) == first + SymbolBytes(symbols[1..]);
    if i == 0 {
      QuadIs(symbols[0].name);
      QuadIs(symbols[0].offset);
    } else {
      SymbolLayout(symbols[1..], i - 1);
      assert SymbolBytes(symbols)[8 * i..8 * i + 4] == SymbolBytes(symbols[1..])[8 * (i - 1)..8 * (i - 1) + 4];
      assert SymbolBytes(symbols)[8 * i + 4..8 * i + 8] == SymbolBytes(symbols[1..])[8 * (i - 1) + 4..8 * (i - 1) + 8];
    }
  }

  /** Every function of every module is exported under its module's and its own name. */
  lemma {:induction false} FunctionsExported(ms: seq<ModuleDef>, i: nat, f: nat)
    requires i < |ms| && f < |ms[i].functions|
    ensures ms[i].name + "::" + ms[i].functions[f].name in Exported(ms)
    decreases |ms|
  {
    if i == 0 { NameExported(ms[0].name, ms[0].functions, f); } else { FunctionsExported(ms[1..], i - 1, f); }
  }

  lemma {:induction false} NameExported(module_: string, functions: seq<FunctionDef>, f: nat)
    requires f < |functions|
    ensures module_ + "::" + functions[f].name in FunctionNames(module_, functions)
    decreases |functions|
  {
    if f > 0 { NameExported(module_, functions[1..], f - 1); }
  }

  // ---------------------------------------------------------------- characters

  /** The first character of well-formed UTF-8 is the number its payload bits spell. */
  lemma CharacterValue(s: seq<Byte>)
    requires s != [] && Utf8.CharAtFront(s)
    ensures Utf8.DecodeOne(s) == Ok(
      if s[0] < 0x80 then s[0]
      else if s[0] < 0xE0 then Bits(s[0], 0xC0) * 0x40 + Bits(s[1], 0x80)
      else if s[0] < 0xF0 then Bits(s[0], 0xE0) * 0x1000 + Bits(s[1], 0x80) * 0x40 + Bits(s[2], 0x80)
      else Bits(s[0], 0xF0) * 0x4_0000 + Bits(s[1], 0x80) * 0x1000 + Bits(s[2], 0x80) * 0x40 + Bits(s[3], 0x80))
  {
    if s[0] >= 0x80 {
      Utf8.LowSix(s[1]);
      if s[0] >= 0xE0 { Utf8.LowSix(s[2]); }
      if s[0] >= 0xF0 { Utf8.LowSix(s[3]); }
    }
  }

  /** A byte without its marker. */
  function Bits(b: int, marker: int): int { b - marker }

  // ---------------------------------------------------------------- packed operands

  /** Output is one call whose operand holds the number of values in its low 30 bits, and in bit
      30 whether a line ends. */
  lemma PackedOperand(cfg: Scoping.Config, env: GenEnv, noNewline: bool, values: seq<Expr>)
    requires |values| < 0x4000_0000 && EmitStmt(cfg, env, Output(noNewline, values)).Ok?
    ensures var code := EmitStmt(cfg, env, Output(noNewline, values)).value.1;
      code != [] && code[|code| - 1] == CALLBUILTIN(Lwrite, |values| + (if noNewline then 0 else 0x4000_0000))
  {
    hide EmitExprs;
  }
}
