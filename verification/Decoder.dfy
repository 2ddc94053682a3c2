/** The decoder (crates/vm-core/src/decoder.rs) and what it undoes. It is not the reader the
    interpreter dispatches with: the two differ on three opcodes. */
module Decoding {
  import opened Results
  import opened Bytecode
  import opened Numbers
  import opened Encoding

  /** `decode`, after the opcode byte `b` was read before `ip`. */
  function DecodeFrom(code: seq<Byte>, ip: nat, b: Byte): Result<Decoded> {
    var high, low := b / 16, b % 16;
    if high == 0x0 then
      if low == 0 then Ok(Decoded(NOP, ip))
      else
        var op :- OpOfSubopcode(low);
        Ok(Decoded(BINOP(op), ip))
    else if high == 0x1 then DecodeBasic(code, ip, low)
    else if high == 0x2 && low <= 3 then
      var rel :- RelOfSubopcode(low);
      WithI32(code, ip, n => LOAD(rel, n))
    else if high == 0x3 then
      var op :- UnaryOfSubopcode(low);
      Ok(Decoded(UNARY(op), ip))
    else if high == 0x4 && low <= 3 then
      var rel :- RelOfSubopcode(low);
      WithI32(code, ip, n => STORE(rel, n))
    else if high == 0x5 then DecodeControl(code, ip, low)
    else if high == 0x7 then DecodeBuiltin(code, ip, low)
    else Err(InvalidOpcode)
  }

  function WithI32(code: seq<Byte>, ip: nat, make: int -> Instr): Result<Decoded> {
    var n :- ReadI32(code, ip);
    Ok(Decoded(make(n), ip + 4))
  }

  function WithI32s(code: seq<Byte>, ip: nat, make: (int, int) -> Instr): Result<Decoded> {
    var m :- ReadI32(code, ip);
    var n :- ReadI32(code, ip + 4);
    Ok(Decoded(make(m, n), ip + 8))
  }

  function WithByte(code: seq<Byte>, ip: nat, make: Byte -> Instr): Result<Decoded> {
    var n :- ReadByte(code, ip);
    Ok(Decoded(make(n), ip + 1))
  }

  function Anonymous(offset: int): Label { Label("", Some(offset)) }

  function DecodeBasic(code: seq<Byte>, ip: nat, low: int): Result<Decoded> {
    if low == 0x0 then WithI32(code, ip, n => CONST(n))
    else if low == 0x1 then WithI32(code, ip, n => STRING(n))
    else if low == 0x2 then WithI32(code, ip, n => TUPLE(n))
    else if low == 0x3 then Ok(Decoded(STS, ip))
    else if low == 0x4 then Ok(Decoded(STA, ip))
    else if low == 0x5 then WithI32(code, ip, n => JMP(Anonymous(n)))
    else if low == 0x6 then Ok(Decoded(END, ip))
    else if low == 0x7 then WithByte(code, ip, n => SLICE(n))
    else if low == 0x8 then Ok(Decoded(DROP, ip))
    else if low == 0x9 then Ok(Decoded(DUP, ip))
    else if low == 0xa then Ok(Decoded(SWAP, ip))
    else if low == 0xb then Ok(Decoded(ELEM, ip))
    else if low == 0xc then
      var f :- ReadF64(code, ip);
      Ok(Decoded(CONSTF(f), ip + 8))
    else Err(InvalidOpcode)
  }

  function DecodeControl(code: seq<Byte>, ip: nat, low: int): Result<Decoded> {
    if low == 0x0 then WithI32(code, ip, n => CJMP(Anonymous(n), ISZERO))
    else if low == 0x1 then WithI32(code, ip, n => CJMP(Anonymous(n), ISNONZERO))
    else if low == 0x2 then WithI32s(code, ip, (m, n) => BEGIN(m, n))
    else if low == 0x3 then WithI32s(code, ip, (m, n) => CBEGIN(m, n))
    else if low == 0x4 then WithI32s(code, ip, (m, n) => CLOSURE(Anonymous(m), n))
    else if low == 0x5 then WithI32(code, ip, n => CALLC(n))
    else if low == 0x6 then WithI32s(code, ip, (m, n) => CALL(Anonymous(m), n))
    else if low == 0x8 then WithI32(code, ip, n => ARRAY(n))
    else if low == 0x9 then WithI32(code, ip, n => VARIANT(n))
    else if low == 0xa then WithI32(code, ip, n => LINE(n))
    else if low == 0xb then Ok(Decoded(VARIANTTAG, ip))
    else if low == 0xc then WithI32(code, ip, n => FIELD(n))
    else if low == 0xd then WithI32(code, ip, n => SETFIELD(n))
    else if low == 0xe then WithI32(code, ip, n => ISVARIANT(n))
    else Err(InvalidOpcode)
  }

  const PLAIN_BUILTINS: set<int> := {0x3, 0x4, 0x7, 0x8, 0x9, 0xa, 0xb, 0xc, 0xd, 0xe, 0xf}

  function DecodeBuiltin(code: seq<Byte>, ip: nat, low: int): Result<Decoded> {
    if low == 0x0 then WithI32(code, ip, n => CALLBUILTIN(Lread, n))
    else if low == 0x1 then WithI32(code, ip, n => CALLBUILTIN(Lwrite, n))
    else if low in PLAIN_BUILTINS then
      var name :- BuiltinOfSubopcode(low);
      Ok(Decoded(CALLBUILTIN(name, 0), ip))
    else if low == 0x5 then WithByte(code, ip, n => BOOL(n != 0))
    else if low == 0x6 then Ok(Decoded(NULL, ip))
    else Err(InvalidOpcode)
  }

  function Decode(code: seq<Byte>, ip: nat): Result<Decoded> {
    var b :- ReadByte(code, ip);
    DecodeFrom(code, ip + 1, b)
  }

  /** LOAD and STORE of a capture, and the length builtin. */
  const UNDECODED: set<int> := {0x24, 0x44, 0x72}

  /** The decoder reads what the interpreter executes, for every byte but three: those the
      interpreter dispatches and the decoder rejects. */
  lemma DecodeAgrees(code: seq<Byte>, ip: nat)
    ensures ip < |code| && code[ip] in UNDECODED ==> Decode(code, ip) == Err(InvalidOpcode)
    ensures !(ip < |code| && code[ip] in UNDECODED) ==> Decode(code, ip) == Fetch(code, ip)
  {
    if ip < |code| {
      var b := code[ip];
      if b < 0x20 {
      } else if b < 0x50 {
      } else if b < 0x60 {
        AgreeControl(code, ip, b);
      } else if b >= 0x70 && b != 0x72 {
        AgreeBuiltin(code, ip, b);
      }
    }
  }

  lemma AgreeControl(code: seq<Byte>, ip: nat, b: Byte)
    requires 0x50 <= b < 0x60
    ensures DecodeFrom(code, ip + 1, b) == FetchControl(code, ip, b)
  {
  }

  lemma AgreeBuiltin(code: seq<Byte>, ip: nat, b: Byte)
    requires 0x70 <= b && b != 0x72
    ensures DecodeFrom(code, ip + 1, b) == if b < 0x80 then FetchBuiltin(code, ip, b) else Err(InvalidOpcode)
  {
  }

  // Single instructions

  predicate Undecodable(i: Instr) {
    (i.LOAD? && i.rel == Capture) || (i.STORE? && i.rel == Capture) || (i.CALLBUILTIN? && i.name == Llength)
  }

  /** What decoding gives back unchanged: operands of their encoded width, a non-zero operand
      exactly on input and output, and no opcode the decoder lacks. */
  predicate Decodable(i: Instr) { Codable(i) && !Undecodable(i) }

  lemma FirstByte(i: Instr)
    requires Encode(i).Ok? && !i.LABEL?
    ensures |Encode(i).value| >= 1 && (Encode(i).value[0] in UNDECODED <==> Undecodable(i))
  {
  }

  lemma DecodeUndoesEncode(code: seq<Byte>, ip: nat, i: Instr)
    requires Encode(i).Ok? && !i.LABEL? && Decodable(i) && Holds(code, ip, Encode(i).value)
    ensures Decode(code, ip) == Ok(Decoded(Erase(i), ip + |Encode(i).value|))
  {
    hide Decode, Fetch, Encode, Codable, Undecodable, Erase;
    FirstByte(i);
    assert code[ip] == code[ip..ip + |Encode(i).value|][0];
    DecodeAgrees(code, ip);
    FetchUndoesEncode(code, ip, i);
  }

  /** The instruction comes back whatever follows it. */
  ghost predicate ComesBack(i: Instr)
    requires Encode(i).Ok?
  {
    forall rest: seq<Byte> :: Decode(Encode(i).value + rest, 0) == Ok(Decoded(Erase(i), |Encode(i).value|))
  }

  /** Exactly the decodable instructions survive. */
  lemma ComesBackIff(i: Instr)
    requires Encode(i).Ok? && !i.LABEL?
    ensures ComesBack(i) <==> Decodable(i)
  {
    hide Decode, Encode, Decodable, Erase;
    if Decodable(i) {
      forall rest: seq<Byte> ensures Decode(Encode(i).value + rest, 0) == Ok(Decoded(Erase(i), |Encode(i).value|)) {
        assert (Encode(i).value + rest)[0..0 + |Encode(i).value|] == Encode(i).value;
        DecodeUndoesEncode(Encode(i).value + rest, 0, i);
      }
    } else {
      NotBack(i);
      assert Encode(i).value + [] == Encode(i).value;
    }
  }

  lemma NotBack(i: Instr)
    requires Encode(i).Ok? && !i.LABEL? && !Decodable(i)
    ensures Decode(Encode(i).value, 0) != Ok(Decoded(Erase(i), |Encode(i).value|))
  {
    hide OperandsFit, Decode, Encode;
    var bs := Encode(i).value;
    FirstByte(i);
    DecodeAgrees(bs, 0);
    if !Undecodable(i) && Decode(bs, 0) == Ok(Decoded(Erase(i), |bs|)) { FetchedFits(bs, i); }
  }

  /** Whatever is fetched has operands of their width and the builtin operand shape. */
  lemma FetchedFits(bs: seq<Byte>, i: Instr)
    requires Fetch(bs, 0) == Ok(Decoded(Erase(i), |bs|)) && Encode(i) == Ok(bs)
    ensures Codable(i)
  {
    hide Fetch, Encode, OperandsFit;
    FetchedOperands(bs);
    ErasedOperands(i);
    if i.CALLBUILTIN? { FetchedShape(bs, i); }
  }

  lemma FetchedOperands(bs: seq<Byte>)
    requires Fetch(bs, 0).Ok?
    ensures OperandsFit(Fetch(bs, 0).value.instr)
  {
    hide FetchBasic, FetchVariable, FetchControl, FetchBuiltin, ReadI32;
    BasicOperands(bs, bs[0]);
    VariableOperands(bs, bs[0]);
    ControlOperands(bs, bs[0]);
  }

  lemma BasicOperands(bs: seq<Byte>, b: Byte)
    ensures FetchBasic(bs, 0, b).Ok? ==> OperandsFit(FetchBasic(bs, 0, b).value.instr)
  {
  }

  lemma VariableOperands(bs: seq<Byte>, b: Byte)
    ensures FetchVariable(bs, 0, b).Ok? ==> OperandsFit(FetchVariable(bs, 0, b).value.instr)
    ensures FetchBuiltin(bs, 0, b).Ok? ==> OperandsFit(FetchBuiltin(bs, 0, b).value.instr)
  {
  }

  lemma ControlOperands(bs: seq<Byte>, b: Byte)
    ensures FetchControl(bs, 0, b).Ok? ==> OperandsFit(FetchControl(bs, 0, b).value.instr)
  {
    hide FromLe, ReadF64, BuiltinShape;
  }

  lemma ErasedOperands(i: Instr)
    ensures OperandsFit(Erase(i)) == OperandsFit(i)
  {
  }

  lemma FetchedShape(bs: seq<Byte>, i: Instr)
    requires i.CALLBUILTIN? && Fetch(bs, 0) == Ok(Decoded(i, |bs|)) && Encode(i) == Ok(bs)
    ensures BuiltinShape(i)
  {
  }

  // Streams

  /** Decoding instruction after instruction up to `end`. */
  function DecodeStream(code: seq<Byte>, ip: nat, end: nat): Result<seq<Instr>>
    requires end <= |code|
    decreases end - ip
  {
    if ip >= end then Ok([])
    else
      var d :- Decode(code, ip);
      if d.next <= ip then Err(EndOfCode)
      else
        var rest :- DecodeStream(code, d.next, end);
        Ok([d.instr] + rest)
  }

  function EncodeStream(instrs: seq<Instr>): Result<seq<Byte>> {
    if instrs == [] then Ok([])
    else
      var first :- Encode(instrs[0]);
      var rest :- EncodeStream(instrs[1..]);
      Ok(first + rest)
  }

  /** Instructions as a byte code listing shows them: labels gone, label names erased. */
  function Listing(instrs: seq<Instr>): seq<Instr> {
    if instrs == [] then []
    else (if instrs[0].LABEL? then [] else [Erase(instrs[0])]) + Listing(instrs[1..])
  }

  /** Encodings are self-delimiting: a stream of decodable instructions, placed anywhere, is
      read back instruction by instruction, using up exactly its bytes. */
  lemma {:induction false} StreamRoundTrip(before: seq<Byte>, instrs: seq<Instr>, after: seq<Byte>)
    requires EncodeStream(instrs).Ok? && forall i :: i in instrs ==> Decodable(i)
    ensures var bytes := EncodeStream(instrs).value;
      DecodeStream(before + bytes + after, |before|, |before| + |bytes|) == Ok(Listing(instrs))
    decreases |instrs|
  {
    hide Encode, Decode, Decodable, Erase, Holds;
    if instrs != [] {
      var i, first, rest := instrs[0], Encode(instrs[0]).value, EncodeStream(instrs[1..]).value;
      var code := before + (first + rest) + after;
      assert code == (before + first) + rest + after;
      StreamRoundTrip(before + first, instrs[1..], after);
      LabelSize(i);
      if i.LABEL? {
        assert before + first == before && first + rest == rest;
        assert [] + Listing(instrs[1..]) == Listing(instrs[1..]);
      } else {
        StandsAt(before, first, rest + after);
        assert before + first + (rest + after) == code;
        DecodeUndoesEncode(code, |before|, i);
      }
    }
  }

  lemma StandsAt(before: seq<Byte>, bytes: seq<Byte>, after: seq<Byte>)
    ensures Holds(before + bytes + after, |before|, bytes)
  {
  }

  lemma LabelSize(i: Instr)
    requires Encode(i).Ok?
    ensures |Encode(i).value| == 0 <==> i.LABEL?
  {
  }

  // The decoder object

  /** Reads a code section from its instruction pointer onwards. */
  class Decoder {
    const code: seq<Byte>
    var ip: nat

    constructor (code: seq<Byte>, main: nat)
      ensures this.code == code && ip == main
    {
      this.code := code;
      ip := main;
    }

    method NextByte() returns (r: Result<Byte>)
      modifies this
      ensures r == ReadByte(code, old(ip)) && ip == if r.Ok? then old(ip) + 1 else old(ip)
    {
      if ip + 1 > |code| { return Err(EndOfCode); }
      r := Ok(code[ip]);
      ip := ip + 1;
    }

    method NextI32() returns (r: Result<int>)
      modifies this
      ensures r == ReadI32(code, old(ip)) && ip == if r.Ok? then old(ip) + 4 else old(ip)
    {
      if ip + 4 > |code| { return Err(EndOfCode); }
      r := Ok(AsI32(FromLe(code[ip..ip + 4])));
      ip := ip + 4;
    }

    method NextF64() returns (r: Result<F64>)
      modifies this
      ensures r == ReadF64(code, old(ip)) && ip == if r.Ok? then old(ip) + 8 else old(ip)
    {
      r := ReadF64(code, ip);
      if r.Ok? { ip := ip + 8; }
    }

    /** What was decoded, and the instruction pointer just past it. */
    ghost predicate Follows(d: Result<Decoded>, r: Result<Instr>)
      reads this
    {
      match d
      case Ok(decoded) => r == Ok(decoded.instr) && ip == decoded.next
      case Err(e) => r == Err(e)
    }

    method Operand(make: int -> Instr) returns (r: Result<Instr>)
      modifies this
      ensures Follows(WithI32(code, old(ip), make), r)
    {
      var n :- NextI32();
      r := Ok(make(n));
    }

    method Operands(make: (int, int) -> Instr) returns (r: Result<Instr>)
      modifies this
      ensures Follows(WithI32s(code, old(ip), make), r)
    {
      var m :- NextI32();
      var n :- NextI32();
      r := Ok(make(m, n));
    }

    /** `decode`: the instruction an opcode byte and the bytes after it make. */
    method DecodeOpcode(b: Byte) returns (r: Result<Instr>)
      modifies this
      ensures Follows(DecodeFrom(code, old(ip), b), r)
    {
      var high, low := b / 16, b % 16;
      if high == 0x0 && low == 0 {
        r := Ok(NOP);
      } else if high == 0x0 {
        var op :- OpOfSubopcode(low);
        r := Ok(BINOP(op));
      } else if high == 0x1 {
        r := DecodeBasicOpcode(low);
      } else if high == 0x2 && low <= 3 {
        var rel :- RelOfSubopcode(low);
        r := Operand(n => LOAD(rel, n));
      } else if high == 0x3 {
        var op :- UnaryOfSubopcode(low);
        r := Ok(UNARY(op));
      } else if high == 0x4 && low <= 3 {
        var rel :- RelOfSubopcode(low);
        r := Operand(n => STORE(rel, n));
      } else if high == 0x5 {
        r := DecodeControlOpcode(low);
      } else if high == 0x7 {
        r := DecodeBuiltinOpcode(low);
      } else {
        r := Err(InvalidOpcode);
      }
    }

    method DecodeBasicOpcode(low: int) returns (r: Result<Instr>)
      modifies this
      ensures Follows(DecodeBasic(code, old(ip), low), r)
    {
      if low == 0x0 { r := Operand(n => CONST(n)); }
      else if low == 0x1 { r := Operand(n => STRING(n)); }
      else if low == 0x2 { r := Operand(n => TUPLE(n)); }
      else if low == 0x3 { r := Ok(STS); }
      else if low == 0x4 { r := Ok(STA); }
      else if low == 0x5 { r := Operand(n => JMP(Anonymous(n))); }
      else if low == 0x6 { r := Ok(END); }
      else if low == 0x7 {
        var bounds :- NextByte();
        r := Ok(SLICE(bounds));
      }
      else if low == 0x8 { r := Ok(DROP); }
      else if low == 0x9 { r := Ok(DUP); }
      else if low == 0xa { r := Ok(SWAP); }
      else if low == 0xb { r := Ok(ELEM); }
      else if low == 0xc {
        var f :- NextF64();
        r := Ok(CONSTF(f));
      }
      else { r := Err(InvalidOpcode); }
    }

    method DecodeControlOpcode(low: int) returns (r: Result<Instr>)
      modifies this
      ensures Follows(DecodeControl(code, old(ip), low), r)
    {
      if low == 0x0 { r := Operand(n => CJMP(Anonymous(n), ISZERO)); }
      else if low == 0x1 { r := Operand(n => CJMP(Anonymous(n), ISNONZERO)); }
      else if low == 0x2 { r := Operands((m, n) => BEGIN(m, n)); }
      else if low == 0x3 { r := Operands((m, n) => CBEGIN(m, n)); }
      else if low == 0x4 { r := Operands((m, n) => CLOSURE(Anonymous(m), n)); }
      else if low == 0x5 { r := Operand(n => CALLC(n)); }
      else if low == 0x6 { r := Operands((m, n) => CALL(Anonymous(m), n)); }
      else if low == 0x8 { r := Operand(n => ARRAY(n)); }
      else if low == 0x9 { r := Operand(n => VARIANT(n)); }
      else if low == 0xa { r := Operand(n => LINE(n)); }
      else if low == 0xb { r := Ok(VARIANTTAG); }
      else if low == 0xc { r := Operand(n => FIELD(n)); }
      else if low == 0xd { r := Operand(n => SETFIELD(n)); }
      else if low == 0xe { r := Operand(n => ISVARIANT(n)); }
      else { r := Err(InvalidOpcode); }
    }

    method DecodeBuiltinOpcode(low: int) returns (r: Result<Instr>)
      modifies this
      ensures Follows(DecodeBuiltin(code, old(ip), low), r)
    {
      if low == 0x0 { r := Operand(n => CALLBUILTIN(Lread, n)); }
      else if low == 0x1 { r := Operand(n => CALLBUILTIN(Lwrite, n)); }
      else if low in PLAIN_BUILTINS {
        var name :- BuiltinOfSubopcode(low);
        r := Ok(CALLBUILTIN(name, 0));
      }
      else if low == 0x5 {
        var flag :- NextByte();
        r := Ok(BOOL(flag != 0));
      }
      else if low == 0x6 { r := Ok(NULL); }
      else { r := Err(InvalidOpcode); }
    }

    /** The listing loop of the bytefile dump. */
    method DecodeAll() returns (r: Result<seq<Instr>>)
      modifies this
      ensures r == DecodeStream(code, old(ip), |code|)
    {
      var done: seq<Instr> := [];
      ghost var all := DecodeStream(code, ip, |code|);
      assert all == Prepend([], all) by { PrependNothing(all); }
      while ip < |code|
        invariant all == Prepend(done, DecodeStream(code, ip, |code|))
        decreases |code| - ip
      {
        ghost var at := ip;
        StreamStep(done, code, at);
        var b := NextByte();
        var i :- DecodeOpcode(b.value);
        DecodeForward(code, at);
        done := done + [i];
      }
      assert done + [] == done;
      r := Ok(done);
    }
  }

  function Prepend(done: seq<Instr>, rest: Result<seq<Instr>>): Result<seq<Instr>> {
    match rest case Ok(instrs) => Ok(done + instrs) case Err(e) => Err(e)
  }

  lemma PrependNothing(rest: Result<seq<Instr>>)
    ensures Prepend([], rest) == rest
  {
    if rest.Ok? { assert [] + rest.value == rest.value; }
  }

  /** Decoding always moves forward. */
  lemma DecodeForward(code: seq<Byte>, ip: nat)
    requires Decode(code, ip).Ok?
    ensures Decode(code, ip).value.next > ip
  {
  }

  lemma StreamStep(done: seq<Instr>, code: seq<Byte>, ip: nat)
    requires ip < |code|
    ensures Prepend(done, DecodeStream(code, ip, |code|)) ==
      match Decode(code, ip) {
        case Ok(d) => Prepend(done + [d.instr], DecodeStream(code, d.next, |code|))
        case Err(e) => Err(e)
      }
  {
    hide Decode;
    if Decode(code, ip).Ok? {
      var d := Decode(code, ip).value;
      DecodeForward(code, ip);
      if DecodeStream(code, d.next, |code|).Ok? {
        var rest := DecodeStream(code, d.next, |code|).value;
        assert done + ([d.instr] + rest) == done + [d.instr] + rest;
      }
    }
  }
}
