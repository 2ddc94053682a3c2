/** The bytefile object (crates/vm-core/src/bytefile.rs): built up by the generator, written
    to bytes, and read back through a moving reader. */
module Bytefiles {
  import opened Results
  import opened Bytecode
  import opened Numbers
  import opened Encoding
  import opened Assembly
  import opened Container
  import opened StringTable

  // Loop bookkeeping

  function Prefixed(front: seq<Byte>, rest: Result<seq<Byte>>): Result<seq<Byte>> {
    match rest case Ok(bytes) => Ok(front + bytes) case Err(e) => Err(e)
  }

  lemma PrefixedNothing(rest: Result<seq<Byte>>)
    ensures Prefixed([], rest) == rest
  {
    if rest.Ok? { assert [] + rest.value == rest.value; }
  }

  /** One more instruction of pass two. */
  lemma EmitStep(labels: Labels, instrs: seq<Instr>, k: nat, done: seq<Byte>)
    requires k < |instrs|
    ensures Prefixed(done, Emit(labels, instrs[k..])) ==
      match Encode(Resolve(labels, instrs[k])) {
        case Ok(first) => Prefixed(done + first, Emit(labels, instrs[k + 1..]))
        case Err(e) => Err(e)
      }
  {
    hide Encode;
    assert instrs[k..][1..] == instrs[k + 1..];
    if Encode(Resolve(labels, instrs[k])).Ok? && Emit(labels, instrs[k + 1..]).Ok? {
      var first, rest := Encode(Resolve(labels, instrs[k])).value, Emit(labels, instrs[k + 1..]).value;
      assert done + (first + rest) == done + first + rest;
    }
  }

  /** Instructions without a target have their size before any label is known. */
  lemma UnresolvedSize(i: Instr)
    requires !i.JMP? && !i.CJMP? && !i.CALL? && !i.CLOSURE?
    ensures Encode(i).Ok? && |Encode(i).value| == Size(i)
  {
  }

  lemma {:induction false} SymbolBytesAppend(symbols: seq<Symbol>, s: Symbol)
    ensures SymbolBytes(symbols + [s]) == SymbolBytes(symbols) + U32(s.name) + U32(s.offset)
    decreases |symbols|
  {
    hide U32;
    if symbols == [] {
      assert symbols + [s] == [s];
      assert SymbolBytes([s]) == U32(s.name) + U32(s.offset) + SymbolBytes([]);
    } else {
      SymbolBytesAppend(symbols[1..], s);
      assert (symbols + [s])[1..] == symbols[1..] + [s];
    }
  }

  lemma {:induction false} OffsetBytesAppend(offsets: seq<nat>, o: nat)
    ensures OffsetBytes(offsets + [o]) == OffsetBytes(offsets) + U32(o)
    decreases |offsets|
  {
    hide U32;
    if offsets == [] {
      assert offsets + [o] == [o];
      assert OffsetBytes([o]) == U32(o) + OffsetBytes([]);
    } else {
      OffsetBytesAppend(offsets[1..], o);
      assert (offsets + [o])[1..] == offsets[1..] + [o];
    }
  }

  function OneSchema(s: StoredSchema): seq<Byte> {
    U32(s.nameOffset) + U16(s.tag) + U16(|s.fieldOffsets|) + OffsetBytes(s.fieldOffsets)
  }

  lemma {:induction false} SchemaBytesAppend(schemas: seq<StoredSchema>, s: StoredSchema)
    ensures SchemaBytes(schemas + [s]) == SchemaBytes(schemas) + OneSchema(s)
    decreases |schemas|
  {
    hide U32, U16, OffsetBytes;
    if schemas == [] {
      assert schemas + [s] == [s];
      assert SchemaBytes([s]) == OneSchema(s) + SchemaBytes([]);
    } else {
      SchemaBytesAppend(schemas[1..], s);
      assert (schemas + [s])[1..] == schemas[1..] + [s];
    }
  }

  /** A cursor over the bytes of a file. */
  class Reader {
    const source: seq<Byte>
    var pos: nat

    constructor (source: seq<Byte>)
      ensures this.source == source && pos == 0
    {
      this.source := source;
      pos := 0;
    }

    method NextU32() returns (r: Result<nat>)
      modifies this
      ensures r == ReadU32(source, old(pos)) && pos == if r.Ok? then old(pos) + 4 else old(pos)
    {
      r := ReadU32(source, pos);
      if r.Ok? { pos := pos + 4; }
    }

    method NextU16() returns (r: Result<nat>)
      modifies this
      ensures r == ReadU16(source, old(pos)) && pos == if r.Ok? then old(pos) + 2 else old(pos)
    {
      r := ReadU16(source, pos);
      if r.Ok? { pos := pos + 2; }
    }

    method Take(n: nat) returns (r: Result<seq<Byte>>)
      modifies this
      ensures if old(pos) + n <= |source| then r == Ok(source[old(pos)..old(pos) + n]) && pos == old(pos) + n else r == Err(UnexpectedEof)
    {
      if pos + n > |source| { return Err(UnexpectedEof); }
      r := Ok(source[pos..pos + n]);
      pos := pos + n;
    }
  }

  // Reading loops, one step at a time

  function SymbolsAfter(done: seq<Symbol>, rest: Result<(seq<Symbol>, nat)>): Result<(seq<Symbol>, nat)> {
    match rest case Ok(p) => Ok((done + p.0, p.1)) case Err(e) => Err(e)
  }

  function OffsetsAfter(done: seq<nat>, rest: Result<(seq<nat>, nat)>): Result<(seq<nat>, nat)> {
    match rest case Ok(p) => Ok((done + p.0, p.1)) case Err(e) => Err(e)
  }

  function SchemasAfter(done: seq<StoredSchema>, rest: Result<(seq<StoredSchema>, nat)>): Result<(seq<StoredSchema>, nat)> {
    match rest case Ok(p) => Ok((done + p.0, p.1)) case Err(e) => Err(e)
  }

  lemma SymbolsStep(bs: seq<Byte>, pos: nat, count: nat, first: Option<nat>, done: seq<Symbol>)
    requires count > 0
    ensures var name := if first.Some? then Ok(first.value) else ReadU32(bs, pos);
      var pos1 := if first.Some? then pos else pos + 4;
      SymbolsAfter(done, ParseSymbols(bs, pos, count, first)) ==
        if name.Err? then Err(name.fault)
        else match ReadU32(bs, pos1) {
          case Ok(offset) => SymbolsAfter(done + [Symbol(name.value, offset)], ParseSymbols(bs, pos1 + 4, count - 1, None))
          case Err(e) => Err(e)
        }
  {
    hide ReadU32;
    var name := if first.Some? then Ok(first.value) else ReadU32(bs, pos);
    var pos1 := if first.Some? then pos else pos + 4;
    if name.Ok? && ReadU32(bs, pos1).Ok? && ParseSymbols(bs, pos1 + 4, count - 1, None).Ok? {
      var s, rest := Symbol(name.value, ReadU32(bs, pos1).value), ParseSymbols(bs, pos1 + 4, count - 1, None).value.0;
      assert done + ([s] + rest) == done + [s] + rest;
    }
  }

  lemma OffsetsStep(bs: seq<Byte>, pos: nat, count: nat, done: seq<nat>)
    requires count > 0
    ensures OffsetsAfter(done, ParseOffsets(bs, pos, count)) ==
      match ReadU32(bs, pos) {
        case Ok(o) => OffsetsAfter(done + [o], ParseOffsets(bs, pos + 4, count - 1))
        case Err(e) => Err(e)
      }
  {
    hide ReadU32;
    if ReadU32(bs, pos).Ok? && ParseOffsets(bs, pos + 4, count - 1).Ok? {
      var o, rest := ReadU32(bs, pos).value, ParseOffsets(bs, pos + 4, count - 1).value.0;
      assert done + ([o] + rest) == done + [o] + rest;
    }
  }

  lemma SchemasStep(bs: seq<Byte>, pos: nat, count: nat, size: nat, done: seq<StoredSchema>)
    requires count > 0
    ensures SchemasAfter(done, ParseSchemas(bs, pos, count, size)) ==
      match ParseSchema(bs, pos, size) {
        case Ok(p) => SchemasAfter(done + [p.0], ParseSchemas(bs, p.1, count - 1, size))
        case Err(e) => Err(e)
      }
  {
    hide ParseSchema;
    if ParseSchema(bs, pos, size).Ok? {
      var (s, next) := ParseSchema(bs, pos, size).value;
      if ParseSchemas(bs, next, count - 1, size).Ok? {
        var rest := ParseSchemas(bs, next, count - 1, size).value.0;
        assert done + ([s] + rest) == done + [s] + rest;
      }
    }
  }

  method ReadSymbols(reader: Reader, count: nat, first: Option<nat>) returns (r: Result<seq<Symbol>>)
    modifies reader
    ensures match ParseSymbols(reader.source, old(reader.pos), count, first) {
      case Ok(p) => r == Ok(p.0) && reader.pos == p.1
      case Err(e) => r == Err(e)
    }
  {
    hide ParseSymbols, ReadU32;
    ghost var all := ParseSymbols(reader.source, reader.pos, count, first);
    var symbols: seq<Symbol> := [];
    var index := 0;
    assert all.Ok? ==> [] + all.value.0 == all.value.0;
    while index < count
      invariant 0 <= index <= count
      invariant all == SymbolsAfter(symbols, ParseSymbols(reader.source, reader.pos, count - index, if index == 0 then first else None))
    {
      SymbolsStep(reader.source, reader.pos, count - index, if index == 0 then first else None, symbols);
      var name;
      if index == 0 && first.Some? {
        name := first.value;
      } else {
        name :- reader.NextU32();
      }
      var offset :- reader.NextU32();
      symbols := symbols + [Symbol(name, offset)];
      index := index + 1;
    }
    NoSymbols(reader.source, reader.pos, if index == 0 then first else None);
    assert symbols + [] == symbols;
    r := Ok(symbols);
  }

  lemma NoSymbols(bs: seq<Byte>, pos: nat, first: Option<nat>)
    ensures ParseSymbols(bs, pos, 0, first) == Ok(([], pos))
  {
  }

  method ReadSchema(reader: Reader, size: nat) returns (r: Result<StoredSchema>)
    modifies reader
    ensures match ParseSchema(reader.source, old(reader.pos), size) {
      case Ok(p) => r == Ok(p.0) && reader.pos == p.1
      case Err(e) => r == Err(e)
    }
  {
    hide ReadU32, ReadU16;
    var name :- reader.NextU32();
    var tag :- reader.NextU16();
    var count :- reader.NextU16();
    ghost var all := ParseOffsets(reader.source, reader.pos, count);
    var offsets: seq<nat> := [];
    assert all.Ok? ==> [] + all.value.0 == all.value.0;
    while |offsets| < count
      invariant |offsets| <= count
      invariant all == OffsetsAfter(offsets, ParseOffsets(reader.source, reader.pos, count - |offsets|))
    {
      OffsetsStep(reader.source, reader.pos, count - |offsets|, offsets);
      var offset :- reader.NextU32();
      offsets := offsets + [offset];
    }
    assert offsets + [] == offsets;
    if name >= size || !OffsetsIn(offsets, size) { return Err(InvalidString); }
    r := Ok(StoredSchema(name, tag, offsets));
  }

  method ReadSchemas(reader: Reader, count: nat, size: nat) returns (r: Result<seq<StoredSchema>>)
    modifies reader
    ensures match ParseSchemas(reader.source, old(reader.pos), count, size) {
      case Ok(p) => r == Ok(p.0) && reader.pos == p.1
      case Err(e) => r == Err(e)
    }
  {
    hide ParseSchema;
    ghost var all := ParseSchemas(reader.source, reader.pos, count, size);
    var schemas: seq<StoredSchema> := [];
    assert all.Ok? ==> [] + all.value.0 == all.value.0;
    while |schemas| < count
      invariant |schemas| <= count
      invariant all == SchemasAfter(schemas, ParseSchemas(reader.source, reader.pos, count - |schemas|, size))
    {
      SchemasStep(reader.source, reader.pos, count - |schemas|, size, schemas);
      var schema :- ReadSchema(reader, size);
      schemas := schemas + [schema];
    }
    assert schemas + [] == schemas;
    r := Ok(schemas);
  }

  class Bytefile {
    var stringtabSize: nat
    var globalAreaSize: nat
    var symbolsNumber: nat
    var symbols: seq<Symbol>
    var schemas: seq<StoredSchema>
    var strings: seq<Byte>
    var code: seq<Byte>
    var main: nat
    var labels: Labels

    ghost function Data(): Contents
      reads this
    {
      Contents(stringtabSize, globalAreaSize, symbolsNumber, symbols, schemas, strings, code, main)
    }

    /** The recorded sizes are the real ones. */
    ghost predicate Valid()
      reads this
    {
      stringtabSize == |strings| && symbolsNumber == |symbols|
    }

    constructor ()
      ensures Valid() && Data() == Contents(0, 0, 0, [], [], [], [], 0) && labels == map[]
    {
      stringtabSize, globalAreaSize, symbolsNumber, symbols, schemas := 0, 0, 0, [], [];
      strings, code, main, labels := [], [], 0, map[];
    }

    constructor FromContents(c: Contents)
      ensures Data() == c && labels == map[]
    {
      stringtabSize, globalAreaSize, symbolsNumber, symbols, schemas := c.stringtabSize, c.globalAreaSize, c.symbolsNumber, c.symbols, c.schemas;
      strings, code, main, labels := c.strings, c.code, c.main, map[];
    }

    /** Always appends, also when the string is there already. */
    method AddString(s: seq<Byte>) returns (offset: nat)
      requires Valid()
      modifies this`strings, this`stringtabSize
      ensures Valid() && offset == |old(strings)| && strings == Added(old(strings), s)
    {
      offset := stringtabSize;
      strings := strings + s;
      strings := strings + [0];
      stringtabSize := stringtabSize + |s| + 1;
    }

    method AddVariantSchema(schema: StoredSchema) returns (id: nat)
      modifies this`schemas
      ensures id == |old(schemas)| && schemas == old(schemas) + [schema]
    {
      id := |schemas|;
      schemas := schemas + [schema];
    }

    /** Position of the terminator at or after `from`. */
    method Position(from: nat) returns (r: Option<nat>)
      requires from <= |strings|
      ensures r == Terminator(strings, from)
    {
      var k := from;
      while k < |strings|
        invariant from <= k <= |strings| && Terminator(strings, from) == Terminator(strings, k)
      {
        if strings[k] == 0 { return Some(k); }
        k := k + 1;
      }
      r := None;
    }

    /** Scans string by string; an empty string is not found at the end of the table. */
    method FindStringOffset(s: seq<Byte>) returns (r: Option<nat>)
      ensures r == FindFrom(strings, 0, s)
    {
      var offset := 0;
      while offset < |strings|
        invariant FindFrom(strings, 0, s) == FindFrom(strings, offset, s)
        decreases |strings| - offset
      {
        var end := Position(offset);
        if end.None? { return None; }
        if strings[offset..end.value] == s { return Some(offset); }
        offset := end.value + 1;
      }
      r := None;
    }

    /** A literal's offset: reused when the table holds it, else appended. */
    method InternString(s: seq<Byte>) returns (offset: nat)
      requires Valid()
      modifies this`strings, this`stringtabSize
      ensures Valid() && (offset, strings) == Intern(old(strings), s)
    {
      var found := FindStringOffset(s);
      if found.Some? {
        offset := found.value;
      } else {
        offset := AddString(s);
      }
    }

    method GetStringAtOffset(offset: nat) returns (r: Result<seq<Byte>>)
      ensures r == StringAt(strings, offset)
    {
      if offset > |strings| { return Err(OutOfBounds); }
      var end := Position(offset);
      if end.None? { return Err(InvalidString); }
      r := Ok(strings[offset..end.value]);
    }

    /** Pass one: every label gets the offset its instruction will have. */
    method PlaceLabels(instrs: seq<Instr>) returns (r: Result<()>)
      modifies this`labels
      ensures match Place(instrs, |code|, old(labels)) {
        case Ok(placed) => r.Ok? && labels == placed
        case Err(e) => r == Err(e)
      }
    {
      hide Encode;
      var offset: nat, k := |code|, 0;
      assert instrs[0..] == instrs;
      while k < |instrs|
        invariant 0 <= k <= |instrs| && Place(instrs, |code|, old(labels)) == Place(instrs[k..], offset, labels)
      {
        var i := instrs[k];
        assert instrs[k..][1..] == instrs[k + 1..];
        if i.LABEL? {
          if !FitsI32(offset) { return Err(EndOfCode); }
          if i.mark in labels { return Err(DuplicateLabel); }
          labels := labels[i.mark := offset];
        } else if i.JMP? || i.CJMP? {
          offset := offset + 5;
        } else if i.CALL? || i.CLOSURE? {
          offset := offset + 9;
        } else {
          UnresolvedSize(i);
          offset := offset + |Encode(i).value|;
        }
        k := k + 1;
      }
      r := Ok(());
    }

    /** Two passes: place the labels, then fill in every target and append the bytes. */
    method AddInstructions(instrs: seq<Instr>) returns (r: Result<()>)
      modifies this`labels, this`code
      ensures match Place(instrs, |old(code)|, old(labels)) {
        case Ok(placed) =>
          (match Emit(placed, instrs)
           case Ok(bytes) => r.Ok? && labels == placed && code == old(code) + bytes
           case Err(e) => r == Err(e))
        case Err(e) => r == Err(e)
      }
    {
      hide Place, Emit, Encode, Resolve;
      var _ :- PlaceLabels(instrs);
      ghost var placed := labels;
      var resolved := [];
      for k := 0 to |instrs|
        invariant |resolved| == k && forall j :: 0 <= j < k ==> resolved[j] == Resolve(labels, instrs[j])
      {
        resolved := resolved + [Resolve(labels, instrs[k])];
      }
      ghost var bytes: seq<Byte> := [];
      ghost var all := Emit(labels, instrs);
      assert instrs[0..] == instrs;
      PrefixedNothing(all);
      for k := 0 to |instrs|
        invariant code == old(code) + bytes && labels == placed
        invariant all == Prefixed(bytes, Emit(labels, instrs[k..]))
      {
        EmitStep(labels, instrs, k, bytes);
        var encoded :- AddInstruction(resolved[k]);
        bytes := bytes + Encode(resolved[k]).value;
      }
      NothingLeft(labels, instrs[|instrs|..]);
      assert bytes + [] == bytes;
      r := Ok(());
    }

    method AddInstruction(i: Instr) returns (r: Result<()>)
      modifies this`code
      ensures match Encode(i) {
        case Ok(bytes) => r.Ok? && code == old(code) + bytes
        case Err(e) => r == Err(e)
      }
    {
      var encoded :- Encode(i);
      code := code + encoded;
      r := Ok(());
    }

    /** The name must be in the table already. */
    method AddPublicSymbol(name: seq<Byte>, offset: nat) returns (r: Result<()>)
      requires Valid()
      modifies this`symbols, this`symbolsNumber
      ensures Valid()
      ensures match FindFrom(strings, 0, name) {
        case Some(at) => r.Ok? && symbols == old(symbols) + [Symbol(at, offset)]
        case None => r == Err(InvalidString) && symbols == old(symbols)
      }
    {
      var at := FindStringOffset(name);
      if at.None? { return Err(InvalidString); }
      symbols := symbols + [Symbol(at.value, offset)];
      symbolsNumber := symbolsNumber + 1;
      r := Ok(());
    }

    method EncodeBytes() returns (output: seq<Byte>)
      ensures output == EncodeFile(Data())
    {
      hide U32, U16;
      output := U32(stringtabSize) + U32(globalAreaSize) + U32(symbolsNumber) + U32(MARKER) + U32(|schemas|);
      ghost var header := output;
      for k := 0 to |symbols|
        invariant output == header + SymbolBytes(symbols[..k])
      {
        assert symbols[..k + 1] == symbols[..k] + [symbols[k]];
        SymbolBytesAppend(symbols[..k], symbols[k]);
        output := output + U32(symbols[k].name);
        output := output + U32(symbols[k].offset);
      }
      assert symbols[..|symbols|] == symbols;
      output := output + strings;
      ghost var front := output;
      for k := 0 to |schemas|
        invariant output == front + SchemaBytes(schemas[..k])
      {
        assert schemas[..k + 1] == schemas[..k] + [schemas[k]];
        SchemaBytesAppend(schemas[..k], schemas[k]);
        var bytes := EncodeSchema(schemas[k]);
        output := output + bytes;
      }
      assert schemas[..|schemas|] == schemas;
      output := output + code;
    }

    static method EncodeSchema(s: StoredSchema) returns (output: seq<Byte>)
      ensures output == OneSchema(s)
    {
      hide U32, U16;
      output := U32(s.nameOffset) + U16(s.tag) + U16(|s.fieldOffsets|);
      ghost var front := output;
      for k := 0 to |s.fieldOffsets|
        invariant output == front + OffsetBytes(s.fieldOffsets[..k])
      {
        assert s.fieldOffsets[..k + 1] == s.fieldOffsets[..k] + [s.fieldOffsets[k]];
        OffsetBytesAppend(s.fieldOffsets[..k], s.fieldOffsets[k]);
        output := output + U32(s.fieldOffsets[k]);
      }
      assert s.fieldOffsets[..|s.fieldOffsets|] == s.fieldOffsets;
    }

    static method Parse(source: seq<Byte>) returns (r: Result<Bytefile>)
      ensures match ParseFile(source) {
        case Ok(c) => r.Ok? && fresh(r.value) && r.value.Data() == c && r.value.labels == map[]
        case Err(e) => r == Err(e)
      }
    {
      hide ReadU32, ReadU16, ParseSymbols, ParseSchemas, FindMain, CheckSymbols;
      var reader := new Reader(source);
      var stringtabSize :- reader.NextU32();
      var globalAreaSize :- reader.NextU32();
      var symbolsNumber :- reader.NextU32();
      var word :- reader.NextU32();
      var schemaCount, first := 0, Some(word);
      if word == MARKER {
        schemaCount :- reader.NextU32();
        first := None;
      }
      var symbols :- ReadSymbols(reader, symbolsNumber, first);
      var strings :- reader.Take(stringtabSize);
      var schemas :- ReadSchemas(reader, schemaCount, |strings|);
      var main :- FindMain(symbols, strings);
      if reader.pos > |source| { return Err(UnexpectedEof); }
      var code := source[reader.pos..];
      var _ :- CheckSymbols(symbols, |code| % TWO32, |strings| % TWO32);
      var file := new Bytefile.FromContents(
        Contents(stringtabSize, globalAreaSize, symbolsNumber, symbols, schemas, strings, code, main));
      r := Ok(file);
    }
  }

  lemma NothingLeft(labels: Labels, instrs: seq<Instr>)
    requires instrs == []
    ensures Emit(labels, instrs) == Ok([])
  {
  }
}
