/** The bytefile container (crates/vm-core/src/bytefile.rs): its sections as bytes, and back. */
module Container {
  import opened Results
  import opened Bytecode
  import opened Numbers
  import opened Encoding
  import StringTable

  /** String offset and code offset. */
  datatype Symbol = Symbol(name: nat, offset: nat)

  /** Everything a file holds; the label map is not written. */
  datatype Contents = Contents(
    stringtabSize: nat,
    globalAreaSize: nat,
    symbolsNumber: nat,
    symbols: seq<Symbol>,
    schemas: seq<StoredSchema>,
    strings: seq<Byte>,
    code: seq<Byte>,
    main: nat)

  const MARKER := 0xFFFF_FFFF

  predicate Fits32(n: int) { 0 <= n < TWO32 }

  predicate Fits16(n: int) { 0 <= n < 65536 }

  // Writing

  function U32(n: int): (bs: seq<Byte>)
    ensures |bs| == 4
  {
    ToLe(n % TWO32, 4)
  }

  function U16(n: int): (bs: seq<Byte>)
    ensures |bs| == 2
  {
    ToLe(n % 65536, 2)
  }

  function SymbolBytes(symbols: seq<Symbol>): (bs: seq<Byte>)
    ensures |bs| == 8 * |symbols|
  {
    if symbols == [] then [] else U32(symbols[0].name) + U32(symbols[0].offset) + SymbolBytes(symbols[1..])
  }

  function OffsetBytes(offsets: seq<nat>): (bs: seq<Byte>)
    ensures |bs| == 4 * |offsets|
  {
    if offsets == [] then [] else U32(offsets[0]) + OffsetBytes(offsets[1..])
  }

  function SchemaBytes(schemas: seq<StoredSchema>): seq<Byte> {
    if schemas == [] then []
    else
      var s := schemas[0];
      U32(s.nameOffset) + U16(s.tag) + U16(|s.fieldOffsets|) + OffsetBytes(s.fieldOffsets) + SchemaBytes(schemas[1..])
  }

  /** `encode`. */
  function EncodeFile(c: Contents): seq<Byte> {
    U32(c.stringtabSize) + U32(c.globalAreaSize) + U32(c.symbolsNumber) + U32(MARKER) + U32(|c.schemas|)
    + SymbolBytes(c.symbols) + c.strings + SchemaBytes(c.schemas) + c.code
  }

  // Reading

  function ReadU32(bs: seq<Byte>, pos: nat): (r: Result<nat>)
    ensures r.Ok? ==> Fits32(r.value)
  {
    if pos + 4 > |bs| then Err(UnexpectedEof)
    else
      FromLeBound(bs[pos..pos + 4]);
      PowSizes();
      Ok(FromLe(bs[pos..pos + 4]))
  }

  function ReadU16(bs: seq<Byte>, pos: nat): (r: Result<nat>)
    ensures r.Ok? ==> Fits16(r.value)
  {
    if pos + 2 > |bs| then Err(UnexpectedEof)
    else
      FromLeBound(bs[pos..pos + 2]);
      PowSizes();
      Ok(FromLe(bs[pos..pos + 2]))
  }

  /** In the older layout the first symbol's name was read already. */
  function ParseSymbols(bs: seq<Byte>, pos: nat, count: nat, first: Option<nat>): (r: Result<(seq<Symbol>, nat)>)
    ensures r.Ok? ==> |r.value.0| == count
    decreases count
  {
    if count == 0 then Ok(([], pos))
    else
      var name :- (if first.Some? then Ok(first.value) else ReadU32(bs, pos));
      var pos1 := if first.Some? then pos else pos + 4;
      var offset :- ReadU32(bs, pos1);
      var (rest, end) :- ParseSymbols(bs, pos1 + 4, count - 1, None);
      Ok(([Symbol(name, offset)] + rest, end))
  }

  function ParseOffsets(bs: seq<Byte>, pos: nat, count: nat): (r: Result<(seq<nat>, nat)>)
    ensures r.Ok? ==> |r.value.0| == count
    decreases count
  {
    if count == 0 then Ok(([], pos))
    else
      var first :- ReadU32(bs, pos);
      var (rest, end) :- ParseOffsets(bs, pos + 4, count - 1);
      Ok(([first] + rest, end))
  }

  predicate OffsetsIn(offsets: seq<nat>, size: nat) { forall o :: o in offsets ==> o < size }

  function ParseSchema(bs: seq<Byte>, pos: nat, size: nat): Result<(StoredSchema, nat)> {
    var name :- ReadU32(bs, pos);
    var tag :- ReadU16(bs, pos + 4);
    var count :- ReadU16(bs, pos + 6);
    var (offsets, end) :- ParseOffsets(bs, pos + 8, count);
    if name >= size || !OffsetsIn(offsets, size) then Err(InvalidString)
    else Ok((StoredSchema(name, tag, offsets), end))
  }

  function ParseSchemas(bs: seq<Byte>, pos: nat, count: nat, size: nat): (r: Result<(seq<StoredSchema>, nat)>)
    ensures r.Ok? ==> |r.value.0| == count
    decreases count
  {
    if count == 0 then Ok(([], pos))
    else
      var (first, next) :- ParseSchema(bs, pos, size);
      var (rest, end) :- ParseSchemas(bs, next, count - 1, size);
      Ok(([first] + rest, end))
  }

  const MAIN_NAME: seq<Byte> := [109, 97, 105, 110]

  /** The first symbol called "main"; looking a name up beyond the table panics. */
  function FindMain(symbols: seq<Symbol>, strings: seq<Byte>): Result<nat> {
    if symbols == [] then Err(MainNotFound)
    else if symbols[0].name > |strings| then Err(Undefined)
    else if StringTable.StringAt(strings, symbols[0].name) == Ok(MAIN_NAME) then Ok(symbols[0].offset)
    else FindMain(symbols[1..], strings)
  }

  /** Every symbol points into the code and into the string table; the first that does not
      decides the error. */
  function CheckSymbols(symbols: seq<Symbol>, codeSize: nat, stringsSize: nat): (r: Result<()>)
    ensures r.Ok? <==> forall s :: s in symbols ==> s.offset < codeSize && s.name < stringsSize
  {
    if symbols == [] then Ok(())
    else if symbols[0].offset >= codeSize then Err(InvalidSymbol)
    else if symbols[0].name >= stringsSize then Err(InvalidString)
    else CheckSymbols(symbols[1..], codeSize, stringsSize)
  }

  /** `parse`; section sizes are compared as 32-bit numbers. */
  function ParseFile(bs: seq<Byte>): Result<Contents> {
    var stringtabSize :- ReadU32(bs, 0);
    var globalAreaSize :- ReadU32(bs, 4);
    var symbolsNumber :- ReadU32(bs, 8);
    var word :- ReadU32(bs, 12);
    var (schemaCount, first, pos) :-
      (if word == MARKER then
         var count :- ReadU32(bs, 16);
         Ok((count, None, 20))
       else Ok((0, Some(word), 16)));
    var (symbols, pos1) :- ParseSymbols(bs, pos, symbolsNumber, first);
    var _ :- Need(pos1 + stringtabSize <= |bs|, UnexpectedEof);
    var strings := bs[pos1..pos1 + stringtabSize];
    var (schemas, pos2) :- ParseSchemas(bs, pos1 + stringtabSize, schemaCount, |strings|);
    var main :- FindMain(symbols, strings);
    var _ :- Need(pos2 <= |bs|, UnexpectedEof);
    var code := bs[pos2..];
    var _ :- CheckSymbols(symbols, |code| % TWO32, |strings| % TWO32);
    Ok(Contents(stringtabSize, globalAreaSize, symbolsNumber, symbols, schemas, strings, code, main))
  }

  // Round trip

  predicate SchemaOk(s: StoredSchema, size: nat) {
    s.nameOffset < size && Fits32(s.nameOffset) && Fits16(s.tag) && Fits16(|s.fieldOffsets|) && OffsetsIn(s.fieldOffsets, size)
    && forall o :: o in s.fieldOffsets ==> Fits32(o)
  }

  /** Sizes are recorded and fit their fields, every offset is in range, and the first symbol
      called main is the entry point. */
  predicate WellFormed(c: Contents) {
    && c.stringtabSize == |c.strings| && Fits32(|c.strings|) && Fits32(c.globalAreaSize)
    && c.symbolsNumber == |c.symbols| && Fits32(|c.symbols|) && Fits32(|c.schemas|)
    && (forall s :: s in c.symbols ==> Fits32(s.name) && Fits32(s.offset))
    && (forall s :: s in c.schemas ==> SchemaOk(s, |c.strings|))
    && FindMain(c.symbols, c.strings) == Ok(c.main)
    && CheckSymbols(c.symbols, |c.code| % TWO32, |c.strings|).Ok?
  }

  lemma HoldsU32(bs: seq<Byte>, pos: nat, n: nat)
    requires Holds(bs, pos, U32(n)) && Fits32(n)
    ensures ReadU32(bs, pos) == Ok(n)
  {
    PowSizes();
    FromToLe(n, 4);
  }

  lemma HoldsU16(bs: seq<Byte>, pos: nat, n: nat)
    requires Holds(bs, pos, U16(n)) && Fits16(n)
    ensures ReadU16(bs, pos) == Ok(n)
  {
    PowSizes();
    FromToLe(n, 2);
  }

  lemma {:induction false} HoldsSymbols(bs: seq<Byte>, pos: nat, symbols: seq<Symbol>)
    requires Holds(bs, pos, SymbolBytes(symbols)) && forall s :: s in symbols ==> Fits32(s.name) && Fits32(s.offset)
    ensures ParseSymbols(bs, pos, |symbols|, None) == Ok((symbols, pos + 8 * |symbols|))
    decreases |symbols|
  {
    hide Holds, U32;
    if symbols != [] {
      var s := symbols[0];
      HoldsSplit(bs, pos, U32(s.name) + U32(s.offset), SymbolBytes(symbols[1..]));
      HoldsSplit(bs, pos, U32(s.name), U32(s.offset));
      HoldsU32(bs, pos, s.name);
      HoldsU32(bs, pos + 4, s.offset);
      HoldsSymbols(bs, pos + 8, symbols[1..]);
      assert [s] + symbols[1..] == symbols;
    }
  }

  lemma {:induction false} HoldsOffsets(bs: seq<Byte>, pos: nat, offsets: seq<nat>)
    requires Holds(bs, pos, OffsetBytes(offsets)) && forall o :: o in offsets ==> Fits32(o)
    ensures ParseOffsets(bs, pos, |offsets|) == Ok((offsets, pos + 4 * |offsets|))
    decreases |offsets|
  {
    hide Holds, U32;
    if offsets != [] {
      HoldsSplit(bs, pos, U32(offsets[0]), OffsetBytes(offsets[1..]));
      HoldsU32(bs, pos, offsets[0]);
      HoldsOffsets(bs, pos + 4, offsets[1..]);
      assert [offsets[0]] + offsets[1..] == offsets;
    }
  }

  lemma HoldsSchema(bs: seq<Byte>, pos: nat, s: StoredSchema, size: nat)
    requires SchemaOk(s, size)
    requires Holds(bs, pos, U32(s.nameOffset) + U16(s.tag) + U16(|s.fieldOffsets|) + OffsetBytes(s.fieldOffsets))
    ensures ParseSchema(bs, pos, size) == Ok((s, pos + 8 + 4 * |s.fieldOffsets|))
  {
    hide Holds, U32, U16;
    var a, b, c, d := U32(s.nameOffset), U16(s.tag), U16(|s.fieldOffsets|), OffsetBytes(s.fieldOffsets);
    HoldsSplit(bs, pos, a + b + c, d);
    HoldsSplit(bs, pos, a + b, c);
    HoldsSplit(bs, pos, a, b);
    HoldsU32(bs, pos, s.nameOffset);
    HoldsU16(bs, pos + 4, s.tag);
    HoldsU16(bs, pos + 6, |s.fieldOffsets|);
    HoldsOffsets(bs, pos + 8, s.fieldOffsets);
  }

  lemma {:induction false} HoldsSchemas(bs: seq<Byte>, pos: nat, schemas: seq<StoredSchema>, size: nat)
    requires Holds(bs, pos, SchemaBytes(schemas)) && forall s :: s in schemas ==> SchemaOk(s, size)
    ensures ParseSchemas(bs, pos, |schemas|, size) == Ok((schemas, pos + |SchemaBytes(schemas)|))
    decreases |schemas|
  {
    hide Holds, U32, U16, ParseSchema, OffsetBytes, SchemaOk;
    if schemas != [] {
      var s := schemas[0];
      var first := U32(s.nameOffset) + U16(s.tag) + U16(|s.fieldOffsets|) + OffsetBytes(s.fieldOffsets);
      HoldsSplit(bs, pos, first, SchemaBytes(schemas[1..]));
      HoldsSchema(bs, pos, s, size);
      HoldsSchemas(bs, pos + |first|, schemas[1..], size);
      assert [s] + schemas[1..] == schemas;
    }
  }

  lemma HoldsAll(bs: seq<Byte>)
    ensures Holds(bs, 0, bs)
  {
    assert bs[0..|bs|] == bs;
  }

  /** The header words and the sections after them, wherever they end. */
  lemma HeaderHolds(c: Contents)
    ensures var bs := EncodeFile(c);
      && Holds(bs, 0, U32(c.stringtabSize)) && Holds(bs, 4, U32(c.globalAreaSize)) && Holds(bs, 8, U32(c.symbolsNumber))
      && Holds(bs, 12, U32(MARKER)) && Holds(bs, 16, U32(|c.schemas|))
    ensures var bs, pos1 := EncodeFile(c), 20 + 8 * |c.symbols|;
      && Holds(bs, 20, SymbolBytes(c.symbols)) && Holds(bs, pos1, c.strings)
      && Holds(bs, pos1 + |c.strings|, SchemaBytes(c.schemas))
      && pos1 + |c.strings| + |SchemaBytes(c.schemas)| <= |bs|
      && bs[pos1 + |c.strings| + |SchemaBytes(c.schemas)|..] == c.code
  {
    hide U32, SymbolBytes, SchemaBytes, Holds;
    var bs := EncodeFile(c);
    var h1 := U32(c.stringtabSize) + U32(c.globalAreaSize);
    var h2 := h1 + U32(c.symbolsNumber) + U32(MARKER);
    var h3 := h2 + U32(|c.schemas|);
    var h4 := h3 + SymbolBytes(c.symbols);
    var h5 := h4 + c.strings;
    HoldsAll(bs);
    assert bs == h5 + SchemaBytes(c.schemas) + c.code;
    HoldsSplit(bs, 0, h5 + SchemaBytes(c.schemas), c.code);
    HoldsSplit(bs, 0, h5, SchemaBytes(c.schemas));
    HoldsSplit(bs, 0, h4, c.strings);
    HoldsSplit(bs, 0, h3, SymbolBytes(c.symbols));
    HoldsSplit(bs, 0, h2, U32(|c.schemas|));
    HoldsSplit(bs, 0, h1 + U32(c.symbolsNumber), U32(MARKER));
    HoldsSplit(bs, 0, h1, U32(c.symbolsNumber));
    HoldsSplit(bs, 0, U32(c.stringtabSize), U32(c.globalAreaSize));
    CodeAtEnd(bs, h5 + SchemaBytes(c.schemas), c.code);
  }

  lemma CodeAtEnd(bs: seq<Byte>, front: seq<Byte>, code: seq<Byte>)
    requires bs == front + code
    ensures bs[|front|..] == code
  {
  }

  lemma WrittenParses(c: Contents)
    requires WellFormed(c)
    ensures ParseFile(EncodeFile(c)) == Ok(c)
  {
    hide EncodeFile, U32, U16, SymbolBytes, SchemaBytes, ParseSymbols, ParseSchemas, ReadU32, FindMain, CheckSymbols, SchemaOk;
    var bs, pos1 := EncodeFile(c), 20 + 8 * |c.symbols|;
    HeaderHolds(c);
    HoldsU32(bs, 0, c.stringtabSize);
    HoldsU32(bs, 4, c.globalAreaSize);
    HoldsU32(bs, 8, c.symbolsNumber);
    HoldsU32(bs, 12, MARKER);
    HoldsU32(bs, 16, |c.schemas|);
    HoldsSymbols(bs, 20, c.symbols);
    HoldsSchemas(bs, pos1 + |c.strings|, c.schemas, |c.strings|);
    assert bs[pos1..pos1 + |c.strings|] == c.strings;
  }

  lemma {:induction false} ParsedSymbols(bs: seq<Byte>, pos: nat, count: nat, first: Option<nat>)
    requires ParseSymbols(bs, pos, count, first).Ok? && (first.Some? ==> Fits32(first.value))
    ensures forall s :: s in ParseSymbols(bs, pos, count, first).value.0 ==> Fits32(s.name) && Fits32(s.offset)
    decreases count
  {
    if count > 0 { ParsedSymbols(bs, (if first.Some? then pos else pos + 4) + 4, count - 1, None); }
  }

  lemma {:induction false} ParsedOffsets(bs: seq<Byte>, pos: nat, count: nat)
    requires ParseOffsets(bs, pos, count).Ok?
    ensures forall o :: o in ParseOffsets(bs, pos, count).value.0 ==> Fits32(o)
    decreases count
  {
    if count > 0 { ParsedOffsets(bs, pos + 4, count - 1); }
  }

  lemma {:induction false} ParsedSchemas(bs: seq<Byte>, pos: nat, count: nat, size: nat)
    requires ParseSchemas(bs, pos, count, size).Ok?
    ensures forall s :: s in ParseSchemas(bs, pos, count, size).value.0 ==> SchemaOk(s, size)
    decreases count
  {
    if count > 0 {
      var (s, next) := ParseSchema(bs, pos, size).value;
      ParsedOffsets(bs, pos + 8, |s.fieldOffsets|);
      ParsedSchemas(bs, next, count - 1, size);
    }
  }

  /** Whatever parses, in either layout, is well formed. */
  lemma ParsedIsWellFormed(bs: seq<Byte>)
    requires ParseFile(bs).Ok?
    ensures WellFormed(ParseFile(bs).value)
  {
    hide ParseSymbols, ParseSchemas, FindMain, CheckSymbols, SchemaOk, FromLe;
    var word := ReadU32(bs, 12).value;
    var (schemaCount, first, pos) := if word == MARKER then (ReadU32(bs, 16).value, None, 20) else (0, Some(word), 16);
    var symbolsNumber, stringtabSize := ReadU32(bs, 8).value, ReadU32(bs, 0).value;
    ParsedSymbols(bs, pos, symbolsNumber, first);
    var pos1 := ParseSymbols(bs, pos, symbolsNumber, first).value.1;
    ParsedSchemas(bs, pos1 + stringtabSize, schemaCount, stringtabSize);
  }

  /** A file survives writing and reading exactly when it is well formed. */
  lemma SurvivesIff(c: Contents)
    ensures ParseFile(EncodeFile(c)) == Ok(c) <==> WellFormed(c)
  {
    hide ParseFile, EncodeFile, WellFormed;
    if WellFormed(c) { WrittenParses(c); }
    if ParseFile(EncodeFile(c)) == Ok(c) { ParsedIsWellFormed(EncodeFile(c)); }
  }
}
