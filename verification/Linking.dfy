/** Whole programs (crates/compiler-core/src/codegen/bcgen.rs, `generate`): modules arrive in
    dependency order and share one bytefile, one label counter and one global area. */
module Linking {
  import opened Results
  import opened Bytecode
  import opened Ast
  import opened Scoping
  import opened Codegen
  import opened Assembly
  import Semantics
  import StringTable
  import Utf8
  import RT = Runtime

  type Unit = Semantics.Unit

  datatype VariantDef = VariantDef(name: string, fields: seq<string>)

  /** A type's variants, in name order: a variant's tag is its position. */
  datatype TypeDef = TypeDef(name: string, variants: seq<VariantDef>)

  /** A module whose imports are resolved to entry labels and arities. */
  datatype ModuleDef = ModuleDef(
    name: string,
    types: seq<TypeDef>,
    imports: map<string, (string, nat)>,
    toplevel: seq<Stmt>,
    functions: seq<FunctionDef>)

  /** What the generator carries from one module to the next. */
  datatype Gen = Gen(
    variants: map<string, VariantInfo>,
    fieldIndices: map<string, nat>,
    schemas: seq<StoredSchema>,
    globals: nat,
    labels: nat,
    strings: Strings)

  const NEW_GEN := Gen(map[], map[], [], 0, 0, [])

  // Type definitions

  /** UTF-8 of an identifier. */
  function NameBytes(name: string): seq<Byte> {
    if name == [] then [] else Utf8.EncodeOne(name[0] as int) + NameBytes(name[1..])
  }

  function AddStrings(tab: Strings, names: seq<string>): (r: (seq<nat>, Strings))
    ensures |r.0| == |names| && StringTable.Grown(tab, r.1)
    decreases |names|
  {
    if names == [] then ([], tab)
    else
      var (offsets, tab1) := AddStrings(StringTable.Added(tab, NameBytes(names[0])), names[1..]);
      ([|tab|] + offsets, tab1)
  }

  /** A field name keeps the position it was first seen at, in whatever variant. */
  function AddFields(indices: map<string, nat>, fields: seq<string>, k: nat): map<string, nat>
    decreases |fields|
  {
    if fields == [] then indices
    else AddFields(if fields[0] in indices then indices else indices[fields[0] := k], fields[1..], k + 1)
  }

  function AddVariants(g: Gen, typeName: string, variants: seq<VariantDef>, tag: nat): (r: Gen)
    ensures StringTable.Grown(g.strings, r.strings) && r.globals == g.globals && r.labels == g.labels && g.schemas <= r.schemas
    decreases |variants|
  {
    if variants == [] then g
    else
      var v := variants[0];
      var (offsets, tab) := AddStrings(StringTable.Added(g.strings, NameBytes(typeName)), v.fields);
      var g1 := g.(
        variants := g.variants[v.name := VariantInfo(|g.schemas|, v.fields)],
        fieldIndices := AddFields(g.fieldIndices, v.fields, 0),
        schemas := g.schemas + [StoredSchema(|g.strings|, tag, offsets)],
        strings := tab);
      AddVariants(g1, typeName, variants[1..], tag + 1)
  }

  function AddTypes(g: Gen, types: seq<TypeDef>): (r: Gen)
    ensures StringTable.Grown(g.strings, r.strings) && r.globals == g.globals && r.labels == g.labels && g.schemas <= r.schemas
    decreases |types|
  {
    if types == [] then g else AddTypes(AddVariants(g, types[0].name, types[0].variants, 0), types[1..])
  }

  // The interpreter's schemas

  /** The C string at an offset of the table. */
  function CString(strings: Strings, offset: nat): seq<Byte> {
    if offset <= |strings| then StringTable.UpToNul(strings[offset..]) else []
  }

  function ReadSchema(strings: Strings, s: StoredSchema): RT.Schema {
    RT.Schema(CString(strings, s.nameOffset), s.tag,
      seq(|s.fieldOffsets|, i requires 0 <= i < |s.fieldOffsets| => CString(strings, s.fieldOffsets[i])))
  }

  /** The runtime library with the schemas of a bytefile: names are read from its string table. */
  function WithSchemas(lib: RT.Library, schemas: seq<StoredSchema>, strings: Strings): (r: RT.Library)
    ensures |r.schemas| == |schemas| && forall i :: 0 <= i < |schemas| ==> r.schemas[i] == ReadSchema(strings, schemas[i])
  {
    lib.(schemas := seq(|schemas|, i requires 0 <= i < |schemas| => ReadSchema(strings, schemas[i])))
  }

  // Units: a module's initialisation and its functions

  datatype NamedUnit = NamedUnit(name: string, unit: Unit)

  function Qualified(module_: string, definition: string): string { module_ + "::" + definition }

  function InitLabel(m: ModuleDef): string { Qualified(m.name, "<init>") }

  function FunctionTargets(module_: string, functions: seq<FunctionDef>): map<string, (string, nat)> {
    if functions == [] then map[]
    else
      var f := functions[0];
      map[f.name := (Qualified(module_, f.name), |f.parameters|)] + FunctionTargets(module_, functions[1..])
  }

  function ConfigOf(m: ModuleDef, g: Gen): Config {
    Config(FunctionTargets(m.name, m.functions) + m.imports, g.variants, g.fieldIndices)
  }

  function InitScope(globals: nat): Scope { Scope(false, 0, globals, map[], map[], map[]) }

  /** Argument slots; a repeated name means the last one. */
  function ArgSlots(parameters: seq<string>): (r: map<string, nat>)
    ensures forall x :: x in r ==> r[x] < |parameters|
  {
    if parameters == [] then map[]
    else
      var last := |parameters| - 1;
      ArgSlots(parameters[..last])[parameters[last] := last]
  }

  /** A function sees its module's globals as they stand after the top level. */
  function FunctionScope(top: Scope, parameters: seq<string>): Scope {
    Scope(true, 0, top.globalCounter, map[], top.globals, ArgSlots(parameters))
  }

  function FunctionUnits(m: ModuleDef, cfg: Config, top: Scope, functions: seq<FunctionDef>): seq<NamedUnit> {
    if functions == [] then []
    else
      var f := functions[0];
      [NamedUnit(Qualified(m.name, f.name), Semantics.Unit(cfg, FunctionScope(top, f.parameters), |f.parameters|, f.body))]
      + FunctionUnits(m, cfg, top, functions[1..])
  }

  function TopScope(m: ModuleDef, g: Gen): Scope { AfterBlock(ConfigOf(m, g), InitScope(g.globals), m.toplevel) }

  /** `g` already knows the module's types. */
  function UnitsOf(m: ModuleDef, g: Gen): seq<NamedUnit> {
    var cfg := ConfigOf(m, g);
    [NamedUnit(InitLabel(m), Semantics.Unit(cfg, InitScope(g.globals), 0, m.toplevel))]
    + FunctionUnits(m, cfg, TopScope(m, g), m.functions)
  }

  // Emission

  /** BEGIN's frame size: counted for functions, 0 for initialisation code. */
  function FrameSize(u: Unit): nat {
    if u.scope.inFunction then CountLocals(u.cfg, u.body) else 0
  }

  function UnitCode(u: Unit, body: Code): Code {
    [BEGIN(u.arity, FrameSize(u))] + body + Epilogue(u.scope.inFunction, u.body)
  }

  function EmitUnits(units: seq<NamedUnit>, n: nat, tab: Strings): (r: EmittedUnits)
    ensures r.Ok? ==> n <= r.value.0 && StringTable.Grown(tab, r.value.1)
    decreases |units|
  {
    if units == [] then Ok((n, tab, []))
    else
      var u := units[0].unit;
      var (env, body) :- EmitBlock(u.cfg, GenEnv(u.scope, n, [], tab), u.body);
      var (n', tab', rest) :- EmitUnits(units[1..], env.labels, env.strings);
      Ok((n', tab', [LABEL(units[0].name)] + UnitCode(u, body) + rest))
  }

  function EmitModules(ms: seq<ModuleDef>, g: Gen): (r: EmittedModules)
    ensures r.Ok? ==> StringTable.Grown(g.strings, r.value.0.strings) && g.labels <= r.value.0.labels && g.schemas <= r.value.0.schemas
    decreases |ms|
  {
    if ms == [] then Ok((g, [], []))
    else
      var m := ms[0];
      var g1 := AddTypes(g, m.types);
      var units := UnitsOf(m, g1);
      var (n, tab, code) :- EmitUnits(units, g1.labels, g1.strings);
      var g2 := g1.(globals := TopScope(m, g1).globalCounter, labels := n, strings := tab);
      var (g3, units', code') :- EmitModules(ms[1..], g2);
      Ok((g3, units + units', code + code'))
  }

  type EmittedUnits = Result<(nat, Strings, Code)>

  type EmittedModules = Result<(Gen, seq<NamedUnit>, Code)>

  // What an emission that succeeds holds

  function UnitsLabels(r: EmittedUnits): nat { match r case Ok((n, _, _)) => n case Err(_) => 0 }

  function UnitsTable(r: EmittedUnits): Strings { match r case Ok((_, tab, _)) => tab case Err(_) => [] }

  function UnitsCode(r: EmittedUnits): Code { match r case Ok((_, _, code)) => code case Err(_) => [] }

  function ModulesGen(r: EmittedModules): Gen { match r case Ok((g, _, _)) => g case Err(_) => NEW_GEN }

  function ModulesUnits(r: EmittedModules): seq<NamedUnit> { match r case Ok((_, units, _)) => units case Err(_) => [] }

  function ModulesCode(r: EmittedModules): Code { match r case Ok((_, _, code)) => code case Err(_) => [] }

  function InitCalls(ms: seq<ModuleDef>): Code {
    if ms == [] then [] else [CALL(Named(InitLabel(ms[0])), 0)] + [DROP] + InitCalls(ms[1..])
  }

  const MAIN := "main"

  function MainCode(ms: seq<ModuleDef>): Code {
    [LABEL(MAIN)] + [BEGIN(0, 0)] + InitCalls(ms) + ([NULL] + [END])
  }

  /** The instructions handed to the assembler. */
  function EmitProgram(ms: seq<ModuleDef>): EmittedModules {
    var (g, units, code) :- EmitModules(ms, NEW_GEN);
    Ok((g, units, code + MainCode(ms)))
  }

  function ProgramGen(ms: seq<ModuleDef>): Gen { ModulesGen(EmitProgram(ms)) }

  function ProgramUnits(ms: seq<ModuleDef>): seq<NamedUnit> { ModulesUnits(EmitProgram(ms)) }

  function ProgramCode(ms: seq<ModuleDef>): Code { ModulesCode(EmitProgram(ms)) }

  // Meaning

  /** Units by entry address. */
  function UnitMap(labels: Labels, units: seq<NamedUnit>): map<nat, Unit> {
    if units == [] then map[]
    else
      UnitMap(labels, units[1..])
      + (if units[0].name in labels then map[labels[units[0].name] := units[0].unit] else map[])
  }

  function WorldOf(labels: Labels, units: seq<NamedUnit>, lib: RT.Library): Semantics.World {
    Semantics.World(labels, UnitMap(labels, units), lib)
  }

  /** Every module is initialised once, in order. */
  function EvalProgram(w: Semantics.World, fuel: nat, ms: seq<ModuleDef>, m: Semantics.Mem): (r: Result<Semantics.Mem>)
    ensures r.Ok? ==> Semantics.SameFrame(m, r.value)
    decreases |ms|
  {
    if ms == [] then Ok(m)
    else
      var (_, m1) :- Semantics.Invoke(w, fuel, Static(InitLabel(ms[0])), [], [], m);
      EvalProgram(w, fuel, ms[1..], m1)
  }

  /** All globals start at integer 0, with an empty heap and nothing printed. */
  function StartMem(globals: nat): Semantics.Mem { Semantics.Mem(RT.Zeros(globals), [], [], [], []) }
}
