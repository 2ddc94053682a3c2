/** Two-pass assembly: the first pass measures instructions to place the labels, the second
    fills the jump targets in and emits bytes (crates/vm-core/src/bytefile.rs). */
module Assembly {
  import opened Results
  import opened Bytecode
  import opened Numbers
  import opened Encoding

  type Labels = map<string, nat>

  /** A label's offset, wherever it has one. */
  function OffsetOf(labels: Labels, name: string): nat { if name in labels then labels[name] else 0 }

  type Program = map<nat, Decoded>

  /** How many bytes an instruction takes: nothing for a label, else opcode and operands. */
  function Size(i: Instr): nat {
    if i.LABEL? then 0
    else if HasOperand(i) || (i.CALLBUILTIN? && i.n != 0) then 5
    else if i.BEGIN? || i.CBEGIN? || i.CLOSURE? || i.CALL? || i.CONSTF? then 9
    else if i.SLICE? || i.BOOL? then 2
    else 1
  }

  predicate HasOperand(i: Instr) {
    i.CONST? || i.STRING? || i.TUPLE? || i.JMP? || i.LOAD? || i.STORE? || i.CJMP? || i.CALLC? || i.ARRAY?
    || i.VARIANT? || i.LINE? || i.FIELD? || i.SETFIELD? || i.ISVARIANT?
  }

  function Extent(code: seq<Instr>): nat {
    if code == [] then 0 else Size(code[0]) + Extent(code[1..])
  }

  /** The offset after code that starts at `ip`. */
  function Past(ip: nat, code: seq<Instr>): nat { ip + Extent(code) }

  /** Pass one. */
  function Place(code: seq<Instr>, offset: nat, labels: Labels): Result<Labels> {
    if code == [] then Ok(labels)
    else if code[0].LABEL? then
      if !FitsI32(offset) then Err(EndOfCode)
      else if code[0].mark in labels then Err(DuplicateLabel)
      else Place(code[1..], offset, labels[code[0].mark := offset])
    else Place(code[1..], offset + Size(code[0]), labels)
  }

  function Resolved(labels: Labels, dest: Label): Label {
    if dest.name in labels then Label(dest.name, Some(labels[dest.name])) else dest
  }

  function Resolve(labels: Labels, i: Instr): Instr {
    if i.JMP? then JMP(Resolved(labels, i.dest))
    else if i.CJMP? then CJMP(Resolved(labels, i.dest), i.kind)
    else if i.CALL? then CALL(Resolved(labels, i.dest), i.n)
    else if i.CLOSURE? then CLOSURE(Resolved(labels, i.dest), i.arity)
    else i
  }

  /** Pass two. */
  function Emit(labels: Labels, code: seq<Instr>): Result<seq<Byte>> {
    if code == [] then Ok([])
    else
      var first :- Encode(Resolve(labels, code[0]));
      var rest :- Emit(labels, code[1..]);
      Ok(first + rest)
  }

  /** Every instruction a code section holds, by the offset it is read at. */
  function DecodedAt(bytes: seq<Byte>): Program {
    map ip: nat | 0 <= ip < |bytes| && Fetch(bytes, ip).Ok? :: Fetch(bytes, ip).value
  }

  function Target(labels: Labels, i: Instr): Instr { Erase(Resolve(labels, i)) }

  /** The labelled code stands in the program at `offset`: each instruction is read at its
      offset and ends where the next begins, and each label names its place. */
  predicate CodeAt(program: Program, labels: Labels, offset: nat, code: seq<Instr>)
    decreases |code|
  {
    code == [] ||
    (if code[0].LABEL? then
       && code[0].mark in labels && labels[code[0].mark] == offset
       && CodeAt(program, labels, offset, code[1..])
     else
       && offset in program
       && program[offset] == Decoded(Target(labels, code[0]), offset + Size(code[0]))
       && CodeAt(program, labels, offset + Size(code[0]), code[1..]))
  }

  predicate LabelsFit(labels: Labels) { forall l :: l in labels ==> FitsI32(labels[l]) }

  predicate AllCodable(code: seq<Instr>) { forall i :: i in code ==> Codable(i) }

  lemma {:induction false} PlaceGrows(code: seq<Instr>, offset: nat, labels: Labels)
    requires Place(code, offset, labels).Ok? && LabelsFit(labels)
    ensures LabelsFit(Place(code, offset, labels).value)
    ensures forall l :: l in labels ==>
      l in Place(code, offset, labels).value && Place(code, offset, labels).value[l] == labels[l]
  {
    if code != [] {
      if code[0].LABEL? {
        PlaceGrows(code[1..], offset, labels[code[0].mark := offset]);
      } else {
        PlaceGrows(code[1..], offset + Size(code[0]), labels);
      }
    }
  }

  /** Filling a target in never changes a size. */
  lemma SizeIsEncoded(labels: Labels, i: Instr)
    requires Encode(Resolve(labels, i)).Ok?
    ensures |Encode(Resolve(labels, i)).value| == Size(i)
    ensures (Size(i) == 0 <==> i.LABEL?) && Resolve(labels, i).LABEL? == i.LABEL?
  {
  }

  lemma ResolvedCodable(labels: Labels, i: Instr)
    requires LabelsFit(labels) && Codable(i)
    ensures Codable(Resolve(labels, i))
  {
  }

  /** The two passes agree: code assembled after `before` is read back, instruction by
      instruction, from the very offsets the first pass gave to the labels. */
  lemma {:induction false} AssembledCodeAt(before: seq<Byte>, code: seq<Instr>, after: seq<Byte>,
                                           start: Labels, labels: Labels)
    requires LabelsFit(start) && AllCodable(code)
    requires Place(code, |before|, start).Ok?
    requires LabelsFit(labels)
    requires forall l :: l in Place(code, |before|, start).value ==>
      l in labels && labels[l] == Place(code, |before|, start).value[l]
    requires Emit(labels, code).Ok?
    ensures CodeAt(DecodedAt(before + Emit(labels, code).value + after), labels, |before|, code)
    ensures Extent(code) == |Emit(labels, code).value|
    decreases |code|
  {
    hide Encode, Fetch, Codable, Resolve, Size, Erase;
    if code != [] {
      var i, rest := code[0], code[1..];
      var first, more := Encode(Resolve(labels, i)).value, Emit(labels, rest).value;
      var bytes := before + Emit(labels, code).value + after;
      SizeIsEncoded(labels, i);
      assert bytes == (before + first) + more + after;
      if i.LABEL? {
        assert before + first == before;
        PlaceGrows(rest, |before|, start[i.mark := |before|]);
        AssembledCodeAt(before, rest, after, start[i.mark := |before|], labels);
      } else {
        ResolvedCodable(labels, i);
        assert bytes[|before|..|before| + |first|] == first;
        FetchUndoesEncode(bytes, |before|, Resolve(labels, i));
        AssembledCodeAt(before + first, rest, after, start, labels);
      }
    }
  }

  lemma {:induction false} ExtentSplit(a: seq<Instr>, b: seq<Instr>)
    ensures Extent(a + b) == Extent(a) + Extent(b)
  {
    if a == [] {
      assert a + b == b;
    } else {
      ExtentSplit(a[1..], b);
      assert (a + b)[1..] == a[1..] + b;
    }
  }

  lemma {:induction false} CodeAtSplit(program: Program, labels: Labels, offset: nat, a: seq<Instr>, b: seq<Instr>)
    requires CodeAt(program, labels, offset, a + b)
    ensures CodeAt(program, labels, offset, a) && CodeAt(program, labels, offset + Extent(a), b)
    ensures Extent(a + b) == Extent(a) + Extent(b)
    decreases |a|
  {
    ExtentSplit(a, b);
    if a == [] {
      assert a + b == b;
    } else {
      assert (a + b)[1..] == a[1..] + b && (a + b)[0] == a[0];
      if a[0].LABEL? {
        CodeAtSplit(program, labels, offset, a[1..], b);
      } else {
        CodeAtSplit(program, labels, offset + Size(a[0]), a[1..], b);
      }
    }
  }

  /** The reading of `CodeAt` by index: the k-th instruction sits at the total size of those
      before it, whatever execution does, and a jump to a label leads to the offset of the
      instruction after that label. */
  lemma ExtentOne(i: Instr)
    ensures Extent([i]) == Size(i)
  {
  }

  lemma {:induction false} CodeAtIndex(program: Program, labels: Labels, offset: nat, code: seq<Instr>, k: nat)
    requires CodeAt(program, labels, offset, code) && k < |code|
    ensures var here := offset + Extent(code[..k]);
      if code[k].LABEL? then code[k].mark in labels && labels[code[k].mark] == here
      else here in program && program[here] == Decoded(Target(labels, code[k]), offset + Extent(code[..k + 1]))
    decreases k
  {
    hide Target;
    if k == 0 {
      assert code[..1] == [code[0]];
      ExtentOne(code[0]);
    } else {
      CodeAtIndex(program, labels, offset + Size(code[0]), code[1..], k - 1);
      assert code[..k][1..] == code[1..][..k - 1] && code[..k + 1][1..] == code[1..][..k];
    }
  }

  /** After a successful first pass no label is defined twice. */
  lemma {:induction false} PlacedOnce(code: seq<Instr>, offset: nat, labels: Labels, j: nat, k: nat)
    requires Place(code, offset, labels).Ok?
    requires j < k < |code| && code[j].LABEL? && code[k].LABEL?
    ensures code[j].mark != code[k].mark
  {
    if j == 0 {
      PlacedFresh(code[1..], offset, labels[code[0].mark := offset], k - 1);
    } else if code[0].LABEL? {
      PlacedOnce(code[1..], offset, labels[code[0].mark := offset], j - 1, k - 1);
    } else {
      PlacedOnce(code[1..], offset + Size(code[0]), labels, j - 1, k - 1);
    }
  }

  lemma {:induction false} PlacedFresh(code: seq<Instr>, offset: nat, labels: Labels, k: nat)
    requires Place(code, offset, labels).Ok? && k < |code| && code[k].LABEL?
    ensures code[k].mark !in labels
  {
    if k > 0 {
      if code[0].LABEL? {
        PlacedFresh(code[1..], offset, labels[code[0].mark := offset], k - 1);
      } else {
        PlacedFresh(code[1..], offset + Size(code[0]), labels, k - 1);
      }
    }
  }
}
