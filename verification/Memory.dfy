/** The runtime's objects and their reference counts, changed in place (runtime/core.c).
    The methods do what the functions of RefCount say. */
module Memories {
  import opened Results
  import opened Bytecode
  import opened RefCount
  import RT = Runtime

  lemma DecTwo(h: RHeap, x: RVal, y: RVal)
    ensures DecAll(h, [x, y]) == if Dec(h, x).Ok? then Dec(Dec(h, x).value, y) else Dec(h, x)
  {
    assert [x, y][1..] == [y];
    if Dec(h, x).Ok? { DecOne(Dec(h, x).value, y); }
  }

  lemma DecOne(h: RHeap, x: RVal)
    ensures DecAll(h, [x]) == Dec(h, x)
  {
    assert [x][1..] == [];
  }

  class Memory {
    var objs: seq<Cell>
    var flts: seq<FCell>

    function Heap(): RHeap
      reads this
    {
      RHeap(objs, flts)
    }

    constructor ()
      ensures Heap() == RHeap([], [])
    {
      objs, flts := [], [];
    }

    /** RAP_inc_ref; false when the object is gone. */
    method IncRef(v: RVal) returns (ok: bool)
      modifies this
      ensures match Inc(old(Heap()), v) case Ok(h) => ok && Heap() == h case Err(_) => !ok
    {
      match v {
        case RFlt(c) =>
          if c >= |flts| || flts[c].count == 0 { return false; }
          flts := flts[c := FCell(flts[c].count + 1, flts[c].f)];
        case RRef(a) =>
          if a >= |objs| || objs[a].Freed? || objs[a].count == 0 { return false; }
          objs := objs[a := Live(objs[a].count + 1, objs[a].body)];
        case _ =>
      }
      return true;
    }

    method IncAllRefs(vs: seq<RVal>) returns (ok: bool)
      modifies this
      ensures match IncAll(old(Heap()), vs) case Ok(h) => ok && Heap() == h case Err(_) => !ok
    {
      for i := 0 to |vs|
        invariant IncAll(Heap(), vs[i..]) == IncAll(old(Heap()), vs)
      {
        assert vs[i..][1..] == vs[i + 1..];
        ok := IncRef(vs[i]);
        if !ok { return; }
      }
      return true;
    }

    /** RAP_dec_ref: the last reference takes the object with it. */
    method DecRef(v: RVal) returns (ok: bool)
      modifies this
      ensures match Dec(old(Heap()), v) case Ok(h) => ok && Heap() == h case Err(_) => !ok
      ensures LiveSet(objs) <= old(LiveSet(objs))
      decreases LiveSet(objs), 1
    {
      match v {
        case RFlt(c) =>
          if c >= |flts| || flts[c].count == 0 { return false; }
          flts := flts[c := FCell(flts[c].count - 1, flts[c].f)];
          return true;
        case RRef(a) =>
          if a >= |objs| || objs[a].Freed? || objs[a].count == 0 { return false; }
          if objs[a].count > 1 {
            objs := objs[a := Live(objs[a].count - 1, objs[a].body)];
            return true;
          }
          ok := FreeObject(a);
        case _ => return true;
      }
    }

    /** RAP_free_object: everything the object held is released, one after another. The cell
        is given up first here and last in the C code; nothing looks at it in between. */
    method FreeObject(a: nat) returns (ok: bool)
      requires a < |objs| && objs[a].Live?
      modifies this
      ensures match DecAll(Free(old(Heap()), a), Kids(old(objs)[a].body)) case Ok(h) => ok && Heap() == h case Err(_) => !ok
      ensures LiveSet(objs) < old(LiveSet(objs))
      decreases LiveSet(objs), 0
    {
      FreeShrinks(Heap(), a);
      var kids := Kids(objs[a].body);
      objs := objs[a := Freed(ViewObj(flts, objs[a].body))];
      ok := DecAllRefs(kids);
    }

    method DecAllRefs(vs: seq<RVal>) returns (ok: bool)
      modifies this
      ensures match DecAll(old(Heap()), vs) case Ok(h) => ok && Heap() == h case Err(_) => !ok
      ensures LiveSet(objs) <= old(LiveSet(objs))
      decreases LiveSet(objs), 2
    {
      for i := 0 to |vs|
        invariant DecAll(Heap(), vs[i..]) == DecAll(old(Heap()), vs)
        invariant LiveSet(objs) <= old(LiveSet(objs))
      {
        assert vs[i..][1..] == vs[i + 1..];
        ok := DecRef(vs[i]);
        if !ok { return; }
      }
      return true;
    }

    method NewObject(o: RT.Obj<RVal>) returns (v: RVal)
      modifies this
      ensures (v, Heap()) == AllocObj(old(Heap()), o)
    {
      v := RRef(|objs|);
      objs := objs + [Live(1, o)];
    }

    method NewFloat(f: F64) returns (v: RVal)
      modifies this
      ensures (v, Heap()) == AllocFlt(old(Heap()), f)
    {
      v := RFlt(|flts|);
      flts := flts + [FCell(1, f)];
    }

    /** The interpreter's `consume_float_binop`: a uniquely owned operand holds the result. */
    method ConsumeFloatBinop(left: RVal, right: RVal, f: F64) returns (v: RVal, ok: bool)
      requires left.RFlt? && right.RFlt?
      modifies this
      ensures match ConsumeFloats(old(Heap()), left, right, f) case Ok(r) => ok && (v, Heap()) == r case Err(_) => !ok
    {
      if left.cell < |flts| && flts[left.cell].count == 1 {
        flts := flts[left.cell := FCell(1, f)];
        ok := DecRef(right);
        return left, ok;
      }
      if right.cell < |flts| && flts[right.cell].count == 1 {
        flts := flts[right.cell := FCell(1, f)];
        ok := DecRef(left);
        return right, ok;
      }
      v := left;
      DecTwo(Heap(), right, left);
      ok := DecRef(right);
      if ok {
        ok := DecRef(left);
        if ok { v := NewFloat(f); }
      }
    }
  }
}
