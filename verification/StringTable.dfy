/** The string table of a bytefile: NUL-terminated strings addressed by byte offset
    (crates/vm-core/src/bytefile.rs). */
module StringTable {
  import opened Results
  import opened Bytecode

  /** Position of the first zero byte at or after `from`. */
  function Terminator(table: seq<Byte>, from: nat): (r: Option<nat>)
    ensures r.Some? ==> from <= r.value < |table| && table[r.value] == 0
    ensures r.Some? ==> forall k :: from <= k < r.value ==> table[k] != 0
    ensures r.None? ==> forall k :: from <= k < |table| ==> table[k] != 0
    decreases |table| - from
  {
    if from >= |table| then None
    else if table[from] == 0 then Some(from)
    else Terminator(table, from + 1)
  }

  /** The string at an offset, without its terminator. */
  function StringAt(table: seq<Byte>, offset: int): Result<seq<Byte>> {
    if !(0 <= offset <= |table|) then Err(OutOfBounds)
    else match Terminator(table, offset)
      case None => Err(InvalidString)
      case Some(end) => Ok(table[offset..end])
  }

  /** Scan of the stored strings, one terminator after another. */
  function FindFrom(table: seq<Byte>, from: nat, s: seq<Byte>): Option<nat>
    decreases |table| - from
  {
    if from >= |table| then None
    else match Terminator(table, from)
      case None => None
      case Some(end) => if table[from..end] == s then Some(from) else FindFrom(table, end + 1, s)
  }

  function Added(table: seq<Byte>, s: seq<Byte>): seq<Byte> { table + s + [0] }

  /** Every string of the table has its terminator. */
  predicate Terminated(table: seq<Byte>) { table == [] || table[|table| - 1] == 0 }

  /** Strings were appended, each with its terminator. */
  predicate Grown(table: seq<Byte>, later: seq<Byte>) { table <= later && (Terminated(table) ==> Terminated(later)) }

  /** A literal's offset and the table holding it: an equal string is reused. */
  function Intern(table: seq<Byte>, s: seq<Byte>): (r: (nat, seq<Byte>))
    ensures Grown(table, r.1)
  {
    match FindFrom(table, 0, s)
    case Some(offset) => (offset, table)
    case None => (|table|, Added(table, s))
  }

  /** What a C string can hold of `s`. */
  function UpToNul(s: seq<Byte>): seq<Byte> {
    if s == [] || s[0] == 0 then [] else [s[0]] + UpToNul(s[1..])
  }

  lemma {:induction false} UpToNulIsPrefix(s: seq<Byte>)
    ensures UpToNul(s) <= s && (forall k :: 0 <= k < |UpToNul(s)| ==> s[k] != 0)
    ensures |UpToNul(s)| < |s| ==> s[|UpToNul(s)|] == 0
  {
    if s != [] && s[0] != 0 {
      UpToNulIsPrefix(s[1..]);
      var rest := UpToNul(s[1..]);
      assert forall k :: 0 < k < |rest| + 1 ==> s[k] == s[1..][k - 1];
    }
  }

  lemma TerminatorIs(table: seq<Byte>, from: nat, end: nat)
    requires from <= end < |table| && table[end] == 0
    requires forall k :: from <= k < end ==> table[k] != 0
    ensures Terminator(table, from) == Some(end)
  {
    var r := Terminator(table, from);
    if r.None? {
      assert false;
    } else if r.value < end {
      assert false;
    }
  }

  /** An offset keeps reading back the same string as the table grows. */
  lemma StringAtStable(table: seq<Byte>, more: seq<Byte>, offset: int)
    requires StringAt(table, offset).Ok?
    ensures StringAt(table + more, offset) == StringAt(table, offset)
  {
    var end := Terminator(table, offset).value;
    TerminatorIs(table + more, offset, end);
    assert (table + more)[offset..end] == table[offset..end];
  }

  lemma {:induction false} FindFromReads(table: seq<Byte>, from: nat, s: seq<Byte>)
    requires FindFrom(table, from, s).Some?
    ensures StringAt(table, FindFrom(table, from, s).value) == Ok(s) && UpToNul(s) == s
    decreases |table| - from
  {
    var end := Terminator(table, from).value;
    if table[from..end] != s {
      FindFromReads(table, end + 1, s);
    } else {
      UpToNulIsPrefix(s);
      assert forall k :: 0 <= k < |s| ==> s[k] == table[from + k];
    }
  }

  lemma AddedReads(table: seq<Byte>, s: seq<Byte>)
    ensures StringAt(Added(table, s), |table|) == Ok(UpToNul(s))
  {
    UpToNulIsPrefix(s);
    var grown, n := Added(table, s), |UpToNul(s)|;
    assert forall k :: 0 <= k < |s| ==> grown[|table| + k] == s[k];
    TerminatorIs(grown, |table|, |table| + n);
    assert grown[|table|..|table| + n] == UpToNul(s);
  }

  /** Interning: the offset reads the literal back (cut at an embedded NUL) now and in
      every later table, and no earlier offset changes its string. */
  lemma InternReads(table: seq<Byte>, s: seq<Byte>, more: seq<Byte>)
    ensures table <= Intern(table, s).1
    ensures StringAt(Intern(table, s).1 + more, Intern(table, s).0) == Ok(UpToNul(s))
  {
    var (offset, grown) := Intern(table, s);
    if FindFrom(table, 0, s).Some? {
      FindFromReads(table, 0, s);
    } else {
      AddedReads(table, s);
      assert grown[..|table|] == table;
    }
    StringAtStable(grown, more, offset);
  }

  /** A stored string is found: interning it again changes nothing. */
  lemma {:induction false} FindFromComplete(table: seq<Byte>, from: nat, s: seq<Byte>, more: seq<Byte>)
    requires from <= |table| && Terminated(table)
    requires UpToNul(s) == s
    ensures FindFrom(Added(table, s) + more, from, s).Some?
    decreases |table| - from
  {
    var all := Added(table, s) + more;
    if from == |table| {
      AddedReads(table, s);
      StringAtStable(Added(table, s), more, |table|);
    } else {
      var end := Terminator(table, from);
      assert end.Some?;
      assert forall k :: from <= k < |table| ==> all[k] == table[k];
      TerminatorIs(all, from, end.value);
      if all[from..end.value] != s {
        FindFromComplete(table, end.value + 1, s, more);
      }
    }
  }
}
