/** The jump tables of a library (execute.c): entries growing down from the library base, thunks
    growing up from the start of the same memory block. */
module JumpTables {
  import opened Base
  import opened X86
  import opened Emit
  import opened M68k
  import opened Thunk

  const LIB_JUMP_TBL_SIZE := 0x1_0000
  const OPCODE_INT_3: byte := 0xcc
  const OPCODE_JMP_REL32: byte := 0xe9

  datatype FuncInfo = FuncInfo(offset: u16, name: u64, argRegs: string, func: Option<u64>)

  predicate RowOk(row: FuncInfo) {
    row.offset != 0 && row.offset % 6 == 0 && (row.func.Some? ==> ArgRegsOk(row.argRegs))
  }

  function ThunkBytes(log: u64, row: FuncInfo): seq<byte>
    requires RowOk(row)
  {
    if row.func.None? then [] else EncAll(ThunkInstrs(log, row.name, row.func.value, row.argRegs))
  }

  predicate RowsOk(tbl: seq<FuncInfo>) { forall i :: 0 <= i < |tbl| ==> RowOk(tbl[i]) }

  // Where the thunk of row i starts
  function ThunkStart(log: u64, tbl: seq<FuncInfo>, i: nat): nat
    requires RowsOk(tbl) && i <= |tbl|
  {
    if i == 0 then 0 else ThunkStart(log, tbl, i - 1) + |ThunkBytes(log, tbl[i - 1])|
  }

  // The thunks end before the lowest entry.
  predicate Fits(log: u64, tbl: seq<FuncInfo>)
    requires RowsOk(tbl)
  {
    forall i :: 0 <= i < |tbl| ==> ThunkStart(log, tbl, |tbl|) + tbl[i].offset <= LIB_JUMP_TBL_SIZE
  }

  // Position of a row's entry
  function EntryPos(row: FuncInfo): int { LIB_JUMP_TBL_SIZE - row.offset }

  function EntryBytes(row: FuncInfo, thunk: nat): seq<byte> {
    if row.func.None? then [OPCODE_INT_3] else Enc(Jmp32(Low32(thunk - (EntryPos(row) + 5))))
  }

  // Of several rows with the same offset the last one counts.
  predicate LastWithOffset(tbl: seq<FuncInfo>, n: nat, i: nat) {
    i < n <= |tbl| && forall k: nat :: i < k < n ==> tbl[k].offset != tbl[i].offset
  }

  predicate Entries(log: u64, tbl: seq<FuncInfo>, n: nat, mem: seq<byte>)
    requires RowsOk(tbl) && n <= |tbl|
  {
    forall i: nat :: i < n && LastWithOffset(tbl, n, i) ==>
                       CodeAt(mem, EntryPos(tbl[i]), EntryBytes(tbl[i], ThunkStart(log, tbl, i)))
  }

  predicate Thunks(log: u64, tbl: seq<FuncInfo>, n: nat, mem: seq<byte>)
    requires RowsOk(tbl) && n <= |tbl|
  {
    forall i: nat :: i < n ==> CodeAt(mem, ThunkStart(log, tbl, i), ThunkBytes(log, tbl[i]))
  }

  // Both jump tables, as they are when a library has been loaded
  predicate Tables(log: u64, tbl: seq<FuncInfo>, mem: seq<byte>) {
    && |mem| == LIB_JUMP_TBL_SIZE && RowsOk(tbl) && Fits(log, tbl)
    && Entries(log, tbl, |tbl|, mem) && Thunks(log, tbl, |tbl|, mem)
  }

  lemma {:induction false} StartsGrow(log: u64, tbl: seq<FuncInfo>, i: nat, j: nat)
    requires RowsOk(tbl) && i <= j <= |tbl|
    ensures ThunkStart(log, tbl, i) <= ThunkStart(log, tbl, j)
    decreases j
  {
    hide ThunkBytes;
    if i < j {
      StartsGrow(log, tbl, i, j - 1);
    }
  }

  lemma EntrySize(row: FuncInfo, thunk: nat)
    ensures |EntryBytes(row, thunk)| == if row.func.None? then 1 else 5
  {
    hide LE32;
  }

  lemma SixApart(a: int, b: int)
    requires a % 6 == 0 && b % 6 == 0 && a != b
    ensures a + 6 <= b || b + 6 <= a
  {
  }

  // Writing the entry of row n spoils neither thunks nor entries for other offsets.
  lemma EntryWritten(log: u64, tbl: seq<FuncInfo>, n: nat, mem: seq<byte>)
    requires RowsOk(tbl) && Fits(log, tbl) && n < |tbl| && |mem| == LIB_JUMP_TBL_SIZE
    requires Entries(log, tbl, n, mem) && Thunks(log, tbl, n, mem)
    ensures var b := EntryBytes(tbl[n], ThunkStart(log, tbl, n));
            && EntryPos(tbl[n]) + |b| <= |mem|
            && Entries(log, tbl, n + 1, Patch(mem, EntryPos(tbl[n]), b))
            && Thunks(log, tbl, n, Patch(mem, EntryPos(tbl[n]), b))
  {
    hide ThunkBytes, EntryBytes, Patch, CodeAt, ThunkStart;
    var at, b := EntryPos(tbl[n]), EntryBytes(tbl[n], ThunkStart(log, tbl, n));
    EntrySize(tbl[n], ThunkStart(log, tbl, n));
    var mem' := Patch(mem, at, b);
    forall i: nat | LastWithOffset(tbl, n + 1, i)
      ensures CodeAt(mem', EntryPos(tbl[i]), EntryBytes(tbl[i], ThunkStart(log, tbl, i)))
    {
      if i == n {
        CodeAtWritten(mem, at, b);
      } else {
        assert LastWithOffset(tbl, n, i) && tbl[n].offset != tbl[i].offset;
        SixApart(tbl[i].offset, tbl[n].offset);
        EntrySize(tbl[i], ThunkStart(log, tbl, i));
        CodeAtElsewhere(mem, at, b, EntryPos(tbl[i]), EntryBytes(tbl[i], ThunkStart(log, tbl, i)));
      }
    }
    forall i: nat | i < n
      ensures CodeAt(mem', ThunkStart(log, tbl, i), ThunkBytes(log, tbl[i]))
    {
      ThunkEnds(log, tbl, i);
      CodeAtElsewhere(mem, at, b, ThunkStart(log, tbl, i), ThunkBytes(log, tbl[i]));
    }
  }

  lemma ThunkEnds(log: u64, tbl: seq<FuncInfo>, i: nat)
    requires RowsOk(tbl) && i < |tbl|
    ensures ThunkStart(log, tbl, i) + |ThunkBytes(log, tbl[i])|
        == ThunkStart(log, tbl, i + 1) <= ThunkStart(log, tbl, |tbl|)
  {
    hide ThunkBytes;
    StartsGrow(log, tbl, i + 1, |tbl|);
  }

  // Nor does writing the thunk of row n.
  lemma ThunkWritten(log: u64, tbl: seq<FuncInfo>, n: nat, mem: seq<byte>)
    requires RowsOk(tbl) && Fits(log, tbl) && n < |tbl| && |mem| == LIB_JUMP_TBL_SIZE
    requires Entries(log, tbl, n + 1, mem) && Thunks(log, tbl, n, mem)
    ensures var at, b := ThunkStart(log, tbl, n), ThunkBytes(log, tbl[n]);
            && at + |b| <= |mem|
            && Entries(log, tbl, n + 1, Patch(mem, at, b)) && Thunks(log, tbl, n + 1, Patch(mem, at, b))
  {
    hide ThunkBytes, EntryBytes, Patch, CodeAt, ThunkStart, Entries;
    var at, b := ThunkStart(log, tbl, n), ThunkBytes(log, tbl[n]);
    ThunkEnds(log, tbl, n);
    EntriesKept(log, tbl, n, mem);
    CodeAtWritten(mem, at, b);
    forall i: nat | i < n
      ensures CodeAt(Patch(mem, at, b), ThunkStart(log, tbl, i), ThunkBytes(log, tbl[i]))
    {
      ThunkEnds(log, tbl, i);
      StartsGrow(log, tbl, i + 1, n);
      CodeAtElsewhere(mem, at, b, ThunkStart(log, tbl, i), ThunkBytes(log, tbl[i]));
    }
  }

  lemma EntriesKept(log: u64, tbl: seq<FuncInfo>, n: nat, mem: seq<byte>)
    requires RowsOk(tbl) && Fits(log, tbl) && n < |tbl| && |mem| == LIB_JUMP_TBL_SIZE
    requires Entries(log, tbl, n + 1, mem)
    requires ThunkStart(log, tbl, n) + |ThunkBytes(log, tbl[n])| <= ThunkStart(log, tbl, |tbl|) <= |mem|
    ensures Entries(log, tbl, n + 1, Patch(mem, ThunkStart(log, tbl, n), ThunkBytes(log, tbl[n])))
  {
    hide ThunkBytes, EntryBytes, Patch, CodeAt, ThunkStart;
    var at, b := ThunkStart(log, tbl, n), ThunkBytes(log, tbl[n]);
    forall i: nat | i < n + 1 && LastWithOffset(tbl, n + 1, i)
      ensures CodeAt(Patch(mem, at, b), EntryPos(tbl[i]), EntryBytes(tbl[i], ThunkStart(log, tbl, i)))
    {
      CodeAtElsewhere(mem, at, b, EntryPos(tbl[i]), EntryBytes(tbl[i], ThunkStart(log, tbl, i)));
    }
  }

  // A row with offset 0 ends the table.
  predicate Terminated(tbl: seq<FuncInfo>) { exists i :: 0 <= i < |tbl| && tbl[i].offset == 0 }

  // The rows before the terminating one
  function Rows(tbl: seq<FuncInfo>): (rows: seq<FuncInfo>)
    requires Terminated(tbl)
    ensures |rows| < |tbl| && rows == tbl[..|rows|] && tbl[|rows|].offset == 0
    ensures forall i :: 0 <= i < |rows| ==> rows[i].offset != 0
  {
    if tbl[0].offset == 0 then [] else [tbl[0]] + Rows(tbl[1..])
  }

  lemma NoEntries(log: u64, tbl: seq<FuncInfo>, mem: seq<byte>)
    requires RowsOk(tbl)
    ensures ThunkStart(log, tbl, 0) == 0 && Entries(log, tbl, 0, mem) && Thunks(log, tbl, 0, mem)
  {
  }

  // A row without function has no thunk.
  lemma NoThunk(log: u64, tbl: seq<FuncInfo>, n: nat, mem: seq<byte>)
    requires RowsOk(tbl) && n < |tbl| && tbl[n].func.None? && Thunks(log, tbl, n, mem)
    requires ThunkStart(log, tbl, n) <= |mem|
    ensures Thunks(log, tbl, n + 1, mem) && ThunkStart(log, tbl, n + 1) == ThunkStart(log, tbl, n)
  {
  }

  // The room that emitting a thunk takes: the entry of its own row lies behind it.
  lemma ThunkRoom(log: u64, tbl: seq<FuncInfo>, n: nat)
    requires RowsOk(tbl) && Fits(log, tbl) && n < |tbl|
    ensures ThunkStart(log, tbl, n) + |ThunkBytes(log, tbl[n])| + 2 <= LIB_JUMP_TBL_SIZE
    ensures ThunkStart(log, tbl, n) + |ThunkBytes(log, tbl[n])| == ThunkStart(log, tbl, n + 1)
  {
    hide ThunkBytes;
    ThunkEnds(log, tbl, n);
    assert RowOk(tbl[n]);
  }

  method WriteEntry(mem: array<byte>, row: FuncInfo, entryIn2nd: nat)
    requires mem.Length == LIB_JUMP_TBL_SIZE && RowOk(row)
    modifies mem
    ensures EntryPos(row) + |EntryBytes(row, entryIn2nd)| <= mem.Length
    ensures mem[..] == Patch(old(mem[..]), EntryPos(row), EntryBytes(row, entryIn2nd))
  {
    hide Patch, LE32;
    ghost var m := mem[..];
    var entryIn1st := LIB_JUMP_TBL_SIZE - row.offset;
    EntrySize(row, entryIn2nd);
    if row.func.None? {
      var next := WriteByte(mem, entryIn1st, OPCODE_INT_3);
    } else {
      var next := WriteByte(mem, entryIn1st, OPCODE_JMP_REL32);
      var rel := Low32(entryIn2nd - (entryIn1st + 5));
      next := WriteDword(mem, entryIn1st + 1, rel);
      PatchPatch(m, entryIn1st, [OPCODE_JMP_REL32], LE32(rel));
      assert [OPCODE_JMP_REL32] + LE32(rel) == EntryBytes(row, entryIn2nd);
    }
  }

  method WriteThunk(mem: array<byte>, pos: nat, log: u64, row: FuncInfo) returns (next: nat)
    requires RowOk(row) && row.func.Some? && pos + |ThunkBytes(log, row)| + 2 <= mem.Length
    modifies mem
    ensures next == pos + |ThunkBytes(log, row)| && mem[..] == Patch(old(mem[..]), pos, ThunkBytes(log, row))
  {
    hide EncAll, ThunkInstrs, Patch;
    next := EmitThunkForFunc(mem, pos, log, row.name, row.func.value, row.argRegs);
  }

  // setup_jump_tables: positions in mem count from p_lib_base.
  method SetupJumpTables(mem: array<byte>, tbl: seq<FuncInfo>, log: u64)
    requires mem.Length == LIB_JUMP_TBL_SIZE
    requires Terminated(tbl) && RowsOk(Rows(tbl)) && Fits(log, Rows(tbl))
    modifies mem
    ensures Tables(log, Rows(tbl), mem[..])
  {
    hide Entries, Thunks, ThunkBytes, EntryBytes, Patch, ThunkStart, Enc, EncAll, Fits;
    ghost var rows := Rows(tbl);
    var i, entryIn2nd := 0, 0;
    NoEntries(log, rows, mem[..]);
    while tbl[i].offset != 0
      invariant 0 <= i <= |rows| && entryIn2nd == ThunkStart(log, rows, i)
      invariant Entries(log, rows, i, mem[..]) && Thunks(log, rows, i, mem[..])
      decreases |rows| - i
    {
      assert tbl[i] == rows[i] && RowOk(rows[i]);
      EntryWritten(log, rows, i, mem[..]);
      WriteEntry(mem, tbl[i], entryIn2nd);
      ThunkRoom(log, rows, i);
      if tbl[i].func.None? {
        NoThunk(log, rows, i, mem[..]);
      } else {
        ThunkWritten(log, rows, i, mem[..]);
        entryIn2nd := WriteThunk(mem, entryIn2nd, log, tbl[i]);
      }
      i := i + 1;
    }
  }

  // --------------------------------------------------------------- calls

  // The machine address that a call of the entry for an offset leads to, or nothing where an
  // interrupt is raised. Calls go to the address that load_library() returned minus the offset.
  function CallTarget(base: u64, mem: seq<byte>, offset: u16): Option<u64>
    requires |mem| == LIB_JUMP_TBL_SIZE && offset != 0
  {
    var at := base - offset;                                // the machine address ...
    match Decode(mem[LIB_JUMP_TBL_SIZE - offset..])         // ... and what is there
    case Some(Decoded(Jmp32(rel), len)) => Some(Low64(at + len + Signed32(rel)))
    case _ => None
  }

  lemma JumpLands(from: int, to: int)
    requires 0 <= to && -0x8000_0000 <= to - from < 0x8000_0000 && to < TWO64
    ensures Low64(from + Signed32(Low32(to - from))) == to
  {
  }

  // For every offset in the table: if the last row for it has a function, the call ends up at
  // the start of exactly that function's thunk, and the thunk is intact; otherwise it ends at INT3.
  lemma CallsReachThunks(base: u64, log: u64, tbl: seq<FuncInfo>, mem: seq<byte>, i: nat)
    requires Tables(log, tbl, mem) && LIB_JUMP_TBL_SIZE <= base && LastWithOffset(tbl, |tbl|, i)
    ensures var row, start := tbl[i], ThunkStart(log, tbl, i);
            if row.func.None?
            then CallTarget(base, mem, row.offset) == None && mem[LIB_JUMP_TBL_SIZE - row.offset] == OPCODE_INT_3
            else
              && CallTarget(base, mem, row.offset) == Some(base - LIB_JUMP_TBL_SIZE + start)
              && CodeAt(mem, start, EncAll(ThunkInstrs(log, row.name, row.func.value, row.argRegs)))
  {
    hide ThunkStart, Enc, Decode, ThunkBytes, Signed32, Low32, Low64;
    var row, start := tbl[i], ThunkStart(log, tbl, i);
    var at := EntryPos(row);
    assert RowOk(row);
    EntryDecoded(row, start, mem);
    ThunkEnds(log, tbl, i);
    if row.func.Some? {
      var addr: int := base;
      JumpLands(addr - row.offset + 5, addr - LIB_JUMP_TBL_SIZE + start);
      ThunkBytesIs(log, row);
    }
  }

  lemma ThunkBytesIs(log: u64, row: FuncInfo)
    requires RowOk(row) && row.func.Some?
    ensures ThunkBytes(log, row) == EncAll(ThunkInstrs(log, row.name, row.func.value, row.argRegs))
  {
  }

  lemma EntryDecoded(row: FuncInfo, thunk: nat, mem: seq<byte>)
    requires RowOk(row) && |mem| == LIB_JUMP_TBL_SIZE && CodeAt(mem, EntryPos(row), EntryBytes(row, thunk))
    ensures var b := mem[EntryPos(row)..];
            if row.func.None? then Decode(b) == Some(Decoded(Int3, 1)) && b[0] == OPCODE_INT_3
            else Decode(b) == Some(Decoded(Jmp32(Low32(thunk - (EntryPos(row) + 5))), 5))
  {
    hide Decode, LE32;
    var b := mem[EntryPos(row)..];
    var i := if row.func.None? then Int3 else Jmp32(Low32(thunk - (EntryPos(row) + 5)));
    assert Enc(i) == EntryBytes(row, thunk);
    assert b[..|Enc(i)|] == Enc(i);
    DecodeEnc(i, b);
    EntrySize(row, thunk);
  }
}
