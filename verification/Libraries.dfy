/** Where load_library() (execute.c) maps the jump tables of one library after the other. */
module Libraries {
  import opened Base
  import opened M68k
  import opened JumpTables

  const MAP_FAILED: u64 := TWO64 - 1
  const PAGE := 4096

  // How far loading a library gets: dlopen() and dlsym() succeed, and mmap() grants the address
  datatype Attempt = Attempt(found: bool, hasTable: bool, mapped: bool)

  // A fixed mapping is only ever granted at a page boundary.
  predicate Granted(at: u64, a: Attempt) { a.mapped && at % PAGE == 0 }

  // A library that is there and has a table of functions
  predicate Wanted(a: Attempt) { a.found && a.hasTable }

  // The static p_lib_base and the result of one call
  datatype Loaded = Loaded(next: u64, base: Option<u64>)

  function Load(at: u64, a: Attempt): Loaded {
    if !a.found || !a.hasTable then Loaded(at, None)
    else if !Granted(at, a) then Loaded(MAP_FAILED, None)
    else
      var next: int := at;
      Loaded(Low64(next + LIB_JUMP_TBL_SIZE), Some(Low64(next + LIB_JUMP_TBL_SIZE)))
  }

  class LibrarySpace {
    var libBase: u64

    constructor ()
      ensures libBase == LIB_BASE_START_ADDRESS
    {
      libBase := LIB_BASE_START_ADDRESS;
    }

    // load_library: on success the library's memory, which ends at the base, holds its jump tables
    method LoadLibrary(a: Attempt, tbl: seq<FuncInfo>, log: u64) returns (base: Option<u64>, block: array?<byte>)
      requires a.found && a.hasTable ==> Terminated(tbl) && RowsOk(Rows(tbl)) && Fits(log, Rows(tbl))
      modifies this
      ensures Loaded(libBase, base) == Load(old(libBase), a)
      ensures !Wanted(a) ==> base == None && libBase == old(libBase)
      ensures Wanted(a) && (!a.mapped || old(libBase) % 4096 != 0) ==> base == None && libBase % 4096 != 0
      ensures Wanted(a) && a.mapped && old(libBase) % 4096 == 0 ==> base == Some(libBase)
      ensures base.Some? ==> var from: int := old(libBase); libBase == (from + 65536) % TWO64
      ensures base.Some? <==> block != null
      ensures base.Some? ==>
                && fresh(block) && Terminated(tbl)
                && Tables(log, Rows(tbl), block[..])
    {
      hide Tables, RowsOk, Fits, Rows, Terminated;
      if !a.found {
        return None, null;
      }
      if !a.hasTable {
        return None, null;
      }
      // mmap()
      if !Granted(libBase, a) {
        libBase := MAP_FAILED;
        return None, null;
      }
      block := new byte[LIB_JUMP_TBL_SIZE](_ => 0);
      SetupJumpTables(block, tbl, log);
      var next: int := libBase;
      libBase := Low64(next + LIB_JUMP_TBL_SIZE);
      base := Some(libBase);
    }
  }

  // --------------------------------------------------- a number of calls

  // p_lib_base after some calls, and the result of call k
  function After(at: u64, attempts: seq<Attempt>): u64 {
    if attempts == [] then at
    else Load(After(at, attempts[..|attempts| - 1]), attempts[|attempts| - 1]).next
  }

  function Answer(at: u64, attempts: seq<Attempt>, k: nat): Option<u64>
    requires k < |attempts|
  {
    Load(After(at, attempts[..k]), attempts[k]).base
  }

  // Among the first n calls one had its mapping refused.
  predicate Refused(attempts: seq<Attempt>, n: nat)
    requires n <= |attempts|
  {
    exists j: nat :: j < n && Wanted(attempts[j]) && !attempts[j].mapped
  }

  // Call k is for a library that is there and gets its mapping, and so did all before it.
  predicate Succeeds(attempts: seq<Attempt>, k: nat)
    requires k < |attempts|
  {
    Wanted(attempts[k]) && attempts[k].mapped && !Refused(attempts, k)
  }

  // How many of the first n calls succeed
  function Successes(attempts: seq<Attempt>, n: nat): (c: nat)
    requires n <= |attempts|
    ensures c <= n
  {
    if n == 0 then 0 else Successes(attempts, n - 1) + (if Succeeds(attempts, n - 1) then 1 else 0)
  }

  lemma RefusedStep(attempts: seq<Attempt>, n: nat)
    requires 0 < n <= |attempts|
    ensures Refused(attempts, n)
            <==> Refused(attempts, n - 1) || (Wanted(attempts[n - 1]) && !attempts[n - 1].mapped)
  {
  }

  lemma {:induction false} AfterIs(at: u64, attempts: seq<Attempt>, n: nat)
    requires at % 4096 == 0 && at + 65536 * |attempts| < TWO64 && n <= |attempts|
    ensures After(at, attempts[..n])
            == if Refused(attempts, n) then TWO64 - 1 else at + 65536 * Successes(attempts, n)
    decreases n
  {
    hide After, Refused;
    if n == 0 {
      AfterNothing(at, attempts);
    } else {
      AfterIs(at, attempts, n - 1);
      RefusedStep(attempts, n);
      AfterStep(at, attempts, n);
      Aligned(at, Successes(attempts, n - 1));
    }
  }

  lemma AfterNothing(at: u64, attempts: seq<Attempt>)
    ensures After(at, attempts[..0]) == at && !Refused(attempts, 0)
  {
  }

  lemma AfterStep(at: u64, attempts: seq<Attempt>, n: nat)
    requires 0 < n <= |attempts|
    ensures After(at, attempts[..n]) == Load(After(at, attempts[..n - 1]), attempts[n - 1]).next
  {
    hide Load;
    assert attempts[..n][..n - 1] == attempts[..n - 1];
  }

  lemma Aligned(at: int, k: nat)
    requires at % 4096 == 0
    ensures (at + 65536 * k) % 4096 == 0
  {
    assert at + 65536 * k == at + 4096 * (16 * k);
  }

  // Exactly which calls return a base, and which: from a page boundary on, call k succeeds if and
  // only if its library is there, has a table and is mapped, and no mapping was refused before. Its
  // base is the end of the next free 64 KB.
  lemma AnswersExact(at: u64, attempts: seq<Attempt>, k: nat)
    requires at % 4096 == 0 && at + 65536 * |attempts| < TWO64 && k < |attempts|
    ensures Answer(at, attempts, k)
            == if Succeeds(attempts, k) then Some(at + 65536 * (Successes(attempts, k) + 1)) else None
  {
    hide After, Refused;
    AfterIs(at, attempts, k);
    Aligned(at, Successes(attempts, k));
  }

  // The first library gets the block at 2 MB, with its base behind it.
  lemma FirstBase()
    ensures Answer(LIB_BASE_START_ADDRESS, [Attempt(true, true, true)], 0) == Some(0x21_0000)
  {
    var one := [Attempt(true, true, true)];
    AnswersExact(LIB_BASE_START_ADDRESS, one, 0);
  }

  // The bases returned, in order
  function Bases(at: u64, attempts: seq<Attempt>): seq<u64>
    decreases |attempts|
  {
    if attempts == [] then []
    else
      var l := Load(at, attempts[0]);
      (if l.base.Some? then [l.base.value] else []) + Bases(l.next, attempts[1..])
  }

  // Libraries that load get consecutive blocks.
  lemma {:induction false} BasesConsecutive(at: u64, attempts: seq<Attempt>)
    requires at % 4096 == 0 && at + 65536 * |attempts| < TWO64
    ensures var bs := Bases(at, attempts);
            && |bs| == Successes(attempts, |attempts|)
            && forall k :: 0 <= k < |bs| ==> bs[k] == at + 65536 * (k + 1)
    decreases |attempts|
  {
    hide Refused;
    if attempts != [] {
      var l := Load(at, attempts[0]);
      SuccessesShift(attempts, |attempts|);
      if l.next == MAP_FAILED {
        NoneAfterFailure(attempts[1..]);
      } else {
        BasesConsecutive(l.next, attempts[1..]);
      }
    }
  }

  // Counting from the second call on
  lemma {:induction false} SuccessesShift(attempts: seq<Attempt>, n: nat)
    requires 0 < n <= |attempts|
    ensures var a, rest := attempts[0], attempts[1..];
            && (Refused(attempts, n) <==> (Wanted(a) && !a.mapped) || Refused(rest, n - 1))
            && Successes(attempts, n) ==
               if !Wanted(a) then Successes(rest, n - 1)
               else if a.mapped then 1 + Successes(rest, n - 1) else 0
    decreases n
  {
    hide Refused, Wanted;
    RefusedStep(attempts, n);
    NoneRefused(attempts);
    NoneRefused(attempts[1..]);
    if n > 1 {
      SuccessesShift(attempts, n - 1);
      RefusedStep(attempts[1..], n - 1);
    }
  }

  lemma NoneRefused(attempts: seq<Attempt>)
    ensures !Refused(attempts, 0)
  {
  }

  // A mapping that fails leaves an address at which none can ever succeed.
  lemma {:induction false} NoneAfterFailure(attempts: seq<Attempt>)
    ensures Bases(MAP_FAILED, attempts) == []
    decreases |attempts|
  {
    if attempts != [] {
      NoneAfterFailure(attempts[1..]);
    }
  }

  // The block of jump tables below a base
  predicate InTables(base: int, a: int) { base - LIB_JUMP_TBL_SIZE <= a < base }

  // Blocks never overlap. All calls through the first 16 libraries go to addresses that
  // LibEntry() recognises; the block of a 17th one is mapped over ExecBase's address.
  lemma TablesDisjoint(attempts: seq<Attempt>, j: nat, k: nat, a: int)
    requires |attempts| < 0x1_0000_0000
    requires var bs := Bases(LIB_BASE_START_ADDRESS, attempts); j < |bs| && k < |bs|
    ensures var bs := Bases(LIB_BASE_START_ADDRESS, attempts);
            && (InTables(bs[j], a) && InTables(bs[k], a) ==> j == k)
            && (InTables(bs[j], a) && j < 16 ==> 0 <= a < TWO64 && LibEntry(a))
            && (InTables(bs[j], ABS_EXEC_BASE) <==> j == 16)
  {
    hide Bases;
    BasesConsecutive(LIB_BASE_START_ADDRESS, attempts);
  }
}
