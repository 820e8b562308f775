/** The loader for executables in AmigaDOS hunk format (loader.c). */
module Loader {
  import opened Base
  import opened M68k

  const MAX_HUNKS := 4
  const MAX_HUNK_SIZE := 65536
  const HUNK_MEMORY := 0x4_0000                // MAX_HUNKS * MAX_HUNK_SIZE

  // Block types of the hunk format
  const HUNK_CODE: u32 := 0x3e9
  const HUNK_DATA: u32 := 0x3ea
  const HUNK_BSS: u32 := 0x3eb
  const HUNK_RELOC32: u32 := 0x3ec
  const HUNK_SYMBOL: u32 := 0x3f0
  const HUNK_DEBUG: u32 := 0x3f1
  const HUNK_END: u32 := 0x3f2
  const HUNK_HEADER: u32 := 0x3f3

  // Big-endian long words
  function BE32(v: u32): (b: seq<byte>)
    ensures |b| == 4
  {
    [v / 0x100_0000, v / 0x1_0000 % 0x100, v / 0x100 % 0x100, v % 0x100]
  }

  function DwordAt(b: seq<byte>, k: nat): u32
    requires k + 4 <= |b|
  {
    var b0: int, b1: int, b2: int, b3: int := b[k], b[k + 1], b[k + 2], b[k + 3];
    0x100_0000 * b0 + 0x1_0000 * b1 + 0x100 * b2 + b3
  }

  // A number of long words in bytes, with the wrap-around of 32-bit arithmetic
  function InBytes(ndwords: u32): u32 { var n: int := ndwords; Low32(4 * n) }

  // ---------------------------------------------------------- what blocks do

  datatype Code = Code(address: u32, size: u32)

  // hunks: where the hunks are, as offsets in the hunk memory. last: the number of the last hunk,
  // once a header has been read.
  datatype State = State(hunks: seq<Option<nat>>, last: Option<u32>, num: u32, mem: seq<byte>, code: Option<Code>)

  // Fault: a read behind the end of the file, or a read or write through a hunk address that was
  // never set or outside the hunk memory
  datatype Result = Done(st: State, pos: nat) | Error | Fault

  predicate StateOk(st: State) {
    && |st.hunks| == MAX_HUNKS && |st.mem| == HUNK_MEMORY
    && forall i :: 0 <= i < MAX_HUNKS && st.hunks[i].Some? ==> st.hunks[i].value < HUNK_MEMORY
  }

  const START: State := State(seq(MAX_HUNKS, _ => None), None, 0, seq(HUNK_MEMORY, _ => 0), None)

  function Read(f: seq<byte>, pos: nat): Option<u32> {
    if pos + 4 <= |f| then Some(DwordAt(f, pos)) else None
  }

  // Address of a hunk, if it has one
  function HunkAt(st: State, i: u32): Option<nat>
    requires StateOk(st)
  {
    if i < MAX_HUNKS then st.hunks[i] else None
  }

  function HeaderBlock(f: seq<byte>, pos: nat, st: State): (r: Result)
    requires StateOk(st)
    ensures r.Done? ==> StateOk(r.st) && pos <= r.pos
  {
    match Read(f, pos)
    case None => Fault
    case Some(resident) =>
      if resident != 0 then Error
      else if pos + 16 > |f| then Fault
      else
        var first: int, last: int := DwordAt(f, pos + 8), DwordAt(f, pos + 12);
        if Low32(last - first + 1) > MAX_HUNKS then Error
        else Sizes(f, pos + 16, first, last, 0, st.(last := Some(last), mem := seq(HUNK_MEMORY, _ => 0)))
  }

  function Sizes(f: seq<byte>, pos: nat, i: nat, last: u32, address: nat, st: State): (r: Result)
    requires StateOk(st)
    ensures r.Done? ==> StateOk(r.st) && pos <= r.pos
    decreases last - i
  {
    if i > last then Done(st, pos)
    else
      match Read(f, pos)
      case None => Fault
      case Some(size) =>
        if InBytes(size) > MAX_HUNK_SIZE then Error
        else if i >= MAX_HUNKS || address >= HUNK_MEMORY then Fault
        else Sizes(f, pos + 4, i + 1, last, address + MAX_HUNK_SIZE, st.(hunks := st.hunks[i := Some(address)]))
  }

  // HUNK_CODE and HUNK_DATA
  function CopyBlock(f: seq<byte>, pos: nat, st: State, isCode: bool): (r: Result)
    requires StateOk(st)
    ensures r.Done? ==> StateOk(r.st) && pos <= r.pos
  {
    match (Read(f, pos), HunkAt(st, st.num))
    case (Some(ndwords), Some(at)) =>
      var size := InBytes(ndwords);
      if pos + 4 + size > |f| || at + size > HUNK_MEMORY then Fault
      else
        var st' := st.(mem := Patch(st.mem, at, f[pos + 4..pos + 4 + size]));
        if !isCode then Done(st', pos + 4 + size)
        else if size > MAX_HUNK_SIZE - 4 then Error
        else Done(st'.(code := Some(Code(HUNK_START_ADDRESS + at, size))), pos + 4 + size)
    case _ => Fault
  }

  function BssBlock(f: seq<byte>, pos: nat, st: State): (r: Result)
    requires StateOk(st)
    ensures r.Done? ==> StateOk(r.st) && pos <= r.pos
  {
    match (Read(f, pos), HunkAt(st, st.num))
    case (Some(ndwords), Some(at)) =>
      var size := InBytes(ndwords);
      if at + size > HUNK_MEMORY then Fault
      else Done(st.(mem := Patch(st.mem, at, seq(size, _ => 0))), pos + 4)
    case _ => Fault
  }

  // One relocation: add the address of hunk ref to the long word at position p of the current hunk.
  function Fix(st: State, ref: u32, p: u32): (r: Result)
    requires StateOk(st)
    ensures r.Done? ==> StateOk(r.st)
  {
    match HunkAt(st, st.num)
    case None => Fault
    case Some(base) =>
      var at := base + p;
      if at + 4 > HUNK_MEMORY then Fault
      else
        var offset: int := DwordAt(st.mem, at);
        if offset > 0xffff_ffff - HUNK_START_ADDRESS then Error
        else
          match HunkAt(st, ref)
          case None => Fault
          case Some(target) =>
            Done(st.(mem := Patch(st.mem, at, BE32(Low32(offset + (HUNK_START_ADDRESS + target))))), 0)
  }

  function Fixups(f: seq<byte>, pos: nat, n: nat, ref: u32, st: State): (r: Result)
    requires StateOk(st)
    ensures r.Done? ==> StateOk(r.st) && pos <= r.pos
    decreases n
  {
    if n == 0 then Done(st, pos)
    else
      match Read(f, pos)
      case None => Fault
      case Some(p) =>
        match Fix(st, ref, p)
        case Done(st', _) => Fixups(f, pos + 4, n - 1, ref, st')
        case r => r
  }

  function RelocBlock(f: seq<byte>, pos: nat, st: State): (r: Result)
    requires StateOk(st)
    ensures r.Done? ==> StateOk(r.st) && pos <= r.pos
    decreases |f| - pos
  {
    match Read(f, pos)
    case None => Fault
    case Some(n) =>
      if n == 0 then Done(st, pos + 4)
      else if pos + 8 > |f| || st.last.None? then Fault
      else if DwordAt(f, pos + 4) > st.last.value then Error
      else
        match Fixups(f, pos + 8, n, DwordAt(f, pos + 4), st)
        case Done(st', pos') => RelocBlock(f, pos', st')
        case r => r
  }

  // The position behind a HUNK_SYMBOL block
  function SkipSymbols(f: seq<byte>, pos: nat): (r: Option<nat>)
    ensures r.Some? ==> pos <= r.value
    decreases |f| - pos
  {
    match Read(f, pos)
    case None => None
    case Some(ndwords) =>
      if ndwords == 0 then Some(pos + 4)
      else
        var n: int := ndwords;
        SkipSymbols(f, pos + 4 + Low32(4 * (n + 1)))
  }

  // The block of the given type, whose contents start at pos
  function Block(f: seq<byte>, blockType: u32, pos: nat, st: State): (r: Result)
    requires StateOk(st)
    ensures r.Done? ==> StateOk(r.st) && pos <= r.pos
  {
    if blockType == HUNK_HEADER then HeaderBlock(f, pos, st)
    else if blockType == HUNK_CODE || blockType == HUNK_DATA then CopyBlock(f, pos, st, blockType == HUNK_CODE)
    else if blockType == HUNK_BSS then BssBlock(f, pos, st)
    else if blockType == HUNK_RELOC32 then RelocBlock(f, pos, st)
    else if blockType == HUNK_SYMBOL then
      match SkipSymbols(f, pos)
      case None => Fault
      case Some(pos') => Done(st, pos')
    else if blockType == HUNK_DEBUG then
      match Read(f, pos)
      case None => Fault
      case Some(ndwords) => Done(st, pos + 4 + InBytes(ndwords))
    else if blockType == HUNK_END then
      var num: int := st.num;
      Done(st.(num := Low32(num + 1)), pos)
    else Error
  }

  // All blocks from pos to the end of the file
  function Blocks(f: seq<byte>, pos: nat, st: State): (r: Result)
    requires StateOk(st)
    ensures r.Done? ==> StateOk(r.st) && |f| <= r.pos
    decreases |f| - pos
  {
    if pos >= |f| then Done(st, pos)
    else
      match Read(f, pos)
      case None => Fault
      case Some(blockType) =>
        match Block(f, blockType, pos + 4, st)
        case Done(st', pos') => Blocks(f, pos', st')
        case r => r
  }

  // -------------------------------------------------------------- the loader

  datatype Status = Ok | Failed | Crashed

  class HunkLoader {
    const file: seq<byte>
    const mem: array<byte>                        // the memory mapped at HUNK_START_ADDRESS
    const hunkAddresses: array<Option<nat>>
    var lastHnum: Option<u32>
    var hunkNum: u32
    var code: Option<Code>
    var pos: nat

    constructor (f: seq<byte>)
      ensures file == f && Valid() && View() == START && pos == 0
      ensures fresh(mem) && fresh(hunkAddresses)
    {
      file := f;
      mem := new byte[HUNK_MEMORY](_ => 0);
      hunkAddresses := new Option<nat>[MAX_HUNKS](_ => None);
      lastHnum, hunkNum, code, pos := None, 0, None, 0;
    }

    ghost function View(): State
      reads this, mem, hunkAddresses
    {
      State(hunkAddresses[..], lastHnum, hunkNum, mem[..], code)
    }

    ghost predicate Valid()
      reads this, mem, hunkAddresses
    {
      StateOk(View())
    }

    // What a method has done, against what the block functions say
    ghost predicate Achieved(status: Status, r: Result)
      reads this, mem, hunkAddresses
    {
      match r
      case Done(st, p) => status == Ok && View() == st && pos == p
      case Error => status == Failed
      case Fault => status == Crashed
    }

    method ReadDword() returns (v: Option<u32>)
      requires Valid()
      modifies this`pos
      ensures v == Read(file, old(pos)) && pos == if v.Some? then old(pos) + 4 else old(pos)
    {
      v := Read(file, pos);
      if v.Some? {
        pos := pos + 4;
      }
    }

    method ReadHeader() returns (status: Status)
      requires Valid()
      modifies this, mem, hunkAddresses
      ensures Achieved(status, HeaderBlock(file, old(pos), old(View())))
    {
      var resident := ReadDword();
      if resident.None? {
        return Crashed;
      }
      if resident.value != 0 {
        return Failed;
      }
      if pos + 12 > |file| {
        return Crashed;
      }
      pos := pos + 4;                             // total number of hunks
      var first := ReadDword();
      var last := ReadDword();
      lastHnum := last;
      var from: int, to: int := first.value, last.value;
      if Low32(to - from + 1) > MAX_HUNKS {
        return Failed;
      }
      MapHunks();
      status := ReadSizes(first.value, last.value);
    }

    // The sizes of the hunks, and where the hunks will be
    method ReadSizes(first: u32, last: u32) returns (status: Status)
      requires Valid()
      modifies this`pos, hunkAddresses
      ensures Achieved(status, Sizes(file, old(pos), first, last, 0, old(View())))
    {
      var i: int, address: nat := first, 0;
      while i <= last
        invariant Valid() && 0 <= i
        invariant Sizes(file, old(pos), first, last, 0, old(View())) == Sizes(file, pos, i, last, address, View())
        decreases last + 1 - i
      {
        var size := ReadDword();
        if size.None? {
          return Crashed;
        }
        if InBytes(size.value) > MAX_HUNK_SIZE {
          return Failed;
        }
        if i >= MAX_HUNKS || address >= HUNK_MEMORY {
          return Crashed;
        }
        hunkAddresses[i] := Some(address);
        address := address + MAX_HUNK_SIZE;
        i := i + 1;
      }
      status := Ok;
    }

    // mmap() of the hunk memory, which is zero afterwards
    method MapHunks()
      requires Valid()
      modifies mem
      ensures mem[..] == seq(HUNK_MEMORY, _ => 0)
    {
      for k := 0 to HUNK_MEMORY
        invariant forall j :: 0 <= j < k ==> mem[j] == 0
      {
        mem[k] := 0;
      }
    }
  
    // HUNK_CODE and HUNK_DATA
    method CopyHunk(isCode: bool) returns (status: Status)
      requires Valid()
      modifies this, mem
      ensures Achieved(status, CopyBlock(file, old(pos), old(View()), isCode))
    {
      hide Patch;
      var ndwords := ReadDword();
      if ndwords.None? || hunkNum >= MAX_HUNKS || hunkAddresses[hunkNum].None? {
        return Crashed;
      }
      var at, size := hunkAddresses[hunkNum].value, InBytes(ndwords.value);
      if pos + size > |file| || at + size > HUNK_MEMORY {
        return Crashed;
      }
      CopyBytes(at, file[pos..pos + size]);
      pos := pos + size;
      if isCode {
        if size > MAX_HUNK_SIZE - 4 {
          return Failed;
        }
        code := Some(Code(HUNK_START_ADDRESS + at, size));
      }
      status := Ok;
    }

    // memcpy()
    method CopyBytes(at: nat, b: seq<byte>)
      requires at + |b| <= mem.Length
      modifies mem
      ensures mem[..] == Patch(old(mem[..]), at, b)
    {
      for k := 0 to |b|
        invariant forall j :: 0 <= j < k ==> mem[at + j] == b[j]
        invariant forall j :: 0 <= j < at || at + |b| <= j < mem.Length ==> mem[j] == old(mem[j])
      {
        mem[at + k] := b[k];
      }
    }

    // HUNK_BSS
    method ClearHunk() returns (status: Status)
      requires Valid()
      modifies this, mem
      ensures Achieved(status, BssBlock(file, old(pos), old(View())))
    {
      hide Patch;
      var ndwords := ReadDword();
      if ndwords.None? || hunkNum >= MAX_HUNKS || hunkAddresses[hunkNum].None? {
        return Crashed;
      }
      var at, size := hunkAddresses[hunkNum].value, InBytes(ndwords.value);
      if at + size > HUNK_MEMORY {
        return Crashed;
      }
      CopyBytes(at, seq(size, _ => 0));
      status := Ok;
    }

    // HUNK_RELOC32
    method Relocate() returns (status: Status)
      requires Valid()
      modifies this, mem
      ensures Achieved(status, RelocBlock(file, old(pos), old(View())))
    {
      hide Patch, Fix;
      while true
        invariant Valid()
        invariant RelocBlock(file, old(pos), old(View())) == RelocBlock(file, pos, View())
        decreases |file| - pos
      {
        ghost var before := pos;
        var nposToFix := ReadDword();
        if nposToFix.None? {
          return Crashed;
        }
        if nposToFix.value == 0 {
          return Ok;
        }
        var refHnum := ReadDword();
        if refHnum.None? || lastHnum.None? {
          return Crashed;
        }
        if refHnum.value > lastHnum.value {
          return Failed;
        }
        ghost var st := View();
        var i := 0;
        while i < nposToFix.value
          invariant Valid() && 0 <= i <= nposToFix.value && before < pos
          invariant Fixups(file, before + 8, nposToFix.value, refHnum.value, st)
                    == Fixups(file, pos, nposToFix.value - i, refHnum.value, View())
        {
          var posToFix := ReadDword();
          if posToFix.None? {
            return Crashed;
          }
          status := FixPosition(refHnum.value, posToFix.value);
          if status != Ok {
            return;
          }
          i := i + 1;
        }
      }
    }

    method FixPosition(refHnum: u32, posToFix: u32) returns (status: Status)
      requires Valid()
      modifies mem
      ensures Valid()
      ensures match Fix(old(View()), refHnum, posToFix)
              case Done(st, _) => status == Ok && View() == st
              case Error => status == Failed
              case Fault => status == Crashed
    {
      hide Patch, BE32;
      if hunkNum >= MAX_HUNKS || hunkAddresses[hunkNum].None? {
        return Crashed;
      }
      var at := hunkAddresses[hunkNum].value + posToFix;
      if at + 4 > HUNK_MEMORY {
        return Crashed;
      }
      var offset: int := DwordAt(mem[..], at);
      if offset > 0xffff_ffff - HUNK_START_ADDRESS {
        return Failed;
      }
      if refHnum >= MAX_HUNKS || hunkAddresses[refHnum].None? {
        return Crashed;
      }
      CopyBytes(at, BE32(Low32(offset + (HUNK_START_ADDRESS + hunkAddresses[refHnum].value))));
      status := Ok;
    }

    // HUNK_SYMBOL
    method SkipSymbolBlock() returns (status: Status)
      requires Valid()
      modifies this`pos
      ensures match SkipSymbols(file, old(pos))
              case None => status == Crashed
              case Some(p) => status == Ok && pos == p
    {
      while true
        invariant SkipSymbols(file, old(pos)) == SkipSymbols(file, pos)
        decreases |file| - pos
      {
        var ndwords := ReadDword();
        if ndwords.None? {
          return Crashed;
        }
        if ndwords.value == 0 {
          return Ok;
        }
        var n: int := ndwords.value;
        pos := pos + Low32(4 * (n + 1));
      }
    }

    // One block of any type
    method LoadBlock(blockType: u32) returns (status: Status)
      requires Valid()
      modifies this, mem, hunkAddresses
      ensures Achieved(status, Block(file, blockType, old(pos), old(View())))
    {
      hide HeaderBlock, CopyBlock, BssBlock, RelocBlock;
      if blockType == HUNK_HEADER {
        status := ReadHeader();
      } else if blockType == HUNK_CODE || blockType == HUNK_DATA {
        status := CopyHunk(blockType == HUNK_CODE);
      } else if blockType == HUNK_BSS {
        status := ClearHunk();
      } else if blockType == HUNK_RELOC32 {
        status := Relocate();
      } else if blockType == HUNK_SYMBOL {
        status := SkipSymbolBlock();
      } else if blockType == HUNK_DEBUG {
        var ndwords := ReadDword();
        if ndwords.None? {
          return Crashed;
        }
        pos := pos + InBytes(ndwords.value);
        status := Ok;
      } else if blockType == HUNK_END {
        var num: int := hunkNum;
        hunkNum := Low32(num + 1);
        status := Ok;
      } else {
        status := Failed;
      }
    }

    // The block loop of load_program()
    method LoadProgram() returns (status: Status)
      requires Valid()
      modifies this, mem, hunkAddresses
      ensures Achieved(status, Blocks(file, old(pos), old(View())))
    {
      hide Block;
      while pos < |file|
        invariant Valid()
        invariant Blocks(file, old(pos), old(View())) == Blocks(file, pos, View())
        decreases |file| - pos
      {
        var blockType := ReadDword();
        if blockType.None? {
          return Crashed;
        }
        status := LoadBlock(blockType.value);
        if status != Ok {
          return;
        }
      }
      status := Ok;
    }
  }
}
