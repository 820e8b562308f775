/** Long words that the loader leaves in the hunks, as a translated program sees them: exactly when
    a load gives what the 680x0 would load. */
module ByteOrder {
  import opened Base
  import opened X86
  import opened Cpu
  import opened CodeGen
  import opened M68k
  import opened Translation
  import opened Loader
  import opened Relocation
  import opened HunkFormat
  import opened LoadedImage

  // The hunks, as the loader has filled them, are in host memory.
  ghost predicate HunksInMemory(m: seq<byte>, s: Cpu) {
    |m| == HUNK_MEMORY && forall x :: 0 <= x < |m| ==> s.mem(HUNK_START_ADDRESS + x) == m[x]
  }

  // The long word at k has the same bytes in both orders.
  predicate Symmetric(m: seq<byte>, k: nat)
    requires k + 4 <= |m|
  {
    m[k] == m[k + 3] && m[k + 1] == m[k + 2]
  }

  // What MOVE.L or MOVEA.L from an address in the hunks leaves in its register
  function LoadedBy(call: Calls, i: GInstr, s: Cpu): u32
    requires i.MoveMem? || i.MoveaMem?
  {
    Low32(ExecAll(call, Emits(i), s).regs[if i.MoveMem? then Dn(i.n) else An(i.n)])
  }

  lemma OrdersAgree(b0: byte, b1: byte, b2: byte, b3: byte)
    ensures b0 as int + 0x100 * b1 as int + 0x1_0000 * b2 as int + 0x100_0000 * b3 as int
            == 0x100_0000 * b0 as int + 0x1_0000 * b1 as int + 0x100 * b2 as int + b3 as int
            <==> b0 == b3 && b1 == b2
  {
  }

  lemma LongIsDword(m: seq<byte>, k: nat)
    requires k + 4 <= |m|
    ensures LongAt(m, HUNK_START_ADDRESS + k) == DwordAt(m, k)
  {
  }

  // Loads are translated to loads in the host's byte order, and the loader leaves long words in the
  // order of the file, so the value is right exactly for those that read the same both ways.
  lemma LoadExact(call: Calls, i: GInstr, m: seq<byte>, k: nat, s: Cpu)
    requires HunksInMemory(m, s) && k + 4 <= |m|
    requires (i.MoveMem? || i.MoveaMem?) && i.ea == AbsL(HUNK_START_ADDRESS + k)
    ensures LoadedBy(call, i, s) == LongAt(m, HUNK_START_ADDRESS + k) <==> Symmetric(m, k)
  {
    hide LongAt, GuestReg, Load32, DwordAt;
    LongIsDword(m, k);
    ExecOne(call, Emits(i)[0], s);
    DispAddrHunk(k);
    HostLong(m, k, s);
  }

  lemma HostLong(m: seq<byte>, k: nat, s: Cpu)
    requires HunksInMemory(m, s) && k + 4 <= |m|
    ensures Load32(s.mem, HUNK_START_ADDRESS + k) == DwordAt(m, k) <==> Symmetric(m, k)
  {
    var a := HUNK_START_ADDRESS + k;
    assert s.mem(a) == m[k] && s.mem(HUNK_START_ADDRESS + (k + 1)) == m[k + 1];
    assert s.mem(HUNK_START_ADDRESS + (k + 2)) == m[k + 2] && s.mem(HUNK_START_ADDRESS + (k + 3)) == m[k + 3];
    OrdersAgree(m[k], m[k + 1], m[k + 2], m[k + 3]);
  }

  lemma DispAddrHunk(k: nat)
    requires k < HUNK_MEMORY
    ensures DispAddr(HUNK_START_ADDRESS + k) == HUNK_START_ADDRESS + k
  {
  }

  // The byte x of a hunk's contents, where no relocation applies
  lemma ContentByte(n: nat, m: seq<byte>, j: nat, h: Hunk, x: nat)
    requires Good(n, j, h) && |m| == HUNK_MEMORY && Placed(n, m, j, h) && x < |Contents(h.content)|
    requires !Relocation.Covered(AuxFixups(j, h.aux), HunkBase(j) + x)
    ensures HunkBase(j) + x < |m| && m[HunkBase(j) + x] == Contents(h.content)[x]
  {
    hide AuxFixups, InMemory;
    ContentsFit(j, h.content);
    PatchAt(Zeros(HUNK_MEMORY), HunkBase(j), Contents(h.content));
    assert Unrelocated(j, h.content)[HunkBase(j) + x] == Contents(h.content)[x];
  }

  lemma ContentsFit(j: nat, c: Content)
    requires j < MAX_HUNKS && ContentOk(c)
    ensures |Contents(c)| == Size(c) <= MAX_HUNK_SIZE && HunkBase(j) + MAX_HUNK_SIZE == HunkBase(j + 1) <= HUNK_MEMORY
  {
  }

  // A long word of a hunk's contents to which no relocation applies comes out right exactly if its
  // four bytes in the program file read the same both ways.
  lemma ContentLoadExact(call: Calls, i: GInstr, n: nat, m: seq<byte>, j: nat, h: Hunk, d: nat, s: Cpu)
    requires HunksInMemory(m, s) && Good(n, j, h) && Placed(n, m, j, h)
    requires d + 4 <= |Contents(h.content)|
    requires forall x: int :: HunkBase(j) + d <= x < HunkBase(j) + d + 4 ==>
                              !Relocation.Covered(AuxFixups(j, h.aux), x)
    requires (i.MoveMem? || i.MoveaMem?) && i.ea == AbsL(HUNK_START_ADDRESS + HunkBase(j) + d)
    ensures LoadedBy(call, i, s) == DwordAt(Contents(h.content), d) <==> Symmetric(Contents(h.content), d)
  {
    hide Placed, Good, AuxFixups, LoadedBy, LongAt, Contents, HunkBase;
    var k := HunkBase(j) + d;
    ContentByte(n, m, j, h, d);
    ContentByte(n, m, j, h, d + 1);
    ContentByte(n, m, j, h, d + 2);
    ContentByte(n, m, j, h, d + 3);
    LoadExact(call, i, m, k, s);
    LongIsDword(m, k);
  }

  // Of all pointers into the hunks only four read the same both ways.
  lemma PointersAsymmetric(m: seq<byte>, k: nat)
    requires k + 4 <= |m| && HUNK_START_ADDRESS <= DwordAt(m, k) < HUNK_START_ADDRESS + HUNK_MEMORY
    ensures Symmetric(m, k) <==> DwordAt(m, k) in {0x10_1000, 0x11_1100, 0x12_1200, 0x13_1300}
  {
    var b1: int, b2: int := m[k + 1], m[k + 2];
    assert m[k] == 0 && 0x10 <= b1 < 0x14;
  }
}
