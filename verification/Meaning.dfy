/** What the instructions of the subset do, in the words of the M68000 Family Programmer's Reference
    Manual, as far as sign extension, sources and destinations are concerned. */
module Meaning {
  import opened Base
  import opened CodeGen
  import opened M68k

  // MOVEQ: the data byte in the low 8 bits, its bit 7 in all others
  lemma MoveqExtends(env: Env, data: byte, n: Num, g: GuestState)
    ensures var v := GExec(env, MoveqImm(data, n), g).regs[n];
            v % 0x100 == data && v / 0x100 == if data / 0x80 == 1 then 0xff_ffff else 0
  {
    assert GExec(env, MoveqImm(data, n), g).regs[n] == Low32(Signed8(data));
    SignBits(data);
  }

  lemma SignBits(data: byte)
    ensures Low32(Signed8(data)) == if data < 0x80 then data else 0xffff_ff00 + data
  {
  }

  // JSR: the entry for a displacement, forwards or backwards, in two's complement
  lemma JsrEntry(d: int, g: GuestState)
    requires -0x8000 <= d < 0x8000
    ensures var a6: int := g.regs[A6]; Entry(if d < 0 then d + 0x1_0000 else d, g) == (a6 + d) % 0x1_0000_0000
  {
  }

  // Short addresses reach the lowest and the highest 32 KB.
  lemma ShortAddresses(w: u16)
    ensures Address(AbsW(w)) == if w < 0x8000 then w else 0xffff_0000 + w
  {
  }

  // SUBQ: 1 to 8 are subtracted, modulo 2 to the 32, and Z tells whether nothing is left.
  lemma SubqSubtracts(env: Env, field: Num, n: Num, g: GuestState)
    ensures var g', k: int, was: int := GExec(env, Subq(field, n), g), if field == 0 then 8 else field, g.regs[n];
            && (if was >= k then g'.regs[n] == was - k else g'.regs[n] == was + 0x1_0000_0000 - k)
            && (g'.z <==> was == k)
  {
  }

  // The register that an instruction changes
  function Destination(i: GInstr): Option<RegNum> {
    match i
    case MoveaMem(_, n) => Some(8 + n)
    case MoveaImm(_, n) => Some(8 + n)
    case MoveqImm(_, n) => Some(n)
    case MoveMem(_, n) => Some(n)
    case MoveImm(_, n) => Some(n)
    case MoveReg(_, n) => Some(n)
    case Subq(_, n) => Some(n)
    case _ => None
  }

  // Nothing else changes but Z and, for a store, one long word.
  lemma OthersKept(env: Env, i: GInstr, g: GuestState)
    requires !i.JsrLib?
    ensures var g' := GExec(env, i, g);
            && (forall r: RegNum :: Destination(i) != Some(r) ==> g'.regs[r] == g.regs[r])
            && g'.world == g.world && g'.pc == g.pc
            && (!i.MoveToMem? ==> g'.mem == g.mem)
            && (i.MoveToMem? ==> forall a: u32 :: a != Address(i.ea) ==> ReadLong(g', a) == ReadLong(g, a))
            && (i.MoveaMem? || i.MoveaImm? ==> g'.z == g.z)
  {
  }
}
