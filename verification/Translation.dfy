/** What a translated instruction looks like: the x86 instructions for each 680x0 instruction. */
module Translation {
  import opened Base
  import opened X86
  import opened CodeGen
  import opened M68k

  function Dn(n: Num): Reg { GuestReg(n) }

  function An(n: Num): Reg { GuestReg(8 + n) }

  // The displacement emitted for an address: short addresses are zero-extended.
  function HostDisp(ea: Ea): u32 {
    match ea
    case AbsW(w) => w
    case AbsL(l) => l
  }

  // MOVEA from the address of ExecBase is redirected.
  function MoveaDisp(ea: Ea): u32 {
    if HostDisp(ea) == ABS_EXEC_BASE_68K then ABS_EXEC_BASE else HostDisp(ea)
  }

  // Translation of an instruction that is not the last of its unit
  function Emits(i: GInstr): seq<Instr> {
    match i
    case MoveaMem(ea, n) => [MovLoad(An(n), MoveaDisp(ea))]
    case MoveaImm(v, n) => [MovImm32(An(n), v)]
    case MoveqImm(data, n) => [MovImm32(Dn(n), Low32(Signed8(data)))]
    case MoveMem(ea, n) => [MovLoad(Dn(n), HostDisp(ea))]
    case MoveImm(v, n) => [MovImm32(Dn(n), v)]
    case MoveToMem(n, ea) => [MovStore(Dn(n), HostDisp(ea))]
    case MoveReg(m, n) => [MovReg32(Dn(m), Dn(n))]
    case Subq(field, n) => [SubImm8(Dn(n), field)]
    case Tst(n) => [TestSelf(Dn(n))]
    case JsrLib(disp) => [Push(RSI), AddImm32(RSI, Low32(Signed16(disp))), CallReg(RSI), Pop(RSI)]
    case _ => []
  }

  function EmitsAll(xs: seq<GInstr>): seq<Instr> {
    if xs == [] then [] else Emits(xs[0]) + EmitsAll(xs[1..])
  }
}
