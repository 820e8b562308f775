/** The supported subset of the Motorola 680x0: decoding and meaning of instructions, after the
    M68000 Family Programmer's Reference Manual. */
module M68k {
  import opened Base

  // Guest memory that holds code: the mapped hunks, starting at HUNK_START_ADDRESS. Reads past
  // its end give 0 here.
  type Image = seq<byte>

  const HUNK_START_ADDRESS := 0x10_0000

  function ByteAt(img: Image, a: int): byte {
    if HUNK_START_ADDRESS <= a < HUNK_START_ADDRESS + |img| then img[a - HUNK_START_ADDRESS] else 0
  }

  // Words and long words are big-endian.
  function WordAt(img: Image, a: int): u16 {
    var hi: int, lo: int := ByteAt(img, a), ByteAt(img, a + 1);
    0x100 * hi + lo
  }

  function LongAt(img: Image, a: int): u32 {
    var hi: int, lo: int := WordAt(img, a), WordAt(img, a + 2);
    0x1_0000 * hi + lo
  }

  // ---------------------------------------------------------- instructions

  type Num = n: int | 0 <= n < 8

  // Absolute addresses with one or two extension words
  datatype Ea = AbsW(w: u16) | AbsL(l: u32)

  datatype GInstr =
    | MoveaMem(ea: Ea, n: Num)
    | MoveaImm(imm: u32, n: Num)
    | MoveqImm(data: byte, n: Num)
    | MoveMem(ea: Ea, n: Num)
    | MoveImm(imm: u32, n: Num)
    | MoveToMem(n: Num, ea: Ea)
    | MoveReg(src: Num, n: Num)
    | Subq(field: Num, n: Num)
    | Tst(n: Num)
    | JsrLib(disp: u16)                      // JSR d16(A6)
    | Rts
    | BranchZ(ifZero: bool, target: int)     // BEQ, BNE

  datatype Located = Located(i: GInstr, next: int)

  // Source operands of MOVE and MOVEA, with the address behind their extension words
  datatype Operand = DReg(n: Num) | AReg(n: Num) | ADisp(n: Num) | Mem(ea: Ea) | Imm(v: u32) | NoOperand

  function OperandAt(img: Image, ea: int, at: int): Operand
    requires 0 <= ea < 64
  {
    if ea < 8 then DReg(ea)
    else if ea < 16 then AReg(ea - 8)
    else if 0x28 <= ea < 0x30 then ADisp(ea - 0x28)
    else if ea == 0x38 then Mem(AbsW(WordAt(img, at)))
    else if ea == 0x39 then Mem(AbsL(LongAt(img, at)))
    else if ea == 0x3c then Imm(LongAt(img, at))
    else NoOperand
  }

  function OperandLength(ea: int): nat {
    if ea == 0x38 then 2 else if ea == 0x39 || ea == 0x3c then 4 else 0
  }

  // The instruction at address pc, if it belongs to the subset
  function GDecode(img: Image, pc: int): Option<Located> {
    var op := WordAt(img, pc);
    if op == 0x4e75 then Some(Located(Rts, pc + 2))
    else if op / 0x40 == 0x12a then DecodeTst(op, pc)
    else if op / 0x40 == 0x13a then DecodeJsr(img, op, pc)
    else if op / 0x1000 == 5 then DecodeSubq(op, pc)
    else if op / 0x1000 == 2 && op / 0x40 % 8 == 1 then DecodeMovea(img, op, pc)
    else if op / 0x1000 == 2 then DecodeMove(img, op, pc)
    else if op / 0x1000 == 7 && op / 0x100 % 2 == 0 then
      Some(Located(MoveqImm(op % 0x100, op / 0x200 % 8), pc + 2))
    else if op / 0x1000 == 6 then DecodeBcc(img, op, pc)
    else None
  }

  function DecodeTst(op: u16, pc: int): Option<Located> {
    if op / 8 % 8 == 0 then Some(Located(Tst(op % 8), pc + 2)) else None
  }

  function DecodeJsr(img: Image, op: u16, pc: int): Option<Located> {
    if op % 0x40 == 0x2e then Some(Located(JsrLib(WordAt(img, pc + 2)), pc + 4)) else None
  }

  // SUBQ.L #data, Dn
  function DecodeSubq(op: u16, pc: int): Option<Located> {
    if op / 0x40 % 8 == 6 && op / 8 % 8 == 0 then Some(Located(Subq(op / 0x200 % 8, op % 8), pc + 2)) else None
  }

  // MOVEA.L
  function DecodeMovea(img: Image, op: u16, pc: int): Option<Located> {
    var next := pc + 2 + OperandLength(op % 0x40);
    match OperandAt(img, op % 0x40, pc + 2)
    case Mem(ea) => Some(Located(MoveaMem(ea, op / 0x200 % 8), next))
    case Imm(v) => Some(Located(MoveaImm(v, op / 0x200 % 8), next))
    case _ => None
  }

  // MOVE.L: in the destination, mode and register fields are swapped.
  function DestinationField(op: u16): (ea: int)
    ensures 0 <= ea < 64
  {
    8 * (op / 0x40 % 8) + op / 0x200 % 8
  }

  function DecodeMove(img: Image, op: u16, pc: int): Option<Located> {
    var s, d := op % 0x40, DestinationField(op);
    var mid := pc + 2 + OperandLength(s);
    var next := mid + OperandLength(d);
    match (OperandAt(img, s, pc + 2), OperandAt(img, d, mid))
    case (Mem(ea), DReg(n)) => Some(Located(MoveMem(ea, n), next))
    case (Imm(v), DReg(n)) => Some(Located(MoveImm(v, n), next))
    case (DReg(n), Mem(ea)) => Some(Located(MoveToMem(n, ea), next))
    case (DReg(m), DReg(n)) => Some(Located(MoveReg(m, n), next))
    case _ => None
  }

  // Displacements count from the address behind the opcode, wherever the extension words end.
  function DecodeBcc(img: Image, op: u16, pc: int): Option<Located> {
    var cond := op / 0x100 % 0x10;
    if cond != 6 && cond != 7 then None
    else if op % 0x100 == 0 then
      Some(Located(BranchZ(cond == 7, pc + 2 + Signed16(WordAt(img, pc + 2))), pc + 4))
    else if op % 0x100 == 0xff then
      Some(Located(BranchZ(cond == 7, pc + 2 + Signed32(LongAt(img, pc + 2))), pc + 6))
    else
      Some(Located(BranchZ(cond == 7, pc + 2 + Signed8(op % 0x100)), pc + 2))
  }

  predicate Terminal(i: GInstr) { i.Rts? || i.BranchZ? }

  // --------------------------------------------------------------- meaning

  // regs: D0..D7, then A0..A7. mem: the long words the program may touch. zKnown says that Z was
  // last set by an instruction after which the translated program has the same Z.
  datatype Guest = Guest(regs: seq<u32>, z: bool, zKnown: bool, mem: map<u32, u32>, world: nat, pc: int)

  // What a program finds around it. lib is the effect of calling the library function whose
  // entry is in A6. The stack lies from stackLow up to sp, the initial stack pointer. cells are the
  // addresses of the long words that the program and the libraries share.
  datatype Env = Env(execBase: u32, sp: u64, stackLow: u64, cells: set<u32>, lib: GuestState -> GuestState)

  function Address(ea: Ea): u32 {
    match ea
    case AbsW(w) => Low32(Signed16(w))
    case AbsL(l) => l
  }

  const ABS_EXEC_BASE_68K: u32 := 4

  // Stack space needed below the stack pointer at any time
  const STACK_ROOM := 256

  // A value that may become the stack pointer
  predicate GoodSp(env: Env, v: u32) { env.stackLow + STACK_ROOM <= v <= env.sp }

  // The library jump tables are mapped from here up to ABS_EXEC_BASE.
  const LIB_BASE_START_ADDRESS := 0x20_0000
  const ABS_EXEC_BASE: u32 := 0x30_0000

  predicate LibEntry(a: u64) { LIB_BASE_START_ADDRESS <= a < ABS_EXEC_BASE }

  type GuestState = g: Guest | |g.regs| == 16 witness Guest(seq(16, _ => 0), false, false, map[], 0, 0)

  // What the theorems ask of an instruction in the state in which it is executed: memory operands
  // are among the program's long words (or the address of ExecBase, for MOVEA), the data field of
  // SUBQ is not 0, JSR goes to a library, and a branch comes when Z is known.
  predicate Covered(env: Env, i: GInstr, g: GuestState) {
    match i
    case MoveaMem(ea, n) =>
      && (Address(ea) == ABS_EXEC_BASE_68K || Address(ea) in g.mem)
      && (n == 7 ==> GoodSp(env, AddressValue(env, ea, g)))
    case MoveaImm(v, n) => n == 7 ==> GoodSp(env, v)
    case MoveMem(ea, _) => Address(ea) in g.mem
    case MoveToMem(_, ea) => Address(ea) in g.mem
    case Subq(field, _) => field != 0
    case JsrLib(disp) => LibEntry(Entry(disp, g))
    case BranchZ(_, _) => g.zKnown
    case Rts => g.regs[15] == Low32(env.sp)
    case _ => true
  }

  function ReadLong(g: Guest, a: u32): u32 { if a in g.mem then g.mem[a] else 0 }

  function AddressValue(env: Env, ea: Ea, g: Guest): u32 {
    if Address(ea) == ABS_EXEC_BASE_68K then env.execBase else ReadLong(g, Address(ea))
  }

  // MOVE and MOVEQ set Z, which the translated program does not do.
  function MoveTo(g: GuestState, n: Num, v: u32): GuestState {
    g.(regs := g.regs[n := v], z := v == 0, zKnown := false)
  }

  function GExec(env: Env, i: GInstr, g: GuestState): GuestState {
    match i
    case MoveaMem(ea, n) => g.(regs := g.regs[8 + n := AddressValue(env, ea, g)])
    case MoveaImm(v, n) => g.(regs := g.regs[8 + n := v])
    case MoveqImm(data, n) => MoveTo(g, n, Low32(Signed8(data)))
    case MoveMem(ea, n) => MoveTo(g, n, ReadLong(g, Address(ea)))
    case MoveImm(v, n) => MoveTo(g, n, v)
    case MoveToMem(n, ea) =>
      g.(mem := g.mem[Address(ea) := g.regs[n]], z := g.regs[n] == 0, zKnown := false)
    case MoveReg(m, n) => MoveTo(g, n, g.regs[m])
    case Subq(field, n) =>
      var v := Low32(g.regs[n] - QuickData(field));
      g.(regs := g.regs[n := v], z := v == 0, zKnown := true)
    case Tst(n) => g.(z := g.regs[n] == 0, zKnown := true)
    case JsrLib(disp) => CallLib(env, disp, g)
    case _ => g
  }

  // The data field 0 of SUBQ stands for 8.
  function QuickData(field: Num): int { if field == 0 then 8 else field }

  function Entry(disp: u16, g: GuestState): u32 { Low32(g.regs[14] + Signed16(disp)) }

  // The library function is entered with its own address in A6; the caller's A6 comes back.
  function CallLib(env: Env, disp: u16, g: GuestState): GuestState {
    var r := env.lib(g.(regs := g.regs[14 := Entry(disp, g)]));
    r.(regs := r.regs[14 := g.regs[14]], zKnown := false, pc := g.pc)
  }

  // ------------------------------------------------------------------ runs

  // At: a translation unit is about to start. Halted: RTS with the initial stack pointer.
  // Stuck: the next instruction is outside the subset, or not covered in this state.
  datatype Outcome = At(g: GuestState) | Halted(g: GuestState) | Stuck

  lemma DecodeAdvances(img: Image, pc: int)
    ensures GDecode(img, pc).Some? ==>
              pc + 2 <= GDecode(img, pc).value.next <= pc + 10 && pc < HUNK_START_ADDRESS + |img|
  {
  }

  // Execute instructions one by one up to and including the next branch or RTS.
  function RunUnit(env: Env, img: Image, g: GuestState): Outcome
    decreases HUNK_START_ADDRESS + |img| - g.pc
  {
    DecodeAdvances(img, g.pc);
    match GDecode(img, g.pc)
    case None => Stuck
    case Some(Located(i, next)) =>
      if !Covered(env, i, g) then Stuck
      else
        match i
        case Rts => Halted(g)
        case BranchZ(ifZero, target) => At(g.(pc := if g.z == ifZero then target else next))
        case _ => RunUnit(env, img, GExec(env, i, g).(pc := next))
  }

  function RunUnits(env: Env, img: Image, g: GuestState, n: nat): Outcome
    decreases n
  {
    if n == 0 then At(g)
    else
      match RunUnit(env, img, g)
      case At(g') => RunUnits(env, img, g', n - 1)
      case r => r
  }

  // Where the units after the first one start, in a run of n units
  function Starts(env: Env, img: Image, g: GuestState, n: nat): seq<int>
    decreases n
  {
    if n == 0 then []
    else
      match RunUnit(env, img, g)
      case At(g') => [g'.pc] + Starts(env, img, g', n - 1)
      case _ => []
  }
}
