/** Execution of x86-64 instructions on registers, flags and memory.

Control flow (RIP and the code bytes) is added by the Machine module. Memory here is the
stack and the guest's data; the code area is kept apart. */
module Cpu {
  import opened Base
  import opened X86

  type Mem = int -> byte

  type Regs = s: seq<u64> | |s| == 16 witness seq(16, _ => 0)

  // `world` stands for everything a called C function may read or change apart from registers,
  // stack and the memory it shares with the guest: files, and the C code's own data.
  datatype Cpu = Cpu(regs: Regs, flags: u64, mem: Mem, world: nat)

  // What calling the C function (or library entry) at an address does, up to its return
  type Calls = (u64, Cpu) -> Cpu

  // ------------------------------------------------------------------ memory

  function Load32(m: Mem, a: int): u32 {
    var b0: int, b1: int, b2: int, b3: int := m(a), m(a + 1), m(a + 2), m(a + 3);
    b0 + 0x100 * b1 + 0x1_0000 * b2 + 0x100_0000 * b3
  }

  function Load64(m: Mem, a: int): u64 {
    var lo: int, hi: int := Load32(m, a), Load32(m, a + 4);
    lo + TWO32 * hi
  }

  function Store(m: Mem, a: int, b: seq<byte>): Mem {
    x => if a <= x < a + |b| then b[x - a] else m(x)
  }

  lemma LoadStore32(m: Mem, a: int, v: u32)
    ensures Load32(Store(m, a, LE32(v)), a) == v
  {
    var b := LE32(v);
    assert Load32(Store(m, a, b), a) == U32At(b, 0);
    U32AtLE32([], v, b);
    assert [] + b == b;
  }

  lemma LoadStore64(m: Mem, a: int, v: u64)
    ensures Load64(Store(m, a, LE64(v)), a) == v
  {
    hide LE64;
    var b := LE64(v);
    assert Load64(Store(m, a, b), a) == U64At(b, 0);
    U64AtLE64([], v, b);
    assert [] + b == b;
  }

  lemma LoadFrame32(m: Mem, n: Mem, a: int)
    requires forall x: int :: a <= x < a + 4 ==> n(x) == m(x)
    ensures Load32(n, a) == Load32(m, a)
  {
  }

  lemma LoadFrame64(m: Mem, n: Mem, a: int)
    requires forall x: int :: a <= x < a + 8 ==> n(x) == m(x)
    ensures Load64(n, a) == Load64(m, a)
  {
  }

  // ------------------------------------------------------------------- flags

  // The zero flag is bit 6 of RFLAGS.
  predicate ZF(flags: u64) { flags / 64 % 2 == 1 }

  function WithZF(flags: u64, zero: bool): u64 {
    flags - 64 * (flags / 64 % 2) + (if zero then 64 else 0)
  }

  // --------------------------------------------------------------- execution

  // Instructions after which execution goes on with the next one
  predicate Straight(i: Instr) {
    !(i.Ret? || i.Jcc? || i.Jmp32? || i.Jmp8? || i.Int3?)
  }

  // Address of a 32-bit displacement without base: it is sign-extended to 64 bits.
  function DispAddr(disp: u32): u64 { Low64(Signed32(disp)) }

  function Sp(s: Cpu): int { s.regs[RSP] }

  function SetReg(s: Cpu, r: Reg, v: u64): Cpu { s.(regs := s.regs[r := v]) }

  // Writing the 32-bit name of a register clears its upper half.
  function Exec(call: Calls, i: Instr, s: Cpu): Cpu {
    match i
    case MovLoad(dst, disp) => SetReg(s, dst, Load32(s.mem, DispAddr(disp)))
    case MovStore(src, disp) => s.(mem := Store(s.mem, DispAddr(disp), LE32(Low32(s.regs[src]))))
    case MovImm32(dst, imm) => SetReg(s, dst, imm)
    case MovImm64(dst, imm) => SetReg(s, dst, imm)
    case MovReg32(src, dst) => SetReg(s, dst, Low32(s.regs[src]))
    case MovReg64(src, dst) => SetReg(s, dst, s.regs[src])
    case SubImm8(dst, imm) =>
      var v := Low32(s.regs[dst] - Signed8(imm));
      SetReg(s, dst, v).(flags := WithZF(s.flags, v == 0))
    case AddImm32(dst, imm) =>
      var v := Low32(s.regs[dst] + imm);
      SetReg(s, dst, v).(flags := WithZF(s.flags, v == 0))
    case AndMinus16(dst) =>
      var v := s.regs[dst] - s.regs[dst] % 16;
      SetReg(s, dst, v).(flags := WithZF(s.flags, v == 0))
    case TestSelf(dst) => s.(flags := WithZF(s.flags, Low32(s.regs[dst]) == 0))
    case Push(r) => PushValue(s, s.regs[r])
    case Pop(r) => SetReg(SetReg(s, RSP, Low64(Sp(s) + 8)), r, Load64(s.mem, s.regs[RSP]))
    case Pushfq => PushValue(s, s.flags)
    case Popfq => SetReg(s, RSP, Low64(Sp(s) + 8)).(flags := Load64(s.mem, s.regs[RSP]))
    case CallReg(r) => call(s.regs[r], s)
    case _ => s
  }

  function PushValue(s: Cpu, v: u64): Cpu {
    var sp := Low64(Sp(s) - 8);
    SetReg(s, RSP, sp).(mem := Store(s.mem, sp, LE64(v)))
  }

  function ExecAll(call: Calls, xs: seq<Instr>, s: Cpu): Cpu {
    if xs == [] then s else ExecAll(call, xs[1..], Exec(call, xs[0], s))
  }

  lemma {:induction false} ExecAllAppend(call: Calls, a: seq<Instr>, b: seq<Instr>, s: Cpu)
    ensures ExecAll(call, a + b, s) == ExecAll(call, b, ExecAll(call, a, s))
    decreases |a|
  {
    hide Exec;
    if a == [] {
      assert a + b == b;
    } else {
      ExecAllAppend(call, a[1..], b, Exec(call, a[0], s));
      assert (a + b)[1..] == a[1..] + b;
    }
  }

  lemma ExecOne(call: Calls, a: Instr, s: Cpu)
    ensures ExecAll(call, [a], s) == Exec(call, a, s)
  {
    hide Exec;
    assert ExecAll(call, [], Exec(call, a, s)) == Exec(call, a, s);
  }

  lemma ExecTwo(call: Calls, a: Instr, b: Instr, s: Cpu)
    ensures ExecAll(call, [a, b], s) == Exec(call, b, Exec(call, a, s))
  {
    hide Exec;
    assert [a, b] == [a] + [b];
    ExecAllAppend(call, [a], [b], s);
    ExecOne(call, a, s);
    ExecOne(call, b, Exec(call, a, s));
  }

  lemma ExecFour(call: Calls, a: Instr, b: Instr, c: Instr, d: Instr, s: Cpu)
    ensures ExecAll(call, [a, b, c, d], s) == Exec(call, d, Exec(call, c, Exec(call, b, Exec(call, a, s))))
  {
    hide Exec;
    assert [a, b, c, d] == [a, b] + [c, d];
    ExecAllAppend(call, [a, b], [c, d], s);
    ExecTwo(call, a, b, s);
    ExecTwo(call, c, d, Exec(call, b, Exec(call, a, s)));
  }

  // ---------------------------------------------------- calling convention

  // What the System V AMD64 ABI guarantees about a called C function: RBX, RBP, RSP and
  // R12-R15 keep their values, and so does the caller's part of the stack, up to its end `top`.
  ghost predicate AbiKept(top: int, pre: Cpu, post: Cpu) {
    && (forall r: Reg :: r == RBX || r == RBP || r == RSP || r >= 12 ==> post.regs[r] == pre.regs[r])
    && SameMem(pre.mem, post.mem, pre.regs[RSP], top)
  }

  // Function f follows the ABI whenever it is called with a stack pointer from lo up to the
  // stack's end.
  ghost predicate Abi(lo: int, top: int, call: Calls, f: u64) {
    forall c: Cpu :: lo <= c.regs[RSP] <= top ==> AbiKept(top, c, call(f, c))
  }

  ghost predicate SameMem(m: Mem, n: Mem, lo: int, hi: int) {
    forall a: int :: lo <= a < hi ==> n(a) == m(a)
  }
}
