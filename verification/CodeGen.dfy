/** The code generator (codegen.c): emitters for single instructions and for calls into C. */
module CodeGen {
  import opened Base
  import opened X86
  import opened Cpu

  const MODE_32 := 0
  const MODE_64 := 1

  // 680x0 registers, numbered D0..D7, A0..A7
  const D0 := 0
  const D1 := 1
  const D2 := 2
  const D3 := 3
  const A0 := 8
  const A1 := 9
  const A2 := 10
  const A4 := 12
  const A6 := 14
  const A7 := 15

  // Registers as the emitters number them: 0..7 are R8..R15, 8..15 are RAX..RDI.
  type RegNum = r: int | 0 <= r < 16

  const REG_EAX: RegNum := 8
  const REG_ECX: RegNum := 9
  const REG_EDX: RegNum := 10
  const REG_EBX: RegNum := 11
  const REG_ESP: RegNum := 12
  const REG_EBP: RegNum := 13
  const REG_ESI: RegNum := 14
  const REG_EDI: RegNum := 15

  const X86_REG_FOR_M68K_REG: seq<RegNum> :=
    [0, 1, 2, 3, 4, 5, 6, 7, REG_EAX, REG_ECX, REG_EDX, REG_EBX, REG_EDI, REG_EBP, REG_ESI, REG_ESP]

  const X86_REGS_FOR_FUNC_ARGS: seq<RegNum> := [REG_EDI, REG_ESI, REG_EDX, REG_ECX, 0, 1]

  const AMIGAOS_REGS_TO_PRESERVE: seq<RegNum> := [D2, D3, A2, A4, A6]

  // The hardware register behind an emitter's register number
  function Hw(r: RegNum): Reg { if r < 8 then r + 8 else r - 8 }

  // The hardware register that holds a 680x0 register
  function GuestReg(m: RegNum): Reg { Hw(X86_REG_FOR_M68K_REG[m]) }

  lemma GuestRegInjective(m: RegNum, n: RegNum)
    ensures GuestReg(m) == GuestReg(n) ==> m == n
  {
  }

  // ----------------------------------------------------- instruction lists

  function Pushes(rs: seq<Reg>): seq<Instr> {
    if rs == [] then [] else [Push(rs[0])] + Pushes(rs[1..])
  }

  // Pops that undo Pushes(rs), last register first
  function Pops(rs: seq<Reg>): seq<Instr> {
    if rs == [] then [] else Pops(rs[1..]) + [Pop(rs[0])]
  }

  const SAVED_BY_CALLEE: seq<Reg> := [R10, R11, RDX, RDI, RSI]
  const SAVED_STATE: seq<Reg> := [R10, R11, RDX, RDI, RSI, R8, R9, RAX, RCX]

  function AbsCallEnter(f: u64): seq<Instr> {
    [Push(RBP), MovReg64(RSP, RBP), AndMinus16(RSP), MovImm64(RAX, f)]
  }

  const ABS_CALL_LEAVE: seq<Instr> := [MovReg64(RBP, RSP), Pop(RBP)]

  // A call of the C function f
  function AbsCall(f: u64): seq<Instr> {
    AbsCallEnter(f) + [CallReg(RAX)] + ABS_CALL_LEAVE
  }

  // A call of the C function f with one argument that leaves no trace in the guest's state
  function TransparentCall(f: u64, arg: u64): seq<Instr> {
    Pushes(SAVED_STATE) + [Pushfq, MovImm64(RDI, arg)] + AbsCall(f) + [Popfq] + Pops(SAVED_STATE)
  }

  // ------------------------------------------------ saving and restoring

  lemma PushEffect(call: Calls, r: Reg, s: Cpu)
    requires 8 <= s.regs[RSP]
    ensures var t := Exec(call, Push(r), s);
            && t.regs == s.regs[RSP := s.regs[RSP] - 8]
            && t.flags == s.flags && t.world == s.world
            && Load64(t.mem, t.regs[RSP]) == s.regs[r]
            && forall a: int :: !(t.regs[RSP] <= a < s.regs[RSP]) ==> t.mem(a) == s.mem(a)
  {
    LoadStore64(s.mem, s.regs[RSP] - 8, s.regs[r]);
  }

  lemma PushfqEffect(call: Calls, s: Cpu)
    requires 8 <= s.regs[RSP]
    ensures var t := Exec(call, Pushfq, s);
            && t.regs == s.regs[RSP := s.regs[RSP] - 8]
            && t.flags == s.flags && t.world == s.world
            && Load64(t.mem, t.regs[RSP]) == s.flags
            && forall a: int :: !(t.regs[RSP] <= a < s.regs[RSP]) ==> t.mem(a) == s.mem(a)
  {
    LoadStore64(s.mem, s.regs[RSP] - 8, s.flags);
  }

  lemma PopEffect(call: Calls, r: Reg, s: Cpu)
    requires s.regs[RSP] + 8 < TWO64
    ensures Exec(call, Pop(r), s) == s.(regs := s.regs[RSP := s.regs[RSP] + 8][r := Load64(s.mem, s.regs[RSP])])
  {
  }

  lemma {:induction false} PushesEffect(call: Calls, rs: seq<Reg>, s: Cpu)
    requires 8 * |rs| <= s.regs[RSP] && RSP !in rs
    ensures var t := ExecAll(call, Pushes(rs), s);
            && t.regs == s.regs[RSP := s.regs[RSP] - 8 * |rs|]
            && t.flags == s.flags && t.world == s.world
            && forall a: int :: !(t.regs[RSP] <= a < s.regs[RSP]) ==> t.mem(a) == s.mem(a)
    decreases |rs|
  {
    hide Exec, Load64;
    if rs != [] {
      PushEffect(call, rs[0], s);
      PushesEffect(call, rs[1..], Exec(call, Push(rs[0]), s));
      assert Pushes(rs)[1..] == Pushes(rs[1..]);
    }
  }

  // Popping what was pushed restores the registers, whatever happened in between, as long as
  // RSP is back and the pushed values are intact.
  lemma {:induction false} PopsRestore(call: Calls, rs: seq<Reg>, s: Cpu, t: Cpu)
    requires 8 * |rs| <= s.regs[RSP] && RSP !in rs
    requires var p := ExecAll(call, Pushes(rs), s);
             t.regs[RSP] == p.regs[RSP] && SameMem(p.mem, t.mem, p.regs[RSP], s.regs[RSP])
    ensures var u := ExecAll(call, Pops(rs), t);
            && u.regs[RSP] == s.regs[RSP]
            && (forall r: Reg :: r in rs ==> u.regs[r] == s.regs[r])
            && (forall r: Reg :: r !in rs && r != RSP ==> u.regs[r] == t.regs[r])
            && u.flags == t.flags && u.mem == t.mem && u.world == t.world
    decreases |rs|
  {
    hide Exec, Load64;
    if rs != [] {
      var s' := Exec(call, Push(rs[0]), s);
      var rest := rs[1..];
      PushEffect(call, rs[0], s);
      assert Pushes(rs)[1..] == Pushes(rest);
      var p := ExecAll(call, Pushes(rs), s);
      assert p == ExecAll(call, Pushes(rest), s');
      PushesEffect(call, rest, s');
      PopsRestore(call, rest, s', t);
      var u' := ExecAll(call, Pops(rest), t);
      LoadFrame64(s'.mem, t.mem, s'.regs[RSP]);
      PopEffect(call, rs[0], u');
      PopsStep(call, rs, t);
    }
  }

  lemma PopsStep(call: Calls, rs: seq<Reg>, t: Cpu)
    requires rs != []
    ensures ExecAll(call, Pops(rs), t) == Exec(call, Pop(rs[0]), ExecAll(call, Pops(rs[1..]), t))
  {
    hide Exec;
    ExecAllAppend(call, Pops(rs[1..]), [Pop(rs[0])], t);
    var u := ExecAll(call, Pops(rs[1..]), t);
    assert ExecAll(call, [Pop(rs[0])], u) == ExecAll(call, [], Exec(call, Pop(rs[0]), u));
  }

  // ------------------------------------------------------ calling C

  // The machine state in which the C function is called
  function CallState(call: Calls, f: u64, s: Cpu): Cpu { ExecAll(call, AbsCallEnter(f), s) }

  lemma EnterEffect(call: Calls, f: u64, s: Cpu)
    requires 32 <= s.regs[RSP]
    ensures var c := CallState(call, f, s);
            && c.regs[RSP] % 16 == 0 && s.regs[RSP] - 24 < c.regs[RSP] <= s.regs[RSP] - 8
            && c.regs[RAX] == f && c.regs[RBP] == s.regs[RSP] - 8
            && (forall r: Reg :: r !in {RSP, RAX, RBP} ==> c.regs[r] == s.regs[r])
            && Load64(c.mem, s.regs[RSP] - 8) == s.regs[RBP]
            && c.world == s.world
            && forall a: int :: !(s.regs[RSP] - 8 <= a < s.regs[RSP]) ==> c.mem(a) == s.mem(a)
  {
    hide Load64;
    var i0, i1, i2, i3 := Push(RBP), MovReg64(RSP, RBP), AndMinus16(RSP), MovImm64(RAX, f);
    ExecFour(call, i0, i1, i2, i3, s);
    PushEffect(call, RBP, s);
  }

  lemma LeaveEffect(call: Calls, d: Cpu)
    requires d.regs[RBP] + 8 < TWO64
    ensures var t := ExecAll(call, ABS_CALL_LEAVE, d);
            && t == d.(regs := d.regs[RSP := d.regs[RBP] + 8][RBP := Load64(d.mem, d.regs[RBP])])
  {
    hide Load64;
    ExecTwo(call, MovReg64(RBP, RSP), Pop(RBP), d);
    var d' := Exec(call, MovReg64(RBP, RSP), d);
    PopEffect(call, RBP, d');
    assert d.regs[RSP := d.regs[RBP]][RSP := d.regs[RBP] + 8] == d.regs[RSP := d.regs[RBP] + 8];
  }

  lemma AbiCall(call: Calls, f: u64, lo: int, top: int, c: Cpu)
    requires Abi(lo, top, call, f) && lo <= c.regs[RSP] <= top
    ensures AbiKept(top, c, call(f, c))
  {
  }

  // The function runs with RSP aligned, and afterwards RSP and all registers it keeps are back.
  lemma AbsCallEffect(call: Calls, f: u64, lo: int, top: int, s: Cpu)
    requires 32 <= s.regs[RSP] <= top && lo + 32 <= s.regs[RSP] && Abi(lo, top, call, f)
    ensures CallState(call, f, s).regs[RSP] % 16 == 0
    ensures var c, t := CallState(call, f, s), ExecAll(call, AbsCall(f), s);
            && AbiKept(top, s, t)
            && (forall r: Reg :: r !in {RSP, RBP} ==> t.regs[r] == call(f, c).regs[r])
            && t.mem == call(f, c).mem && t.world == call(f, c).world && t.flags == call(f, c).flags
  {
    hide Abi, Exec, Load64;
    var c := CallState(call, f, s);
    EnterEffect(call, f, s);
    ExecAllAppend(call, AbsCallEnter(f) + [CallReg(RAX)], ABS_CALL_LEAVE, s);
    ExecAllAppend(call, AbsCallEnter(f), [CallReg(RAX)], s);
    ExecOne(call, CallReg(RAX), c);
    CallEffect(call, f, c);
    var d := call(f, c);
    AbiCall(call, f, lo, top, c);
    LeaveEffect(call, d);
    LoadFrame64(c.mem, d.mem, s.regs[RSP] - 8);
  }

  lemma CallEffect(call: Calls, f: u64, c: Cpu)
    requires c.regs[RAX] == f
    ensures Exec(call, CallReg(RAX), c) == call(f, c)
  {
  }

  // ---------------------------------------------- transparent calls

  // State right after saving registers, flags and loading the argument
  function SavedState(call: Calls, arg: u64, s: Cpu): Cpu {
    ExecAll(call, Pushes(SAVED_STATE) + [Pushfq, MovImm64(RDI, arg)], s)
  }

  lemma SaveEffect(call: Calls, arg: u64, s: Cpu)
    requires 128 <= s.regs[RSP]
    ensures var p, q := ExecAll(call, Pushes(SAVED_STATE), s), SavedState(call, arg, s);
            && p.regs[RSP] == s.regs[RSP] - 72
            && q.regs == s.regs[RSP := s.regs[RSP] - 80][RDI := arg]
            && Load64(q.mem, s.regs[RSP] - 80) == s.flags
            && SameMem(p.mem, q.mem, s.regs[RSP] - 72, s.regs[RSP])
            && (forall a: int :: !(s.regs[RSP] - 80 <= a < s.regs[RSP]) ==> q.mem(a) == s.mem(a))
            && q.world == s.world
  {
    hide Exec, Load64, Pushes;
    var p := ExecAll(call, Pushes(SAVED_STATE), s);
    assert |SAVED_STATE| == 9 && RSP !in SAVED_STATE;
    PushesEffect(call, SAVED_STATE, s);
    ExecAllAppend(call, Pushes(SAVED_STATE), [Pushfq, MovImm64(RDI, arg)], s);
    ExecTwo(call, Pushfq, MovImm64(RDI, arg), p);
    PushfqEffect(call, p);
    MovImmEffect(call, RDI, arg, Exec(call, Pushfq, p));
  }

  // The state the called function finds, and what is back when the call is over: every
  // register, the flags, and the stack from RSP upwards.
  lemma TransparentCallEffect(call: Calls, f: u64, arg: u64, lo: int, top: int, s: Cpu)
    requires 128 <= s.regs[RSP] <= top && lo + 128 <= s.regs[RSP] && Abi(lo, top, call, f)
    ensures var c, t := CallState(call, f, SavedState(call, arg, s)), ExecAll(call, TransparentCall(f, arg), s);
            && c.regs[RDI] == arg && c.regs[RSP] % 16 == 0
            && t.regs == s.regs && t.flags == s.flags
            && SameMem(s.mem, t.mem, s.regs[RSP], top)
            && t.mem == call(f, c).mem && t.world == call(f, c).world
  {
    hide Abi, Exec, Load64, AbsCallEnter;
    var q := SavedState(call, arg, s);
    var c := CallState(call, f, q);
    SaveEffect(call, arg, s);
    EnterEffect(call, f, q);
    AbsCallEffect(call, f, lo, top, q);
    var d := ExecAll(call, AbsCall(f), q);
    LoadFrame64(q.mem, d.mem, s.regs[RSP] - 80);
    var e := Exec(call, Popfq, d);
    PopfqEffect(call, d);
    PopsRestore(call, SAVED_STATE, s, e);
    TransparentSteps(call, f, arg, s);
  }

  lemma MovImmEffect(call: Calls, r: Reg, v: u64, s: Cpu)
    ensures Exec(call, MovImm64(r, v), s) == SetReg(s, r, v)
  {
  }

  lemma PopfqEffect(call: Calls, d: Cpu)
    requires d.regs[RSP] + 8 < TWO64
    ensures Exec(call, Popfq, d) == d.(regs := d.regs[RSP := d.regs[RSP] + 8], flags := Load64(d.mem, d.regs[RSP]))
  {
  }

  lemma TransparentSteps(call: Calls, f: u64, arg: u64, s: Cpu)
    ensures ExecAll(call, TransparentCall(f, arg), s) ==
            ExecAll(call, Pops(SAVED_STATE), Exec(call, Popfq, ExecAll(call, AbsCall(f), SavedState(call, arg, s))))
  {
    hide Exec, AbsCall, Pops, Pushes;
    var a := Pushes(SAVED_STATE) + [Pushfq, MovImm64(RDI, arg)];
    var b := AbsCall(f) + [Popfq];
    assert TransparentCall(f, arg) == (a + b) + Pops(SAVED_STATE);
    ExecAllAppend(call, a + b, Pops(SAVED_STATE), s);
    ExecAllAppend(call, a, b, s);
    var q := SavedState(call, arg, s);
    ExecAllAppend(call, AbsCall(f), [Popfq], q);
    ExecOne(call, Popfq, ExecAll(call, AbsCall(f), q));
  }
}
