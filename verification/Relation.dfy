/** The correspondence between guest and host states, and its preservation by every
    non-branching instruction. */
module Relation {
  import opened Base
  import opened X86
  import opened Cpu
  import opened CodeGen
  import opened M68k
  import opened Translation

  // Memory for a guest long at a is apart from the stack and from where ExecBase is kept.
  predicate GoodCell(env: Env, a: u32) {
    && a + 4 <= 0x8000_0000 && a != ABS_EXEC_BASE_68K
    && (a + 4 <= ABS_EXEC_BASE || ABS_EXEC_BASE + 4 <= a)
    && (a + 4 <= env.stackLow || env.sp + 8 <= a)
  }

  ghost predicate CellsApart(cells: set<u32>) {
    forall a: u32, b: u32 :: a in cells && b in cells && a != b ==> a + 4 <= b || b + 4 <= a
  }

  ghost predicate EnvOk(env: Env) {
    && env.stackLow + STACK_ROOM <= env.sp < env.stackLow + TWO32
    && env.sp + 8 < TWO64
    && (ABS_EXEC_BASE + 4 <= env.stackLow || env.sp + 8 <= ABS_EXEC_BASE)
    && CellsApart(env.cells)
    && forall a: u32 :: a in env.cells ==> GoodCell(env, a)
  }

  // A byte of memory that the guest can see, apart from its stack
  ghost predicate GuestByte(env: Env, x: int) {
    || ABS_EXEC_BASE <= x < ABS_EXEC_BASE + 4
    || exists a: u32 :: a in env.cells && a <= x < a + 4
  }

  lemma StackIsNotGuest(env: Env, x: int)
    requires EnvOk(env) && env.stackLow <= x < env.sp + 8
    ensures !GuestByte(env, x)
  {
  }

  // The guest's long words, always the same ones, are in host memory, in host byte order.
  ghost predicate CellsAgree(env: Env, mem: map<u32, u32>, m: Mem) {
    && mem.Keys == env.cells
    && (forall a: u32 :: a in mem ==> Load32(m, a) == mem[a])
    && Load32(m, ABS_EXEC_BASE) == env.execBase
  }

  // Every guest register but the stack pointer is the low half of its host register.
  ghost predicate RegsAgree(regs: seq<u32>, hostRegs: Regs)
    requires |regs| == 16
  {
    forall m: RegNum :: m != A7 ==> Low32(hostRegs[GuestReg(m)]) == regs[m]
  }

  ghost predicate RelCore(env: Env, g: GuestState, s: Cpu) {
    && RegsAgree(g.regs, s.regs)
    && CellsAgree(env, g.mem, s.mem)
    && g.world == s.world
  }

  // The stack pointers agree, there is room below, and the return address is in place.
  ghost predicate RelStack(env: Env, exit: u64, g: GuestState, s: Cpu) {
    && g.regs[A7] == Low32(s.regs[RSP])
    && env.stackLow + STACK_ROOM <= s.regs[RSP] <= env.sp
    && Load64(s.mem, env.sp) == exit
  }

  predicate RelZ(g: GuestState, s: Cpu) { g.zKnown ==> g.z == ZF(s.flags) }

  ghost predicate Rel(env: Env, exit: u64, g: GuestState, s: Cpu) {
    RelCore(env, g, s) && RelStack(env, exit, g, s) && RelZ(g, s)
  }

  // -------------------------------------------------------- library calls

  // D2-D7 and A2-A7 survive a library call.
  predicate Preserved(m: RegNum) { 2 <= m < 8 || 10 <= m }

  // What a call of a library entry does, to registers, to the shared long words and to the outside
  // world, agrees with the guest's view of it, and keeps the registers and stack that AmigaOS
  // promises to keep.
  ghost predicate LibStep(env: Env, call: Calls, g: GuestState, s: Cpu) {
    var r, t := env.lib(g), call(g.regs[A6], s);
    && RelCore(env, r, t)
    && (forall m: RegNum :: Preserved(m) ==> r.regs[m] == g.regs[m])
    && CallKept(env, s, t)
  }

  // A library call keeps the registers that AmigaOS promises to keep, and the caller's stack.
  ghost predicate CallKept(env: Env, s: Cpu, t: Cpu) {
    && (forall m: RegNum :: Preserved(m) ==> t.regs[GuestReg(m)] == s.regs[GuestReg(m)])
    && SameMem(s.mem, t.mem, s.regs[RSP], env.sp + 8)
  }

  // The library is entered with the caller's A6 on top of the stack.
  ghost predicate LibEntered(env: Env, g: GuestState, s: Cpu) {
    && RelCore(env, g, s) && LibEntry(g.regs[A6])
    && env.stackLow + STACK_ROOM / 2 <= s.regs[RSP] <= env.sp
    && g.regs[A7] == Low32(Sp(s) + 8)
  }

  ghost predicate LibContract(env: Env, call: Calls) {
    forall g: GuestState, s: Cpu :: LibEntered(env, g, s) ==> LibStep(env, call, g, s)
  }

  // ------------------------------------------------------- single effects

  lemma SetGuestReg(env: Env, exit: u64, g: GuestState, s: Cpu, m: RegNum, v: u32)
    requires Rel(env, exit, g, s) && (m == A7 ==> GoodSp(env, v))
    ensures Rel(env, exit, g.(regs := g.regs[m := v]), SetReg(s, GuestReg(m), v))
  {
    hide CellsAgree, Load64;
    forall n: RegNum
      ensures n != m ==> GuestReg(n) != GuestReg(m)
    {
      GuestRegInjective(m, n);
    }
    assert GuestReg(A7) == RSP;
  }

  lemma DispAddrLow(disp: u32)
    ensures DispAddr(disp) == disp <==> disp < 0x8000_0000
  {
  }

  lemma LoadCell(env: Env, exit: u64, g: GuestState, s: Cpu, a: u32)
    requires EnvOk(env) && Rel(env, exit, g, s) && a in g.mem
    ensures a < 0x8000_0000 && a != ABS_EXEC_BASE_68K && Load32(s.mem, DispAddr(a)) == g.mem[a]
  {
    DispAddrLow(a);
  }

  // Addresses in the lower half, and only they, are what the emitted displacement reaches.
  lemma EmittedAddress(ea: Ea)
    ensures DispAddr(HostDisp(ea)) == Address(ea)
            <==> match ea case AbsW(w) => w < 0x8000 case AbsL(l) => l < 0x8000_0000
  {
  }

  lemma ShortAddress(ea: Ea)
    requires Address(ea) < 0x8000_0000
    ensures HostDisp(ea) == Address(ea)
  {
  }

  lemma StoreCell(env: Env, exit: u64, g: GuestState, s: Cpu, a: u32, v: u32)
    requires EnvOk(env) && Rel(env, exit, g, s) && a in g.mem
    ensures Rel(env, exit, g.(mem := g.mem[a := v]), s.(mem := Store(s.mem, DispAddr(a), LE32(v))))
  {
    hide RegsAgree, Load64, Load32, LE32;
    DispAddrLow(a);
    var m, m' := s.mem, Store(s.mem, a, LE32(v));
    LoadStore32(m, a, v);
    forall b: u32 | b in g.mem && b != a
      ensures Load32(m', b) == Load32(m, b)
    {
      LoadFrame32(m, m', b);
    }
    LoadFrame32(m, m', ABS_EXEC_BASE);
    LoadFrame64(m, m', env.sp);
  }

  // Flag changes on both sides. A step after which Z is not known loses nothing.
  lemma SetZ(env: Env, exit: u64, g: GuestState, s: Cpu, z: bool, known: bool, flags: u64)
    requires Rel(env, exit, g, s) && (known ==> z == ZF(flags))
    ensures Rel(env, exit, g.(z := z, zKnown := known), s.(flags := flags))
  {
    hide CellsAgree, RegsAgree, Load64;
  }

  lemma WithZFZF(flags: u64, z: bool)
    ensures ZF(WithZF(flags, z)) == z
  {
  }

  // ----------------------------------------------------- instructions

  // Writing a result register, with or without setting Z
  lemma MoveResult(env: Env, exit: u64, g: GuestState, s: Cpu, n: Num, v: u32)
    requires Rel(env, exit, g, s)
    ensures Rel(env, exit, MoveTo(g, n, v), SetReg(s, Dn(n), v))
  {
    hide Rel, GuestReg;
    SetGuestReg(env, exit, g, s, n, v);
    SetZ(env, exit, g.(regs := g.regs[n := v]), SetReg(s, Dn(n), v), v == 0, false, s.flags);
  }

  lemma SimLoad(env: Env, exit: u64, call: Calls, i: GInstr, g: GuestState, s: Cpu)
    requires i.MoveaMem? || i.MoveMem?
    requires EnvOk(env) && Rel(env, exit, g, s) && Covered(env, i, g)
    ensures Rel(env, exit, GExec(env, i, g), ExecAll(call, Emits(i), s))
  {
    hide Rel, GuestReg, Load32;
    var a := Address(i.ea);
    ExecOne(call, Emits(i)[0], s);
    if i.MoveaMem? && a == ABS_EXEC_BASE_68K {
      ShortAddress(i.ea);
      ExecBaseCell(env, exit, g, s);
      SetGuestReg(env, exit, g, s, 8 + i.n, env.execBase);
    } else {
      LoadCell(env, exit, g, s, a);
      ShortAddress(i.ea);
      if i.MoveaMem? {
        SetGuestReg(env, exit, g, s, 8 + i.n, g.mem[a]);
      } else {
        MoveResult(env, exit, g, s, i.n, g.mem[a]);
      }
    }
  }

  lemma ExecBaseCell(env: Env, exit: u64, g: GuestState, s: Cpu)
    requires Rel(env, exit, g, s)
    ensures Load32(s.mem, DispAddr(ABS_EXEC_BASE)) == env.execBase
  {
    hide RegsAgree, Load32, Load64;
  }

  lemma SimMove(env: Env, exit: u64, call: Calls, i: GInstr, g: GuestState, s: Cpu)
    requires i.MoveaImm? || i.MoveqImm? || i.MoveImm? || i.MoveReg?
    requires EnvOk(env) && Rel(env, exit, g, s) && Covered(env, i, g)
    ensures Rel(env, exit, GExec(env, i, g), ExecAll(call, Emits(i), s))
  {
    hide Rel, GuestReg;
    ExecOne(call, Emits(i)[0], s);
    match i
    case MoveaImm(v, n) => SetGuestReg(env, exit, g, s, 8 + n, v);
    case MoveqImm(data, n) => MoveResult(env, exit, g, s, n, Low32(Signed8(data)));
    case MoveImm(v, n) => MoveResult(env, exit, g, s, n, v);
    case MoveReg(m, n) =>
      DataReg(env, exit, g, s, m);
      MoveResult(env, exit, g, s, n, g.regs[m]);
  }

  lemma DataReg(env: Env, exit: u64, g: GuestState, s: Cpu, m: RegNum)
    requires Rel(env, exit, g, s) && m != A7
    ensures Low32(s.regs[GuestReg(m)]) == g.regs[m]
  {
    hide CellsAgree, Load64;
  }

  lemma SimStore(env: Env, exit: u64, call: Calls, i: GInstr, g: GuestState, s: Cpu)
    requires i.MoveToMem?
    requires EnvOk(env) && Rel(env, exit, g, s) && Covered(env, i, g)
    ensures Rel(env, exit, GExec(env, i, g), ExecAll(call, Emits(i), s))
  {
    hide Rel, GuestReg, LE32;
    var a, v := Address(i.ea), g.regs[i.n];
    ExecOne(call, Emits(i)[0], s);
    DataReg(env, exit, g, s, i.n);
    LoadCell(env, exit, g, s, a);
    ShortAddress(i.ea);
    StoreCell(env, exit, g, s, a, v);
    SetZ(env, exit, g.(mem := g.mem[a := v]), ExecAll(call, Emits(i), s), v == 0, false, s.flags);
  }

  lemma SimFlags(env: Env, exit: u64, call: Calls, i: GInstr, g: GuestState, s: Cpu)
    requires i.Subq? || i.Tst?
    requires EnvOk(env) && Rel(env, exit, g, s) && Covered(env, i, g)
    ensures Rel(env, exit, GExec(env, i, g), ExecAll(call, Emits(i), s))
  {
    hide Rel, GuestReg, WithZF;
    ExecOne(call, Emits(i)[0], s);
    DataReg(env, exit, g, s, i.n);
    if i.Tst? {
      var z := g.regs[i.n] == 0;
      WithZFZF(s.flags, z);
      SetZ(env, exit, g, s, z, true, WithZF(s.flags, z));
    } else {
      var v := Low32(g.regs[i.n] - i.field);
      assert Low32(s.regs[Dn(i.n)] - i.field) == v by { Low32Minus(s.regs[Dn(i.n)], i.field); }
      WithZFZF(s.flags, v == 0);
      SetGuestReg(env, exit, g, s, i.n, v);
      SetZ(env, exit, g.(regs := g.regs[i.n := v]), SetReg(s, Dn(i.n), v), v == 0, true, WithZF(s.flags, v == 0));
    }
  }

  lemma Low32Minus(x: int, k: int)
    ensures Low32(x - k) == Low32(Low32(x) - k)
    ensures Low32(x + k) == Low32(Low32(x) + k)
  {
  }

  // ------------------------------------------------------------------ JSR

  // The guest's memory is the same where the bytes that it sees are.
  lemma CellsFrame(env: Env, mem: map<u32, u32>, m: Mem, m': Mem)
    requires CellsAgree(env, mem, m)
    requires forall x: int :: GuestByte(env, x) ==> m'(x) == m(x)
    ensures CellsAgree(env, mem, m')
  {
    hide Load32, GuestByte;
    forall a: u32 | a in mem
      ensures Load32(m', a) == Load32(m, a)
    {
      CellBytes(env, a);
      LoadFrame32(m, m', a);
    }
    CellBytes(env, ABS_EXEC_BASE);
    LoadFrame32(m, m', ABS_EXEC_BASE);
  }

  lemma CellBytes(env: Env, a: u32)
    requires a in env.cells || a == ABS_EXEC_BASE
    ensures forall x: int :: a <= x < a + 4 ==> GuestByte(env, x)
  {
  }

  // From state s to state t, memory changes neither where the guest sees it nor in its stack.
  ghost predicate GuestMemKept(env: Env, s: Cpu, t: Cpu) {
    && (forall x: int :: GuestByte(env, x) ==> t.mem(x) == s.mem(x))
    && SameMem(s.mem, t.mem, s.regs[RSP], env.sp + 8)
  }

  // Stack writes do not change the guest's memory.
  lemma StackWrites(env: Env, m: Mem, m': Mem, lo: int)
    requires EnvOk(env) && env.stackLow <= lo
    requires forall x: int :: !(lo <= x < env.sp + 8) ==> m'(x) == m(x)
    ensures forall x: int :: GuestByte(env, x) ==> m'(x) == m(x)
  {
    hide EnvOk, GuestByte;
    forall x: int | GuestByte(env, x)
      ensures m'(x) == m(x)
    {
      if lo <= x < env.sp + 8 {
        StackIsNotGuest(env, x);
      }
    }
  }

  // The states in which the library function is entered: the old A6 is on the stack.
  function JsrEnter(call: Calls, disp: u16, s: Cpu): Cpu {
    ExecAll(call, [Push(RSI), AddImm32(RSI, Low32(Signed16(disp)))], s)
  }

  lemma JsrEnterEffect(env: Env, exit: u64, call: Calls, disp: u16, g: GuestState, s: Cpu)
    requires EnvOk(env) && Rel(env, exit, g, s)
    ensures var t := JsrEnter(call, disp, s);
            && t.regs == s.regs[RSP := s.regs[RSP] - 8][RSI := Entry(disp, g)]
            && t.world == s.world
            && Load64(t.mem, t.regs[RSP]) == s.regs[RSI]
            && forall a: int :: !(t.regs[RSP] <= a < s.regs[RSP]) ==> t.mem(a) == s.mem(a)
  {
    hide CellsAgree, Load64, Load32, GuestReg;
    assert GuestReg(A6) == RSI by { GuestRegs(); }
    DataReg(env, exit, g, s, A6);
    PushEffect(call, RSI, s);
    var imm := Low32(Signed16(disp));
    ExecTwo(call, Push(RSI), AddImm32(RSI, imm), s);
    AddEntry(s.regs[RSI], g.regs[A6], disp);
  }

  lemma GuestRegs()
    ensures GuestReg(A6) == RSI && GuestReg(A7) == RSP
  {
  }

  lemma AddEntry(rsi: u64, a6: u32, disp: u16)
    requires Low32(rsi) == a6
    ensures Low32(rsi + Low32(Signed16(disp))) == Low32(a6 + Signed16(disp))
  {
  }

  lemma JsrCore(env: Env, exit: u64, call: Calls, disp: u16, g: GuestState, s: Cpu)
    requires EnvOk(env) && Rel(env, exit, g, s)
    ensures RelCore(env, g.(regs := g.regs[A6 := Entry(disp, g)]), JsrEnter(call, disp, s))
  {
    hide Load64, JsrEnter, GuestReg, Load32;
    var t := JsrEnter(call, disp, s);
    JsrEnterEffect(env, exit, call, disp, g, s);
    StackWrites(env, s.mem, t.mem, t.regs[RSP]);
    CellsFrame(env, g.mem, s.mem, t.mem);
    GuestRegs();
    forall m: RegNum | m != A7 && m != A6
      ensures GuestReg(m) != RSI && GuestReg(m) != RSP
    {
      GuestRegInjective(m, A6);
      GuestRegInjective(m, A7);
    }
  }

  lemma JsrSteps(call: Calls, disp: u16, s: Cpu)
    ensures ExecAll(call, Emits(JsrLib(disp)), s)
            == Exec(call, Pop(RSI), Exec(call, CallReg(RSI), JsrEnter(call, disp, s)))
  {
    hide Exec;
    var xs := [Push(RSI), AddImm32(RSI, Low32(Signed16(disp)))];
    assert Emits(JsrLib(disp)) == xs + [CallReg(RSI), Pop(RSI)];
    ExecAllAppend(call, xs, [CallReg(RSI), Pop(RSI)], s);
    ExecTwo(call, CallReg(RSI), Pop(RSI), ExecAll(call, xs, s));
  }

  lemma SimJsr(env: Env, exit: u64, call: Calls, disp: u16, g: GuestState, s: Cpu)
    requires EnvOk(env) && LibContract(env, call) && Rel(env, exit, g, s) && Covered(env, JsrLib(disp), g)
    ensures Rel(env, exit, GExec(env, JsrLib(disp), g), ExecAll(call, Emits(JsrLib(disp)), s))
  {
    hide Load64, JsrEnter, GuestReg, CellsAgree, LibContract, Emits, RegsAgree;
    var t := JsrEnter(call, disp, s);
    var g' := g.(regs := g.regs[A6 := Entry(disp, g)]);
    JsrEnterEffect(env, exit, call, disp, g, s);
    JsrCore(env, exit, call, disp, g, s);
    LibCall(env, call, g', t);
    var u := call(g'.regs[A6], t);
    JsrSteps(call, disp, s);
    assert Exec(call, CallReg(RSI), t) == u;
    assert u.regs[RSP] == t.regs[RSP] by { assert Preserved(A7); GuestRegs(); }
    PopEffect(call, RSI, u);
    LoadFrame64(t.mem, u.mem, t.regs[RSP]);
    LoadFrame64(s.mem, u.mem, env.sp);
    var r := env.lib(g');
    var v := u.(regs := u.regs[RSP := s.regs[RSP]][RSI := s.regs[RSI]]);
    assert ExecAll(call, Emits(JsrLib(disp)), s) == v;
    JsrBack(env, exit, g, s, r, u);
  }

  lemma LibCall(env: Env, call: Calls, g: GuestState, s: Cpu)
    requires LibContract(env, call) && LibEntered(env, g, s)
    ensures LibStep(env, call, g, s)
  {
    hide LibStep, LibEntered;
  }

  // A6 and the stack pointer are restored after the call.
  lemma JsrBack(env: Env, exit: u64, g: GuestState, s: Cpu, r: GuestState, u: Cpu)
    requires Rel(env, exit, g, s) && RelCore(env, r, u) && r.regs[A7] == g.regs[A7]
    requires Load64(u.mem, env.sp) == exit
    ensures Rel(env, exit, r.(regs := r.regs[A6 := g.regs[A6]], zKnown := false, pc := g.pc),
                u.(regs := u.regs[RSP := s.regs[RSP]][RSI := s.regs[RSI]]))
  {
    hide Load64, GuestReg, CellsAgree;
    GuestRegs();
    forall m: RegNum | m != A7 && m != A6
      ensures GuestReg(m) != RSI && GuestReg(m) != RSP
    {
      GuestRegInjective(m, A6);
      GuestRegInjective(m, A7);
    }
  }

  // Every translated instruction keeps guest and host in correspondence.
  lemma SimInstr(env: Env, exit: u64, call: Calls, i: GInstr, g: GuestState, s: Cpu)
    requires EnvOk(env) && LibContract(env, call) && Rel(env, exit, g, s)
    requires Covered(env, i, g) && !Terminal(i)
    ensures Rel(env, exit, GExec(env, i, g), ExecAll(call, Emits(i), s))
  {
    hide Rel, Covered, GExec, Emits, LibContract;
    match i
    case MoveaMem(_, _) => SimLoad(env, exit, call, i, g, s);
    case MoveMem(_, _) => SimLoad(env, exit, call, i, g, s);
    case MoveToMem(_, _) => SimStore(env, exit, call, i, g, s);
    case Subq(_, _) => SimFlags(env, exit, call, i, g, s);
    case Tst(_) => SimFlags(env, exit, call, i, g, s);
    case JsrLib(disp) => SimJsr(env, exit, call, disp, g, s);
    case _ => SimMove(env, exit, call, i, g, s);
  }
}
