/** One translation unit: the machine running its translated block does what the 680x0 does. */
module Simulation {
  import opened Base
  import opened X86
  import opened Cpu
  import opened CodeGen
  import opened CodeSize
  import opened M68k
  import opened Translation
  import opened Relation
  import opened TlCache
  import opened Engine
  import opened Invariant
  import opened Machine

  // ---------------------------------------------------------- assumptions

  // A call of translate_tu() keeps what the ABI says, and does not touch the guest's memory.
  ghost predicate QuietCall(env: Env, pre: Cpu, post: Cpu) {
    && AbiKept(env.sp + 8, pre, post)
    && (forall a: int :: GuestByte(env, a) ==> post.mem(a) == pre.mem(a))
    && post.world == pre.world
  }

  ghost predicate HostOk(env: Env, h: Host) {
    && EnvOk(env) && ConfigOk(h.cfg)
    && !LibEntry(h.cfg.translateAddr) && !IsBlockStart(h.cfg, h.exit)
    && forall c: Cpu ::
         env.stackLow <= c.regs[RSP] <= env.sp + 8 ==> QuietCall(env, c, h.call(h.cfg.translateAddr, c))
  }

  lemma HostFacts(env: Env, h: Host)
    requires HostOk(env, h)
    ensures EnvOk(env) && ConfigOk(h.cfg) && !LibEntry(h.cfg.translateAddr) && !IsBlockStart(h.cfg, h.exit)
  {
  }

  lemma TranslateIsQuiet(env: Env, h: Host, c: Cpu)
    requires HostOk(env, h) && env.stackLow <= c.regs[RSP] <= env.sp + 8
    ensures QuietCall(env, c, h.call(h.cfg.translateAddr, c))
  {
  }

  // --------------------------------------------------------- straight code

  lemma PlainInstr(env: Env, h: Host, i: GInstr, g: GuestState, s: Cpu)
    requires HostOk(env, h) && Rel(env, h.exit, g, s) && Covered(env, i, g) && !Terminal(i)
    ensures Plain(h, Emits(i), s)
  {
    hide Rel, GuestByte, EnvOk, Exec;
    if i.JsrLib? {
      PlainJsr(env, h, i.disp, g, s);
    } else {
      assert Plain(h, [], Exec(h.call, Emits(i)[0], s));
    }
  }

  lemma PlainJsr(env: Env, h: Host, disp: u16, g: GuestState, s: Cpu)
    requires HostOk(env, h) && Rel(env, h.exit, g, s) && LibEntry(Entry(disp, g))
    ensures Plain(h, Emits(JsrLib(disp)), s)
  {
    hide Rel, GuestByte, EnvOk, Exec, JsrEnter;
    JsrEnterEffect(env, h.exit, h.call, disp, g, s);
    var a, b := [Push(RSI), AddImm32(RSI, Low32(Signed16(disp)))], [CallReg(RSI), Pop(RSI)];
    assert Plain(h, a, s) by { PlainTwo(h, a[0], a[1], s); }
    var t := ExecAll(h.call, a, s);
    assert t == JsrEnter(h.call, disp, s) by { JsrEnterIs(h, disp, s); }
    PlainTwo(h, b[0], b[1], t);
    PlainAppend(h, a, b, s);
    assert a + b == Emits(JsrLib(disp));
  }

  lemma JsrEnterIs(h: Host, disp: u16, s: Cpu)
    ensures ExecAll(h.call, [Push(RSI), AddImm32(RSI, Low32(Signed16(disp)))], s) == JsrEnter(h.call, disp, s)
  {
  }

  lemma PlainTwo(h: Host, i: Instr, j: Instr, s: Cpu)
    requires Straight(i) && Straight(j) && !j.CallReg?
    requires i.CallReg? ==> s.regs[i.r] != h.cfg.translateAddr
    ensures Plain(h, [i, j], s)
  {
    hide Exec;
    var s' := Exec(h.call, i, s);
    assert [i, j][1..] == [j] && [j][1..] == [];
    assert Plain(h, [], Exec(h.call, j, s'));
    assert Plain(h, [j], s');
  }

  // ------------------------------------------------------ last instruction

  lemma RelPc(env: Env, exit: u64, g: GuestState, s: Cpu, pc: int)
    requires Rel(env, exit, g, s)
    ensures Rel(env, exit, g.(pc := pc), s)
  {
    hide CellsAgree, RegsAgree, Load64;
  }

  // A displacement inside the code area leads where it should.
  lemma DisplacementLands(cfg: Config, target: u64, from: int)
    requires ConfigOk(cfg)
    requires 0 <= target - cfg.codeBase < MAX_CODE_SIZE && 0 <= from - cfg.codeBase <= MAX_CODE_SIZE
    ensures Low64(from + Signed32(Displacement(target, from))) == target
  {
  }

  // The code for a branch at m.rip, which jumps to the blocks at taken and notTaken
  predicate BranchCode(h: Host, m: Machine, ifZero: bool, taken: u64, notTaken: u64) {
    CodeAt(m.e.code, m.rip - h.cfg.codeBase, BranchOpcode(ifZero) + BranchRest(taken, notTaken, m.rip))
  }

  lemma BranchInstrs(h: Host, m: Machine, ifZero: bool, taken: u64, notTaken: u64)
    requires BranchCode(h, m, ifZero, taken, notTaken)
    ensures CodeAt(m.e.code, m.rip - h.cfg.codeBase, Enc(Jcc(ifZero, Displacement(taken, m.rip + 6))))
    ensures CodeAt(m.e.code, m.rip + 6 - h.cfg.codeBase, Enc(Jmp32(Displacement(notTaken, m.rip + 11))))
  {
    hide LE32, Displacement, CodeAt, Enc;
    var d, e := Displacement(taken, m.rip + 6), Displacement(notTaken, m.rip + 11);
    JumpEncodings(ifZero, d, e);
    assert BranchOpcode(ifZero) + BranchRest(taken, notTaken, m.rip) == Enc(Jcc(ifZero, d)) + Enc(Jmp32(e));
    CodeAtSplit(m.e.code, m.rip - h.cfg.codeBase, Enc(Jcc(ifZero, d)), Enc(Jmp32(e)));
  }

  lemma JumpEncodings(ifZero: bool, a: u32, b: u32)
    ensures Enc(Jcc(ifZero, a)) == BranchOpcode(ifZero) + LE32(a) && Enc(Jmp32(b)) == [0xe9] + LE32(b)
  {
    hide LE32;
  }

  // The two jumps of a translated branch reach the block of the branch target if the condition
  // holds and the block of the next instruction if not.
  lemma BranchLands(h: Host, m: Machine, ifZero: bool, taken: u64, notTaken: u64, b: int) returns (n: nat)
    requires ConfigOk(h.cfg) && BranchCode(h, m, ifZero, taken, notTaken)
    requires IsBlockStart(h.cfg, taken) && IsBlockStart(h.cfg, notTaken)
    requires b % MAX_CODE_BLOCK_SIZE == 0 && b <= m.rip - h.cfg.codeBase && m.rip - h.cfg.codeBase + 11 <= b
        + MAX_CODE_BLOCK_SIZE
    requires 0 <= b && b + MAX_CODE_BLOCK_SIZE <= MAX_CODE_SIZE
    ensures var to := if ZF(m.cpu.flags) == ifZero then taken else notTaken;
            Run(h, m, n) == Some(m.(rip := to, trace := m.trace + [to]))
  {
    hide Enc, Displacement, Signed32, Low64, BranchCode, Fetch;
    BranchInstrs(h, m, ifZero, taken, notTaken);
    FetchEnc(h, m, Jcc(ifZero, Displacement(taken, m.rip + 6)));
    JumpSizes(ifZero, Displacement(taken, m.rip + 6), Displacement(notTaken, m.rip + 11));
    DisplacementLands(h.cfg, taken, m.rip + 6);
    DisplacementLands(h.cfg, notTaken, m.rip + 11);
    RunOne(h, m);
    n := 1;
    if ZF(m.cpu.flags) != ifZero {
      InsideBlock(h.cfg, m.rip + 6, b);
      var m' := m.(rip := m.rip + 6);
      assert Step(h, m) == Some(m');
      FetchEnc(h, m', Jmp32(Displacement(notTaken, m.rip + 11)));
      RunOne(h, m');
      RunAdd(h, m, 1, 1);
      n := 2;
    }
  }

  lemma JumpSizes(ifZero: bool, a: u32, b: u32)
    ensures |Enc(Jcc(ifZero, a))| == 6 && |Enc(Jmp32(b))| == 5
  {
    hide LE32;
  }

  lemma RetReturns(env: Env, h: Host, g: GuestState, m: Machine)
    requires HostOk(env, h) && Rel(env, h.exit, g, m.cpu) && g.regs[A7] == Low32(env.sp)
    requires CodeAt(m.e.code, m.rip - h.cfg.codeBase, [0xc3])
    ensures Run(h, m, 1) == Some(m.(cpu := SetReg(m.cpu, RSP, env.sp + 8), rip := h.exit))
  {
    hide HostOk, EnvOk, Load64, RelCore, RelZ, Fetch;
    HostFacts(env, h);
    SpInStack(env);
    assert Enc(Ret) == [0xc3];
    FetchEnc(h, m, Ret);
    RunOne(h, m);
    SameSp(env, m.cpu.regs[RSP]);
  }

  lemma SpInStack(env: Env)
    requires EnvOk(env)
    ensures env.sp + 8 < TWO64
  {
  }

  lemma SameSp(env: Env, sp: u64)
    requires EnvOk(env) && env.stackLow <= sp <= env.sp && Low32(sp) == Low32(env.sp)
    ensures sp == env.sp
  {
  }

  // -------------------------------------------------------- a whole unit

  // The translation of the unit at pc is what the machine is about to execute.
  ghost predicate AtUnit(h: Host, m: Machine, pc: int) {
    var tu := ScanTu(h.cfg.img, pc);
    && tu.last.Ends? && SuccessorsCached(m.e.cache, tu.last)
    && CodeAt(m.e.code, m.rip - h.cfg.codeBase, TuBytes(m.e.cache, tu, m.rip))
  }

  // The unit's translation lies in the block at b, behind its start.
  predicate InBlock(h: Host, m: Machine, pc: int, b: int) {
    && b % MAX_CODE_BLOCK_SIZE == 0 && 0 <= b && b + MAX_CODE_BLOCK_SIZE <= MAX_CODE_SIZE
    && b <= m.rip - h.cfg.codeBase
    && m.rip - h.cfg.codeBase + EmittedSize(ScanTu(h.cfg.img, pc)) <= b + MAX_CODE_BLOCK_SIZE
  }

  lemma ScanStep(h: Host, m: Machine, pc: int, b: int)
    requires AtUnit(h, m, pc) && InBlock(h, m, pc, b)
    requires GDecode(h.cfg.img, pc).Some? && !Terminal(GDecode(h.cfg.img, pc).value.i)
    ensures var Located(i, next) := GDecode(h.cfg.img, pc).value;
            var m' := m.(rip := m.rip + |EncAll(Emits(i))|);
            && CodeAt(m.e.code, m.rip - h.cfg.codeBase, EncAll(Emits(i)))
            && m.rip - h.cfg.codeBase + |EncAll(Emits(i))| < b + MAX_CODE_BLOCK_SIZE
            && AtUnit(h, m', next) && InBlock(h, m', next, b)
  {
    hide Emits, LastBytes, CodeAt, GDecode, EncAll, BranchRest;
    var Located(i, next) := GDecode(h.cfg.img, pc).value;
    var tu, rest := ScanTu(h.cfg.img, pc), ScanTu(h.cfg.img, next);
    BodyCons(i, rest.body);
    assert tu.body == [i] + rest.body && tu.last == rest.last;
    var x, y := EncAll(Emits(i)), TuBytes(m.e.cache, rest, m.rip + |EncAll(Emits(i))|);
    assert TuBytes(m.e.cache, tu, m.rip) == x + y;
    CodeAtSplit(m.e.code, m.rip - h.cfg.codeBase, x, y);
    LastNotEmpty(rest);
  }

  lemma BodyCons(i: GInstr, body: seq<GInstr>)
    ensures EncAll(EmitsAll([i] + body)) == EncAll(Emits(i)) + EncAll(EmitsAll(body))
  {
    hide Emits, Enc;
    assert ([i] + body)[1..] == body;
    EncAllAppend(Emits(i), EmitsAll(body));
  }

  lemma LastNotEmpty(tu: Tu)
    requires tu.last.Ends?
    ensures EmittedSize(tu) >= 1
  {
  }

  // Guest and machine after a unit, for the outcome r of the guest's run. m is the machine before.
  ghost predicate UnitDone(env: Env, h: Host, m: Machine, m': Machine, r: Outcome) {
    && m'.e == m.e
    && match r
       case At(g) =>
         && Rel(env, h.exit, g, m'.cpu)
         && Key(Low64(g.pc)) in m.e.cache && m'.rip == m.e.cache[Key(Low64(g.pc))]
         && m'.trace == m.trace + [m'.rip]
       case Halted(g) => HaltedTogether(env, h, g, m') && m'.trace == m.trace
       case Stuck => true
  }

  // The program has returned: same registers and memory, and the stack pointer behind the return address
  ghost predicate HaltedTogether(env: Env, h: Host, g: GuestState, m: Machine) {
    m.rip == h.exit && RelCore(env, g, m.cpu) && RelZ(g, m.cpu) && m.cpu.regs[RSP] == env.sp + 8
  }

  lemma SimUnit(env: Env, h: Host, g: GuestState, m: Machine, b: int) returns (n: nat)
    requires HostOk(env, h) && LibContract(env, h.call) && InArea(h.cfg, m.e) && Rel(env, h.exit, g, m.cpu)
    requires AtUnit(h, m, g.pc) && InBlock(h, m, g.pc, b)
    requires !RunUnit(env, h.cfg.img, g).Stuck?
    ensures Run(h, m, n).Some? && UnitDone(env, h, m, Run(h, m, n).value, RunUnit(env, h.cfg.img, g))
    decreases HUNK_START_ADDRESS + |h.cfg.img| - g.pc
  {
    hide Rel, HostOk, LibContract, Emits, AtUnit, InBlock, Plain, GExec, Covered, Run, UnitDone, GDecode, InArea;
    DecodeAdvances(h.cfg.img, g.pc);
    var Located(i, next) := GDecode(h.cfg.img, g.pc).value;
    if Terminal(i) {
      n := SimLast(env, h, g, m, b);
    } else {
      var k := |Emits(i)|;
      var m1 := StraightStep(env, h, g, m, b, i, next);
      var g1 := GExec(env, i, g).(pc := next);
      var n1 := SimUnit(env, h, g1, m1, b);
      RunAdd(h, m, k, n1);
      n := k + n1;
      UnitDoneLater(env, h, m, m1, Run(h, m1, n1).value, RunUnit(env, h.cfg.img, g1));
    }
  }

  lemma UnitDoneLater(env: Env, h: Host, m: Machine, m1: Machine, m2: Machine, r: Outcome)
    requires m1.e == m.e && m1.trace == m.trace && UnitDone(env, h, m1, m2, r)
    ensures UnitDone(env, h, m, m2, r)
  {
    hide Rel, HaltedTogether;
  }

  lemma StraightStep(env: Env, h: Host, g: GuestState, m: Machine, b: int, i: GInstr, next: int) returns (m': Machine)
    requires HostOk(env, h) && LibContract(env, h.call) && Rel(env, h.exit, g, m.cpu)
    requires AtUnit(h, m, g.pc) && InBlock(h, m, g.pc, b)
    requires GDecode(h.cfg.img, g.pc) == Some(Located(i, next)) && !Terminal(i) && Covered(env, i, g)
    ensures Run(h, m, |Emits(i)|) == Some(m') && m'.e == m.e && m'.trace == m.trace
    ensures m'.cpu == ExecAll(h.call, Emits(i), m.cpu)
    ensures Rel(env, h.exit, GExec(env, i, g).(pc := next), m'.cpu)
    ensures AtUnit(h, m', next) && InBlock(h, m', next, b)
  {
    hide Rel, Emits, Plain, GExec, Covered, Run, GDecode, LibContract, CodeAt, AtUnit;
    hide HostOk, EnvOk, ScanTu, EmittedSize, EncAll, Step;
    HostFacts(env, h);
    ScanStep(h, m, g.pc, b);
    PlainInstr(env, h, i, g, m.cpu);
    RunPlain(h, m, Emits(i), b);
    m' := m.(cpu := ExecAll(h.call, Emits(i), m.cpu), rip := m.rip + |EncAll(Emits(i))|);
    SimInstr(env, h.exit, h.call, i, g, m.cpu);
    RelPc(env, h.exit, GExec(env, i, g), m'.cpu, next);
    SamePlace(h, m.(rip := m'.rip), m', next);
  }

  lemma SamePlace(h: Host, m: Machine, m': Machine, pc: int)
    requires m'.rip == m.rip && m'.e == m.e && AtUnit(h, m, pc)
    ensures AtUnit(h, m', pc)
  {
    hide ScanTu, TuBytes, CodeAt;
  }

  lemma SimLast(env: Env, h: Host, g: GuestState, m: Machine, b: int) returns (n: nat)
    requires HostOk(env, h) && InArea(h.cfg, m.e) && Rel(env, h.exit, g, m.cpu)
    requires AtUnit(h, m, g.pc) && InBlock(h, m, g.pc, b)
    requires GDecode(h.cfg.img, g.pc).Some? && Terminal(GDecode(h.cfg.img, g.pc).value.i)
    requires Covered(env, GDecode(h.cfg.img, g.pc).value.i, g)
    ensures Run(h, m, n).Some? && UnitDone(env, h, m, Run(h, m, n).value, RunUnit(env, h.cfg.img, g))
  {
    hide Rel, GDecode, BranchRest, Run;
    var Located(i, next) := GDecode(h.cfg.img, g.pc).value;
    LastCode(h, m, g.pc);
    if i.Rts? {
      n := 1;
      RetReturns(env, h, g, m);
      HaltRel(env, h, g, m.cpu);
    } else {
      var taken, notTaken := m.e.cache[Key(Low64(i.target))], m.e.cache[Key(Low64(next))];
      Cached(h.cfg, m.e, Key(Low64(i.target)));
      Cached(h.cfg, m.e, Key(Low64(next)));
      n := BranchLands(h, m, i.ifZero, taken, notTaken, b);
      ZAgrees(env, h.exit, g, m.cpu);
      RelPc(env, h.exit, g, m.cpu, if g.z == i.ifZero then i.target else next);
    }
  }

  // A unit without body consists of its last instruction.
  lemma LastCode(h: Host, m: Machine, pc: int)
    requires AtUnit(h, m, pc)
    requires GDecode(h.cfg.img, pc).Some? && Terminal(GDecode(h.cfg.img, pc).value.i)
    ensures var Located(i, next) := GDecode(h.cfg.img, pc).value;
            if i.Rts? then CodeAt(m.e.code, m.rip - h.cfg.codeBase, [0xc3])
            else
              && Key(Low64(i.target)) in m.e.cache && Key(Low64(next)) in m.e.cache
              && EmittedSize(ScanTu(h.cfg.img, pc)) == 11
              && BranchCode(h, m, i.ifZero, m.e.cache[Key(Low64(i.target))], m.e.cache[Key(Low64(next))])
  {
    hide GDecode, BranchRest, CodeAt, Key;
    var tu := ScanTu(h.cfg.img, pc);
    assert tu.body == [] && BodyBytes(tu) == [];
    assert TuBytes(m.e.cache, tu, m.rip) == LastBytes(m.e.cache, tu.last, m.rip);
  }

  lemma HaltRel(env: Env, h: Host, g: GuestState, s: Cpu)
    requires EnvOk(env) && Rel(env, h.exit, g, s) && g.regs[A7] == Low32(env.sp)
    ensures var t := SetReg(s, RSP, env.sp + 8); RelCore(env, g, t) && RelZ(g, t)
  {
    hide CellsAgree, Load64, GuestReg;
    GuestRegs();
    forall m: RegNum | m != A7
      ensures GuestReg(m) != RSP
    {
      GuestRegInjective(m, A7);
    }
  }

  lemma Cached(cfg: Config, e: Engine, k: nat)
    requires ConfigOk(cfg) && InArea(cfg, e) && k in e.cache
    ensures IsBlockStart(cfg, e.cache[k])
  {
    assert BlockStart(cfg, e.next, e.cache[k]);
  }

  lemma ZAgrees(env: Env, exit: u64, g: GuestState, s: Cpu)
    requires Rel(env, exit, g, s) && g.zKnown
    ensures g.z == ZF(s.flags)
  {
    hide RelCore, RelStack;
  }
}
