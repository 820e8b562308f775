/** The whole-run theorem at work on a small program, a loop that prints through a library: all its
    assumptions can be met, by a library function that reads memory, and the translated program
    halts having printed as often as the counter says. */
module LoopExample {
  import opened Base
  import opened X86
  import opened Cpu
  import opened CodeGen
  import opened M68k
  import opened Translation
  import opened Relation
  import opened TlCache
  import opened Engine
  import opened Invariant
  import opened Machine
  import opened Simulation
  import opened WholeRun
  import opened Exactness

  // loop: movea.l 4.w,a6; move.l d0,CELL; jsr -552(a6); subq.l #1,d2; bne.s loop; rts
  const LOOP: seq<byte> :=
    [0x2c, 0x78, 0x00, 0x04, 0x23, 0xc0, 0x00, 0x11, 0x00, 0x00,
     0x4e, 0xae, 0xfd, 0xd8, 0x53, 0x82, 0x66, 0xee, 0x4e, 0x75]
  const ENTRY := HUNK_START_ADDRESS
  const AFTER_LOOP := HUNK_START_ADDRESS + 18
  const CELL: u32 := 0x11_0000
  const DISP: u16 := 0xfdd8

  lemma LoopWords()
    ensures WordAt(LOOP, ENTRY) == 0x2c78 && WordAt(LOOP, ENTRY + 2) == 4
    ensures WordAt(LOOP, ENTRY + 4) == 0x23c0 && LongAt(LOOP, ENTRY + 6) == CELL
    ensures WordAt(LOOP, ENTRY + 10) == 0x4eae && WordAt(LOOP, ENTRY + 12) == DISP
    ensures WordAt(LOOP, ENTRY + 14) == 0x5382 && WordAt(LOOP, ENTRY + 16) == 0x66ee
    ensures WordAt(LOOP, AFTER_LOOP) == 0x4e75
  {
  }

  lemma LoopDecodes()
    ensures GDecode(LOOP, ENTRY) == Some(Located(MoveaMem(AbsW(4), 6), ENTRY + 4))
    ensures GDecode(LOOP, ENTRY + 4) == Some(Located(MoveToMem(0, AbsL(CELL)), ENTRY + 10))
    ensures GDecode(LOOP, ENTRY + 10) == Some(Located(JsrLib(DISP), ENTRY + 14))
    ensures GDecode(LOOP, ENTRY + 14) == Some(Located(Subq(1, 2), ENTRY + 16))
    ensures GDecode(LOOP, ENTRY + 16) == Some(Located(BranchZ(false, ENTRY), AFTER_LOOP))
    ensures GDecode(LOOP, AFTER_LOOP) == Some(Located(Rts, AFTER_LOOP + 2))
  {
    hide WordAt, LongAt;
    LoopWords();
  }

  lemma LoopScans()
    ensures ScanTu(LOOP, ENTRY).last == Ends(BranchZ(false, ENTRY), AFTER_LOOP) && ScanTu(LOOP, ENTRY).size == 18
    ensures ScanTu(LOOP, AFTER_LOOP) == Tu([], Ends(Rts, AFTER_LOOP + 2), 2)
  {
    hide GDecode;
    LoopDecodes();
    assert ScanTu(LOOP, ENTRY + 16) == Tu([], Ends(BranchZ(false, ENTRY), AFTER_LOOP), 2);
    assert ScanTu(LOOP, ENTRY + 10).last == Ends(BranchZ(false, ENTRY), AFTER_LOOP);
    assert ScanTu(LOOP, ENTRY + 10).size == 8;
  }

  lemma LoopRoute(env: Env, g: GuestState, n: nat)
    requires g.pc == ENTRY
    ensures Places({ENTRY, AFTER_LOOP}) && Route(env, LOOP, {ENTRY, AFTER_LOOP}, g, n)
  {
    hide ScanTu, Fits, RunUnit;
    LoopScans();
    FitsIfSmall(LOOP, ENTRY);
    FitsIfSmall(LOOP, AFTER_LOOP);
    ClosedRoute(env, LOOP, {ENTRY, AFTER_LOOP}, g, n);
  }

  // ---------------------------------------------------------- surroundings

  const SP: u64 := 0x7000_0000
  const EXEC_BASE: u32 := 0x21_0000

  // The library function adds the number in CELL to the output.
  function Printed(g: GuestState): GuestState { g.(world := g.world + ReadLong(g, CELL)) }

  function HostPrinted(a: u64, c: Cpu): Cpu {
    if LibEntry(a) then c.(world := c.world + Load32(c.mem, CELL)) else c
  }

  function LoopEnv(): Env { Env(EXEC_BASE, SP, 0x6000_0000, {CELL}, Printed) }

  function LoopHost(): Host { Host(Config(LOOP, 0x5000_0000, 0x1000), HostPrinted, 0) }

  // x is printed n times.
  function LoopGuest(x: u32, n: u32): GuestState {
    Guest(seq(16, i => if i == 0 then x else if i == 2 then n else if i == 15 then SP else 0), false, false,
          map[CELL := 0], 0, ENTRY)
  }

  // Memory holds the address of ExecBase, and zeros.
  function LoopMem(a: int): byte { if a == ABS_EXEC_BASE + 2 then 0x21 else 0 }

  function LoopCpu(x: u32, n: u32): Cpu {
    Cpu(seq(16, i => if i == R8 then x else if i == R10 then n else if i == RSP then SP else 0), 0, LoopMem, 0)
  }

  lemma LoopHostOk()
    ensures HostOk(LoopEnv(), LoopHost())
  {
    hide GuestByte;
  }

  // The contract that the theorem asks of library calls holds.
  lemma LoopContract()
    ensures LibContract(LoopEnv(), LoopHost().call)
  {
    forall g: GuestState, s: Cpu | LibEntered(LoopEnv(), g, s)
      ensures LibStep(LoopEnv(), LoopHost().call, g, s)
    {
      PrintedStep(g, s);
    }
  }

  lemma PrintedStep(g: GuestState, s: Cpu)
    requires LibEntered(LoopEnv(), g, s)
    ensures LibStep(LoopEnv(), LoopHost().call, g, s)
  {
    hide Load32, RegsAgree, GuestReg;
    assert CELL in g.mem;
    SameRegs(g, s);
  }

  lemma SameRegs(g: GuestState, s: Cpu)
    requires RegsAgree(g.regs, s.regs)
    ensures RegsAgree(Printed(g).regs, s.regs)
  {
    hide RegsAgree;
  }

  lemma LoopRegs(x: u32, n: u32)
    ensures RegsAgree(LoopGuest(x, n).regs, LoopCpu(x, n).regs)
  {
    hide GuestReg;
    CounterRegs();
    forall m: RegNum | m != A7
      ensures Low32(LoopCpu(x, n).regs[GuestReg(m)]) == LoopGuest(x, n).regs[m]
    {
      GuestRegInjective(m, 0);
      GuestRegInjective(m, 2);
      GuestRegInjective(m, A7);
    }
  }

  lemma CounterRegs()
    ensures GuestReg(0) == R8 && GuestReg(2) == R10 && GuestReg(A7) == RSP
  {
  }

  lemma LoopCells()
    ensures CellsAgree(LoopEnv(), map[CELL := 0], LoopMem) && Load64(LoopMem, SP) == 0
  {
  }

  lemma LoopRel(x: u32, n: u32)
    ensures Rel(LoopEnv(), LoopHost().exit, LoopGuest(x, n), LoopCpu(x, n))
  {
    hide RegsAgree, CellsAgree, Load64;
    LoopRegs(x, n);
    LoopCells();
  }

  // The machine after setup_tu(ENTRY) on an empty cache
  function LoopMachine(x: u32, n: u32, code: seq<byte>): Machine
    requires |code| == MAX_CODE_SIZE
  {
    Machine(LoopCpu(x, n), LoopHost().cfg.codeBase, SetupTu(LoopHost().cfg, EmptyEngine(code), ENTRY, true).e,
            [LoopHost().cfg.codeBase])
  }

  lemma LoopStarted(x: u32, n: u32, code: seq<byte>)
    requires |code| == MAX_CODE_SIZE
    ensures Started(LoopEnv(), LoopHost(), code, LoopGuest(x, n), LoopMachine(x, n, code))
  {
    hide Rel, StubBlock;
    LoopRel(x, n);
    HunkKey(ENTRY);
  }

  // -------------------------------------------------------------- the run

  lemma LoopBranch(g: GuestState)
    requires g.pc == ENTRY + 16 && g.zKnown
    ensures RunUnit(LoopEnv(), LOOP, g) == At(g.(pc := if g.z then AFTER_LOOP else ENTRY))
  {
    LoopDecodes();
    hide GDecode, LoopEnv;
  }

  lemma StraightOn(env: Env, img: Image, g: GuestState, i: GInstr, next: int)
    requires GDecode(img, g.pc) == Some(Located(i, next)) && !Terminal(i) && Covered(env, i, g)
    ensures RunUnit(env, img, g) == RunUnit(env, img, GExec(env, i, g).(pc := next))
  {
    hide GDecode, GExec, Covered;
  }

  // In the loop: x is what is printed, n counts down.
  predicate InLoop(g: GuestState, x: u32, n: u32, w: nat) {
    g.regs[0] == x && g.regs[2] == n && g.regs[15] == SP && CELL in g.mem && g.world == w
  }

  // The four instructions up to the branch
  lemma LoopMovea(g: GuestState, x: u32, n: u32, w: nat)
    requires g.pc == ENTRY && InLoop(g, x, n, w)
    ensures var g1 := GExec(LoopEnv(), MoveaMem(AbsW(4), 6), g).(pc := ENTRY + 4);
            && RunUnit(LoopEnv(), LOOP, g) == RunUnit(LoopEnv(), LOOP, g1)
            && InLoop(g1, x, n, w) && g1.regs[14] == EXEC_BASE && g1.pc == ENTRY + 4
  {
    LoopDecodes();
    hide GDecode, RunUnit;
    StraightOn(LoopEnv(), LOOP, g, MoveaMem(AbsW(4), 6), ENTRY + 4);
  }

  lemma LoopStore(g: GuestState, x: u32, n: u32, w: nat)
    requires g.pc == ENTRY + 4 && InLoop(g, x, n, w) && g.regs[14] == EXEC_BASE
    ensures var g1 := GExec(LoopEnv(), MoveToMem(0, AbsL(CELL)), g).(pc := ENTRY + 10);
            && RunUnit(LoopEnv(), LOOP, g) == RunUnit(LoopEnv(), LOOP, g1)
            && InLoop(g1, x, n, w) && g1.regs[14] == EXEC_BASE && g1.pc == ENTRY + 10 && g1.mem[CELL] == x
  {
    LoopDecodes();
    hide GDecode, RunUnit;
    StraightOn(LoopEnv(), LOOP, g, MoveToMem(0, AbsL(CELL)), ENTRY + 10);
  }

  lemma LoopJsr(g: GuestState, x: u32, n: u32, w: nat)
    requires g.pc == ENTRY + 10 && InLoop(g, x, n, w) && g.regs[14] == EXEC_BASE && g.mem[CELL] == x
    ensures var g1 := GExec(LoopEnv(), JsrLib(DISP), g).(pc := ENTRY + 14);
            && RunUnit(LoopEnv(), LOOP, g) == RunUnit(LoopEnv(), LOOP, g1)
            && InLoop(g1, x, n, w + x) && g1.pc == ENTRY + 14
  {
    LoopDecodes();
    hide GDecode, RunUnit;
    StraightOn(LoopEnv(), LOOP, g, JsrLib(DISP), ENTRY + 14);
  }

  lemma LoopSubq(g: GuestState, x: u32, n: u32, w: nat)
    requires g.pc == ENTRY + 14 && InLoop(g, x, n, w)
    ensures var g1 := GExec(LoopEnv(), Subq(1, 2), g).(pc := ENTRY + 16);
            && RunUnit(LoopEnv(), LOOP, g) == RunUnit(LoopEnv(), LOOP, g1)
            && InLoop(g1, x, Less(n), w) && g1.pc == ENTRY + 16 && g1.zKnown && g1.z == (Less(n) == 0)
  {
    LoopDecodes();
    hide GDecode, RunUnit;
    StraightOn(LoopEnv(), LOOP, g, Subq(1, 2), ENTRY + 16);
  }

  function Less(n: u32): u32 { var i: int := n; Low32(i - 1) }

  // Once through the loop
  lemma LoopUnit(g: GuestState, x: u32, n: u32, w: nat)
    requires g.pc == ENTRY && InLoop(g, x, n, w)
    ensures var r := RunUnit(LoopEnv(), LOOP, g);
            r.At? && InLoop(r.g, x, Less(n), w + x) && r.g.pc == if Less(n) == 0 then AFTER_LOOP else ENTRY
  {
    hide GDecode, LoopEnv, RunUnit, GExec, Less;
    LoopMovea(g, x, n, w);
    var g1 := GExec(LoopEnv(), MoveaMem(AbsW(4), 6), g).(pc := ENTRY + 4);
    LoopStore(g1, x, n, w);
    var g2 := GExec(LoopEnv(), MoveToMem(0, AbsL(CELL)), g1).(pc := ENTRY + 10);
    LoopJsr(g2, x, n, w);
    var g3 := GExec(LoopEnv(), JsrLib(DISP), g2).(pc := ENTRY + 14);
    LoopSubq(g3, x, n, w + x);
    LoopBranch(GExec(LoopEnv(), Subq(1, 2), g3).(pc := ENTRY + 16));
  }

  lemma LoopEnds(g: GuestState)
    requires g.pc == AFTER_LOOP && g.regs[15] == SP
    ensures RunUnit(LoopEnv(), LOOP, g) == Halted(g)
  {
    LoopDecodes();
    hide GDecode;
  }

  // A counter of 0 takes 2 to the 32 rounds.
  function Rounds(n: u32): nat { if n == 0 then TWO32 else n }

  lemma {:induction false} LoopHalts(g: GuestState, x: u32, n: u32, w: nat)
    requires g.pc == ENTRY && InLoop(g, x, n, w)
    ensures var r := RunUnits(LoopEnv(), LOOP, g, Rounds(n) + 1);
            r.Halted? && r.g.regs[2] == 0 && r.g.world == w + Rounds(n) * x
    decreases Rounds(n)
  {
    hide RunUnit, GDecode, LoopEnv;
    LoopUnit(g, x, n, w);
    var g' := RunUnit(LoopEnv(), LOOP, g).g;
    if Less(n) == 0 {
      LoopEnds(g');
      assert RunUnits(LoopEnv(), LOOP, g', 1) == Halted(g');
    } else {
      LoopHalts(g', x, Less(n), w + x);
      assert Rounds(n) * x == x + Rounds(Less(n)) * x;
    }
  }

  // The translated loop returns to its caller, having printed x as often as the counter says.
  lemma TranslatedLoopHalts(x: u32, n: u32, code: seq<byte>) returns (k: nat, m': Machine)
    requires |code| == MAX_CODE_SIZE
    ensures Run(LoopHost(), LoopMachine(x, n, code), k) == Some(m')
    ensures m'.rip == LoopHost().exit && m'.cpu.regs[RSP] == SP + 8
    ensures m'.cpu.world == Rounds(n) * x && Low32(m'.cpu.regs[GuestReg(D2)]) == 0
  {
    hide RunUnits, HostOk, LibContract, Places, Route, Started, Run, GuestReg, CellsAgree;
    hide LoopEnv, LoopHost, LoopMachine;
    hide Rounds;
    var starts := {ENTRY, AFTER_LOOP};
    LoopHostOk();
    LoopContract();
    LoopRoute(LoopEnv(), LoopGuest(x, n), Rounds(n) + 1);
    LoopStarted(x, n, code);
    LoopHalts(LoopGuest(x, n), x, n, 0);
    HostCfg();
    var m := LoopMachine(x, n, code);
    k, m' := WholeRunAgrees(LoopEnv(), LoopHost(), starts, code, LoopGuest(x, n), m, Rounds(n) + 1);
    HostCfg();
  }

  lemma HostCfg()
    ensures LoopHost().cfg.img == LOOP && LoopEnv().sp == SP
  {
  }
}
