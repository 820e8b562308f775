/** Entering a block: the stub of a pending block translates the unit behind its back, the jump of
    a done block skips the stub; either way the translated code is reached with nothing changed. */
module Blocks {
  import opened Base
  import opened X86
  import opened Cpu
  import opened CodeGen
  import opened CodeSize
  import opened M68k
  import opened Translation
  import opened Relation
  import opened TlCache
  import opened Engine
  import opened Invariant
  import opened Machine
  import opened Simulation

  lemma EnterDone(h: Host, m: Machine, k: nat)
    requires Inv(h.cfg, m.e) && k in m.e.cache && Done(h.cfg, m.e, k) && m.rip == m.e.cache[k]
    ensures Run(h, m, 1) == Some(m.(rip := m.rip + START_OF_TRANSLATED_CODE))
  {
    hide Inv, Done, Fetch, Enc, CodeAt;
    InvBlock(h.cfg, m.e, k);
    DoneJump(h.cfg, m.e, k);
    FetchEnc(h, m, Jmp8(0x7e));
    RunOne(h, m);
    InsideBlock(h.cfg, m.rip + START_OF_TRANSLATED_CODE, m.rip - h.cfg.codeBase);
  }

  lemma DoneJump(cfg: Config, e: Engine, k: nat)
    requires Inv(cfg, e) && k in e.cache && Done(cfg, e, k)
    ensures CodeAt(e.code, Offset(cfg, e.cache[k]), Enc(Jmp8(0x7e))) && |Enc(Jmp8(0x7e))| == 2
    ensures ConfigOk(cfg)
  {
    hide BlocksOk, MapsOk, StubBlock, TuBytes, Fits;
    assert Enc(Jmp8(0x7e)) == JUMP_TO_CODE;
  }

  // -------------------------------------------------- parts of the stub

  function BeforeCall(f: u64, src: u64): seq<Instr> {
    Pushes(SAVED_STATE) + [Pushfq, MovImm64(RDI, src)] + AbsCallEnter(f)
  }

  function AfterCall(): seq<Instr> { ABS_CALL_LEAVE + [Popfq] + Pops(SAVED_STATE) }

  function NopInstrs(n: nat): seq<Instr> { if n == 0 then [] else [Instr.Nop] + NopInstrs(n - 1) }

  lemma StubParts(f: u64, src: u64)
    ensures TransparentCall(f, src) == BeforeCall(f, src) + [CallReg(RAX)] + AfterCall()
    ensures |EncAll(BeforeCall(f, src))| == 42 && |Enc(CallReg(RAX))| == 2 && |EncAll(AfterCall())| == 18
    ensures EncAll(TransparentCall(f, src)) == EncAll(BeforeCall(f, src)) + Enc(CallReg(RAX)) + EncAll(AfterCall())
  {
    hide Pushes, Pops, EncAll, AbsCallEnter;
    assert TransparentCall(f, src) == BeforeCall(f, src) + [CallReg(RAX)] + AfterCall();
    EncAllAppend(BeforeCall(f, src) + [CallReg(RAX)], AfterCall());
    EncAllAppend(BeforeCall(f, src), [CallReg(RAX)]);
    EncAllOne(CallReg(RAX));
    var a, b := Pushes(SAVED_STATE), [Pushfq, MovImm64(RDI, src)];
    EncAllAppend(a + b, AbsCallEnter(f));
    EncAllAppend(a, b);
    SavedSize();
    CallSize(f, src);
    EnterSize(f);
    StubSize(f, src);
  }

  lemma NopBytes(n: nat)
    ensures EncAll(NopInstrs(n)) == Nops(n)
  {
    hide Enc;
    if n > 0 {
      NopBytes(n - 1);
      assert NopInstrs(n)[1..] == NopInstrs(n - 1);
      OneNop();
      assert Nops(n) == [OPCODE_NOP] + Nops(n - 1);
    }
  }

  lemma OneNop()
    ensures Enc(Instr.Nop) == [OPCODE_NOP]
  {
  }

  lemma NopsDoNothing(call: Calls, n: nat, s: Cpu)
    ensures ExecAll(call, NopInstrs(n), s) == s
  {
    if n > 0 {
      assert NopInstrs(n)[1..] == NopInstrs(n - 1);
      NopsDoNothing(call, n - 1, s);
    }
  }

  // The first 128 bytes of a block that has been set up
  lemma StubHead(cfg: Config, src: u64)
    ensures StubBlock(cfg, src)[..START_OF_TRANSLATED_CODE]
            == EncAll(BeforeCall(cfg.translateAddr, src)) + Enc(CallReg(RAX)) + EncAll(AfterCall() + NopInstrs(66))
  {
    hide BeforeCall, AfterCall, NopInstrs, TransparentCall, Enc;
    var f := cfg.translateAddr;
    StubSize(f, src);
    StubParts(f, src);
    NopBytes(66);
    EncAllAppend(AfterCall(), NopInstrs(66));
    assert Nops(MAX_CODE_BLOCK_SIZE - STUB_SIZE)[..66] == Nops(66);
  }

  // ------------------------------------------------- transparency

  // The whole stub, as the guest sees it: nothing happens.
  lemma TransparentQuiet(env: Env, h: Host, src: u64, s: Cpu)
    requires HostOk(env, h) && env.stackLow + STACK_ROOM <= s.regs[RSP] <= env.sp
    ensures var t := ExecAll(h.call, TransparentCall(h.cfg.translateAddr, src), s);
            t.regs == s.regs && t.flags == s.flags && t.world == s.world && GuestMemKept(env, s, t)
  {
    hide HostOk, Abi, Exec, TransparentCall, Load64, AbsCallEnter, GuestByte, EnvOk;
    HostFacts(env, h);
    SpInStack(env);
    var f, call := h.cfg.translateAddr, h.call;
    var q := SavedState(call, src, s);
    var c := CallState(call, f, q);
    QuietAbi(env, h);
    SaveEffect(call, src, s);
    EnterEffect(call, f, q);
    StackWrites(env, s.mem, c.mem, env.stackLow);
    TranslateIsQuiet(env, h, c);
    TransparentCallEffect(call, f, src, env.stackLow, env.sp + 8, s);
  }

  lemma QuietAbi(env: Env, h: Host)
    requires HostOk(env, h)
    ensures Abi(env.stackLow, env.sp + 8, h.call, h.cfg.translateAddr)
  {
    hide EnvOk, GuestByte;
    forall c: Cpu | env.stackLow <= c.regs[RSP] <= env.sp + 8
      ensures AbiKept(env.sp + 8, c, h.call(h.cfg.translateAddr, c))
    {
      assert QuietCall(env, c, h.call(h.cfg.translateAddr, c));
    }
  }

  lemma RelFrame(env: Env, exit: u64, g: GuestState, s: Cpu, t: Cpu)
    requires EnvOk(env) && Rel(env, exit, g, s)
    requires t.regs == s.regs && t.flags == s.flags && t.world == s.world && GuestMemKept(env, s, t)
    ensures Rel(env, exit, g, t)
  {
    hide RegsAgree, Load64, CellsAgree, GuestByte;
    CellsFrame(env, g.mem, s.mem, t.mem);
    LoadFrame64(s.mem, t.mem, env.sp);
  }

  // --------------------------------------------------- running the stub

  predicate NoCalls(xs: seq<Instr>) { forall x :: x in xs ==> Straight(x) && !x.CallReg? }

  lemma {:induction false} PlainNoCalls(h: Host, xs: seq<Instr>, s: Cpu)
    requires NoCalls(xs)
    ensures Plain(h, xs, s)
    decreases |xs|
  {
    hide Exec, Straight;
    if xs != [] {
      PlainNoCalls(h, xs[1..], Exec(h.call, xs[0], s));
    }
  }

  lemma PushesNoCalls(rs: seq<Reg>)
    ensures NoCalls(Pushes(rs)) && NoCalls(Pops(rs))
  {
    if rs != [] {
      PushesNoCalls(rs[1..]);
    }
  }

  lemma NopsNoCalls(n: nat)
    ensures NoCalls(NopInstrs(n))
  {
  }

  lemma StubNoCalls(f: u64, src: u64)
    ensures NoCalls(BeforeCall(f, src)) && NoCalls(AfterCall() + NopInstrs(66))
  {
    hide Pushes, Pops, NopInstrs;
    PushesNoCalls(SAVED_STATE);
    NopsNoCalls(66);
  }

  // The call instruction itself: translate_tu() runs, and the engine changes.
  lemma StepTranslate(h: Host, m: Machine, b: int)
    requires CodeAt(m.e.code, m.rip - h.cfg.codeBase, Enc(CallReg(RAX))) && m.cpu.regs[RAX] == h.cfg.translateAddr
    requires b % MAX_CODE_BLOCK_SIZE == 0 && b <= m.rip - h.cfg.codeBase && m.rip - h.cfg.codeBase + 2 < b
        + MAX_CODE_BLOCK_SIZE
    ensures Run(h, m, 1) == Some(m.(cpu := h.call(h.cfg.translateAddr, m.cpu), rip := m.rip + 2,
                                    e := Retranslate(h.cfg, m.e, m.cpu.regs[RDI])))
  {
    hide Fetch, Retranslate, CodeAt;
    FetchEnc(h, m, CallReg(RAX));
    RunOne(h, m);
    InsideBlock(h.cfg, m.rip + 2, b);
    assert |Enc(CallReg(RAX))| == 2;
  }

  // Running the stub up to the call leaves the unit's address in RDI and the function's in RAX.
  lemma RunBefore(env: Env, h: Host, m: Machine, src: u64, b: int)
    requires 128 <= m.cpu.regs[RSP]
    requires b % MAX_CODE_BLOCK_SIZE == 0 && m.rip == h.cfg.codeBase + b
    requires CodeAt(m.e.code, b, EncAll(BeforeCall(h.cfg.translateAddr, src)))
    ensures var c := ExecAll(h.call, BeforeCall(h.cfg.translateAddr, src), m.cpu);
            && Run(h, m, |BeforeCall(h.cfg.translateAddr, src)|) == Some(m.(cpu := c, rip := m.rip + 42))
            && c.regs[RAX] == h.cfg.translateAddr && c.regs[RDI] == src
  {
    hide BeforeCall, Plain, CodeAt, Exec, ExecAll, EncAll, Enc, Run, Load64, AfterCall, NoCalls;
    var f := h.cfg.translateAddr;
    StubParts(f, src);
    StubNoCalls(f, src);
    PlainNoCalls(h, BeforeCall(f, src), m.cpu);
    RunPlain(h, m, BeforeCall(f, src), b);
    BeforeCallIs(h.call, f, src, m.cpu);
    SaveEffect(h.call, src, m.cpu);
    EnterEffect(h.call, f, SavedState(h.call, src, m.cpu));
  }

  lemma BeforeCallIs(call: Calls, f: u64, src: u64, s: Cpu)
    ensures ExecAll(call, BeforeCall(f, src), s) == CallState(call, f, SavedState(call, src, s))
  {
    hide Exec, Pushes, AbsCallEnter;
    ExecAllAppend(call, Pushes(SAVED_STATE) + [Pushfq, MovImm64(RDI, src)], AbsCallEnter(f), s);
  }

  lemma RunAfter(h: Host, m: Machine, b: int)
    requires b % MAX_CODE_BLOCK_SIZE == 0 && m.rip == h.cfg.codeBase + b + 44
    requires CodeAt(m.e.code, b + 44, EncAll(AfterCall() + NopInstrs(66)))
    ensures Run(h, m, |AfterCall() + NopInstrs(66)|)
            == Some(m.(cpu := ExecAll(h.call, AfterCall(), m.cpu), rip := h.cfg.codeBase + b
                + START_OF_TRANSLATED_CODE))
  {
    hide BeforeCall, AfterCall, Plain, CodeAt, Exec, ExecAll, EncAll, Enc, Run, NopInstrs, NoCalls;
    StubParts(0, 0);
    StubNoCalls(0, 0);
    NopBytes(66);
    EncAllAppend(AfterCall(), NopInstrs(66));
    PlainNoCalls(h, AfterCall() + NopInstrs(66), m.cpu);
    RunPlain(h, m, AfterCall() + NopInstrs(66), b);
    ExecAllAppend(h.call, AfterCall(), NopInstrs(66), m.cpu);
    NopsDoNothing(h.call, 66, ExecAll(h.call, AfterCall(), m.cpu));
  }

  // ------------------------------------------------- a pending block

  lemma PendingCode(cfg: Config, e: Engine, k: nat)
    requires Inv(cfg, e) && k in e.cache && Pending(cfg, e, k)
    ensures var b := Offset(cfg, e.cache[k]);
            && CodeAt(e.code, b, EncAll(BeforeCall(cfg.translateAddr, e.source[k])))
            && CodeAt(e.code, b + 42, Enc(CallReg(RAX)))
  {
    hide BlocksOk, MapsOk, BeforeCall, AfterCall, NopInstrs, Enc, EncAll, CodeAt, StubBlock;
    var f, src, b := cfg.translateAddr, e.source[k], Offset(cfg, e.cache[k]);
    StubParts(f, src);
    StubHead(cfg, src);
    var x, y, z := EncAll(BeforeCall(f, src)), Enc(CallReg(RAX)), EncAll(AfterCall() + NopInstrs(66));
    CodeAtSplit(e.code, b, x + y, z);
    CodeAtSplit(e.code, b, x, y);
  }

  // After the call the rest of the stub is still there, although its first two bytes have changed.
  lemma DoneCode(cfg: Config, e: Engine, k: nat)
    requires Inv(cfg, e) && k in e.cache && Done(cfg, e, k)
    ensures CodeAt(e.code, Offset(cfg, e.cache[k]) + 44, EncAll(AfterCall() + NopInstrs(66)))
  {
    hide BlocksOk, MapsOk, BeforeCall, AfterCall, NopInstrs, Enc, EncAll, CodeAt, StubBlock, TuBytes, Fits;
    var f, src, b := cfg.translateAddr, e.source[k], Offset(cfg, e.cache[k]);
    StubParts(f, src);
    StubHead(cfg, src);
    var x, y, z := EncAll(BeforeCall(f, src)), Enc(CallReg(RAX)), EncAll(AfterCall() + NopInstrs(66));
    var stub := StubBlock(cfg, src);
    assert stub[2..START_OF_TRANSLATED_CODE] == stub[..START_OF_TRANSLATED_CODE][2..];
    assert (x + y + z)[2..] == (x + y)[2..] + z;
    CodeAtSplit(e.code, b + 2, (x + y)[2..], z);
  }

  // Entering a pending block translates its unit and comes out at the translated code with
  // registers, flags, guest memory and stack as before.
  lemma EnterPending(env: Env, h: Host, g: GuestState, m: Machine, k: nat) returns (n: nat, m': Machine)
    requires HostOk(env, h) && Inv(h.cfg, m.e) && Rel(env, h.exit, g, m.cpu)
    requires k in m.e.cache && Pending(h.cfg, m.e, k) && m.rip == m.e.cache[k]
    requires Fits(h.cfg.img, m.e.source[k]) && TranslateTu(h.cfg, m.e, m.e.source[k], true, true).ok
    ensures Run(h, m, n) == Some(m')
    ensures m'.e == TranslateTu(h.cfg, m.e, m.e.source[k], true, true).e
    ensures m'.rip == m.rip + START_OF_TRANSLATED_CODE && m'.trace == m.trace
    ensures Rel(env, h.exit, g, m'.cpu)
  {
    hide HostOk, Inv, Rel, Pending, Done, Fits, RoomFor, TranslateTu, BeforeCall, AfterCall, NopInstrs, Enc, EncAll;
    hide CodeAt, Run, ExecAll, InArea;
    InvBlock(h.cfg, m.e, k);
    var src, b, f := m.e.source[k], Offset(h.cfg, m.e.cache[k]), h.cfg.translateAddr;
    RelSp(env, h.exit, g, m.cpu);
    PendingCode(h.cfg, m.e, k);
    RunBefore(env, h, m, src, b);
    var c := ExecAll(h.call, BeforeCall(f, src), m.cpu);
    var m1 := m.(cpu := c, rip := m.rip + 42);
    StepTranslate(h, m1, b);
    var d := h.call(f, c);
    InvRetranslate(h.cfg, m.e, src);
    var e' := TranslateTu(h.cfg, m.e, src, true, true).e;
    var m2 := m1.(cpu := d, rip := m.rip + 44, e := e');
    TranslateKeeps(h.cfg, m.e, k, true, true);
    DoneCode(h.cfg, e', k);
    RunAfter(h, m2, b);
    m' := m2.(cpu := ExecAll(h.call, AfterCall(), d), rip := m.rip + START_OF_TRANSLATED_CODE);
    var n1, n3 := |BeforeCall(f, src)|, |AfterCall() + NopInstrs(66)|;
    RunAdd(h, m, n1, 1);
    RunAdd(h, m, n1 + 1, n3);
    n := n1 + 1 + n3;
    StubTransparent(env, h, src, m.cpu);
    RelFrame(env, h.exit, g, m.cpu, m'.cpu);
  }

  lemma RelSp(env: Env, exit: u64, g: GuestState, s: Cpu)
    requires Rel(env, exit, g, s)
    ensures env.stackLow + STACK_ROOM <= s.regs[RSP] <= env.sp
  {
    hide RelCore, RelZ, Load64;
  }

  lemma InvRetranslate(cfg: Config, e: Engine, src: u64)
    requires Inv(cfg, e) && Fits(cfg.img, src)
    ensures ConfigOk(cfg) && InArea(cfg, e) && RoomFor(cfg, e, src)
    ensures Retranslate(cfg, e, src) == TranslateTu(cfg, e, src, true, true).e
  {
    hide BlocksOk, MapsOk, Fits, TranslateTu, RoomFor;
    FitsHasRoom(cfg, e, src);
  }

  lemma StubTransparent(env: Env, h: Host, src: u64, s: Cpu)
    requires HostOk(env, h) && env.stackLow + STACK_ROOM <= s.regs[RSP] <= env.sp
    ensures var c := ExecAll(h.call, BeforeCall(h.cfg.translateAddr, src), s);
            var t := ExecAll(h.call, AfterCall(), h.call(h.cfg.translateAddr, c));
            && EnvOk(env)
            && t.regs == s.regs && t.flags == s.flags && t.world == s.world && GuestMemKept(env, s, t)
  {
    hide GuestMemKept, Exec, BeforeCall, AfterCall, TransparentCall;
    var f := h.cfg.translateAddr;
    var c := ExecAll(h.call, BeforeCall(f, src), s);
    TransparentQuiet(env, h, src, s);
    StubParts(f, src);
    ExecAllAppend(h.call, BeforeCall(f, src) + [CallReg(RAX)], AfterCall(), s);
    ExecAllAppend(h.call, BeforeCall(f, src), [CallReg(RAX)], s);
    ExecOne(h.call, CallReg(RAX), c);
    BeforeCallIs(h.call, f, src, s);
    BeforeRax(h.call, f, src, s);
    CallEffect(h.call, f, c);
  }

  lemma BeforeRax(call: Calls, f: u64, src: u64, s: Cpu)
    requires 128 <= s.regs[RSP]
    ensures CallState(call, f, SavedState(call, src, s)).regs[RAX] == f
  {
    hide Exec, Load64, AbsCallEnter;
    SaveEffect(call, src, s);
    EnterEffect(call, f, SavedState(call, src, s));
  }
}
