/** The x86-64 machine that runs translated code: it fetches, decodes and executes one instruction
    at a time from the code area, and a call of translate_tu() makes the engine write into it. */
module Machine {
  import opened Base
  import opened X86
  import opened Cpu
  import opened CodeGen
  import opened M68k
  import opened Translation
  import opened TlCache
  import opened Engine
  import opened Invariant

  // call: what called C functions and library entries do. exit: where the program returns to.
  datatype Host = Host(cfg: Config, call: Calls, exit: u64)

  // trace: the starts of blocks that were reached, in order
  datatype Machine = Machine(cpu: Cpu, rip: int, e: Engine, trace: seq<int>)

  predicate IsBlockStart(cfg: Config, a: int) {
    0 <= a - cfg.codeBase < MAX_CODE_SIZE && (a - cfg.codeBase) % MAX_CODE_BLOCK_SIZE == 0
  }

  function Goto(h: Host, m: Machine, a: int): Machine {
    m.(rip := a, trace := if IsBlockStart(h.cfg, a) then m.trace + [a] else m.trace)
  }

  // translate_tu() with the unit's address as argument, when the cache gets all memory it needs
  function Retranslate(cfg: Config, e: Engine, src: u64): Engine {
    if ConfigOk(cfg) && InArea(cfg, e) && RoomFor(cfg, e, src) then TranslateTu(cfg, e, src, true, true).e else e
  }

  function Fetch(h: Host, m: Machine): Option<Decoded> {
    var at := m.rip - h.cfg.codeBase;
    if 0 <= at < |m.e.code| then Decode(m.e.code[at..]) else None
  }

  // One step; None where the machine leaves the code area or meets an instruction it cannot go past
  function Step(h: Host, m: Machine): Option<Machine> {
    match Fetch(h, m)
    case None => None
    case Some(Decoded(i, len)) => ExecAt(h, m, i, m.rip + len)
  }

  function ExecAt(h: Host, m: Machine, i: Instr, next: int): Option<Machine> {
    match i
    case Jmp8(rel) => Some(Goto(h, m, Low64(next + Signed8(rel))))
    case Jmp32(rel) => Some(Goto(h, m, Low64(next + Signed32(rel))))
    case Jcc(ifZero, rel) =>
      Some(Goto(h, m, if ZF(m.cpu.flags) == ifZero then Low64(next + Signed32(rel)) else next))
    case Ret =>
      var sp: int := m.cpu.regs[RSP];
      Some(Goto(h, m.(cpu := SetReg(m.cpu, RSP, Low64(sp + 8))), Load64(m.cpu.mem, sp)))
    case Int3 => None
    case CallReg(r) =>
      var m' := m.(cpu := Exec(h.call, i, m.cpu));
      if m.cpu.regs[r] == h.cfg.translateAddr
      then Some(Goto(h, m'.(e := Retranslate(h.cfg, m.e, m.cpu.regs[RDI])), next))
      else Some(Goto(h, m', next))
    case _ => Some(Goto(h, m.(cpu := Exec(h.call, i, m.cpu)), next))
  }

  function Run(h: Host, m: Machine, n: nat): Option<Machine>
    decreases n
  {
    if n == 0 then Some(m)
    else
      match Step(h, m)
      case None => None
      case Some(m') => Run(h, m', n - 1)
  }

  lemma {:induction false} RunAdd(h: Host, m: Machine, a: nat, b: nat)
    requires Run(h, m, a).Some?
    ensures Run(h, m, a + b) == Run(h, Run(h, m, a).value, b)
    decreases a
  {
    hide Step;
    if a > 0 {
      RunAdd(h, Step(h, m).value, a - 1, b);
    }
  }

  lemma RunOne(h: Host, m: Machine)
    ensures Run(h, m, 1) == Step(h, m)
  {
    hide Step;
    if Step(h, m).Some? {
      assert Run(h, Step(h, m).value, 0) == Step(h, m);
    }
  }

  // ------------------------------------------------------- straight code

  // Instructions that just run one after the other from state s, without reaching translate_tu()
  predicate Plain(h: Host, xs: seq<Instr>, s: Cpu)
    decreases |xs|
  {
    xs == [] ||
    (Straight(xs[0])
     && (xs[0].CallReg? ==> s.regs[xs[0].r] != h.cfg.translateAddr)
     && Plain(h, xs[1..], Exec(h.call, xs[0], s)))
  }

  lemma {:induction false} PlainAppend(h: Host, a: seq<Instr>, b: seq<Instr>, s: Cpu)
    requires Plain(h, a, s) && Plain(h, b, ExecAll(h.call, a, s))
    ensures Plain(h, a + b, s)
    decreases |a|
  {
    hide Exec;
    if a == [] {
      assert a + b == b;
    } else {
      PlainAppend(h, a[1..], b, Exec(h.call, a[0], s));
      assert (a + b)[1..] == a[1..] + b;
    }
  }

  // The bytes of an instruction at RIP are what the machine executes next.
  lemma FetchEnc(h: Host, m: Machine, i: Instr)
    requires CodeAt(m.e.code, m.rip - h.cfg.codeBase, Enc(i))
    ensures Fetch(h, m) == Some(Decoded(i, |Enc(i)|))
  {
    hide Enc, Decode;
    var at := m.rip - h.cfg.codeBase;
    var b := m.e.code[at..];
    assert b[..|Enc(i)|] == m.e.code[at..at + |Enc(i)|];
    DecodeEnc(i, b);
  }

  // Running straight code inside the block at b executes it, and reaches no block start.
  lemma {:induction false} RunPlain(h: Host, m: Machine, xs: seq<Instr>, b: int)
    requires Plain(h, xs, m.cpu)
    requires CodeAt(m.e.code, m.rip - h.cfg.codeBase, EncAll(xs))
    requires b % MAX_CODE_BLOCK_SIZE == 0 && b <= m.rip - h.cfg.codeBase
    requires m.rip - h.cfg.codeBase + |EncAll(xs)| < b + MAX_CODE_BLOCK_SIZE
    ensures Run(h, m, |xs|) == Some(m.(cpu := ExecAll(h.call, xs, m.cpu), rip := m.rip + |EncAll(xs)|))
    decreases |xs|
  {
    hide Enc, Exec, Step;
    if xs != [] {
      var i, rest := xs[0], xs[1..];
      var at := m.rip - h.cfg.codeBase;
      CodeAtSplit(m.e.code, at, Enc(i), EncAll(rest));
      StepPlain(h, m, i, b);
      var m' := Step(h, m).value;
      RunPlain(h, m', rest, b);
    }
  }

  lemma StepPlain(h: Host, m: Machine, i: Instr, b: int)
    requires Straight(i) && (i.CallReg? ==> m.cpu.regs[i.r] != h.cfg.translateAddr)
    requires CodeAt(m.e.code, m.rip - h.cfg.codeBase, Enc(i))
    requires b % MAX_CODE_BLOCK_SIZE == 0 && b <= m.rip - h.cfg.codeBase
    requires m.rip - h.cfg.codeBase + |Enc(i)| < b + MAX_CODE_BLOCK_SIZE
    ensures Step(h, m) == Some(m.(cpu := Exec(h.call, i, m.cpu), rip := m.rip + |Enc(i)|))
  {
    hide Enc, Exec, Fetch;
    FetchEnc(h, m, i);
    InsideBlock(h.cfg, m.rip + |Enc(i)|, b);
  }

  lemma InsideBlock(cfg: Config, a: int, b: int)
    requires b % MAX_CODE_BLOCK_SIZE == 0 && b < a - cfg.codeBase < b + MAX_CODE_BLOCK_SIZE
    ensures !IsBlockStart(cfg, a)
  {
  }
}
