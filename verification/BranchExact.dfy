/** Where a translated branch goes, whether or not Z is what the 680x0 has: exactly when it reaches
    the block of the right successor. */
module BranchExact {
  import opened Base
  import opened X86
  import opened Cpu
  import opened M68k
  import opened Translation
  import opened Relation
  import opened TlCache
  import opened Engine
  import opened Invariant
  import opened Machine
  import opened Simulation

  // The guest's state at the branch that ends the unit, if it gets there
  function AtBranch(env: Env, img: Image, g: GuestState): Option<GuestState>
    decreases HUNK_START_ADDRESS + |img| - g.pc
  {
    DecodeAdvances(img, g.pc);
    match GDecode(img, g.pc)
    case None => None
    case Some(Located(i, next)) =>
      if i.BranchZ? then Some(g)
      else if i.Rts? || !Covered(env, i, g) then None
      else AtBranch(env, img, GExec(env, i, g).(pc := next))
  }

  // Whether the last SUBQ or TST of the unit gave 0, or else what f says; unknown if a library call
  // comes behind it
  function LastTest(env: Env, img: Image, g: GuestState, f: Option<bool>): Option<bool>
    decreases HUNK_START_ADDRESS + |img| - g.pc
  {
    DecodeAdvances(img, g.pc);
    match GDecode(img, g.pc)
    case None => f
    case Some(Located(i, next)) =>
      if Terminal(i) then f
      else LastTest(env, img, GExec(env, i, g).(pc := next), TestOf(env, i, g, f))
  }

  function TestOf(env: Env, i: GInstr, g: GuestState, f: Option<bool>): Option<bool> {
    match i
    case Subq(field, n) => Some(Low32(g.regs[n] - QuickData(field)) == 0)
    case Tst(n) => Some(g.regs[n] == 0)
    case JsrLib(_) => None
    case _ => f
  }

  // The host's zero flag is what the last test left there.
  lemma FlagStep(env: Env, exit: u64, call: Calls, i: GInstr, g: GuestState, s: Cpu, f: Option<bool>)
    requires Rel(env, exit, GExec(env, i, g), ExecAll(call, Emits(i), s)) && !Terminal(i)
    requires f.Some? ==> f.value == ZF(s.flags)
    ensures var f' := TestOf(env, i, g, f); f'.Some? ==> f'.value == ZF(ExecAll(call, Emits(i), s).flags)
  {
    hide Translation.Dn, Translation.An, LE32, Load32, RelCore, RelStack, WithZF;
    if !(i.Subq? || i.Tst? || i.JsrLib?) {
      ExecOne(call, Emits(i)[0], s);
    }
  }

  // The machine gets to the branch together with the guest.
  lemma RunsToBranch(env: Env, h: Host, g: GuestState, m: Machine, b: int, f: Option<bool>)
    returns (n: nat, m': Machine)
    requires HostOk(env, h) && LibContract(env, h.call) && Rel(env, h.exit, g, m.cpu)
    requires AtUnit(h, m, g.pc) && InBlock(h, m, g.pc, b)
    requires AtBranch(env, h.cfg.img, g).Some? && (f.Some? ==> f.value == ZF(m.cpu.flags))
    ensures Run(h, m, n) == Some(m') && m'.e == m.e && m'.trace == m.trace
    ensures var g' := AtBranch(env, h.cfg.img, g).value; AtUnit(h, m', g'.pc) && InBlock(h, m', g'.pc, b)
    ensures var f' := LastTest(env, h.cfg.img, g, f); f'.Some? ==> f'.value == ZF(m'.cpu.flags)
    decreases HUNK_START_ADDRESS + |h.cfg.img| - g.pc
  {
    hide Rel, HostOk, LibContract, Emits, AtUnit, InBlock, GExec, Covered, Run, GDecode, TestOf, ZF;
    DecodeAdvances(h.cfg.img, g.pc);
    var Located(i, next) := GDecode(h.cfg.img, g.pc).value;
    if i.BranchZ? {
      n, m' := 0, m;
      assert Run(h, m, 0) == Some(m) by { RunNone(h, m); }
    } else {
      var k, g1 := |Emits(i)|, GExec(env, i, g).(pc := next);
      var m1 := StraightStep(env, h, g, m, b, i, next);
      RelPc(env, h.exit, g1, m1.cpu, g.pc);
      FlagAfter(env, h, i, g, m.cpu, next, f);
      var n1;
      n1, m' := RunsToBranch(env, h, g1, m1, b, TestOf(env, i, g, f));
      RunAdd(h, m, k, n1);
      n := k + n1;
    }
  }

  lemma RunNone(h: Host, m: Machine)
    ensures Run(h, m, 0) == Some(m)
  {
  }

  lemma FlagAfter(env: Env, h: Host, i: GInstr, g: GuestState, s: Cpu, next: int, f: Option<bool>)
    requires Rel(env, h.exit, GExec(env, i, g).(pc := next), ExecAll(h.call, Emits(i), s)) && !Terminal(i)
    requires f.Some? ==> f.value == ZF(s.flags)
    ensures var f' := TestOf(env, i, g, f); f'.Some? ==> f'.value == ZF(ExecAll(h.call, Emits(i), s).flags)
  {
    hide Rel, GExec, Emits, TestOf, ZF;
    var g1 := GExec(env, i, g);
    RelPc(env, h.exit, g1.(pc := next), ExecAll(h.call, Emits(i), s), g1.pc);
    assert g1.(pc := next).(pc := g1.pc) == g1;
    FlagStep(env, h.exit, h.call, i, g, s, f);
  }

  // Where the guest goes on after the branch at pc, if Z is z
  function Successor(img: Image, pc: int, z: bool): int {
    match GDecode(img, pc)
    case Some(Located(BranchZ(ifZero, target), next)) => if z == ifZero then target else next
    case _ => pc
  }

  // After n steps the machine is at the start of the block for the unit at pc.
  predicate Reaches(h: Host, m: Machine, n: nat, pc: int) {
    && Key(Low64(pc)) in m.e.cache
    && Run(h, m, n).Some? && Run(h, m, n).value.rip == m.e.cache[Key(Low64(pc))]
  }

  predicate SameKey(a: int, b: int) { Key(Low64(a)) == Key(Low64(b)) }

  // A unit that ends in a branch: the machine reaches the block of the unit with which the guest
  // goes on if and only if the last test in the unit agrees with Z, or both successors share a key.
  // Otherwise it reaches the block of the other one.
  lemma BranchTaken(env: Env, h: Host, g: GuestState, m: Machine, b: int) returns (n: nat)
    requires HostOk(env, h) && LibContract(env, h.call) && Inv(h.cfg, m.e) && Rel(env, h.exit, g, m.cpu)
    requires AtUnit(h, m, g.pc) && InBlock(h, m, g.pc, b) && AtBranch(env, h.cfg.img, g).Some?
    requires LastTest(env, h.cfg.img, g, Some(ZF(m.cpu.flags))).Some?
    ensures var g' := AtBranch(env, h.cfg.img, g).value;
            var right, wrong := Successor(h.cfg.img, g'.pc, g'.z), Successor(h.cfg.img, g'.pc, !g'.z);
            && (Reaches(h, m, n, right)
                <==> LastTest(env, h.cfg.img, g, Some(ZF(m.cpu.flags))) == Some(g'.z) || SameKey(right, wrong))
            && (Reaches(h, m, n, right) || Reaches(h, m, n, wrong))
  {
    hide Rel, HostOk, LibContract, AtUnit, InBlock, Run, GDecode, Key, AtBranch, LastTest, BlocksOk, Covered, ZF;
    hide Successor;
    var img := h.cfg.img;
    var k, m1 := RunsToBranch(env, h, g, m, b, Some(ZF(m.cpu.flags)));
    var g' := AtBranch(env, img, g).value;
    BranchThere(env, img, g);
    var n1 := LandsAt(env, h, m1, g'.pc, b);
    RunAdd(h, m, k, n1);
    n := k + n1;
    assert MapsOk(m.e.cache, m.e.source, m.e.next);
  }

  lemma {:induction false} BranchThere(env: Env, img: Image, g: GuestState)
    requires AtBranch(env, img, g).Some?
    ensures var g' := AtBranch(env, img, g).value; GDecode(img, g'.pc).Some? && GDecode(img, g'.pc).value.i.BranchZ?
    decreases HUNK_START_ADDRESS + |img| - g.pc
  {
    hide GDecode, GExec, Covered;
    DecodeAdvances(img, g.pc);
    var Located(i, next) := GDecode(img, g.pc).value;
    if !i.BranchZ? {
      BranchThere(env, img, GExec(env, i, g).(pc := next));
    }
  }

  // The branch itself follows the host's zero flag.
  lemma LandsAt(env: Env, h: Host, m: Machine, pc: int, b: int) returns (n: nat)
    requires HostOk(env, h) && InArea(h.cfg, m.e) && AtUnit(h, m, pc) && InBlock(h, m, pc, b)
    requires GDecode(h.cfg.img, pc).Some? && GDecode(h.cfg.img, pc).value.i.BranchZ?
    ensures Reaches(h, m, n, Successor(h.cfg.img, pc, ZF(m.cpu.flags)))
    ensures forall z: bool :: Key(Low64(Successor(h.cfg.img, pc, z))) in m.e.cache
  {
    hide GDecode, BranchRest, Run, EnvOk, ZF, Key;
    var Located(i, next) := GDecode(h.cfg.img, pc).value;
    LastCode(h, m, pc);
    var taken, notTaken := m.e.cache[Key(Low64(i.target))], m.e.cache[Key(Low64(next))];
    Cached(h.cfg, m.e, Key(Low64(i.target)));
    Cached(h.cfg, m.e, Key(Low64(next)));
    n := BranchLands(h, m, i.ifZero, taken, notTaken, b);
  }

  // MOVEQ #0,Dn and BEQ: on the 680x0 the branch is taken. If the zero flag was clear before, the
  // translation goes on behind the branch instead.
  lemma BeqGoesAstray(env: Env, h: Host, g: GuestState, m: Machine, b: int, d: Num, target: int) returns (n: nat)
    requires HostOk(env, h) && LibContract(env, h.call) && Inv(h.cfg, m.e) && Rel(env, h.exit, g, m.cpu)
    requires AtUnit(h, m, g.pc) && InBlock(h, m, g.pc, b) && !ZF(m.cpu.flags)
    requires GDecode(h.cfg.img, g.pc) == Some(Located(MoveqImm(0, d), g.pc + 2))
    requires GDecode(h.cfg.img, g.pc + 2) == Some(Located(BranchZ(true, target), g.pc + 4))
    requires !SameKey(target, g.pc + 4)
    ensures Reaches(h, m, n, g.pc + 4) && !Reaches(h, m, n, target)
    ensures AtBranch(env, h.cfg.img, g).Some? && AtBranch(env, h.cfg.img, g).value.z
  {
    hide Rel, HostOk, LibContract, AtUnit, InBlock, Run, GDecode, Key, Inv, ZF;
    var g1 := GExec(env, MoveqImm(0, d), g).(pc := g.pc + 2);
    DecodeAdvances(h.cfg.img, g.pc);
    assert AtBranch(env, h.cfg.img, g1) == Some(g1);
    assert AtBranch(env, h.cfg.img, g) == Some(g1);
    var f := Some(ZF(m.cpu.flags));
    assert LastTest(env, h.cfg.img, g1, f) == f;
    assert LastTest(env, h.cfg.img, g, f) == f;
    n := BranchTaken(env, h, g, m, b);
  }
}
