/** Whole runs: from setup_tu(entry) on, translating lazily, the machine goes through the same
    units as the 680x0 and ends in the same state. */
module WholeRun {
  import opened Base
  import opened X86
  import opened Cpu
  import opened CodeGen
  import opened M68k
  import opened Translation
  import opened Relation
  import opened TlCache
  import opened Engine
  import opened Invariant
  import opened Machine
  import opened Simulation
  import opened Blocks

  const GUEST_CODE_SIZE := 0x4_0000     // MAX_HUNKS hunks of MAX_HUNK_SIZE bytes

  // The starts of units that get set up: in the mapped hunks, and no more than there are blocks
  predicate Places(starts: set<nat>) {
    |starts| <= MAX_CODE_SIZE / MAX_CODE_BLOCK_SIZE && forall p: nat :: p in starts ==> InHunks(p)
  }

  // A unit that fits its block and whose successors, if it ends in a branch, are among the starts
  predicate UnitOk(img: Image, starts: set<nat>, p: nat) {
    var last := ScanTu(img, p).last;
    && Fits(img, p)
    && (last.Ends? && last.i.BranchZ? ==>
          0 <= last.i.target && last.i.target in starts && 0 <= last.next && last.next in starts)
  }

  // What a run of n units asks of the units that it enters; nothing of any other unit
  ghost predicate Route(env: Env, img: Image, starts: set<nat>, g: GuestState, n: nat)
    decreases n
  {
    n > 0 ==>
      && 0 <= g.pc && UnitOk(img, starts, g.pc)
      && match RunUnit(env, img, g)
         case At(g') => Route(env, img, starts, g', n - 1)
         case _ => true
  }

  // A set of starts that is closed under branches allows any run from one of them.
  lemma {:induction false} ClosedRoute(env: Env, img: Image, starts: set<nat>, g: GuestState, n: nat)
    requires 0 <= g.pc && g.pc in starts && forall p: nat :: p in starts ==> UnitOk(img, starts, p)
    ensures Route(env, img, starts, g, n)
    decreases n
  {
    hide UnitOk, RunUnit;
    if n > 0 && RunUnit(env, img, g).At? {
      UnitEnd(env, img, g);
      NextIn(img, starts, g.pc);
      ClosedRoute(env, img, starts, RunUnit(env, img, g).g, n - 1);
    }
  }

  lemma NextIn(img: Image, starts: set<nat>, p: nat)
    requires UnitOk(img, starts, p) && ScanTu(img, p).last.Ends? && ScanTu(img, p).last.i.BranchZ?
    ensures var last := ScanTu(img, p).last;
            0 <= last.i.target && last.i.target in starts && 0 <= last.next && last.next in starts
  {
  }

  predicate InHunks(p: int) { HUNK_START_ADDRESS <= p < HUNK_START_ADDRESS + GUEST_CODE_SIZE }

  // Addresses in the hunks are their own keys.
  lemma HunkKey(p: int)
    requires InHunks(p)
    ensures Low64(p) == p && Key(Low64(p)) == p
  {
  }

  // All cached units are among the starts, and no block has been lost.
  predicate Tidy(e: Engine, starts: set<nat>) {
    && e.cache.Keys <= starts && e.source.Keys == e.cache.Keys
    && e.next == |e.cache| * MAX_CODE_BLOCK_SIZE
    && forall k: nat :: k in e.source ==> e.source[k] == k
  }

  lemma SetupTidy(cfg: Config, e: Engine, starts: set<nat>, p: nat)
    requires ConfigOk(cfg) && InArea(cfg, e) && Tidy(e, starts)
    requires |starts| <= MAX_CODE_SIZE / MAX_CODE_BLOCK_SIZE && p in starts && InHunks(p)
    ensures var s := SetupTu(cfg, e, Low64(p), true); s.addr.Some? && Tidy(s.e, starts)
  {
    hide StubBlock, InArea;
    HunkKey(p);
    if p !in e.cache {
      SubsetSize(e.cache.Keys + {p}, starts);
      var s := SetupTu(cfg, e, Low64(p), true);
      assert s.e.cache.Keys == e.cache.Keys + {p};
      assert s.e.source.Keys == e.source.Keys + {p};
    }
  }

  lemma SubsetSize(a: set<nat>, b: set<nat>)
    requires a <= b
    ensures |a| <= |b|
  {
    assert b == a + (b - a);
  }

  lemma TidyBranch(cfg: Config, e: Engine, starts: set<nat>, i: GInstr, next: int, b: nat, q: nat)
    requires ConfigOk(cfg) && InArea(cfg, e) && Tidy(e, starts)
    requires |starts| <= MAX_CODE_SIZE / MAX_CODE_BLOCK_SIZE && i.BranchZ?
    requires 0 <= i.target && i.target in starts && InHunks(i.target) && 0 <= next && next in starts && InHunks(next)
    requires b + 2 <= MAX_CODE_SIZE && q + 11 <= MAX_CODE_SIZE
    ensures var t := TranslateBranch(cfg, e, i, next, b, q, true, true); t.ok && Tidy(t.e, starts)
  {
    hide BranchRest, SetupTu, Tidy, InArea;
    SetupTidy(cfg, e, starts, i.target);
    SetupInArea(cfg, e, Low64(i.target), true);
    var s := SetupTu(cfg, e, Low64(i.target), true);
    SetupTidy(cfg, s.e, starts, next);
    SetupInArea(cfg, s.e, Low64(next), true);
    var s2 := SetupTu(cfg, s.e, Low64(next), true);
    TidyCode(s2.e, TranslateBranch(cfg, e, i, next, b, q, true, true).e, starts);
  }

  lemma TidyCode(e: Engine, e': Engine, starts: set<nat>)
    requires Tidy(e, starts) && e' == e.(code := e'.code)
    ensures Tidy(e', starts)
  {
  }

  // Translating a unit that fits and that ends succeeds and keeps the engine tidy.
  lemma TranslateTidy(cfg: Config, e: Engine, starts: set<nat>, p: nat)
    requires ConfigOk(cfg) && InArea(cfg, e) && Tidy(e, starts)
    requires Places(starts) && UnitOk(cfg.img, starts, p) && ScanTu(cfg.img, p).last.Ends?
    requires p in starts && p in e.cache
    ensures Low64(p) == p && Fits(cfg.img, Low64(p))
    ensures var t := TranslateTu(cfg, e, Low64(p), true, true); t.ok && Tidy(t.e, starts)
  {
    hide Tidy, InHunks, TranslateTu, TranslateBranch, Fits, RoomFor;
    HunkKey(p);
    FitsHasRoom(cfg, e, Low64(p));
    assert p in e.cache && Key(Low64(p)) == p;
    var last := ScanTu(cfg.img, p).last;
    var e1, b, q := TranslateShape(cfg, e, Low64(p));
    if last.i.BranchZ? {
      TidyCode(e, e1, starts);
      TidyBranch(cfg, e1, starts, last.i, last.next, b, q);
    } else {
      TidyCode(e, TranslateTu(cfg, e, Low64(p), true, true).e, starts);
    }
  }

  // translate_tu on a translatable unit: only the last instruction, if a branch, can fail.
  lemma TranslateShape(cfg: Config, e: Engine, src: u64) returns (e1: Engine, b: nat, q: nat)
    requires ConfigOk(cfg) && InArea(cfg, e) && Fits(cfg.img, src) && Key(src) in e.cache
    requires ScanTu(cfg.img, src).last.Ends?
    ensures var last, t := ScanTu(cfg.img, src).last, TranslateTu(cfg, e, src, true, true);
            if last.i.BranchZ? then
              && InArea(cfg, e1) && e1 == e.(code := e1.code) && b + 2 <= MAX_CODE_SIZE && q + 11 <= MAX_CODE_SIZE
              && t == TranslateBranch(cfg, e1, last.i, last.next, b, q, true, true)
            else t.ok && t.e == e.(code := t.e.code)
  {
    hide StubBlock, BranchRest, BodyBytes, Key, TranslateBranch, ScanTu;
    var tu := ScanTu(cfg.img, src);
    b := Offset(cfg, e.cache[Key(src)]);
    q := b + START_OF_TRANSLATED_CODE + |BodyBytes(tu)|;
    e1 := Write(e, b + START_OF_TRANSLATED_CODE, BodyBytes(tu));
    if tu.last.i.BranchZ? {
      e1 := Write(e1, q, BranchOpcode(tu.last.i.ifZero));
    }
  }

  // ------------------------------------------------------------ one unit

  // Machine m is at the block of the unit that the guest is about to enter.
  ghost predicate InStep(env: Env, h: Host, starts: set<nat>, g: GuestState, m: Machine) {
    && Inv(h.cfg, m.e) && Tidy(m.e, starts)
    && Rel(env, h.exit, g, m.cpu)
    && 0 <= g.pc && g.pc in m.e.cache && m.rip == m.e.cache[g.pc]
  }

  // Whether its block is pending or done, the machine gets to the code of the unit.
  lemma EnterBlock(env: Env, h: Host, starts: set<nat>, g: GuestState, m: Machine) returns (n: nat, m': Machine)
    requires HostOk(env, h) && InStep(env, h, starts, g, m)
    requires Places(starts) && UnitOk(h.cfg.img, starts, g.pc) && ScanTu(h.cfg.img, g.pc).last.Ends?
    ensures Run(h, m, n) == Some(m') && m'.trace == m.trace
    ensures m'.rip == m.rip + START_OF_TRANSLATED_CODE && Rel(env, h.exit, g, m'.cpu)
    ensures Inv(h.cfg, m'.e) && Tidy(m'.e, starts) && Extends(m.e, m'.e)
    ensures g.pc in m'.e.cache && m'.e.cache[g.pc] == m.e.cache[g.pc] && Done(h.cfg, m'.e, g.pc)
    ensures g.pc in starts
  {
    hide HostOk, Inv, Rel, Pending, Done, TranslateTu, Run, InArea, UnitOk, Places, Fits;
    FitsOf(h.cfg.img, starts, g.pc);
    var k := g.pc;
    InvBlock(h.cfg, m.e, k);
    if Done(h.cfg, m.e, k) {
      n, m' := 1, m.(rip := m.rip + START_OF_TRANSLATED_CODE);
      EnterDone(h, m, k);
    } else {
      InvArea(h.cfg, m.e);
      TranslateTidy(h.cfg, m.e, starts, k);
      n, m' := EnterPending(env, h, g, m, k);
      TranslateKeeps(h.cfg, m.e, k, true, true);
    }
  }

  lemma InvArea(cfg: Config, e: Engine)
    requires Inv(cfg, e)
    ensures ConfigOk(cfg) && InArea(cfg, e)
  {
    hide BlocksOk, MapsOk;
  }

  lemma DoneUnit(h: Host, m: Machine, starts: set<nat>, k: nat)
    requires Inv(h.cfg, m.e) && Tidy(m.e, starts) && k in m.e.cache && Done(h.cfg, m.e, k)
    requires m.rip == m.e.cache[k] + START_OF_TRANSLATED_CODE
    ensures AtUnit(h, m, k) && InBlock(h, m, k, Offset(h.cfg, m.e.cache[k]))
  {
    hide BlocksOk, MapsOk, StubBlock, TuBytes, SuccessorsCached, CodeAt;
    InvBlock(h.cfg, m.e, k);
  }

  // Guest and machine after a unit with outcome r: at the block of the next unit, or returned
  ghost predicate AfterUnit(env: Env, h: Host, starts: set<nat>, r: Outcome, m: Machine, m': Machine) {
    match r
    case At(g) => InStep(env, h, starts, g, m') && m'.trace == m.trace + [m'.rip]
    case Halted(g) => HaltedTogether(env, h, g, m') && m'.trace == m.trace
    case Stuck => true
  }

  predicate OwnKey(r: Outcome) { r.At? ==> 0 <= r.g.pc && Key(Low64(r.g.pc)) == r.g.pc }

  // One unit of the guest, however many steps of the machine
  lemma RunOneUnit(env: Env, h: Host, starts: set<nat>, g: GuestState, m: Machine) returns (n: nat, m': Machine)
    requires HostOk(env, h) && LibContract(env, h.call) && InStep(env, h, starts, g, m)
    requires Places(starts) && UnitOk(h.cfg.img, starts, g.pc)
    requires !RunUnit(env, h.cfg.img, g).Stuck?
    ensures Run(h, m, n) == Some(m') && Extends(m.e, m'.e)
    ensures Inv(h.cfg, m'.e) && Tidy(m'.e, starts)
    ensures AfterUnit(env, h, starts, RunUnit(env, h.cfg.img, g), m, m')
  {
    hide HostOk, LibContract, Inv, Rel, Pending, Done, TranslateTu, Run, InArea, UnitOk, Places, Fits, RunUnit;
    hide HaltedTogether;
    UnitEnd(env, h.cfg.img, g);
    hide AtUnit, InBlock, Tidy, Extends;
    var n1, m1 := EnterBlock(env, h, starts, g, m);
    DoneUnit(h, m1, starts, g.pc);
    InvArea(h.cfg, m1.e);
    var n2 := SimUnit(env, h, g, m1, Offset(h.cfg, m1.e.cache[g.pc]));
    RunAdd(h, m, n1, n2);
    n, m' := n1 + n2, Run(h, m1, n2).value;
    if RunUnit(env, h.cfg.img, g).At? {
      NextIn(h.cfg.img, starts, g.pc);
      PlaceKey(starts, RunUnit(env, h.cfg.img, g).g.pc);
    }
    OneUnitDone(env, h, starts, g, m, m1, m');
  }

  lemma OneUnitDone(env: Env, h: Host, starts: set<nat>, g: GuestState, m: Machine, m1: Machine, m': Machine)
    requires UnitDone(env, h, m1, m', RunUnit(env, h.cfg.img, g)) && !RunUnit(env, h.cfg.img, g).Stuck?
    requires m1.trace == m.trace && Inv(h.cfg, m1.e) && Tidy(m1.e, starts) && Extends(m.e, m1.e)
    requires OwnKey(RunUnit(env, h.cfg.img, g))
    ensures Inv(h.cfg, m'.e) && Tidy(m'.e, starts) && Extends(m.e, m'.e)
    ensures AfterUnit(env, h, starts, RunUnit(env, h.cfg.img, g), m, m')
  {
    hide Inv, Rel, HaltedTogether, Tidy, Extends, RunUnit, Key;
  }

  lemma PlaceKey(starts: set<nat>, p: int)
    requires Places(starts) && 0 <= p && p in starts
    ensures Low64(p) == p && Key(Low64(p)) == p
  {
    hide InHunks, Key;
    HunkKey(p);
  }

  lemma FitsOf(img: Image, starts: set<nat>, p: nat)
    requires UnitOk(img, starts, p)
    ensures Fits(img, p)
  {
  }

  // A unit that is run to its end stops where scanning it stops.
  lemma UnitEnd(env: Env, img: Image, g: GuestState)
    requires !RunUnit(env, img, g).Stuck?
    ensures var r, last := RunUnit(env, img, g), ScanTu(img, g.pc).last;
            last.Ends? && (r.At? ==> last.i.BranchZ? && (r.g.pc == last.i.target || r.g.pc == last.next))
    decreases HUNK_START_ADDRESS + |img| - g.pc
  {
    hide GDecode, GExec, Covered;
    DecodeAdvances(img, g.pc);
    var Located(i, next) := GDecode(img, g.pc).value;
    if !Terminal(i) {
      UnitEnd(env, img, GExec(env, i, g).(pc := next));
    }
  }

  // ---------------------------------------------------------- whole runs

  // The addresses of the blocks of some units
  function BlocksOf(cache: map<nat, u64>, pcs: seq<int>): seq<int> {
    seq(|pcs|, i requires 0 <= i < |pcs| => BlockAt(cache, pcs[i]))
  }

  function BlockAt(cache: map<nat, u64>, pc: int): int {
    if pc < 0 then -1 else var k: nat := pc; if k in cache then cache[k] else -1
  }

  // The machine is where the guest is after a run.
  ghost predicate Together(env: Env, h: Host, starts: set<nat>, r: Outcome, m: Machine) {
    match r
    case At(g) => InStep(env, h, starts, g, m)
    case Halted(g) => HaltedTogether(env, h, g, m)
    case Stuck => true
  }

  // For every number of units that the guest runs, the machine goes through the blocks of exactly
  // these units, in the same order, and ends in the corresponding state.
  lemma {:induction false} RunsAgree(env: Env, h: Host, starts: set<nat>, g: GuestState, m: Machine, n: nat)
      returns (k: nat, m': Machine)
    requires HostOk(env, h) && LibContract(env, h.call) && InStep(env, h, starts, g, m)
    requires Places(starts) && Route(env, h.cfg.img, starts, g, n)
    requires !RunUnits(env, h.cfg.img, g, n).Stuck?
    ensures Run(h, m, k) == Some(m') && Extends(m.e, m'.e)
    ensures Together(env, h, starts, RunUnits(env, h.cfg.img, g, n), m')
    ensures m'.trace == m.trace + BlocksOf(m'.e.cache, Starts(env, h.cfg.img, g, n))
    decreases n
  {
    hide HostOk, LibContract, Places, UnitOk, InStep, RunUnit, HaltedTogether, Run, BlocksOf, Extends;
    if n == 0 {
      k, m' := 0, m;
      RunZero(h, m);
      NoBlocks(m.e.cache, m.trace);
      ExtendsSelf(m.e);
    } else {
      var n1, m1 := RunOneUnit(env, h, starts, g, m);
      match RunUnit(env, h.cfg.img, g)
      case Halted(_) =>
        k, m' := n1, m1;
        NoBlocks(m'.e.cache, m.trace);
      case At(g1) =>
        var n2;
        n2, m' := RunsAgree(env, h, starts, g1, m1, n - 1);
        RunAdd(h, m, n1, n2);
        k := n1 + n2;
        TraceCons(env, h, starts, g1, m1, m', Starts(env, h.cfg.img, g1, n - 1));
        ExtendsTrans(m.e, m1.e, m'.e);
    }
  }

  lemma NoBlocks(cache: map<nat, u64>, trace: seq<int>)
    ensures trace == trace + BlocksOf(cache, [])
  {
  }

  lemma ExtendsSelf(e: Engine)
    ensures Extends(e, e)
  {
  }

  lemma ExtendsTrans(e: Engine, e1: Engine, e2: Engine)
    requires Extends(e, e1) && Extends(e1, e2)
    ensures Extends(e, e2)
  {
  }

  lemma RunZero(h: Host, m: Machine)
    ensures Run(h, m, 0) == Some(m)
  {
  }

  lemma TraceCons(env: Env, h: Host, starts: set<nat>, g: GuestState, m: Machine, m': Machine, pcs: seq<int>)
    requires InStep(env, h, starts, g, m) && Extends(m.e, m'.e)
    ensures BlocksOf(m'.e.cache, [g.pc] + pcs) == [m.rip] + BlocksOf(m'.e.cache, pcs)
  {
    hide Inv, Tidy, Rel;
  }

  // --------------------------------------------------------- main theorem

  // The state in which the program is entered: after setup_tu(entry) on an empty cache, at the
  // block returned, with guest and host in correspondence.
  ghost predicate Started(env: Env, h: Host, code: seq<byte>, g: GuestState, m: Machine) {
    && ConfigOk(h.cfg) && |code| == MAX_CODE_SIZE && InHunks(g.pc)
    && InArea(h.cfg, EmptyEngine(code))
    && var s := SetupTu(h.cfg, EmptyEngine(code), Low64(g.pc), true);
    && s.addr == Some(m.rip) && m.e == s.e && m.trace == [m.rip]
    && Rel(env, h.exit, g, m.cpu)
  }

  // For every guest program, and for every number of units that its 680x0 run takes without leaving
  // the subset: the machine reaches the corresponding state, having gone through the blocks of
  // exactly these units, in order. Units are translated when first entered, and only those that
  // are entered have to fit their blocks.
  lemma WholeRunAgrees(env: Env, h: Host, starts: set<nat>, code: seq<byte>, g: GuestState, m: Machine, n: nat)
      returns (k: nat, m': Machine)
    requires HostOk(env, h) && LibContract(env, h.call)
    requires Places(starts) && Route(env, h.cfg.img, starts, g, n) && 0 <= g.pc && g.pc in starts
    requires Started(env, h, code, g, m)
    requires !RunUnits(env, h.cfg.img, g, n).Stuck?
    ensures Run(h, m, k) == Some(m')
    ensures Together(env, h, starts, RunUnits(env, h.cfg.img, g, n), m')
    ensures m'.trace == BlocksOf(m'.e.cache, [g.pc] + Starts(env, h.cfg.img, g, n))
  {
    hide HostOk, LibContract, Places, Route, Rel, RunUnits, Run, BlocksOf, Extends;
    StartInStep(env, h, starts, code, g, m);
    k, m' := RunsAgree(env, h, starts, g, m, n);
    TraceCons(env, h, starts, g, m, m', Starts(env, h.cfg.img, g, n));
  }

  lemma StartInStep(env: Env, h: Host, starts: set<nat>, code: seq<byte>, g: GuestState, m: Machine)
    requires Started(env, h, code, g, m) && Places(starts) && 0 <= g.pc && g.pc in starts
    ensures InStep(env, h, starts, g, m)
  {
    hide Rel, StubBlock, Key, SetupTu;
    InitialInv(h.cfg, code);
    EmptyTidy(code, starts);
    SetupKeeps(h.cfg, EmptyEngine(code), Low64(g.pc), true);
    SetupTidy(h.cfg, EmptyEngine(code), starts, g.pc);
    HunkKey(g.pc);
  }

  lemma EmptyTidy(code: seq<byte>, starts: set<nat>)
    ensures Tidy(EmptyEngine(code), starts)
  {
  }
}
