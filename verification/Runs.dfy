/** Whole runs of the engine: any sequence of setting up units and of stubs being executed. */
module Runs {
  import opened Base
  import opened X86
  import opened CodeGen
  import opened CodeSize
  import opened M68k
  import opened Translation
  import opened TlCache
  import opened Engine
  import opened Invariant

  // setup_tu() is called for a source address, or the stub of block k runs. memory, memory1 and
  // memory2 say whether the cache gets the memory it asks for.
  datatype Event = SetUp(src: u64, memory: bool) | StubRuns(k: nat, memory1: bool, memory2: bool)

  // Only a block that still has its stub calls translate_tu(). Nothing there checks that the unit
  // fits its block: the code written may run on into the blocks behind, and where it leaves the
  // code area the process dies.
  function Step(cfg: Config, e: Engine, ev: Event): (r: Option<Engine>)
    requires ConfigOk(cfg) && InArea(cfg, e)
    ensures r.Some? ==> InArea(cfg, r.value)
  {
    match ev
    case SetUp(src, memory) =>
      SetupInArea(cfg, e, src, memory);
      Some(SetupTu(cfg, e, src, memory).e)
    case StubRuns(k, memory1, memory2) =>
      if !(k in e.cache && Pending(cfg, e, k)) then Some(e)
      else if !RoomFor(cfg, e, e.source[k]) then None
      else
        TranslateInArea(cfg, e, e.source[k], memory1, memory2);
        Some(TranslateTu(cfg, e, e.source[k], memory1, memory2).e)
  }

  lemma TranslateInArea(cfg: Config, e: Engine, src: u64, memory1: bool, memory2: bool)
    requires ConfigOk(cfg) && InArea(cfg, e) && RoomFor(cfg, e, src)
    ensures InArea(cfg, TranslateTu(cfg, e, src, memory1, memory2).e)
    ensures MapsOk(e.cache, e.source, e.next) ==>
              var e' := TranslateTu(cfg, e, src, memory1, memory2).e; MapsOk(e'.cache, e'.source, e'.next)
  {
    hide StubBlock, BodyBytes, BranchRest, Key, Patch, SetupTu, MapsOk, ScanTu;
    if Key(src) in e.cache && ScanTu(cfg.img, src).last.Ends? && !ScanTu(cfg.img, src).last.i.Rts? {
      var tu := ScanTu(cfg.img, src);
      assert Offset(cfg, e.cache[Key(src)]) >= 0 by { assert BlockStart(cfg, e.next, e.cache[Key(src)]); }
      var b: nat := Offset(cfg, e.cache[Key(src)]);
      var q := b + START_OF_TRANSLATED_CODE + |BodyBytes(tu)|;
      var e1 := Write(Write(e, b + START_OF_TRANSLATED_CODE, BodyBytes(tu)), q, BranchOpcode(tu.last.i.ifZero));
      BranchInArea(cfg, e1, tu.last.i, tu.last.next, b, q, memory1, memory2);
    }
  }

  lemma BranchInArea(cfg: Config, e: Engine, i: GInstr, next: int, b: nat, q: nat, memory1: bool, memory2: bool)
    requires ConfigOk(cfg) && InArea(cfg, e) && i.BranchZ?
    requires b + 2 <= MAX_CODE_SIZE && q + 11 <= MAX_CODE_SIZE
    ensures var e' := TranslateBranch(cfg, e, i, next, b, q, memory1, memory2).e;
            InArea(cfg, e') && (MapsOk(e.cache, e.source, e.next) ==> MapsOk(e'.cache, e'.source, e'.next))
  {
    hide BranchRest, Key, Patch, SetupTu, MapsOk, BlockStart;
    SetupMaps(cfg, e, Low64(i.target), memory1);
    var s := SetupTu(cfg, e, Low64(i.target), memory1);
    if s.addr.Some? {
      SetupMaps(cfg, s.e, Low64(next), memory2);
    }
  }

  lemma SetupMaps(cfg: Config, e: Engine, src: u64, memory: bool)
    requires ConfigOk(cfg) && InArea(cfg, e)
    ensures var e' := SetupTu(cfg, e, src, memory).e;
            InArea(cfg, e') && (MapsOk(e.cache, e.source, e.next) ==> MapsOk(e'.cache, e'.source, e'.next))
  {
    hide StubBlock, Key, Patch;
    SetupInArea(cfg, e, src, memory);
    if MapsOk(e.cache, e.source, e.next) && Key(src) !in e.cache && SetupTu(cfg, e, src, memory).addr.Some? {
      MapsNew(cfg, e, src);
    }
  }

  // A unit set up once stays where it is, and a translated unit stays translated.
  predicate Later(cfg: Config, e: Engine, e': Engine)
    requires InArea(cfg, e) && InArea(cfg, e')
  {
    && Extends(e, e')
    && forall k: nat :: k in e.cache && Done(cfg, e, k) ==> k in e'.cache && Done(cfg, e', k)
  }

  lemma PendingNotDone(cfg: Config, e: Engine, k: nat)
    requires k in e.cache && k in e.source && Pending(cfg, e, k)
    ensures !Done(cfg, e, k)
  {
    hide Pushes, Pops, AbsCall, Nops, Enc, TuBytes, Fits;
    var b, stub := Offset(cfg, e.cache[k]), StubBlock(cfg, e.source[k]);
    var xs := TransparentCall(cfg.translateAddr, e.source[k]);
    FirstByte(cfg.translateAddr, e.source[k]);
    assert e.code[b..b + START_OF_TRANSLATED_CODE][0] == stub[0] == EncAll(xs)[0];
    assert e.code[b] == 0x41;
    NoJump(e.code, b);
  }

  lemma NoJump(code: seq<byte>, b: nat)
    requires b + 2 <= |code| && code[b] == 0x41
    ensures !CodeAt(code, b, JUMP_TO_CODE)
  {
    assert code[b..b + 2][0] == 0x41;
  }

  lemma FirstByte(f: u64, arg: u64)
    ensures |EncAll(TransparentCall(f, arg))| == STUB_SIZE && EncAll(TransparentCall(f, arg))[0] == 0x41
  {
    hide AbsCall, Pops;
    StubSize(f, arg);
    assert Pushes(SAVED_STATE)[0] == Push(R10);
    assert TransparentCall(f, arg)[0] == Push(R10);
    assert Enc(Push(R10))[0] == 0x41;
  }

  // If the stub of a block runs, its unit fits.
  predicate StubFits(cfg: Config, e: Engine, ev: Event)
    requires InArea(cfg, e)
  {
    ev.StubRuns? && ev.k in e.cache && Pending(cfg, e, ev.k) ==> Fits(cfg.img, e.source[ev.k])
  }

  lemma StepKeeps(cfg: Config, e: Engine, ev: Event)
    requires Inv(cfg, e) && StubFits(cfg, e, ev)
    ensures Step(cfg, e, ev).Some?
    ensures var e' := Step(cfg, e, ev).value; Inv(cfg, e') && Later(cfg, e, e')
  {
    hide Pending, Done, BlocksOk, MapsOk, Fits, SetupTu, TranslateTu, Key, RoomFor;
    match ev
    case SetUp(src, memory) =>
      var e' := SetupTu(cfg, e, src, memory).e;
      SetupKeeps(cfg, e, src, memory);
      forall k: nat | k in e.cache && Done(cfg, e, k)
        ensures Done(cfg, e', k)
      {
        InvBlock(cfg, e, k);
        SameSlice(e.code, e'.code, e.next, Offset(cfg, e.cache[k]));
        BlockKept(cfg, e, e', k);
      }
    case StubRuns(k, memory1, memory2) =>
      if k in e.cache && Pending(cfg, e, k) {
        FitsHasRoom(cfg, e, e.source[k]);
        TranslateLater(cfg, e, k, memory1, memory2);
      }
  }

  lemma TranslateLater(cfg: Config, e: Engine, k: nat, memory1: bool, memory2: bool)
    requires Inv(cfg, e) && k in e.cache && Pending(cfg, e, k) && Fits(cfg.img, e.source[k])
    ensures RoomFor(cfg, e, e.source[k])
    ensures var e' := TranslateTu(cfg, e, e.source[k], memory1, memory2).e; Inv(cfg, e') && Later(cfg, e, e')
  {
    hide Pending, Done, BlocksOk, MapsOk, Fits, TranslateTu, Key, RoomFor;
    FitsHasRoom(cfg, e, e.source[k]);
    var e' := TranslateTu(cfg, e, e.source[k], memory1, memory2).e;
    TranslateKeeps(cfg, e, k, memory1, memory2);
    PendingNotDone(cfg, e, k);
    InvBlock(cfg, e, k);
    forall l: nat | l in e.cache && Done(cfg, e, l)
      ensures Done(cfg, e', l)
    {
      InvBlock(cfg, e, l);
      BlocksApart(cfg, e, k, l);
      SameBlock(e, e', Offset(cfg, e.cache[k]), Offset(cfg, e.cache[l]));
      BlockKept(cfg, e, e', l);
    }
  }

  function Run(cfg: Config, e: Engine, evs: seq<Event>): (r: Option<Engine>)
    requires ConfigOk(cfg) && InArea(cfg, e)
    ensures r.Some? ==> InArea(cfg, r.value)
    decreases |evs|
  {
    if evs == [] then Some(e)
    else
      match Step(cfg, e, evs[0])
      case None => None
      case Some(e1) => Run(cfg, e1, evs[1..])
  }

  // The premise of the theorems about runs: every unit whose stub runs fits its block.
  predicate AllFit(cfg: Config, e: Engine, evs: seq<Event>)
    requires ConfigOk(cfg) && InArea(cfg, e)
    decreases |evs|
  {
    evs == [] ||
    (StubFits(cfg, e, evs[0])
     && match Step(cfg, e, evs[0])
        case None => true
        case Some(e1) => AllFit(cfg, e1, evs[1..]))
  }

  // Every run in which units fit keeps the invariant, never moves a unit to another block and never
  // undoes a translation; at most 64 units are cached.
  lemma {:induction false} RunKeeps(cfg: Config, e: Engine, evs: seq<Event>)
    requires Inv(cfg, e) && AllFit(cfg, e, evs)
    ensures Run(cfg, e, evs).Some?
    ensures var e' := Run(cfg, e, evs).value; Inv(cfg, e') && Later(cfg, e, e') && |e'.cache| <= 64
    decreases |evs|
  {
    hide Done, Step, BlocksOk, MapsOk, StubFits;
    if evs == [] {
      AtMost64(cfg, e);
    } else {
      StepKeeps(cfg, e, evs[0]);
      var e1 := Step(cfg, e, evs[0]).value;
      RunKeeps(cfg, e1, evs[1..]);
      LaterTrans(cfg, e, e1, Run(cfg, e, evs).value);
    }
  }

  lemma AtMost64(cfg: Config, e: Engine)
    requires Inv(cfg, e)
    ensures |e.cache| <= 64 && Later(cfg, e, e)
  {
  }

  lemma LaterTrans(cfg: Config, e: Engine, e1: Engine, e2: Engine)
    requires InArea(cfg, e) && InArea(cfg, e1) && InArea(cfg, e2)
    requires Later(cfg, e, e1) && Later(cfg, e1, e2)
    ensures Later(cfg, e, e2)
  {
    hide Done, InArea;
  }

  // With no block lost, a unit can be set up if and only if it is known, or memory suffices and fewer
  // than 64 units are known.
  lemma RoomForUnits(cfg: Config, e: Engine, src: u64, memory: bool)
    requires ConfigOk(cfg) && InArea(cfg, e) && e.next == 1024 * |e.cache|
    ensures SetupTu(cfg, e, src, memory).addr.Some? <==> Key(src) in e.cache || (memory && |e.cache| < 64)
  {
    hide StubBlock, Key, Patch;
  }

  // ------------------------------------------------- runs from the start

  lemma InitialArea(cfg: Config, code: seq<byte>)
    requires ConfigOk(cfg) && |code| == MAX_CODE_SIZE
    ensures InArea(cfg, EmptyEngine(code)) && MapsOk(map[], map[], 0)
  {
  }

  // A run from the cache that tc_init() leaves
  function RunFromStart(cfg: Config, code: seq<byte>, evs: seq<Event>): (r: Option<Engine>)
    requires ConfigOk(cfg) && |code| == MAX_CODE_SIZE
    ensures r.Some? ==> InArea(cfg, r.value)
  {
    InitialArea(cfg, code);
    Run(cfg, EmptyEngine(code), evs)
  }

  predicate AllFitFromStart(cfg: Config, code: seq<byte>, evs: seq<Event>)
    requires ConfigOk(cfg) && |code| == MAX_CODE_SIZE
  {
    InitialArea(cfg, code);
    AllFit(cfg, EmptyEngine(code), evs)
  }

  // In every engine that can be reached with units that fit, each cached block is pending or done,
  // and all else that the invariant says holds.
  lemma ReachableInv(cfg: Config, code: seq<byte>, evs: seq<Event>)
    requires ConfigOk(cfg) && |code| == MAX_CODE_SIZE && AllFitFromStart(cfg, code, evs)
    ensures RunFromStart(cfg, code, evs).Some?
    ensures var e := RunFromStart(cfg, code, evs).value; Inv(cfg, e) && |e.cache| <= 64
  {
    hide BlocksOk, MapsOk, Run, AllFit;
    InitialInv(cfg, code);
    RunKeeps(cfg, EmptyEngine(code), evs);
  }

  lemma {:induction false} RunMaps(cfg: Config, e: Engine, evs: seq<Event>)
    requires ConfigOk(cfg) && InArea(cfg, e) && MapsOk(e.cache, e.source, e.next) && Run(cfg, e, evs).Some?
    ensures var e' := Run(cfg, e, evs).value; MapsOk(e'.cache, e'.source, e'.next)
    decreases |evs|
  {
    hide MapsOk, Pending, SetupTu, TranslateTu, RoomFor;
    if evs != [] {
      match evs[0] {
        case SetUp(src, memory) => SetupMaps(cfg, e, src, memory);
        case StubRuns(k, memory1, memory2) =>
          if k in e.cache && Pending(cfg, e, k) {
            TranslateInArea(cfg, e, e.source[k], memory1, memory2);
          }
      }
      RunMaps(cfg, Step(cfg, e, evs[0]).value, evs[1..]);
    }
  }

  // In every engine that can be reached, whether units fit or not, the blocks of different units lie
  // apart, aligned and inside the code area.
  lemma BlocksDisjoint(cfg: Config, code: seq<byte>, evs: seq<Event>, k: nat, l: nat)
    requires ConfigOk(cfg) && |code| == MAX_CODE_SIZE && RunFromStart(cfg, code, evs).Some?
    requires var e := RunFromStart(cfg, code, evs).value; k in e.cache && l in e.cache && k != l
    ensures var e := RunFromStart(cfg, code, evs).value;
            var b, c := Offset(cfg, e.cache[k]), Offset(cfg, e.cache[l]);
            && 0 <= b <= MAX_CODE_SIZE - MAX_CODE_BLOCK_SIZE && b % MAX_CODE_BLOCK_SIZE == 0
            && (b + MAX_CODE_BLOCK_SIZE <= c || c + MAX_CODE_BLOCK_SIZE <= b)
  {
    hide MapsOk, Run;
    InitialArea(cfg, code);
    RunMaps(cfg, EmptyEngine(code), evs);
    var e := RunFromStart(cfg, code, evs).value;
    BlocksApart(cfg, e, k, l);
    assert BlockStart(cfg, e.next, e.cache[k]);
  }

  // A unit is translated at most once: when its translation has succeeded, the block is done and
  // stays so, and its stub, which alone calls translate_tu(), never runs again.
  lemma TranslatedOnce(cfg: Config, e: Engine, k: nat, evs: seq<Event>)
    requires Inv(cfg, e) && k in e.cache && Done(cfg, e, k) && AllFit(cfg, e, evs)
    ensures Run(cfg, e, evs).Some?
    ensures var e' := Run(cfg, e, evs).value;
            k in e'.cache && k in e'.source && Done(cfg, e', k) && !Pending(cfg, e', k)
  {
    hide Pending, Done, BlocksOk, MapsOk, Run, AllFit;
    RunKeeps(cfg, e, evs);
    var e' := Run(cfg, e, evs).value;
    if Pending(cfg, e', k) {
      PendingNotDone(cfg, e', k);
    }
  }
}
