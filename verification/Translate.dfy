/** setup_tu() and translate_tu() (translate.c) on the real data structures: the cache's trie, its
    block allocator and the bytes of the code area. They do what the Engine module says. */
module Translate {
  import opened Base
  import opened X86
  import opened CodeGen
  import opened CodeSize
  import opened Emit
  import opened M68k
  import opened Translation
  import opened TlCache
  import opened Engine
  import opened OpcodeTable
  import opened Handlers
  import E = Engine

  // Translating the branch i at code offset q, up to the point where the unit is complete: opcode,
  // both successors, then the displacements. TranslateBranch adds the jump at the block's start.
  function LinkBranch(cfg: Config, e: Engine, i: GInstr, next: int, q: nat, memory1: bool, memory2: bool): Translated
    requires ConfigOk(cfg) && InArea(cfg, e) && i.BranchZ? && q + 11 <= MAX_CODE_SIZE
  {
    SetupInArea(cfg, e, Low64(i.target), memory1);
    var s := E.SetupTu(cfg, e, Low64(i.target), memory1);
    if s.addr.None? then Translated(s.e, false)
    else
      SetupInArea(cfg, s.e, Low64(next), memory2);
      var s2 := E.SetupTu(cfg, s.e, Low64(next), memory2);
      if s2.addr.None? then Translated(s2.e, false)
      else Translated(Write(s2.e, q + 2, BranchRest(s.addr.value, s2.addr.value, cfg.codeBase + q)), true)
  }

  lemma LinkThenJump(cfg: Config, e: Engine, i: GInstr, next: int, b: nat, q: nat, memory1: bool, memory2: bool)
    requires ConfigOk(cfg) && InArea(cfg, e) && i.BranchZ?
    requires b + 2 <= MAX_CODE_SIZE && q + 11 <= MAX_CODE_SIZE
    ensures var l, t := LinkBranch(cfg, e, i, next, q, memory1, memory2),
                        TranslateBranch(cfg, e, i, next, b, q, memory1, memory2);
            && l.ok == t.ok && |l.e.code| == MAX_CODE_SIZE
            && t.e == if l.ok then Write(l.e, b, JUMP_TO_CODE) else l.e
  {
    hide E.SetupTu, BranchRest, Patch;
    SetupInArea(cfg, e, Low64(i.target), memory1);
    var s := E.SetupTu(cfg, e, Low64(i.target), memory1);
    if s.addr.Some? {
      SetupInArea(cfg, s.e, Low64(next), memory2);
    }
  }

  // A block of NOPs with the stub over its start
  lemma NopsThenStub(c: seq<byte>, b: nat, cfg: Config, src: u64)
    requires b + MAX_CODE_BLOCK_SIZE <= |c|
    ensures |EncAll(TransparentCall(cfg.translateAddr, src))| == STUB_SIZE
    ensures Patch(Patch(c, b, Nops(MAX_CODE_BLOCK_SIZE)), b, EncAll(TransparentCall(cfg.translateAddr, src)))
            == Patch(c, b, StubBlock(cfg, src))
  {
    hide EncAll, TransparentCall;
    StubSize(cfg.translateAddr, src);
    var stub := EncAll(TransparentCall(cfg.translateAddr, src));
    OverStart(c, b, Nops(MAX_CODE_BLOCK_SIZE), stub, Nops(MAX_CODE_BLOCK_SIZE - STUB_SIZE));
  }

  lemma OverStart(c: seq<byte>, b: nat, x: seq<byte>, y: seq<byte>, z: seq<byte>)
    requires |x| == |y| + |z| && b + |x| <= |c| && x[|y|..] == z
    ensures Patch(Patch(c, b, x), b, y) == Patch(c, b, y + z)
  {
  }

  // ------------------------------------------------ progress through a unit

  lemma {:induction false} EmitsAllAppend(a: seq<GInstr>, b: seq<GInstr>)
    ensures EmitsAll(a + b) == EmitsAll(a) + EmitsAll(b)
  {
    hide Emits, EmitsAll;
    if a == [] {
      assert a + b == b && EmitsAll(a) == [] by { NoEmits(); }
    } else {
      EmitsAllAppend(a[1..], b);
      EmitsAllCons(a + b);
      EmitsAllCons(a);
      assert (a + b)[1..] == a[1..] + b;
      var x, y, z := Emits(a[0]), EmitsAll(a[1..]), EmitsAll(b);
      assert x + (y + z) == (x + y) + z;
    }
  }

  lemma EmitsAllCons(xs: seq<GInstr>)
    requires xs != []
    ensures EmitsAll(xs) == Emits(xs[0]) + EmitsAll(xs[1..])
  {
  }

  lemma NoEmits()
    ensures EmitsAll([]) == []
  {
  }

  function Bytes(xs: seq<GInstr>): seq<byte> { EncAll(EmitsAll(xs)) }

  lemma BytesAppend(a: seq<GInstr>, b: seq<GInstr>)
    ensures Bytes(a + b) == Bytes(a) + Bytes(b)
  {
    hide EncAll, EmitsAll;
    EmitsAllAppend(a, b);
    EncAllAppend(EmitsAll(a), EmitsAll(b));
  }

  lemma BytesOne(i: GInstr)
    ensures Bytes([i]) == EncAll(Emits(i)) && Bytes([]) == []
  {
    hide Emits, EncAll;
    assert [i][1..] == [] && EmitsAll([]) == [];
    assert EmitsAll([i]) == Emits(i) + [] == Emits(i);
    EncAllNothing();
  }

  lemma EncAllNothing()
    ensures EncAll([]) == []
  {
  }

  // The instructions done lead from src to p inside one unit.
  predicate Progress(img: Image, src: int, done: seq<GInstr>, p: int) {
    var tu, rest := ScanTu(img, src), ScanTu(img, p);
    tu.body == done + rest.body && tu.last == rest.last
  }

  // Code bytes that the instruction at p needs
  function Need(d: Option<Located>, op: u16): nat {
    match d
    case None => |PartialBytes(op)|
    case Some(Located(Rts, _)) => 1
    case Some(Located(BranchZ(_, _), _)) => 11
    case Some(Located(i, _)) => |EncAll(Emits(i))|
  }

  lemma ProgressStep(img: Image, src: int, done: seq<GInstr>, p: int)
    requires Progress(img, src, done, p) && GDecode(img, p).Some? && !Terminal(GDecode(img, p).value.i)
    ensures var Located(i, next) := GDecode(img, p).value;
            Progress(img, src, done + [i], next) && Bytes(done + [i]) == Bytes(done) + EncAll(Emits(i))
  {
    hide GDecode, Emits, Bytes, EncAll;
    var Located(i, next) := GDecode(img, p).value;
    BytesAppend(done, [i]);
    BytesOne(i);
    assert done + ([i] + ScanTu(img, next).body) == (done + [i]) + ScanTu(img, next).body;
  }

  lemma EnoughRoom(img: Image, src: int, done: seq<GInstr>, p: int)
    requires Progress(img, src, done, p)
    ensures |Bytes(done)| + Need(GDecode(img, p), WordAt(img, p)) <= EmittedSize(ScanTu(img, src))
  {
    hide GDecode, Emits, Bytes, EncAll, WordAt, PartialBytes;
    var tu, rest := ScanTu(img, src), ScanTu(img, p);
    BytesAppend(done, rest.body);
    assert BodyBytes(tu) == Bytes(done) + Bytes(rest.body) by { BodyBytesIs(tu); }
    if GDecode(img, p).Some? && !Terminal(GDecode(img, p).value.i) {
      var Located(i, next) := GDecode(img, p).value;
      BytesAppend([i], ScanTu(img, next).body);
      BytesOne(i);
    }
  }

  lemma BodyBytesIs(tu: Tu)
    ensures BodyBytes(tu) == Bytes(tu.body)
  {
  }

  // Both successors are below 4 GB, as tc_put_addr() asserts.
  predicate SuccessorsLow(img: Image, src: int) {
    var last := ScanTu(img, src).last;
    last.Ends? && last.i.BranchZ? ==> LowBranch(last.i, last.next)
  }

  predicate LowBranch(i: GInstr, next: int)
    requires i.BranchZ?
  {
    Low64(i.target) < TWO32 && Low64(next) < TWO32
  }

  // The last instruction of a unit has been handled, or refused.
  lemma UnitEnds(cfg: Config, e: Engine, src: u64, done: seq<GInstr>, p: int, e': Engine, ok: bool, memory1: bool,
      memory2: bool)
    requires ConfigOk(cfg) && InArea(cfg, e) && RoomFor(cfg, e, src) && Key(src) in e.cache
    requires Progress(cfg.img, src, done, p)
    requires var b: nat := Offset(cfg, e.cache[Key(src)]);
             var q := b + START_OF_TRANSLATED_CODE + |Bytes(done)|;
             && q + Need(GDecode(cfg.img, p), WordAt(cfg.img, p)) <= MAX_CODE_SIZE
             && var e1 := Write(e, b + START_OF_TRANSLATED_CODE, Bytes(done));
             && InArea(cfg, e1)
             && match GDecode(cfg.img, p)
                case None => !ok && e' == Write(e1, q, PartialBytes(WordAt(cfg.img, p)))
                case Some(Located(i, next)) =>
                  && Terminal(i)
                  && if i.Rts? then ok && e' == Write(e1, q, [0xc3])
                     else
                       var e2 := Write(e1, q, BranchOpcode(i.ifZero));
                       InArea(cfg, e2) && Translated(e', ok) == LinkBranch(cfg, e2, i, next, q, memory1, memory2)
    ensures var b := Offset(cfg, e.cache[Key(src)]);
            && b + 2 <= |e'.code|
            && E.TranslateTu(cfg, e, src, memory1, memory2)
               == if ok then Translated(Write(e', b, JUMP_TO_CODE), true) else Translated(e', false)
  {
    hide GDecode, WordAt, PartialBytes, LinkBranch, TranslateBranch, Patch, Key, StubBlock, EncAll, EmitsAll;
    BlockInArea(cfg, e, Key(src));
    var tu := ScanTu(cfg.img, src);
    assert ScanTu(cfg.img, p).body == [] && tu.body == done + [] == done;
    BodyBytesIs(tu);
    if tu.last.Ends? && !tu.last.i.Rts? {
      var b: nat := Offset(cfg, e.cache[Key(src)]);
      var q := b + START_OF_TRANSLATED_CODE + |Bytes(done)|;
      var e2 := Write(Write(e, b + START_OF_TRANSLATED_CODE, Bytes(done)), q, BranchOpcode(tu.last.i.ifZero));
      LinkThenJump(cfg, e2, tu.last.i, tu.last.next, b, q, memory1, memory2);
    }
  }

  class Translator {
    const cfg: Config
    const tc: TranslationCache
    const lookup: array<Option<OpcodeInfo>>     // p_opc_info_lookup_tbl
    var initialized: bool
    ghost var source: map<nat, u64>             // the address a key was set up for

    // Cache and code area as a value
    ghost function View(): Engine
      requires tc.firstCodeBlock <= tc.nextCodeBlock
      reads this, tc, tc.code
    {
      Engine(tc.view, source, tc.nextCodeBlock - tc.firstCodeBlock, tc.code[..])
    }

    ghost predicate Valid()
      reads this, tc, tc.repr, tc.code, lookup
    {
      && tc.Valid() && tc.firstCodeBlock == cfg.codeBase && ConfigOk(cfg)
      && InArea(cfg, View())
      && TableOk()
    }

    ghost predicate TableOk()
      reads this`initialized, lookup
    {
      && lookup.Length == 0x1_0000
      && (initialized ==> forall op: u16 :: lookup[op] == FirstMatch(OPCODE_INFO_TBL, op))
    }

    // tc_init(), with the code area mapped at cfg.codeBase
    constructor (cfg: Config)
      requires ConfigOk(cfg)
      ensures Valid() && this.cfg == cfg && |tc.code[..]| == MAX_CODE_SIZE && View() == EmptyEngine(tc.code[..])
      ensures fresh(tc) && fresh(tc.repr) && fresh(tc.code) && fresh(lookup)
    {
      this.cfg := cfg;
      tc := new TranslationCache(cfg.codeBase);
      lookup := new Option<OpcodeInfo>[0x1_0000];
      initialized := false;
      source := map[];
    }

    // setup_tu: `mallocs` is the number of node allocations that will still succeed. The assertion
    // in tc_put_addr() aborts the process if a unit from 4 GB on is to be put into the cache.
    method SetupTu(src: u64, mallocs: nat) returns (block: Option<u64>, ghost memory: bool, aborted: bool)
      requires Valid()
      modifies this`source, tc, tc.repr, tc.code
      ensures Valid() && old(tc.repr) <= tc.repr && fresh(tc.repr - old(tc.repr))
      ensures mallocs >= NUM_SOURCE_ADDR_BITS - 1 ==> memory
      ensures aborted <==>
              src >= TWO32 && Key(src) !in old(tc.view) && old(View()).next + MAX_CODE_BLOCK_SIZE <= MAX_CODE_SIZE
      ensures !aborted ==> var s := E.SetupTu(cfg, old(View()), src, memory); View() == s.e && block == s.addr
    {
      hide Key, Patch, StubBlock, TableOk, TranslationCache.Valid, InArea;
      ghost var e := View();
      AreaSize(cfg, e);
      memory, aborted := true, false;
      block := tc.GetAddr(src);
      if block.Some? {
        return;
      }
      block := tc.GetCodeBlock();
      if block.None? {
        return;
      }
      if src >= TWO32 {
        SetupInArea(cfg, e, src, false);
        aborted := true;
        return;
      }
      var ok := tc.PutAddr(src, block.value, mallocs);
      memory := ok;
      SetupInArea(cfg, e, src, ok);
      if !ok {
        block := None;
        return;
      }
      source := source[Key(src) := src];
      ghost var e1 := View();
      var base: int, addr: int := cfg.codeBase, block.value;
      WriteStub(addr - base, src);
    }

    // memset() to NOPs, then the call of translate_tu() over the start of the block
    method WriteStub(b: nat, src: u64)
      requires tc.code.Length == MAX_CODE_SIZE && b + MAX_CODE_BLOCK_SIZE <= MAX_CODE_SIZE
      modifies tc.code
      ensures tc.code[..] == Patch(old(tc.code[..]), b, StubBlock(cfg, src))
    {
      hide Patch, StubBlock, TransparentCall, EncAll, Emitted;
      ghost var c := tc.code[..];
      FillWithNops(tc.code, b, MAX_CODE_BLOCK_SIZE);
      var next := EmitTransparentCall(tc.code, b, cfg.translateAddr, src);
      NopsThenStub(c, b, cfg, src);
      ghost var nops := Patch(c, b, Nops(MAX_CODE_BLOCK_SIZE));
      EmittedIs(nops, tc.code[..], b, next, TransparentCall(cfg.translateAddr, src));
    }

    // The displacement of a branch, and the number of bytes it takes behind the opcode
    method ReadDisplacement(op: u16, inpos0: int) returns (offset: int, nbytesUsed: int)
      ensures match DecodeBcc(cfg.img, op, inpos0 - 2)
              case None => op / 0x100 % 0x10 != 6 && op / 0x100 % 0x10 != 7
              case Some(l) =>
                && (op / 0x100 % 0x10 == 6 || op / 0x100 % 0x10 == 7)
                && l.i == BranchZ(op / 0x100 % 0x10 == 7, inpos0 + nbytesUsed + offset - nbytesUsed)
                && l.next == inpos0 + nbytesUsed
    {
      if op % 0x100 == 0 {
        offset, nbytesUsed := Signed16(WordAt(cfg.img, inpos0)), 2;
      } else if op % 0x100 == 0xff {
        offset, nbytesUsed := Signed32(LongAt(cfg.img, inpos0)), 4;
      } else {
        offset, nbytesUsed := Signed8(op % 0x100), 0;
      }
    }

    // m68k_bcc: on success the unit lacks only the jump at the start of its block. A condition
    // other than NE and EQ is refused after the first byte is out.
    method Bcc(op: u16, inpos0: int, q: nat, mallocs1: nat, mallocs2: nat)
        returns (ok: bool, ghost memory1: bool, ghost memory2: bool, aborted: bool)
      requires Valid()
      requires match DecodeBcc(cfg.img, op, inpos0 - 2)
               case None => q + 1 <= MAX_CODE_SIZE
               case Some(l) => q + 11 <= MAX_CODE_SIZE
      modifies this`source, tc, tc.repr, tc.code
      ensures Valid() && old(tc.repr) <= tc.repr && fresh(tc.repr - old(tc.repr))
      ensures mallocs1 >= NUM_SOURCE_ADDR_BITS - 1 ==> memory1
      ensures mallocs2 >= NUM_SOURCE_ADDR_BITS - 1 ==> memory2
      ensures match DecodeBcc(cfg.img, op, inpos0 - 2)
              case None => !ok && !aborted && View() == Write(old(View()), q, [0x0f])
              case Some(l) =>
                && (LowBranch(l.i, l.next) ==> !aborted)
                && (!aborted ==>
                      Translated(View(), ok)
                      == LinkBranch(cfg, Write(old(View()), q, BranchOpcode(l.i.ifZero)), l.i, l.next, q, memory1,
                                    memory2))
    {
      hide Patch, BranchRest, TableOk, TranslationCache.Valid, WordAt, LongAt, E.SetupTu, InArea, DecodeBcc;
      ghost var e := View();
      AreaSize(cfg, e);
      memory1, memory2, aborted := true, true, false;
      var offset, nbytesUsed := ReadDisplacement(op, inpos0);
      var inpos := inpos0 + nbytesUsed;
      ok := WriteBranchOpcode(op / 0x100 % 0x10, q);
      WriteInArea(cfg, e, q, if ok then BranchOpcode(op / 0x100 % 0x10 == 7) else [0x0f]);
      if !ok {
        return;
      }
      var taken, notTaken;
      taken, memory1, aborted := SetupTu(Low64(inpos + offset - nbytesUsed), mallocs1);
      if aborted || taken.None? {
        ok := false;
        return;
      }
      notTaken, memory2, aborted := SetupTu(Low64(inpos), mallocs2);
      if aborted || notTaken.None? {
        ok := false;
        return;
      }
      ghost var e2 := View();
      WriteDisplacements(q + 2, taken.value, notTaken.value);
      WriteInArea(cfg, e2, q + 2, BranchRest(taken.value, notTaken.value, cfg.codeBase + q));
    }

    // What the handler h makes of the instruction at pc, from e to e'. Handlers of terminal
    // instructions do not move on.
    ghost predicate Outcome(h: Handler, pc: int, q: nat, e: E.Engine, e': E.Engine, ok: bool, inpos: int, next: nat,
                            memory1: bool, memory2: bool)
      requires ConfigOk(cfg) && InArea(cfg, e) && HandlerRoom(h, pc, q)
    {
      match HandlerDecode(h, cfg.img, WordAt(cfg.img, pc), pc)
      case None => !ok && e' == Write(e, q, if h.HBcc? then [0x0f] else [])
      case Some(Located(Rts, _)) => ok && e' == Write(e, q, [0xc3])
      case Some(Located(BranchZ(ifZero, target), after)) =>
        (WriteInArea(cfg, e, q, BranchOpcode(ifZero));
         Translated(e', ok) == LinkBranch(cfg, Write(e, q, BranchOpcode(ifZero)), BranchZ(ifZero, target), after, q,
             memory1, memory2))
      case Some(Located(i, after)) =>
        ok && inpos == after && next == q + |EncAll(Emits(i))| && e' == Write(e, q, EncAll(Emits(i)))
    }

    // Room at q for what the handler writes
    predicate HandlerRoom(h: Handler, pc: int, q: nat) {
      match HandlerDecode(h, cfg.img, WordAt(cfg.img, pc), pc)
      case None => q + (if h.HBcc? then 1 else 0) <= MAX_CODE_SIZE
      case Some(Located(Rts, _)) => q + 1 <= MAX_CODE_SIZE
      case Some(Located(BranchZ(_, target), after)) =>
        q + 11 <= MAX_CODE_SIZE
      case Some(Located(i, _)) => q + |EncAll(Emits(i))| <= MAX_CODE_SIZE
    }

    // Handlers of instructions that do not end a unit
    method CallStraightHandler(h: Handler, op: u16, inpos0: int, q: nat) returns (ok: bool, inpos: int, next: nat)
      requires !h.HRts? && !h.HBcc?
      requires Room(HandlerDecode(h, cfg.img, op, inpos0 - 2), tc.code.Length, q)
      modifies tc.code
      ensures Handled(HandlerDecode(h, cfg.img, op, inpos0 - 2), old(tc.code[..]), tc.code[..], q, ok, inpos, next)
    {
      hide Handled, Room, HandlerDecode;
      match h {
        case HTst => ok, inpos, next := Tst32(cfg.img, op, inpos0, tc.code, q);
        case HJsr => ok, inpos, next := Jsr(cfg.img, op, inpos0, tc.code, q);
        case HSubq => ok, inpos, next := Subq32(cfg.img, op, inpos0, tc.code, q);
        case HMovea => ok, inpos, next := Movea(cfg.img, op, inpos0, tc.code, q);
        case HMoveq => ok, inpos, next := Moveq(cfg.img, op, inpos0, tc.code, q);
        case HMove => ok, inpos, next := Move(cfg.img, op, inpos0, tc.code, q);
      }
    }

    lemma HandledOutcome(h: Handler, pc: int, q: nat, e: E.Engine, e': E.Engine, ok: bool, inpos: int, next: nat)
      requires !h.HRts? && !h.HBcc?
      requires ConfigOk(cfg) && InArea(cfg, e) && HandlerRoom(h, pc, q)
      requires Handled(HandlerDecode(h, cfg.img, WordAt(cfg.img, pc), pc), e.code, e'.code, q, ok, inpos, next)
      requires e' == e.(code := e'.code)
      ensures Outcome(h, pc, q, e, e', ok, inpos, next, true, true) && InArea(cfg, e')
    {
      hide Emits, EncAll, WordAt, OperandAt, LinkBranch;
      AreaSize(cfg, e);
      if !ok {
        WriteNothing(e, q);
      }
    }

    // A branch with a successor from 4 GB on
    predicate HighBranch(d: Option<Located>) { d.Some? && d.value.i.BranchZ? && !LowBranch(d.value.i, d.value.next) }

    // Calling a handler through the lookup table
    method CallHandler(h: Handler, inpos0: int, q: nat, mallocs1: nat, mallocs2: nat)
        returns (ok: bool, inpos: int, next: nat, ghost memory1: bool, ghost memory2: bool, aborted: bool)
      requires Valid() && HandlerRoom(h, inpos0 - 2, q)
      modifies this`source, tc, tc.repr, tc.code
      ensures Valid() && old(tc.repr) <= tc.repr && fresh(tc.repr - old(tc.repr))
      ensures mallocs1 >= NUM_SOURCE_ADDR_BITS - 1 ==> memory1
      ensures mallocs2 >= NUM_SOURCE_ADDR_BITS - 1 ==> memory2
      ensures !aborted ==> Outcome(h, inpos0 - 2, q, old(View()), View(), ok, inpos, next, memory1, memory2)
      ensures aborted ==> HighBranch(HandlerDecode(h, cfg.img, WordAt(cfg.img, inpos0 - 2), inpos0 - 2))
    {
      hide Patch, TableOk, TranslationCache.Valid, WordAt, InArea, Emits, EncAll, LinkBranch;
      memory1, memory2, aborted := true, true, false;
      ghost var e := View();
      AreaSize(cfg, e);
      var op := WordAt(cfg.img, inpos0 - 2);
      ok, inpos, next := true, inpos0, q;
      if h.HRts? {
        next := RtsHandler(tc.code, q);
        WriteInArea(cfg, e, q, [0xc3]);
      } else if h.HBcc? {
        ok, memory1, memory2, aborted := Bcc(op, inpos0, q, mallocs1, mallocs2);
      } else {
        ok, inpos, next := CallStraightHandler(h, op, inpos0, q);
        HandledOutcome(h, inpos0 - 2, q, e, View(), ok, inpos, next);
      }
    }

    // There is room for what the handler found for the instruction at p writes, and the handler
    // does what the instruction's decoding says.
    lemma Ready(src: u64, done: seq<GInstr>, p: int, b: nat, info: OpcodeInfo)
      requires Progress(cfg.img, src, done, p)
      requires b + START_OF_TRANSLATED_CODE + EmittedSize(ScanTu(cfg.img, src)) <= MAX_CODE_SIZE
      requires FirstMatch(OPCODE_INFO_TBL, WordAt(cfg.img, p)) == Some(info)
      ensures HandlerDecode(info.handler, cfg.img, WordAt(cfg.img, p), p) == GDecode(cfg.img, p)
      ensures GDecode(cfg.img, p).Some? ==> info.terminal == Terminal(GDecode(cfg.img, p).value.i)
      ensures (if info.handler.HBcc? then [0x0f] else []) == PartialBytes(WordAt(cfg.img, p))
      ensures var q := b + START_OF_TRANSLATED_CODE + |Bytes(done)|;
              && q + Need(GDecode(cfg.img, p), WordAt(cfg.img, p)) <= MAX_CODE_SIZE
              && HandlerRoom(info.handler, p, q)
    {
      hide GDecode, WordAt, EncAll, EmitsAll, Emits, EmittedSize, HandlerDecode, FirstMatch;
      EnoughRoom(cfg.img, src, done, p);
      TableDecodes(cfg.img, p);
      if GDecode(cfg.img, p).Some? {
        TableTerminals(cfg.img, p);
      }
      TableBranches(WordAt(cfg.img, p));
    }

    // The lookup table is built once.
    method FirstTime()
      requires Valid()
      modifies this`initialized, lookup
      ensures Valid() && initialized && View() == old(View())
    {
      hide TranslationCache.Valid, InArea;
      if !initialized {
        InitOpcInfoLookupTbl(OPCODE_INFO_TBL, lookup);
        initialized := true;
      }
    }

    // translate_tu
    method TranslateTu(src: u64, mallocs1: nat, mallocs2: nat)
        returns (block: Option<u64>, ghost memory1: bool, ghost memory2: bool, aborted: bool)
      requires Valid() && RoomFor(cfg, View(), src)
      modifies this`source, this`initialized, tc, tc.repr, tc.code, lookup
      ensures Valid() && old(tc.repr) <= tc.repr && fresh(tc.repr - old(tc.repr))
      ensures mallocs1 >= NUM_SOURCE_ADDR_BITS - 1 ==> memory1
      ensures mallocs2 >= NUM_SOURCE_ADDR_BITS - 1 ==> memory2
      ensures aborted ==> !SuccessorsLow(cfg.img, src)
      ensures !aborted ==>
                var t := E.TranslateTu(cfg, old(View()), src, memory1, memory2);
                View() == t.e && block == if t.ok then Some(old(tc.view)[Key(src)]) else None
    {
      hide Patch, TranslationCache.Valid, WordAt, InArea, GDecode, Bytes, Progress, EmittedSize, SuccessorsLow;
      hide Outcome, HandlerRoom, Key, E.TranslateTu, FirstMatch, HandlerDecode, Need, PartialBytes, EncAll;
      hide EmitsAll, ScanTu, BodyBytes;
      memory1, memory2, aborted := true, true, false;
      ghost var e := View();
      FirstTime();
      block := tc.GetAddr(src);
      if block.None? {
        NotCached(cfg, e, src);
        return;
      }
      var base: int, addr: int := cfg.codeBase, block.value;
      var b := addr - base;
      BlockInArea(cfg, e, Key(src));
      var p: int, q := src, b + START_OF_TRANSLATED_CODE;
      ghost var done: seq<GInstr> := [];
      ProgressStart(cfg.img, src);
      WriteNothing(e, q);
      while true
        invariant Valid() && initialized && old(tc.repr) <= tc.repr && fresh(tc.repr - old(tc.repr))
        invariant mallocs1 >= NUM_SOURCE_ADDR_BITS - 1 ==> memory1
        invariant mallocs2 >= NUM_SOURCE_ADDR_BITS - 1 ==> memory2
        invariant Progress(cfg.img, src, done, p)
        invariant q == b + START_OF_TRANSLATED_CODE + |Bytes(done)|
        invariant q <= MAX_CODE_SIZE
        invariant View() == Write(e, b + START_OF_TRANSLATED_CODE, Bytes(done))
        decreases HUNK_START_ADDRESS + |cfg.img| - p
      {
        ghost var e1 := View();
        var info := lookup[WordAt(cfg.img, p)];
        if info.None? {
          NoHandler(e, src, done, p, memory1, memory2);
          return None, memory1, memory2, false;
        }
        var ok, inpos, next;
        Ready(src, done, p, b, info.value);
        ok, inpos, next, memory1, memory2, aborted := CallHandler(info.value.handler, p + 2, q, mallocs1, mallocs2);
        if aborted {
          HighSuccessor(src, done, p);
          return None, memory1, memory2, true;
        }
        if !ok {
          Ended(e, e1, src, done, p, info.value, View(), ok, inpos, next, memory1, memory2);
          return None, memory1, memory2, false;
        }
        if info.value.terminal {
          Ended(e, e1, src, done, p, info.value, View(), ok, inpos, next, memory1, memory2);
          ghost var e2 := View();
          WriteJump(b);
          WriteInArea(cfg, e2, b, JUMP_TO_CODE);
          return block, memory1, memory2, false;
        }
        done := GoOn(e, e1, src, done, p, info.value, View(), inpos, next, memory1, memory2);
        p, q := inpos, next;
      }
    }

    lemma HighSuccessor(src: u64, done: seq<GInstr>, p: int)
      requires Progress(cfg.img, src, done, p) && HighBranch(GDecode(cfg.img, p))
      ensures !SuccessorsLow(cfg.img, src)
    {
      hide GDecode, LowBranch;
    }

    // No entry in the table: the unit is refused.
    lemma NoHandler(e: E.Engine, src: u64, done: seq<GInstr>, p: int, memory1: bool, memory2: bool)
      requires ConfigOk(cfg) && InArea(cfg, e) && RoomFor(cfg, e, src) && Key(src) in e.cache
      requires Progress(cfg.img, src, done, p) && FirstMatch(OPCODE_INFO_TBL, WordAt(cfg.img, p)) == None
      ensures var b: nat := Offset(cfg, e.cache[Key(src)]);
              && b + START_OF_TRANSLATED_CODE + |Bytes(done)| <= |e.code|
              && E.TranslateTu(cfg, e, src, memory1, memory2)
                 == Translated(Write(e, b + START_OF_TRANSLATED_CODE, Bytes(done)), false)
    {
      hide GDecode, WordAt, LinkBranch, Patch, Key, FirstMatch, EncAll, EmitsAll, EmittedSize, E.TranslateTu;
      hide Bytes, ScanTu;
      var op := WordAt(cfg.img, p);
      var b: nat := Offset(cfg, e.cache[Key(src)]);
      TableDecodes(cfg.img, p);
      TableBranches(op);
      EnoughRoom(cfg.img, src, done, p);
      BlockInArea(cfg, e, Key(src));
      var q := b + START_OF_TRANSLATED_CODE;
      var e1 := Write(e, q, Bytes(done));
      WriteInArea(cfg, e, q, Bytes(done));
      WriteNothing(e1, q + |Bytes(done)|);
      UnitEnds(cfg, e, src, done, p, e1, false, memory1, memory2);
    }

    // The engine before the instruction at p is handled
    ghost predicate Halfway(e: E.Engine, e1: E.Engine, src: u64, done: seq<GInstr>, p: int, info: OpcodeInfo) {
      && ConfigOk(cfg) && InArea(cfg, e) && Key(src) in e.cache && RoomFor(cfg, e, src)
      && Progress(cfg.img, src, done, p) && FirstMatch(OPCODE_INFO_TBL, WordAt(cfg.img, p)) == Some(info)
      && InArea(cfg, e1)
      && Offset(cfg, e.cache[Key(src)]) >= 0
      && Offset(cfg, e.cache[Key(src)]) + START_OF_TRANSLATED_CODE + |Bytes(done)| <= |e.code|
      && e1 == Write(e, Offset(cfg, e.cache[Key(src)]) + START_OF_TRANSLATED_CODE, Bytes(done))
      && HandlerRoom(info.handler, p, Cursor(e, src, done))
    }

    // Where the next instruction's translation goes
    ghost function Cursor(e: E.Engine, src: u64, done: seq<GInstr>): nat
      requires Key(src) in e.cache && Offset(cfg, e.cache[Key(src)]) >= 0
    {
      Offset(cfg, e.cache[Key(src)]) + START_OF_TRANSLATED_CODE + |Bytes(done)|
    }

    lemma Ended(e: E.Engine, e1: E.Engine, src: u64, done: seq<GInstr>, p: int, info: OpcodeInfo, e': E.Engine,
                ok: bool, inpos: int, next: nat, memory1: bool, memory2: bool)
      requires Halfway(e, e1, src, done, p, info)
      requires Outcome(info.handler, p, Cursor(e, src, done), e1, e', ok, inpos, next, memory1, memory2)
      requires !ok || info.terminal
      ensures var b := Offset(cfg, e.cache[Key(src)]);
              && b + 2 <= |e'.code|
              && E.TranslateTu(cfg, e, src, memory1, memory2)
                 == if ok then Translated(Write(e', b, JUMP_TO_CODE), true) else Translated(e', false)
    {
      hide GDecode, WordAt, LinkBranch, Patch, Key, FirstMatch, EncAll, EmitsAll, EmittedSize, E.TranslateTu;
      hide HandlerDecode, PartialBytes, Bytes, ScanTu, Emits, HandlerRoom;
      var b: nat := Offset(cfg, e.cache[Key(src)]);
      BlockInArea(cfg, e, Key(src));
      Ready(src, done, p, b, info);
      UnitEnds(cfg, e, src, done, p, e', ok, memory1, memory2);
    }

    lemma GoOn(e: E.Engine, e1: E.Engine, src: u64, done: seq<GInstr>, p: int, info: OpcodeInfo, e': E.Engine,
               inpos: int, next: nat, memory1: bool, memory2: bool) returns (done': seq<GInstr>)
      requires Halfway(e, e1, src, done, p, info)
      requires Outcome(info.handler, p, Cursor(e, src, done), e1, e', true, inpos, next, memory1, memory2)
      requires !info.terminal
      ensures Progress(cfg.img, src, done', inpos) && p < inpos && p < HUNK_START_ADDRESS + |cfg.img|
      ensures next == Cursor(e, src, done')
      ensures var b := Offset(cfg, e.cache[Key(src)]);
              b + START_OF_TRANSLATED_CODE + |Bytes(done')| <= |e.code| == MAX_CODE_SIZE
              && e' == Write(e, b + START_OF_TRANSLATED_CODE, Bytes(done'))
    {
      hide GDecode, WordAt, LinkBranch, Patch, Key, FirstMatch, EncAll, EmitsAll, Emits, EmittedSize, HandlerDecode;
      hide PartialBytes, Bytes;
      var b: nat := Offset(cfg, e.cache[Key(src)]);
      BlockInArea(cfg, e, Key(src));
      Ready(src, done, p, b, info);
      DecodeAdvances(cfg.img, p);
      ProgressStep(cfg.img, src, done, p);
      var i := GDecode(cfg.img, p).value.i;
      done' := done + [i];
      PatchPatch(e.code, b + START_OF_TRANSLATED_CODE, Bytes(done), EncAll(Emits(i)));
    }

    // The opcode of Jcc, as far as the condition is known
    method WriteBranchOpcode(cond: int, q: nat) returns (ok: bool)
      requires tc.code.Length == MAX_CODE_SIZE && q + (if cond == 6 || cond == 7 then 2 else 1) <= MAX_CODE_SIZE
      modifies tc.code
      ensures ok == (cond == 6 || cond == 7)
      ensures tc.code[..] == Patch(old(tc.code[..]), q, if ok then BranchOpcode(cond == 7) else [0x0f])
    {
      hide Patch;
      ghost var c := tc.code[..];
      var next := WriteByte(tc.code, q, 0x0f);
      if cond != 6 && cond != 7 {
        return false;
      }
      var second := if cond == 6 then 0x85 else 0x84;
      next := WriteByte(tc.code, next, second);
      PatchPatch(c, q, [0x0f], [second]);
      assert [0x0f] + [second] == BranchOpcode(cond == 7);
      return true;
    }

    // A jump over the stub, to the code at START_OF_TRANSLATED_CODE
    method WriteJump(b: nat)
      requires tc.code.Length == MAX_CODE_SIZE && b + 2 <= MAX_CODE_SIZE
      modifies tc.code
      ensures tc.code[..] == Patch(old(tc.code[..]), b, JUMP_TO_CODE)
    {
      hide Patch;
      ghost var c := tc.code[..];
      var next := WriteByte(tc.code, b, OPCODE_JMP_REL8);
      next := WriteByte(tc.code, next, 0x7e);
      PatchPatch(c, b, [OPCODE_JMP_REL8], [0x7e]);
      assert [OPCODE_JMP_REL8] + [0x7e] == JUMP_TO_CODE;
    }

    // The displacement of Jcc and the JMP behind it, from offset p on
    method WriteDisplacements(p: nat, taken: u64, notTaken: u64)
      requires tc.code.Length == MAX_CODE_SIZE && p + 9 <= MAX_CODE_SIZE && 2 <= p
      modifies tc.code
      ensures tc.code[..] == Patch(old(tc.code[..]), p, BranchRest(taken, notTaken, cfg.codeBase + (p - 2)))
    {
      hide Patch, LE32;
      ghost var c := tc.code[..];
      var base: int, to: int, els: int := cfg.codeBase, taken, notTaken;
      var offset := Low32(to - (base + p + 4));
      var next := WriteDword(tc.code, p, offset);
      var offset2 := Low32(els - (base + next + 5));
      next := WriteByte(tc.code, next, 0xe9);
      next := WriteDword(tc.code, next, offset2);
      ThreeParts(c, p, LE32(offset), [0xe9], LE32(offset2));
      assert LE32(offset) + [0xe9] + LE32(offset2) == BranchRest(taken, notTaken, cfg.codeBase + (p - 2));
    }
  }

  lemma NotCached(cfg: Config, e: Engine, src: u64)
    requires ConfigOk(cfg) && InArea(cfg, e) && Key(src) !in e.cache
    ensures E.TranslateTu(cfg, e, src, true, true) == Translated(e, false)
  {
  }

  lemma BlockInArea(cfg: Config, e: Engine, k: nat)
    requires InArea(cfg, e) && k in e.cache
    ensures 0 <= Offset(cfg, e.cache[k]) && Offset(cfg, e.cache[k]) + MAX_CODE_BLOCK_SIZE <= MAX_CODE_SIZE == |e.code|
  {
    assert BlockStart(cfg, e.next, e.cache[k]);
  }

  lemma ProgressStart(img: Image, src: int)
    ensures Progress(img, src, [], src) && Bytes([]) == []
  {
    hide GDecode;
    EncAllNothing();
  }

  lemma WriteNothing(e: Engine, q: nat)
    requires q <= |e.code|
    ensures Write(e, q, []) == e
  {
  }

  lemma WriteInArea(cfg: Config, e: Engine, q: nat, b: seq<byte>)
    requires InArea(cfg, e) && q + |b| <= |e.code|
    ensures InArea(cfg, Write(e, q, b))
  {
    hide Patch;
  }

  lemma AreaSize(cfg: Config, e: Engine)
    requires InArea(cfg, e)
    ensures |e.code| == MAX_CODE_SIZE && e.next <= MAX_CODE_SIZE
  {
  }

  lemma EmittedIs(c0: seq<byte>, c1: seq<byte>, pos: nat, next: nat, xs: seq<Instr>)
    requires Emitted(c0, c1, pos, next, xs)
    ensures next == pos + |EncAll(xs)| <= |c0| && c1 == Patch(c0, pos, EncAll(xs))
  {
  }

  method FillWithNops(code: array<byte>, pos: nat, n: nat)
    requires pos + n <= code.Length
    modifies code
    ensures code[..] == Patch(old(code[..]), pos, Nops(n))
  {
    for k := 0 to n
      invariant forall j :: pos <= j < pos + k ==> code[j] == OPCODE_NOP
      invariant forall j :: 0 <= j < pos || pos + n <= j < code.Length ==> code[j] == old(code[j])
    {
      code[pos + k] := OPCODE_NOP;
    }
  }
}
