/** The translation engine on values: what setting up and translating a unit does to the cache and
    the code area, and the invariant that every such step keeps. */
module Engine {
  import opened Base
  import opened X86
  import opened CodeGen
  import opened CodeSize
  import opened M68k
  import opened Translation
  import opened TlCache

  const START_OF_TRANSLATED_CODE := 128
  const OPCODE_NOP: byte := 0x90
  const OPCODE_JMP_REL8: byte := 0xeb

  // The guest program, where the code area is mapped, and the address of translate_tu()
  datatype Config = Config(img: Image, codeBase: u64, translateAddr: u64)

  predicate ConfigOk(cfg: Config) { 0 < cfg.codeBase < TWO64 - MAX_CODE_SIZE }

  // cache: key to block address. source: the address a key was set up for. next: offset of the
  // next free block. code: the bytes of the code area.
  datatype Engine = Engine(cache: map<nat, u64>, source: map<nat, u64>, next: nat, code: seq<byte>)

  // ------------------------------------------------------ translation units

  // How a unit ends: with a terminal instruction and the address behind it, or where translation
  // gives up, with the bytes written for the instruction that was refused
  datatype Last = Ends(i: GInstr, next: int) | Refused(partial: seq<byte>)

  datatype Tu = Tu(body: seq<GInstr>, last: Last, size: nat)

  // The instructions from pc up to the first terminal or refused one; size counts source bytes.
  function ScanTu(img: Image, pc: int): (tu: Tu)
    ensures tu.last.Ends? ==> Terminal(tu.last.i)
    ensures forall k :: 0 <= k < |tu.body| ==> !Terminal(tu.body[k])
    decreases HUNK_START_ADDRESS + |img| - pc
  {
    DecodeAdvances(img, pc);
    match GDecode(img, pc)
    case None => Tu([], Refused(PartialBytes(WordAt(img, pc))), 2)
    case Some(Located(i, next)) =>
      if Terminal(i) then Tu([], Ends(i, next), next - pc)
      else var rest := ScanTu(img, next); Tu([i] + rest.body, rest.last, next - pc + rest.size)
  }

  // A branch on a condition other than EQ and NE is refused after its first byte is out.
  function PartialBytes(op: u16): (b: seq<byte>)
    ensures |b| <= 1
  {
    if op / 0x1000 == 6 then [0x0f] else []
  }

  function BodyBytes(tu: Tu): seq<byte> { EncAll(EmitsAll(tu.body)) }

  function LastSize(last: Last): nat {
    match last
    case Ends(Rts, _) => 1
    case Ends(_, _) => 11
    case Refused(partial) => |partial|
  }

  function EmittedSize(tu: Tu): nat { |BodyBytes(tu)| + LastSize(tu.last) }

  predicate Fits(img: Image, src: int) {
    START_OF_TRANSLATED_CODE + EmittedSize(ScanTu(img, src)) <= MAX_CODE_BLOCK_SIZE
  }

  // ----------------------------------------------------------------- blocks

  function Nops(n: nat): (b: seq<byte>)
    ensures |b| == n
  {
    seq(n, _ => OPCODE_NOP)
  }

  // A block that has been set up: the stub that calls translate_tu(), then NOPs
  function StubBlock(cfg: Config, src: u64): (b: seq<byte>)
    ensures |b| == MAX_CODE_BLOCK_SIZE
  {
    StubSize(cfg.translateAddr, src);
    EncAll(TransparentCall(cfg.translateAddr, src)) + Nops(MAX_CODE_BLOCK_SIZE - STUB_SIZE)
  }

  function Offset(cfg: Config, addr: u64): int { addr - cfg.codeBase }

  // Displacement from the address `from` to a target
  function Displacement(target: u64, from: int): u32 { Low32(target - from) }

  function BranchOpcode(ifZero: bool): seq<byte> { [0x0f, if ifZero then 0x84 else 0x85] }

  // What follows the opcode of a translated branch at address `at`
  function BranchRest(taken: u64, notTaken: u64, at: int): (b: seq<byte>)
    ensures |b| == 9
  {
    LE32(Displacement(taken, at + 6)) + ([0xe9] + LE32(Displacement(notTaken, at + 11)))
  }

  // The code for the last instruction of a unit, at address `at`
  function LastBytes(cache: map<nat, u64>, last: Last, at: int): seq<byte>
    requires last.Ends? && Terminal(last.i) && SuccessorsCached(cache, last)
  {
    if last.i.Rts? then [0xc3]
    else
      BranchOpcode(last.i.ifZero)
      + BranchRest(cache[Key(Low64(last.i.target))], cache[Key(Low64(last.next))], at)
  }

  // Both successors of a branch are in the cache.
  predicate SuccessorsCached(cache: map<nat, u64>, last: Last)
  {
    last.Ends? && last.i.BranchZ? ==> Key(Low64(last.i.target)) in cache && Key(Low64(last.next)) in cache
  }

  function TuBytes(cache: map<nat, u64>, tu: Tu, start: int): seq<byte>
    requires tu.last.Ends? && Terminal(tu.last.i) && SuccessorsCached(cache, tu.last)
  {
    BodyBytes(tu) + LastBytes(cache, tu.last, start + |BodyBytes(tu)|)
  }

  // -------------------------------------------------------------- the steps

  predicate InArea(cfg: Config, e: Engine) {
    && |e.code| == MAX_CODE_SIZE
    && e.next <= MAX_CODE_SIZE && e.next % MAX_CODE_BLOCK_SIZE == 0
    && e.source.Keys == e.cache.Keys
    && forall k :: k in e.cache ==> BlockStart(cfg, e.next, e.cache[k])
  }

  // addr is the start of a block that has been handed out.
  predicate BlockStart(cfg: Config, next: nat, addr: u64) {
    && 0 <= Offset(cfg, addr) <= next - MAX_CODE_BLOCK_SIZE
    && Offset(cfg, addr) % MAX_CODE_BLOCK_SIZE == 0
  }

  function EmptyEngine(code: seq<byte>): Engine { Engine(map[], map[], 0, code) }

  datatype Setup = Setup(e: Engine, addr: Option<u64>)

  // setup_tu; memory says whether the cache gets the memory it needs for new nodes.
  function SetupTu(cfg: Config, e: Engine, src: u64, memory: bool): Setup
    requires ConfigOk(cfg) && InArea(cfg, e)
  {
    if Key(src) in e.cache then Setup(e, Some(e.cache[Key(src)]))
    else if e.next + MAX_CODE_BLOCK_SIZE > MAX_CODE_SIZE then Setup(e, None)
    else if !memory then Setup(e.(next := e.next + MAX_CODE_BLOCK_SIZE), None)
    else
      var addr := cfg.codeBase + e.next;
      Setup(Engine(e.cache[Key(src) := addr], e.source[Key(src) := src], e.next + MAX_CODE_BLOCK_SIZE,
                   Patch(e.code, e.next, StubBlock(cfg, src))),
            Some(addr))
  }

  datatype Translated = Translated(e: Engine, ok: bool)

  // The code for a unit stays inside the code area, if not inside its block.
  predicate RoomFor(cfg: Config, e: Engine, src: u64)
    requires InArea(cfg, e)
  {
    Key(src) in e.cache ==>
      Offset(cfg, e.cache[Key(src)]) + START_OF_TRANSLATED_CODE + EmittedSize(ScanTu(cfg.img, src)) <= MAX_CODE_SIZE
  }

  lemma FitsHasRoom(cfg: Config, e: Engine, src: u64)
    requires InArea(cfg, e) && Fits(cfg.img, src)
    ensures RoomFor(cfg, e, src)
  {
    hide Key, EmittedSize;
    if Key(src) in e.cache {
      assert BlockStart(cfg, e.next, e.cache[Key(src)]);
    }
  }

  // translate_tu on a unit that is in the cache: code is written from START_OF_TRANSLATED_CODE on,
  // and at last the jump to it at the start of the block.
  function TranslateTu(cfg: Config, e: Engine, src: u64, memory1: bool, memory2: bool): Translated
    requires ConfigOk(cfg) && InArea(cfg, e) && RoomFor(cfg, e, src)
  {
    if Key(src) !in e.cache then Translated(e, false)
    else
      var tu := ScanTu(cfg.img, src);
      var b: nat := Offset(cfg, e.cache[Key(src)]);
      var q := b + START_OF_TRANSLATED_CODE + |BodyBytes(tu)|;
      var e1 := Write(e, b + START_OF_TRANSLATED_CODE, BodyBytes(tu));
      match tu.last
      case Refused(partial) => Translated(Write(e1, q, partial), false)
      case Ends(i, next) =>
        if i.Rts? then Translated(Write(Write(e1, q, [0xc3]), b, JUMP_TO_CODE), true)
        else TranslateBranch(cfg, Write(e1, q, BranchOpcode(i.ifZero)), i, next, b, q, memory1, memory2)
  }

  const JUMP_TO_CODE: seq<byte> := [OPCODE_JMP_REL8, 0x7e]

  function Write(e: Engine, pos: nat, b: seq<byte>): Engine
    requires pos + |b| <= |e.code|
  {
    e.(code := Patch(e.code, pos, b))
  }

  // The successors of a branch are set up after its opcode is out, the one of the branch taken first.
  function TranslateBranch(cfg: Config, e: Engine, i: GInstr, next: int, b: nat, q: nat, memory1: bool,
      memory2: bool): Translated
    requires ConfigOk(cfg) && InArea(cfg, e) && i.BranchZ?
    requires b + 2 <= MAX_CODE_SIZE && q + 11 <= MAX_CODE_SIZE
  {
    SetupInArea(cfg, e, Low64(i.target), memory1);
    var s := SetupTu(cfg, e, Low64(i.target), memory1);
    if s.addr.None? then Translated(s.e, false)
    else TranslateNotTaken(cfg, s.e, s.addr.value, Low64(next), b, q, memory2)
  }

  function TranslateNotTaken(cfg: Config, e: Engine, taken: u64, next: u64, b: nat, q: nat, memory: bool): Translated
    requires ConfigOk(cfg) && InArea(cfg, e)
    requires b + 2 <= MAX_CODE_SIZE && q + 11 <= MAX_CODE_SIZE
  {
    SetupInArea(cfg, e, next, memory);
    var s := SetupTu(cfg, e, next, memory);
    if s.addr.None? then Translated(s.e, false)
    else
      Translated(Write(Write(s.e, q + 2, BranchRest(taken, s.addr.value, cfg.codeBase + q)), b, JUMP_TO_CODE), true)
  }

  lemma SetupInArea(cfg: Config, e: Engine, src: u64, memory: bool)
    requires ConfigOk(cfg) && InArea(cfg, e)
    ensures InArea(cfg, SetupTu(cfg, e, src, memory).e)
  {
    hide StubBlock, Key;
  }
}
