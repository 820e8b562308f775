/** What holds of cache and code area in every reachable state of the engine. */
module Invariant {
  import opened Base
  import opened X86
  import opened CodeGen
  import opened CodeSize
  import opened M68k
  import opened Translation
  import opened TlCache
  import opened Engine

  // The block still has its whole stub, and the NOPs up to where the translated code goes.
  predicate Pending(cfg: Config, e: Engine, k: nat)
    requires k in e.cache && k in e.source
  {
    CodeAt(e.code, Offset(cfg, e.cache[k]), StubBlock(cfg, e.source[k])[..START_OF_TRANSLATED_CODE])
  }

  // The block starts with the jump to the translation of its unit; the rest of the stub is intact.
  predicate Done(cfg: Config, e: Engine, k: nat)
    requires k in e.cache && k in e.source
  {
    var b, tu := Offset(cfg, e.cache[k]), ScanTu(cfg.img, e.source[k]);
    && tu.last.Ends? && SuccessorsCached(e.cache, tu.last)
    && CodeAt(e.code, b, JUMP_TO_CODE)
    && CodeAt(e.code, b + 2, StubBlock(cfg, e.source[k])[2..START_OF_TRANSLATED_CODE])
    && CodeAt(e.code, b + START_OF_TRANSLATED_CODE, TuBytes(e.cache, tu, e.cache[k] + START_OF_TRANSLATED_CODE))
    && Fits(cfg.img, e.source[k])
  }

  predicate Injective(m: map<nat, u64>) {
    forall k: nat, l: nat :: k in m && l in m && m[k] == m[l] ==> k == l
  }

  predicate BlocksOk(cfg: Config, e: Engine)
    requires e.source.Keys == e.cache.Keys
  {
    forall k: nat :: k in e.cache ==> Pending(cfg, e, k) || Done(cfg, e, k)
  }

  // No two units share a block, each key is that of its source, and every unit has its own block.
  predicate MapsOk(cache: map<nat, u64>, source: map<nat, u64>, next: nat) {
    && Injective(cache)
    && (forall k: nat :: k in source ==> Key(source[k]) == k)
    && |cache| * MAX_CODE_BLOCK_SIZE <= next
  }

  predicate Inv(cfg: Config, e: Engine) {
    ConfigOk(cfg) && InArea(cfg, e) && MapsOk(e.cache, e.source, e.next) && BlocksOk(cfg, e)
  }

  lemma TuBytesSize(cache: map<nat, u64>, tu: Tu, start: int)
    requires tu.last.Ends? && Terminal(tu.last.i) && SuccessorsCached(cache, tu.last)
    ensures |TuBytes(cache, tu, start)| == EmittedSize(tu)
  {
  }

  // ------------------------------------------------------------------ steps

  // e' has at least the cached units of e, at the same places.
  predicate Extends(e: Engine, e': Engine) {
    && e.next <= e'.next
    && (forall k: nat :: k in e.cache ==> k in e'.cache && e'.cache[k] == e.cache[k])
    && (forall k: nat :: k in e.source ==> k in e'.source && e'.source[k] == e.source[k])
  }

  // A block whose bytes are the same remains what it is.
  lemma BlockKept(cfg: Config, e: Engine, e': Engine, k: nat)
    requires InArea(cfg, e) && InArea(cfg, e') && Extends(e, e') && k in e.cache
    requires Pending(cfg, e, k) || Done(cfg, e, k)
    requires var b := Offset(cfg, e.cache[k]);
             e'.code[b..b + MAX_CODE_BLOCK_SIZE] == e.code[b..b + MAX_CODE_BLOCK_SIZE]
    ensures Pending(cfg, e, k) ==> Pending(cfg, e', k)
    ensures Done(cfg, e, k) ==> Done(cfg, e', k)
  {
    hide Pending, Done;
    if Pending(cfg, e, k) {
      PendingKept(cfg, e, e', k);
    }
    if Done(cfg, e, k) {
      DoneKept(cfg, e, e', k);
    }
  }

  lemma PendingKept(cfg: Config, e: Engine, e': Engine, k: nat)
    requires InArea(cfg, e) && InArea(cfg, e') && Extends(e, e') && k in e.cache && Pending(cfg, e, k)
    requires var b := Offset(cfg, e.cache[k]);
             e'.code[b..b + MAX_CODE_BLOCK_SIZE] == e.code[b..b + MAX_CODE_BLOCK_SIZE]
    ensures Pending(cfg, e', k)
  {
    hide StubBlock;
    var b := Offset(cfg, e.cache[k]);
    CodeAtBlock(e.code, e'.code, b, b, StubBlock(cfg, e.source[k])[..START_OF_TRANSLATED_CODE]);
  }

  lemma DoneKept(cfg: Config, e: Engine, e': Engine, k: nat)
    requires InArea(cfg, e) && InArea(cfg, e') && Extends(e, e') && k in e.cache && Done(cfg, e, k)
    requires var b := Offset(cfg, e.cache[k]);
             e'.code[b..b + MAX_CODE_BLOCK_SIZE] == e.code[b..b + MAX_CODE_BLOCK_SIZE]
    ensures Done(cfg, e', k)
  {
    hide StubBlock, TuBytes, EmittedSize;
    var b, tu := Offset(cfg, e.cache[k]), ScanTu(cfg.img, e.source[k]);
    var t := TuBytes(e.cache, tu, e.cache[k] + START_OF_TRANSLATED_CODE);
    TuBytesSize(e.cache, tu, e.cache[k] + START_OF_TRANSLATED_CODE);
    TuBytesStable(e.cache, e'.cache, tu, e.cache[k] + START_OF_TRANSLATED_CODE);
    CodeAtBlock(e.code, e'.code, b, b, JUMP_TO_CODE);
    CodeAtBlock(e.code, e'.code, b, b + 2, StubBlock(cfg, e.source[k])[2..START_OF_TRANSLATED_CODE]);
    CodeAtBlock(e.code, e'.code, b, b + START_OF_TRANSLATED_CODE, t);
  }

  lemma CodeAtBlock(code: seq<byte>, code': seq<byte>, b: nat, at: int, x: seq<byte>)
    requires b + MAX_CODE_BLOCK_SIZE <= |code| == |code'|
    requires code'[b..b + MAX_CODE_BLOCK_SIZE] == code[b..b + MAX_CODE_BLOCK_SIZE]
    requires b <= at && at + |x| <= b + MAX_CODE_BLOCK_SIZE && CodeAt(code, at, x)
    ensures CodeAt(code', at, x)
  {
    var c, c' := code[b..b + MAX_CODE_BLOCK_SIZE], code'[b..b + MAX_CODE_BLOCK_SIZE];
    forall i | 0 <= i < |x|
      ensures code'[at + i] == x[i]
    {
      assert code[at..at + |x|][i] == code[at + i] == c[at - b + i];
      assert code'[at + i] == c'[at - b + i];
    }
  }

  lemma TuBytesStable(cache: map<nat, u64>, cache': map<nat, u64>, tu: Tu, start: int)
    requires tu.last.Ends? && Terminal(tu.last.i) && SuccessorsCached(cache, tu.last)
    requires forall k: nat :: k in cache ==> k in cache' && cache'[k] == cache[k]
    ensures SuccessorsCached(cache', tu.last) && TuBytes(cache', tu, start) == TuBytes(cache, tu, start)
  {
    hide Key, BranchRest, BodyBytes;
  }

  lemma InvBlock(cfg: Config, e: Engine, k: nat)
    requires Inv(cfg, e) && k in e.cache
    ensures Pending(cfg, e, k) || Done(cfg, e, k)
    ensures BlockStart(cfg, e.next, e.cache[k]) && e.next <= MAX_CODE_SIZE == |e.code|
    ensures k in e.source && ConfigOk(cfg)
  {
  }

  // Setting up a unit keeps the invariant, changes no byte of any block handed out before, and
  // puts the unit, pending unless it was known, at the address returned.
  lemma SetupKeeps(cfg: Config, e: Engine, src: u64, memory: bool)
    requires Inv(cfg, e)
    ensures var s := SetupTu(cfg, e, src, memory);
            && Inv(cfg, s.e) && Extends(e, s.e)
            && s.e.code[..e.next] == e.code[..e.next]
            && (s.addr.Some? ==> Key(src) in s.e.cache && s.addr.value == s.e.cache[Key(src)])
            && (Key(src) in e.cache ==> s.e == e && s.addr.Some?)
            && (Key(src) !in e.cache && s.addr.Some? ==> Pending(cfg, s.e, Key(src)) && s.e.source[Key(src)] == src)
            && (s.addr.None? ==> s.e.cache == e.cache)
  {
    hide Pending, Done, StubBlock, BlocksOk, MapsOk, Key;
    SetupInArea(cfg, e, src, memory);
    var s := SetupTu(cfg, e, src, memory);
    if Key(src) !in e.cache && s.addr.Some? {
      SetupNew(cfg, e, src);
    } else {
      SetupSame(cfg, e, s.e);
    }
  }

  lemma SetupSame(cfg: Config, e: Engine, e': Engine)
    requires Inv(cfg, e) && InArea(cfg, e')
    requires e' == e.(next := e'.next) && e.next <= e'.next
    ensures Inv(cfg, e')
  {
    hide Pending, Done;
    forall k: nat | k in e'.cache
      ensures Pending(cfg, e', k) || Done(cfg, e', k)
    {
      InvBlock(cfg, e, k);
      BlockKept(cfg, e, e', k);
    }
  }

  lemma SetupNew(cfg: Config, e: Engine, src: u64)
    requires Inv(cfg, e) && Key(src) !in e.cache && e.next + MAX_CODE_BLOCK_SIZE <= MAX_CODE_SIZE
    ensures var e' := SetupTu(cfg, e, src, true).e;
            && Inv(cfg, e') && Extends(e, e') && e'.code[..e.next] == e.code[..e.next]
            && Pending(cfg, e', Key(src))
  {
    hide Pending, Done, StubBlock, Key, MapsOk, BlocksOk;
    var e' := SetupTu(cfg, e, src, true).e;
    SetupInArea(cfg, e, src, true);
    MapsNew(cfg, e, src);
    PatchElsewhere(e.code, e.next, StubBlock(cfg, src), 0, e.next);
    NewPending(cfg, e, src);
    BlocksNew(cfg, e, e', Key(src));
  }

  lemma MapsNew(cfg: Config, e: Engine, src: u64)
    requires ConfigOk(cfg) && InArea(cfg, e) && MapsOk(e.cache, e.source, e.next)
    requires Key(src) !in e.cache && e.next + MAX_CODE_BLOCK_SIZE <= MAX_CODE_SIZE
    ensures var e' := SetupTu(cfg, e, src, true).e; MapsOk(e'.cache, e'.source, e'.next)
  {
    hide BlocksOk, Key, StubBlock;
    var e', added := SetupTu(cfg, e, src, true).e, Key(src);
    assert e'.cache.Keys == e.cache.Keys + {added};
  }

  lemma BlocksNew(cfg: Config, e: Engine, e': Engine, added: nat)
    requires InArea(cfg, e) && InArea(cfg, e') && BlocksOk(cfg, e) && Extends(e, e')
    requires e'.code[..e.next] == e.code[..e.next]
    requires e'.cache.Keys == e.cache.Keys + {added} && (Pending(cfg, e', added) || Done(cfg, e', added))
    ensures BlocksOk(cfg, e')
  {
    hide Pending, Done;
    forall k: nat | k in e'.cache && k != added
      ensures Pending(cfg, e', k) || Done(cfg, e', k)
    {
      var b := Offset(cfg, e.cache[k]);
      assert BlockStart(cfg, e.next, e.cache[k]);
      SameSlice(e.code, e'.code, e.next, b);
      BlockKept(cfg, e, e', k);
    }
  }

  lemma SameSlice(c: seq<byte>, c': seq<byte>, n: nat, b: nat)
    requires b + MAX_CODE_BLOCK_SIZE <= n <= |c| && n <= |c'| && c'[..n] == c[..n]
    ensures c'[b..b + MAX_CODE_BLOCK_SIZE] == c[b..b + MAX_CODE_BLOCK_SIZE]
  {
    SubSlice(c, 0, n, b, b + MAX_CODE_BLOCK_SIZE);
    SubSlice(c', 0, n, b, b + MAX_CODE_BLOCK_SIZE);
  }

  lemma NewPending(cfg: Config, e: Engine, src: u64)
    requires Inv(cfg, e) && Key(src) !in e.cache && e.next + MAX_CODE_BLOCK_SIZE <= MAX_CODE_SIZE
    ensures Pending(cfg, SetupTu(cfg, e, src, true).e, Key(src))
  {
    hide BlocksOk, StubBlock, Key;
    var stub := StubBlock(cfg, src);
    CodeAtWritten(e.code, e.next, stub);
    assert stub == stub[..START_OF_TRANSLATED_CODE] + stub[START_OF_TRANSLATED_CODE..];
    CodeAtSplit(Patch(e.code, e.next, stub), e.next, stub[..START_OF_TRANSLATED_CODE],
        stub[START_OF_TRANSLATED_CODE..]);
  }

  // ----------------------------------------------------------- translation

  // Up to the free area, only the block at b may differ.
  predicate SameOutside(e: Engine, e': Engine, b: int) {
    && 0 <= b && b + MAX_CODE_BLOCK_SIZE <= e.next <= |e.code| && |e'.code| == |e.code|
    && e'.code[..b] == e.code[..b]
    && e'.code[b + MAX_CODE_BLOCK_SIZE..e.next] == e.code[b + MAX_CODE_BLOCK_SIZE..e.next]
  }

  lemma SameOutsideTrans(e: Engine, e1: Engine, e2: Engine, b: int)
    requires SameOutside(e, e1, b) && SameOutside(e1, e2, b) && e.next <= e1.next
    ensures SameOutside(e, e2, b)
  {
    var lo := b + MAX_CODE_BLOCK_SIZE;
    SubSlice(e2.code, lo, e1.next, 0, e.next - lo);
    SubSlice(e1.code, lo, e1.next, 0, e.next - lo);
  }

  lemma SameOutsideFree(e: Engine, e': Engine, b: int)
    requires 0 <= b && b + MAX_CODE_BLOCK_SIZE <= e.next <= |e.code| == |e'.code| && e'.code[..e.next]
        == e.code[..e.next]
    ensures SameOutside(e, e', b)
  {
    var lo := b + MAX_CODE_BLOCK_SIZE;
    assert e'.code[..b] == e'.code[..e.next][..b];
    assert e.code[..b] == e.code[..e.next][..b];
    assert e'.code[lo..e.next] == e'.code[..e.next][lo..];
    assert e.code[lo..e.next] == e.code[..e.next][lo..];
  }

  // If block k is fine after a write into it, so are all.
  lemma BlocksAfterWrite(cfg: Config, e: Engine, e': Engine, k: nat)
    requires Inv(cfg, e) && k in e.cache && e' == e.(code := e'.code)
    requires SameOutside(e, e', Offset(cfg, e.cache[k]))
    requires Pending(cfg, e', k) || Done(cfg, e', k)
    ensures Inv(cfg, e')
  {
    hide Pending, Done, MapsOk;
    forall l: nat | l in e'.cache && l != k
      ensures Pending(cfg, e', l) || Done(cfg, e', l)
    {
      InvBlock(cfg, e, l);
      InvBlock(cfg, e, k);
      var b, c := Offset(cfg, e.cache[l]), Offset(cfg, e.cache[k]);
      BlocksApart(cfg, e, k, l);
      SameBlock(e, e', c, b);
      BlockKept(cfg, e, e', l);
    }
  }

  lemma BlocksApart(cfg: Config, e: Engine, k: nat, l: nat)
    requires InArea(cfg, e) && MapsOk(e.cache, e.source, e.next) && k in e.cache && l in e.cache && k != l
    ensures var b, c := Offset(cfg, e.cache[k]), Offset(cfg, e.cache[l]);
            b + MAX_CODE_BLOCK_SIZE <= c || c + MAX_CODE_BLOCK_SIZE <= b
  {
    hide MapsOk;
    assert e.cache[k] != e.cache[l] by { Distinct(e, k, l); }
    assert BlockStart(cfg, e.next, e.cache[k]) && BlockStart(cfg, e.next, e.cache[l]);
    WholeBlocksApart(Offset(cfg, e.cache[k]), Offset(cfg, e.cache[l]));
  }

  lemma Distinct(e: Engine, k: nat, l: nat)
    requires MapsOk(e.cache, e.source, e.next) && k in e.cache && l in e.cache && k != l
    ensures e.cache[k] != e.cache[l]
  {
  }

  lemma WholeBlocksApart(b: int, c: int)
    requires b % MAX_CODE_BLOCK_SIZE == 0 && c % MAX_CODE_BLOCK_SIZE == 0 && b != c
    ensures b + MAX_CODE_BLOCK_SIZE <= c || c + MAX_CODE_BLOCK_SIZE <= b
  {
  }

  lemma SameBlock(e: Engine, e': Engine, c: int, b: int)
    requires SameOutside(e, e', c) && 0 <= b && b + MAX_CODE_BLOCK_SIZE <= e.next
    requires b + MAX_CODE_BLOCK_SIZE <= c || c + MAX_CODE_BLOCK_SIZE <= b
    ensures e'.code[b..b + MAX_CODE_BLOCK_SIZE] == e.code[b..b + MAX_CODE_BLOCK_SIZE]
  {
    var n, lo := MAX_CODE_BLOCK_SIZE, c + MAX_CODE_BLOCK_SIZE;
    if b + n <= c {
      SubSlice(e'.code, 0, c, b, b + n);
      SubSlice(e.code, 0, c, b, b + n);
    } else {
      SubSlice(e'.code, lo, e.next, b - lo, b - lo + n);
      SubSlice(e.code, lo, e.next, b - lo, b - lo + n);
    }
  }

  lemma WriteOutside(cfg: Config, e: Engine, b: nat, pos: nat, x: seq<byte>)
    requires b <= pos && pos + |x| <= b + MAX_CODE_BLOCK_SIZE <= e.next <= |e.code|
    ensures SameOutside(e, Write(e, pos, x), b)
  {
    PatchElsewhere(e.code, pos, x, 0, b);
    PatchElsewhere(e.code, pos, x, b + MAX_CODE_BLOCK_SIZE, e.next);
  }

  // Writing behind the stub of a pending block leaves it pending.
  lemma WriteBehindStub(cfg: Config, e: Engine, k: nat, pos: nat, x: seq<byte>)
    requires Inv(cfg, e) && k in e.cache && Pending(cfg, e, k)
    requires var b := Offset(cfg, e.cache[k]);
             b + START_OF_TRANSLATED_CODE <= pos && pos + |x| <= b + MAX_CODE_BLOCK_SIZE
    ensures var e' := Write(e, pos, x);
            && Inv(cfg, e') && Pending(cfg, e', k) && SameOutside(e, e', Offset(cfg, e.cache[k]))
            && CodeAt(e'.code, pos, x)
  {
    hide StubBlock, Done, BlocksOk, MapsOk, Key;
    InvBlock(cfg, e, k);
    var b := Offset(cfg, e.cache[k]);
    WriteOutside(cfg, e, b, pos, x);
    CodeAtElsewhere(e.code, pos, x, b, StubBlock(cfg, e.source[k])[..START_OF_TRANSLATED_CODE]);
    BlocksAfterWrite(cfg, e, Write(e, pos, x), k);
    CodeAtWritten(e.code, pos, x);
  }

  // With the translation in place, the jump turns a pending block into a done one.
  lemma JumpMakesDone(cfg: Config, e: Engine, k: nat)
    requires Inv(cfg, e) && k in e.cache && Pending(cfg, e, k) && Fits(cfg.img, e.source[k])
    requires var tu := ScanTu(cfg.img, e.source[k]);
             && tu.last.Ends? && SuccessorsCached(e.cache, tu.last)
             && CodeAt(e.code, Offset(cfg, e.cache[k]) + START_OF_TRANSLATED_CODE,
                       TuBytes(e.cache, tu, e.cache[k] + START_OF_TRANSLATED_CODE))
    ensures var e' := Write(e, Offset(cfg, e.cache[k]), JUMP_TO_CODE);
            Inv(cfg, e') && Done(cfg, e', k) && SameOutside(e, e', Offset(cfg, e.cache[k]))
  {
    hide StubBlock, BlocksOk, MapsOk, Key, TuBytes, Fits, SuccessorsCached;
    InvBlock(cfg, e, k);
    var b, stub := Offset(cfg, e.cache[k]), StubBlock(cfg, e.source[k]);
    WriteOutside(cfg, e, b, b, JUMP_TO_CODE);
    CodeAtWritten(e.code, b, JUMP_TO_CODE);
    assert stub[..START_OF_TRANSLATED_CODE] == stub[..2] + stub[2..START_OF_TRANSLATED_CODE];
    CodeAtSplit(e.code, b, stub[..2], stub[2..START_OF_TRANSLATED_CODE]);
    CodeAtElsewhere(e.code, b, JUMP_TO_CODE, b + 2, stub[2..START_OF_TRANSLATED_CODE]);
    CodeAtElsewhere(e.code, b, JUMP_TO_CODE, b + START_OF_TRANSLATED_CODE,
                    TuBytes(e.cache, ScanTu(cfg.img, e.source[k]), e.cache[k] + START_OF_TRANSLATED_CODE));
    BlocksAfterWrite(cfg, e, Write(e, b, JUMP_TO_CODE), k);
  }

  // ----------------------------------------------------------- translate_tu

  // What translating unit k does to the engine: everything else keeps its place and its bytes;
  // block k is done on success, and still pending on failure.
  predicate TranslateStep(cfg: Config, e: Engine, e': Engine, k: nat, ok: bool)
    requires k in e.cache
  {
    && Inv(cfg, e') && Extends(e, e') && SameOutside(e, e', Offset(cfg, e.cache[k]))
    && k in e'.cache && (if ok then Done(cfg, e', k) else Pending(cfg, e', k))
  }

  lemma StepAfter(cfg: Config, e: Engine, e1: Engine, e2: Engine, k: nat, ok: bool)
    requires k in e.cache && k in e1.cache && Extends(e, e1) && SameOutside(e, e1, Offset(cfg, e.cache[k]))
    requires TranslateStep(cfg, e1, e2, k, ok)
    ensures TranslateStep(cfg, e, e2, k, ok)
  {
    hide Inv, Pending, Done;
    SameOutsideTrans(e, e1, e2, Offset(cfg, e.cache[k]));
  }

  lemma StepNothing(cfg: Config, e: Engine, e': Engine, k: nat)
    requires k in e.cache && Inv(cfg, e') && Extends(e, e') && SameOutside(e, e', Offset(cfg, e.cache[k]))
    requires k in e'.cache && Pending(cfg, e', k)
    ensures TranslateStep(cfg, e, e', k, false)
  {
  }

  // Writing the body of a unit, and what a refused instruction leaves behind it
  lemma BodyKeeps(cfg: Config, e: Engine, k: nat, tu: Tu)
    requires Inv(cfg, e) && k in e.cache && Pending(cfg, e, k) && Fits(cfg.img, e.source[k])
    requires tu == ScanTu(cfg.img, e.source[k])
    ensures var b := Offset(cfg, e.cache[k]);
            var q := b + START_OF_TRANSLATED_CODE + |BodyBytes(tu)|;
            && 0 <= b && q + LastSize(tu.last) <= b + MAX_CODE_BLOCK_SIZE <= |e.code|
            && var e1 := Write(e, b + START_OF_TRANSLATED_CODE, BodyBytes(tu));
            && Inv(cfg, e1) && Pending(cfg, e1, k) && SameOutside(e, e1, b)
            && CodeAt(e1.code, b + START_OF_TRANSLATED_CODE, BodyBytes(tu))
            && (tu.last.Refused? ==> TranslateStep(cfg, e, Write(e1, q, tu.last.partial), k, false))
  {
    hide Pending, Done, BlocksOk, MapsOk, StubBlock, BodyBytes, Key, ScanTu;
    InvBlock(cfg, e, k);
    var b := Offset(cfg, e.cache[k]);
    var q := b + START_OF_TRANSLATED_CODE + |BodyBytes(tu)|;
    WriteBehindStub(cfg, e, k, b + START_OF_TRANSLATED_CODE, BodyBytes(tu));
    var e1 := Write(e, b + START_OF_TRANSLATED_CODE, BodyBytes(tu));
    if tu.last.Refused? {
      WriteBehindStub(cfg, e1, k, q, tu.last.partial);
      SameOutsideTrans(e, e1, Write(e1, q, tu.last.partial), b);
    }
  }

  lemma TranslateKeeps(cfg: Config, e: Engine, k: nat, memory1: bool, memory2: bool)
    requires Inv(cfg, e) && k in e.cache && Pending(cfg, e, k) && Fits(cfg.img, e.source[k])
    ensures var t := TranslateTu(cfg, e, e.source[k], memory1, memory2);
            TranslateStep(cfg, e, t.e, k, t.ok)
  {
    hide Pending, Done, BlocksOk, MapsOk, StubBlock, BodyBytes, Key, Patch, Fits, SameOutside;
    KeyOf(cfg, e, k);
    InvBlock(cfg, e, k);
    var tu := ScanTu(cfg.img, e.source[k]);
    var b := Offset(cfg, e.cache[k]);
    var q := b + START_OF_TRANSLATED_CODE + |BodyBytes(tu)|;
    BodyKeeps(cfg, e, k, tu);
    var e1 := Write(e, b + START_OF_TRANSLATED_CODE, BodyBytes(tu));
    match tu.last
    case Refused(partial) =>
    case Ends(i, next) =>
      if i.Rts? {
        TranslateRts(cfg, e1, k, tu);
        StepAfter(cfg, e, e1, Write(Write(e1, q, [0xc3]), b, JUMP_TO_CODE), k, true);
      } else {
        TranslateBranchKeeps(cfg, e1, k, tu, memory1, memory2);
        var t := TranslateTu(cfg, e, e.source[k], memory1, memory2);
        StepAfter(cfg, e, e1, t.e, k, t.ok);
      }
  }

  lemma KeyOf(cfg: Config, e: Engine, k: nat)
    requires Inv(cfg, e) && k in e.cache
    ensures Key(e.source[k]) == k
  {
  }

  // The unit's body has been written, and its last instruction is RTS.
  lemma TranslateRts(cfg: Config, e: Engine, k: nat, tu: Tu)
    requires Inv(cfg, e) && k in e.cache && Pending(cfg, e, k) && Fits(cfg.img, e.source[k])
    requires tu == ScanTu(cfg.img, e.source[k]) && tu.last.Ends? && tu.last.i.Rts?
    requires CodeAt(e.code, Offset(cfg, e.cache[k]) + START_OF_TRANSLATED_CODE, BodyBytes(tu))
    ensures var b := Offset(cfg, e.cache[k]);
            var e' := Write(Write(e, b + START_OF_TRANSLATED_CODE + |BodyBytes(tu)|, [0xc3]), b, JUMP_TO_CODE);
            TranslateStep(cfg, e, e', k, true)
  {
    hide Pending, Done, BlocksOk, MapsOk, StubBlock, BodyBytes, Key;
    var b := Offset(cfg, e.cache[k]);
    InvBlock(cfg, e, k);
    var at := b + START_OF_TRANSLATED_CODE;
    var q := at + |BodyBytes(tu)|;
    var e1 := Write(e, q, [0xc3]);
    WriteBehindStub(cfg, e, k, q, [0xc3]);
    CodeAtElsewhere(e.code, q, [0xc3], at, BodyBytes(tu));
    CodeAtJoin(e1.code, at, BodyBytes(tu), [0xc3]);
    JumpMakesDone(cfg, e1, k);
    SameOutsideTrans(e, e1, Write(e1, b, JUMP_TO_CODE), b);
  }

  // Setting up another unit leaves a pending block pending, and code in handed-out blocks alone.
  lemma SetupKeepsBlock(cfg: Config, e: Engine, src: u64, memory: bool, k: nat, pos: int, x: seq<byte>)
    requires Inv(cfg, e) && k in e.cache && Pending(cfg, e, k)
    requires CodeAt(e.code, pos, x) && pos + |x| <= e.next
    ensures var e' := SetupTu(cfg, e, src, memory).e;
            && Inv(cfg, e') && Extends(e, e') && Pending(cfg, e', k) && CodeAt(e'.code, pos, x)
            && SameOutside(e, e', Offset(cfg, e.cache[k]))
  {
    hide Pending, Done, BlocksOk, MapsOk, StubBlock, Key, SetupTu;
    var e' := SetupTu(cfg, e, src, memory).e;
    SetupKeeps(cfg, e, src, memory);
    InvBlock(cfg, e, k);
    var b := Offset(cfg, e.cache[k]);
    SameSlice(e.code, e'.code, e.next, b);
    BlockKept(cfg, e, e', k);
    SameOutsideFree(e, e', b);
    SubSlice(e.code, 0, e.next, pos, pos + |x|);
    SubSlice(e'.code, 0, e.next, pos, pos + |x|);
  }

  lemma TranslateBranchKeeps(cfg: Config, e: Engine, k: nat, tu: Tu, memory1: bool, memory2: bool)
    requires Inv(cfg, e) && k in e.cache && Pending(cfg, e, k) && Fits(cfg.img, e.source[k])
    requires tu == ScanTu(cfg.img, e.source[k]) && tu.last.Ends? && tu.last.i.BranchZ?
    requires CodeAt(e.code, Offset(cfg, e.cache[k]) + START_OF_TRANSLATED_CODE, BodyBytes(tu))
    ensures var b := Offset(cfg, e.cache[k]);
            var q := b + START_OF_TRANSLATED_CODE + |BodyBytes(tu)|;
            q + 11 <= b + MAX_CODE_BLOCK_SIZE <= e.next
    ensures var b := Offset(cfg, e.cache[k]);
            var q := b + START_OF_TRANSLATED_CODE + |BodyBytes(tu)|;
            var t := TranslateBranch(cfg, Write(e, q, BranchOpcode(tu.last.i.ifZero)), tu.last.i, tu.last.next, b,
                q, memory1, memory2);
            TranslateStep(cfg, e, t.e, k, t.ok)
  {
    hide Pending, Done, BlocksOk, MapsOk, StubBlock, BodyBytes, Key, TranslateBranch;
    InvBlock(cfg, e, k);
    var b, at := Offset(cfg, e.cache[k]), Offset(cfg, e.cache[k]) + START_OF_TRANSLATED_CODE;
    var q := at + |BodyBytes(tu)|;
    var opc := BranchOpcode(tu.last.i.ifZero);
    var e1 := Write(e, q, opc);
    WriteBehindStub(cfg, e, k, q, opc);
    CodeAtElsewhere(e.code, q, opc, at, BodyBytes(tu));
    CodeAtJoin(e1.code, at, BodyBytes(tu), opc);
    BranchTail(cfg, e1, k, tu, memory1, memory2);
    SameOutsideTrans(e, e1, TranslateBranch(cfg, e1, tu.last.i, tu.last.next, b, q, memory1, memory2).e, b);
  }

  lemma BranchTail(cfg: Config, e: Engine, k: nat, tu: Tu, memory1: bool, memory2: bool)
    requires Inv(cfg, e) && k in e.cache && Pending(cfg, e, k) && Fits(cfg.img, e.source[k])
    requires tu == ScanTu(cfg.img, e.source[k]) && tu.last.Ends? && tu.last.i.BranchZ?
    requires CodeAt(e.code, Offset(cfg, e.cache[k]) + START_OF_TRANSLATED_CODE,
                    BodyBytes(tu) + BranchOpcode(tu.last.i.ifZero))
    ensures var b := Offset(cfg, e.cache[k]);
            var q := b + START_OF_TRANSLATED_CODE + |BodyBytes(tu)|;
            && q + 11 <= b + MAX_CODE_BLOCK_SIZE <= e.next
            && var t := TranslateBranch(cfg, e, tu.last.i, tu.last.next, b, q, memory1, memory2);
            TranslateStep(cfg, e, t.e, k, t.ok)
  {
    hide Pending, Done, BlocksOk, MapsOk, StubBlock, BodyBytes, Key, SetupTu, TranslateNotTaken;
    InvBlock(cfg, e, k);
    var b, at := Offset(cfg, e.cache[k]), Offset(cfg, e.cache[k]) + START_OF_TRANSLATED_CODE;
    var q := at + |BodyBytes(tu)|;
    var target := Low64(tu.last.i.target);
    SetupKeeps(cfg, e, target, memory1);
    SetupKeepsBlock(cfg, e, target, memory1, k, at, BodyBytes(tu) + BranchOpcode(tu.last.i.ifZero));
    var s := SetupTu(cfg, e, target, memory1);
    if s.addr.Some? {
      BranchNotTaken(cfg, s.e, k, tu, s.addr.value, memory2);
      SameOutsideTrans(e, s.e, TranslateNotTaken(cfg, s.e, s.addr.value, Low64(tu.last.next), b, q, memory2).e, b);
    }
  }

  lemma BranchNotTaken(cfg: Config, e: Engine, k: nat, tu: Tu, taken: u64, memory: bool)
    requires Inv(cfg, e) && k in e.cache && Pending(cfg, e, k) && Fits(cfg.img, e.source[k])
    requires tu == ScanTu(cfg.img, e.source[k]) && tu.last.Ends? && tu.last.i.BranchZ?
    requires CodeAt(e.code, Offset(cfg, e.cache[k]) + START_OF_TRANSLATED_CODE,
                    BodyBytes(tu) + BranchOpcode(tu.last.i.ifZero))
    requires Key(Low64(tu.last.i.target)) in e.cache && taken == e.cache[Key(Low64(tu.last.i.target))]
    ensures var b := Offset(cfg, e.cache[k]);
            var q := b + START_OF_TRANSLATED_CODE + |BodyBytes(tu)|;
            && q + 11 <= b + MAX_CODE_BLOCK_SIZE <= e.next
            && var t := TranslateNotTaken(cfg, e, taken, Low64(tu.last.next), b, q, memory);
            TranslateStep(cfg, e, t.e, k, t.ok)
  {
    hide Pending, Done, BlocksOk, MapsOk, StubBlock, BodyBytes, Key, SetupTu, BranchRest, TranslateStep;
    hide CodeAt, Patch, ScanTu;
    InvBlock(cfg, e, k);
    var b, at := Offset(cfg, e.cache[k]), Offset(cfg, e.cache[k]) + START_OF_TRANSLATED_CODE;
    var q := at + |BodyBytes(tu)|;
    var next := Low64(tu.last.next);
    SetupKeeps(cfg, e, next, memory);
    SetupKeepsBlock(cfg, e, next, memory, k, at, BodyBytes(tu) + BranchOpcode(tu.last.i.ifZero));
    var s := SetupTu(cfg, e, next, memory);
    if s.addr.Some? {
      FinishBranch(cfg, s.e, k, tu, taken, s.addr.value);
      var e3 := Write(Write(s.e, q + 2, BranchRest(taken, s.addr.value, cfg.codeBase + q)), b, JUMP_TO_CODE);
      StepAfter(cfg, e, s.e, e3, k, true);
    } else {
      assert TranslateStep(cfg, e, s.e, k, false) by { StepNothing(cfg, e, s.e, k); }
    }
  }

  // Body and branch opcode are in place and both successors are cached.
  lemma FinishBranch(cfg: Config, e: Engine, k: nat, tu: Tu, taken: u64, notTaken: u64)
    requires Inv(cfg, e) && k in e.cache && Pending(cfg, e, k) && Fits(cfg.img, e.source[k])
    requires tu == ScanTu(cfg.img, e.source[k]) && tu.last.Ends? && tu.last.i.BranchZ?
    requires CodeAt(e.code, Offset(cfg, e.cache[k]) + START_OF_TRANSLATED_CODE,
                    BodyBytes(tu) + BranchOpcode(tu.last.i.ifZero))
    requires Key(Low64(tu.last.i.target)) in e.cache && taken == e.cache[Key(Low64(tu.last.i.target))]
    requires Key(Low64(tu.last.next)) in e.cache && notTaken == e.cache[Key(Low64(tu.last.next))]
    ensures var b := Offset(cfg, e.cache[k]);
            var q := b + START_OF_TRANSLATED_CODE + |BodyBytes(tu)|;
            && q + 11 <= b + MAX_CODE_BLOCK_SIZE <= |e.code|
            && var e' := Write(Write(e, q + 2, BranchRest(taken, notTaken, cfg.codeBase + q)), b, JUMP_TO_CODE);
            TranslateStep(cfg, e, e', k, true)
  {
    hide Pending, Done, BlocksOk, MapsOk, StubBlock, BodyBytes, Key, BranchRest, TuBytes, SuccessorsCached;
    InvBlock(cfg, e, k);
    var b, at := Offset(cfg, e.cache[k]), Offset(cfg, e.cache[k]) + START_OF_TRANSLATED_CODE;
    var q := at + |BodyBytes(tu)|;
    var code, rest := BodyBytes(tu) + BranchOpcode(tu.last.i.ifZero), BranchRest(taken, notTaken, cfg.codeBase + q);
    var e1 := Write(e, q + 2, rest);
    WriteBehindStub(cfg, e, k, q + 2, rest);
    CodeAtElsewhere(e.code, q + 2, rest, at, code);
    CodeAtJoin(e1.code, at, code, rest);
    BranchBytes(e.cache, tu, taken, notTaken, e.cache[k] + START_OF_TRANSLATED_CODE);
    JumpMakesDone(cfg, e1, k);
    SameOutsideTrans(e, e1, Write(e1, b, JUMP_TO_CODE), b);
  }

  lemma BranchBytes(cache: map<nat, u64>, tu: Tu, taken: u64, notTaken: u64, start: int)
    requires tu.last.Ends? && tu.last.i.BranchZ?
    requires Key(Low64(tu.last.i.target)) in cache && taken == cache[Key(Low64(tu.last.i.target))]
    requires Key(Low64(tu.last.next)) in cache && notTaken == cache[Key(Low64(tu.last.next))]
    ensures SuccessorsCached(cache, tu.last)
    ensures TuBytes(cache, tu, start)
            == BodyBytes(tu) + BranchOpcode(tu.last.i.ifZero) + BranchRest(taken, notTaken, start + |BodyBytes(tu)|)
  {
    hide Key, BodyBytes, BranchRest;
  }

  // The engine that tc_init() leaves
  lemma InitialInv(cfg: Config, code: seq<byte>)
    requires ConfigOk(cfg) && |code| == MAX_CODE_SIZE
    ensures Inv(cfg, EmptyEngine(code))
  {
  }
}
