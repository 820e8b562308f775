/** What happens when a unit does not fit its block, which translate_tu() does not check: its code
    runs on into the next block and spoils the stub there. */
module Overrun {
  import opened Base
  import opened X86
  import opened CodeGen
  import opened CodeSize
  import opened M68k
  import opened Translation
  import opened TlCache
  import opened Engine
  import opened Invariant
  import opened Runs
  import opened Exactness

  // Setting up a unit keeps the units known and all code in blocks handed out.
  lemma SetupBefore(cfg: Config, e: Engine, src: u64, memory: bool, pos: int, x: seq<byte>)
    requires ConfigOk(cfg) && InArea(cfg, e) && CodeAt(e.code, pos, x) && pos + |x| <= e.next
    ensures var s := SetupTu(cfg, e, src, memory);
            && InArea(cfg, s.e) && CodeAt(s.e.code, pos, x) && Extends(e, s.e)
            && (s.addr.Some? ==> Key(src) in s.e.cache && s.addr.value == s.e.cache[Key(src)])
  {
    hide StubBlock, Key, CodeAt, BlockStart, Patch;
    SetupInArea(cfg, e, src, memory);
    if Key(src) !in e.cache && SetupTu(cfg, e, src, memory).addr.Some? {
      CodeAtElsewhere(e.code, e.next, StubBlock(cfg, src), pos, x);
    }
  }

  // What of the bytes t, written from position `at` on, lies below a limit is there.
  predicate ThereBelow(code: seq<byte>, at: nat, t: seq<byte>, limit: nat) {
    limit <= |code| && forall x: int :: at <= x < at + |t| && x < limit ==> code[x] == t[x - at]
  }

  // The translation of a unit is in the code area, wherever its block ends, as far as blocks have
  // been handed out before.
  lemma TranslationWritten(cfg: Config, e: Engine, src: u64, memory1: bool, memory2: bool)
    requires ConfigOk(cfg) && InArea(cfg, e) && RoomFor(cfg, e, src) && Key(src) in e.cache
    requires ScanTu(cfg.img, src).last.Ends? && TranslateTu(cfg, e, src, memory1, memory2).ok
    ensures var e', tu := TranslateTu(cfg, e, src, memory1, memory2).e, ScanTu(cfg.img, src);
            && Extends(e, e') && SuccessorsCached(e'.cache, tu.last) && Offset(cfg, e.cache[Key(src)]) >= 0
            && ThereBelow(e'.code, Offset(cfg, e.cache[Key(src)]) + START_OF_TRANSLATED_CODE,
                          TuBytes(e'.cache, tu, e.cache[Key(src)] + START_OF_TRANSLATED_CODE), e.next)
  {
    hide StubBlock, BodyBytes, BranchRest, Key, Patch, SetupTu, ScanTu, CodeAt, TranslateBranch, ThereBelow;
    var tu := ScanTu(cfg.img, src);
    assert 0 <= Offset(cfg, e.cache[Key(src)]) <= e.next - MAX_CODE_BLOCK_SIZE by {
      assert BlockStart(cfg, e.next, e.cache[Key(src)]);
    }
    var b: nat := Offset(cfg, e.cache[Key(src)]);
    var at := b + START_OF_TRANSLATED_CODE;
    var q := at + |BodyBytes(tu)|;
    var e1 := Write(e, at, BodyBytes(tu));
    CodeAtWritten(e.code, at, BodyBytes(tu));
    if tu.last.i.Rts? {
      WrittenBehind(e1.code, at, BodyBytes(tu), [0xc3]);
      var code := Write(e1, q, [0xc3]).code;
      CodeAtElsewhere(code, b, JUMP_TO_CODE, at, BodyBytes(tu) + [0xc3]);
      AllThere(Patch(code, b, JUMP_TO_CODE), at, BodyBytes(tu) + [0xc3], [], e.next);
      assert BodyBytes(tu) + [0xc3] + [] == BodyBytes(tu) + [0xc3];
    } else {
      var opcode := BranchOpcode(tu.last.i.ifZero);
      WrittenBehind(e1.code, at, BodyBytes(tu), opcode);
      BranchWritten(cfg, Write(e1, q, opcode), tu, b, memory1, memory2);
    }
  }

  // Code x, and y written right behind it
  lemma WrittenBehind(code: seq<byte>, at: nat, x: seq<byte>, y: seq<byte>)
    requires CodeAt(code, at, x) && at + |x| + |y| <= |code|
    ensures CodeAt(Patch(code, at + |x|, y), at, x + y)
  {
    hide Patch, CodeAt;
    CodeAtWritten(code, at + |x|, y);
    CodeAtElsewhere(code, at + |x|, y, at, x);
    CodeAtJoin(Patch(code, at + |x|, y), at, x, y);
  }

  // x as far as it lies below a limit, and all of y behind it
  lemma AllThere(code: seq<byte>, at: nat, x: seq<byte>, y: seq<byte>, limit: nat)
    requires at <= limit <= |code| && CodeAt(code, at, Below(x, limit - at)) && CodeAt(code, at + |x|, y)
    ensures ThereBelow(code, at, x + y, limit)
  {
    var z := Below(x, limit - at);
    forall i: int | at <= i < at + |x + y| && i < limit
      ensures code[i] == (x + y)[i - at]
    {
      if i < at + |x| {
        assert code[at..at + |z|][i - at] == z[i - at] == x[i - at];
      } else {
        assert code[at + |x|..at + |x| + |y|][i - at - |x|] == y[i - at - |x|];
      }
    }
  }

  function Below(x: seq<byte>, n: nat): seq<byte> { if n < |x| then x[..n] else x }

  lemma BelowAt(code: seq<byte>, at: int, x: seq<byte>, n: nat)
    requires CodeAt(code, at, x)
    ensures CodeAt(code, at, Below(x, n)) && |Below(x, n)| <= |x| && |Below(x, n)| <= n
  {
    if n < |x| {
      assert x == x[..n] + x[n..];
      CodeAtSplit(code, at, x[..n], x[n..]);
    }
  }

  lemma BranchWritten(cfg: Config, e: Engine, tu: Tu, b: nat, memory1: bool, memory2: bool)
    requires ConfigOk(cfg) && InArea(cfg, e) && tu.last.Ends? && tu.last.i.BranchZ?
    requires b + MAX_CODE_BLOCK_SIZE <= e.next
    requires CodeAt(e.code, b + START_OF_TRANSLATED_CODE, BodyBytes(tu) + BranchOpcode(tu.last.i.ifZero))
    requires var q := b + START_OF_TRANSLATED_CODE + |BodyBytes(tu)|;
             q + 11 <= MAX_CODE_SIZE
             && TranslateBranch(cfg, e, tu.last.i, tu.last.next, b, q, memory1, memory2).ok
    ensures var q := b + START_OF_TRANSLATED_CODE + |BodyBytes(tu)|;
            var e' := TranslateBranch(cfg, e, tu.last.i, tu.last.next, b, q, memory1, memory2).e;
            && Extends(e, e') && SuccessorsCached(e'.cache, tu.last)
            && ThereBelow(e'.code, b + START_OF_TRANSLATED_CODE,
                          TuBytes(e'.cache, tu, cfg.codeBase + b + START_OF_TRANSLATED_CODE), e.next)
  {
    hide StubBlock, BodyBytes, BranchRest, Key, Patch, SetupTu, CodeAt, TuBytes, SuccessorsCached, BlockStart;
    hide Below, ThereBelow;
    var at := b + START_OF_TRANSLATED_CODE;
    var q, code := at + |BodyBytes(tu)|, BodyBytes(tu) + BranchOpcode(tu.last.i.ifZero);
    var kept := Below(code, e.next - at);
    BelowAt(e.code, at, code, e.next - at);
    SetupBefore(cfg, e, Low64(tu.last.i.target), memory1, at, kept);
    var s := SetupTu(cfg, e, Low64(tu.last.i.target), memory1);
    SetupBefore(cfg, s.e, Low64(tu.last.next), memory2, at, kept);
    var s2 := SetupTu(cfg, s.e, Low64(tu.last.next), memory2);
    var rest := BranchRest(s.addr.value, s2.addr.value, cfg.codeBase + q);
    RestWritten(s2.e.code, b, at, kept, q + 2, rest);
    AllThere(Patch(Patch(s2.e.code, q + 2, rest), b, JUMP_TO_CODE), at, code, rest, e.next);
    BranchBytes(s2.e.cache, tu, s.addr.value, s2.addr.value, cfg.codeBase + at);
  }

  lemma RestWritten(code: seq<byte>, b: nat, at: nat, x: seq<byte>, q: nat, rest: seq<byte>)
    requires CodeAt(code, at, x) && b + 2 <= at && at + |x| <= q && q + |rest| <= |code|
    ensures var code' := Patch(Patch(code, q, rest), b, JUMP_TO_CODE); CodeAt(code', at, x) && CodeAt(code', q, rest)
  {
    hide Patch, CodeAt;
    CodeAtWritten(code, q, rest);
    CodeAtElsewhere(code, q, rest, at, x);
    CodeAtElsewhere(Patch(code, q, rest), b, JUMP_TO_CODE, at, x);
    CodeAtElsewhere(Patch(code, q, rest), b, JUMP_TO_CODE, q, rest);
  }

  // ------------------------------------------------ the next block's stub

  // The bytes that PUSH instructions consist of, and those of the jump at the start of a done block
  predicate EntryByte(x: byte) { x == 0x41 || 0x50 <= x < 0x58 || x in JUMP_TO_CODE }

  lemma {:induction false} PushBytes(rs: seq<Reg>)
    ensures forall i :: 0 <= i < |EncAll(Pushes(rs))| ==> EntryByte(EncAll(Pushes(rs))[i])
  {
    hide Enc, EntryByte;
    if rs != [] {
      PushBytes(rs[1..]);
      assert Pushes(rs)[1..] == Pushes(rs[1..]);
      OnePush(rs[0]);
    }
  }

  lemma OnePush(r: Reg)
    ensures forall i :: 0 <= i < |Enc(Push(r))| ==> EntryByte(Enc(Push(r))[i])
  {
  }

  const PUSHES := 13

  // The stub starts with 13 bytes of PUSH instructions.
  lemma StubStart(cfg: Config, src: u64)
    ensures forall i :: 0 <= i < PUSHES ==> EntryByte(StubBlock(cfg, src)[i])
  {
    hide Pushes, Enc, EncAll, AbsCall, Pops, Nops, EntryByte;
    StubSize(cfg.translateAddr, src);
    SavedSize();
    PushBytes(SAVED_STATE);
    var tail := [Pushfq, MovImm64(RDI, src)] + AbsCall(cfg.translateAddr) + [Popfq] + Pops(SAVED_STATE);
    assert TransparentCall(cfg.translateAddr, src) == Pushes(SAVED_STATE) + tail;
    EncAllAppend(Pushes(SAVED_STATE), tail);
  }

  // ------------------------------------------------- the translated code

  // One of the first two bytes of a translated instruction cannot be there in a stub.
  lemma OneMove(i: Instr)
    requires i.MovLoad? || i.MovStore? || i.MovImm32? || i.MovReg32? || i.SubImm8? || i.TestSelf?
    ensures 2 <= |Enc(i)| <= 8 && !(EntryByte(Enc(i)[0]) && EntryByte(Enc(i)[1]))
  {
    hide LE32;
  }

  lemma ChunkBytes(i: GInstr)
    requires !Terminal(i)
    ensures var c := EncAll(Emits(i)); 2 <= |c| <= 10 && !(EntryByte(c[0]) && EntryByte(c[1]))
  {
    hide Enc, EntryByte, Translation.Dn, Translation.An, EncAll;
    if i.JsrLib? {
      JsrBytes(i.disp);
    } else {
      EncAllOne(Emits(i)[0]);
      OneMove(Emits(i)[0]);
    }
  }

  lemma JsrBytes(disp: u16)
    ensures var c := EncAll(Emits(JsrLib(disp))); |c| == 10 && !EntryByte(c[1])
  {
    hide LE32;
    var x := Low32(Signed16(disp));
    var a, b, c, d := Push(RSI), AddImm32(RSI, x), CallReg(RSI), Pop(RSI);
    assert Enc(a) == [0x56] && Enc(b) == [0x81, 0xc6] + LE32(x) && Enc(c) == [0xff, 0xd6] && Enc(d) == [0x5e];
    JsrCode(a, b, c, d);
  }

  lemma JsrCode(a: Instr, b: Instr, c: Instr, d: Instr)
    ensures EncAll([a, b, c, d]) == (Enc(a) + Enc(b)) + (Enc(c) + Enc(d))
  {
    hide Enc, EncAll;
    assert [a, b, c, d] == ([a] + [b]) + ([c] + [d]);
    EncAllAppend([a] + [b], [c] + [d]);
    EncAllAppend([a], [b]);
    EncAllAppend([c], [d]);
    EncAllOne(a);
    EncAllOne(b);
    EncAllOne(c);
    EncAllOne(d);
  }

  // Within 12 bytes of any place in a unit's code, a byte that cannot be there in a stub
  lemma {:induction false} Foreign(xs: seq<GInstr>, tail: seq<byte>, w: nat) returns (j: nat)
    requires w <= |EncAll(EmitsAll(xs))| && tail != [] && !EntryByte(tail[0])
    requires forall k :: 0 <= k < |xs| ==> !Terminal(xs[k])
    ensures w <= j < w + 12 && (w == 0 ==> j <= 1)
    ensures j < |EncAll(EmitsAll(xs)) + tail| && !EntryByte((EncAll(EmitsAll(xs)) + tail)[j])
    decreases |xs|
  {
    hide Emits, EncAll, EntryByte;
    if xs == [] {
      assert EncAll(EmitsAll(xs)) == [] by { NoBody(); }
      j := 0;
    } else {
      var c, rest := EncAll(Emits(xs[0])), EncAll(EmitsAll(xs[1..]));
      assert EncAll(EmitsAll(xs)) == c + rest by { EncAllAppend(Emits(xs[0]), EmitsAll(xs[1..])); }
      ChunkBytes(xs[0]);
      if w == 0 {
        j := if EntryByte(c[0]) then 1 else 0;
      } else {
        var w' := if w <= |c| then 0 else w - |c|;
        var j' := Foreign(xs[1..], tail, w');
        j := |c| + j';
        assert (c + rest + tail)[j] == (rest + tail)[j'];
      }
    }
  }

  // Where the next block starts in the code of a unit that does not fit
  const OVERRUN := MAX_CODE_BLOCK_SIZE - START_OF_TRANSLATED_CODE

  lemma ForeignByte(cfg: Config, cache: map<nat, u64>, tu: Tu, start: int) returns (j: nat)
    requires ConfigOk(cfg) && tu.last.Ends? && Terminal(tu.last.i) && SuccessorsCached(cache, tu.last)
    requires forall k :: 0 <= k < |tu.body| ==> !Terminal(tu.body[k])
    requires tu.last.i.BranchZ? ==>
               var to: int := cache[Key(Low64(tu.last.next))]; 0 <= to - cfg.codeBase < MAX_CODE_SIZE
    requires cfg.codeBase <= start && start + EmittedSize(tu) <= cfg.codeBase + MAX_CODE_SIZE
    requires EmittedSize(tu) > OVERRUN
    ensures var t := TuBytes(cache, tu, start);
            |t| == EmittedSize(tu) && OVERRUN <= j < OVERRUN + 12 && j < |t| && !EntryByte(t[j])
  {
    hide EncAll, EmitsAll, Key, BranchRest;
    TuBytesSize(cache, tu, start);
    if OVERRUN <= |BodyBytes(tu)| {
      j := Foreign(tu.body, LastBytes(cache, tu.last, start + |BodyBytes(tu)|), OVERRUN);
    } else {
      LastByte(cfg, cache, tu, start);
      j := EmittedSize(tu) - 1;
    }
  }

  // The last byte of a translated branch is the top byte of a displacement inside the code area.
  lemma LastByte(cfg: Config, cache: map<nat, u64>, tu: Tu, start: int)
    requires ConfigOk(cfg) && tu.last.Ends? && tu.last.i.BranchZ? && SuccessorsCached(cache, tu.last)
    requires var to: int := cache[Key(Low64(tu.last.next))]; 0 <= to - cfg.codeBase < MAX_CODE_SIZE
    requires cfg.codeBase <= start && start + EmittedSize(tu) <= cfg.codeBase + MAX_CODE_SIZE
    ensures var t := TuBytes(cache, tu, start); |t| == EmittedSize(tu) && t[|t| - 1] in {0x00, 0xff}
  {
    hide BodyBytes, Key;
    var to: int, at := cache[Key(Low64(tu.last.next))], start + |BodyBytes(tu)|;
    TopByte(to - (at + 11));
  }

  lemma TopByte(d: int)
    requires -0x2_0000 <= d < 0x2_0000
    ensures Low32(d) / 0x100_0000 in {0x00, 0xff}
  {
  }

  // Translating a unit that does not fit its block leaves the block behind it neither pending nor
  // done, however far the code runs on: the invariant is lost, and the stub there is broken.
  lemma OverrunSpoils(cfg: Config, e: Engine, k: nat, l: nat, memory1: bool, memory2: bool)
    requires Inv(cfg, e) && k in e.cache && l in e.cache
    requires Offset(cfg, e.cache[l]) == Offset(cfg, e.cache[k]) + MAX_CODE_BLOCK_SIZE
    requires !Fits(cfg.img, e.source[k]) && ScanTu(cfg.img, e.source[k]).last.Ends?
    requires RoomFor(cfg, e, e.source[k]) && TranslateTu(cfg, e, e.source[k], memory1, memory2).ok
    ensures var e' := TranslateTu(cfg, e, e.source[k], memory1, memory2).e;
            && InArea(cfg, e') && l in e'.cache && !Pending(cfg, e', l) && !Done(cfg, e', l) && !Inv(cfg, e')
  {
    hide BlocksOk, MapsOk, TuBytes, Key, TranslateTu, StubBlock, ScanTu, EmittedSize, EntryByte;
    KeyOf(cfg, e, k);
    InvBlock(cfg, e, k);
    InvBlock(cfg, e, l);
    var src, tu := e.source[k], ScanTu(cfg.img, e.source[k]);
    TranslationWritten(cfg, e, src, memory1, memory2);
    TranslateInArea(cfg, e, src, memory1, memory2);
    var e' := TranslateTu(cfg, e, src, memory1, memory2).e;
    var start := e.cache[k] + START_OF_TRANSLATED_CODE;
    Successor(cfg, e', tu.last);
    var j := ForeignByte(cfg, e'.cache, tu, start);
    var c := Offset(cfg, e.cache[l]);
    assert e'.code[c + (j - OVERRUN)] == TuBytes(e'.cache, tu, start)[j];
    Spoiled(cfg, e', l, j - OVERRUN);
    assert !Inv(cfg, e') by {
      if Inv(cfg, e') {
        InvBlock(cfg, e', l);
      }
    }
  }

  lemma Successor(cfg: Config, e: Engine, last: Last)
    requires InArea(cfg, e) && SuccessorsCached(e.cache, last)
    ensures last.Ends? && last.i.BranchZ? ==> 0 <= Offset(cfg, e.cache[Key(Low64(last.next))]) < MAX_CODE_SIZE
  {
    hide Key;
    if last.Ends? && last.i.BranchZ? {
      assert BlockStart(cfg, e.next, e.cache[Key(Low64(last.next))]);
    }
  }

  // A block with such a byte near its start has no stub, and is no translated one either.
  lemma Spoiled(cfg: Config, e: Engine, l: nat, i: int)
    requires l in e.cache && l in e.source && 0 <= i < PUSHES
    requires var c := Offset(cfg, e.cache[l]); 0 <= c && c + i < |e.code| && !EntryByte(e.code[c + i])
    ensures !Pending(cfg, e, l) && !Done(cfg, e, l)
  {
    hide TuBytes, StubBlock, SuccessorsCached, Fits, Pending, Done;
    StubStart(cfg, e.source[l]);
    if Pending(cfg, e, l) {
      PendingStart(cfg, e, l, i);
      assert false;
    }
    if Done(cfg, e, l) {
      DoneStart(cfg, e, l, i);
      assert false;
    }
  }

  lemma PendingStart(cfg: Config, e: Engine, l: nat, i: int)
    requires l in e.cache && l in e.source && 0 <= i < PUSHES && Pending(cfg, e, l)
    ensures var c := Offset(cfg, e.cache[l]);
            0 <= c && c + i < |e.code| && e.code[c + i] == StubBlock(cfg, e.source[l])[i]
  {
    hide StubBlock;
    var c := Offset(cfg, e.cache[l]);
    assert e.code[c..c + START_OF_TRANSLATED_CODE][i] == StubBlock(cfg, e.source[l])[i];
  }

  lemma DoneStart(cfg: Config, e: Engine, l: nat, i: int)
    requires l in e.cache && l in e.source && 0 <= i < PUSHES && Done(cfg, e, l)
    ensures var c := Offset(cfg, e.cache[l]);
            && 0 <= c && c + i < |e.code|
            && e.code[c + i] == if i < 2 then JUMP_TO_CODE[i] else StubBlock(cfg, e.source[l])[i]
  {
    hide TuBytes, StubBlock, SuccessorsCached, Fits;
    var c, stub := Offset(cfg, e.cache[l]), StubBlock(cfg, e.source[l]);
    if i < 2 {
      assert e.code[c..c + 2][i] == JUMP_TO_CODE[i];
    } else {
      assert e.code[c + 2..c + START_OF_TRANSLATED_CODE][i - 2] == stub[2..START_OF_TRANSLATED_CODE][i - 2];
    }
  }

  // So a successful translation keeps the invariant if and only if the unit fits its block.
  lemma KeptIffFits(cfg: Config, e: Engine, k: nat, l: nat, memory1: bool, memory2: bool)
    requires Inv(cfg, e) && k in e.cache && l in e.cache && Pending(cfg, e, k)
    requires Offset(cfg, e.cache[l]) == Offset(cfg, e.cache[k]) + MAX_CODE_BLOCK_SIZE
    requires RoomFor(cfg, e, e.source[k]) && TranslateTu(cfg, e, e.source[k], memory1, memory2).ok
    ensures Inv(cfg, TranslateTu(cfg, e, e.source[k], memory1, memory2).e) <==> Fits(cfg.img, e.source[k])
  {
    hide BlocksOk, MapsOk, Pending, Done, RoomFor, TranslateTu, Fits, ScanTu;
    InvBlock(cfg, e, k);
    if Fits(cfg.img, e.source[k]) {
      TranslateKeeps(cfg, e, k, memory1, memory2);
    } else {
      TranslationEnds(cfg, e, e.source[k], memory1, memory2);
      OverrunSpoils(cfg, e, k, l, memory1, memory2);
    }
  }

  lemma TranslationEnds(cfg: Config, e: Engine, src: u64, memory1: bool, memory2: bool)
    requires ConfigOk(cfg) && InArea(cfg, e) && RoomFor(cfg, e, src)
    ensures TranslateTu(cfg, e, src, memory1, memory2).ok ==> ScanTu(cfg.img, src).last.Ends?
  {
    hide ScanTu, TranslateBranch, Key, BodyBytes, Patch;
  }

  // More than 147 MOVEQs and a short branch do this.
  lemma MoveqsSpoil(cfg: Config, e: Engine, k: nat, l: nat, n: nat, memory1: bool, memory2: bool)
    requires Inv(cfg, e) && k in e.cache && l in e.cache && n > 147 && Moveqs(cfg.img, e.source[k], n)
    requires Offset(cfg, e.cache[l]) == Offset(cfg, e.cache[k]) + MAX_CODE_BLOCK_SIZE
    requires RoomFor(cfg, e, e.source[k]) && TranslateTu(cfg, e, e.source[k], memory1, memory2).ok
    ensures !Inv(cfg, TranslateTu(cfg, e, e.source[k], memory1, memory2).e)
  {
    hide BlocksOk, MapsOk, Pending, Done, RoomFor, TranslateTu, EmittedSize, ScanTu, Moveqs, Fits;
    InvBlock(cfg, e, k);
    TooLarge(cfg.img, e.source[k], n);
    MoveqsEnd(cfg.img, e.source[k], n);
    OverrunSpoils(cfg, e, k, l, memory1, memory2);
  }

  lemma {:induction false} MoveqsEnd(img: Image, pc: int, k: nat)
    requires Moveqs(img, pc, k)
    ensures ScanTu(img, pc).last.Ends? && ScanTu(img, pc).last.i.BranchZ?
    decreases k
  {
    hide WordAt, GDecode;
    DecodeMoveqs(img, pc);
    DecodeAdvances(img, pc);
    if k > 0 {
      assert WordAt(img, pc + 2 * 0) == 0x7000;
      forall j: nat | j < k - 1
        ensures WordAt(img, pc + 2 + 2 * j) == 0x7000
      {
        assert WordAt(img, pc + 2 * (j + 1)) == 0x7000;
      }
      MoveqsEnd(img, pc + 2, k - 1);
    }
  }
}
