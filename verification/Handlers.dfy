/** The operand extractor, the x86 encoders and the opcode handlers of translate.c, except for the
    branch handler. They read at a moving position of the guest's code and write behind a moving
    position of the code area. */
module Handlers {
  import opened Base
  import opened X86
  import opened CodeGen
  import opened Emit
  import opened M68k
  import opened Translation
  import opened OpcodeTable

  // ------------------------------------------------------------- operands

  // extract_operand: the operand and the position behind it
  method ExtractOperand(img: Image, modeReg: int, pos: int) returns (op: Operand, next: int)
    requires 0 <= modeReg < 64
    ensures op == OperandAt(img, modeReg, pos) && next == pos + OperandLength(modeReg)
  {
    next := pos;
    if modeReg / 8 == 0 {
      op := DReg(modeReg % 8);
    } else if modeReg / 8 == 1 {
      op := AReg(modeReg % 8);
    } else if modeReg / 8 == 5 {
      op := ADisp(modeReg % 8);
    } else if modeReg == 0x38 {
      op := Mem(AbsW(WordAt(img, pos)));
      next := pos + 2;
    } else if modeReg == 0x39 {
      op := Mem(AbsL(LongAt(img, pos)));
      next := pos + 4;
    } else if modeReg == 0x3c {
      op := Imm(LongAt(img, pos));
      next := pos + 4;
    } else {
      op := NoOperand;
    }
  }

  // ------------------------------------------------------------- encoders

  // Consecutive writes
  lemma ThreeParts(c: seq<byte>, pos: nat, x: seq<byte>, y: seq<byte>, z: seq<byte>)
    requires pos + |x| + |y| + |z| <= |c|
    ensures Patch(Patch(Patch(c, pos, x), pos + |x|, y), pos + |x| + |y|, z) == Patch(c, pos, x + y + z)
  {
    hide Patch;
    PatchPatch(c, pos, x, y);
    PatchPatch(c, pos, x + y, z);
  }

  // An instruction written as some bytes, and perhaps a 32-bit number behind them
  lemma EmittedThree(c0: seq<byte>, c1: seq<byte>, pos: nat, i: Instr, x: byte, y: byte, z: seq<byte>)
    requires pos + 2 + |z| <= |c0| && Enc(i) == [x, y] + z
    requires c1 == Patch(Patch(Patch(c0, pos, [x]), pos + 1, [y]), pos + 2, z)
    ensures Emitted(c0, c1, pos, pos + 2 + |z|, [i])
  {
    hide Patch, Enc;
    ThreeParts(c0, pos, [x], [y], z);
    assert [x] + [y] + z == [x, y] + z;
    EmittedOne(c0, c1, pos, i);
  }

  lemma EmittedFour(c0: seq<byte>, c1: seq<byte>, pos: nat, i: Instr, w: byte, x: byte, y: byte, z: seq<byte>)
    requires pos + 3 + |z| <= |c0| && Enc(i) == [w, x, y] + z
    requires c1 == Patch(Patch(Patch(Patch(c0, pos, [w]), pos + 1, [x]), pos + 2, [y]), pos + 3, z)
    ensures Emitted(c0, c1, pos, pos + 3 + |z|, [i])
  {
    hide Patch, Enc;
    ThreeParts(c0, pos, [w], [x], [y]);
    PatchPatch(c0, pos, [w] + [x] + [y], z);
    assert [w] + [x] + [y] + z == [w, x, y] + z;
    EmittedOne(c0, c1, pos, i);
  }

  lemma EmittedFive(c0: seq<byte>, c1: seq<byte>, pos: nat, i: Instr, v: byte, w: byte, x: byte, y: byte, z: seq<byte>)
    requires pos + 4 + |z| <= |c0| && Enc(i) == [v, w, x, y] + z
    requires c1 == Patch(Patch(Patch(Patch(Patch(c0, pos, [v]), pos + 1, [w]), pos + 2, [x]), pos + 3, [y]), pos + 4, z)
    ensures Emitted(c0, c1, pos, pos + 4 + |z|, [i])
  {
    hide Patch, Enc;
    ThreeParts(c0, pos, [v], [w], [x]);
    ThreeParts(c0, pos, [v] + [w] + [x], [y], z);
    assert [v] + [w] + [x] + [y] + z == [v, w, x, y] + z;
    EmittedOne(c0, c1, pos, i);
  }

  // The encodings with data registers, all of which need a prefix
  lemma DnBits(n: Num)
    ensures Dn(n) == 8 + n && Dn(n) % 8 == n
  {
  }

  lemma MemEncodings(n: Num, v: u32)
    ensures Enc(MovLoad(Dn(n), v)) == [0x44, 0x8b, 0x04 + 8 * n, 0x25] + LE32(v)
    ensures Enc(MovStore(Dn(n), v)) == [0x44, 0x89, 0x04 + 8 * n, 0x25] + LE32(v)
  {
    hide LE32, Dn;
    DnBits(n);
  }

  lemma ImmEncodings(n: Num, v: u32)
    ensures Enc(MovImm32(Dn(n), v)) == [0x41, 0xb8 + n] + LE32(v)
  {
    hide LE32, Dn;
    DnBits(n);
  }

  lemma RegEncodings(n: Num, m: Num)
    ensures Enc(MovReg32(Dn(n), Dn(m))) == [0x45, 0x89] + [0xc0 + 8 * n + m]
  {
    hide Dn;
    DnBits(n);
    DnBits(m);
  }

  lemma FlagEncodings(n: Num, b: byte)
    ensures Enc(SubImm8(Dn(n), b)) == [0x41, 0x83, 0xe8 + n] + [b]
    ensures Enc(TestSelf(Dn(n))) == [0x45, 0x85] + [0xc0 + 8 * n + n]
  {
    hide Dn;
    DnBits(n);
  }

  // A4 and A7 change places, so that A7 is RSP.
  function SwapA4A7(reg: Num): Num { if reg == 4 then 7 else if reg == 7 then 4 else reg }

  method X86EncodeMoveMemToAreg(code: array<byte>, pos: nat, addr: u32, reg: Num) returns (next: nat)
    requires pos + 7 <= code.Length
    modifies code
    ensures Emitted(old(code[..]), code[..], pos, next, [MovLoad(An(reg), addr)])
  {
    hide Patch, Emitted, LE32;
    ghost var c0 := code[..];
    next := WriteByte(code, pos, 0x8b);
    next := WriteByte(code, next, 0x04 + 8 * SwapA4A7(reg));
    next := WriteByte(code, next, 0x25);
    next := WriteDword(code, next, addr);
    EmittedFour(c0, code[..], pos, MovLoad(An(reg), addr), 0x8b, 0x04 + 8 * SwapA4A7(reg), 0x25, LE32(addr));
  }

  method X86EncodeMoveMemToDreg(code: array<byte>, pos: nat, addr: u32, reg: Num) returns (next: nat)
    requires pos + 8 <= code.Length
    modifies code
    ensures Emitted(old(code[..]), code[..], pos, next, [MovLoad(Dn(reg), addr)])
  {
    hide Patch, Emitted, LE32, Enc;
    MemEncodings(reg, addr);
    ghost var c0 := code[..];
    next := WriteByte(code, pos, 0x44);
    next := WriteByte(code, next, 0x8b);
    next := WriteByte(code, next, 0x04 + 8 * reg);
    next := WriteByte(code, next, 0x25);
    next := WriteDword(code, next, addr);
    EmittedFive(c0, code[..], pos, MovLoad(Dn(reg), addr), 0x44, 0x8b, 0x04 + 8 * reg, 0x25, LE32(addr));
  }

  method X86EncodeMoveImmToAreg(code: array<byte>, pos: nat, value: u32, reg: Num) returns (next: nat)
    requires pos + 5 <= code.Length
    modifies code
    ensures Emitted(old(code[..]), code[..], pos, next, [MovImm32(An(reg), value)])
  {
    hide Patch, Emitted, LE32;
    ghost var c0 := code[..];
    var opcode: byte := 0xb8 + SwapA4A7(reg);
    next := WriteByte(code, pos, opcode);
    next := WriteDword(code, next, value);
    PatchPatch(c0, pos, [opcode], LE32(value));
    assert [opcode] + LE32(value) == Enc(MovImm32(An(reg), value));
    EmittedOne(c0, code[..], pos, MovImm32(An(reg), value));
  }

  method X86EncodeMoveImmToDreg(code: array<byte>, pos: nat, value: u32, reg: Num) returns (next: nat)
    requires pos + 6 <= code.Length
    modifies code
    ensures Emitted(old(code[..]), code[..], pos, next, [MovImm32(Dn(reg), value)])
  {
    hide Patch, Emitted, LE32, Enc;
    ImmEncodings(reg, value);
    ghost var c0 := code[..];
    next := WriteByte(code, pos, 0x41);
    next := WriteByte(code, next, 0xb8 + reg);
    next := WriteDword(code, next, value);
    EmittedThree(c0, code[..], pos, MovImm32(Dn(reg), value), 0x41, 0xb8 + reg, LE32(value));
  }

  method X86EncodeMoveDregToMem(code: array<byte>, pos: nat, reg: Num, addr: u32) returns (next: nat)
    requires pos + 8 <= code.Length
    modifies code
    ensures Emitted(old(code[..]), code[..], pos, next, [MovStore(Dn(reg), addr)])
  {
    hide Patch, Emitted, LE32, Enc;
    MemEncodings(reg, addr);
    ghost var c0 := code[..];
    next := WriteByte(code, pos, 0x44);
    next := WriteByte(code, next, 0x89);
    next := WriteByte(code, next, 0x04 + 8 * reg);
    next := WriteByte(code, next, 0x25);
    next := WriteDword(code, next, addr);
    EmittedFive(c0, code[..], pos, MovStore(Dn(reg), addr), 0x44, 0x89, 0x04 + 8 * reg, 0x25, LE32(addr));
  }

  method X86EncodeMoveDregToDreg(code: array<byte>, pos: nat, src: Num, dst: Num) returns (next: nat)
    requires pos + 3 <= code.Length
    modifies code
    ensures Emitted(old(code[..]), code[..], pos, next, [MovReg32(Dn(src), Dn(dst))])
  {
    hide Patch, Emitted, Enc;
    RegEncodings(src, dst);
    ghost var c0 := code[..];
    next := WriteByte(code, pos, 0x45);
    next := WriteByte(code, next, 0x89);
    next := WriteByte(code, next, 0xc0 + 8 * src + dst);
    EmittedThree(c0, code[..], pos, MovReg32(Dn(src), Dn(dst)), 0x45, 0x89, [0xc0 + 8 * src + dst]);
  }

  // ------------------------------------------------------ opcode handlers

  // What a handler does with the instruction at pc, whose operands start at pc + 2: it accepts it
  // and writes its translation, or refuses it and writes nothing.
  predicate Handled(d: Option<Located>, c0: seq<byte>, c1: seq<byte>, pos: nat, ok: bool, inpos: int, next: nat) {
    match d
    case None => !ok && c1 == c0
    case Some(l) => ok && inpos == l.next && Emitted(c0, c1, pos, next, Emits(l.i))
  }

  // Room for the translation, if there is one
  predicate Room(d: Option<Located>, size: nat, pos: nat) {
    d.Some? ==> pos + |EncAll(Emits(d.value.i))| <= size
  }

  lemma OneSize(i: Instr)
    ensures |EncAll([i])| == |Enc(i)|
  {
    EncAllOne(i);
  }

  // Lengths of the translations
  lemma Sizes(i: GInstr)
    requires !Terminal(i)
    ensures |EncAll(Emits(i))| ==
            match i
            case MoveaMem(_, _) => 7
            case MoveaImm(_, _) => 5
            case MoveqImm(_, _) => 6
            case MoveMem(_, _) => 8
            case MoveImm(_, _) => 6
            case MoveToMem(_, _) => 8
            case MoveReg(_, _) => 3
            case Subq(_, _) => 4
            case Tst(_) => 3
            case JsrLib(_) => 10
  {
    hide EncAll, LE32;
    if i.JsrLib? {
      JsrSize(i.disp);
    } else {
      OneSize(Emits(i)[0]);
    }
  }

  lemma JsrSize(disp: u16)
    ensures |EncAll(Emits(JsrLib(disp)))| == 10
  {
    hide EncAll, LE32;
    var a, b, c, d := Push(RSI), AddImm32(RSI, Low32(Signed16(disp))), CallReg(RSI), Pop(RSI);
    assert Emits(JsrLib(disp)) == [a] + ([b] + ([c] + [d]));
    EncAllAppend([a], [b] + ([c] + [d]));
    EncAllAppend([b], [c] + [d]);
    EncAllAppend([c], [d]);
    OneSize(a);
    OneSize(b);
    OneSize(c);
    OneSize(d);
  }

  method Jsr(img: Image, op: u16, inpos0: int, code: array<byte>, pos: nat) returns (ok: bool, inpos: int, next: nat)
    requires Room(HandlerDecode(HJsr, img, op, inpos0 - 2), code.Length, pos)
    modifies code
    ensures Handled(HandlerDecode(HJsr, img, op, inpos0 - 2), old(code[..]), code[..], pos, ok, inpos, next)
  {
    hide EncAll, Patch, Emitted, Emits;
    next := pos;
    var operand;
    operand, inpos := ExtractOperand(img, op % 0x40, inpos0);
    if !operand.ADisp? {
      return false, inpos, next;
    }
    var offset := WordAt(img, inpos);
    inpos := inpos + 2;
    if operand.n == 6 {
      JsrSize(offset);
      next := EmitLibraryCall(code, pos, offset);
      ok := true;
    } else {
      ok := false;
    }
  }

  // push rsi; add esi, offset; call rsi; pop rsi
  method EmitLibraryCall(code: array<byte>, pos: nat, offset: u16) returns (next: nat)
    requires pos + 10 <= code.Length
    modifies code
    ensures Emitted(old(code[..]), code[..], pos, next, Emits(JsrLib(offset)))
  {
    hide EncAll, Patch, Emitted, LE32;
    ghost var c0 := code[..];
    var value := Low32(Signed16(offset));
    ghost var a, b, c, d := Push(RSI), AddImm32(RSI, value), CallReg(RSI), Pop(RSI);
    next := WriteByte(code, pos, 0x56);
    assert Enc(a) == [0x56] && Enc(d) == [0x5e] && Enc(c) == [0xff, 0xd6];
    assert Enc(b) == [0x81, 0xc6] + LE32(value);
    hide Enc;
    EmittedOne(c0, code[..], pos, a);
    ghost var c1, p1 := code[..], next;
    next := WriteByte(code, next, 0x81);
    next := WriteByte(code, next, 0xc6);
    next := WriteDword(code, next, value);
    EmittedThree(c1, code[..], p1, b, 0x81, 0xc6, LE32(value));
    EmittedThen(c0, c1, code[..], pos, p1, next, [a], [b], [a, b]);
    ghost var c2, p2 := code[..], next;
    next := WriteByte(code, next, 0xff);
    next := WriteByte(code, next, 0xd6);
    EmittedTwoBytes(c2, code[..], p2, c, 0xff, 0xd6);
    EmittedThen(c0, c2, code[..], pos, p2, next, [a, b], [c], [a, b, c]);
    ghost var c3, p3 := code[..], next;
    next := WriteByte(code, next, 0x5e);
    EmittedOne(c3, code[..], p3, d);
    EmittedThen(c0, c3, code[..], pos, p3, next, [a, b, c], [d], [a, b, c, d]);
  }

  method Movea(img: Image, op: u16, inpos0: int, code: array<byte>, pos: nat) returns (ok: bool, inpos: int, next: nat)
    requires Room(HandlerDecode(HMovea, img, op, inpos0 - 2), code.Length, pos)
    modifies code
    ensures Handled(HandlerDecode(HMovea, img, op, inpos0 - 2), old(code[..]), code[..], pos, ok, inpos, next)
  {
    hide EncAll, Patch, Emitted;
    ok, inpos, next := true, inpos0, pos;
    var reg := op / 0x200 % 8;
    if op / 0x1000 % 4 != 2 {
      return false, inpos, next;
    }
    var operand;
    operand, inpos := ExtractOperand(img, op % 0x40, inpos0);
    ghost var d := HandlerDecode(HMovea, img, op, inpos0 - 2);
    if d.Some? {
      Sizes(d.value.i);
    }
    if operand.Mem? {
      var addr := HostDisp(operand.ea);
      if addr == ABS_EXEC_BASE_68K {
        addr := ABS_EXEC_BASE;
      }
      next := X86EncodeMoveMemToAreg(code, pos, addr, reg);
    } else if operand.Imm? {
      next := X86EncodeMoveImmToAreg(code, pos, operand.v, reg);
    } else {
      ok := false;
    }
  }

  method Moveq(img: Image, op: u16, inpos0: int, code: array<byte>, pos: nat) returns (ok: bool, inpos: int, next: nat)
    requires Room(HandlerDecode(HMoveq, img, op, inpos0 - 2), code.Length, pos)
    modifies code
    ensures Handled(HandlerDecode(HMoveq, img, op, inpos0 - 2), old(code[..]), code[..], pos, ok, inpos, next)
  {
    hide EncAll, Patch, Emitted;
    Sizes(HandlerDecode(HMoveq, img, op, inpos0 - 2).value.i);
    var value := Low32(Signed8(op % 0x100));
    var reg := op / 0x200 % 8;
    next := X86EncodeMoveImmToDreg(code, pos, value, reg);
    ok, inpos := true, inpos0;
  }

  method Move(img: Image, op: u16, inpos0: int, code: array<byte>, pos: nat) returns (ok: bool, inpos: int, next: nat)
    requires Room(HandlerDecode(HMove, img, op, inpos0 - 2), code.Length, pos)
    modifies code
    ensures Handled(HandlerDecode(HMove, img, op, inpos0 - 2), old(code[..]), code[..], pos, ok, inpos, next)
  {
    hide EncAll, Patch, Emitted;
    ok, inpos, next := true, inpos0, pos;
    var srcModeReg, dstModeReg := op % 0x40, op / 0x40 % 0x40;
    if op / 0x1000 % 4 != 2 {
      return false, inpos, next;
    }
    var srcop, dstop;
    srcop, inpos := ExtractOperand(img, srcModeReg, inpos);
    // destination operand has mode and register parts swapped
    SwappedField(op);
    dstop, inpos := ExtractOperand(img, 8 * (dstModeReg % 8) + dstModeReg / 8, inpos);
    ghost var d := HandlerDecode(HMove, img, op, inpos0 - 2);
    if d.Some? {
      Sizes(d.value.i);
    }
    if srcop.Mem? && dstop.DReg? {
      next := X86EncodeMoveMemToDreg(code, pos, HostDisp(srcop.ea), dstop.n);
    } else if srcop.Imm? && dstop.DReg? {
      next := X86EncodeMoveImmToDreg(code, pos, srcop.v, dstop.n);
    } else if srcop.DReg? && dstop.Mem? {
      next := X86EncodeMoveDregToMem(code, pos, srcop.n, HostDisp(dstop.ea));
    } else if srcop.DReg? && dstop.DReg? {
      next := X86EncodeMoveDregToDreg(code, pos, srcop.n, dstop.n);
    } else {
      ok := false;
    }
  }

  lemma SwappedField(op: u16)
    ensures var f := op / 0x40 % 0x40; 8 * (f % 8) + f / 8 == DestinationField(op)
  {
    var y := op / 0x40;
    assert y % 0x40 % 8 == y % 8 && y % 0x40 / 8 == y / 8 % 8 && y / 8 == op / 0x200;
  }

  method RtsHandler(code: array<byte>, pos: nat) returns (next: nat)
    requires pos + 1 <= code.Length
    modifies code
    ensures next == pos + 1 && code[..] == Patch(old(code[..]), pos, [0xc3])
  {
    next := WriteByte(code, pos, 0xc3);
  }

  method EmitSubq(code: array<byte>, pos: nat, reg: Num, value: byte) returns (next: nat)
    requires pos + 4 <= code.Length
    modifies code
    ensures Emitted(old(code[..]), code[..], pos, next, [SubImm8(Dn(reg), value)])
  {
    hide Patch, Emitted, Enc;
    FlagEncodings(reg, value);
    ghost var c0 := code[..];
    next := WriteByte(code, pos, 0x41);
    next := WriteByte(code, next, 0x83);
    next := WriteByte(code, next, 0xe8 + reg);
    next := WriteByte(code, next, value);
    EmittedFour(c0, code[..], pos, SubImm8(Dn(reg), value), 0x41, 0x83, 0xe8 + reg, [value]);
  }

  method EmitTst(code: array<byte>, pos: nat, reg: Num) returns (next: nat)
    requires pos + 3 <= code.Length
    modifies code
    ensures Emitted(old(code[..]), code[..], pos, next, [TestSelf(Dn(reg))])
  {
    hide Patch, Emitted, Enc;
    FlagEncodings(reg, 0);
    ghost var c0 := code[..];
    next := WriteByte(code, pos, 0x45);
    next := WriteByte(code, next, 0x85);
    next := WriteByte(code, next, 0xc0 + 8 * reg + reg);
    EmittedThree(c0, code[..], pos, TestSelf(Dn(reg)), 0x45, 0x85, [0xc0 + 8 * reg + reg]);
  }

  lemma EmitsFlags(value: Num, n: Num)
    ensures Emits(Subq(value, n)) == [SubImm8(Dn(n), value)] && Emits(Tst(n)) == [TestSelf(Dn(n))]
  {
  }

  lemma DataRegisterMode(op: u16)
    ensures op % 0x40 < 8 <==> op / 8 % 8 == 0
    ensures op % 0x40 < 8 ==> op % 0x40 == op % 8
  {
  }

  method Subq32(img: Image, op: u16, inpos0: int, code: array<byte>, pos: nat) returns (ok: bool, inpos: int, next: nat)
    requires Room(HandlerDecode(HSubq, img, op, inpos0 - 2), code.Length, pos)
    modifies code
    ensures Handled(HandlerDecode(HSubq, img, op, inpos0 - 2), old(code[..]), code[..], pos, ok, inpos, next)
  {
    hide EncAll, Patch, Emitted, Emits, WordAt;
    DataRegisterMode(op);
    ok, inpos, next := true, inpos0, pos;
    var value: byte := op / 0x200 % 8;
    if op / 0x40 % 4 != 2 {
      return false, inpos, next;
    }
    var operand;
    operand, inpos := ExtractOperand(img, op % 0x40, inpos0);
    if !operand.DReg? {
      return false, inpos, next;
    }
    Sizes(Subq(value, operand.n));
    EmitsFlags(value, operand.n);
    next := EmitSubq(code, pos, operand.n, value);
  }

  method Tst32(img: Image, op: u16, inpos0: int, code: array<byte>, pos: nat) returns (ok: bool, inpos: int, next: nat)
    requires Room(HandlerDecode(HTst, img, op, inpos0 - 2), code.Length, pos)
    modifies code
    ensures Handled(HandlerDecode(HTst, img, op, inpos0 - 2), old(code[..]), code[..], pos, ok, inpos, next)
  {
    hide EncAll, Patch, Emitted, Emits, WordAt;
    DataRegisterMode(op);
    ok, inpos, next := true, inpos0, pos;
    if op / 0x40 % 4 != 2 {
      return false, inpos, next;
    }
    var operand;
    operand, inpos := ExtractOperand(img, op % 0x40, inpos0);
    if !operand.DReg? {
      return false, inpos, next;
    }
    Sizes(Tst(operand.n));
    EmitsFlags(0, operand.n);
    next := EmitTst(code, pos, operand.n);
  }
}
