/** The emitters of codegen.c, which store bytes behind a moving cursor. */
module Emit {
  import opened Base
  import opened X86
  import opened Cpu
  import opened CodeGen

  const OPCODE_MOV_REG_REG: byte := 0x89
  const OPCODE_MOV_IMM_REG: byte := 0xb8
  const OPCODE_AND_IMM8: byte := 0x83
  const OPCODE_CALL_ABS64: byte := 0xff
  const OPCODE_PUSH_REG: byte := 0x50
  const OPCODE_POP_REG: byte := 0x58
  const OPCODE_PUSHFQ: byte := 0x9c
  const OPCODE_POPFQ: byte := 0x9d
  const PREFIX_REXB: bv8 := 0x41
  const PREFIX_REXR: bv8 := 0x44
  const PREFIX_REXW: bv8 := 0x48

  // Buffer c1 is c0 with the instructions xs written from pos up to next.
  predicate Emitted(c0: seq<byte>, c1: seq<byte>, pos: nat, next: nat, xs: seq<Instr>) {
    next == pos + |EncAll(xs)| <= |c0| && c1 == Patch(c0, pos, EncAll(xs))
  }

  lemma EmittedNothing(c: seq<byte>, pos: nat)
    requires pos <= |c|
    ensures Emitted(c, c, pos, pos, [])
  {
    assert c == Patch(c, pos, []);
  }

  lemma EmittedThen(c0: seq<byte>, c1: seq<byte>, c2: seq<byte>, p0: nat, p1: nat, p2: nat,
                    xs: seq<Instr>, ys: seq<Instr>, zs: seq<Instr>)
    requires Emitted(c0, c1, p0, p1, xs) && Emitted(c1, c2, p1, p2, ys) && zs == xs + ys
    ensures Emitted(c0, c2, p0, p2, zs)
  {
    hide EncAll, Patch;
    EncAllAppend(xs, ys);
    PatchPatch(c0, p0, EncAll(xs), EncAll(ys));
  }

  lemma EmittedOne(c0: seq<byte>, c1: seq<byte>, pos: nat, i: Instr)
    requires pos + |Enc(i)| <= |c0| && c1 == Patch(c0, pos, Enc(i))
    ensures Emitted(c0, c1, pos, pos + |Enc(i)|, [i])
  {
    hide Enc, Patch;
    EncAllOne(i);
  }

  // ------------------------------------------------------------ raw writes

  method WriteByte(code: array<byte>, pos: nat, val: byte) returns (next: nat)
    requires pos + 1 <= code.Length
    modifies code
    ensures next == pos + 1 && code[..] == Patch(old(code[..]), pos, [val])
  {
    code[pos] := val;
    next := pos + 1;
  }

  method WriteDword(code: array<byte>, pos: nat, val: u32) returns (next: nat)
    requires pos + 4 <= code.Length
    modifies code
    ensures next == pos + 4 && code[..] == Patch(old(code[..]), pos, LE32(val))
  {
    code[pos], code[pos + 1] := val % 0x100, val / 0x100 % 0x100;
    code[pos + 2], code[pos + 3] := val / 0x1_0000 % 0x100, val / 0x100_0000;
    next := pos + 4;
  }

  method WriteQword(code: array<byte>, pos: nat, val: u64) returns (next: nat)
    requires pos + 8 <= code.Length
    modifies code
    ensures next == pos + 8 && code[..] == Patch(old(code[..]), pos, LE64(val))
  {
    hide LE32;
    ghost var c0 := code[..];
    next := WriteDword(code, pos, val % TWO32);
    next := WriteDword(code, next, val / TWO32 % TWO32);
    PatchPatch(c0, pos, LE32(val % TWO32), LE32(val / TWO32 % TWO32));
  }

  // -------------------------------------------------------- single emitters

  function MoveReg(src: RegNum, dst: RegNum, mode: int): Instr {
    if mode == MODE_64 then MovReg64(Hw(src), Hw(dst)) else MovReg32(Hw(src), Hw(dst))
  }

  method EmitMoveRegToReg(code: array<byte>, pos: nat, src: RegNum, dst: RegNum, mode: int) returns (next: nat)
    requires pos + 3 <= code.Length
    modifies code
    ensures next <= pos + 3 && Emitted(old(code[..]), code[..], pos, next, [MoveReg(src, dst, mode)])
  {
    hide Patch, EncAll, Emitted;
    ghost var c0 := code[..];
    var prefix: bv8 := 0;
    var s: int, d: int := src, dst;
    if mode == MODE_64 {
      prefix := prefix | PREFIX_REXW;
    }
    if s < 8 {
      prefix := prefix | PREFIX_REXR;
    } else {
      s := s - 8;
    }
    if d < 8 {
      prefix := prefix | PREFIX_REXB;
    } else {
      d := d - 8;
    }
    ghost var i := MoveReg(src, dst, mode);
    assert (if prefix != 0 then [prefix as byte] else []) == Rex(RexOf(i));
    next := EmitPrefix(code, pos, prefix, RexOf(i));
    next := WriteByte(code, next, OPCODE_MOV_REG_REG);
    next := WriteByte(code, next, 0xc0 + 8 * s + d);   // the or-ed bit fields do not overlap
    assert [OPCODE_MOV_REG_REG] + [0xc0 + 8 * s + d] == Body(i);
    EmittedParts(c0, code[..], pos, i, [OPCODE_MOV_REG_REG], [0xc0 + 8 * s + d]);
  }

  // Write the prefix byte, if there is one to write.
  method EmitPrefix(code: array<byte>, pos: nat, prefix: bv8, ghost x: RexBits) returns (next: nat)
    requires (if prefix != 0 then [prefix as byte] else []) == Rex(x)
    requires pos + |Rex(x)| <= code.Length
    modifies code
    ensures next == pos + |Rex(x)| && code[..] == Patch(old(code[..]), pos, Rex(x))
  {
    next := pos;
    if prefix != 0 {
      next := WriteByte(code, pos, prefix as byte);
    }
  }

  lemma EmittedParts(c0: seq<byte>, c1: seq<byte>, pos: nat, i: Instr, a: seq<byte>, b: seq<byte>)
    requires a + b == Body(i)
    requires pos + |Enc(i)| <= |c0|
    requires c1 == Patch(Patch(Patch(c0, pos, Rex(RexOf(i))), pos + |Rex(RexOf(i))|, a), pos + |Rex(RexOf(i))| + |a|, b)
    ensures Emitted(c0, c1, pos, pos + |Enc(i)|, [i])
  {
    hide Patch, Body, RexOf, Rex;
    var x := Rex(RexOf(i));
    PatchPatch(c0, pos, x, a);
    PatchPatch(c0, pos, x + a, b);
    assert x + (a + b) == (x + a) + b;
    EmittedOne(c0, c1, pos, i);
  }

  function MoveImm(value: u64, reg: RegNum, mode: int): Instr {
    if mode == MODE_64 then MovImm64(Hw(reg), value) else MovImm32(Hw(reg), Low32(value))
  }

  // What is emitted: the prefix carries the bit R for R8..R15 where the encoding calls for B.
  function MoveImmBytes(value: u64, reg: RegNum, mode: int): (b: seq<byte>)
    ensures 1 <= |b| <= 10
  {
    Rex(RexBits(mode == MODE_64, reg < 8, false)) + Body(MoveImm(value, reg, mode))
  }

  method EmitMoveImmToReg(code: array<byte>, pos: nat, value: u64, reg: RegNum, mode: int) returns (next: nat)
    requires pos + 10 <= code.Length
    modifies code
    ensures next == pos + |MoveImmBytes(value, reg, mode)|
    ensures code[..] == Patch(old(code[..]), pos, MoveImmBytes(value, reg, mode))
    ensures next <= pos + 10
    ensures reg >= 8 ==> Emitted(old(code[..]), code[..], pos, next, [MoveImm(value, reg, mode)])
  {
    hide Patch, EncAll, Emitted, LE32, LE64;
    ghost var c0 := code[..];
    var prefix: bv8 := 0;
    var r: int := reg;
    if mode == MODE_64 {
      prefix := prefix | PREFIX_REXW;
    }
    if r < 8 {
      prefix := prefix | PREFIX_REXR;
    } else {
      r := r - 8;
    }
    ghost var x := RexBits(mode == MODE_64, reg < 8, false);
    assert (if prefix != 0 then [prefix as byte] else []) == Rex(x);
    next := EmitPrefix(code, pos, prefix, x);
    next := WriteByte(code, next, OPCODE_MOV_IMM_REG + r);
    if mode == MODE_64 {
      next := WriteQword(code, next, value);
    } else {
      next := WriteDword(code, next, Low32(value));
    }
    ghost var imm := if mode == MODE_64 then LE64(value) else LE32(Low32(value));
    PatchPatch(c0, pos, Rex(x), [OPCODE_MOV_IMM_REG + r]);
    PatchPatch(c0, pos, Rex(x) + [OPCODE_MOV_IMM_REG + r], imm);
    assert Rex(x) + [OPCODE_MOV_IMM_REG + r] + imm == MoveImmBytes(value, reg, mode);
    if reg >= 8 {
      EmittedOne(c0, code[..], pos, MoveImm(value, reg, mode));
    }
  }

  // The emitted bytes load the register asked for exactly when it is not one of R8..R15.
  lemma MoveImmLoads(value: u64, reg: RegNum, mode: int, rest: seq<byte>)
    ensures Decode(MoveImmBytes(value, reg, mode) + rest)
              == Some(Decoded(MoveImm(value, reg, mode), |MoveImmBytes(value, reg, mode)|))
            <==> reg >= 8
  {
    hide LE32, LE64, Decode;
    var b := MoveImmBytes(value, reg, mode) + rest;
    if reg >= 8 {
      DecodeEnc(MoveImm(value, reg, mode), b);
    } else {
      MoveImmWrong(value, reg, mode, rest);
    }
  }

  // For R8..R15 they load one of RAX..RDI instead.
  lemma MoveImmWrong(value: u64, reg: RegNum, mode: int, rest: seq<byte>)
    requires reg < 8
    ensures Decode(MoveImmBytes(value, reg, mode) + rest)
            == Some(Decoded(MoveImm(value, reg + 8, mode), |MoveImmBytes(value, reg, mode)|))
  {
    hide LE32, LE64, DecodeOpcode;
    var b, wrong := MoveImmBytes(value, reg, mode) + rest, MoveImm(value, reg + 8, mode);
    assert b[0] == RexByte(RexBits(mode == MODE_64, true, false));
    assert b[1..] == Body(wrong) + rest;
    MoveImmIgnoresR(wrong, b[1..], mode == MODE_64);
  }

  lemma MoveImmIgnoresR(i: Instr, t: seq<byte>, w: bool)
    requires if w then i.MovImm64? else i.MovImm32?
    requires i.dst < 8
    requires Body(i) <= t
    ensures DecodeOpcode(t, RexBits(w, true, false)) == Some(Decoded(i, |Body(i)|))
  {
    hide DecodeModRM, DecodePlain, U32At, U64At;
    DecodeImm(i, t);
    assert t[0] == Body(i)[0];
  }

  method EmitPushReg(code: array<byte>, pos: nat, reg: RegNum) returns (next: nat)
    requires pos + 2 <= code.Length
    modifies code
    ensures next <= pos + 2 && Emitted(old(code[..]), code[..], pos, next, [Push(Hw(reg))])
  {
    hide Patch, EncAll, Emitted;
    ghost var c0 := code[..];
    var prefix: bv8 := 0;
    var r: int := reg;
    if r < 8 {
      prefix := PREFIX_REXB;
    } else {
      r := r - 8;
    }
    ghost var i := Push(Hw(reg));
    assert (if prefix != 0 then [prefix as byte] else []) == Rex(RexOf(i));
    next := EmitPrefix(code, pos, prefix, RexOf(i));
    next := WriteByte(code, next, OPCODE_PUSH_REG + r);
    PatchPatch(c0, pos, Rex(RexOf(i)), Body(i));
    EmittedOne(c0, code[..], pos, i);
  }

  method EmitPopReg(code: array<byte>, pos: nat, reg: RegNum) returns (next: nat)
    requires pos + 2 <= code.Length
    modifies code
    ensures next <= pos + 2 && Emitted(old(code[..]), code[..], pos, next, [Pop(Hw(reg))])
  {
    hide Patch, EncAll, Emitted;
    ghost var c0 := code[..];
    var prefix: bv8 := 0;
    var r: int := reg;
    if r < 8 {
      prefix := PREFIX_REXB;
    } else {
      r := r - 8;
    }
    ghost var i := Pop(Hw(reg));
    assert (if prefix != 0 then [prefix as byte] else []) == Rex(RexOf(i));
    next := EmitPrefix(code, pos, prefix, RexOf(i));
    next := WriteByte(code, next, OPCODE_POP_REG + r);
    PatchPatch(c0, pos, Rex(RexOf(i)), Body(i));
    EmittedOne(c0, code[..], pos, i);
  }

  // ------------------------------------------------------------- sequences

  // Bytes written one by one
  lemma EmittedTwoBytes(c0: seq<byte>, c1: seq<byte>, pos: nat, i: Instr, a: byte, b: byte)
    requires Enc(i) == [a, b] && pos + 2 <= |c0|
    requires c1 == Patch(Patch(c0, pos, [a]), pos + 1, [b])
    ensures Emitted(c0, c1, pos, pos + 2, [i])
  {
    hide Patch, Enc;
    PatchPatch(c0, pos, [a], [b]);
    assert [a] + [b] == [a, b];
    EmittedOne(c0, c1, pos, i);
  }

  lemma EmittedFourBytes(c0: seq<byte>, c1: seq<byte>, pos: nat, i: Instr, a: byte, b: byte, c: byte, d: byte)
    requires Enc(i) == [a, b, c, d] && pos + 4 <= |c0|
    requires c1 == Patch(Patch(Patch(Patch(c0, pos, [a]), pos + 1, [b]), pos + 2, [c]), pos + 3, [d])
    ensures Emitted(c0, c1, pos, pos + 4, [i])
  {
    hide Patch, Enc;
    PatchPatch(c0, pos, [a], [b]);
    PatchPatch(c0, pos, [a] + [b], [c]);
    PatchPatch(c0, pos, [a] + [b] + [c], [d]);
    assert [a] + [b] + [c] + [d] == [a, b, c, d];
    EmittedOne(c0, c1, pos, i);
  }

  method EmitAbsCallToFunc(code: array<byte>, pos: nat, func: u64) returns (next: nat)
    requires pos + 26 <= code.Length
    modifies code
    ensures Emitted(old(code[..]), code[..], pos, next, AbsCall(func)) && next <= pos + 26
  {
    hide Patch, EncAll, Emitted;
    ghost var c0 := code[..];
    next := EmitPushReg(code, pos, REG_EBP);
    ghost var c1, p1 := code[..], next;
    next := EmitMoveRegToReg(code, next, REG_ESP, REG_EBP, MODE_64);
    EmittedThen(c0, c1, code[..], pos, p1, next, [Push(RBP)], [MovReg64(RSP, RBP)],
                [Push(RBP), MovReg64(RSP, RBP)]);
    ghost var c2, p2 := code[..], next;
    // and rsp, -16
    next := WriteByte(code, next, 0x48);
    next := WriteByte(code, next, OPCODE_AND_IMM8);
    next := WriteByte(code, next, 0xe4);
    next := WriteByte(code, next, 0xf0);
    EmittedFourBytes(c2, code[..], p2, AndMinus16(RSP), 0x48, OPCODE_AND_IMM8, 0xe4, 0xf0);
    ghost var c3, p3 := code[..], next;
    next := EmitMoveImmToReg(code, next, func, REG_EAX, MODE_64);
    EmittedThen(c2, c3, code[..], p2, p3, next, [AndMinus16(RSP)], [MovImm64(RAX, func)],
                [AndMinus16(RSP), MovImm64(RAX, func)]);
    EmittedThen(c0, c2, code[..], pos, p2, next, [Push(RBP), MovReg64(RSP, RBP)],
                [AndMinus16(RSP), MovImm64(RAX, func)], AbsCallEnter(func));
    ghost var c4, p4 := code[..], next;
    next := WriteByte(code, next, OPCODE_CALL_ABS64);
    next := WriteByte(code, next, 0xd0);
    EmittedTwoBytes(c4, code[..], p4, CallReg(RAX), OPCODE_CALL_ABS64, 0xd0);
    EmittedThen(c0, c4, code[..], pos, p4, next, AbsCallEnter(func), [CallReg(RAX)],
                AbsCallEnter(func) + [CallReg(RAX)]);
    ghost var c5, p5 := code[..], next;
    next := EmitMoveRegToReg(code, next, REG_EBP, REG_ESP, MODE_64);
    ghost var c6, p6 := code[..], next;
    next := EmitPopReg(code, next, REG_EBP);
    EmittedThen(c5, c6, code[..], p5, p6, next, [MovReg64(RBP, RSP)], [Pop(RBP)], ABS_CALL_LEAVE);
    EmittedThen(c0, c5, code[..], pos, p5, next, AbsCallEnter(func) + [CallReg(RAX)], ABS_CALL_LEAVE,
                AbsCall(func));
  }

  lemma {:induction false} PushesAppend(a: seq<Reg>, b: seq<Reg>)
    ensures Pushes(a + b) == Pushes(a) + Pushes(b)
    ensures Pops(a + b) == Pops(b) + Pops(a)
  {
    hide Pushes, Pops;
    PushesCons(a);
    if a == [] {
      assert a + b == b;
    } else {
      PushesAppend(a[1..], b);
      PushesCons(a + b);
      assert (a + b)[1..] == a[1..] + b;
      var p, q, r, s := Pushes(a[1..]), Pops(a[1..]), Pushes(b), Pops(b);
      assert [Push(a[0])] + (p + r) == ([Push(a[0])] + p) + r;
      assert (s + q) + [Pop(a[0])] == s + (q + [Pop(a[0])]);
    }
  }

  lemma PushesCons(rs: seq<Reg>)
    ensures Pushes(rs) == if rs == [] then [] else [Push(rs[0])] + Pushes(rs[1..])
    ensures Pops(rs) == if rs == [] then [] else Pops(rs[1..]) + [Pop(rs[0])]
  {
  }

  lemma PushesOne(r: Reg)
    ensures Pushes([r]) == [Push(r)] && Pops([r]) == [Pop(r)]
  {
    assert [r][1..] == [];
  }

  method EmitSaveAmigaosRegisters(code: array<byte>, pos: nat) returns (next: nat)
    requires pos + 10 <= code.Length
    modifies code
    ensures next <= pos + 10 && Emitted(old(code[..]), code[..], pos, next, Pushes(SAVED_BY_CALLEE))
  {
    hide Patch, EncAll, Emitted;
    ghost var c0 := code[..];
    next := pos;
    EmittedNothing(c0, pos);
    for i := 0 to |AMIGAOS_REGS_TO_PRESERVE|
      invariant next <= pos + 2 * i
      invariant Emitted(c0, code[..], pos, next, Pushes(SAVED_BY_CALLEE[..i]))
    {
      ghost var c, p := code[..], next;
      next := EmitPushReg(code, next, X86_REG_FOR_M68K_REG[AMIGAOS_REGS_TO_PRESERVE[i]]);
      ghost var r := SAVED_BY_CALLEE[i];
      PushesAppend(SAVED_BY_CALLEE[..i], [r]);
      PushesOne(r);
      assert SAVED_BY_CALLEE[..i + 1] == SAVED_BY_CALLEE[..i] + [r];
      EmittedThen(c0, c, code[..], pos, p, next, Pushes(SAVED_BY_CALLEE[..i]), [Push(r)],
                  Pushes(SAVED_BY_CALLEE[..i + 1]));
    }
    assert SAVED_BY_CALLEE[..5] == SAVED_BY_CALLEE;
  }

  method EmitRestoreAmigaosRegisters(code: array<byte>, pos: nat) returns (next: nat)
    requires pos + 10 <= code.Length
    modifies code
    ensures next <= pos + 10 && Emitted(old(code[..]), code[..], pos, next, Pops(SAVED_BY_CALLEE))
  {
    hide Patch, EncAll, Emitted;
    ghost var c0 := code[..];
    next := pos;
    EmittedNothing(c0, pos);
    var i := |AMIGAOS_REGS_TO_PRESERVE| - 1;
    while i >= 0
      invariant -1 <= i < 5
      invariant next <= pos + 2 * (4 - i)
      invariant Emitted(c0, code[..], pos, next, Pops(SAVED_BY_CALLEE[i + 1..]))
    {
      ghost var c, p := code[..], next;
      next := EmitPopReg(code, next, X86_REG_FOR_M68K_REG[AMIGAOS_REGS_TO_PRESERVE[i]]);
      ghost var r := SAVED_BY_CALLEE[i];
      assert SAVED_BY_CALLEE[i..][1..] == SAVED_BY_CALLEE[i + 1..];
      EmittedThen(c0, c, code[..], pos, p, next, Pops(SAVED_BY_CALLEE[i + 1..]), [Pop(r)], Pops(SAVED_BY_CALLEE[i..]));
      i := i - 1;
    }
  }

  method EmitSaveProgramState(code: array<byte>, pos: nat) returns (next: nat)
    requires pos + 19 <= code.Length
    modifies code
    ensures next <= pos + 19 && Emitted(old(code[..]), code[..], pos, next, Pushes(SAVED_STATE) + [Pushfq])
  {
    hide Patch, EncAll, Emitted;
    ghost var c0 := code[..];
    next := EmitSaveAmigaosRegisters(code, pos);
    ghost var c1, p1 := code[..], next;
    next := EmitPushReg(code, next, X86_REG_FOR_M68K_REG[D0]);
    ghost var c2, p2 := code[..], next;
    next := EmitPushReg(code, next, X86_REG_FOR_M68K_REG[D1]);
    EmittedThen(c1, c2, code[..], p1, p2, next, [Push(R8)], [Push(R9)], [Push(R8), Push(R9)]);
    ghost var c3, p3 := code[..], next;
    next := EmitPushReg(code, next, X86_REG_FOR_M68K_REG[A0]);
    ghost var c4, p4 := code[..], next;
    next := EmitPushReg(code, next, X86_REG_FOR_M68K_REG[A1]);
    EmittedThen(c3, c4, code[..], p3, p4, next, [Push(RAX)], [Push(RCX)], [Push(RAX), Push(RCX)]);
    var xs := [Push(R8), Push(R9), Push(RAX), Push(RCX)];
    EmittedThen(c1, c3, code[..], p1, p3, next, [Push(R8), Push(R9)], [Push(RAX), Push(RCX)], xs);
    ghost var c5, p5 := code[..], next;
    next := WriteByte(code, next, OPCODE_PUSHFQ);
    assert Enc(Pushfq) == [OPCODE_PUSHFQ];
    EmittedOne(c5, code[..], p5, Pushfq);
    SavedStateSplit();
    EmittedThen(c1, c5, code[..], p1, p5, next, xs, [Pushfq], xs + [Pushfq]);
    EmittedThen(c0, c1, code[..], pos, p1, next, Pushes(SAVED_BY_CALLEE), xs + [Pushfq], Pushes(SAVED_STATE)
        + [Pushfq]);
  }

  lemma SavedStateSplit()
    ensures Pushes(SAVED_STATE) == Pushes(SAVED_BY_CALLEE) + [Push(R8), Push(R9), Push(RAX), Push(RCX)]
    ensures Pops(SAVED_STATE) == [Pop(RCX), Pop(RAX), Pop(R9), Pop(R8)] + Pops(SAVED_BY_CALLEE)
  {
    var rs := [R8, R9, RAX, RCX];
    assert SAVED_STATE == SAVED_BY_CALLEE + rs;
    PushesAppend(SAVED_BY_CALLEE, rs);
    assert rs == [R8, R9] + [RAX, RCX];
    PushesAppend([R8, R9], [RAX, RCX]);
    PushesTwo(R8, R9);
    PushesTwo(RAX, RCX);
  }

  lemma PushesTwo(a: Reg, b: Reg)
    ensures Pushes([a, b]) == [Push(a), Push(b)] && Pops([a, b]) == [Pop(b), Pop(a)]
  {
    assert [a, b][1..] == [b];
    PushesOne(b);
  }

  method EmitRestoreProgramState(code: array<byte>, pos: nat) returns (next: nat)
    requires pos + 19 <= code.Length
    modifies code
    ensures next <= pos + 19 && Emitted(old(code[..]), code[..], pos, next, [Popfq] + Pops(SAVED_STATE))
  {
    hide Patch, EncAll, Emitted;
    ghost var c0 := code[..];
    next := WriteByte(code, pos, OPCODE_POPFQ);
    assert Enc(Popfq) == [OPCODE_POPFQ];
    EmittedOne(c0, code[..], pos, Popfq);
    ghost var c1, p1 := code[..], next;
    next := EmitPopReg(code, next, X86_REG_FOR_M68K_REG[A1]);
    ghost var c2, p2 := code[..], next;
    next := EmitPopReg(code, next, X86_REG_FOR_M68K_REG[A0]);
    EmittedThen(c1, c2, code[..], p1, p2, next, [Pop(RCX)], [Pop(RAX)], [Pop(RCX), Pop(RAX)]);
    ghost var c3, p3 := code[..], next;
    next := EmitPopReg(code, next, X86_REG_FOR_M68K_REG[D1]);
    ghost var c4, p4 := code[..], next;
    next := EmitPopReg(code, next, X86_REG_FOR_M68K_REG[D0]);
    EmittedThen(c3, c4, code[..], p3, p4, next, [Pop(R9)], [Pop(R8)], [Pop(R9), Pop(R8)]);
    var xs := [Pop(RCX), Pop(RAX), Pop(R9), Pop(R8)];
    EmittedThen(c1, c3, code[..], p1, p3, next, [Pop(RCX), Pop(RAX)], [Pop(R9), Pop(R8)], xs);
    EmittedThen(c0, c1, code[..], pos, p1, next, [Popfq], xs, [Popfq] + xs);
    ghost var c5, p5 := code[..], next;
    next := EmitRestoreAmigaosRegisters(code, next);
    SavedStateSplit();
    EmittedThen(c0, c5, code[..], pos, p5, next, [Popfq] + xs, Pops(SAVED_BY_CALLEE), [Popfq] + Pops(SAVED_STATE));
  }

  // The call sequence around any C function that leaves no trace in the guest's state
  method EmitTransparentCall(code: array<byte>, pos: nat, func: u64, arg: u64) returns (next: nat)
    requires pos + 74 <= code.Length
    modifies code
    ensures next <= pos + 74 && Emitted(old(code[..]), code[..], pos, next, TransparentCall(func, arg))
  {
    hide Patch, EncAll, Emitted, AbsCall, Pops, Pushes;
    ghost var c0 := code[..];
    next := EmitSaveProgramState(code, pos);
    ghost var c1, p1 := code[..], next;
    next := EmitMoveImmToReg(code, next, arg, REG_EDI, MODE_64);
    var a, b := Pushes(SAVED_STATE) + [Pushfq, MovImm64(RDI, arg)], AbsCall(func) + ([Popfq] + Pops(SAVED_STATE));
    EmittedThen(c0, c1, code[..], pos, p1, next, Pushes(SAVED_STATE) + [Pushfq], [MovImm64(RDI, arg)], a);
    ghost var c2, p2 := code[..], next;
    next := EmitAbsCallToFunc(code, next, func);
    ghost var c3, p3 := code[..], next;
    next := EmitRestoreProgramState(code, next);
    EmittedThen(c2, c3, code[..], p2, p3, next, AbsCall(func), [Popfq] + Pops(SAVED_STATE), b);
    EmittedThen(c0, c2, code[..], pos, p2, next, a, b, TransparentCall(func, arg));
  }
}
