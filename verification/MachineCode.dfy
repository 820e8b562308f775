/** The bytes of the machine code, written down as Intel's and AMD's manuals give them, and what the
    encoders and the translation produce measured against them. */
module MachineCode {
  import opened Base
  import opened X86
  import opened CodeGen
  import opened Emit
  import opened M68k
  import opened Translation
  import opened Thunk

  // 32-bit numbers, low byte first
  function D(v: u32): (b: seq<byte>)
    ensures |b| == 4
  {
    [v % 0x100, v / 0x100 % 0x100, v / 0x1_0000 % 0x100, v / 0x100_0000]
  }

  // 64-bit numbers, low byte first
  function Q(v: u64): (b: seq<byte>)
    ensures |b| == 8
  {
    D(v % 0x1_0000_0000) + D(v / 0x1_0000_0000)
  }

  // Prefix, when the second operand of the MOD-REG-R/M byte, or the register in the opcode, is R8
  // to R15; when its first operand is; when either of them may be
  function B(r: Reg): seq<byte> { if r < 8 then [] else [0x41] }

  function R(r: Reg): seq<byte> { if r < 8 then [] else [0x44] }

  function RB(r: Reg, b: Reg): seq<byte> {
    if r < 8 then B(b) else if b < 8 then [0x44] else [0x45]
  }

  function Code(i: Instr): seq<byte> {
    match i
    case MovLoad(dst, disp) => R(dst) + [0x8b, 0x04 + 8 * (dst % 8), 0x25] + D(disp)
    case MovStore(src, disp) => R(src) + [0x89, 0x04 + 8 * (src % 8), 0x25] + D(disp)
    case MovImm32(dst, imm) => B(dst) + [0xb8 + dst % 8] + D(imm)
    case MovImm64(dst, imm) => [if dst < 8 then 0x48 else 0x49, 0xb8 + dst % 8] + Q(imm)
    case MovReg32(src, dst) => RB(src, dst) + [0x89, 0xc0 + 8 * (src % 8) + dst % 8]
    case MovReg64(src, dst) =>
      [0x48 + (if src < 8 then 0 else 4) + (if dst < 8 then 0 else 1), 0x89, 0xc0 + 8 * (src % 8) + dst % 8]
    case SubImm8(dst, imm) => B(dst) + [0x83, 0xe8 + dst % 8, imm]
    case AddImm32(dst, imm) => B(dst) + [0x81, 0xc0 + dst % 8] + D(imm)
    case AndMinus16(dst) => [if dst < 8 then 0x48 else 0x49, 0x83, 0xe0 + dst % 8, 0xf0]
    case TestSelf(dst) => RB(dst, dst) + [0x85, 0xc0 + 9 * (dst % 8)]
    case Push(r) => B(r) + [0x50 + r % 8]
    case Pop(r) => B(r) + [0x58 + r % 8]
    case Pushfq => [0x9c]
    case Popfq => [0x9d]
    case CallReg(r) => B(r) + [0xff, 0xd0 + r % 8]
    case Ret => [0xc3]
    case Jcc(ifZero, rel) => [0x0f, if ifZero then 0x84 else 0x85] + D(rel)
    case Jmp32(rel) => [0xe9] + D(rel)
    case Jmp8(rel) => [0xeb, rel]
    case Nop => [0x90]
    case Int3 => [0xcc]
  }

  lemma LittleEndian(v: u32)
    ensures LE32(v) == D(v)
  {
  }

  lemma LittleEndian64(v: u64)
    ensures LE64(v) == Q(v)
  {
    hide LE32, D;
    LittleEndian(v % TWO32);
    LittleEndian(v / TWO32);
  }

  lemma MemoryForms(i: Instr)
    requires i.MovLoad? || i.MovStore?
    ensures Enc(i) == Code(i)
  {
    hide LE32, D;
    LittleEndian(i.disp);
  }

  lemma ImmediateForms(i: Instr)
    requires i.MovImm32? || i.MovImm64? || i.AddImm32?
    ensures Enc(i) == Code(i)
  {
    hide LE32, LE64, D, Q;
    match i
    case MovImm64(_, v) => LittleEndian64(v);
    case MovImm32(_, v) => LittleEndian(v);
    case AddImm32(_, v) => LittleEndian(v);
  }

  lemma JumpForms(i: Instr)
    requires i.Jcc? || i.Jmp32?
    ensures Enc(i) == Code(i)
  {
    hide LE32, D;
    LittleEndian(i.rel);
  }

  lemma RegisterForms(i: Instr)
    requires i.MovReg32? || i.MovReg64? || i.TestSelf?
    ensures Enc(i) == Code(i)
  {
  }

  lemma OneRegisterForms(i: Instr)
    requires i.SubImm8? || i.AndMinus16? || i.Push? || i.Pop? || i.CallReg?
    ensures Enc(i) == Code(i)
  {
  }

  // The encoder writes these bytes, for every instruction form, register and operand.
  lemma EncoderExact(i: Instr)
    ensures Enc(i) == Code(i)
  {
    if i.MovLoad? || i.MovStore? {
      MemoryForms(i);
    } else if i.MovImm32? || i.MovImm64? || i.AddImm32? {
      ImmediateForms(i);
    } else if i.Jcc? || i.Jmp32? {
      JumpForms(i);
    } else if i.MovReg32? || i.MovReg64? || i.TestSelf? {
      RegisterForms(i);
    } else if i.SubImm8? || i.AndMinus16? || i.Push? || i.Pop? || i.CallReg? {
      OneRegisterForms(i);
    }
  }

  // Where the 680x0's registers live: D0 to D7 in R8 to R15, A0 to A7 in RAX, RCX, RDX, RBX, RDI,
  // RBP, RSI and RSP, which the instruction encodings number 0, 1, 2, 3, 7, 5, 6 and 4.
  const REGISTERS: seq<Reg> := [8, 9, 10, 11, 12, 13, 14, 15, 0, 1, 2, 3, 7, 5, 6, 4]

  lemma RegisterMap(m: RegNum)
    ensures GuestReg(m) == REGISTERS[m]
    ensures RAX == 0 && RCX == 1 && RDX == 2 && RBX == 3 && RSP == 4 && RBP == 5 && RSI == 6 && RDI == 7
    ensures R8 == 8 && R9 == 9 && R10 == 10 && R11 == 11
  {
  }

  // --------------------------------------------------------- translations

  function Swapped(n: Num): Num { if n == 4 then 7 else if n == 7 then 4 else n }

  // Short addresses are zero-extended.
  function Disp(ea: Ea): u32 {
    match ea
    case AbsW(w) => w
    case AbsL(l) => l
  }

  // The machine code for each 680x0 instruction that does not end a unit
  function Translated(i: GInstr): seq<byte>
    requires !Terminal(i)
  {
    match i
    case MoveaMem(ea, n) => [0x8b, 0x04 + 8 * Swapped(n), 0x25] + D(if Disp(ea) == 4 then 0x30_0000 else Disp(ea))
    case MoveaImm(v, n) => [0xb8 + Swapped(n)] + D(v)
    case MoveqImm(data, n) =>
      var sign := if data < 0x80 then 0 else 0xff; [0x41, 0xb8 + n, data, sign, sign, sign]
    case MoveMem(ea, n) => [0x44, 0x8b, 0x04 + 8 * n, 0x25] + D(Disp(ea))
    case MoveImm(v, n) => [0x41, 0xb8 + n] + D(v)
    case MoveToMem(n, ea) => [0x44, 0x89, 0x04 + 8 * n, 0x25] + D(Disp(ea))
    case MoveReg(m, n) => [0x45, 0x89, 0xc0 + 8 * m + n]
    case Subq(field, n) => [0x41, 0x83, 0xe8 + n, field]
    case Tst(n) => [0x45, 0x85, 0xc0 + 9 * n]
    case JsrLib(disp) =>
      var sign := if disp < 0x8000 then 0 else 0xff;
      [0x56, 0x81, 0xc6, disp % 0x100, disp / 0x100, sign, sign, 0xff, 0xd6, 0x5e]
  }

  // The translation of every instruction consists of exactly these bytes.
  lemma TranslationExact(i: GInstr)
    requires !Terminal(i)
    ensures EncAll(Emits(i)) == Translated(i)
  {
    hide EncAll, Enc, D, Code;
    if i.JsrLib? {
      JsrExact(i.disp);
    } else {
      EncAllOne(Emits(i)[0]);
      EncoderExact(Emits(i)[0]);
      OneExact(i);
    }
  }

  lemma AddressRegisterExact(i: GInstr)
    requires i.MoveaMem? || i.MoveaImm?
    ensures Code(Emits(i)[0]) == Translated(i)
  {
    hide D, GuestReg;
    RegisterMap(8 + i.n);
  }

  lemma DnIs(n: Num)
    ensures Dn(n) == 8 + n && Dn(n) % 8 == n
  {
  }

  lemma MoveDataExact(i: GInstr)
    requires i.MoveMem? || i.MoveToMem? || i.MoveImm?
    ensures Code(Emits(i)[0]) == Translated(i)
  {
    hide D, Dn;
    DnIs(i.n);
    if i.MoveImm? {
      assert [0x41] + [0xb8 + i.n] + D(i.imm) == Translated(i);
    } else {
      var opcode := if i.MoveMem? then 0x8b else 0x89;
      assert [0x44] + [opcode, 0x04 + 8 * i.n, 0x25] + D(Disp(i.ea)) == Translated(i);
    }
  }

  lemma TestDataExact(i: GInstr)
    requires i.Subq? || i.Tst?
    ensures Code(Emits(i)[0]) == Translated(i)
  {
    hide Dn;
    DnIs(i.n);
  }

  lemma MoveqExact(i: GInstr)
    requires i.MoveqImm?
    ensures Code(Emits(i)[0]) == Translated(i)
  {
    hide D, Dn;
    DnIs(i.n);
    SignBytes(i.data);
  }

  lemma MoveRegExact(i: GInstr)
    requires i.MoveReg?
    ensures Code(Emits(i)[0]) == Translated(i)
  {
    hide Dn;
    DnIs(i.src);
    DnIs(i.n);
    assert [0x45] + [0x89, 0xc0 + 8 * i.src + i.n] == Translated(i);
  }

  lemma OneExact(i: GInstr)
    requires !Terminal(i) && !i.JsrLib?
    ensures Code(Emits(i)[0]) == Translated(i)
  {
    hide Code, Emits, Translated;
    if i.MoveaMem? || i.MoveaImm? {
      AddressRegisterExact(i);
    } else if i.MoveqImm? {
      MoveqExact(i);
    } else if i.MoveReg? {
      MoveRegExact(i);
    } else if i.Subq? || i.Tst? {
      TestDataExact(i);
    } else {
      MoveDataExact(i);
    }
  }

  lemma SignBytes(data: byte)
    ensures var sign := if data < 0x80 then 0 else 0xff; D(Low32(Signed8(data))) == [data, sign, sign, sign]
  {
    var v, hi := Low32(Signed8(data)), if data < 0x80 then 0 else 0xff_ffff;
    assert v == 0x100 * hi + data;
    assert v / 0x100 == hi && v / 0x1_0000 == hi / 0x100 && v / 0x100_0000 == hi / 0x1_0000;
  }

  lemma JsrExact(disp: u16)
    ensures EncAll(Emits(JsrLib(disp))) == Translated(JsrLib(disp))
  {
    hide EncAll, Enc, D;
    var imm := Low32(Signed16(disp));
    var a, b, c, d := Push(RSI), AddImm32(RSI, imm), CallReg(RSI), Pop(RSI);
    assert Emits(JsrLib(disp)) == [a] + ([b] + ([c] + [d]));
    FourCodes(a, b, c, d);
    SignWord(disp);
    var sign := if disp < 0x8000 then 0 else 0xff;
    assert Code(a) == [0x56] && Code(c) == [0xff, 0xd6] && Code(d) == [0x5e];
    assert Code(b) == [0x81, 0xc6, disp % 0x100, disp / 0x100, sign, sign];
  }

  lemma FourCodes(a: Instr, b: Instr, c: Instr, d: Instr)
    ensures EncAll([a] + ([b] + ([c] + [d]))) == Code(a) + (Code(b) + (Code(c) + Code(d)))
  {
    hide EncAll, Enc, Code;
    EncAllAppend([a], [b] + ([c] + [d]));
    EncAllAppend([b], [c] + [d]);
    EncAllAppend([c], [d]);
    OneCode(a);
    OneCode(b);
    OneCode(c);
    OneCode(d);
  }

  lemma OneCode(i: Instr)
    ensures EncAll([i]) == Code(i)
  {
    hide EncAll, Enc, Code;
    EncAllOne(i);
    EncoderExact(i);
  }

  lemma SignWord(disp: u16)
    ensures var sign := if disp < 0x8000 then 0 else 0xff;
            D(Low32(Signed16(disp))) == [disp % 0x100, disp / 0x100, sign, sign]
  {
    var v, hi := Low32(Signed16(disp)), if disp < 0x8000 then 0 else 0xffff;
    assert v == 0x1_0000 * hi + disp;
    assert v / 0x100 == 0x100 * hi + disp / 0x100 && v / 0x1_0000 == hi;
  }

  // --------------------------------------------------- stubs and thunks

  lemma TwoCodes(a: Instr, b: Instr)
    ensures EncAll([a, b]) == Code(a) + Code(b)
  {
    hide Code, EncAll, Enc;
    assert [a, b] == [a] + [b];
    EncAllAppend([a], [b]);
    OneCode(a);
    OneCode(b);
  }

  const SAVE_FIVE: seq<byte> := [0x41, 0x52, 0x41, 0x53, 0x52, 0x57, 0x56]       // push r10, r11, rdx, rdi, rsi
  const RESTORE_FIVE: seq<byte> := [0x5e, 0x5f, 0x5a, 0x41, 0x5b, 0x41, 0x5a]    // pop rsi, rdi, rdx, r11, r10
  const SAVE_FOUR: seq<byte> := [0x41, 0x50, 0x41, 0x51, 0x50, 0x51]             // push r8, r9, rax, rcx
  const RESTORE_FOUR: seq<byte> := [0x59, 0x58, 0x41, 0x59, 0x41, 0x58]          // pop rcx, rax, r9, r8

  // push rbp; mov rbp, rsp; and rsp, -16; mov rax, f; call rax; mov rsp, rbp; pop rbp
  function CallCode(f: u64): seq<byte> {
    [0x55, 0x48, 0x89, 0xe5, 0x48, 0x83, 0xe4, 0xf0] + ([0x48, 0xb8] + Q(f)) + [0xff, 0xd0, 0x48, 0x89, 0xec, 0x5d]
  }

  // pushfq, mov rdi, arg, the call and popfq between saves and restores
  function StubCode(f: u64, arg: u64): seq<byte> {
    SAVE_FIVE + SAVE_FOUR + ([0x9c, 0x48, 0xbf] + Q(arg)) + CallCode(f) + [0x9d] + RESTORE_FOUR + RESTORE_FIVE
  }

  lemma SavesTwo(a: Reg, b: Reg)
    ensures EncAll(Pushes([a, b])) == B(a) + [0x50 + a % 8] + (B(b) + [0x50 + b % 8])
    ensures EncAll(Pops([a, b])) == B(b) + [0x58 + b % 8] + (B(a) + [0x58 + a % 8])
  {
    hide EncAll, Pushes, Pops;
    PushesTwo(a, b);
    TwoCodes(Push(a), Push(b));
    TwoCodes(Pop(b), Pop(a));
  }

  lemma SavesAppend(a: seq<Reg>, b: seq<Reg>)
    ensures EncAll(Pushes(a + b)) == EncAll(Pushes(a)) + EncAll(Pushes(b))
    ensures EncAll(Pops(a + b)) == EncAll(Pops(b)) + EncAll(Pops(a))
  {
    hide EncAll, Pushes, Pops;
    PushesAppend(a, b);
    EncAllAppend(Pushes(a), Pushes(b));
    EncAllAppend(Pops(b), Pops(a));
  }

  lemma FiveSaved()
    ensures EncAll(Pushes(SAVED_BY_CALLEE)) == SAVE_FIVE && EncAll(Pops(SAVED_BY_CALLEE)) == RESTORE_FIVE
  {
    hide EncAll, Pushes, Pops;
    assert SAVED_BY_CALLEE == [R10, R11] + ([RDX, RDI] + [RSI]);
    SavesAppend([R10, R11], [RDX, RDI] + [RSI]);
    SavesAppend([RDX, RDI], [RSI]);
    SavesTwo(R10, R11);
    SavesTwo(RDX, RDI);
    PushesOne(RSI);
    OneCode(Push(RSI));
    OneCode(Pop(RSI));
  }

  lemma StateSaved()
    ensures EncAll(Pushes(SAVED_STATE)) == SAVE_FIVE + SAVE_FOUR
    ensures EncAll(Pops(SAVED_STATE)) == RESTORE_FOUR + RESTORE_FIVE
  {
    hide EncAll, Pushes, Pops;
    assert SAVED_STATE == SAVED_BY_CALLEE + ([R8, R9] + [RAX, RCX]);
    SavesAppend(SAVED_BY_CALLEE, [R8, R9] + [RAX, RCX]);
    SavesAppend([R8, R9], [RAX, RCX]);
    FiveSaved();
    SavesTwo(R8, R9);
    SavesTwo(RAX, RCX);
  }

  lemma CallExact(f: u64)
    ensures EncAll(AbsCall(f)) == CallCode(f)
  {
    hide EncAll, Q;
    var a, b, c, d := Push(RBP), MovReg64(RSP, RBP), AndMinus16(RSP), MovImm64(RAX, f);
    assert AbsCall(f) == ([a, b] + [c, d]) + ([CallReg(RAX)] + [MovReg64(RBP, RSP), Pop(RBP)]);
    EncAllAppend([a, b] + [c, d], [CallReg(RAX)] + [MovReg64(RBP, RSP), Pop(RBP)]);
    EncAllAppend([a, b], [c, d]);
    EncAllAppend([CallReg(RAX)], [MovReg64(RBP, RSP), Pop(RBP)]);
    TwoCodes(a, b);
    TwoCodes(c, d);
    OneCode(CallReg(RAX));
    TwoCodes(MovReg64(RBP, RSP), Pop(RBP));
    CallParts(f);
  }

  lemma CallParts(f: u64)
    ensures Code(Push(RBP)) == [0x55] && Code(MovReg64(RSP, RBP)) == [0x48, 0x89, 0xe5]
    ensures Code(AndMinus16(RSP)) == [0x48, 0x83, 0xe4, 0xf0] && Code(MovImm64(RAX, f)) == [0x48, 0xb8] + Q(f)
    ensures Code(CallReg(RAX)) == [0xff, 0xd0] && Code(MovReg64(RBP, RSP)) == [0x48, 0x89, 0xec]
    ensures Code(Pop(RBP)) == [0x5d]
  {
    hide Q;
  }

  // The stub's 62 bytes
  lemma StubExact(f: u64, arg: u64)
    ensures EncAll(TransparentCall(f, arg)) == StubCode(f, arg)
  {
    hide EncAll, Pushes, Pops, AbsCall, CallCode, Q;
    var a, b, c, d := Pushes(SAVED_STATE), [Pushfq, MovImm64(RDI, arg)], AbsCall(f), Pops(SAVED_STATE);
    assert TransparentCall(f, arg) == (a + b) + (c + ([Popfq] + d));
    EncAllAppend(a + b, c + ([Popfq] + d));
    EncAllAppend(a, b);
    EncAllAppend(c, [Popfq] + d);
    EncAllAppend([Popfq], d);
    StateSaved();
    TwoCodes(Pushfq, MovImm64(RDI, arg));
    CallExact(f);
    OneCode(Popfq);
  }

  // mov r32, r32 with source and destination
  function MoveCode(src: Reg, dst: Reg): seq<byte> { RB(src, dst) + [0x89, 0xc0 + 8 * (src % 8) + dst % 8] }

  // RDI, RSI, RDX, RCX, R8 and R9
  const PARAMETERS: seq<Reg> := [7, 6, 2, 1, 8, 9]

  // Character j of a string names the register of argument NumArgs - 1 - j.
  function ArgCode(a: string, j: nat): seq<byte>
    requires ArgRegsOk(a) && j < NumArgs(a)
  {
    MoveCode(REGISTERS[HexValue(a[j])], PARAMETERS[NumArgs(a) - 1 - j])
  }

  // The moves for the first n characters
  function ArgsCode(a: string, n: nat): seq<byte>
    requires ArgRegsOk(a) && n <= NumArgs(a)
  {
    if n == 0 then [] else ArgsCode(a, n - 1) + ArgCode(a, n - 1)
  }

  // mov from EAX to the register of the result, by the emitters' numbering
  function ResultCode(m: RegNum): seq<byte> {
    if m < 8 then [0x41, 0x89, 0xc0 + m] else [0x89, 0xc0 + (m - 8)]
  }

  function ThunkCode(log: u64, name: u64, func: u64, a: string): seq<byte>
    requires ArgRegsOk(a)
  {
    StubCode(log, name) + SAVE_FIVE + ArgsCode(a, NumArgs(a)) + CallCode(func) + ResultCode(ResultReg(a))
    + RESTORE_FIVE + [0xc3]
  }

  lemma ArgExact(a: string, j: nat)
    requires ArgRegsOk(a) && j < NumArgs(a)
    ensures EncAll([MovReg32(GuestReg(HexValue(a[j])), ParamReg(NumArgs(a) - 1 - j))]) == ArgCode(a, j)
  {
    hide EncAll, GuestReg, HexValue, NumArgs, ParamReg, RB, REGISTERS, PARAMETERS;
    OneCode(MovReg32(GuestReg(HexValue(a[j])), ParamReg(NumArgs(a) - 1 - j)));
    RegisterMap(HexValue(a[j]));
    ParamMap(NumArgs(a) - 1 - j);
  }

  lemma {:induction false} ArgsExact(a: string, n: nat)
    requires ArgRegsOk(a) && n <= NumArgs(a)
    ensures EncAll(MoveInstrs(ArgMoves(a, n))) == ArgsCode(a, n)
    decreases n
  {
    hide EncAll, GuestReg, HexValue, NumArgs, ParamReg, ArgCode;
    var ms := ArgMoves(a, n);
    if n == 0 {
      NoCode();
    } else {
      assert ms[..n - 1] == ArgMoves(a, n - 1);
      ArgsExact(a, n - 1);
      var m := MovReg32(ms[n - 1].src, ms[n - 1].dst);
      EncAllAppend(MoveInstrs(ms[..n - 1]), [m]);
      ArgExact(a, n - 1);
    }
  }

  lemma ParamMap(k: nat)
    requires k < 6
    ensures ParamReg(k) == PARAMETERS[k]
  {
  }

  lemma ResultExactCode(a: string)
    requires ArgRegsOk(a)
    ensures EncAll(FetchResult(a)) == ResultCode(ResultReg(a))
  {
    hide EncAll, ResultReg;
    OneCode(MovReg32(RAX, Hw(ResultReg(a))));
  }

  // The bytes of a whole thunk, for every argument string
  lemma ThunkExact(log: u64, name: u64, func: u64, a: string)
    requires ArgRegsOk(a)
    ensures EncAll(ThunkInstrs(log, name, func, a)) == ThunkCode(log, name, func, a)
  {
    hide EncAll, Pushes, Pops, AbsCall, CallCode, StubCode, ArgsCode, ResultCode, TransparentCall, FetchResult;
    hide MoveInstrs, ArgMoves;
    var p, q, r, t := TransparentCall(log, name), Pushes(SAVED_BY_CALLEE), CallArgs(a), AbsCall(func);
    var u, w := FetchResult(a), Pops(SAVED_BY_CALLEE);
    EncAllAppend(p + (q + (r + (t + (u + w)))), [Ret]);
    EncAllAppend(p, q + (r + (t + (u + w))));
    EncAllAppend(q, r + (t + (u + w)));
    EncAllAppend(r, t + (u + w));
    EncAllAppend(t, u + w);
    EncAllAppend(u, w);
    StubExact(log, name);
    FiveSaved();
    ArgsExact(a, NumArgs(a));
    CallExact(func);
    ResultExactCode(a);
    OneCode(Ret);
  }

  // mov edi, r9d for PutStr
  lemma PutStrCode()
    ensures ArgRegsOk("101") && ResultReg("101") == D0 && ArgsCode("101", NumArgs("101")) == [0x44, 0x89, 0xcf]
  {
    assert ArgsCode("101", 0) == [];
  }

  // mov edi, ecx for CloseLibrary
  lemma CloseLibraryCode()
    ensures ArgRegsOk("901") && ResultReg("901") == D0 && ArgsCode("901", NumArgs("901")) == [0x89, 0xcf]
  {
    assert ArgsCode("901", 0) == [];
  }

  // mov esi, r8d and mov edi, ecx for OpenLibrary
  lemma OpenLibraryCode()
    ensures ArgRegsOk("0902") && ResultReg("0902") == D0
    ensures ArgsCode("0902", NumArgs("0902")) == [0x44, 0x89, 0xc6, 0x89, 0xcf]
  {
    assert ArgsCode("0902", 0) == [];
    assert ArgsCode("0902", 1) == ArgCode("0902", 0) by {
      assert ArgsCode("0902", 0) + ArgCode("0902", 0) == ArgCode("0902", 0);
    }
    assert ArgCode("0902", 0) == [0x44, 0x89, 0xc6];
    assert ArgCode("0902", 1) == [0x89, 0xcf];
  }

  // mov r8d, eax
  lemma ResultInD0()
    ensures ResultCode(D0) == [0x41, 0x89, 0xc0]
  {
  }
}
