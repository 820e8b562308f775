/** The x86-64 instruction forms the emitters produce: encoding, decoding and execution. */
module X86 {
  import opened Base

  // Register numbers as in the instruction encodings
  type Reg = r: int | 0 <= r < 16

  const RAX: Reg := 0
  const RCX: Reg := 1
  const RDX: Reg := 2
  const RBX: Reg := 3
  const RSP: Reg := 4
  const RBP: Reg := 5
  const RSI: Reg := 6
  const RDI: Reg := 7
  const R8: Reg := 8
  const R9: Reg := 9
  const R10: Reg := 10
  const R11: Reg := 11

  // Of AND and TEST only the forms that occur: AND with the immediate -16, and TEST of a register
  // with itself.
  datatype Instr =
    | MovLoad(dst: Reg, disp: u32)
    | MovStore(src: Reg, disp: u32)
    | MovImm32(dst: Reg, imm: u32)
    | MovImm64(dst: Reg, imm64: u64)
    | MovReg32(src: Reg, dst: Reg)
    | MovReg64(src: Reg, dst: Reg)
    | SubImm8(dst: Reg, imm8: byte)
    | AddImm32(dst: Reg, imm: u32)
    | AndMinus16(dst: Reg)
    | TestSelf(dst: Reg)
    | Push(r: Reg)
    | Pop(r: Reg)
    | Pushfq
    | Popfq
    | CallReg(r: Reg)
    | Ret
    | Jcc(ifZero: bool, rel: u32)
    | Jmp32(rel: u32)
    | Jmp8(rel8: byte)
    | Nop
    | Int3

  // ---------------------------------------------------------------- encoding

  // The operand-size bit and the registers that the REX prefix of an instruction extends
  datatype RexBits = RexBits(w: bool, r: bool, b: bool)

  function RexOf(i: Instr): RexBits {
    match i
    case MovLoad(dst, _) => RexBits(false, dst >= 8, false)
    case MovStore(src, _) => RexBits(false, src >= 8, false)
    case MovImm32(dst, _) => RexBits(false, false, dst >= 8)
    case MovImm64(dst, _) => RexBits(true, false, dst >= 8)
    case MovReg32(src, dst) => RexBits(false, src >= 8, dst >= 8)
    case MovReg64(src, dst) => RexBits(true, src >= 8, dst >= 8)
    case SubImm8(dst, _) => RexBits(false, false, dst >= 8)
    case AddImm32(dst, _) => RexBits(false, false, dst >= 8)
    case AndMinus16(dst) => RexBits(true, false, dst >= 8)
    case TestSelf(dst) => RexBits(false, dst >= 8, dst >= 8)
    case Push(r) => RexBits(false, false, r >= 8)
    case Pop(r) => RexBits(false, false, r >= 8)
    case CallReg(r) => RexBits(false, false, r >= 8)
    case _ => RexBits(false, false, false)
  }

  function RexByte(x: RexBits): byte {
    0x40 + (if x.w then 8 else 0) + (if x.r then 4 else 0) + (if x.b then 1 else 0)
  }

  // REX prefix, left out when no bit of it is needed
  function Rex(x: RexBits): seq<byte> {
    if x.w || x.r || x.b then [RexByte(x)] else []
  }

  // MOD-REG-R/M byte for mode 11, that is, both operands are registers
  function RegReg(reg: Reg, rm: Reg): byte { 0xc0 + 8 * (reg % 8) + rm % 8 }

  // MOD-REG-R/M byte announcing a SIB byte, which in turn announces a displacement only
  function RegSib(reg: Reg): byte { 4 + 8 * (reg % 8) }

  // Opcode and operands, without the REX prefix
  function Body(i: Instr): (t: seq<byte>)
    ensures 1 <= |t| <= 9
  {
    match i
    case MovLoad(dst, disp) => [0x8b, RegSib(dst), 0x25] + LE32(disp)
    case MovStore(src, disp) => [0x89, RegSib(src), 0x25] + LE32(disp)
    case MovImm32(dst, imm) => [0xb8 + dst % 8] + LE32(imm)
    case MovImm64(dst, imm) => [0xb8 + dst % 8] + LE64(imm)
    case MovReg32(src, dst) => [0x89, RegReg(src, dst)]
    case MovReg64(src, dst) => [0x89, RegReg(src, dst)]
    case SubImm8(dst, imm) => [0x83, RegReg(5, dst), imm]
    case AddImm32(dst, imm) => [0x81, RegReg(0, dst)] + LE32(imm)
    case AndMinus16(dst) => [0x83, RegReg(4, dst), 0xf0]
    case TestSelf(dst) => [0x85, RegReg(dst, dst)]
    case Push(r) => [0x50 + r % 8]
    case Pop(r) => [0x58 + r % 8]
    case Pushfq => [0x9c]
    case Popfq => [0x9d]
    case CallReg(r) => [0xff, RegReg(2, r)]
    case Ret => [0xc3]
    case Jcc(ifZero, rel) => [0x0f, if ifZero then 0x84 else 0x85] + LE32(rel)
    case Jmp32(rel) => [0xe9] + LE32(rel)
    case Jmp8(rel) => [0xeb, rel]
    case Nop => [0x90]
    case Int3 => [0xcc]
  }

  function Enc(i: Instr): (e: seq<byte>)
    ensures 1 <= |e| <= 10
  {
    Rex(RexOf(i)) + Body(i)
  }

  function EncAll(xs: seq<Instr>): seq<byte> {
    if xs == [] then [] else Enc(xs[0]) + EncAll(xs[1..])
  }

  lemma {:induction false} EncAllAppend(a: seq<Instr>, b: seq<Instr>)
    ensures EncAll(a + b) == EncAll(a) + EncAll(b)
  {
    hide Enc;
    if a == [] {
      assert a + b == b;
    } else {
      EncAllAppend(a[1..], b);
      assert (a + b)[1..] == a[1..] + b;
    }
  }

  lemma EncAllOne(i: Instr)
    ensures EncAll([i]) == Enc(i)
  {
    hide Enc;
    assert EncAll([]) == [];
    assert [i][1..] == [];
  }

  // ---------------------------------------------------------------- decoding

  datatype Decoded = Decoded(i: Instr, len: nat)

  function Ext(high: bool, low: int): Reg
    requires 0 <= low < 8
  {
    if high then 8 + low else low
  }

  // Decode the instruction at the start of b
  function Decode(b: seq<byte>): Option<Decoded> {
    if |b| > 0 && 0x40 <= b[0] < 0x50 then
      match DecodeOpcode(b[1..], RexBits(b[0] / 8 % 2 == 1, b[0] / 4 % 2 == 1, b[0] % 2 == 1))
      case None => None
      case Some(d) => Some(Decoded(d.i, d.len + 1))
    else
      DecodeOpcode(b, RexBits(false, false, false))
  }

  // Decode the rest of an instruction whose REX prefix is x
  function DecodeOpcode(t: seq<byte>, x: RexBits): Option<Decoded> {
    if |t| == 0 then None
    else
      var op := t[0];
      if 0x50 <= op < 0x58 then Some(Decoded(Push(Ext(x.b, op - 0x50)), 1))
      else if 0x58 <= op < 0x60 then Some(Decoded(Pop(Ext(x.b, op - 0x58)), 1))
      else if 0xb8 <= op < 0xc0 then
        if x.w && |t| >= 9 then Some(Decoded(MovImm64(Ext(x.b, op - 0xb8), U64At(t, 1)), 9))
        else if !x.w && |t| >= 5 then Some(Decoded(MovImm32(Ext(x.b, op - 0xb8), U32At(t, 1)), 5))
        else None
      else if op == 0x81 || op == 0x83 || op == 0x85 || op == 0x89 || op == 0x8b || op == 0xff then
        DecodeModRM(t, x)
      else if x != RexBits(false, false, false) then None
      else DecodePlain(t)
  }

  // Opcodes without register operands
  function DecodePlain(t: seq<byte>): Option<Decoded>
    requires |t| > 0
  {
    var op := t[0];
    if op == 0x90 then Some(Decoded(Nop, 1))
    else if op == 0x9c then Some(Decoded(Pushfq, 1))
    else if op == 0x9d then Some(Decoded(Popfq, 1))
    else if op == 0xc3 then Some(Decoded(Ret, 1))
    else if op == 0xcc then Some(Decoded(Int3, 1))
    else if op == 0xeb && |t| >= 2 then Some(Decoded(Jmp8(t[1]), 2))
    else if op == 0xe9 && |t| >= 5 then Some(Decoded(Jmp32(U32At(t, 1)), 5))
    else if op == 0x0f && |t| >= 6 && t[1] == 0x84 then Some(Decoded(Jcc(true, U32At(t, 2)), 6))
    else if op == 0x0f && |t| >= 6 && t[1] == 0x85 then Some(Decoded(Jcc(false, U32At(t, 2)), 6))
    else None
  }

  // Opcodes followed by a MOD-REG-R/M byte
  function DecodeModRM(t: seq<byte>, x: RexBits): Option<Decoded>
    requires |t| > 0
  {
    if |t| < 2 then None
    else
      var op, mode, reg, rm := t[0], t[1] / 0x40, t[1] / 8 % 8, t[1] % 8;
      if mode == 3 then
        if op == 0x89 && x.w then Some(Decoded(MovReg64(Ext(x.r, reg), Ext(x.b, rm)), 2))
        else if op == 0x89 then Some(Decoded(MovReg32(Ext(x.r, reg), Ext(x.b, rm)), 2))
        else if op == 0x85 && !x.w && x.r == x.b && reg == rm then Some(Decoded(TestSelf(Ext(x.b, rm)), 2))
        else if op == 0xff && reg == 2 then Some(Decoded(CallReg(Ext(x.b, rm)), 2))
        else if op == 0x83 && reg == 5 && !x.w && |t| >= 3 then Some(Decoded(SubImm8(Ext(x.b, rm), t[2]), 3))
        else if op == 0x83 && reg == 4 && x.w && |t| >= 3 && t[2]
            == 0xf0 then Some(Decoded(AndMinus16(Ext(x.b, rm)), 3))
        else if op == 0x81 && reg == 0 && !x.w && |t| >= 6 then
          Some(Decoded(AddImm32(Ext(x.b, rm), U32At(t, 2)), 6))
        else None
      else if mode == 0 && rm == 4 && !x.w && |t| >= 7 && t[2] == 0x25 then
        if op == 0x8b then Some(Decoded(MovLoad(Ext(x.r, reg), U32At(t, 3)), 7))
        else if op == 0x89 then Some(Decoded(MovStore(Ext(x.r, reg), U32At(t, 3)), 7))
        else None
      else None
  }

  // Decoding undoes encoding, whatever bytes follow
  lemma DecodeEnc(i: Instr, b: seq<byte>)
    requires Enc(i) <= b
    ensures Decode(b) == Some(Decoded(i, |Enc(i)|))
  {
    hide Body, DecodeOpcode, RexOf;
    var x := RexOf(i);
    BodyStart(i);
    if x.w || x.r || x.b {
      assert b[0] == Enc(i)[0] == RexByte(x);
      assert Body(i) == Enc(i)[1..] <= b[1..];
      DecodeBody(i, b[1..]);
    } else {
      assert Body(i) == Enc(i);
      DecodeBody(i, b);
    }
  }

  lemma BodyStart(i: Instr)
    ensures !(0x40 <= Body(i)[0] < 0x50)
  {
  }

  lemma ModRMFields(reg: Reg, rm: Reg)
    ensures RegReg(reg, rm) / 0x40 == 3 && RegReg(reg, rm) / 8 % 8 == reg % 8 && RegReg(reg, rm) % 8 == rm % 8
    ensures RegSib(reg) / 0x40 == 0 && RegSib(reg) / 8 % 8 == reg % 8 && RegSib(reg) % 8 == 4
  {
  }

  lemma ExtLow(r: Reg)
    ensures Ext(r >= 8, r % 8) == r
  {
  }

  lemma DecodeBody(i: Instr, t: seq<byte>)
    requires Body(i) <= t
    ensures DecodeOpcode(t, RexOf(i)) == Some(Decoded(i, |Body(i)|))
  {
    match i
    case MovReg32(_, _) => DecodeModReg(i, t);
    case MovReg64(_, _) => DecodeModReg(i, t);
    case TestSelf(_) => DecodeModReg(i, t);
    case CallReg(_) => DecodeGroup(i, t);
    case SubImm8(_, _) => DecodeGroup(i, t);
    case AndMinus16(_) => DecodeGroup(i, t);
    case AddImm32(_, _) => DecodeGroup(i, t);
    case MovLoad(_, _) => DecodeMem(i, t);
    case MovStore(_, _) => DecodeMem(i, t);
    case MovImm32(_, _) => DecodeImm(i, t);
    case MovImm64(_, _) => DecodeImm(i, t);
    case Push(r) => DecodePushPop(i, t);
    case Pop(r) => DecodePushPop(i, t);
    case _ => DecodeOthers(i, t);
  }

  lemma DecodePushPop(i: Instr, t: seq<byte>)
    requires i.Push? || i.Pop?
    requires Body(i) <= t
    ensures DecodeOpcode(t, RexOf(i)) == Some(Decoded(i, |Body(i)|))
  {
    ExtLow(i.r);
    assert t[0] == Body(i)[0];
  }

  lemma DecodeOthers(i: Instr, t: seq<byte>)
    requires i.Pushfq? || i.Popfq? || i.Ret? || i.Jcc? || i.Jmp32? || i.Jmp8? || i.Nop? || i.Int3?
    requires Body(i) <= t
    ensures DecodeOpcode(t, RexOf(i)) == Some(Decoded(i, |Body(i)|))
  {
    hide DecodeModRM, LE32, U32At;
    assert t[0] == Body(i)[0];
    if i.Jcc? {
      assert t[1] == Body(i)[1];
      U32AtLE32([0x0f, if i.ifZero then 0x84 else 0x85], i.rel, t);
    } else if i.Jmp32? {
      U32AtLE32([0xe9], i.rel, t);
    } else if i.Jmp8? {
      assert t[1] == Body(i)[1];
    }
  }

  lemma DecodeImm(i: Instr, t: seq<byte>)
    requires i.MovImm32? || i.MovImm64?
    requires Body(i) <= t
    ensures DecodeOpcode(t, RexOf(i)) == Some(Decoded(i, |Body(i)|))
  {
    hide DecodeModRM, DecodePlain, LE32, U32At, LE64, U64At;
    assert t[0] == Body(i)[0];
    ExtLow(i.dst);
    if i.MovImm32? {
      U32AtLE32([0xb8 + i.dst % 8], i.imm, t);
    } else {
      U64AtLE64([0xb8 + i.dst % 8], i.imm64, t);
    }
  }

  lemma DecodeMem(i: Instr, t: seq<byte>)
    requires i.MovLoad? || i.MovStore?
    requires Body(i) <= t
    ensures DecodeOpcode(t, RexOf(i)) == Some(Decoded(i, |Body(i)|))
  {
    hide DecodePlain, LE32, U32At, RegSib;
    var r := if i.MovLoad? then i.dst else i.src;
    assert t[0] == Body(i)[0];
    assert t[1] == Body(i)[1] == RegSib(r);
    assert t[2] == Body(i)[2] == 0x25;
    ModRMFields(r, 0);
    ExtLow(r);
    U32AtLE32([if i.MovLoad? then 0x8b else 0x89, RegSib(r), 0x25], i.disp, t);
  }

  lemma DecodeModReg(i: Instr, t: seq<byte>)
    requires i.MovReg32? || i.MovReg64? || i.TestSelf?
    requires Body(i) <= t
    ensures DecodeOpcode(t, RexOf(i)) == Some(Decoded(i, |Body(i)|))
  {
    hide DecodePlain, LE32, U32At, RegReg;
    var a, b := if i.TestSelf? then i.dst else i.src, i.dst;
    assert t[0] == Body(i)[0];
    assert t[1] == Body(i)[1] == RegReg(a, b);
    ModRMFields(a, b);
    ExtLow(a);
    ExtLow(b);
  }

  lemma DecodeGroup(i: Instr, t: seq<byte>)
    requires i.SubImm8? || i.AndMinus16? || i.AddImm32? || i.CallReg?
    requires Body(i) <= t
    ensures DecodeOpcode(t, RexOf(i)) == Some(Decoded(i, |Body(i)|))
  {
    hide DecodePlain, LE32, U32At, RegReg;
    var r := if i.CallReg? then i.r else i.dst;
    var ext: Reg := if i.SubImm8? then 5 else if i.AndMinus16? then 4 else if i.AddImm32? then 0 else 2;
    assert t[0] == Body(i)[0];
    assert t[1] == Body(i)[1] == RegReg(ext, r);
    ModRMFields(ext, r);
    ExtLow(r);
    if i.AddImm32? {
      U32AtLE32([0x81, RegReg(0, r)], i.imm, t);
    } else if !i.CallReg? {
      assert t[2] == Body(i)[2];
    }
  }

  // ---------------------------------------------------------- whole code

  // The instructions that some bytes consist of
  function Disassemble(b: seq<byte>): Option<seq<Instr>>
    decreases |b|
  {
    if b == [] then Some([])
    else
      match Decode(b)
      case None => None
      case Some(d) =>
        if d.len == 0 || d.len > |b| then None
        else
          match Disassemble(b[d.len..])
          case None => None
          case Some(rest) => Some([d.i] + rest)
  }

  // Emitted code consists of exactly the instructions it was emitted for.
  lemma {:induction false} DisassembleEncAll(xs: seq<Instr>)
    ensures Disassemble(EncAll(xs)) == Some(xs)
  {
    hide Enc, Decode;
    if xs != [] {
      DecodeEnc(xs[0], EncAll(xs));
      assert EncAll(xs)[|Enc(xs[0])|..] == EncAll(xs[1..]);
      DisassembleEncAll(xs[1..]);
      assert [xs[0]] + xs[1..] == xs;
    }
  }
}
