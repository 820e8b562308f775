/** The instructions of the subset as the M68000 Family Programmer's Reference Manual encodes them,
    bit field by bit field, and the decoder measured against it. */
module Assembler {
  import opened Base
  import opened M68k

  // How wide a branch's displacement is
  datatype Width = Short | Word | Long

  // An instruction as a programmer writes it. A branch has a displacement, which counts from behind
  // its opcode.
  datatype Asm = Plain(i: GInstr) | Branch(ifZero: bool, width: Width, d: int)

  predicate AsmOk(a: Asm) {
    match a
    case Plain(i) => !i.BranchZ?
    case Branch(_, Short, d) => -0x80 <= d < 0x80 && d != 0 && d != -1
    case Branch(_, Word, d) => -0x8000 <= d < 0x8000
    case Branch(_, Long, d) => -0x8000_0000 <= d < 0x8000_0000
  }

  // ------------------------------------------------------------- encoding

  // Words and long words, high byte first
  function W(v: u16): (b: seq<byte>)
    ensures |b| == 2
  {
    [v / 0x100, v % 0x100]
  }

  function L(v: u32): (b: seq<byte>)
    ensures |b| == 4
  {
    [v / 0x100_0000, v / 0x1_0000 % 0x100, v / 0x100 % 0x100, v % 0x100]
  }

  // Absolute addresses: addressing mode 7, register 0 or 1
  function AbsMode(ea: Ea): u16 { if ea.AbsW? then 0x38 else 0x39 }

  function AbsWords(ea: Ea): seq<byte> {
    match ea
    case AbsW(w) => W(w)
    case AbsL(l) => L(l)
  }

  function Assemble(a: Asm): seq<byte>
    requires AsmOk(a)
  {
    match a
    case Plain(Rts) => [0x4e, 0x75]
    case Plain(Tst(n)) => W(0x4a80 + n)
    case Plain(JsrLib(disp)) => [0x4e, 0xae] + W(disp)
    case Plain(Subq(field, n)) => W(0x5180 + 0x200 * field + n)
    case Plain(MoveqImm(data, n)) => [0x70 + 2 * n, data]
    case Plain(MoveaMem(ea, n)) => W(0x2040 + 0x200 * n + AbsMode(ea)) + AbsWords(ea)
    case Plain(MoveaImm(v, n)) => W(0x207c + 0x200 * n) + L(v)
    case Plain(MoveMem(ea, n)) => W(0x2000 + 0x200 * n + AbsMode(ea)) + AbsWords(ea)
    case Plain(MoveImm(v, n)) => W(0x203c + 0x200 * n) + L(v)
    case Plain(MoveToMem(n, AbsW(w))) => W(0x21c0 + n) + W(w)
    case Plain(MoveToMem(n, AbsL(l))) => W(0x23c0 + n) + L(l)
    case Plain(MoveReg(m, n)) => W(0x2000 + 0x200 * n + m)
    case Branch(ifZero, Short, d) => [Bcc(ifZero), if d < 0 then d + 0x100 else d]
    case Branch(ifZero, Word, d) => [Bcc(ifZero), 0] + W(if d < 0 then d + 0x1_0000 else d)
    case Branch(ifZero, Long, d) => [Bcc(ifZero), 0xff] + L(if d < 0 then d + TWO32 else d)
  }

  // BNE and BEQ
  function Bcc(ifZero: bool): byte { if ifZero then 0x67 else 0x66 }

  // What an instruction at address pc is
  function Meant(a: Asm, pc: int): GInstr {
    match a
    case Plain(i) => i
    case Branch(ifZero, _, d) => BranchZ(ifZero, pc + 2 + d)
  }

  // The bytes b are in guest memory at address pc.
  predicate InMemory(img: Image, pc: int, b: seq<byte>) {
    forall k :: 0 <= k < |b| ==> ByteAt(img, pc + k) == b[k]
  }

  // -------------------------------------------------------------- reading

  lemma Split(img: Image, pc: int, a: seq<byte>, b: seq<byte>)
    ensures InMemory(img, pc, a + b) <==> InMemory(img, pc, a) && InMemory(img, pc + |a|, b)
  {
    hide ByteAt;
    if InMemory(img, pc, a + b) {
      forall k | 0 <= k < |a|
        ensures ByteAt(img, pc + k) == a[k]
      {
        assert (a + b)[k] == a[k];
      }
      forall k | 0 <= k < |b|
        ensures ByteAt(img, pc + |a| + k) == b[k]
      {
        assert (a + b)[|a| + k] == b[k] && pc + |a| + k == pc + (|a| + k);
      }
    }
    if InMemory(img, pc, a) && InMemory(img, pc + |a|, b) {
      forall k | 0 <= k < |a + b|
        ensures ByteAt(img, pc + k) == (a + b)[k]
      {
        assert k >= |a| ==> pc + k == pc + |a| + (k - |a|);
      }
    }
  }

  lemma WordIs(img: Image, pc: int, v: u16)
    ensures InMemory(img, pc, W(v)) <==> WordAt(img, pc) == v
  {
    hide ByteAt;
    var b := W(v);
    assert InMemory(img, pc, b) <==> ByteAt(img, pc + 0) == b[0] && ByteAt(img, pc + 1) == b[1];
    var hi: int, lo: int := ByteAt(img, pc), ByteAt(img, pc + 1);
  }

  lemma BytesAre(img: Image, pc: int, hi: byte, lo: byte)
    ensures var h: int, l: int := hi, lo;
            InMemory(img, pc, [hi, lo]) <==> WordAt(img, pc) == 0x100 * h + l
  {
    var h: int, l: int := hi, lo;
    WordIs(img, pc, 0x100 * h + l);
    assert W(0x100 * h + l) == [hi, lo];
  }

  lemma LongIs(img: Image, pc: int, v: u32)
    ensures InMemory(img, pc, L(v)) <==> LongAt(img, pc) == v
  {
    hide WordAt, InMemory;
    Split(img, pc, W(v / 0x1_0000), W(v % 0x1_0000));
    WordIs(img, pc, v / 0x1_0000);
    WordIs(img, pc + 2, v % 0x1_0000);
    Halves(v);
    var hi: int, lo: int := WordAt(img, pc), WordAt(img, pc + 2);
  }

  lemma Halves(v: u32)
    ensures L(v) == W(v / 0x1_0000) + W(v % 0x1_0000)
  {
    var hi, mid := v / 0x1_0000, v / 0x100;
    assert v == 0x100 * mid + v % 0x100 && mid == 0x100 * hi + mid % 0x100;
    var lo := v % 0x1_0000;
    assert lo == 0x100 * (mid % 0x100) + v % 0x100;
    assert W(lo) == [mid % 0x100, v % 0x100];
    assert hi / 0x100 == v / 0x100_0000;
  }

  // ------------------------------------------- what is assembled is decoded

  // The fields of a MOVE.L or MOVEA.L opcode
  lemma MoveFields(n: Num, mode: Num, ea: int)
    requires 0 <= ea < 64
    ensures var op := 0x2000 + 0x200 * n + 0x40 * mode + ea;
            && op / 0x1000 == 2 && op / 0x40 % 8 == mode && op % 0x40 == ea && op / 0x200 % 8 == n
            && DestinationField(op) == 8 * mode + n && op / 0x40 < 0x100
  {
    var op := 0x2000 + 0x200 * n + 0x40 * mode + ea;
    assert op / 0x40 == 0x80 + 8 * n + mode && op / 0x200 == 0x10 + n;
  }

  lemma MoveIs(img: Image, pc: int, n: Num, mode: Num, ea: int)
    requires 0 <= ea < 64 && WordAt(img, pc) == 0x2000 + 0x200 * n + 0x40 * mode + ea
    ensures GDecode(img, pc)
            == if mode == 1 then DecodeMovea(img, WordAt(img, pc), pc) else DecodeMove(img, WordAt(img, pc), pc)
  {
    hide WordAt, DecodeMovea, DecodeMove;
    MoveFields(n, mode, ea);
  }

  lemma RegisterOperand(img: Image, n: Num, at: int)
    ensures OperandAt(img, n, at) == DReg(n) && OperandLength(n) == 0
  {
  }

  lemma DecodeMoveReg(img: Image, pc: int, m: Num, n: Num)
    requires InMemory(img, pc, Assemble(Plain(MoveReg(m, n))))
    ensures GDecode(img, pc) == Some(Located(MoveReg(m, n), pc + 2))
  {
    hide WordAt, LongAt, InMemory, OperandAt, GDecode;
    WordIs(img, pc, 0x2000 + 0x200 * n + m);
    MoveIs(img, pc, n, 0, m);
    MoveFields(n, 0, m);
    RegisterOperand(img, m, pc + 2);
    RegisterOperand(img, n, pc + 2);
  }

  lemma DecodeRts(img: Image, pc: int)
    requires InMemory(img, pc, Assemble(Plain(Rts)))
    ensures GDecode(img, pc) == Some(Located(Rts, pc + 2))
  {
    hide WordAt, InMemory;
    BytesAre(img, pc, 0x4e, 0x75);
  }

  lemma DecodeTest(img: Image, pc: int, n: Num)
    requires InMemory(img, pc, Assemble(Plain(Tst(n))))
    ensures GDecode(img, pc) == Some(Located(Tst(n), pc + 2))
  {
    hide WordAt, InMemory, DecodeMove, DecodeMovea, DecodeBcc, DecodeJsr;
    WordIs(img, pc, 0x4a80 + n);
  }

  lemma DecodeQuick(img: Image, pc: int, data: byte, n: Num)
    requires InMemory(img, pc, Assemble(Plain(MoveqImm(data, n))))
    ensures GDecode(img, pc) == Some(Located(MoveqImm(data, n), pc + 2))
  {
    hide WordAt, InMemory, DecodeMove, DecodeMovea, DecodeBcc, DecodeJsr;
    BytesAre(img, pc, 0x70 + 2 * n, data);
    var op := 0x7000 + 0x200 * n + data;
    assert op / 0x40 == 0x1c0 + 8 * n + data / 0x40 && op / 0x100 == 0x70 + 2 * n && op / 0x200 == 0x38 + n;
  }

  lemma DecodeSub(img: Image, pc: int, field: Num, n: Num)
    requires InMemory(img, pc, Assemble(Plain(Subq(field, n))))
    ensures GDecode(img, pc) == Some(Located(Subq(field, n), pc + 2))
  {
    hide WordAt, LongAt, InMemory, DecodeMove, DecodeMovea, DecodeBcc, DecodeJsr;
    var op := 0x5180 + 0x200 * field + n;
    WordIs(img, pc, op);
    assert op / 0x40 == 0x146 + 8 * field && op / 0x200 == 0x28 + field && op / 8 == 0xa30 + 0x40 * field;
  }

  lemma DecodeJump(img: Image, pc: int, disp: u16)
    requires InMemory(img, pc, Assemble(Plain(JsrLib(disp))))
    ensures GDecode(img, pc) == Some(Located(JsrLib(disp), pc + 4))
  {
    hide WordAt, LongAt, InMemory;
    Split(img, pc, [0x4e, 0xae], W(disp));
    BytesAre(img, pc, 0x4e, 0xae);
    WordIs(img, pc + 2, disp);
  }

  // The value of an absolute address
  lemma AbsAt(img: Image, at: int, ea: Ea)
    requires InMemory(img, at, AbsWords(ea))
    ensures OperandAt(img, AbsMode(ea), at) == Mem(ea) && OperandLength(AbsMode(ea)) == |AbsWords(ea)|
  {
    hide WordAt, LongAt, InMemory;
    match ea
    case AbsW(w) => WordIs(img, at, w);
    case AbsL(l) => LongIs(img, at, l);
  }

  lemma DecodeLoad(img: Image, pc: int, i: GInstr)
    requires i.MoveaMem? || i.MoveMem?
    requires InMemory(img, pc, Assemble(Plain(i)))
    ensures GDecode(img, pc) == Some(Located(i, pc + 2 + |AbsWords(i.ea)|))
  {
    hide WordAt, LongAt, InMemory, OperandAt, OperandLength, GDecode, DestinationField;
    var mode := if i.MoveMem? then 0 else 1;
    var op := 0x2000 + 0x200 * i.n + 0x40 * mode + AbsMode(i.ea);
    Split(img, pc, W(op), AbsWords(i.ea));
    WordIs(img, pc, op);
    MoveIs(img, pc, i.n, mode, AbsMode(i.ea));
    MoveFields(i.n, mode, AbsMode(i.ea));
    AbsAt(img, pc + 2, i.ea);
    RegisterOperand(img, i.n, pc + 2 + |AbsWords(i.ea)|);
  }

  lemma ImmediateAt(img: Image, at: int, v: u32)
    requires InMemory(img, at, L(v))
    ensures OperandAt(img, 0x3c, at) == Imm(v) && OperandLength(0x3c) == 4
  {
    hide WordAt, LongAt, InMemory;
    LongIs(img, at, v);
  }

  lemma DecodeImmediate(img: Image, pc: int, i: GInstr)
    requires i.MoveaImm? || i.MoveImm?
    requires InMemory(img, pc, Assemble(Plain(i)))
    ensures GDecode(img, pc) == Some(Located(i, pc + 6))
  {
    hide WordAt, LongAt, InMemory, OperandAt, OperandLength, GDecode, DestinationField;
    var mode := if i.MoveImm? then 0 else 1;
    var op := 0x2000 + 0x200 * i.n + 0x40 * mode + 0x3c;
    Split(img, pc, W(op), L(i.imm));
    WordIs(img, pc, op);
    MoveIs(img, pc, i.n, mode, 0x3c);
    MoveFields(i.n, mode, 0x3c);
    ImmediateAt(img, pc + 2, i.imm);
    RegisterOperand(img, i.n, pc + 6);
  }

  lemma DecodeStore(img: Image, pc: int, i: GInstr)
    requires i.MoveToMem?
    requires InMemory(img, pc, Assemble(Plain(i)))
    ensures GDecode(img, pc) == Some(Located(i, pc + 2 + |AbsWords(i.ea)|))
  {
    hide WordAt, LongAt, InMemory, OperandAt, OperandLength, GDecode, DestinationField;
    var reg := if i.ea.AbsW? then 0 else 1;
    var op := 0x2000 + 0x200 * reg + 0x40 * 7 + i.n;
    assert Assemble(Plain(i)) == W(op) + AbsWords(i.ea);
    Split(img, pc, W(op), AbsWords(i.ea));
    WordIs(img, pc, op);
    MoveIs(img, pc, reg, 7, i.n);
    MoveFields(reg, 7, i.n);
    RegisterOperand(img, i.n, pc + 2);
    AbsAt(img, pc + 2, i.ea);
  }

  // A branch with a displacement of any width
  lemma DecodeBranch(img: Image, pc: int, ifZero: bool, width: Width, d: int)
    requires AsmOk(Branch(ifZero, width, d)) && InMemory(img, pc, Assemble(Branch(ifZero, width, d)))
    ensures GDecode(img, pc)
            == Some(Located(BranchZ(ifZero, pc + 2 + d),
                            pc + match width case Short => 2 case Word => 4 case Long => 6))
  {
    hide WordAt, LongAt, InMemory;
    match width
    case Short => BytesAre(img, pc, Bcc(ifZero), if d < 0 then d + 0x100 else d);
    case Word =>
      var v := if d < 0 then d + 0x1_0000 else d;
      Split(img, pc, [Bcc(ifZero), 0], W(v));
      BytesAre(img, pc, Bcc(ifZero), 0);
      WordIs(img, pc + 2, v);
    case Long =>
      var v := if d < 0 then d + TWO32 else d;
      Split(img, pc, [Bcc(ifZero), 0xff], L(v));
      BytesAre(img, pc, Bcc(ifZero), 0xff);
      LongIs(img, pc + 2, v);
  }

  // Memory that holds an assembled instruction decodes to it, with the address behind it.
  lemma AssembledDecodes(img: Image, pc: int, a: Asm)
    requires AsmOk(a) && InMemory(img, pc, Assemble(a))
    ensures GDecode(img, pc) == Some(Located(Meant(a, pc), pc + |Assemble(a)|))
  {
    hide GDecode, InMemory;
    match a
    case Branch(ifZero, width, d) => DecodeBranch(img, pc, ifZero, width, d);
    case Plain(i) =>
      match i {
        case JsrLib(disp) => DecodeJump(img, pc, disp);
        case MoveaMem(_, _) => DecodeLoad(img, pc, i);
        case MoveMem(_, _) => DecodeLoad(img, pc, i);
        case MoveaImm(_, _) => DecodeImmediate(img, pc, i);
        case MoveImm(_, _) => DecodeImmediate(img, pc, i);
        case MoveToMem(_, _) => DecodeStore(img, pc, i);
        case MoveReg(m, n) => DecodeMoveReg(img, pc, m, n);
        case Rts => DecodeRts(img, pc);
        case Tst(n) => DecodeTest(img, pc, n);
        case Subq(field, n) => DecodeSub(img, pc, field, n);
        case MoveqImm(data, n) => DecodeQuick(img, pc, data, n);
      }
  }

  // -------------------------------------- what is decoded was assembled

  // a is at pc, and is the instruction l.
  predicate Holds(img: Image, pc: int, a: Asm, l: Located) {
    AsmOk(a) && InMemory(img, pc, Assemble(a)) && l == Located(Meant(a, pc), pc + |Assemble(a)|)
  }

  lemma FromTst(img: Image, pc: int) returns (a: Asm)
    requires DecodeTst(WordAt(img, pc), pc).Some? && WordAt(img, pc) / 0x40 == 0x12a
    ensures Holds(img, pc, a, DecodeTst(WordAt(img, pc), pc).value)
  {
    hide WordAt, InMemory;
    var op := WordAt(img, pc);
    a := Plain(Tst(op % 8));
    Eights(op);
    WordIs(img, pc, 0x4a80 + op % 8);
  }

  lemma Eights(op: u16)
    ensures op == 0x40 * (op / 0x40) + 8 * (op / 8 % 8) + op % 8 && op % 0x40 == 8 * (op / 8 % 8) + op % 8
    ensures op == 0x1000 * (op / 0x1000) + 0x200 * (op / 0x200 % 8) + 0x40 * (op / 0x40 % 8) + op % 0x40
  {
    var d, c := op / 8, op / 0x40;
    var e := c / 8;
    assert d == 8 * c + d % 8 && c == 8 * e + c % 8 && e == 8 * (op / 0x1000) + e % 8;
    assert e == op / 0x200;
  }

  lemma FromJsr(img: Image, pc: int) returns (a: Asm)
    requires DecodeJsr(img, WordAt(img, pc), pc).Some? && WordAt(img, pc) / 0x40 == 0x13a
    ensures Holds(img, pc, a, DecodeJsr(img, WordAt(img, pc), pc).value)
  {
    hide WordAt, InMemory;
    var disp := WordAt(img, pc + 2);
    a := Plain(JsrLib(disp));
    Split(img, pc, [0x4e, 0xae], W(disp));
    BytesAre(img, pc, 0x4e, 0xae);
    WordIs(img, pc + 2, disp);
  }

  lemma FromSubq(img: Image, pc: int) returns (a: Asm)
    requires DecodeSubq(WordAt(img, pc), pc).Some? && WordAt(img, pc) / 0x1000 == 5
    ensures Holds(img, pc, a, DecodeSubq(WordAt(img, pc), pc).value)
  {
    hide WordAt, InMemory;
    var op := WordAt(img, pc);
    a := Plain(Subq(op / 0x200 % 8, op % 8));
    Eights(op);
    WordIs(img, pc, 0x5180 + 0x200 * (op / 0x200 % 8) + op % 8);
  }

  lemma FromMoveq(img: Image, pc: int) returns (a: Asm)
    requires WordAt(img, pc) / 0x1000 == 7 && WordAt(img, pc) / 0x100 % 2 == 0
    ensures var op := WordAt(img, pc);
            Holds(img, pc, a, Located(MoveqImm(op % 0x100, op / 0x200 % 8), pc + 2))
  {
    hide WordAt, InMemory;
    var op := WordAt(img, pc);
    a := Plain(MoveqImm(op % 0x100, op / 0x200 % 8));
    HighByte(op);
    BytesAre(img, pc, 0x70 + 2 * (op / 0x200 % 8), op % 0x100);
  }

  lemma HighByte(op: u16)
    ensures op == 0x100 * (op / 0x100) + op % 0x100
    ensures op / 0x100 == 0x10 * (op / 0x1000) + 2 * (op / 0x200 % 8) + op / 0x100 % 2
    ensures op / 0x100 == 0x10 * (op / 0x1000) + op / 0x100 % 0x10
  {
    var h := op / 0x100;
    Nested(op, 0x100, 2);
    Nested(op, 0x100, 0x10);
    var q := h / 2;
    Nested(h, 2, 8);
    assert h == 2 * q + h % 2 && q == 8 * (q / 8) + q % 8;
  }

  lemma Nested(x: nat, a: nat, b: nat)
    requires (a == 0x100 && b == 2) || (a == 0x100 && b == 0x10) || (a == 2 && b == 8)
    ensures x / a / b == x / (a * b)
  {
    if b == 2 {
      assert x / 0x100 / 2 == x / 0x200;
    } else if b == 0x10 {
      assert x / 0x100 / 0x10 == x / 0x1000;
    } else {
      assert x / 2 / 8 == x / 0x10;
    }
  }

  // An operand in memory or behind the opcode is there as AbsWords or L write it.
  lemma FromOperand(img: Image, ea: int, at: int)
    requires 0 <= ea < 64
    ensures match OperandAt(img, ea, at)
            case Mem(e) => ea == AbsMode(e) && InMemory(img, at, AbsWords(e)) && OperandLength(ea) == |AbsWords(e)|
            case Imm(v) => ea == 0x3c && InMemory(img, at, L(v)) && OperandLength(ea) == 4
            case DReg(n) => ea == n && OperandLength(ea) == 0
            case _ => true
  {
    hide WordAt, LongAt, InMemory;
    match OperandAt(img, ea, at)
    case Mem(AbsW(w)) => WordIs(img, at, w);
    case Mem(AbsL(l)) => LongIs(img, at, l);
    case Imm(v) => LongIs(img, at, v);
    case _ =>
  }

  lemma FromMovea(img: Image, pc: int) returns (a: Asm)
    requires DecodeMovea(img, WordAt(img, pc), pc).Some?
    requires WordAt(img, pc) / 0x1000 == 2 && WordAt(img, pc) / 0x40 % 8 == 1
    ensures Holds(img, pc, a, DecodeMovea(img, WordAt(img, pc), pc).value)
  {
    hide WordAt, LongAt, InMemory, OperandAt, OperandLength;
    var op := WordAt(img, pc);
    var i := DecodeMovea(img, op, pc).value.i;
    a := Plain(i);
    Eights(op);
    FromOperand(img, op % 0x40, pc + 2);
    var ext := if i.MoveaMem? then AbsWords(i.ea) else L(i.imm);
    assert Assemble(a) == W(op) + ext;
    Split(img, pc, W(op), ext);
    WordIs(img, pc, op);
  }

  lemma FromMove(img: Image, pc: int) returns (a: Asm)
    requires DecodeMove(img, WordAt(img, pc), pc).Some? && WordAt(img, pc) / 0x1000 == 2
    ensures Holds(img, pc, a, DecodeMove(img, WordAt(img, pc), pc).value)
  {
    hide WordAt, LongAt, InMemory, OperandAt, OperandLength;
    var op := WordAt(img, pc);
    var i := DecodeMove(img, op, pc).value.i;
    a := Plain(i);
    FromOperand(img, op % 0x40, pc + 2);
    FromOperand(img, DestinationField(op), pc + 2 + OperandLength(op % 0x40));
    var ext := if i.MoveMem? || i.MoveToMem? then AbsWords(i.ea) else if i.MoveImm? then L(i.imm) else [];
    MoveWord(img, op, pc, i);
    assert Assemble(a) == W(op) + ext;
    Split(img, pc, W(op), ext);
    WordIs(img, pc, op);
  }

  // The opcode of a MOVE, put together again
  lemma MoveWord(img: Image, op: u16, pc: int, i: GInstr)
    requires op / 0x1000 == 2 && DecodeMove(img, op, pc).Some? && i == DecodeMove(img, op, pc).value.i
    ensures match i
            case MoveMem(ea, n) => op == 0x2000 + 0x200 * n + AbsMode(ea)
            case MoveImm(_, n) => op == 0x203c + 0x200 * n
            case MoveToMem(n, ea) => op == (if ea.AbsW? then 0x21c0 else 0x23c0) + n
            case MoveReg(m, n) => op == 0x2000 + 0x200 * n + m
            case _ => false
  {
    hide OperandAt, OperandLength, DestinationField, InMemory;
    FieldParts(op);
    var s, d := op % 0x40, DestinationField(op);
    FromOperand(img, s, pc + 2);
    FromOperand(img, d, pc + 2 + OperandLength(s));
    assert op == 0x2000 + 0x200 * (d % 8) + 0x40 * (d / 8) + s;
    assert d < 8 ==> d / 8 == 0 && d % 8 == d;
    assert d == 0x38 ==> d / 8 == 7 && d % 8 == 0;
    assert d == 0x39 ==> d / 8 == 7 && d % 8 == 1;
  }

  lemma FieldParts(op: u16)
    ensures var d := DestinationField(op); op == 0x1000 * (op / 0x1000) + 0x200 * (d % 8) + 0x40 * (d / 8) + op % 0x40
  {
    Eights(op);
    var mode, reg := op / 0x40 % 8, op / 0x200 % 8;
    assert (8 * mode + reg) / 8 == mode && (8 * mode + reg) % 8 == reg;
  }

  lemma FromBcc(img: Image, pc: int) returns (a: Asm)
    requires DecodeBcc(img, WordAt(img, pc), pc).Some? && WordAt(img, pc) / 0x1000 == 6
    ensures Holds(img, pc, a, DecodeBcc(img, WordAt(img, pc), pc).value)
  {
    hide WordAt, LongAt, InMemory;
    var op := WordAt(img, pc);
    var ifZero := op / 0x100 % 0x10 == 7;
    HighByte(op);
    if op % 0x100 == 0 {
      var v := WordAt(img, pc + 2);
      a := Branch(ifZero, Word, Signed16(v));
      Split(img, pc, [Bcc(ifZero), 0], W(v));
      BytesAre(img, pc, Bcc(ifZero), 0);
      WordIs(img, pc + 2, v);
    } else if op % 0x100 == 0xff {
      var v := LongAt(img, pc + 2);
      a := Branch(ifZero, Long, Signed32(v));
      Split(img, pc, [Bcc(ifZero), 0xff], L(v));
      BytesAre(img, pc, Bcc(ifZero), 0xff);
      LongIs(img, pc + 2, v);
    } else {
      a := Branch(ifZero, Short, Signed8(op % 0x100));
      BytesAre(img, pc, Bcc(ifZero), op % 0x100);
    }
  }

  // Whatever decodes is an assembled instruction.
  lemma Disassemble(img: Image, pc: int) returns (a: Asm)
    requires GDecode(img, pc).Some?
    ensures Holds(img, pc, a, GDecode(img, pc).value)
  {
    hide WordAt, Holds, DecodeTst, DecodeJsr, DecodeSubq, DecodeMove, DecodeMovea, DecodeBcc;
    var op := WordAt(img, pc);
    if op == 0x4e75 {
      a := Plain(Rts);
      HoldsRts(img, pc);
    } else if op / 0x40 == 0x12a {
      a := FromTst(img, pc);
    } else if op / 0x40 == 0x13a {
      a := FromJsr(img, pc);
    } else if op / 0x1000 == 5 {
      a := FromSubq(img, pc);
    } else if op / 0x1000 == 2 && op / 0x40 % 8 == 1 {
      a := FromMovea(img, pc);
    } else if op / 0x1000 == 2 {
      a := FromMove(img, pc);
    } else if op / 0x1000 == 7 && op / 0x100 % 2 == 0 {
      a := FromMoveq(img, pc);
    } else {
      a := FromBcc(img, pc);
    }
  }

  lemma HoldsRts(img: Image, pc: int)
    requires WordAt(img, pc) == 0x4e75
    ensures Holds(img, pc, Plain(Rts), Located(Rts, pc + 2))
  {
    hide WordAt, InMemory;
    BytesAre(img, pc, 0x4e, 0x75);
  }

  // The decoder accepts exactly what the manual's encoding produces, as the instruction meant, with
  // the address behind it.
  lemma DecodeExact(img: Image, pc: int, l: Located)
    ensures GDecode(img, pc) == Some(l) <==> exists a: Asm :: Holds(img, pc, a, l)
  {
    hide GDecode, InMemory, Assemble;
    if GDecode(img, pc) == Some(l) {
      var a := Disassemble(img, pc);
      assert Holds(img, pc, a, l);
    }
    if a: Asm :| Holds(img, pc, a, l) {
      AssembledDecodes(img, pc, a);
    }
  }
}
