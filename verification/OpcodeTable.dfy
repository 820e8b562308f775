/** The opcode table of translate.c and the lookup table built from it. */
module OpcodeTable {
  import opened Base
  import opened M68k

  datatype Handler = HRts | HTst | HJsr | HSubq | HMovea | HMoveq | HBcc | HMove

  datatype OpcodeInfo = OpcodeInfo(handler: Handler, mask: u16, match_: u16, eaMask: u16, terminal: bool)

  // Sorted by the number of set bits in the mask, in descending order
  const OPCODE_INFO_TBL: seq<OpcodeInfo> :=
    [ OpcodeInfo(HRts, 0xffff, 0x4e75, 0x000, true),
      OpcodeInfo(HTst, 0xffc0, 0x4a80, 0xbf8, false),
      OpcodeInfo(HJsr, 0xffc0, 0x4e80, 0x27b, false),
      OpcodeInfo(HSubq, 0xf1c0, 0x5180, 0xff8, false),
      OpcodeInfo(HMovea, 0xf1c0, 0x2040, 0xfff, false),
      OpcodeInfo(HMoveq, 0xf100, 0x7000, 0x000, false),
      OpcodeInfo(HBcc, 0xf000, 0x6000, 0x000, true),
      OpcodeInfo(HMove, 0xf000, 0x1000, 0xbff, false),
      OpcodeInfo(HMove, 0xf000, 0x3000, 0xfff, false),
      OpcodeInfo(HMove, 0xf000, 0x2000, 0xfff, false) ]

  // Destination modes of MOVE
  const MOVE_EA_MASK: u16 := 0xbf8

  // Bitwise AND
  function And(a: nat, b: nat): nat {
    if a == 0 then 0 else 2 * And(a / 2, b / 2) + (if a % 2 == 1 && b % 2 == 1 then 1 else 0)
  }

  // Number of set bits
  function Bits(a: nat): nat { if a == 0 then 0 else a % 2 + Bits(a / 2) }

  // Each addressing mode has a bit in the effective address masks, except for modes that do not exist.
  function ModeBit(ea: int): u16
    requires 0 <= ea < 64
  {
    if ea < 0x08 then 0x800
    else if ea < 0x10 then 0x400
    else if ea < 0x18 then 0x200
    else if ea < 0x20 then 0x100
    else if ea < 0x28 then 0x080
    else if ea < 0x30 then 0x040
    else if ea < 0x38 then 0x020
    else if ea == 0x38 then 0x010
    else if ea == 0x39 then 0x008
    else if ea == 0x3a then 0x002
    else if ea == 0x3b then 0x001
    else if ea == 0x3c then 0x004
    else 0
  }

  // Modes 0 to 6 have the bits from 11 down to 5, and the registers of mode 7 those of absolute short and
  // long, relative to PC with displacement and index, and immediate.
  lemma ModeBits(ea: int)
    requires 0 <= ea < 64
    ensures ModeBit(ea)
            == if ea / 8 < 7 then [0x800, 0x400, 0x200, 0x100, 0x80, 0x40, 0x20][ea / 8]
               else if ea % 8 < 5 then [0x10, 0x08, 0x02, 0x01, 0x04][ea % 8] else 0
  {
  }

  // valid_ea_mode: the bit of the opcode's addressing mode is set in the mask.
  predicate ValidEaMode(opcode: u16, mask: u16) {
    mask == 0 || (var bit := ModeBit(opcode % 0x40); bit != 0 && mask / bit % 2 == 1)
  }

  predicate Accepts(info: OpcodeInfo, op: u16) {
    && And(op, info.mask) == info.match_
    && (info.handler.HMove? ==> ValidEaMode(DestinationField(op), MOVE_EA_MASK))
    && ValidEaMode(op, info.eaMask)
  }

  // The first entry that accepts an opcode
  function FirstMatch(table: seq<OpcodeInfo>, op: u16): Option<OpcodeInfo> {
    if table == [] then None
    else if Accepts(table[0], op) then Some(table[0])
    else FirstMatch(table[1..], op)
  }

  method InitOpcInfoLookupTbl(table: seq<OpcodeInfo>, lookup: array<Option<OpcodeInfo>>)
    requires lookup.Length == 0x1_0000
    modifies lookup
    ensures forall op: u16 :: lookup[op] == FirstMatch(table, op)
  {
    for i := 0 to 0x1_0000
      invariant forall op: u16 :: op < i ==> lookup[op] == FirstMatch(table, op)
    {
      var opcode: u16 := i;
      lookup[opcode] := None;
      var j := 0;
      assert table[0..] == table;
      while j < |table|
        invariant 0 <= j <= |table|
        invariant forall op: u16 :: op < i ==> lookup[op] == FirstMatch(table, op)
        invariant lookup[opcode] == None
        invariant FirstMatch(table, opcode) == FirstMatch(table[j..], opcode)
      {
        assert table[j..][1..] == table[j + 1..];
        if And(opcode, table[j].mask) == table[j].match_ {
          if table[j].handler == HMove && !ValidEaMode(DestinationField(opcode), MOVE_EA_MASK) {
            j := j + 1;
            continue;
          }
          if ValidEaMode(opcode, table[j].eaMask) {
            lookup[opcode] := Some(table[j]);
            break;
          }
        }
        j := j + 1;
      }
    }
  }

  predicate Sorted(table: seq<OpcodeInfo>) {
    forall i: nat, j: nat :: i < j < |table| ==> Bits(table[i].mask) >= Bits(table[j].mask)
  }

  // In a sorted table the entry found is a most specific one of those that accept the opcode, and
  // none is found only if none accepts.
  lemma {:induction false} MostSpecific(table: seq<OpcodeInfo>, op: u16)
    requires Sorted(table)
    ensures match FirstMatch(table, op)
            case None => forall e: OpcodeInfo :: e in table ==> !Accepts(e, op)
            case Some(info) =>
              && info in table && Accepts(info, op)
              && forall e: OpcodeInfo :: e in table && Accepts(e, op) ==> Bits(e.mask) <= Bits(info.mask)
  {
    hide Accepts, Bits;
    if table != [] && !Accepts(table[0], op) {
      MostSpecific(table[1..], op);
      assert table == [table[0]] + table[1..];
    }
  }

  lemma TableSorted()
    ensures Sorted(OPCODE_INFO_TBL)
  {
    hide Bits;
    MaskBits();
    var bits := [16, 10, 10, 7, 7, 5, 4, 4, 4, 4];
    assert forall i: nat :: i < 10 ==> Bits(OPCODE_INFO_TBL[i].mask) == bits[i];
  }

  lemma BitsDouble(a: nat)
    ensures Bits(2 * a) == Bits(a) && Bits(2 * a + 1) == Bits(a) + 1
  {
  }

  lemma BitsOctal(a: nat)
    ensures Bits(8 * a) == Bits(a) && Bits(8 * a + 7) == Bits(a) + 3 && Bits(8 * a + 4) == Bits(a) + 1
  {
    hide Bits;
    BitsDouble(a);
    BitsDouble(2 * a);
    BitsDouble(2 * a + 1);
    BitsDouble(4 * a);
    BitsDouble(4 * a + 2);
    BitsDouble(4 * a + 3);
  }

  lemma MaskBits()
    ensures Bits(0xffff) == 16 && Bits(0xffc0) == 10 && Bits(0xf1c0) == 7 && Bits(0xf100) == 5 && Bits(0xf000) == 4
  {
    assert Bits(0xf) == 4;
    hide Bits;
    BitsOctal(0xf);
    BitsOctal(0x78);
    BitsOctal(0x7f);
    BitsOctal(0x3c0);
    BitsOctal(0x3c4);
    BitsOctal(0x3c7);
    BitsOctal(0x3ff);
    BitsOctal(0x1e00);
    BitsOctal(0x1e20);
    BitsOctal(0x1e38);
    BitsOctal(0x1ff8);
    BitsOctal(0x1fff);
  }

  // ------------------------------------------------ masks, field by field

  lemma AndBits(a: nat, c: nat)
    ensures And(a, 2 * c) == 2 * And(a / 2, c) && And(a, 2 * c + 1) == 2 * And(a / 2, c) + a % 2
  {
  }

  // Masks written in octal have the digits 0, 7, 4 and 1 only.
  lemma AndOctal(a: nat, c: nat)
    ensures And(a, 8 * c) == 8 * And(a / 8, c)
    ensures And(a, 8 * c + 7) == 8 * And(a / 8, c) + a % 8
    ensures And(a, 8 * c + 4) == 8 * And(a / 8, c) + 4 * (a / 4 % 2)
  {
    hide And;
    AndBits(a, 4 * c);
    AndBits(a, 4 * c + 3);
    AndBits(a, 4 * c + 2);
    AndBits(a / 2, 2 * c);
    AndBits(a / 2, 2 * c + 1);
    AndBits(a / 4, c);
    assert a / 2 / 2 == a / 4 && a / 4 / 2 == a / 8;
  }

  lemma AndOne(a: nat)
    ensures And(a, 1) == a % 2 && And(a, 0) == 0
  {
    AndBits(a, 0);
    AndZero(a);
    AndZero(a / 2);
  }

  lemma AndZero(a: nat)
    ensures And(a, 0) == 0
  {
  }

  lemma HighMasks(a: nat)
    requires a < 0x400
    ensures And(a, 0x3c0) == 0x40 * (a / 0x40)
    ensures And(a, 0x3c4) == 0x40 * (a / 0x40) + 4 * (a / 4 % 2)
    ensures And(a, 0x3c7) == 0x40 * (a / 0x40) + a % 8
  {
    hide And;
    AndOctal(a, 0x78);
    AndOctal(a / 8, 0xf);
    AndOctal(a / 0x40, 1);
    AndOne(a / 0x200);
    assert a / 8 / 8 == a / 0x40 && a / 0x40 / 8 == a / 0x200;
  }

  lemma LowClear(op: u16, c: nat)
    ensures And(op, 0x40 * c) == 0x40 * And(op / 0x40, c)
  {
    hide And;
    var c8, a8 := 8 * c, op / 8;
    AndOctal(op, c8);
    AndOctal(a8, c);
    assert 8 * c8 == 0x40 * c && a8 / 8 == op / 0x40;
  }

  lemma Masks(op: u16)
    ensures And(op, 0xf000) == 0x1000 * (op / 0x1000)
    ensures And(op, 0xf100) == 0x1000 * (op / 0x1000) + 0x100 * (op / 0x100 % 2)
    ensures And(op, 0xf1c0) == 0x1000 * (op / 0x1000) + 0x40 * (op / 0x40 % 8)
  {
    hide And;
    LowClear(op, 0x3c0);
    LowClear(op, 0x3c4);
    LowClear(op, 0x3c7);
    HighMasks(op / 0x40);
    assert op / 0x40 / 0x40 == op / 0x1000 && op / 0x40 / 4 == op / 0x100;
  }

  lemma MaskFfc0(op: u16)
    ensures And(op, 0xffc0) == 0x40 * And(op / 0x40, 0x3ff) && And(op, 0xffff) == 0x40 * And(op / 0x40, 0x3ff)
        + op % 0x40
  {
    hide And;
    AndOctal(op, 0x1ff8);
    AndOctal(op, 0x1fff);
    AndOctal(op / 8, 0x3ff);
    assert op / 8 / 8 == op / 0x40;
    assert op % 0x40 == 8 * (op / 8 % 8) + op % 8;
  }

  lemma Mask3ff(a: nat)
    requires a < 0x400
    ensures And(a, 0x3ff) == a
  {
    hide And;
    AndOctal(a, 0x7f);
    AndOctal(a / 8, 0xf);
    AndOctal(a / 64, 1);
    AndOne(a / 512);
    assert a / 8 / 8 == a / 64 && a / 64 / 8 == a / 512;
  }

  lemma MasksFull(op: u16)
    ensures And(op, 0xffc0) == 0x40 * (op / 0x40) && And(op, 0xffff) == op
  {
    hide And;
    MaskFfc0(op);
    Mask3ff(op / 0x40);
  }

  // ---------------------------------------------- table against decoder

  // What an opcode handler accepts: its own checks, on top of those of the table
  function HandlerDecode(h: Handler, img: Image, op: u16, pc: int): Option<Located> {
    match h
    case HRts => Some(Located(Rts, pc + 2))
    case HTst => if op / 0x40 % 4 == 2 then DecodeTst(op, pc) else None
    case HJsr => DecodeJsr(img, op, pc)
    case HSubq =>
      if op / 0x40 % 4 == 2 && op / 8 % 8 == 0 then Some(Located(Subq(op / 0x200 % 8, op % 8), pc + 2)) else None
    case HMovea => if op / 0x1000 % 4 == 2 then DecodeMovea(img, op, pc) else None
    case HMoveq => Some(Located(MoveqImm(op % 0x100, op / 0x200 % 8), pc + 2))
    case HBcc => DecodeBcc(img, op, pc)
    case HMove => if op / 0x1000 % 4 == 2 then DecodeMove(img, op, pc) else None
  }

  // Looking up the opcode and asking the handler found
  function TableDecode(img: Image, pc: int): Option<Located> {
    match FirstMatch(OPCODE_INFO_TBL, WordAt(img, pc))
    case None => None
    case Some(info) => HandlerDecode(info.handler, img, WordAt(img, pc), pc)
  }

  lemma RowMatches(op: u16)
    ensures And(op, 0xffff) == 0x4e75 <==> op == 0x4e75
    ensures And(op, 0xffc0) == 0x4a80 <==> op / 0x40 == 0x12a
    ensures And(op, 0xffc0) == 0x4e80 <==> op / 0x40 == 0x13a
    ensures And(op, 0xf1c0) == 0x5180 <==> op / 0x1000 == 5 && op / 0x40 % 8 == 6
    ensures And(op, 0xf1c0) == 0x2040 <==> op / 0x1000 == 2 && op / 0x40 % 8 == 1
    ensures And(op, 0xf100) == 0x7000 <==> op / 0x1000 == 7 && op / 0x100 % 2 == 0
    ensures And(op, 0xf000) == 0x1000 * (op / 0x1000)
  {
    hide And;
    Masks(op);
    MasksFull(op);
  }

  // The modes that the handlers accept are valid ones.
  lemma ModesValid(op: u16)
    ensures op % 0x40 < 8 ==> ValidEaMode(op, 0xbf8) && ValidEaMode(op, 0xff8) && ValidEaMode(op, 0xfff)
    ensures 8 <= op % 0x40 < 0x10 ==> !ValidEaMode(op, 0xbf8)
    ensures op % 0x40 == 0x2e ==> ValidEaMode(op, 0x27b)
    ensures op % 0x40 == 0x38 || op % 0x40 == 0x39 ==> ValidEaMode(op, 0xbf8) && ValidEaMode(op, 0xfff)
    ensures op % 0x40 == 0x3c ==> ValidEaMode(op, 0xfff)
  {
  }

  // What each row of the table accepts
  lemma RowsAccept(op: u16)
    ensures var t, dst := OPCODE_INFO_TBL, ValidEaMode(DestinationField(op), MOVE_EA_MASK);
            && (Accepts(t[0], op) <==> op == 0x4e75)
            && (Accepts(t[1], op) <==> op / 0x40 == 0x12a && ValidEaMode(op, 0xbf8))
            && (Accepts(t[2], op) <==> op / 0x40 == 0x13a && ValidEaMode(op, 0x27b))
            && (Accepts(t[3], op) <==> op / 0x1000 == 5 && op / 0x40 % 8 == 6 && ValidEaMode(op, 0xff8))
            && (Accepts(t[4], op) <==> op / 0x1000 == 2 && op / 0x40 % 8 == 1 && ValidEaMode(op, 0xfff))
            && (Accepts(t[5], op) <==> op / 0x1000 == 7 && op / 0x100 % 2 == 0)
            && (Accepts(t[6], op) <==> op / 0x1000 == 6)
            && (Accepts(t[7], op) <==> op / 0x1000 == 1 && dst && ValidEaMode(op, 0xbff))
            && (Accepts(t[8], op) <==> op / 0x1000 == 3 && dst && ValidEaMode(op, 0xfff))
            && (Accepts(t[9], op) <==> op / 0x1000 == 2 && dst && ValidEaMode(op, 0xfff))
  {
    hide And, ModeBit, DestinationField;
    RowMatches(op);
  }

  lemma {:induction false} FirstMatchAt(table: seq<OpcodeInfo>, op: u16, k: nat)
    requires k <= |table| && forall j: nat :: j < k ==> !Accepts(table[j], op)
    requires k < |table| ==> Accepts(table[k], op)
    ensures FirstMatch(table, op) == if k < |table| then Some(table[k]) else None
  {
    hide Accepts;
    if k > 0 {
      FirstMatchAt(table[1..], op, k - 1);
    }
  }

  // The row that is found for an opcode; 10 if there is none
  function Row(op: u16): nat {
    if op == 0x4e75 then 0
    else if op / 0x40 == 0x12a && ValidEaMode(op, 0xbf8) then 1
    else if op / 0x40 == 0x13a && ValidEaMode(op, 0x27b) then 2
    else if op / 0x1000 == 5 && op / 0x40 % 8 == 6 && ValidEaMode(op, 0xff8) then 3
    else if op / 0x1000 == 2 && op / 0x40 % 8 == 1 && ValidEaMode(op, 0xfff) then 4
    else if op / 0x1000 == 7 && op / 0x100 % 2 == 0 then 5
    else if op / 0x1000 == 6 then 6
    else if op / 0x1000 == 1 && ValidEaMode(DestinationField(op), MOVE_EA_MASK) && ValidEaMode(op, 0xbff) then 7
    else if op / 0x1000 == 3 && ValidEaMode(DestinationField(op), MOVE_EA_MASK) && ValidEaMode(op, 0xfff) then 8
    else if op / 0x1000 == 2 && ValidEaMode(DestinationField(op), MOVE_EA_MASK) && ValidEaMode(op, 0xfff) then 9
    else 10
  }

  lemma Lookup(op: u16)
    ensures FirstMatch(OPCODE_INFO_TBL, op) == if Row(op) < 10 then Some(OPCODE_INFO_TBL[Row(op)]) else None
  {
    hide Accepts, FirstMatch, ValidEaMode, DestinationField;
    RowsAccept(op);
    FirstMatchAt(OPCODE_INFO_TBL, op, Row(op));
  }

  // No handler accepts a mode that the table rules out.
  lemma HandlersNeed(img: Image, op: u16, pc: int)
    ensures DecodeTst(op, pc).Some? ==> ValidEaMode(op, 0xbf8)
    ensures DecodeJsr(img, op, pc).Some? ==> ValidEaMode(op, 0x27b)
    ensures DecodeSubq(op, pc).Some? ==> ValidEaMode(op, 0xff8)
    ensures DecodeMovea(img, op, pc).Some? ==> ValidEaMode(op, 0xfff)
  {
    hide ValidEaMode, WordAt, LongAt;
    ModesValid(op);
    LowMode(op);
  }

  lemma LowMode(op: u16)
    ensures op / 8 % 8 == 0 ==> op % 0x40 < 8
  {
  }

  lemma MoveNeeds(img: Image, op: u16, pc: int)
    ensures DecodeMove(img, op, pc).Some? ==> ValidEaMode(DestinationField(op), MOVE_EA_MASK) && ValidEaMode(op, 0xfff)
  {
    hide ValidEaMode, WordAt, LongAt, DestinationField;
    ModesValid(op);
    ModesValid(DestinationField(op));
  }

  // MOVE to an address register is MOVEA, even where MOVEA is not possible.
  lemma NoMoveToAddressRegister(op: u16)
    requires op / 0x40 % 8 == 1
    ensures !ValidEaMode(DestinationField(op), MOVE_EA_MASK)
  {
    hide ValidEaMode;
    ModesValid(DestinationField(op));
  }

  lemma OpcodeGroups(op: u16)
    ensures op == 0x4e75 ==> op / 0x40 == 0x139 && op / 0x1000 == 4
    ensures op / 0x40 == 0x12a || op / 0x40 == 0x13a ==> op / 0x1000 == 4 && op / 0x40 % 4 == 2
    ensures op / 0x40 % 8 == 6 ==> op / 0x40 % 4 == 2
  {
  }

  // The table and its handlers accept exactly the instructions of the subset.
  lemma TableDecodes(img: Image, pc: int)
    ensures TableDecode(img, pc) == GDecode(img, pc)
  {
    hide FirstMatch, ValidEaMode, WordAt, DestinationField, DecodeTst, DecodeMovea, DecodeMove, DecodeJsr, DecodeBcc;
    hide Accepts, And, OperandAt, LongAt;
    var op := WordAt(img, pc);
    Lookup(op);
    HandlersNeed(img, op, pc);
    MoveNeeds(img, op, pc);
    OpcodeGroups(op);
    if op / 0x40 % 8 == 1 {
      NoMoveToAddressRegister(op);
    }
  }

  // Marked as terminal are exactly the instructions that end a unit.
  lemma TableTerminals(img: Image, pc: int)
    requires GDecode(img, pc).Some?
    ensures FirstMatch(OPCODE_INFO_TBL, WordAt(img, pc)).Some?
    ensures FirstMatch(OPCODE_INFO_TBL, WordAt(img, pc)).value.terminal == Terminal(GDecode(img, pc).value.i)
  {
    hide GDecode, FirstMatch, ValidEaMode, WordAt, OperandAt;
    TableDecodes(img, pc);
    Lookup(WordAt(img, pc));
  }

  // The branch handler gets exactly the opcodes with high nibble 6.
  lemma TableBranches(op: u16)
    ensures op / 0x1000 == 6 <==> FirstMatch(OPCODE_INFO_TBL, op) == Some(OPCODE_INFO_TBL[6])
    ensures FirstMatch(OPCODE_INFO_TBL, op).Some? && FirstMatch(OPCODE_INFO_TBL, op).value.handler.HBcc?
            ==> op / 0x1000 == 6
  {
    hide FirstMatch, ValidEaMode, DestinationField;
    Lookup(op);
  }
}
