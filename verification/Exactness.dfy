/** Where the translator is narrower than the 680x0: exactly when translated code does the same. */
module Exactness {
  import opened Base
  import opened X86
  import opened Cpu
  import opened CodeGen
  import opened M68k
  import opened Translation
  import opened Relation
  import opened TlCache
  import opened Engine
  import opened Handlers

  // ------------------------------------------------------- instructions

  // The data field of SUBQ is emitted as it is. The result is right exactly when it is not 0,
  // which stands for 8.
  lemma SubqExact(env: Env, exit: u64, call: Calls, field: Num, n: Num, g: GuestState, s: Cpu)
    requires Rel(env, exit, g, s)
    ensures Low32(ExecAll(call, Emits(Subq(field, n)), s).regs[Dn(n)]) == GExec(env, Subq(field, n), g).regs[n]
            <==> field != 0
  {
    hide Rel, GuestReg, WithZF;
    DataReg(env, exit, g, s, n);
    ExecOne(call, SubImm8(Dn(n), field), s);
    Low32Minus(s.regs[Dn(n)], field);
    Low32Idempotent(s.regs[Dn(n)] - field);
    if field == 0 {
      EightOff(g.regs[n]);
    }
  }

  lemma Low32Idempotent(x: int)
    ensures Low32(Low32(x)) == Low32(x)
  {
  }

  lemma EightOff(x: u32)
    ensures Low32(x - 8) != x == Low32(x)
  {
  }

  // What MOVE and MOVEQ move
  function Moved(g: GuestState, i: GInstr): u32
    requires i.MoveqImm? || i.MoveMem? || i.MoveImm? || i.MoveToMem? || i.MoveReg?
  {
    match i
    case MoveqImm(data, _) => Low32(Signed8(data))
    case MoveMem(ea, _) => ReadLong(g, Address(ea))
    case MoveImm(v, _) => v
    case MoveToMem(n, _) => g.regs[n]
    case MoveReg(m, _) => g.regs[m]
  }

  // MOVE and MOVEQ leave the host's zero flag alone. Z is right afterwards exactly when the flag
  // happened to say already whether the moved value is 0.
  lemma MoveZExact(env: Env, call: Calls, i: GInstr, g: GuestState, s: Cpu)
    requires i.MoveqImm? || i.MoveMem? || i.MoveImm? || i.MoveToMem? || i.MoveReg?
    ensures GExec(env, i, g).z == ZF(ExecAll(call, Emits(i), s).flags) <==> (Moved(g, i) == 0) == ZF(s.flags)
  {
    hide GuestReg, LE32, Load32;
    ExecOne(call, Emits(i)[0], s);
  }

  // So after MOVEQ #0 Z is set on the 680x0 and may be clear in the translation.
  lemma StaleZ(env: Env, call: Calls, g: GuestState, s: Cpu, n: Num)
    requires !ZF(s.flags)
    ensures GExec(env, MoveqImm(0, n), g).z && !ZF(ExecAll(call, Emits(MoveqImm(0, n)), s).flags)
  {
    MoveZExact(env, call, MoveqImm(0, n), g, s);
  }

  // --------------------------------------------------------- block sizes

  lemma InstrBound(img: Image, pc: int)
    requires GDecode(img, pc).Some?
    ensures var Located(i, next) := GDecode(img, pc).value;
            if Terminal(i) then LastSize(Ends(i, next)) <= 3 * (next - pc)
                + 5 else |EncAll(Emits(i))| <= 3 * (next - pc)
  {
    hide EncAll, Emits, WordAt, LongAt;
    var Located(i, next) := GDecode(img, pc).value;
    if !Terminal(i) {
      Sizes(i);
    }
  }

  // A unit of n source bytes is translated to at most 3n + 5 bytes.
  lemma {:induction false} ExpansionBound(img: Image, pc: int)
    ensures EmittedSize(ScanTu(img, pc)) <= 3 * ScanTu(img, pc).size + 5
    decreases HUNK_START_ADDRESS + |img| - pc
  {
    hide GDecode, EncAll, Emits;
    DecodeAdvances(img, pc);
    if GDecode(img, pc).Some? {
      var Located(i, next) := GDecode(img, pc).value;
      InstrBound(img, pc);
      if !Terminal(i) {
        ExpansionBound(img, next);
        BodyStep(i, ScanTu(img, next).body);
      }
    }
    NoBody();
  }

  lemma BodyStep(i: GInstr, body: seq<GInstr>)
    ensures |EncAll(EmitsAll([i] + body))| == |EncAll(Emits(i))| + |EncAll(EmitsAll(body))|
  {
    hide Emits, Enc;
    assert ([i] + body)[1..] == body;
    EncAllAppend(Emits(i), EmitsAll(body));
  }

  lemma NoBody()
    ensures EncAll(EmitsAll([])) == []
  {
  }

  lemma FitsIfSmall(img: Image, src: u64)
    requires ScanTu(img, src).size <= 297
    ensures Fits(img, src)
  {
    hide EmittedSize;
    ExpansionBound(img, src);
  }

  // k times MOVEQ #0,D0 and a BEQ with a short displacement
  predicate Moveqs(img: Image, pc: int, k: nat) {
    && (forall j: nat :: j < k ==> WordAt(img, pc + 2 * j) == 0x7000)
    && 0x6701 <= WordAt(img, pc + 2 * k) < 0x67ff
  }

  lemma DecodeMoveqs(img: Image, pc: int)
    ensures WordAt(img, pc) == 0x7000 ==> GDecode(img, pc) == Some(Located(MoveqImm(0, 0), pc + 2))
    ensures 0x6701 <= WordAt(img, pc) < 0x67ff ==>
              GDecode(img, pc).Some? && GDecode(img, pc).value.i.BranchZ? && GDecode(img, pc).value.next == pc + 2
  {
    hide WordAt;
  }

  // The bound is attained, whatever the length.
  lemma {:induction false} BoundAttained(img: Image, pc: int, k: nat)
    requires Moveqs(img, pc, k)
    ensures ScanTu(img, pc).size == 2 * k + 2 && EmittedSize(ScanTu(img, pc)) == 3 * (2 * k + 2) + 5
    decreases k
  {
    hide WordAt, EncAll, Emits, GDecode;
    NoBody();
    DecodeMoveqs(img, pc);
    DecodeAdvances(img, pc);
    if k > 0 {
      assert WordAt(img, pc + 2 * 0) == 0x7000;
      forall j: nat | j < k - 1
        ensures WordAt(img, pc + 2 + 2 * j) == 0x7000
      {
        assert WordAt(img, pc + 2 * (j + 1)) == 0x7000;
      }
      BoundAttained(img, pc + 2, k - 1);
      Sizes(MoveqImm(0, 0));
      BodyStep(MoveqImm(0, 0), ScanTu(img, pc + 2).body);
    }
  }

  // Hence with 298 source bytes a unit may overrun its block: this one does.
  lemma TooLarge(img: Image, src: u64, k: nat)
    requires Moveqs(img, src, k)
    ensures Fits(img, src) <==> k <= 147
  {
    hide EmittedSize;
    BoundAttained(img, src, k);
  }
}
