/** The table of test cases in translate.h, as statements about the decoder and the translation. */
module TestCases {
  import opened Base
  import opened X86
  import opened M68k
  import opened Translation
  import opened Assembler
  import opened MachineCode

  // The bytes of one 680x0 instruction are translated to these bytes.
  predicate Case(m68k: seq<byte>, x86: seq<byte>) {
    match GDecode(m68k, HUNK_START_ADDRESS)
    case None => false
    case Some(Located(i, next)) =>
      !Terminal(i) && next == HUNK_START_ADDRESS + |m68k| && EncAll(Emits(i)) == x86
  }

  lemma CaseOf(i: GInstr, m68k: seq<byte>, x86: seq<byte>)
    requires !Terminal(i) && Assemble(Plain(i)) == m68k && Translated(i) == x86
    ensures Case(m68k, x86)
  {
    hide GDecode, EncAll, Emits, Assemble, Translated;
    assert InMemory(m68k, HUNK_START_ADDRESS, m68k);
    AssembledDecodes(m68k, HUNK_START_ADDRESS, Plain(i));
    TranslationExact(i);
  }

  // Outside the tests, address 4 is replaced.
  lemma MoveaLoads()
    ensures Case([0x2c, 0x78, 0x00, 0x04], [0x8b, 0x34, 0x25, 0x00, 0x00, 0x30, 0x00])
    ensures Case([0x2e, 0x79, 0xde, 0xad, 0xbe, 0xef], [0x8b, 0x24, 0x25, 0xef, 0xbe, 0xad, 0xde])
  {
    hide Case;
    CaseOf(MoveaMem(AbsW(4), 6), [0x2c, 0x78, 0x00, 0x04], [0x8b, 0x34, 0x25, 0x00, 0x00, 0x30, 0x00]);
    CaseOf(MoveaMem(AbsL(0xdeadbeef), 7), [0x2e, 0x79, 0xde, 0xad, 0xbe, 0xef],
           [0x8b, 0x24, 0x25, 0xef, 0xbe, 0xad, 0xde]);
  }

  lemma MoveaConstant()
    ensures Case([0x28, 0x7c, 0xde, 0xad, 0xbe, 0xef], [0xbf, 0xef, 0xbe, 0xad, 0xde])
  {
    hide Case;
    CaseOf(MoveaImm(0xdeadbeef, 4), [0x28, 0x7c, 0xde, 0xad, 0xbe, 0xef], [0xbf, 0xef, 0xbe, 0xad, 0xde]);
  }

  lemma MoveqCases()
    ensures Case([0x70, 0x80], [0x41, 0xb8, 0x80, 0xff, 0xff, 0xff])
    ensures Case([0x72, 0x7f], [0x41, 0xb9, 0x7f, 0x00, 0x00, 0x00])
  {
    hide Case;
    CaseOf(MoveqImm(0x80, 0), [0x70, 0x80], [0x41, 0xb8, 0x80, 0xff, 0xff, 0xff]);
    CaseOf(MoveqImm(0x7f, 1), [0x72, 0x7f], [0x41, 0xb9, 0x7f, 0x00, 0x00, 0x00]);
  }

  lemma MoveLoad()
    ensures Case([0x20, 0x39, 0x55, 0x55, 0xaa, 0xaa], [0x44, 0x8b, 0x04, 0x25, 0xaa, 0xaa, 0x55, 0x55])
  {
    hide Case;
    CaseOf(MoveMem(AbsL(0x5555aaaa), 0), [0x20, 0x39, 0x55, 0x55, 0xaa, 0xaa],
           [0x44, 0x8b, 0x04, 0x25, 0xaa, 0xaa, 0x55, 0x55]);
  }

  lemma MoveStore()
    ensures Case([0x23, 0xc1, 0x55, 0x55, 0xaa, 0xaa], [0x44, 0x89, 0x0c, 0x25, 0xaa, 0xaa, 0x55, 0x55])
  {
    hide Case;
    CaseOf(MoveToMem(1, AbsL(0x5555aaaa)), [0x23, 0xc1, 0x55, 0x55, 0xaa, 0xaa],
           [0x44, 0x89, 0x0c, 0x25, 0xaa, 0xaa, 0x55, 0x55]);
  }

  lemma MoveConstant()
    ensures Case([0x22, 0x3c, 0x55, 0x55, 0xaa, 0xaa], [0x41, 0xb9, 0xaa, 0xaa, 0x55, 0x55])
  {
    hide Case;
    CaseOf(MoveImm(0x5555aaaa, 1), [0x22, 0x3c, 0x55, 0x55, 0xaa, 0xaa], [0x41, 0xb9, 0xaa, 0xaa, 0x55, 0x55]);
  }

  lemma MoveRegister()
    ensures Case([0x26, 0x02], [0x45, 0x89, 0xd3])
  {
    hide Case;
    CaseOf(MoveReg(2, 3), [0x26, 0x02], [0x45, 0x89, 0xd3]);
  }

  lemma OtherCases()
    ensures Case([0x53, 0x82], [0x41, 0x83, 0xea, 0x01])
    ensures Case([0x4a, 0x80], [0x45, 0x85, 0xc0])
    ensures Case([0x4e, 0xae, 0xfc, 0x4c], [0x56, 0x81, 0xc6, 0x4c, 0xfc, 0xff, 0xff, 0xff, 0xd6, 0x5e])
  {
    hide Case;
    CaseOf(Subq(1, 2), [0x53, 0x82], [0x41, 0x83, 0xea, 0x01]);
    CaseOf(Tst(0), [0x4a, 0x80], [0x45, 0x85, 0xc0]);
    CaseOf(JsrLib(0xfc4c), [0x4e, 0xae, 0xfc, 0x4c],
           [0x56, 0x81, 0xc6, 0x4c, 0xfc, 0xff, 0xff, 0xff, 0xd6, 0x5e]);
  }
}
