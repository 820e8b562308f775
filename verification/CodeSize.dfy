/** Lengths of the emitted call sequences. */
module CodeSize {
  import opened Base
  import opened X86
  import opened CodeGen

  const STUB_SIZE := 62

  lemma StubSize(f: u64, arg: u64)
    ensures |EncAll(TransparentCall(f, arg))| == STUB_SIZE
  {
    hide Enc, Pushes, Pops, AbsCall;
    var a, b, c := Pushes(SAVED_STATE), [Pushfq, MovImm64(RDI, arg)], AbsCall(f);
    EncAllAppend(a + b + c + [Popfq], Pops(SAVED_STATE));
    EncAllAppend(a + b + c, [Popfq]);
    EncAllAppend(a + b, c);
    EncAllAppend(a, b);
    SavedSize();
    CallSize(f, arg);
  }

  lemma SavedSize()
    ensures |EncAll(Pushes(SAVED_STATE))| == 13 && |EncAll(Pops(SAVED_STATE))| == 13
  {
    hide Pushes, Pops;
    PushSizes(SAVED_STATE);
    var rs := SAVED_STATE;
    assert rs[2..][2..] == rs[4..] && rs[4..][2..] == rs[6..] && rs[6..][2..] == rs[8..] && rs[8..][1..] == [];
    ExtendedTwo(rs);
    ExtendedTwo(rs[2..]);
    ExtendedTwo(rs[4..]);
    ExtendedTwo(rs[6..]);
    assert Extended(rs[8..]) == 0;
  }

  lemma ExtendedTwo(rs: seq<Reg>)
    requires |rs| >= 2
    ensures Extended(rs) == (if rs[0] >= 8 then 1 else 0) + (if rs[1] >= 8 then 1 else 0) + Extended(rs[2..])
  {
    assert rs[1..][1..] == rs[2..];
  }

  function Extended(rs: seq<Reg>): nat {
    if rs == [] then 0 else (if rs[0] >= 8 then 1 else 0) + Extended(rs[1..])
  }

  lemma PushSizes(rs: seq<Reg>)
    ensures |EncAll(Pushes(rs))| == |rs| + Extended(rs) == |EncAll(Pops(rs))|
  {
    hide Enc;
    if rs != [] {
      PushSizes(rs[1..]);
      PushSize(rs[0]);
      EncAllAppend([Push(rs[0])], Pushes(rs[1..]));
      EncAllAppend(Pops(rs[1..]), [Pop(rs[0])]);
    }
  }

  lemma PushSize(r: Reg)
    ensures |EncAll([Push(r)])| == |EncAll([Pop(r)])| == if r >= 8 then 2 else 1
  {
    EncAllOne(Push(r));
    EncAllOne(Pop(r));
  }

  lemma TwoSizes(a: Instr, b: Instr)
    ensures |EncAll([a, b])| == |Enc(a)| + |Enc(b)|
  {
    hide Enc;
    assert [a, b] == [a] + [b];
    EncAllAppend([a], [b]);
    EncAllOne(a);
    EncAllOne(b);
  }

  lemma CallSize(f: u64, arg: u64)
    ensures |EncAll([Pushfq, MovImm64(RDI, arg)])| == 11 && |EncAll(AbsCall(f))| == 24 && |EncAll([Popfq])| == 1
  {
    hide EncAll, LE64;
    TwoSizes(Pushfq, MovImm64(RDI, arg));
    EncAllOne(Popfq);
    EncAllAppend(AbsCallEnter(f) + [CallReg(RAX)], ABS_CALL_LEAVE);
    EncAllAppend(AbsCallEnter(f), [CallReg(RAX)]);
    EncAllOne(CallReg(RAX));
    EnterSize(f);
    TwoSizes(MovReg64(RBP, RSP), Pop(RBP));
  }

  lemma EnterSize(f: u64)
    ensures |EncAll(AbsCallEnter(f))| == 18
  {
    hide EncAll, LE64;
    var a, b, c, d := Push(RBP), MovReg64(RSP, RBP), AndMinus16(RSP), MovImm64(RAX, f);
    assert AbsCallEnter(f) == [a, b] + [c, d];
    EncAllAppend([a, b], [c, d]);
    TwoSizes(a, b);
    TwoSizes(c, d);
  }
}
