/** Library calls from end to end: the processor runs through the jump table and the thunk that
    load_library() has put into a library's block, and comes back to the caller. */
module LibraryRun {
  import opened Base
  import opened X86
  import opened Cpu
  import opened CodeGen
  import opened M68k
  import opened Relation
  import opened Thunk
  import opened JumpTables
  import opened LibraryCalls

  // A library's block of memory, which ends at the base that OpenLibrary() returns
  datatype Block = Block(base: u64, mem: seq<byte>)

  datatype State = State(cpu: Cpu, rip: int)

  predicate BlockOk(b: Block, log: u64, tbl: seq<FuncInfo>) {
    LIB_JUMP_TBL_SIZE <= b.base && Tables(log, tbl, b.mem)
  }

  function Position(b: Block, rip: int): int { rip - b.base + LIB_JUMP_TBL_SIZE }

  // One instruction of the block; None at INT3, outside the block and where nothing can be decoded
  function Step(call: Calls, b: Block, s: State): Option<State> {
    var at := Position(b, s.rip);
    if !(0 <= at < |b.mem|) then None
    else
      match Decode(b.mem[at..])
      case None => None
      case Some(Decoded(i, len)) => ExecAt(call, i, s.cpu, s.rip + len)
  }

  function ExecAt(call: Calls, i: Instr, c: Cpu, next: int): Option<State> {
    if Straight(i) then Some(State(Exec(call, i, c), next))
    else
      match i
      case Jmp32(rel) => Some(State(c, Low64(next + Signed32(rel))))
      case Ret => Some(State(SetReg(c, RSP, Low64(Sp(c) + 8)), Load64(c.mem, Sp(c))))
      case _ => None
  }

  function Run(call: Calls, b: Block, s: State, n: nat): Option<State>
    decreases n
  {
    if n == 0 then Some(s)
    else
      match Step(call, b, s)
      case None => None
      case Some(t) => Run(call, b, t, n - 1)
  }

  lemma {:induction false} RunAdd(call: Calls, b: Block, s: State, m: nat, n: nat)
    requires Run(call, b, s, m).Some?
    ensures Run(call, b, s, m + n) == Run(call, b, Run(call, b, s, m).value, n)
    decreases m
  {
    hide Step;
    if m > 0 {
      RunAdd(call, b, Step(call, b, s).value, m - 1, n);
    }
  }

  lemma RunOne(call: Calls, b: Block, s: State)
    ensures Run(call, b, s, 1) == Step(call, b, s)
  {
    hide Step;
    if Step(call, b, s).Some? {
      assert Run(call, b, Step(call, b, s).value, 0) == Step(call, b, s);
    }
  }

  lemma StepEnc(call: Calls, b: Block, s: State, i: Instr)
    requires CodeAt(b.mem, Position(b, s.rip), Enc(i))
    ensures Step(call, b, s) == ExecAt(call, i, s.cpu, s.rip + |Enc(i)|)
  {
    hide Enc, Decode, ExecAt;
    var at := Position(b, s.rip);
    assert b.mem[at..][..|Enc(i)|] == b.mem[at..at + |Enc(i)|];
    DecodeEnc(i, b.mem[at..]);
  }

  // --------------------------------------------------------- straight code

  predicate AllStraight(xs: seq<Instr>) { forall i :: 0 <= i < |xs| ==> Straight(xs[i]) }

  lemma {:induction false} RunStraight(call: Calls, b: Block, s: State, xs: seq<Instr>)
    requires AllStraight(xs) && CodeAt(b.mem, Position(b, s.rip), EncAll(xs))
    ensures Run(call, b, s, |xs|) == Some(State(ExecAll(call, xs, s.cpu), s.rip + |EncAll(xs)|))
    decreases |xs|
  {
    hide Enc, Exec, Step;
    if xs != [] {
      CodeAtSplit(b.mem, Position(b, s.rip), Enc(xs[0]), EncAll(xs[1..]));
      StepEnc(call, b, s, xs[0]);
      RunStraight(call, b, Step(call, b, s).value, xs[1..]);
    }
  }

  lemma {:induction false} SavesStraight(rs: seq<Reg>)
    ensures AllStraight(Pushes(rs)) && AllStraight(Pops(rs))
    decreases |rs|
  {
    if rs != [] {
      SavesStraight(rs[1..]);
    }
  }

  lemma {:induction false} MovesStraight(ms: seq<Move>)
    ensures AllStraight(MoveInstrs(ms))
    decreases |ms|
  {
    if ms != [] {
      MovesStraight(ms[..|ms| - 1]);
    }
  }

  lemma ThunkStraight(log: u64, name: u64, func: u64, a: string)
    requires ArgRegsOk(a)
    ensures AllStraight(ThunkBody(log, name, func, a))
  {
    hide Pushes, Pops, MoveInstrs, ArgMoves;
    SavesStraight(SAVED_STATE);
    SavesStraight(SAVED_BY_CALLEE);
    MovesStraight(ArgMoves(a, NumArgs(a)));
  }

  // ------------------------------------------------------------ the call

  // The jump table leads to the thunk of the row that counts for an offset.
  lemma EntryStep(call: Calls, b: Block, log: u64, tbl: seq<FuncInfo>, i: nat, c: Cpu)
    requires BlockOk(b, log, tbl) && LastWithOffset(tbl, |tbl|, i)
    ensures Step(call, b, State(c, b.base - tbl[i].offset))
            == if tbl[i].func.None? then None
               else Some(State(c, b.base - LIB_JUMP_TBL_SIZE + ThunkStart(log, tbl, i)))
  {
    hide Enc, Decode, ThunkStart, Entries, Thunks, Fits, Low32, Low64, Signed32, EntryBytes;
    CallsReachThunks(b.base, log, tbl, b.mem, i);
    assert RowOk(tbl[i]) && CodeAt(b.mem, EntryPos(tbl[i]), EntryBytes(tbl[i], ThunkStart(log, tbl, i))) by {
      EntryOf(log, tbl, b.mem, i);
    }
    EntryDecoded(tbl[i], ThunkStart(log, tbl, i), b.mem);
  }

  lemma EntryOf(log: u64, tbl: seq<FuncInfo>, mem: seq<byte>, i: nat)
    requires RowsOk(tbl) && Entries(log, tbl, |tbl|, mem) && LastWithOffset(tbl, |tbl|, i)
    ensures RowOk(tbl[i]) && CodeAt(mem, EntryPos(tbl[i]), EntryBytes(tbl[i], ThunkStart(log, tbl, i)))
  {
  }

  // A run through a thunk and its RET
  lemma ThunkRuns(call: Calls, b: Block, s: State, log: u64, name: u64, func: u64, a: string)
    requires ArgRegsOk(a)
    requires CodeAt(b.mem, Position(b, s.rip), EncAll(ThunkInstrs(log, name, func, a)))
    ensures var v := ExecAll(call, ThunkBody(log, name, func, a), s.cpu);
            Run(call, b, s, |ThunkBody(log, name, func, a)| + 1)
            == Some(State(SetReg(v, RSP, Low64(Sp(v) + 8)), Load64(v.mem, Sp(v))))
  {
    hide ThunkBody, EncAll, Enc, Exec, ExecAll, Step, Run, Load64, Low64;
    var xs := ThunkBody(log, name, func, a);
    EncAllAppend(xs, [Ret]);
    EncAllOne(Ret);
    CodeAtSplit(b.mem, Position(b, s.rip), EncAll(xs), Enc(Ret));
    ThunkStraight(log, name, func, a);
    RunStraight(call, b, s, xs);
    RunAdd(call, b, s, |xs|, 1);
    var t := Run(call, b, s, |xs|).value;
    RunOne(call, b, t);
    StepEnc(call, b, t, Ret);
  }

  // A row whose function has its arguments in distinct places and returns its result in D0
  predicate Implemented(row: FuncInfo) {
    row.func.Some? && ArgRegsOk(row.argRegs) && ArgsClear(row.argRegs) && ResultReg(row.argRegs) == D0
  }

  // The state in which a call of the row's thunk comes back
  function RowCall(call: Calls, log: u64, row: FuncInfo, ret: u64, s: Cpu): Cpu
    requires Implemented(row)
  {
    ThunkCall(call, log, row.name, row.func.value, row.argRegs, ret, s)
  }

  function RowSteps(log: u64, row: FuncInfo): nat
    requires Implemented(row)
  {
    |ThunkBody(log, row.name, row.func.value, row.argRegs)| + 2
  }

  ghost predicate RowAbi(env: Env, call: Calls, log: u64, row: FuncInfo, lo: int, s: Cpu)
    requires Implemented(row)
  {
    && 168 <= s.regs[RSP] <= env.sp && lo + 168 <= s.regs[RSP] && env.sp + 8 < TWO64
    && Abi(lo, env.sp + 8, call, log) && Abi(lo, env.sp + 8, call, row.func.value)
  }

  // A call of the entry for an offset: JMP, the thunk, RET. It comes back to the caller, who finds
  // in D0 what the C function returned, and the registers and the stack kept that AmigaOS promises
  // to keep, as long as the C functions follow the ABI.
  lemma LibraryCallReturns(env: Env, call: Calls, b: Block, log: u64, tbl: seq<FuncInfo>, i: nat,
                           ret: u64, lo: int, s: Cpu)
    requires BlockOk(b, log, tbl) && LastWithOffset(tbl, |tbl|, i) && Implemented(tbl[i])
    requires RowAbi(env, call, log, tbl[i], lo, s)
    ensures Run(call, b, State(Entered(s, ret), b.base - tbl[i].offset), RowSteps(log, tbl[i]))
            == Some(State(RowCall(call, log, tbl[i], ret, s), ret))
    ensures var row, t := tbl[i], RowCall(call, log, tbl[i], ret, s);
            && CallKept(env, s, t)
            && ArgumentsIn(Called(call, log, row.name, row.func.value, row.argRegs, Entered(s, ret)), row.argRegs, s)
            && t.regs[GuestReg(D0)]
               == Result(call, log, row.name, row.func.value, row.argRegs, Entered(s, ret))
  {
    hide Abi, Entered, ThunkBody, ThunkInstrs, EncAll, ExecAll, Step, Run, ThunkStart, Called, Result, GuestReg;
    hide ParamReg, Load64, ArgsClear, BlockOk, SameMem, ArgumentsIn;
    var name, func, a := tbl[i].name, tbl[i].func.value, tbl[i].argRegs;
    var e := Entered(s, ret);
    ThunkKeepsContract(env, call, log, name, func, a, ret, lo, s);
    EnteredEffect(s, ret);
    var s0 := State(e, b.base - tbl[i].offset);
    EntryStep(call, b, log, tbl, i, e);
    var s1 := Step(call, b, s0).value;
    RunOne(call, b, s0);
    RunAdd(call, b, s0, 1, |ThunkBody(log, name, func, a)| + 1);
    ThunkPlace(b, log, tbl, i);
    ThunkRuns(call, b, s1, log, name, func, a);
    var v := ExecAll(call, ThunkBody(log, name, func, a), e);
    var t := ThunkCall(call, log, name, func, a, ret, s);
    assert Low64(Sp(v) + 8) == s.regs[RSP] by {
      assert Preserved(A7) && t.regs[GuestReg(A7)] == s.regs[GuestReg(A7)];
      GuestRegs();
    }
    PopBack(Sp(v), s.regs[RSP]);
  }

  lemma PopBack(sp: int, was: int)
    requires 0 <= sp < TWO64 && was >= 8 && Low64(sp + 8) == was
    ensures sp == was - 8
  {
  }

  lemma ThunkPlace(b: Block, log: u64, tbl: seq<FuncInfo>, i: nat)
    requires BlockOk(b, log, tbl) && LastWithOffset(tbl, |tbl|, i) && tbl[i].func.Some?
    ensures ArgRegsOk(tbl[i].argRegs)
    ensures CodeAt(b.mem, ThunkStart(log, tbl, i),
                   EncAll(ThunkInstrs(log, tbl[i].name, tbl[i].func.value, tbl[i].argRegs)))
  {
    hide ThunkStart, CallTarget, CodeAt, Entries, Thunks, Fits, EncAll, ThunkInstrs;
    assert RowOk(tbl[i]);
    CallsReachThunks(b.base, log, tbl, b.mem, i);
  }

  // An entry for a function that is not implemented stops the guest.
  lemma UnimplementedStops(call: Calls, b: Block, log: u64, tbl: seq<FuncInfo>, i: nat, c: Cpu, n: nat)
    requires BlockOk(b, log, tbl) && LastWithOffset(tbl, |tbl|, i) && tbl[i].func.None? && n > 0
    ensures Run(call, b, State(c, b.base - tbl[i].offset), n) == None
  {
    hide Step;
    EntryStep(call, b, log, tbl, i, c);
  }

  // The guest's JSR -offset(A6) with the library's base in A6 calls the entry for that offset.
  lemma JsrReachesEntry(base: u32, offset: u16, g: GuestState)
    requires g.regs[A6] == base && offset <= base && 0 < offset <= 0x8000
    ensures var back: int := offset; Entry(Low16(-back), g) == base - offset
  {
  }

  function Low16(x: int): u16 { x % 0x1_0000 }
}
