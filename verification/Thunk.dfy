/** Thunks between the guest's and the host's calling convention (execute.c). */
module Thunk {
  import opened Base
  import opened X86
  import opened Cpu
  import opened CodeGen
  import opened CodeSize
  import opened Emit

  // ----------------------------------------------------- argument strings

  predicate IsHex(c: char) { '0' <= c <= '9' || 'A' <= c <= 'F' || 'a' <= c <= 'f' }

  function HexValue(c: char): RegNum
    requires IsHex(c)
  {
    if '0' <= c <= '9' then c as int - '0' as int
    else if 'A' <= c <= 'F' then c as int - 'A' as int + 10
    else c as int - 'a' as int + 10
  }

  // The registers of the arguments, last argument first, then the register of the result and the
  // number of arguments; one hexadecimal digit each
  predicate ArgRegsOk(s: string) {
    && s != [] && IsHex(s[|s| - 1])
    && NumArgs(s) <= |X86_REGS_FOR_FUNC_ARGS| && NumArgs(s) < |s|
    && forall k :: 0 <= k <= NumArgs(s) ==> IsHex(s[k])
  }

  function NumArgs(s: string): nat
    requires s != [] && IsHex(s[|s| - 1])
  {
    HexValue(s[|s| - 1])
  }

  function ResultReg(s: string): RegNum
    requires ArgRegsOk(s)
  {
    HexValue(s[NumArgs(s)])
  }

  // The 680x0 register that holds argument k of the C function
  function ArgReg(s: string, k: nat): RegNum
    requires ArgRegsOk(s) && k < NumArgs(s)
  {
    HexValue(s[NumArgs(s) - 1 - k])
  }

  // The register in which a C function expects argument k (System V AMD64 ABI, section 3.2.3)
  function ParamReg(k: nat): Reg
    requires k < 6
  {
    [RDI, RSI, RDX, RCX, R8, R9][k]
  }

  // The code generator's table says the same.
  lemma ParamTable(k: nat)
    requires k < 6
    ensures Hw(X86_REGS_FOR_FUNC_ARGS[k]) == ParamReg(k)
  {
  }

  lemma ParamRegsAre()
    ensures ParamReg(0) == RDI && ParamReg(1) == RSI && ParamReg(2) == RDX
    ensures ParamReg(3) == RCX && ParamReg(4) == R8 && ParamReg(5) == R9
  {
  }

  // The characters of an argument string name registers by hexadecimal digits.
  lemma HexDigits(d: nat)
    requires d < 16
    ensures var upper, lower := "0123456789ABCDEF"[d], "0123456789abcdef"[d];
            IsHex(upper) && IsHex(lower) && HexValue(upper) == HexValue(lower) == d
  {
  }

  lemma ParamRegs(j: nat, k: nat)
    requires j < 6 && k < 6
    ensures ParamReg(j) == ParamReg(k) ==> j == k
    ensures ParamReg(k) in {RDI, RSI, RDX, RCX, R8, R9}
  {
  }

  // --------------------------------------------------------------- moves

  datatype Move = Move(src: Reg, dst: Reg)

  // The moves for the first n characters of the string, in order
  function ArgMoves(s: string, n: nat): (ms: seq<Move>)
    requires ArgRegsOk(s) && n <= NumArgs(s)
    ensures |ms| == n
  {
    seq(n, i requires 0 <= i < n => Move(GuestReg(HexValue(s[i])), ParamReg(NumArgs(s) - 1 - i)))
  }

  function MoveInstrs(ms: seq<Move>): seq<Instr> {
    if ms == [] then [] else MoveInstrs(ms[..|ms| - 1]) + [MovReg32(ms[|ms| - 1].src, ms[|ms| - 1].dst)]
  }

  // Executing moves one after the other
  function Moved(ms: seq<Move>, r: Regs): Regs {
    if ms == [] then r
    else
      var before, m := Moved(ms[..|ms| - 1], r), ms[|ms| - 1];
      before[m.dst := Low32(before[m.src])]
  }

  lemma {:induction false} MovesExec(call: Calls, ms: seq<Move>, s: Cpu)
    ensures ExecAll(call, MoveInstrs(ms), s) == s.(regs := Moved(ms, s.regs))
    decreases |ms|
  {
    if ms != [] {
      var n := |ms| - 1;
      MovesExec(call, ms[..n], s);
      ExecAllAppend(call, MoveInstrs(ms[..n]), [MovReg32(ms[n].src, ms[n].dst)], s);
      ExecOne(call, MovReg32(ms[n].src, ms[n].dst), ExecAll(call, MoveInstrs(ms[..n]), s));
    }
  }

  predicate Distinct(ms: seq<Move>) {
    forall j: nat, k: nat :: j < k < |ms| ==> ms[j].dst != ms[k].dst
  }

  // No move overwrites a register that a later move still reads, except with its own value.
  predicate Clear(ms: seq<Move>) {
    forall j: nat, k: nat :: j < k < |ms| && ms[j].dst == ms[k].src ==> ms[j].src == ms[j].dst
  }

  // Every 32-bit value arrives.
  ghost predicate Delivered(ms: seq<Move>, r: Regs) {
    forall k: nat :: k < |ms| ==> Moved(ms, r)[ms[k].dst] == Low32(r[ms[k].src])
  }

  // Registers that are no destination keep their value.
  lemma {:induction false} MovedElsewhere(ms: seq<Move>, r: Regs, x: Reg)
    requires forall k: nat :: k < |ms| ==> ms[k].dst != x
    ensures Moved(ms, r)[x] == r[x]
    decreases |ms|
  {
    if ms != [] {
      MovedElsewhere(ms[..|ms| - 1], r, x);
    }
  }

  // The register that the last move reads still has its original low half.
  lemma SourceIntact(ms: seq<Move>, r: Regs)
    requires ms != [] && Distinct(ms) && Delivered(ms[..|ms| - 1], r)
    requires forall j: nat :: j < |ms| - 1 && ms[j].dst == ms[|ms| - 1].src ==> ms[j].src == ms[j].dst
    ensures Low32(Moved(ms[..|ms| - 1], r)[ms[|ms| - 1].src]) == Low32(r[ms[|ms| - 1].src])
  {
    var before, x := ms[..|ms| - 1], ms[|ms| - 1].src;
    if j: nat :| j < |before| && before[j].dst == x {
      assert ms[j].src == x;
    } else {
      MovedElsewhere(before, r, x);
    }
  }

  lemma DeliveredStep(ms: seq<Move>, r: Regs)
    requires ms != [] && Distinct(ms) && Delivered(ms[..|ms| - 1], r)
    requires Low32(Moved(ms[..|ms| - 1], r)[ms[|ms| - 1].src]) == Low32(r[ms[|ms| - 1].src])
    ensures Delivered(ms, r)
  {
    var n := |ms| - 1;
    var before := ms[..n];
    forall k: nat | k < |ms|
      ensures Moved(ms, r)[ms[k].dst] == Low32(r[ms[k].src])
    {
      if k < n {
        assert before[k] == ms[k];
        assert ms[k].dst != ms[n].dst;
      }
    }
  }

  lemma {:induction false} ClearDelivers(ms: seq<Move>, r: Regs)
    requires Distinct(ms) && Clear(ms)
    ensures Delivered(ms, r)
    decreases |ms|
  {
    if ms != [] {
      var n := |ms| - 1;
      var before := ms[..n];
      assert Distinct(before) && Clear(before);
      ClearDelivers(before, r);
      SourceIntact(ms, r);
      DeliveredStep(ms, r);
    }
  }

  function OneIn(x: Reg): Regs { seq(16, i => if i == x then 1 else 0) }

  predicate Lost(ms: seq<Move>, r: Regs, k: nat) {
    k < |ms| && Moved(ms, r)[ms[k].dst] != Low32(r[ms[k].src]) && exists j: nat :: j < k && ms[j].dst == ms[k].src
  }

  // A move that overwrites what a later one reads loses the value, if all other registers are 0.
  lemma HazardLoses(ms: seq<Move>, j: nat)
    requires ms != [] && Distinct(ms) && Clear(ms[..|ms| - 1]) && j < |ms| - 1
    requires ms[j].dst == ms[|ms| - 1].src && ms[j].src != ms[j].dst
    ensures Lost(ms, OneIn(ms[j].dst), |ms| - 1)
  {
    var n, x := |ms| - 1, ms[j].dst;
    var before, r := ms[..n], OneIn(x);
    assert Distinct(before);
    ClearDelivers(before, r);
    assert before[j] == ms[j] && r[x] == 1 && r[ms[j].src] == 0;
    assert Moved(ms, r)[ms[n].dst] == Low32(Moved(before, r)[x]) == 0;
  }

  lemma PrefixLost(ms: seq<Move>, r: Regs, k: nat)
    requires ms != [] && Distinct(ms) && Lost(ms[..|ms| - 1], r, k)
    ensures Lost(ms, r, k)
  {
    var n := |ms| - 1;
    var before := ms[..n];
    var j: nat :| j < k && before[j].dst == before[k].src;
    assert ms[j] == before[j] && ms[k] == before[k] && ms[k].dst != ms[n].dst;
    assert Moved(ms, r)[ms[k].dst] == Moved(before, r)[ms[k].dst];
  }

  lemma {:induction false} UnclearLoses(ms: seq<Move>) returns (r: Regs, k: nat)
    requires Distinct(ms) && !Clear(ms)
    ensures Lost(ms, r, k)
    decreases |ms|
  {
    var n := |ms| - 1;
    var before := ms[..n];
    assert Distinct(before);
    if !Clear(before) {
      r, k := UnclearLoses(before);
      PrefixLost(ms, r, k);
    } else {
      var j: nat, l: nat :| j < l < |ms| && ms[j].dst == ms[l].src && ms[j].src != ms[j].dst;
      assert l == n;
      HazardLoses(ms, j);
      r, k := OneIn(ms[j].dst), n;
    }
  }

  // For all register contents every value arrives if and only if no move is in another's way.
  lemma DeliveredIffClear(ms: seq<Move>)
    requires Distinct(ms)
    ensures Clear(ms) <==> forall r: Regs :: Delivered(ms, r)
  {
    if Clear(ms) {
      forall r: Regs
        ensures Delivered(ms, r)
      {
        ClearDelivers(ms, r);
      }
    } else {
      var r, k := UnclearLoses(ms);
      assert !Delivered(ms, r);
    }
  }

  lemma ArgMovesDistinct(s: string, n: nat)
    requires ArgRegsOk(s) && n <= NumArgs(s)
    ensures Distinct(ArgMoves(s, n))
  {
    hide ParamReg, GuestReg;
    var ms := ArgMoves(s, n);
    forall j: nat, k: nat | j < k < |ms|
      ensures ms[j].dst != ms[k].dst
    {
      ParamRegs(NumArgs(s) - 1 - j, NumArgs(s) - 1 - k);
    }
  }

  // ------------------------------------------------------------- the thunk

  function CallArgs(s: string): seq<Instr>
    requires ArgRegsOk(s)
  {
    MoveInstrs(ArgMoves(s, NumArgs(s)))
  }

  function FetchResult(s: string): seq<Instr>
    requires ArgRegsOk(s)
  {
    [MovReg32(RAX, Hw(ResultReg(s)))]
  }

  // Log the function's name, save registers, pass the arguments, call, fetch the result, restore
  function ThunkBody(log: u64, name: u64, func: u64, s: string): seq<Instr>
    requires ArgRegsOk(s)
  {
    TransparentCall(log, name) + (Pushes(SAVED_BY_CALLEE) + (CallArgs(s)
        + (AbsCall(func) + (FetchResult(s) + Pops(SAVED_BY_CALLEE)))))
  }

  function ThunkInstrs(log: u64, name: u64, func: u64, s: string): seq<Instr>
    requires ArgRegsOk(s)
  {
    ThunkBody(log, name, func, s) + [Ret]
  }

  // States at the interesting points of a thunk: after logging and saving, before the call
  // sequence, in which the function is called, and after the call
  function Saved(call: Calls, log: u64, name: u64, s: Cpu): Cpu {
    ExecAll(call, Pushes(SAVED_BY_CALLEE), ExecAll(call, TransparentCall(log, name), s))
  }

  function Passed(call: Calls, log: u64, name: u64, a: string, s: Cpu): Cpu
    requires ArgRegsOk(a)
  {
    ExecAll(call, CallArgs(a), Saved(call, log, name, s))
  }

  function Called(call: Calls, log: u64, name: u64, func: u64, a: string, s: Cpu): Cpu
    requires ArgRegsOk(a)
  {
    CallState(call, func, Passed(call, log, name, a, s))
  }

  function Returned(call: Calls, log: u64, name: u64, func: u64, a: string, s: Cpu): Cpu
    requires ArgRegsOk(a)
  {
    ExecAll(call, AbsCall(func), Passed(call, log, name, a, s))
  }

  lemma ThunkSteps(call: Calls, log: u64, name: u64, func: u64, a: string, s: Cpu)
    requires ArgRegsOk(a)
    ensures ExecAll(call, ThunkBody(log, name, func, a), s)
            == ExecAll(call, Pops(SAVED_BY_CALLEE), ExecAll(call, FetchResult(a),
                Returned(call, log, name, func, a, s)))
  {
    hide Exec, ExecAll, TransparentCall, Pushes, Pops, CallArgs, AbsCall, FetchResult;
    var p, q, r, t, u := TransparentCall(log, name), Pushes(SAVED_BY_CALLEE), CallArgs(a), AbsCall(func),
        FetchResult(a);
    var w := Pops(SAVED_BY_CALLEE);
    ExecAllAppend(call, p, q + (r + (t + (u + w))), s);
    var s1 := ExecAll(call, p, s);
    ExecAllAppend(call, q, r + (t + (u + w)), s1);
    var s2 := ExecAll(call, q, s1);
    ExecAllAppend(call, r, t + (u + w), s2);
    var s3 := ExecAll(call, r, s2);
    ExecAllAppend(call, t, u + w, s3);
    ExecAllAppend(call, u, w, ExecAll(call, t, s3));
  }

  lemma SavedEffect(call: Calls, log: u64, name: u64, lo: int, top: int, s: Cpu)
    requires 128 <= s.regs[RSP] <= top && lo + 128 <= s.regs[RSP] && Abi(lo, top, call, log)
    ensures var t := Saved(call, log, name, s);
            t.regs == s.regs[RSP := s.regs[RSP] - 40] && SameMem(s.mem, t.mem, s.regs[RSP], top)
  {
    hide Abi, Exec, Pushes, TransparentCall, AbsCallEnter;
    TransparentCallEffect(call, log, name, lo, top, s);
    assert |SAVED_BY_CALLEE| == 5 && RSP !in SAVED_BY_CALLEE;
    PushesEffect(call, SAVED_BY_CALLEE, ExecAll(call, TransparentCall(log, name), s));
  }

  lemma PassedEffect(call: Calls, log: u64, name: u64, a: string, lo: int, top: int, s: Cpu)
    requires ArgRegsOk(a) && 128 <= s.regs[RSP] <= top && lo + 128 <= s.regs[RSP] && Abi(lo, top, call, log)
    ensures var p, t := Saved(call, log, name, s), Passed(call, log, name, a, s);
            && t == p.(regs := Moved(ArgMoves(a, NumArgs(a)), p.regs))
            && p.regs == s.regs[RSP := s.regs[RSP] - 40]
            && forall x: Reg :: x !in {RDI, RSI, RDX, RCX, R8, R9} ==> t.regs[x] == p.regs[x]
  {
    hide Abi, Saved, ExecAll, MoveInstrs, GuestReg, ParamReg;
    var p, ms := Saved(call, log, name, s), ArgMoves(a, NumArgs(a));
    SavedEffect(call, log, name, lo, top, s);
    MovesExec(call, ms, p);
    forall x: Reg | x !in {RDI, RSI, RDX, RCX, R8, R9}
      ensures Moved(ms, p.regs)[x] == p.regs[x]
    {
      forall k: nat | k < |ms|
        ensures ms[k].dst != x
      {
        ParamRegs(0, NumArgs(a) - 1 - k);
      }
      MovedElsewhere(ms, p.regs, x);
    }
  }

  // ------------------------------------------------------------ arguments

  // Saving five registers moves the stack pointer.
  function BelowSaved(r: Regs): Regs { var sp: int := r[RSP]; r[RSP := Low64(sp - 40)] }

  // With registers r at the start, each argument is in its parameter register when the function
  // is called.
  ghost predicate ArgsArrive(a: string, r: Regs)
    requires ArgRegsOk(a)
  {
    forall k: nat :: k < NumArgs(a) ==>
                       Moved(ArgMoves(a, NumArgs(a)), BelowSaved(r))[ParamReg(k)] == Low32(r[GuestReg(ArgReg(a, k))])
  }

  // No argument is in A7, which is the stack pointer.
  predicate NoA7(a: string)
    requires ArgRegsOk(a)
  {
    forall k: nat :: k < NumArgs(a) ==> ArgReg(a, k) != A7
  }

  predicate ArgsClear(a: string)
    requires ArgRegsOk(a)
  {
    Clear(ArgMoves(a, NumArgs(a))) && NoA7(a)
  }

  // The state in which the function is called: aligned stack, and the moved registers
  lemma CalledRegs(call: Calls, log: u64, name: u64, func: u64, a: string, lo: int, top: int, s: Cpu)
    requires ArgRegsOk(a) && 160 <= s.regs[RSP] <= top && lo + 160 <= s.regs[RSP] && Abi(lo, top, call, log)
    ensures var c := Called(call, log, name, func, a, s);
            && c.regs[RSP] % 16 == 0
            && forall k: nat :: k < NumArgs(a) ==>
                 c.regs[ParamReg(k)] == Moved(ArgMoves(a, NumArgs(a)), BelowSaved(s.regs))[ParamReg(k)]
  {
    hide Abi, Saved, Passed, CallState, Moved, ArgMoves, ParamReg, Load64;
    var t := Passed(call, log, name, a, s);
    PassedEffect(call, log, name, a, lo, top, s);
    EnterEffect(call, func, t);
    forall k: nat | k < NumArgs(a)
      ensures ParamReg(k) !in {RSP, RAX, RBP}
    {
      ParamRegs(k, k);
    }
  }

  lemma MoveOf(a: string, k: nat)
    requires ArgRegsOk(a) && k < NumArgs(a)
    ensures ArgMoves(a, NumArgs(a))[NumArgs(a) - 1 - k] == Move(GuestReg(ArgReg(a, k)), ParamReg(k))
  {
  }

  lemma A7IsRsp(m: RegNum)
    ensures GuestReg(m) == RSP <==> m == A7
  {
  }

  lemma SpMoved(sp: int)
    ensures Low32(Low64(sp - 40)) != Low32(sp)
  {
  }

  lemma SpBack(sp: int)
    requires 0 <= sp < TWO64
    ensures Low64(Low64(sp + 40) - 40) == sp
  {
  }

  lemma ClearArgsArrive(a: string, r: Regs)
    requires ArgRegsOk(a) && ArgsClear(a)
    ensures ArgsArrive(a, r)
  {
    hide ArgMoves, GuestReg, ParamReg, ArgReg, Clear, Distinct, Low64, Low32;
    var ms, n := ArgMoves(a, NumArgs(a)), NumArgs(a);
    ArgMovesDistinct(a, n);
    ClearDelivers(ms, BelowSaved(r));
    forall k: nat | k < n
      ensures Moved(ms, BelowSaved(r))[ParamReg(k)] == Low32(r[GuestReg(ArgReg(a, k))])
    {
      MoveOf(a, k);
      A7IsRsp(ArgReg(a, k));
      assert Moved(ms, BelowSaved(r))[ms[n - 1 - k].dst] == Low32(BelowSaved(r)[ms[n - 1 - k].src]);
    }
  }

  lemma A7Lost(a: string, r: Regs)
    requires ArgRegsOk(a) && Clear(ArgMoves(a, NumArgs(a))) && !NoA7(a)
    ensures !ArgsArrive(a, r)
  {
    hide ArgMoves, GuestReg, ParamReg, ArgReg, Clear, Distinct, Low64, Low32;
    var ms, n := ArgMoves(a, NumArgs(a)), NumArgs(a);
    ArgMovesDistinct(a, n);
    ClearDelivers(ms, BelowSaved(r));
    var k: nat :| k < n && ArgReg(a, k) == A7;
    MoveOf(a, k);
    A7IsRsp(A7);
    SpMoved(r[RSP]);
    assert Moved(ms, BelowSaved(r))[ms[n - 1 - k].dst] == Low32(BelowSaved(r)[ms[n - 1 - k].src]);
  }

  lemma UnclearArgsLost(a: string) returns (r: Regs)
    requires ArgRegsOk(a) && !Clear(ArgMoves(a, NumArgs(a)))
    ensures !ArgsArrive(a, r)
  {
    hide ArgMoves, GuestReg, ParamReg, ArgReg, Clear, Distinct, Low32;
    var ms, n := ArgMoves(a, NumArgs(a)), NumArgs(a);
    ArgMovesDistinct(a, n);
    var q, i := UnclearLoses(ms);
    var sp: int := q[RSP];
    r := q[RSP := Low64(sp + 40)];
    SpBack(sp);
    assert BelowSaved(r) == q;
    var k, j: nat :| k == n - 1 - i && j < i && ms[j].dst == ms[i].src;
    MoveOf(a, k);
    MoveOf(a, n - 1 - j);
    ParamRegs(n - 1 - j, n - 1 - j);
  }

  // For all register contents the arguments arrive if and only if no move is in another's way and
  // none comes from A7.
  lemma ArgsArriveIff(a: string)
    requires ArgRegsOk(a)
    ensures ArgsClear(a) <==> forall r: Regs :: ArgsArrive(a, r)
  {
    hide ArgMoves, Clear, ArgsArrive, NoA7;
    if ArgsClear(a) {
      forall r: Regs
        ensures ArgsArrive(a, r)
      {
        ClearArgsArrive(a, r);
      }
    } else if Clear(ArgMoves(a, NumArgs(a))) {
      A7Lost(a, OneIn(0));
    } else {
      var r := UnclearArgsLost(a);
    }
  }

  // ------------------------------------------------------------- the result

  // What the called function returns in EAX
  function Result(call: Calls, log: u64, name: u64, func: u64, a: string, s: Cpu): u32
    requires ArgRegsOk(a)
  {
    Low32(call(func, Called(call, log, name, func, a, s)).regs[RAX])
  }

  // Registers that a called function keeps
  predicate CalleeSaved(r: Reg) { r == RBX || r == RBP || r >= 12 }

  lemma ReturnedEffect(call: Calls, log: u64, name: u64, func: u64, a: string, lo: int, top: int, s: Cpu)
    requires ArgRegsOk(a) && 160 <= s.regs[RSP] <= top && lo + 160 <= s.regs[RSP]
    requires Abi(lo, top, call, log) && Abi(lo, top, call, func)
    ensures var p, t := Saved(call, log, name, s), Returned(call, log, name, func, a, s);
            && t.regs[RSP] == p.regs[RSP] && SameMem(p.mem, t.mem, p.regs[RSP], top)
            && (forall r: Reg :: CalleeSaved(r) ==> t.regs[r] == s.regs[r])
            && Low32(t.regs[RAX]) == Result(call, log, name, func, a, s)
  {
    hide Abi, Saved, Passed, CallState, Moved, ArgMoves, AbsCall;
    PassedEffect(call, log, name, a, lo, top, s);
    AbsCallEffect(call, func, lo, top, Passed(call, log, name, a, s));
  }

  lemma FetchEffect(call: Calls, a: string, t: Cpu)
    requires ArgRegsOk(a)
    ensures ExecAll(call, FetchResult(a), t) == SetReg(t, Hw(ResultReg(a)), Low32(t.regs[RAX]))
  {
    ExecOne(call, MovReg32(RAX, Hw(ResultReg(a))), t);
  }

  // A whole thunk, unless its result is to go to A4: the stack pointer, the caller's stack and the
  // saved registers are back, and the others are as the function left them, but for the result.
  lemma ThunkEffect(call: Calls, log: u64, name: u64, func: u64, a: string, lo: int, top: int, s: Cpu)
    requires ArgRegsOk(a) && 160 <= s.regs[RSP] <= top && lo + 160 <= s.regs[RSP]
    requires Abi(lo, top, call, log) && Abi(lo, top, call, func)
    requires ResultReg(a) != A4
    ensures var v := ExecAll(call, ThunkBody(log, name, func, a), s);
            && v.regs[RSP] == s.regs[RSP] && SameMem(s.mem, v.mem, s.regs[RSP], top)
            && (forall r: Reg :: r in SAVED_BY_CALLEE ==> v.regs[r] == s.regs[r])
            && (forall r: Reg :: CalleeSaved(r) && r != Hw(ResultReg(a)) ==> v.regs[r] == s.regs[r])
            && (Hw(ResultReg(a)) !in SAVED_BY_CALLEE ==>
                  v.regs[Hw(ResultReg(a))] == Result(call, log, name, func, a, s))
  {
    hide Abi, Exec, ThunkBody, TransparentCall, Returned, Result, FetchResult, Pushes, Pops, AbsCallEnter;
    var s1 := ExecAll(call, TransparentCall(log, name), s);
    TransparentCallEffect(call, log, name, lo, top, s);
    var t := Returned(call, log, name, func, a, s);
    ThunkSteps(call, log, name, func, a, s);
    SavedEffect(call, log, name, lo, top, s);
    ReturnedEffect(call, log, name, func, a, lo, top, s);
    FetchEffect(call, a, t);
    var u := ExecAll(call, FetchResult(a), t);
    assert |SAVED_BY_CALLEE| == 5 && RSP !in SAVED_BY_CALLEE;
    PopsRestore(call, SAVED_BY_CALLEE, s1, u);
  }

  // The value of argument k in the caller's state s: the string names arguments from the last to the
  // first.
  function Argument(a: string, k: nat, s: Cpu): u32
    requires ArgRegsOk(a) && k < NumArgs(a)
  {
    Low32(s.regs[GuestReg(HexValue(a[NumArgs(a) - 1 - k]))])
  }

  // In state c a C function finds the caller's arguments, up to six, where it expects them.
  predicate ArgumentsIn(c: Cpu, a: string, s: Cpu)
    requires ArgRegsOk(a)
  {
    && (NumArgs(a) > 0 ==> c.regs[RDI] == Argument(a, 0, s))
    && (NumArgs(a) > 1 ==> c.regs[RSI] == Argument(a, 1, s))
    && (NumArgs(a) > 2 ==> c.regs[RDX] == Argument(a, 2, s))
    && (NumArgs(a) > 3 ==> c.regs[RCX] == Argument(a, 3, s))
    && (NumArgs(a) > 4 ==> c.regs[R8] == Argument(a, 4, s))
    && (NumArgs(a) > 5 ==> c.regs[R9] == Argument(a, 5, s))
  }

  lemma ArgumentsAre(c: Cpu, a: string, s: Cpu)
    requires ArgRegsOk(a)
    ensures ArgumentsIn(c, a, s)
            <==> forall k: nat :: k < NumArgs(a) ==> c.regs[ParamReg(k)] == Low32(s.regs[GuestReg(ArgReg(a, k))])
  {
    hide GuestReg, HexValue, NumArgs, ParamReg, Low32;
    ParamRegsAre();
    if ArgumentsIn(c, a, s) {
      forall k: nat | k < NumArgs(a)
        ensures c.regs[ParamReg(k)] == Low32(s.regs[GuestReg(ArgReg(a, k))])
      {
        assert ArgReg(a, k) == HexValue(a[NumArgs(a) - 1 - k]);
      }
    }
  }

  predicate Scratch(m: RegNum) { m == D0 || m == D1 || m == A0 || m == A1 }

  // A thunk whose result goes to D0, as a whole: the function is called with an aligned stack and
  // all arguments in place, D0 receives its result, and D2-D7, A2-A7 and the caller's stack, with
  // the return address at its top, are as before when RET is reached.
  lemma ThunkCorrect(call: Calls, log: u64, name: u64, func: u64, a: string, lo: int, top: int, s: Cpu)
    requires ArgRegsOk(a) && ArgsClear(a) && ResultReg(a) == D0
    requires 160 <= s.regs[RSP] <= top && lo + 160 <= s.regs[RSP] && Abi(lo, top, call, log) && Abi(lo, top, call, func)
    ensures var c := Called(call, log, name, func, a, s);
            && c.regs[RSP] % 16 == 0 && ArgumentsIn(c, a, s)
            && forall k: nat :: k < NumArgs(a) ==> c.regs[ParamReg(k)] == Low32(s.regs[GuestReg(ArgReg(a, k))])
    ensures var v := ExecAll(call, ThunkBody(log, name, func, a), s);
            && v.regs[GuestReg(D0)] == Result(call, log, name, func, a, s)
            && (forall m: RegNum :: !Scratch(m) ==> v.regs[GuestReg(m)] == s.regs[GuestReg(m)])
            && SameMem(s.mem, v.mem, s.regs[RSP], top)
  {
    hide Abi, Called, Result, ThunkBody, ParamReg, ArgsClear, ExecAll;
    CalledRegs(call, log, name, func, a, lo, top, s);
    ClearArgsArrive(a, s.regs);
    ArgumentsAre(Called(call, log, name, func, a, s), a, s);
    ThunkEffect(call, log, name, func, a, lo, top, s);
    forall m: RegNum | !Scratch(m)
      ensures GuestReg(m) in SAVED_BY_CALLEE || CalleeSaved(GuestReg(m)) || GuestReg(m) == RSP
      ensures GuestReg(m) != Hw(D0)
    {
      KeptRegs(m);
    }
    assert GuestReg(D0) == Hw(D0) && Hw(D0) !in SAVED_BY_CALLEE;
  }

  // A thunk calls the logging function with the name, then the function, and nothing else.
  lemma ThunkCalls(call: Calls, log: u64, name: u64, func: u64, a: string, lo: int, top: int, s: Cpu)
    requires ArgRegsOk(a) && ResultReg(a) != A4
    requires 160 <= s.regs[RSP] <= top && lo + 160 <= s.regs[RSP]
    requires Abi(lo, top, call, log) && Abi(lo, top, call, func)
    ensures var l, c := CallState(call, log, SavedState(call, name, s)), Called(call, log, name, func, a, s);
            && l.regs[RDI] == name && l.world == s.world
            && c.world == call(log, l).world
            && ExecAll(call, ThunkBody(log, name, func, a), s).world == call(func, c).world
  {
    hide Abi, Exec, ThunkBody, TransparentCall, FetchResult, Pushes, Pops, AbsCallEnter, AbsCall, SavedState, Passed;
    hide MoveInstrs, ArgMoves, CallState, ExecAll, Load64, Moved;
    var s1 := ExecAll(call, TransparentCall(log, name), s);
    TransparentCallEffect(call, log, name, lo, top, s);
    SaveEffect(call, name, s);
    EnterEffect(call, log, SavedState(call, name, s));
    assert |SAVED_BY_CALLEE| == 5 && RSP !in SAVED_BY_CALLEE;
    PushesEffect(call, SAVED_BY_CALLEE, s1);
    PassedEffect(call, log, name, a, lo, top, s);
    var p, t := Passed(call, log, name, a, s), Returned(call, log, name, func, a, s);
    EnterEffect(call, func, p);
    AbsCallEffect(call, func, lo, top, p);
    ReturnedEffect(call, log, name, func, a, lo, top, s);
    ThunkSteps(call, log, name, func, a, s);
    FetchEffect(call, a, t);
    PopsRestore(call, SAVED_BY_CALLEE, s1, ExecAll(call, FetchResult(a), t));
  }

  lemma KeptRegs(m: RegNum)
    requires !Scratch(m)
    ensures GuestReg(m) in SAVED_BY_CALLEE || CalleeSaved(GuestReg(m)) || GuestReg(m) == RSP
    ensures GuestReg(m) != Hw(D0)
  {
  }

  // The register of the result is not looked up in the mapping table, and five registers are
  // restored after it has been written. So the result arrives exactly if it is to go to none of D2,
  // D3, A2, A6 and A7, or happens to equal what was there.
  lemma ResultExact(call: Calls, log: u64, name: u64, func: u64, a: string, lo: int, top: int, s: Cpu)
    requires ArgRegsOk(a) && ResultReg(a) != A4
    requires 160 <= s.regs[RSP] <= top && lo + 160 <= s.regs[RSP] && Abi(lo, top, call, log) && Abi(lo, top, call, func)
    ensures var v, m := ExecAll(call, ThunkBody(log, name, func, a), s), ResultReg(a);
            Low32(v.regs[GuestReg(m)]) == Result(call, log, name, func, a, s)
            <==> (m !in {D2, D3, A2, A6, A7} || Low32(s.regs[GuestReg(m)]) == Result(call, log, name, func, a, s))
  {
    hide Abi, Result, ThunkBody, ExecAll;
    ThunkEffect(call, log, name, func, a, lo, top, s);
    ResultRegs(ResultReg(a));
  }

  lemma ResultRegs(m: RegNum)
    requires m != A4
    ensures m in {D2, D3, A2, A6} ==> GuestReg(m) in SAVED_BY_CALLEE
    ensures m !in {D2, D3, A2, A6, A7} ==> GuestReg(m) == Hw(m) && Hw(m) !in SAVED_BY_CALLEE
    ensures GuestReg(A7) == RSP
  {
  }

  // A result for A4 goes to RSP instead, and the registers are restored from wherever it points.
  lemma ResultInA4(call: Calls, log: u64, name: u64, func: u64, a: string, lo: int, top: int, s: Cpu)
    requires ArgRegsOk(a) && ResultReg(a) == A4
    requires 160 <= s.regs[RSP] <= top && lo + 160 <= s.regs[RSP] && Abi(lo, top, call, log) && Abi(lo, top, call, func)
    ensures var v := ExecAll(call, ThunkBody(log, name, func, a), s);
            v.regs[RSP] == Result(call, log, name, func, a, s) + 40
  {
    hide Abi, Exec, ThunkBody, Returned, Result, FetchResult, Pops;
    var t := Returned(call, log, name, func, a, s);
    ThunkSteps(call, log, name, func, a, s);
    ReturnedEffect(call, log, name, func, a, lo, top, s);
    FetchEffect(call, a, t);
    assert Hw(A4) == RSP;
    PopsSp(call, SAVED_BY_CALLEE, ExecAll(call, FetchResult(a), t));
    assert |SAVED_BY_CALLEE| == 5 && RSP !in SAVED_BY_CALLEE;
  }

  lemma {:induction false} PopsSp(call: Calls, rs: seq<Reg>, s: Cpu)
    requires s.regs[RSP] + 8 * |rs| < TWO64 && RSP !in rs
    ensures ExecAll(call, Pops(rs), s).regs[RSP] == s.regs[RSP] + 8 * |rs|
    decreases |rs|
  {
    hide Exec, Load64;
    if rs != [] {
      PopsSp(call, rs[1..], s);
      PopsStep(call, rs, s);
      PopEffect(call, rs[0], ExecAll(call, Pops(rs[1..]), s));
    }
  }

  // ------------------------------------------------------------ the emitter

  lemma MoveSizes(a: string, n: nat)
    requires ArgRegsOk(a) && n <= NumArgs(a)
    ensures |EncAll(MoveInstrs(ArgMoves(a, n)))| <= 3 * n
    decreases n
  {
    hide EncAll, GuestReg, ParamReg;
    if n == 0 {
      assert |EncAll([])| == 0 by { NoCode(); }
    } else {
      MoveSizes(a, n - 1);
      var ms := ArgMoves(a, n);
      var m := MovReg32(ms[n - 1].src, ms[n - 1].dst);
      assert ms[..n - 1] == ArgMoves(a, n - 1);
      EncAllAppend(MoveInstrs(ms[..n - 1]), [m]);
      EncAllOne(m);
    }
  }

  lemma NoCode()
    ensures EncAll([]) == []
  {
  }

  // Sizes of the parts of a thunk
  lemma ThunkSizes(log: u64, name: u64, func: u64, a: string)
    requires ArgRegsOk(a)
    ensures |EncAll(TransparentCall(log, name))| == 62 && |EncAll(Pushes(SAVED_BY_CALLEE))| == 7
    ensures |EncAll(CallArgs(a))| <= 18 && 2 <= |EncAll(FetchResult(a))| <= 3
    ensures |EncAll(ThunkInstrs(log, name, func, a))| == 101 + |EncAll(CallArgs(a))| + |EncAll(FetchResult(a))|
  {
    hide EncAll, TransparentCall, AbsCall, Pushes, Pops, CallArgs, LE32, LE64;
    StubSize(log, name);
    CallSize(func, name);
    SavedRegsSize();
    MoveSizes(a, NumArgs(a));
    assert CallArgs(a) == MoveInstrs(ArgMoves(a, NumArgs(a))) by { CallArgsIs(a); }
    ThunkParts(log, name, func, a);
    var w := Pops(SAVED_BY_CALLEE) + [Ret];
    EncAllAppend(TransparentCall(log, name), Pushes(SAVED_BY_CALLEE)
        + (CallArgs(a) + (AbsCall(func) + (FetchResult(a) + w))));
    EncAllAppend(Pushes(SAVED_BY_CALLEE), CallArgs(a) + (AbsCall(func) + (FetchResult(a) + w)));
    EncAllAppend(CallArgs(a), AbsCall(func) + (FetchResult(a) + w));
    EncAllAppend(AbsCall(func), FetchResult(a) + w);
    EncAllAppend(FetchResult(a), w);
    EncAllAppend(Pops(SAVED_BY_CALLEE), [Ret]);
    EncAllOne(Ret);
    EncAllOne(MovReg32(RAX, Hw(ResultReg(a))));
  }

  lemma FetchResultIs(a: string)
    requires ArgRegsOk(a)
    ensures [MoveReg(REG_EAX, HexValue(a[NumArgs(a)]), MODE_32)] == FetchResult(a)
  {
  }

  lemma CallArgsIs(a: string)
    requires ArgRegsOk(a)
    ensures CallArgs(a) == MoveInstrs(ArgMoves(a, NumArgs(a)))
  {
  }

  lemma SavedRegsSize()
    ensures |EncAll(Pushes(SAVED_BY_CALLEE))| == 7 && |EncAll(Pops(SAVED_BY_CALLEE))| == 7
  {
    hide Pushes, Pops, EncAll;
    var rs := SAVED_BY_CALLEE;
    PushSizes(rs);
    assert rs[2..][2..] == rs[4..];
    ExtendedTwo(rs);
    ExtendedTwo(rs[2..]);
    assert rs[4..][1..] == [];
  }

  method EmitCallToLogFuncName(code: array<byte>, pos: nat, log: u64, name: u64) returns (next: nat)
    requires pos + 36 <= code.Length
    modifies code
    ensures Emitted(old(code[..]), code[..], pos, next, [MovImm64(RDI, name)] + AbsCall(log)) && next <= pos + 36
  {
    hide Emitted, AbsCall;
    ghost var c0 := code[..];
    next := EmitMoveImmToReg(code, pos, name, REG_EDI, MODE_64);
    ghost var c1, p1 := code[..], next;
    next := EmitAbsCallToFunc(code, next, log);
    EmittedThen(c0, c1, code[..], pos, p1, next, [MovImm64(RDI, name)], AbsCall(log), [MovImm64(RDI, name)]
        + AbsCall(log));
  }

  // The part of a thunk that logs the function's name
  method EmitLogging(code: array<byte>, pos: nat, log: u64, name: u64) returns (next: nat)
    requires pos + 74 <= code.Length
    modifies code
    ensures Emitted(old(code[..]), code[..], pos, next, TransparentCall(log, name)) && next <= pos + 74
  {
    hide Emitted, AbsCall, Pushes, Pops;
    ghost var c0 := code[..];
    next := EmitSaveProgramState(code, pos);
    ghost var c1, p1 := code[..], next;
    next := EmitCallToLogFuncName(code, next, log, name);
    ghost var a, b := Pushes(SAVED_STATE) + [Pushfq], [MovImm64(RDI, name)] + AbsCall(log);
    EmittedThen(c0, c1, code[..], pos, p1, next, a, b, a + b);
    ghost var c2, p2 := code[..], next;
    next := EmitRestoreProgramState(code, next);
    assert a + b + ([Popfq] + Pops(SAVED_STATE)) == TransparentCall(log, name);
    EmittedThen(c0, c2, code[..], pos, p2, next, a + b, [Popfq] + Pops(SAVED_STATE), TransparentCall(log, name));
  }

  // Move the arguments, in the order of the string.
  method EmitArgMoves(code: array<byte>, pos: nat, a: string) returns (next: nat)
    requires ArgRegsOk(a) && pos + 18 <= code.Length
    modifies code
    ensures Emitted(old(code[..]), code[..], pos, next, CallArgs(a)) && next <= pos + 18
  {
    hide Emitted, EncAll;
    ghost var c0 := code[..];
    var nargs := HexValue(a[|a| - 1]);
    next := pos;
    EmittedNothing(c0, pos);
    for argnum := 0 to nargs
      invariant next <= pos + 3 * argnum
      invariant Emitted(c0, code[..], pos, next, MoveInstrs(ArgMoves(a, argnum)))
    {
      var regnum := HexValue(a[argnum]);
      ghost var c1, p1 := code[..], next;
      next := EmitMoveRegToReg(code, next, X86_REG_FOR_M68K_REG[regnum], X86_REGS_FOR_FUNC_ARGS[nargs - argnum - 1],
          MODE_32);
      ghost var ms := ArgMoves(a, argnum + 1);
      assert ms[..argnum] == ArgMoves(a, argnum);
      EmittedThen(c0, c1, code[..], pos, p1, next, MoveInstrs(ArgMoves(a, argnum)),
          [MovReg32(ms[argnum].src, ms[argnum].dst)],
                  MoveInstrs(ms));
    }
  }

  // emit_thunk_for_func
  method EmitThunkForFunc(code: array<byte>, pos: nat, log: u64, name: u64, func: u64, a: string) returns (next: nat)
    requires ArgRegsOk(a) && pos + |EncAll(ThunkInstrs(log, name, func, a))| + 2 <= code.Length
    modifies code
    ensures Emitted(old(code[..]), code[..], pos, next, ThunkInstrs(log, name, func, a))
  {
    hide Patch, TransparentCall, AbsCall, Pushes, Pops, CallArgs, EncAll, FetchResult, ThunkInstrs;
    ghost var c0 := code[..];
    ThunkSizes(log, name, func, a);
    CallSize(func, name);
    SavedRegsSize();
    next := EmitLogging(code, pos, log, name);
    ghost var c1, p1 := code[..], next;
    next := EmitSaveAmigaosRegisters(code, next);
    ghost var c2, p2 := code[..], next;
    next := EmitArgMoves(code, next, a);
    ghost var c3, p3 := code[..], next;
    next := EmitAbsCallToFunc(code, next, func);
    ghost var c4, p4 := code[..], next;
    next := EmitMoveRegToReg(code, next, REG_EAX, HexValue(a[NumArgs(a)]), MODE_32);
    FetchResultIs(a);
    ghost var c5, p5 := code[..], next;
    next := EmitRestoreAmigaosRegisters(code, next);
    ghost var c6, p6 := code[..], next;
    next := EmitRet(code, next);
    ghost var x1 := Pops(SAVED_BY_CALLEE) + [Ret];
    ghost var x2 := FetchResult(a) + x1;
    ghost var x3 := AbsCall(func) + x2;
    ghost var x4 := CallArgs(a) + x3;
    ghost var x5 := Pushes(SAVED_BY_CALLEE) + x4;
    EmittedThen(c5, c6, code[..], p5, p6, next, Pops(SAVED_BY_CALLEE), [Ret], x1);
    EmittedThen(c4, c5, code[..], p4, p5, next, FetchResult(a), x1, x2);
    EmittedThen(c3, c4, code[..], p3, p4, next, AbsCall(func), x2, x3);
    EmittedThen(c2, c3, code[..], p2, p3, next, CallArgs(a), x3, x4);
    EmittedThen(c1, c2, code[..], p1, p2, next, Pushes(SAVED_BY_CALLEE), x4, x5);
    ThunkParts(log, name, func, a);
    EmittedThen(c0, c1, code[..], pos, p1, next, TransparentCall(log, name), x5, ThunkInstrs(log, name, func, a));
  }

  lemma ThunkParts(log: u64, name: u64, func: u64, a: string)
    requires ArgRegsOk(a)
    ensures ThunkInstrs(log, name, func, a)
            == TransparentCall(log, name)
               + (Pushes(SAVED_BY_CALLEE) + (CallArgs(a) + (AbsCall(func)
                   + (FetchResult(a) + (Pops(SAVED_BY_CALLEE) + [Ret])))))
  {
    hide TransparentCall, AbsCall, Pushes, Pops, CallArgs, FetchResult;
  }

  method EmitRet(code: array<byte>, pos: nat) returns (next: nat)
    requires pos + 1 <= code.Length
    modifies code
    ensures Emitted(old(code[..]), code[..], pos, next, [Ret]) && next == pos + 1
  {
    hide Emitted, EncAll;
    ghost var c0 := code[..];
    next := WriteByte(code, pos, 0xc3);
    assert Enc(Ret) == [0xc3];
    EmittedOne(c0, code[..], pos, Ret);
  }

  // The arguments of the functions that are implemented arrive: CloseLibrary, PutStr, OpenLibrary.
  lemma ImplementedArgs()
    ensures ArgRegsOk("901") && ArgsClear("901") && ArgRegsOk("101") && ArgsClear("101")
    ensures ArgRegsOk("0902") && ArgsClear("0902")
  {
    hide GuestReg, ParamReg;
    MoveOf("0902", 0);
    MoveOf("0902", 1);
    var ms := ArgMoves("0902", 2);
    assert ArgReg("0902", 0) == 9 && ArgReg("0902", 1) == 0;
    assert ms[0] == Move(GuestReg(0), ParamReg(1)) && ms[1] == Move(GuestReg(9), ParamReg(0));
    assert ParamReg(1) == RSI && GuestReg(9) == RCX by { OpenLibraryRegs(); }
  }

  lemma OpenLibraryRegs()
    ensures ParamReg(1) == RSI && GuestReg(9) == RCX && GuestReg(1) == R9 && GuestReg(0) == R8 && ParamReg(4) == R8
  {
  }

  // Those of MakeLibrary would not: the first move, from D1 for the fifth parameter, overwrites D0.
  lemma MakeLibraryArgs()
    ensures ArgRegsOk("10A9805") && !ArgsClear("10A9805")
  {
    hide GuestReg, ParamReg;
    var a := "10A9805";
    MoveOf(a, 4);
    MoveOf(a, 3);
    var ms := ArgMoves(a, 5);
    assert ArgReg(a, 4) == 1 && ArgReg(a, 3) == 0;
    OpenLibraryRegs();
    assert ms[0] == Move(R9, R8) && ms[1].src == R8;
  }
}
