/** Into which 680x0 registers a thunk can deliver the result of a C function. */
module ThunkResult {
  import opened Base
  import opened X86
  import opened Cpu
  import opened CodeGen
  import opened Thunk

  // The functions called follow the ABI, and there is room on the stack.
  ghost predicate CallOk(call: Calls, log: u64, func: u64, lo: int, top: int, s: Cpu) {
    && 160 <= s.regs[RSP] <= top && lo + 160 <= s.regs[RSP]
    && Abi(lo, top, call, log) && Abi(lo, top, call, func)
  }

  // After the thunk the register for the result holds what the function returned.
  predicate Arrives(call: Calls, log: u64, name: u64, func: u64, a: string, s: Cpu)
    requires ArgRegsOk(a)
  {
    Low32(ExecAll(call, ThunkBody(log, name, func, a), s).regs[GuestReg(ResultReg(a))])
    == Result(call, log, name, func, a, s)
  }

  // Pops load one register after the other, the last of the list first.
  lemma {:induction false} PopsLoad(call: Calls, rs: seq<Reg>, s: Cpu, k: nat)
    requires k < |rs| && RSP !in rs && s.regs[RSP] + 8 * |rs| < TWO64
    requires forall i: nat, j: nat :: i < j < |rs| ==> rs[i] != rs[j]
    ensures var t := ExecAll(call, Pops(rs), s);
            t.mem == s.mem && t.regs[rs[k]] == Load64(s.mem, s.regs[RSP] + 8 * (|rs| - 1 - k))
    decreases |rs|
  {
    hide Exec, Load64;
    var rest := rs[1..];
    var u := ExecAll(call, Pops(rest), s);
    PopsSp(call, rest, s);
    PopsStep(call, rs, s);
    PopEffect(call, rs[0], u);
    assert u.mem == s.mem by {
      if rest != [] {
        PopsLoad(call, rest, s, 0);
      }
    }
    if k > 0 {
      PopsLoad(call, rest, s, k - 1);
      assert rest[k - 1] == rs[k] && rs[0] != rs[k];
    }
  }

  // A result for A4 becomes the stack pointer, from which A4 is then restored.
  lemma A4Restored(call: Calls, log: u64, name: u64, func: u64, a: string, lo: int, top: int, s: Cpu)
    requires ArgRegsOk(a) && ResultReg(a) == A4 && CallOk(call, log, func, lo, top, s)
    requires s.regs[RSP] <= Result(call, log, name, func, a, s) && Result(call, log, name, func, a, s) + 16 <= top
    ensures ExecAll(call, ThunkBody(log, name, func, a), s).regs[GuestReg(A4)]
            == Load64(s.mem, Result(call, log, name, func, a, s) + 8)
  {
    hide Abi, Exec, ThunkBody, Saved, Returned, Result, FetchResult, Pops, Load64;
    var t := Returned(call, log, name, func, a, s);
    var r: int := Result(call, log, name, func, a, s);
    ThunkSteps(call, log, name, func, a, s);
    SavedEffect(call, log, name, lo, top, s);
    ReturnedEffect(call, log, name, func, a, lo, top, s);
    FetchEffect(call, a, t);
    var u := ExecAll(call, FetchResult(a), t);
    assert Hw(A4) == RSP && GuestReg(A4) == SAVED_BY_CALLEE[3] && RSP !in SAVED_BY_CALLEE;
    PopsLoad(call, SAVED_BY_CALLEE, u, 3);
    LoadFrame64(s.mem, u.mem, r + 8);
  }

  lemma NotA4Exact(call: Calls, log: u64, name: u64, func: u64, a: string, lo: int, top: int, s: Cpu)
    requires ArgRegsOk(a) && ResultReg(a) != A4 && CallOk(call, log, func, lo, top, s)
    ensures var m := ResultReg(a);
            Arrives(call, log, name, func, a, s)
            <==> m !in {D2, D3, A2, A6, A7} || Low32(s.regs[GuestReg(m)]) == Result(call, log, name, func, a, s)
  {
    hide ThunkBody, ExecAll, Result, Abi;
    ResultExact(call, log, name, func, a, lo, top, s);
  }

  // ---------------------------------------------- functions that lose it

  const ANSWER: u64 := 8192

  // All registers are 0 but the stack pointer, and so is memory.
  function Quiet(): Cpu { Cpu(seq(16, i => if i == RSP then 4096 else 0), 0, _ => 0, 0) }

  // Functions that return a constant and do nothing else
  function Answers(): Calls { (f, c) => SetReg(c, RAX, ANSWER) }

  lemma AnswersOk(log: u64, func: u64)
    ensures CallOk(Answers(), log, func, 0, 16384, Quiet())
  {
  }

  lemma Answered(log: u64, name: u64, func: u64, a: string)
    requires ArgRegsOk(a)
    ensures Result(Answers(), log, name, func, a, Quiet()) == ANSWER
  {
    hide Called;
  }

  lemma Loses(log: u64, name: u64, func: u64, a: string)
    requires ArgRegsOk(a) && ResultReg(a) in {D2, D3, A2, A4, A6, A7}
    ensures !Arrives(Answers(), log, name, func, a, Quiet())
  {
    hide ThunkBody, ExecAll, Result, CallOk, Load64;
    var call, s := Answers(), Quiet();
    AnswersOk(log, func);
    Answered(log, name, func, a);
    if ResultReg(a) == A4 {
      A4Restored(call, log, name, func, a, 0, 16384, s);
      ZeroLoad(ANSWER + 8);
    } else {
      NotA4Exact(call, log, name, func, a, 0, 16384, s);
      NotAnswer(ResultReg(a));
    }
  }

  lemma ZeroLoad(a: int)
    ensures Load64(Quiet().mem, a) == 0
  {
  }

  lemma NotAnswer(m: RegNum)
    ensures Low32(Quiet().regs[GuestReg(m)]) != ANSWER
  {
  }

  // The result arrives for all functions that follow the ABI, in all states, if and only if it is
  // to go to a register that is neither saved by the thunk nor the stack pointer, nor, in the
  // emitter's numbering, stands for it.
  lemma ResultArrivesIff(log: u64, name: u64, func: u64, a: string)
    requires ArgRegsOk(a)
    ensures (forall call: Calls, lo: int, top: int, s: Cpu ::
               CallOk(call, log, func, lo, top, s) ==> Arrives(call, log, name, func, a, s))
            <==> ResultReg(a) !in {D2, D3, A2, A4, A6, A7}
  {
    hide ThunkBody, ExecAll, Result, Abi, Arrives;
    if ResultReg(a) in {D2, D3, A2, A4, A6, A7} {
      Loses(log, name, func, a);
      AnswersOk(log, func);
    } else {
      forall call: Calls, lo: int, top: int, s: Cpu | CallOk(call, log, func, lo, top, s)
        ensures Arrives(call, log, name, func, a, s)
      {
        NotA4Exact(call, log, name, func, a, lo, top, s);
      }
    }
  }
}
