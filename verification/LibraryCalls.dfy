/** A thunk, seen by the guest that calls it: what library calls are assumed to keep, thunks keep. */
module LibraryCalls {
  import opened Base
  import opened X86
  import opened Cpu
  import opened CodeGen
  import opened M68k
  import opened Relation
  import opened Thunk

  // Calling a thunk pushes a return address, which its RET takes away.
  function Entered(s: Cpu, ret: u64): Cpu { PushValue(s, ret) }

  function ThunkCall(call: Calls, log: u64, name: u64, func: u64, a: string, ret: u64, s: Cpu): Cpu
    requires ArgRegsOk(a)
  {
    var v := ExecAll(call, ThunkBody(log, name, func, a), Entered(s, ret));
    SetReg(v, RSP, Low64(Sp(v) + 8))
  }

  lemma EnteredEffect(s: Cpu, ret: u64)
    requires 8 <= s.regs[RSP]
    ensures var t := Entered(s, ret);
            && t.regs == s.regs[RSP := s.regs[RSP] - 8]
            && Load64(t.mem, t.regs[RSP]) == ret
            && forall x: int :: !(t.regs[RSP] <= x < s.regs[RSP]) ==> t.mem(x) == s.mem(x)
  {
    LoadStore64(s.mem, s.regs[RSP] - 8, ret);
  }

  // The registers and the stack are kept as LibStep asks, RET finds the return address, the
  // arguments have arrived and D0 has the result.
  lemma ThunkKeepsContract(env: Env, call: Calls, log: u64, name: u64, func: u64, a: string, ret: u64, lo: int, s: Cpu)
    requires ArgRegsOk(a) && ArgsClear(a) && ResultReg(a) == D0
    requires 168 <= s.regs[RSP] <= env.sp && lo + 168 <= s.regs[RSP] && env.sp + 8 < TWO64
    requires Abi(lo, env.sp + 8, call, log) && Abi(lo, env.sp + 8, call, func)
    ensures var t, e := ThunkCall(call, log, name, func, a, ret, s), Entered(s, ret);
            && CallKept(env, s, t)
            && t.regs[GuestReg(D0)] == Result(call, log, name, func, a, e)
            && ArgumentsIn(Called(call, log, name, func, a, e), a, s)
            && Called(call, log, name, func, a, e).regs[RSP] % 16 == 0
            && Load64(ExecAll(call, ThunkBody(log, name, func, a), e).mem, e.regs[RSP]) == ret
  {
    hide Abi, ThunkBody, Called, Result, ArgsClear, ArgumentsIn, Load64, GuestReg, ParamReg, Entered, ExecAll;
    var e := Entered(s, ret);
    EnteredEffect(s, ret);
    ThunkCorrect(call, log, name, func, a, lo, env.sp + 8, e);
    var v := ExecAll(call, ThunkBody(log, name, func, a), e);
    LoadFrame64(e.mem, v.mem, e.regs[RSP]);
    GuestRegs();
    forall m: RegNum | m != A7
      ensures GuestReg(m) != RSP
    {
      GuestRegInjective(m, A7);
    }
    SameArguments(a, Called(call, log, name, func, a, e), s, e);
  }

  // The return address does not touch the arguments.
  lemma SameArguments(a: string, c: Cpu, s: Cpu, e: Cpu)
    requires ArgRegsOk(a) && ArgsClear(a) && e.regs == s.regs[RSP := e.regs[RSP]]
    ensures ArgumentsIn(c, a, e) == ArgumentsIn(c, a, s)
  {
    hide GuestReg, HexValue, NumArgs, ArgsClear, Low32;
    NotA7(a);
    forall k: nat | k < NumArgs(a)
      ensures Argument(a, k, e) == Argument(a, k, s)
    {
      assert ArgReg(a, k) == HexValue(a[NumArgs(a) - 1 - k]);
      A7IsRsp(ArgReg(a, k));
    }
  }

  lemma NotA7(a: string)
    requires ArgRegsOk(a) && ArgsClear(a)
    ensures forall k: nat :: k < NumArgs(a) ==> ArgReg(a, k) != A7
  {
  }
}
