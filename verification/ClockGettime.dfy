/** clock_gettime_entry refines the faked clock. */
module ClockGettime {
  import opened Words
  import opened Memory
  import opened Clocks
  import opened Machine
  import opened Stubs
  import opened Effects
  import opened Calls

  const READ_ENABLED := 5
  const READ_FROZEN := 7
  const READ_SEC := 16
  const READ_NSEC := 17
  const READ_FROZEN_SEC := 33
  const READ_FROZEN_NSEC := 34

  predicate WallClock(rdi: int)
  {
    Wrap32(rdi) == CLOCK_REALTIME || Wrap32(rdi) == CLOCK_REALTIME_COARSE
  }

  /** struct timespec *tp */
  function Tp(c: Core): Buffers
  {
    Buffers(c.regs.rsi, 16, 0, 0)
  }

  ghost predicate Entered(w: World, c: Core)
  {
    c.pc == CLOCK_GETTIME_PC && Frame(w, c.regs.rsp, Tp(c))
  }

  predicate Intercepts(w: World, c: Core)
  {
    WallClock(c.regs.rdi) && Enabled(w.view(READ_ENABLED))
  }

  lemma SelectClock(w: World, c: Core) returns (d: Core)
    requires Entered(w, c)
    ensures Leads(w, c, d) && d.mem == c.mem && d.regs == c.regs
    ensures d.pc == if WallClock(c.regs.rdi) then 4 else 38
  {
    hide Run, Step, Load64, Wrap32, Enter;
    d := DoCmpLow32(w, c, 0, RDI, CLOCK_REALTIME);
    d := DoJe(w, d, 1, 4);
    if d.pc != 4 {
      d := DoCmpLow32(w, d, 2, RDI, CLOCK_REALTIME_COARSE);
      d := DoJne(w, d, 3, 38);
    }
  }

  lemma Dispatch(w: World, c: Core) returns (d: Core)
    requires Entered(w, c)
    ensures Leads(w, c, d) && d.mem == c.mem && Kept(c, d, Tp(c))
    ensures d.pc == if !Intercepts(w, c) then 38 else if Frozen(w.view(READ_FROZEN)) then 33 else 9
    ensures d.pc == 33 ==> d.regs.r11 == w.state
  {
    hide Run, Wrap32, Bit;
    d := SelectClock(w, c);
    if d.pc == 4 {
      d := ModeDispatch(w, d, 4, 38, 33);
    }
  }

  /** The struct's two words are added to the kernel's two words. */
  lemma AddOffset(w: World, c: Core) returns (d: Core)
    requires c.pc == 15 && Frame(w, c.regs.rsp, Tp(c))
    ensures Leads(w, c, d) && d.pc == 21 && Kept(c, d, Tp(c))
    ensures Load64(d.mem, c.regs.rsi) == Wrap64(Load64(c.mem, c.regs.rsi) + w.view(READ_SEC).sec)
    ensures Load64(d.mem, c.regs.rsi + 8) == Wrap64(Load64(c.mem, c.regs.rsi + 8) + w.view(READ_NSEC).nsec)
    ensures d.regs.rax == Load64(d.mem, c.regs.rsi + 8)
  {
    hide Run, Step, Enter, Load64, Store64, Wrap64;
    d := DoLeaState(w, c, 15, R11);
    d := DoLoadSec(w, d, 16, R8);
    d := DoLoadNsec(w, d, 17, R9);
    d := DoAddTo(w, d, 18, RSI, 0, R8);
    d := DoAddTo(w, d, 19, RSI, 8, R9);
    d := DoLoad(w, d, 20, RAX, RSI, 8);
  }

  lemma AskKernel(w: World, c: Core) returns (d: Core)
    requires (c.pc == 9 || c.pc == 38) && Frame(w, c.regs.rsp, Tp(c))
    ensures d.pc == c.pc + 6 && Leads(w, c, d) && Kept(c, d, Tp(c))
    ensures match w.kernel.clock(Wrap32(c.regs.rdi))
      case Known(ts) => Load64(d.mem, c.regs.rsi) == ts.sec && Load64(d.mem, c.regs.rsi + 8) == ts.nsec
      case BadClock => OnlyTouched(c.mem, d.mem, c.regs.rsp, Buffers(0, 0, 0, 0))
  {
    hide Run, Step, Load64, Store64, Wrap32;
    if c.pc == 9 {
      d := SyscallBlock(w, c, 9, SYS_CLOCK_GETTIME);
    } else {
      d := SyscallBlock(w, c, 38, SYS_CLOCK_GETTIME);
    }
  }

  /** The time a passthrough or advancing call reads, and the offset it adds. */
  function Real(w: World, c: Core): MaybeTimespec
  {
    w.kernel.clock(Wrap32(c.regs.rdi))
  }

  lemma AddAndCorrect(w: World, c: Core) returns (d: Core)
    requires c.pc == 15 && Frame(w, c.regs.rsp, Tp(c))
    ensures Leads(w, c, d) && Kept(c, d, Tp(c)) && d.pc == 44
    ensures
      var (s, f) := OneStep(Wrap64(Load64(c.mem, c.regs.rsi) + w.view(READ_SEC).sec),
                            Wrap64(Load64(c.mem, c.regs.rsi + 8) + w.view(READ_NSEC).nsec), SECOND);
      Load64(d.mem, c.regs.rsi) == Wrap64(s) && Load64(d.mem, c.regs.rsi + 8) == f
  {
    hide Run, Load64, Wrap64, OneStep, Step, Enter;
    d := AddOffset(w, c);
    d := Correct(w, d, 21, RSI, SECOND, 44, Tp(c));
  }

  /**
   Advancing mode, against any concurrent writer: the buffer receives the
   kernel's reading plus the offset words the two loads saw, carried into
   [0, 1e9) nanoseconds; nothing else is touched and the call comes back.
   */
  lemma Advancing(w: World, c: Core)
    requires Entered(w, c) && Intercepts(w, c) && !Frozen(w.view(READ_FROZEN))
    requires Real(w, c).Known? && 0 <= Real(w, c).ts.nsec < SECOND
    requires -SECOND <= w.view(READ_NSEC).nsec <= SECOND
    ensures CameBack(c, Run(w, c), Tp(c)) && Run(w, c).core.regs.rax == 0
    ensures
      var t := Nanos(Real(w, c).ts.sec, Real(w, c).ts.nsec) + Nanos(w.view(READ_SEC).sec, w.view(READ_NSEC).nsec);
      && Load64(Run(w, c).core.mem, c.regs.rsi) == Wrap64(t / SECOND)
      && Load64(Run(w, c).core.mem, c.regs.rsi + 8) == t % SECOND
  {
    hide Run, Load64, Bit, Wrap32, Wrap64, OneStep, Step, Enter;
    var d := Dispatch(w, c);
    d := AskKernel(w, d);
    d := AddAndCorrect(w, d);
    Exit(w, c, d, 44, Tp(c));
    WrappedSum(Real(w, c).ts.sec + w.view(READ_SEC).sec, Real(w, c).ts.nsec + w.view(READ_NSEC).nsec, SECOND);
  }

  /** Frozen mode: the buffer receives the two words the loads saw, and no system call is made. */
  lemma FrozenReading(w: World, c: Core)
    requires Entered(w, c) && Intercepts(w, c) && Frozen(w.view(READ_FROZEN))
    ensures CameBack(c, Run(w, c), Tp(c)) && Run(w, c).core.regs.rax == 0
    ensures Load64(Run(w, c).core.mem, c.regs.rsi) == w.view(READ_FROZEN_SEC).sec
    ensures Load64(Run(w, c).core.mem, c.regs.rsi + 8) == w.view(READ_FROZEN_NSEC).nsec
  {
    hide Run, Load64, Store64, Bit, Wrap32, Wrap64, Step, Enter;
    var d1 := Dispatch(w, c);
    var d2 := DoLoadSec(w, d1, 33, R8);
    var d3 := DoLoadNsec(w, d2, 34, R9);
    var d4 := DoStore(w, d3, 35, RSI, 0, R8);
    var d5 := DoStore(w, d4, 36, RSI, 8, R9);
    var d6 := DoJmp(w, d5, 37, 44);
    Exit(w, c, d6, 44, Tp(c));
  }

  /**
   Any other clock, or interception off: the buffer is what the kernel made of
   it. The result register is not: it is zero even when the kernel refused the
   clock, so a passthrough call is the bare system call exactly when that
   succeeds.
   */
  lemma Passthrough(w: World, c: Core)
    requires Entered(w, c) && !Intercepts(w, c)
    ensures CameBack(c, Run(w, c), Tp(c)) && Run(w, c).core.regs.rax == 0
    ensures match Real(w, c)
      case Known(ts) =>
        && Load64(Run(w, c).core.mem, c.regs.rsi) == ts.sec && Load64(Run(w, c).core.mem, c.regs.rsi + 8) == ts.nsec
      case BadClock => OnlyTouched(c.mem, Run(w, c).core.mem, c.regs.rsp, Buffers(0, 0, 0, 0))
    ensures Run(w, c).core.regs.rax == Enter(w.kernel, AtSyscall(c, SYS_CLOCK_GETTIME)).regs.rax
      <==> Real(w, c).Known?
  {
    hide Run, Load64, Store64, Bit, Wrap32, Wrap64;
    var d1 := Dispatch(w, c);
    var d2 := AskKernel(w, d1);
    Exit(w, c, d2, 44, Tp(c));
  }
}
