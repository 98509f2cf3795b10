/** gettimeofday_entry refines the faked clock, in microseconds. */
module Gettimeofday {
  import opened Words
  import opened Memory
  import opened Clocks
  import opened Machine
  import opened Stubs
  import opened Effects
  import opened Calls

  const READ_ENABLED := 47
  const READ_FROZEN := 49
  const READ_SEC := 60
  const READ_NSEC := 61
  const READ_FROZEN_SEC := 82
  const READ_FROZEN_NSEC := 83

  /** struct timeval *tv, struct timezone *tz; either may be null. */
  function Args(c: Core): Buffers
  {
    Buffers(c.regs.rdi, if c.regs.rdi == 0 then 0 else 16, c.regs.rsi, if c.regs.rsi == 0 then 0 else 8)
  }

  ghost predicate Entered(w: World, c: Core)
  {
    c.pc == GETTIMEOFDAY_PC && Frame(w, c.regs.rsp, Args(c))
  }

  lemma AskKernel(w: World, c: Core) returns (d: Core)
    requires (c.pc == 51 || c.pc == 90) && Frame(w, c.regs.rsp, Args(c))
    ensures d.pc == c.pc + 6 && Leads(w, c, d) && Kept(c, d, Args(c))
    ensures c.regs.rdi != 0 ==>
      Load64(d.mem, c.regs.rdi) == w.kernel.tod.sec && Load64(d.mem, c.regs.rdi + 8) == w.kernel.tod.usec
    ensures c.regs.rsi != 0 ==> Load64(d.mem, c.regs.rsi) == w.kernel.tz
  {
    hide Run, Step, Load64, Store64, Wrap32;
    if c.pc == 51 {
      d := SyscallBlock(w, c, 51, SYS_GETTIMEOFDAY);
    } else {
      d := SyscallBlock(w, c, 90, SYS_GETTIMEOFDAY);
    }
  }

  lemma NullCheck(w: World, c: Core) returns (d: Core)
    requires c.pc == 57
    ensures Leads(w, c, d) && d.mem == c.mem && d.regs == c.regs
    ensures d.pc == if c.regs.rdi == 0 then 96 else 59
  {
    hide Run, Step, Load64;
    d := DoTestSelf(w, c, 57, RDI);
    d := DoJe(w, d, 58, 96);
  }

  /** lea; mov r8; mov rax; cqo; mov rcx; idiv: rax is the offset in microseconds. */
  lemma LoadOffset(w: World, c: Core) returns (d: Core)
    requires c.pc == 59 && 0 <= w.state <= TWO63 - 4096
    ensures Leads(w, c, d) && d.pc == 65 && d.mem == c.mem
    ensures d.regs.rsp == c.regs.rsp && d.regs.rdi == c.regs.rdi && d.regs.rsi == c.regs.rsi && CalleeSaved(c.regs, d.regs)
    ensures d.regs.r8 == w.view(READ_SEC).sec && d.regs.rax == TruncDiv(w.view(READ_NSEC).nsec, 1000)
  {
    hide Run, Step, Enter, Load64, TruncDiv, TruncMod;
    d := DoLeaState(w, c, 59, R11);
    d := DoLoadSec(w, d, 60, R8);
    d := DoLoadNsec(w, d, 61, RAX);
    d := DoDivide1000(w, d, 62);
  }

  lemma AddWords(w: World, c: Core) returns (d: Core)
    requires c.pc == 65 && c.regs.rdi != 0 && Frame(w, c.regs.rsp, Args(c))
    ensures Leads(w, c, d) && d.pc == 68 && Kept(c, d, Buffers(c.regs.rdi, 16, 0, 0))
    ensures Load64(d.mem, c.regs.rdi) == Wrap64(Load64(c.mem, c.regs.rdi) + c.regs.r8)
    ensures Load64(d.mem, c.regs.rdi + 8) == Wrap64(Load64(c.mem, c.regs.rdi + 8) + c.regs.rax)
    ensures d.regs.rax == Load64(d.mem, c.regs.rdi + 8)
  {
    hide Run, Step, Enter, Load64, Store64, Wrap64;
    d := DoAddTo(w, c, 65, RDI, 0, R8);
    d := DoAddTo(w, d, 66, RDI, 8, RAX);
    d := DoLoad(w, d, 67, RAX, RDI, 8);
  }

  /** The struct's seconds and its nanoseconds, divided toward zero, are added and carried once. */
  lemma AddAndCorrect(w: World, c: Core) returns (d: Core)
    requires c.pc == 59 && c.regs.rdi != 0 && Frame(w, c.regs.rsp, Args(c))
    ensures Leads(w, c, d) && d.pc == 96 && Kept(c, d, Buffers(c.regs.rdi, 16, 0, 0))
    ensures
      var (s, f) := OneStep(Wrap64(Load64(c.mem, c.regs.rdi) + w.view(READ_SEC).sec),
                            Wrap64(Load64(c.mem, c.regs.rdi + 8) + TruncDiv(w.view(READ_NSEC).nsec, 1000)), MICROSECONDS);
      Load64(d.mem, c.regs.rdi) == Wrap64(s) && Load64(d.mem, c.regs.rdi + 8) == f
  {
    hide Run, Step, Enter, Load64, Wrap64, TruncDiv, TruncMod, OneStep;
    d := LoadOffset(w, c);
    d := AddWords(w, d);
    d := Correct(w, d, 68, RDI, MICROSECONDS, 96, Buffers(c.regs.rdi, 16, 0, 0));
  }

  /**
   Advancing mode: the kernel's microseconds plus the offset, whose nanoseconds
   are first divided toward zero, carried into [0, 1e6). The time zone is the
   kernel's, and a null tv is left alone.
   */
  lemma Advancing(w: World, c: Core)
    requires Entered(w, c) && Enabled(w.view(READ_ENABLED)) && !Frozen(w.view(READ_FROZEN))
    requires 0 <= w.kernel.tod.usec < MICROSECONDS
    requires -SECOND <= w.view(READ_NSEC).nsec <= SECOND
    ensures CameBack(c, Run(w, c), Args(c)) && Run(w, c).core.regs.rax == 0
    ensures c.regs.rdi != 0 ==>
      var t := (w.kernel.tod.sec + w.view(READ_SEC).sec) * MICROSECONDS
        + w.kernel.tod.usec + TruncDiv(w.view(READ_NSEC).nsec, 1000);
      && Load64(Run(w, c).core.mem, c.regs.rdi) == Wrap64(t / MICROSECONDS)
      && Load64(Run(w, c).core.mem, c.regs.rdi + 8) == t % MICROSECONDS
    ensures c.regs.rsi != 0 ==> Load64(Run(w, c).core.mem, c.regs.rsi) == w.kernel.tz
  {
    hide Run, Load64, Bit, Wrap64, OneStep, Step, Enter;
    var d := ModeDispatch(w, c, 46, 90, 80);
    d := AskKernel(w, d);
    d := NullCheck(w, d);
    if c.regs.rdi != 0 {
      AdvanceTv(w, c, d);
    } else {
      Exit(w, c, d, 96, Args(c));
    }
  }

  lemma AdvanceTv(w: World, c: Core, d2: Core)
    requires Frame(w, c.regs.rsp, Args(c)) && c.regs.rdi != 0
    requires Leads(w, c, d2) && Kept(c, d2, Args(c)) && d2.pc == 59
    requires Load64(d2.mem, c.regs.rdi) == w.kernel.tod.sec && Load64(d2.mem, c.regs.rdi + 8) == w.kernel.tod.usec
    requires 0 <= w.kernel.tod.usec < MICROSECONDS
    requires -SECOND <= w.view(READ_NSEC).nsec <= SECOND
    ensures CameBack(c, Run(w, c), Args(c)) && Run(w, c).core.regs.rax == 0
    ensures
      var t := (w.kernel.tod.sec + w.view(READ_SEC).sec) * MICROSECONDS
        + w.kernel.tod.usec + TruncDiv(w.view(READ_NSEC).nsec, 1000);
      && Load64(Run(w, c).core.mem, c.regs.rdi) == Wrap64(t / MICROSECONDS)
      && Load64(Run(w, c).core.mem, c.regs.rdi + 8) == t % MICROSECONDS
    ensures c.regs.rsi != 0 ==> Load64(Run(w, c).core.mem, c.regs.rsi) == Load64(d2.mem, c.regs.rsi)
  {
    hide Run, Load64, Wrap64, OneStep, Step, Enter;
    var d4 := AddAndCorrect(w, d2);
    Exit(w, c, d4, 96, Args(c));
    if c.regs.rsi != 0 {
      SameBytesSameLoad(d2.mem, d4.mem, c.regs.rsi);
    }
    WrappedSum(w.kernel.tod.sec + w.view(READ_SEC).sec,
               w.kernel.tod.usec + TruncDiv(w.view(READ_NSEC).nsec, 1000), MICROSECONDS);
  }

  lemma LoadFrozen(w: World, c: Core) returns (d: Core)
    requires c.pc == 82 && StateInPlace(w, c)
    ensures Leads(w, c, d) && d.pc == 87 && d.mem == c.mem
    ensures d.regs.rsp == c.regs.rsp && d.regs.rdi == c.regs.rdi && d.regs.rsi == c.regs.rsi && CalleeSaved(c.regs, d.regs)
    ensures d.regs.r8 == w.view(READ_FROZEN_SEC).sec && d.regs.rax == TruncDiv(w.view(READ_FROZEN_NSEC).nsec, 1000)
  {
    hide Run, Step, Enter, Load64, TruncDiv, TruncMod;
    d := DoLoadSec(w, c, 82, R8);
    d := DoLoadNsec(w, d, 83, RAX);
    d := DoDivide1000(w, d, 84);
  }

  lemma StoreFrozen(w: World, c: Core) returns (d: Core)
    requires c.pc == 80 && c.regs.r11 == w.state && Frame(w, c.regs.rsp, Args(c))
    ensures Leads(w, c, d) && d.pc == 96 && Kept(c, d, Args(c).(b := 0, k := 0))
    ensures c.regs.rdi != 0 ==>
      && Load64(d.mem, c.regs.rdi) == w.view(READ_FROZEN_SEC).sec
      && Load64(d.mem, c.regs.rdi + 8) == TruncDiv(w.view(READ_FROZEN_NSEC).nsec, 1000)
  {
    hide Run, Load64, Store64, Step, Enter, TruncDiv, TruncMod;
    d := DoTestSelf(w, c, 80, RDI);
    d := DoJe(w, d, 81, 96);
    if c.regs.rdi != 0 {
      d := LoadFrozen(w, d);
      d := DoStore(w, d, 87, RDI, 0, R8);
      d := DoStore(w, d, 88, RDI, 8, RAX);
      d := DoJmp(w, d, 89, 96);
    }
  }

  /** Frozen mode: the stored instant in microseconds. The time zone buffer is not written at all. */
  lemma FrozenReading(w: World, c: Core)
    requires Entered(w, c) && Enabled(w.view(READ_ENABLED)) && Frozen(w.view(READ_FROZEN))
    ensures CameBack(c, Run(w, c), Args(c).(b := 0, k := 0)) && Run(w, c).core.regs.rax == 0
    ensures c.regs.rdi != 0 ==>
      && Load64(Run(w, c).core.mem, c.regs.rdi) == w.view(READ_FROZEN_SEC).sec
      && Load64(Run(w, c).core.mem, c.regs.rdi + 8) == TruncDiv(w.view(READ_FROZEN_NSEC).nsec, 1000)
  {
    hide Run, Load64, Bit, Step, Enter, TruncDiv;
    var d := ModeDispatch(w, c, 46, 90, 80);
    d := StoreFrozen(w, d);
    Exit(w, c, d, 96, Args(c).(b := 0, k := 0));
  }

  /** Interception off: the call is the bare system call. */
  lemma Passthrough(w: World, c: Core)
    requires Entered(w, c) && !Enabled(w.view(READ_ENABLED))
    ensures CameBack(c, Run(w, c), Args(c)) && Run(w, c).core.regs.rax == 0
    ensures c.regs.rdi != 0 ==>
      && Load64(Run(w, c).core.mem, c.regs.rdi) == w.kernel.tod.sec
      && Load64(Run(w, c).core.mem, c.regs.rdi + 8) == w.kernel.tod.usec
    ensures c.regs.rsi != 0 ==> Load64(Run(w, c).core.mem, c.regs.rsi) == w.kernel.tz
  {
    hide Run, Load64, Bit, Wrap64, Step, Enter;
    var d := ModeDispatch(w, c, 46, 90, 80);
    d := AskKernel(w, d);
    Exit(w, c, d, 96, Args(c));
  }
}
