/** time_entry refines the faked clock, in seconds. */
module TimeStub {
  import opened Words
  import opened Memory
  import opened Clocks
  import opened Machine
  import opened Stubs
  import opened Effects
  import opened Calls

  const READ_ENABLED := 99
  const READ_FROZEN := 101
  const READ_SEC := 110
  const READ_NSEC := 111
  const READ_FROZEN_SEC := 129

  /** time_t *tloc, which may be null. */
  function Tloc(c: Core): Buffers
  {
    Buffers(c.regs.rdi, if c.regs.rdi == 0 then 0 else 8, 0, 0)
  }

  ghost predicate Entered(w: World, c: Core)
  {
    c.pc == TIME_PC && Frame(w, c.regs.rsp, Tloc(c))
  }

  /** d is inside the call that c entered: tloc is saved above the scratch timespec on the stack. */
  ghost predicate Scratch(c: Core, d: Core)
  {
    && d.regs.rsp == c.regs.rsp - 24
    && CalleeSaved(c.regs, d.regs)
    && Load64(d.mem, c.regs.rsp - 8) == c.regs.rdi
    && OnlyTouched(c.mem, d.mem, c.regs.rsp, Buffers(0, 0, 0, 0))
  }

  /** The real clock is read into the scratch timespec, whatever clock time() itself would use. */
  lemma AskKernel(w: World, c: Core) returns (d: Core)
    requires c.pc == 103 && Frame(w, c.regs.rsp, Tloc(c))
    requires w.kernel.clock(CLOCK_REALTIME).Known?
    ensures Leads(w, c, d) && d.pc == 109 && Scratch(c, d)
    ensures Load64(d.mem, c.regs.rsp - 24) == w.kernel.clock(CLOCK_REALTIME).ts.sec
    ensures Load64(d.mem, c.regs.rsp - 16) == w.kernel.clock(CLOCK_REALTIME).ts.nsec
  {
    hide Run, Step, Load64, Store64;
    d := DoPush(w, c, 103, RDI);
    d := DoSubImm(w, d, 104, RSP, 16);
    d := DoZero(w, d, 105, RDI);
    d := DoMovReg(w, d, 106, RSI, RSP);
    d := DoMovImm(w, d, 107, RAX, SYS_CLOCK_GETTIME);
    d := DoSyscall(w, d, 108);
  }

  lemma AddOffset(w: World, c: Core, b: Core) returns (d: Core)
    requires b.pc == 109 && Frame(w, c.regs.rsp, Tloc(c)) && Scratch(c, b)
    ensures Leads(w, b, d) && d.pc == 115 && Scratch(c, d)
    ensures Load64(d.mem, c.regs.rsp - 24) == Wrap64(Load64(b.mem, c.regs.rsp - 24) + w.view(READ_SEC).sec)
    ensures d.regs.rax == Wrap64(Load64(b.mem, c.regs.rsp - 16) + w.view(READ_NSEC).nsec)
  {
    hide Run, Step, Enter, Load64, Store64, Wrap64;
    d := DoLeaState(w, b, 109, R11);
    d := DoLoadSec(w, d, 110, R8);
    d := DoLoadNsec(w, d, 111, R9);
    d := DoAddTo(w, d, 112, RSP, 0, R8);
    d := DoAddTo(w, d, 113, RSP, 8, R9);
    d := DoLoad(w, d, 114, RAX, RSP, 8);
  }

  /** Only the seconds are corrected; the nanoseconds are discarded. */
  lemma CorrectSeconds(w: World, c: Core, b: Core) returns (d: Core)
    requires b.pc == 115 && Frame(w, c.regs.rsp, Tloc(c)) && Scratch(c, b)
    ensures Leads(w, b, d) && d.pc == 122 && Scratch(c, d)
    ensures Load64(d.mem, c.regs.rsp - 24) == Wrap64(OneStep(Load64(b.mem, c.regs.rsp - 24), b.regs.rax, SECOND).0)
  {
    hide Run, Step, Enter, Load64, Store64;
    d := DoCmpImm(w, b, 115, RAX, SECOND);
    d := DoJl(w, d, 116, 119);
    if d.pc != 119 {
      d := DoInc(w, d, 117, RSP);
      d := DoJmp(w, d, 118, 122);
    } else {
      d := DoCmpImm(w, d, 119, RAX, 0);
      d := DoJge(w, d, 120, 122);
      if d.pc != 122 {
        d := DoDec(w, d, 121, RSP);
      }
    }
  }

  lemma Exit(w: World, c: Core, d: Core)
    requires Leads(w, c, d) && d.pc == 136
    requires Frame(w, c.regs.rsp, Tloc(c)) && d.regs.rsp == c.regs.rsp && CalleeSaved(c.regs, d.regs)
    requires OnlyTouched(c.mem, d.mem, c.regs.rsp, Tloc(c))
    ensures CameBack(c, Run(w, c), Tloc(c))
    ensures Run(w, c).core.mem == d.mem && Run(w, c).core.regs.rax == d.regs.rax
  {
    hide Run, Step, Enter, Load64;
    DoRet(w, d, 136);
    SameBytesSameLoad(c.mem, d.mem, c.regs.rsp);
  }

  /** The scratch space is given back and the seconds go to rax and, if there is one, to *tloc. */
  lemma GiveBack(w: World, c: Core, b: Core) returns (d: Core)
    requires b.pc == 122 && Frame(w, c.regs.rsp, Tloc(c)) && Scratch(c, b)
    ensures Leads(w, b, d) && d.pc == 136
    ensures d.regs.rsp == c.regs.rsp && CalleeSaved(c.regs, d.regs) && OnlyTouched(c.mem, d.mem, c.regs.rsp, Tloc(c))
    ensures d.regs.rax == Load64(b.mem, c.regs.rsp - 24)
    ensures c.regs.rdi != 0 ==> Load64(d.mem, c.regs.rdi) == d.regs.rax
  {
    hide Run, Step, Enter, Load64, Store64;
    d := DoLoad(w, b, 122, RAX, RSP, 0);
    d := DoAddImm(w, d, 123, RSP, 16);
    d := DoPop(w, d, 124, RDI);
    d := DoTestSelf(w, d, 125, RDI);
    d := DoJe(w, d, 126, 136);
    if d.pc != 136 {
      d := DoStore(w, d, 127, RDI, 0, RAX);
      d := DoJmp(w, d, 128, 136);
    }
  }

  /** Advancing mode: the whole seconds of the real clock plus the offset. */
  lemma Advancing(w: World, c: Core)
    requires Entered(w, c) && Enabled(w.view(READ_ENABLED)) && !Frozen(w.view(READ_FROZEN))
    requires w.kernel.clock(CLOCK_REALTIME).Known? && 0 <= w.kernel.clock(CLOCK_REALTIME).ts.nsec < SECOND
    requires -SECOND <= w.view(READ_NSEC).nsec <= SECOND
    ensures CameBack(c, Run(w, c), Tloc(c))
    ensures
      var now := w.kernel.clock(CLOCK_REALTIME).ts;
      var t := Nanos(now.sec, now.nsec) + Nanos(w.view(READ_SEC).sec, w.view(READ_NSEC).nsec);
      Run(w, c).core.regs.rax == Wrap64(t / SECOND)
    ensures c.regs.rdi != 0 ==> Load64(Run(w, c).core.mem, c.regs.rdi) == Run(w, c).core.regs.rax
  {
    hide Run, Load64, Bit, Wrap64, OneStep, Step, Enter;
    var d1 := ModeDispatch(w, c, 98, 134, 129);
    var d2 := AskKernel(w, d1);
    var d3 := AddOffset(w, c, d2);
    var d4 := CorrectSeconds(w, c, d3);
    var d5 := GiveBack(w, c, d4);
    Exit(w, c, d5);
    var now := w.kernel.clock(CLOCK_REALTIME).ts;
    WrappedSum(now.sec + w.view(READ_SEC).sec, now.nsec + w.view(READ_NSEC).nsec, SECOND);
  }

  /** The frozen seconds go to rax and, if there is one, to *tloc. */
  lemma StoreFrozen(w: World, c: Core, b: Core) returns (d: Core)
    requires b.pc == 129 && Frame(w, c.regs.rsp, Tloc(c)) && b.regs.rsp == c.regs.rsp && b.regs.rdi == c.regs.rdi
    requires b.regs.r11 == w.state && CalleeSaved(c.regs, b.regs) && b.mem == c.mem
    ensures Leads(w, b, d) && d.pc == 136
    ensures d.regs.rsp == c.regs.rsp && CalleeSaved(c.regs, d.regs) && OnlyTouched(c.mem, d.mem, c.regs.rsp, Tloc(c))
    ensures d.regs.rax == w.view(READ_FROZEN_SEC).sec
    ensures c.regs.rdi != 0 ==> Load64(d.mem, c.regs.rdi) == d.regs.rax
  {
    hide Run, Load64, Store64, Bit, Wrap64, Step, Enter;
    d := DoLoadSec(w, b, 129, RAX);
    d := DoTestSelf(w, d, 130, RDI);
    d := DoJe(w, d, 131, 136);
    if d.pc != 136 {
      d := DoStore(w, d, 132, RDI, 0, RAX);
      d := DoJmp(w, d, 133, 136);
    }
  }

  /** Freeze mode: the stored seconds. */
  lemma FrozenReading(w: World, c: Core)
    requires Entered(w, c) && Enabled(w.view(READ_ENABLED)) && Frozen(w.view(READ_FROZEN))
    ensures CameBack(c, Run(w, c), Tloc(c))
    ensures Run(w, c).core.regs.rax == w.view(READ_FROZEN_SEC).sec
    ensures c.regs.rdi != 0 ==> Load64(Run(w, c).core.mem, c.regs.rdi) == Run(w, c).core.regs.rax
  {
    hide Run, Load64, Store64, Bit, Wrap64, Step, Enter;
    var d1 := ModeDispatch(w, c, 98, 134, 129);
    var d2 := StoreFrozen(w, c, d1);
    Exit(w, c, d2);
  }

  lemma Passthrough(w: World, c: Core)
    requires Entered(w, c) && !Enabled(w.view(READ_ENABLED))
    ensures CameBack(c, Run(w, c), Tloc(c))
    ensures Run(w, c).core.regs.rax == w.kernel.seconds
    ensures c.regs.rdi != 0 ==> Load64(Run(w, c).core.mem, c.regs.rdi) == w.kernel.seconds
  {
    hide Run, Load64, Store64, Bit, Wrap64, Step;
    var d := ModeDispatch(w, c, 98, 134, 129);
    d := DoMovImm(w, d, 134, RAX, SYS_TIME);
    d := DoSyscall(w, d, 135);
    Exit(w, c, d);
  }
}
