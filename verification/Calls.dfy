/** What a hook call must respect, and the instruction blocks the stubs share. */
module Calls {
  import opened Words
  import opened Memory
  import opened StateStruct
  import opened Clocks
  import opened Machine
  import opened Stubs
  import opened Effects

  const SLOTS := 24

  /** The caller's memory a call may write: n bytes at a and k bytes at b. A null argument is no bytes. */
  datatype Buffers = Buffers(a: int, n: nat, b: int, k: nat)

  predicate Apart(w: World, rsp: int, buf: int, n: nat)
  {
    && 0 <= buf <= TWO63 - 4096 - n
    && Disjoint(buf, n, rsp - SLOTS, SLOTS + WORD_BYTES)
    && Disjoint(buf, n, w.state, STATE_SIZE)
  }

  /**
   The caller's side of a call: the return address is on top of the stack, and
   the caller's buffers, the stub's own stack slots and the state struct do not
   overlap. User-space addresses fit an int64.
   */
  predicate Frame(w: World, rsp: int, t: Buffers)
  {
    && 4096 <= rsp < TWO63 - 4096
    && 0 <= w.state <= TWO63 - 4096
    && Disjoint(w.state, STATE_SIZE, rsp - SLOTS, SLOTS + WORD_BYTES)
    && Apart(w, rsp, t.a, t.n) && Apart(w, rsp, t.b, t.k)
    && Disjoint(t.a, t.n, t.b, t.k)
  }

  /** Section 3.2.1 of the System V AMD64 ABI: the registers a callee must leave as they were. */
  predicate CalleeSaved(r: Regs, q: Regs)
  {
    r.rbx == q.rbx && r.rbp == q.rbp && r.r12 == q.r12 && r.r13 == q.r13 && r.r14 == q.r14 && r.r15 == q.r15
  }

  /** No byte outside the buffers and the stack slots below rsp changed. */
  ghost predicate OnlyTouched(m: Mem, k: Mem, rsp: int, t: Buffers)
  {
    forall x :: !Within(x, t.a, t.n) && !Within(x, t.b, t.k) && !Within(x, rsp - SLOTS, SLOTS) ==> k(x) == m(x)
  }

  /** d is a later point of the call that c is in: same stack, same arguments, nothing else touched. */
  ghost predicate Kept(c: Core, d: Core, t: Buffers)
  {
    && d.regs.rsp == c.regs.rsp && d.regs.rdi == c.regs.rdi && d.regs.rsi == c.regs.rsi
    && CalleeSaved(c.regs, d.regs)
    && OnlyTouched(c.mem, d.mem, c.regs.rsp, t)
  }

  /** The call made at c came back: to its caller, stack balanced, callee-saved registers intact. */
  ghost predicate CameBack(c: Core, o: Outcome, t: Buffers)
  {
    && o.Returned?
    && o.to == Load64(c.mem, c.regs.rsp)
    && o.core.regs.rsp == c.regs.rsp + 8
    && CalleeSaved(c.regs, o.core.regs)
    && OnlyTouched(c.mem, o.core.mem, c.regs.rsp, t)
  }

  predicate Enabled(s: State) { Bit(s.mask % 256, 0) }
  predicate Frozen(s: State) { Bit(s.mask % 256, 1) }

  lemma Masks(s: State)
    ensures s.mask == MASK_ENABLED ==> Enabled(s) && !Frozen(s)
    ensures s.mask == MASK_FROZEN ==> Enabled(s) && Frozen(s)
  {
  }

  /** The core just before the system call of a push-push-mov-syscall-pop-pop block. */
  function AtSyscall(c: Core, nr: Int64): Core
  {
    Core(c.regs.(rsp := Wrap64(c.regs.rsp - 16), rax := nr), c.flags,
         Store64(Store64(c.mem, c.regs.rsp - 8, c.regs.rdi), c.regs.rsp - 16, c.regs.rsi), c.pc)
  }

  /** push rdi; push rsi; mov eax, nr; syscall; pop rsi; pop rdi */
  predicate SyscallCode(pc: nat, nr: int)
  {
    && pc + 6 < CODE_SIZE
    && Code(pc) == Push(RDI) && Code(pc + 1) == Push(RSI) && Code(pc + 2) == MovImm(RAX, nr)
    && Code(pc + 3) == Syscall && Code(pc + 4) == Pop(RSI) && Code(pc + 5) == Pop(RDI)
  }

  /** The block saves rdi and rsi around a call that clobbers rcx and r11 and leaves its result in rax. */
  lemma SyscallBlock(w: World, c: Core, pc: nat, nr: int) returns (d: Core)
    requires c.pc == pc && SyscallCode(pc, nr) && 0 <= nr < TWO31
    requires Frame(w, c.regs.rsp, Buffers(0, 0, 0, 0))
    requires var e := Enter(w.kernel, AtSyscall(c, nr));
      Load64(e.mem, c.regs.rsp - 16) == c.regs.rsi && Load64(e.mem, c.regs.rsp - 8) == c.regs.rdi
    ensures d.pc == c.pc + 6 && Leads(w, c, d)
    ensures var e := Enter(w.kernel, AtSyscall(c, nr));
      d.mem == e.mem && d.regs == c.regs.(rax := e.regs.rax, rcx := w.kernel.rcx, r11 := w.kernel.r11)
  {
    hide Run, Code, Load64, Store64, Wrap32, ToWord;
    var c1 := DoPush(w, c, pc, RDI);
    var c2 := DoPush(w, c1, pc + 1, RSI);
    var c3 := DoMovImm(w, c2, pc + 2, RAX, nr);
    var c4 := DoSyscall(w, c3, pc + 3);
    var c5 := DoPop(w, c4, pc + 4, RSI);
    d := DoPop(w, c5, pc + 5, RDI);
  }

  /** lea r11, [rel state]; test bit 0; jz real; test bit 1; jnz freeze */
  predicate ModeCode(pc: nat, passthrough: nat, freeze: nat)
  {
    && pc + 5 < CODE_SIZE && pc + 5 < freeze < passthrough < CODE_SIZE
    && Code(pc) == LeaState(R11) && Code(pc + 1) == TestStateBit(R11, OFF_MASK, 0) && Code(pc + 2) == Je(passthrough)
    && Code(pc + 3) == TestStateBit(R11, OFF_MASK, 1) && Code(pc + 4) == Jne(freeze)
  }

  /** The two mask reads may see different states when a writer switches the mode in between. */
  lemma ModeDispatch(w: World, c: Core, pc: nat, passthrough: nat, freeze: nat) returns (d: Core)
    requires c.pc == pc && ModeCode(pc, passthrough, freeze)
    requires 0 <= w.state <= TWO63 - 4096
    ensures Leads(w, c, d) && d.mem == c.mem && d.regs == c.regs.(r11 := w.state)
    ensures d.pc == if !Enabled(w.view(c.pc + 1)) then passthrough else if Frozen(w.view(c.pc + 3)) then freeze else c.pc + 5
  {
    hide Run, Code, Step, Enter, Bit, Load64;
    d := DoLeaState(w, c, pc, R11);
    d := DoTestState(w, d, pc + 1, 0);
    d := DoJe(w, d, pc + 2, passthrough);
    if d.pc != passthrough {
      d := DoTestState(w, d, pc + 3, 1);
      d := DoJne(w, d, pc + 4, freeze);
    }
  }

  /** cmp rax, unit; jl borrow; sub rax, unit; mov [x + 8], rax; inc qword [x]; jmp done */
  predicate CarryCode(pc: nat, x: Reg, unit: int, done: nat)
  {
    && pc + 12 < CODE_SIZE
    && Code(pc) == CmpImm(RAX, unit) && Code(pc + 1) == Jl(pc + 6) && Code(pc + 2) == SubImm(RAX, unit)
    && Code(pc + 3) == Store(x, 8, RAX) && Code(pc + 4) == Inc(x) && Code(pc + 5) == Jmp(done)
  }

  /** borrow: cmp rax, 0; jge done; add rax, unit; mov [x + 8], rax; dec qword [x]; jmp done */
  predicate BorrowCode(pc: nat, x: Reg, unit: int, done: nat)
  {
    && pc + 6 < CODE_SIZE
    && Code(pc) == CmpImm(RAX, 0) && Code(pc + 1) == Jge(done) && Code(pc + 2) == AddImm(RAX, unit)
    && Code(pc + 3) == Store(x, 8, RAX) && Code(pc + 4) == Dec(x) && Code(pc + 5) == Jmp(done)
  }

  /** The sum is in rax and in the second word of the buffer that register x points to. */
  ghost predicate Summed(w: World, c: Core, x: Reg, unit: int, t: Buffers)
  {
    && (x == RSI || x == RDI) && 0 < unit <= SECOND
    && Frame(w, c.regs.rsp, t) && t.a == c.regs.Get(x) && t.n == 16
    && c.regs.rax == Load64(c.mem, c.regs.Get(x) + 8)
  }

  lemma Carry(w: World, c: Core, pc: nat, x: Reg, unit: int, done: nat, t: Buffers) returns (d: Core)
    requires c.pc == pc && Summed(w, c, x, unit, t) && CarryCode(pc, x, unit, done) && done < CODE_SIZE
    ensures Leads(w, c, d) && Kept(c, d, t)
    ensures c.regs.rax < unit ==> d.pc == c.pc + 6 && d.mem == c.mem && d.regs == c.regs
    ensures c.regs.rax >= unit ==>
      && d.pc == done
      && Load64(d.mem, c.regs.Get(x)) == Wrap64(Load64(c.mem, c.regs.Get(x)) + 1)
      && Load64(d.mem, c.regs.Get(x) + 8) == c.regs.rax - unit
  {
    hide Run, Step, Enter, Load64, Store64, Code;
    d := DoCmpImm(w, c, pc, RAX, unit);
    d := DoJl(w, d, pc + 1, pc + 6);
    if c.regs.rax >= unit {
      d := DoSubImm(w, d, pc + 2, RAX, unit);
      d := DoStore(w, d, pc + 3, x, 8, RAX);
      d := DoInc(w, d, pc + 4, x);
      d := DoJmp(w, d, pc + 5, done);
    }
  }

  lemma Borrow(w: World, c: Core, pc: nat, x: Reg, unit: int, done: nat, t: Buffers) returns (d: Core)
    requires c.pc == pc && Summed(w, c, x, unit, t) && BorrowCode(pc, x, unit, done) && done < CODE_SIZE
    ensures Leads(w, c, d) && Kept(c, d, t) && d.pc == done
    ensures c.regs.rax >= 0 ==> d.mem == c.mem
    ensures c.regs.rax < 0 ==>
      && Load64(d.mem, c.regs.Get(x)) == Wrap64(Load64(c.mem, c.regs.Get(x)) - 1)
      && Load64(d.mem, c.regs.Get(x) + 8) == c.regs.rax + unit
  {
    hide Run, Step, Enter, Load64, Store64, Code;
    d := DoCmpImm(w, c, pc, RAX, 0);
    d := DoJge(w, d, pc + 1, done);
    if c.regs.rax < 0 {
      d := DoAddImm(w, d, pc + 2, RAX, unit);
      d := DoStore(w, d, pc + 3, x, 8, RAX);
      d := DoDec(w, d, pc + 4, x);
      d := DoJmp(w, d, pc + 5, done);
    }
  }

  /** The correction clock_gettime and gettimeofday share: one carry or one borrow, chosen by the sum. */
  lemma Correct(w: World, c: Core, pc: nat, x: Reg, unit: int, done: nat, t: Buffers) returns (d: Core)
    requires Summed(w, c, x, unit, t) && done < CODE_SIZE
    requires c.pc == pc && CarryCode(pc, x, unit, done) && BorrowCode(pc + 6, x, unit, done)
    ensures Leads(w, c, d) && Kept(c, d, t) && d.pc == done
    ensures var (s, f) := OneStep(Load64(c.mem, c.regs.Get(x)), Load64(c.mem, c.regs.Get(x) + 8), unit);
      Load64(d.mem, c.regs.Get(x)) == Wrap64(s) && Load64(d.mem, c.regs.Get(x) + 8) == f
  {
    hide Run, Load64, Store64, Code;
    d := Carry(w, c, pc, x, unit, done, t);
    if c.regs.rax < unit {
      d := Borrow(w, d, pc + 6, x, unit, done, t);
    }
  }

  /** xor eax, eax; ret */
  predicate DoneCode(pc: nat)
  {
    pc + 1 < CODE_SIZE && Code(pc) == Zero32(RAX) && Code(pc + 1) == Ret
  }

  /** From any later point of the call that reaches its exit, the call comes back with rax zero. */
  lemma Exit(w: World, c: Core, d: Core, pc: nat, t: Buffers)
    requires Leads(w, c, d) && Kept(c, d, t) && d.pc == pc && DoneCode(pc)
    requires Frame(w, c.regs.rsp, t)
    ensures CameBack(c, Run(w, c), t)
    ensures Run(w, c).core.mem == d.mem && Run(w, c).core.regs.rax == 0
  {
    hide Run, Step, Enter, Load64, Store64, Code;
    var e := DoZero(w, d, pc, RAX);
    DoRet(w, e, pc + 1);
    SameBytesSameLoad(c.mem, d.mem, c.regs.rsp);
  }
}
