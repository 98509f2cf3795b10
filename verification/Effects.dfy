/** One lemma an instruction: what running it does to the core, in the words the stub proofs need. */
module Effects {
  import opened Words
  import opened Memory
  import opened StateStruct
  import opened Machine
  import opened Stubs

  /** The next instruction is i, which lies at address pc. */
  predicate At(c: Core, pc: nat, i: Instr)
  {
    c.pc == pc && pc + 1 < CODE_SIZE && Code(pc) == i
  }

  /** A run from c passes through d. */
  ghost predicate Leads(w: World, c: Core, d: Core)
  {
    c.pc < CODE_SIZE && d.pc < CODE_SIZE && Run(w, c) == Run(w, d)
  }

  /** An eight-byte access at a is in user space and misses the state struct. */
  predicate Plain(w: World, a: int)
  {
    0 <= a <= TWO63 - 4096 && Disjoint(a, WORD_BYTES, w.state, STATE_SIZE)
  }

  predicate StateInPlace(w: World, c: Core)
  {
    0 <= w.state <= TWO63 - 4096 && c.regs.r11 == w.state
  }

  lemma DoPush(w: World, c: Core, pc: nat, x: Reg) returns (d: Core)
    requires At(c, pc, Push(x))
    requires 16 <= c.regs.rsp
    ensures d == c.(pc := c.pc + 1, regs := c.regs.(rsp := c.regs.rsp - 8),
                    mem := Store64(c.mem, c.regs.rsp - 8, c.regs.Get(x)))
    ensures Leads(w, c, d)
  {
    hide Code, Run, Enter, Seen, Load64, Store64, ToWord, Wrap64, Wrap32, Bit;
    ForwardOnly(c.pc);
    RunStep(w, c);
    d := Exec(w, c).core;
  }

  lemma DoPop(w: World, c: Core, pc: nat, x: Reg) returns (d: Core)
    requires At(c, pc, Pop(x))
    requires Plain(w, c.regs.rsp)
    ensures d == c.(pc := c.pc + 1, regs := c.regs.(rsp := c.regs.rsp + 8).Set(x, Load64(c.mem, c.regs.rsp)))
    ensures Leads(w, c, d)
  {
    hide Code, Run, Enter, Seen, Load64, Store64, ToWord, Wrap64, Wrap32, Bit;
    SeenState(w, c);
    ForwardOnly(c.pc);
    RunStep(w, c);
    d := Exec(w, c).core;
  }

  lemma DoSyscall(w: World, c: Core, pc: nat) returns (d: Core)
    requires At(c, pc, Syscall)
    ensures d == Enter(w.kernel, c.(pc := c.pc + 1))
    ensures Leads(w, c, d)
  {
    hide Code, Run, Enter, Seen, Load64, Store64, ToWord, Wrap64, Wrap32, Bit;
    ForwardOnly(c.pc);
    RunStep(w, c);
    d := Exec(w, c).core;
  }

  lemma DoMovImm(w: World, c: Core, pc: nat, x: Reg, imm: int) returns (d: Core)
    requires At(c, pc, MovImm(x, imm))
    requires 0 <= imm < TWO31
    ensures d == c.(pc := c.pc + 1, regs := c.regs.Set(x, imm))
    ensures Leads(w, c, d)
  {
    hide Code, Run, Enter, Seen, Load64, Store64, ToWord, Wrap64, Wrap32, Bit;
    ForwardOnly(c.pc);
    RunStep(w, c);
    d := Exec(w, c).core;
  }

  lemma DoMovReg(w: World, c: Core, pc: nat, x: Reg, y: Reg) returns (d: Core)
    requires At(c, pc, MovReg(x, y))
    ensures d == c.(pc := c.pc + 1, regs := c.regs.Set(x, c.regs.Get(y)))
    ensures Leads(w, c, d)
  {
    hide Code, Run, Enter, Seen, Load64, Store64, ToWord, Wrap64, Wrap32, Bit;
    ForwardOnly(c.pc);
    RunStep(w, c);
    d := Exec(w, c).core;
  }

  lemma DoLeaState(w: World, c: Core, pc: nat, x: Reg) returns (d: Core)
    requires At(c, pc, LeaState(x))
    requires 0 <= w.state <= TWO63 - 4096
    ensures d == c.(pc := c.pc + 1, regs := c.regs.Set(x, w.state))
    ensures Leads(w, c, d)
  {
    hide Code, Run, Enter, Seen, Load64, Store64, ToWord, Wrap64, Wrap32, Bit;
    ForwardOnly(c.pc);
    RunStep(w, c);
    d := Exec(w, c).core;
  }

  lemma DoLoadSec(w: World, c: Core, pc: nat, x: Reg) returns (d: Core)
    requires At(c, pc, Load(x, R11, OFF_SEC))
    requires StateInPlace(w, c)
    ensures d == c.(pc := c.pc + 1, regs := c.regs.Set(x, w.view(c.pc).sec))
    ensures Leads(w, c, d)
  {
    hide Code, Run, Enter, Seen, Load64, Store64, ToWord, Wrap64, Wrap32, Bit;
    SeenState(w, c);
    ForwardOnly(c.pc);
    RunStep(w, c);
    d := Exec(w, c).core;
  }

  lemma DoLoadNsec(w: World, c: Core, pc: nat, x: Reg) returns (d: Core)
    requires At(c, pc, Load(x, R11, OFF_NSEC))
    requires StateInPlace(w, c)
    ensures d == c.(pc := c.pc + 1, regs := c.regs.Set(x, w.view(c.pc).nsec))
    ensures Leads(w, c, d)
  {
    hide Code, Run, Enter, Seen, Load64, Store64, ToWord, Wrap64, Wrap32, Bit;
    SeenState(w, c);
    ForwardOnly(c.pc);
    RunStep(w, c);
    d := Exec(w, c).core;
  }

  lemma DoLoad(w: World, c: Core, pc: nat, x: Reg, y: Reg, disp: int) returns (d: Core)
    requires At(c, pc, Load(x, y, disp))
    requires Plain(w, c.regs.Get(y) + disp)
    ensures d == c.(pc := c.pc + 1, regs := c.regs.Set(x, Load64(c.mem, c.regs.Get(y) + disp)))
    ensures Leads(w, c, d)
  {
    hide Code, Run, Enter, Seen, Load64, Store64, ToWord, Wrap64, Wrap32, Bit;
    SeenState(w, c);
    ForwardOnly(c.pc);
    RunStep(w, c);
    d := Exec(w, c).core;
  }

  lemma DoStore(w: World, c: Core, pc: nat, x: Reg, disp: int, y: Reg) returns (d: Core)
    requires At(c, pc, Store(x, disp, y))
    requires Plain(w, c.regs.Get(x) + disp)
    ensures d == c.(pc := c.pc + 1, mem := Store64(c.mem, c.regs.Get(x) + disp, c.regs.Get(y)))
    ensures Leads(w, c, d)
  {
    hide Code, Run, Enter, Seen, Load64, Store64, ToWord, Wrap64, Wrap32, Bit;
    ForwardOnly(c.pc);
    RunStep(w, c);
    d := Exec(w, c).core;
  }

  lemma DoAddTo(w: World, c: Core, pc: nat, x: Reg, disp: int, y: Reg) returns (d: Core)
    requires At(c, pc, AddTo(x, disp, y))
    requires Plain(w, c.regs.Get(x) + disp)
    ensures var sum := Load64(c.mem, c.regs.Get(x) + disp) + c.regs.Get(y);
      d == c.(pc := c.pc + 1, mem := Store64(c.mem, c.regs.Get(x) + disp, Wrap64(sum)), flags := FlagsOf(sum))
    ensures Leads(w, c, d)
  {
    hide Code, Run, Enter, Seen, Load64, Store64, ToWord, Wrap64, Wrap32, Bit;
    SeenState(w, c);
    ForwardOnly(c.pc);
    RunStep(w, c);
    d := Exec(w, c).core;
  }

  lemma DoInc(w: World, c: Core, pc: nat, x: Reg) returns (d: Core)
    requires At(c, pc, Inc(x))
    requires Plain(w, c.regs.Get(x))
    ensures var sum := Load64(c.mem, c.regs.Get(x)) + 1;
      d == c.(pc := c.pc + 1, mem := Store64(c.mem, c.regs.Get(x), Wrap64(sum)), flags := FlagsOf(sum))
    ensures Leads(w, c, d)
  {
    hide Code, Run, Enter, Seen, Load64, Store64, ToWord, Wrap64, Wrap32, Bit;
    SeenState(w, c);
    ForwardOnly(c.pc);
    RunStep(w, c);
    d := Exec(w, c).core;
  }

  lemma DoDec(w: World, c: Core, pc: nat, x: Reg) returns (d: Core)
    requires At(c, pc, Dec(x))
    requires Plain(w, c.regs.Get(x))
    ensures var sum := Load64(c.mem, c.regs.Get(x)) - 1;
      d == c.(pc := c.pc + 1, mem := Store64(c.mem, c.regs.Get(x), Wrap64(sum)), flags := FlagsOf(sum))
    ensures Leads(w, c, d)
  {
    hide Code, Run, Enter, Seen, Load64, Store64, ToWord, Wrap64, Wrap32, Bit;
    SeenState(w, c);
    ForwardOnly(c.pc);
    RunStep(w, c);
    d := Exec(w, c).core;
  }

  lemma DoAddImm(w: World, c: Core, pc: nat, x: Reg, imm: int) returns (d: Core)
    requires At(c, pc, AddImm(x, imm))
    ensures d == c.(pc := c.pc + 1, regs := c.regs.Set(x, Wrap64(c.regs.Get(x) + imm)), flags := FlagsOf(c.regs.Get(x) + imm))
    ensures Leads(w, c, d)
  {
    hide Code, Run, Enter, Seen, Load64, Store64, ToWord, Wrap64, Wrap32, Bit;
    ForwardOnly(c.pc);
    RunStep(w, c);
    d := Exec(w, c).core;
  }

  lemma DoSubImm(w: World, c: Core, pc: nat, x: Reg, imm: int) returns (d: Core)
    requires At(c, pc, SubImm(x, imm))
    ensures d == c.(pc := c.pc + 1, regs := c.regs.Set(x, Wrap64(c.regs.Get(x) - imm)), flags := FlagsOf(c.regs.Get(x) - imm))
    ensures Leads(w, c, d)
  {
    hide Code, Run, Enter, Seen, Load64, Store64, ToWord, Wrap64, Wrap32, Bit;
    ForwardOnly(c.pc);
    RunStep(w, c);
    d := Exec(w, c).core;
  }

  lemma DoZero(w: World, c: Core, pc: nat, x: Reg) returns (d: Core)
    requires At(c, pc, Zero32(x))
    ensures d == c.(pc := c.pc + 1, regs := c.regs.Set(x, 0), flags := FlagsOf(0))
    ensures Leads(w, c, d)
  {
    hide Code, Run, Enter, Seen, Load64, Store64, ToWord, Wrap64, Wrap32, Bit;
    ForwardOnly(c.pc);
    RunStep(w, c);
    d := Exec(w, c).core;
  }

  lemma DoCmpLow32(w: World, c: Core, pc: nat, x: Reg, imm: int) returns (d: Core)
    requires At(c, pc, CmpLow32(x, imm))
    ensures d == c.(pc := c.pc + 1, flags := FlagsOf(Wrap32(c.regs.Get(x)) - imm))
    ensures Leads(w, c, d)
  {
    hide Code, Run, Enter, Seen, Load64, Store64, ToWord, Wrap64, Wrap32, Bit;
    ForwardOnly(c.pc);
    RunStep(w, c);
    d := Exec(w, c).core;
  }

  lemma DoCmpImm(w: World, c: Core, pc: nat, x: Reg, imm: int) returns (d: Core)
    requires At(c, pc, CmpImm(x, imm))
    ensures d == c.(pc := c.pc + 1, flags := FlagsOf(c.regs.Get(x) - imm))
    ensures Leads(w, c, d)
  {
    hide Code, Run, Enter, Seen, Load64, Store64, ToWord, Wrap64, Wrap32, Bit;
    ForwardOnly(c.pc);
    RunStep(w, c);
    d := Exec(w, c).core;
  }

  lemma DoTestSelf(w: World, c: Core, pc: nat, x: Reg) returns (d: Core)
    requires At(c, pc, TestSelf(x))
    ensures d == c.(pc := c.pc + 1, flags := FlagsOf(c.regs.Get(x)))
    ensures Leads(w, c, d)
  {
    hide Code, Run, Enter, Seen, Load64, Store64, ToWord, Wrap64, Wrap32, Bit;
    ForwardOnly(c.pc);
    RunStep(w, c);
    d := Exec(w, c).core;
  }

  lemma DoTestState(w: World, c: Core, pc: nat, k: nat) returns (d: Core)
    requires At(c, pc, TestStateBit(R11, OFF_MASK, k))
    requires StateInPlace(w, c)
    ensures d == c.(pc := c.pc + 1, flags := Flags(!Bit(w.view(c.pc).mask % 256, k), false))
    ensures Leads(w, c, d)
  {
    hide Code, Run, Enter, Seen, Load64, Store64, ToWord, Wrap64, Wrap32, Bit;
    SeenState(w, c);
    ForwardOnly(c.pc);
    RunStep(w, c);
    d := Exec(w, c).core;
  }

  lemma DoJe(w: World, c: Core, pc: nat, t: nat) returns (d: Core)
    requires At(c, pc, Je(t))
    ensures d == c.(pc := if c.flags.zero then t else c.pc + 1)
    ensures Leads(w, c, d)
  {
    hide Code, Run, Enter, Seen, Load64, Store64, ToWord, Wrap64, Wrap32, Bit;
    ForwardOnly(c.pc);
    RunStep(w, c);
    d := Exec(w, c).core;
  }

  lemma DoJne(w: World, c: Core, pc: nat, t: nat) returns (d: Core)
    requires At(c, pc, Jne(t))
    ensures d == c.(pc := if !c.flags.zero then t else c.pc + 1)
    ensures Leads(w, c, d)
  {
    hide Code, Run, Enter, Seen, Load64, Store64, ToWord, Wrap64, Wrap32, Bit;
    ForwardOnly(c.pc);
    RunStep(w, c);
    d := Exec(w, c).core;
  }

  lemma DoJl(w: World, c: Core, pc: nat, t: nat) returns (d: Core)
    requires At(c, pc, Jl(t))
    ensures d == c.(pc := if c.flags.less then t else c.pc + 1)
    ensures Leads(w, c, d)
  {
    hide Code, Run, Enter, Seen, Load64, Store64, ToWord, Wrap64, Wrap32, Bit;
    ForwardOnly(c.pc);
    RunStep(w, c);
    d := Exec(w, c).core;
  }

  lemma DoJge(w: World, c: Core, pc: nat, t: nat) returns (d: Core)
    requires At(c, pc, Jge(t))
    ensures d == c.(pc := if !c.flags.less then t else c.pc + 1)
    ensures Leads(w, c, d)
  {
    hide Code, Run, Enter, Seen, Load64, Store64, ToWord, Wrap64, Wrap32, Bit;
    ForwardOnly(c.pc);
    RunStep(w, c);
    d := Exec(w, c).core;
  }

  lemma DoJmp(w: World, c: Core, pc: nat, t: nat) returns (d: Core)
    requires At(c, pc, Jmp(t))
    ensures d == c.(pc := t)
    ensures Leads(w, c, d)
  {
    hide Code, Run, Enter, Seen, Load64, Store64, ToWord, Wrap64, Wrap32, Bit;
    ForwardOnly(c.pc);
    RunStep(w, c);
    d := Exec(w, c).core;
  }

  /** What cqo leaves in rdx:rax is rax itself, and its thousandth part fits a register. */
  lemma SignExtends(x: Int64)
    ensures (if x < 0 then -1 else 0) * TWO64 + ToWord(x) == x
    ensures -TWO63 <= TruncDiv(x, 1000) < TWO63
  {
    hide TruncDiv;
    assert x == 1000 * TruncDiv(x, 1000) + TruncMod(x, 1000);
  }

  /** cqo; mov rcx, 1000; idiv rcx: rax is divided by 1000, truncating toward zero. */
  lemma DoDivide1000(w: World, c: Core, pc: nat) returns (d: Core)
    requires At(c, pc, Cqo) && At(c.(pc := pc + 1), pc + 1, MovImm(RCX, 1000)) && At(c.(pc := pc + 2), pc + 2, Idiv(RCX))
    ensures d == c.(pc := c.pc + 3, flags := w.undefined,
                    regs := c.regs.(rax := TruncDiv(c.regs.rax, 1000), rcx := 1000, rdx := TruncMod(c.regs.rax, 1000)))
    ensures Leads(w, c, d)
  {
    hide Code, Run, Enter, Seen, Load64, Store64, Wrap64, Wrap32, Bit, ToWord, TruncDiv, TruncMod;
    ForwardOnly(c.pc);
    RunStep(w, c);
    var c1 := Exec(w, c).core;
    var c2 := DoMovImm(w, c1, pc + 1, RCX, 1000);
    SignExtends(c.regs.rax);
    ForwardOnly(c2.pc);
    RunStep(w, c2);
    d := Exec(w, c2).core;
  }

  /** ret: control goes back to the address on top of the stack. */
  lemma DoRet(w: World, c: Core, pc: nat)
    requires c.pc == pc < CODE_SIZE && Code(pc) == Ret
    requires Plain(w, c.regs.rsp)
    ensures Run(w, c) == Returned(c.(pc := c.pc + 1, regs := c.regs.(rsp := c.regs.rsp + 8)), Load64(c.mem, c.regs.rsp))
  {
    hide Code, Run, Enter, Seen, Load64, Store64, ToWord, Wrap64, Wrap32, Bit;
    SeenState(w, c);
    RunStep(w, c);
  }
}
