/**
 The part of an x86-64 core that the hook stubs use: sixteen registers, two
 condition flags, byte memory, and three system calls. A concurrent writer may
 change the state struct between any two instructions.
 */
module Machine {
  import opened Words
  import opened Memory
  import opened StateStruct

  datatype Reg = RAX | RBX | RCX | RDX | RSI | RDI | RBP | RSP | R8 | R9 | R10 | R11 | R12 | R13 | R14 | R15

  datatype Regs = Regs(
    rax: Int64, rbx: Int64, rcx: Int64, rdx: Int64, rsi: Int64, rdi: Int64, rbp: Int64, rsp: Int64,
    r8: Int64, r9: Int64, r10: Int64, r11: Int64, r12: Int64, r13: Int64, r14: Int64, r15: Int64)
  {
    function Get(r: Reg): Int64 {
      match r
      case RAX => rax case RBX => rbx case RCX => rcx case RDX => rdx
      case RSI => rsi case RDI => rdi case RBP => rbp case RSP => rsp
      case R8 => r8 case R9 => r9 case R10 => r10 case R11 => r11
      case R12 => r12 case R13 => r13 case R14 => r14 case R15 => r15
    }

    function Set(r: Reg, v: Int64): Regs {
      match r
      case RAX => this.(rax := v) case RBX => this.(rbx := v) case RCX => this.(rcx := v) case RDX => this.(rdx := v)
      case RSI => this.(rsi := v) case RDI => this.(rdi := v) case RBP => this.(rbp := v) case RSP => this.(rsp := v)
      case R8 => this.(r8 := v) case R9 => this.(r9 := v) case R10 => this.(r10 := v) case R11 => this.(r11 := v)
      case R12 => this.(r12 := v) case R13 => this.(r13 := v) case R14 => this.(r14 := v) case R15 => this.(r15 := v)
    }
  }

  /** Condition flags: zero, and signed less-than (the sign flag xor the overflow flag). */
  datatype Flags = Flags(zero: bool, less: bool)

  datatype Instr =
    | CmpLow32(r: Reg, imm: int)                    // cmp r32, imm
    | CmpImm(r: Reg, imm: int)                      // cmp r64, imm
    | TestStateBit(base: Reg, disp: int, bit: nat)  // test byte [base + disp], 1 << bit
    | TestSelf(r: Reg)                              // test r64, r64
    | LeaState(r: Reg)                              // lea r64, [rel state]
    | MovImm(r: Reg, imm: int)                      // mov r, non-negative imm (32-bit forms zero-extend)
    | MovReg(dst: Reg, src: Reg)
    | Load(dst: Reg, base: Reg, disp: int)          // mov r64, [base + disp]
    | Store(base: Reg, disp: int, src: Reg)         // mov [base + disp], r64
    | AddTo(base: Reg, disp: int, src: Reg)         // add [base + disp], r64
    | AddImm(r: Reg, imm: int)
    | SubImm(r: Reg, imm: int)
    | Inc(base: Reg)                                // inc qword [base]
    | Dec(base: Reg)                                // dec qword [base]
    | Zero32(r: Reg)                                // xor r32, r32
    | Cqo
    | Idiv(r: Reg)
    | Push(r: Reg)
    | Pop(r: Reg)
    | Syscall
    | Je(target: nat) | Jne(target: nat) | Jl(target: nat) | Jge(target: nat) | Jmp(target: nat)
    | Ret

  datatype Timespec = Timespec(sec: Int64, nsec: Int64)
  datatype Timeval = Timeval(sec: Int64, usec: Int64)
  datatype MaybeTimespec = Known(ts: Timespec) | BadClock

  const CLOCK_REALTIME := 0
  const CLOCK_REALTIME_COARSE := 5
  const SYS_GETTIMEOFDAY := 96
  const SYS_TIME := 201
  const SYS_CLOCK_GETTIME := 228
  const EINVAL := 22

  /**
   What the kernel answers during one call: each clock by its 32-bit id, the
   wall clock in microseconds, the time-zone word, the seconds of SYS_time, and
   the values it leaves in the two registers a system call clobbers
   (appendix A.2.1 of the System V AMD64 ABI).
   */
  datatype Kernel = Kernel(clock: int -> MaybeTimespec, tod: Timeval, tz: Int64, seconds: Int64, rcx: Int64, r11: Int64)

  /**
   Where the state struct lies and what it holds when the instruction at each
   address executes; a writer that changes nothing is a constant view. idiv
   leaves the flags at whatever the field undefined says.
   */
  datatype World = World(kernel: Kernel, state: int, view: nat -> State, undefined: Flags)

  datatype Core = Core(regs: Regs, flags: Flags, mem: Mem, pc: nat)

  datatype Outcome = Next(core: Core) | Returned(core: Core, to: Int64) | Fault

  function Addr(c: Core, base: Reg, disp: int): Word
  {
    ToWord(c.regs.Get(base) + disp)
  }

  /** Memory as the instruction at c.pc sees it: the struct's bytes are the writer's. */
  function Seen(w: World, c: Core): (m: Mem)
  {
    Poke(c.mem, w.state, Bytes(w.view(c.pc)))
  }

  lemma SeenState(w: World, c: Core)
    ensures Load64(Seen(w, c), w.state) == w.view(c.pc).sec
    ensures Load64(Seen(w, c), w.state + OFF_NSEC) == w.view(c.pc).nsec
    ensures Seen(w, c)(w.state + OFF_MASK) == w.view(c.pc).mask % 256
    ensures forall a :: Disjoint(a, WORD_BYTES, w.state, STATE_SIZE) ==> Load64(Seen(w, c), a) == Load64(c.mem, a)
  {
    hide LeBytes, LeValue;
    var s := w.view(c.pc);
    var m := Seen(w, c);
    Fields(s);
    Int64RoundTrip(s.sec);
    Int64RoundTrip(s.nsec);
    assert BytesAt(m, w.state, WORD_BYTES) == Bytes(s)[0..8];
    assert BytesAt(m, w.state + OFF_NSEC, WORD_BYTES) == Bytes(s)[8..16];
    forall a | Disjoint(a, WORD_BYTES, w.state, STATE_SIZE)
      ensures Load64(m, a) == Load64(c.mem, a)
    {
      SameBytesSameLoad(m, c.mem, a);
    }
  }

  function FlagsOf(exact: int): Flags
  {
    Flags(Wrap64(exact) == 0, exact < 0)
  }

  predicate Bit(b: Byte, k: nat)
  {
    if k == 0 then b % 2 == 1 else Bit(b / 2, k - 1)
  }

  predicate IsJump(i: Instr)
  {
    i.Je? || i.Jne? || i.Jl? || i.Jge? || i.Jmp?
  }

  function Branch(c: Core, taken: bool, target: nat): Core
  {
    c.(pc := if taken then target else c.pc + 1)
  }

  /** One system call: the number is in rax, arguments in rdi and rsi. */
  function Enter(k: Kernel, c: Core): (c': Core)
    ensures c'.pc == c.pc
  {
    var r := c.regs.(rcx := k.rcx, r11 := k.r11);
    var a, b := ToWord(r.rdi), ToWord(r.rsi);
    if r.rax == SYS_CLOCK_GETTIME then
      match k.clock(Wrap32(r.rdi))
      case Known(ts) =>
        c.(regs := r.(rax := 0), mem := Store64(Store64(c.mem, b, ts.sec), b + 8, ts.nsec))
      case BadClock =>
        c.(regs := r.(rax := -EINVAL))
    else if r.rax == SYS_GETTIMEOFDAY then
      var m := if a == 0 then c.mem else Store64(Store64(c.mem, a, k.tod.sec), a + 8, k.tod.usec);
      c.(regs := r.(rax := 0), mem := if b == 0 then m else Store64(m, b, k.tz))
    else if r.rax == SYS_TIME then
      c.(regs := r.(rax := k.seconds), mem := if a == 0 then c.mem else Store64(c.mem, a, k.seconds))
    else
      c.(regs := r)
  }

  function Step(w: World, c: Core, i: Instr): (o: Outcome)
    ensures o.Next? ==> !i.Ret? && (o.core.pc == c.pc + 1 || (IsJump(i) && o.core.pc == i.target))
  {
    var n := c.(pc := c.pc + 1);
    var r := c.regs;
    match i
    case CmpLow32(x, imm) => Next(n.(flags := FlagsOf(Wrap32(r.Get(x)) - imm)))
    case CmpImm(x, imm) => Next(n.(flags := FlagsOf(r.Get(x) - imm)))
    case TestStateBit(x, d, k) => Next(n.(flags := Flags(!Bit(Seen(w, c)(Addr(c, x, d)), k), false)))
    case TestSelf(x) => Next(n.(flags := FlagsOf(r.Get(x))))
    case LeaState(x) => Next(n.(regs := r.Set(x, Wrap64(w.state))))
    case MovImm(x, imm) => Next(n.(regs := r.Set(x, Wrap64(imm))))
    case MovReg(x, y) => Next(n.(regs := r.Set(x, r.Get(y))))
    case Load(x, y, d) => Next(n.(regs := r.Set(x, Load64(Seen(w, c), Addr(c, y, d)))))
    case Store(x, d, y) => Next(n.(mem := Store64(c.mem, Addr(c, x, d), r.Get(y))))
    case AddTo(x, d, y) =>
      var sum := Load64(Seen(w, c), Addr(c, x, d)) + r.Get(y);
      Next(n.(mem := Store64(c.mem, Addr(c, x, d), Wrap64(sum)), flags := FlagsOf(sum)))
    case AddImm(x, imm) => Next(n.(regs := r.Set(x, Wrap64(r.Get(x) + imm)), flags := FlagsOf(r.Get(x) + imm)))
    case SubImm(x, imm) => Next(n.(regs := r.Set(x, Wrap64(r.Get(x) - imm)), flags := FlagsOf(r.Get(x) - imm)))
    case Inc(x) =>
      var v := Load64(Seen(w, c), Addr(c, x, 0)) + 1;
      Next(n.(mem := Store64(c.mem, Addr(c, x, 0), Wrap64(v)), flags := FlagsOf(v)))
    case Dec(x) =>
      var v := Load64(Seen(w, c), Addr(c, x, 0)) - 1;
      Next(n.(mem := Store64(c.mem, Addr(c, x, 0), Wrap64(v)), flags := FlagsOf(v)))
    case Zero32(x) => Next(n.(regs := r.Set(x, 0), flags := FlagsOf(0)))
    case Cqo => Next(n.(regs := r.(rdx := if r.rax < 0 then -1 else 0)))
    case Idiv(x) =>
      var dividend, d := r.rdx * TWO64 + ToWord(r.rax), r.Get(x);
      if d == 0 then Fault
      else
        var q := if d > 0 then TruncDiv(dividend, d) else -TruncDiv(dividend, Abs(d));
        var rest := TruncMod(dividend, Abs(d));
        if !(-TWO63 <= q < TWO63) then Fault
        else Next(n.(regs := r.(rax := q, rdx := rest), flags := w.undefined))
    case Push(x) =>
      var sp := Wrap64(r.rsp - 8);
      Next(n.(regs := r.(rsp := sp), mem := Store64(c.mem, ToWord(sp), r.Get(x))))
    case Pop(x) =>
      Next(n.(regs := r.(rsp := Wrap64(r.rsp + 8)).Set(x, Load64(Seen(w, c), ToWord(r.rsp)))))
    case Syscall => Next(Enter(w.kernel, n))
    case Je(t) => Next(Branch(c, c.flags.zero, t))
    case Jne(t) => Next(Branch(c, !c.flags.zero, t))
    case Jl(t) => Next(Branch(c, c.flags.less, t))
    case Jge(t) => Next(Branch(c, !c.flags.less, t))
    case Jmp(t) => Next(Branch(c, true, t))
    case Ret => Returned(n.(regs := r.(rsp := Wrap64(r.rsp + 8))), Load64(Seen(w, c), ToWord(r.rsp)))
  }
}
