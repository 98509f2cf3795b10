/** From the bytes a Go writer leaves to the time a caller of a hooked function reads. */
module Readings {
  import opened Words
  import opened Memory
  import opened StateStruct
  import opened Clocks
  import opened GoClock
  import opened Machine
  import opened Stubs
  import opened Calls
  import ClockGettime

  /** No writer runs during the call: every instruction sees the struct that memory holds. */
  ghost predicate Quiet(w: World, c: Core)
  {
    forall pc :: Bytes(w.view(pc)) == BytesAt(c.mem, w.state, STATE_SIZE)
  }

  lemma QuietView(w: World, c: Core, s: State, pc: nat)
    requires Quiet(w, c) && BytesAt(c.mem, w.state, STATE_SIZE) == Bytes(s)
    ensures w.view(pc) == s
  {
    hide Bytes, BytesAt, Decode;
    DecodeEncode(s);
    DecodeEncode(w.view(pc));
    assert Bytes(w.view(pc)) == Bytes(s);
  }

  function TimespecOf(t: Instant): (ts: MaybeTimespec)
  {
    Known(Timespec(Unix(t).0, Unix(t).1))
  }

  /** The real instant t is a plausible clock reading: 2^62 seconds either way. */
  predicate Plausible(t: Instant)
  {
    -0x4000_0000_0000_0000 <= t / SECOND < 0x4000_0000_0000_0000
  }

  /** All the kernel's clocks are read at the real instant t. */
  predicate KernelAt(k: Kernel, t: Instant)
  {
    && Plausible(t)
    && k.clock(CLOCK_REALTIME) == TimespecOf(t)
    && k.tod == Timeval(Unix(t).0, Unix(t).1 / 1000)
  }

  /** The nanoseconds in the caller's timespec when the call is over. */
  function TpReading(w: World, c: Core): int
    requires c.pc < CODE_SIZE && Run(w, c).Returned?
  {
    Nanos(Load64(Run(w, c).core.mem, c.regs.rsi), Load64(Run(w, c).core.mem, c.regs.rsi + 8))
  }

  predicate Normalised(w: World, c: Core)
    requires c.pc < CODE_SIZE && Run(w, c).Returned?
  {
    0 <= Load64(Run(w, c).core.mem, c.regs.rsi + 8) < SECOND
  }

  ghost predicate CleanRead(w: World, c: Core)
  {
    && c.pc < CODE_SIZE && CameBack(c, Run(w, c), ClockGettime.Tp(c))
    && Run(w, c).core.regs.rax == 0 && Normalised(w, c)
  }

  ghost predicate HookedRead(w: World, c: Core)
  {
    ClockGettime.Entered(w, c) && ClockGettime.WallClock(c.regs.rdi)
  }

  /** Registers at the entry of a call with these two arguments. */
  function CallRegs(first: Int64, second: Int64): Regs
  {
    Regs(0, 0, 0, 0, second, first, 0, 0x20000, 0, 0, 0, 0, 0, 0, 0, 0)
  }

  /** Such a call exists for every struct and every real instant: none of what follows is about nothing. */
  lemma SomeCallReads(s: State, t: Instant) returns (w: World, c: Core)
    ensures HookedRead(w, c) && ClockGettime.Real(w, c) == TimespecOf(t)
    ensures Quiet(w, c) && BytesAt(c.mem, w.state, STATE_SIZE) == Bytes(s)
  {
    hide Bytes;
    var kernel := Kernel(_ => TimespecOf(t), Timeval(Unix(t).0, Unix(t).1 / 1000), 0, 0, 0, 0);
    w := World(kernel, 0x10000, _ => s, Flags(false, false));
    var mem: Mem := _ => 0;
    PokedBytes(mem, 0x10000, Bytes(s));
    c := Core(CallRegs(0, 0x30000), Flags(false, false), Poke(mem, 0x10000, Bytes(s)), CLOCK_GETTIME_PC);
  }

  /** A clock the kernel does not know: the system call answers EINVAL, the hooked function answers success. */
  lemma RefusedClockLooksFine() returns (w: World, c: Core)
    ensures ClockGettime.Entered(w, c) && !ClockGettime.Intercepts(w, c) && ClockGettime.Real(w, c) == BadClock
    ensures Enter(w.kernel, AtSyscall(c, SYS_CLOCK_GETTIME)).regs.rax == -EINVAL
    ensures CameBack(c, Run(w, c), ClockGettime.Tp(c)) && Run(w, c).core.regs.rax == 0
  {
    hide Run, Load64, Store64;
    w := World(Kernel(_ => BadClock, Timeval(0, 0), 0, 0, 0, 0), 0x10000, _ => State(0, 0, MASK_ENABLED, 0), Flags(false, false));
    c := Core(CallRegs(99, 0x30000), Flags(false, false), _ => 0, CLOCK_GETTIME_PC);
    ClockGettime.Passthrough(w, c);
  }

  lemma FloorParts(x: int)
    ensures Nanos(x / SECOND, x % SECOND) == x
  {
  }

  /** Advancing reads, whatever mixture of struct words the loads saw. */
  lemma AdvancingRead(w: World, c: Core, t: Instant, sec: Int64, nsec: Int64)
    requires HookedRead(w, c) && ClockGettime.Real(w, c) == TimespecOf(t) && Plausible(t)
    requires w.view(ClockGettime.READ_ENABLED).mask == MASK_ENABLED
    requires w.view(ClockGettime.READ_FROZEN).mask == MASK_ENABLED
    requires w.view(ClockGettime.READ_SEC).sec == sec && w.view(ClockGettime.READ_NSEC).nsec == nsec
    requires -SECOND < nsec < SECOND && -MAX_OFFSET_SEC <= sec <= MAX_OFFSET_SEC
    ensures CleanRead(w, c) && TpReading(w, c) == t + Nanos(sec, nsec)
  {
    hide Run, Load64;
    Masks(w.view(ClockGettime.READ_ENABLED));
    Masks(w.view(ClockGettime.READ_FROZEN));
    ClockGettime.Advancing(w, c);
    FloorParts(t + Nanos(sec, nsec));
  }

  lemma FrozenRead(w: World, c: Core, sec: Int64, nsec: Int64)
    requires HookedRead(w, c)
    requires w.view(ClockGettime.READ_ENABLED).mask == MASK_FROZEN
    requires w.view(ClockGettime.READ_FROZEN).mask == MASK_FROZEN
    requires w.view(ClockGettime.READ_FROZEN_SEC).sec == sec && w.view(ClockGettime.READ_FROZEN_NSEC).nsec == nsec
    requires 0 <= nsec < SECOND
    ensures CleanRead(w, c) && TpReading(w, c) == Nanos(sec, nsec)
  {
    hide Run, Load64;
    Masks(w.view(ClockGettime.READ_ENABLED));
    Masks(w.view(ClockGettime.READ_FROZEN));
    ClockGettime.FrozenReading(w, c);
  }

  /**
   SetTime(target) at the real instant base, then clock_gettime at the real
   instant t: the caller reads t plus the saturated difference, in normal form,
   which is target + (t - base) exactly when the difference fits an int64 of
   nanoseconds.
   */
  lemma SetTimeThenRead(w: World, c: Core, target: Instant, base: Instant, gen: Gen, t: Instant)
    requires HookedRead(w, c) && ClockGettime.Real(w, c) == TimespecOf(t) && Plausible(t)
    requires Quiet(w, c) && BytesAt(c.mem, w.state, STATE_SIZE) == Bytes(AdvancingState(target, base, gen))
    ensures CleanRead(w, c) && TpReading(w, c) == t + Sub(target, base)
    ensures TpReading(w, c) == target + (t - base) <==> -TWO63 <= target - base < TWO63
  {
    hide Run, Load64, Bytes, BytesAt;
    var s := AdvancingState(target, base, gen);
    QuietView(w, c, s, ClockGettime.READ_ENABLED);
    QuietView(w, c, s, ClockGettime.READ_FROZEN);
    QuietView(w, c, s, ClockGettime.READ_SEC);
    QuietView(w, c, s, ClockGettime.READ_NSEC);
    AdvancingRead(w, c, t, s.sec, s.nsec);
  }

  /** Freeze(target), then clock_gettime at any time: the caller reads exactly target. */
  lemma FreezeThenRead(w: World, c: Core, target: Instant, gen: Gen)
    requires HookedRead(w, c)
    requires Quiet(w, c) && BytesAt(c.mem, w.state, STATE_SIZE) == Bytes(FrozenState(target, gen))
    ensures CleanRead(w, c)
    ensures TpReading(w, c) == target <==> -TWO63 <= target / SECOND < TWO63
  {
    hide Run, Load64, Bytes, BytesAt;
    var s := FrozenState(target, gen);
    QuietView(w, c, s, ClockGettime.READ_ENABLED);
    QuietView(w, c, s, ClockGettime.READ_FROZEN);
    QuietView(w, c, s, ClockGettime.READ_FROZEN_SEC);
    QuietView(w, c, s, ClockGettime.READ_FROZEN_NSEC);
    FrozenRead(w, c, s.sec, s.nsec);
  }
}
