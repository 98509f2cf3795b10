/** The three hooked functions, called at the same real instant under the same state. */
module Agreement {
  import opened Words
  import opened Memory
  import opened StateStruct
  import opened Clocks
  import opened GoClock
  import opened Machine
  import opened Stubs
  import opened Calls
  import opened Readings
  import ClockGettime
  import Gettimeofday
  import TimeStub

  /** Three calls, one to each function with non-null buffers, one kernel instant, one unchanging state. */
  ghost predicate SameMoment(w: World, cg: Core, gd: Core, tm: Core, s: State, t: Instant)
  {
    && ClockGettime.Entered(w, cg) && Wrap32(cg.regs.rdi) == CLOCK_REALTIME
    && Gettimeofday.Entered(w, gd) && gd.regs.rdi != 0
    && TimeStub.Entered(w, tm)
    && KernelAt(w.kernel, t)
    && (forall pc :: w.view(pc) == s)
    && Wellformed(s)
  }

  /** Microseconds in the caller's timeval when gettimeofday is over. */
  function TvReading(w: World, c: Core): int
    requires c.pc < CODE_SIZE && Run(w, c).Returned?
  {
    Load64(Run(w, c).core.mem, c.regs.rdi) * MICROSECONDS + Load64(Run(w, c).core.mem, c.regs.rdi + 8)
  }

  /** The carry that the separate truncations of the real time and of the offset lose (or invent). */
  function LostCarry(t: Instant, nsec: int): (d: int)
    ensures -1 <= d <= 1
    ensures nsec % 1000 == 0 ==> d == 0
  {
    (t % 1000 + TruncMod(nsec, 1000)) / 1000
  }

  lemma MicroSum(t: Instant, sec: int, nsec: int)
    ensures (t + Nanos(sec, nsec)) / 1000
      == (t / SECOND + sec) * MICROSECONDS + t % SECOND / 1000 + TruncDiv(nsec, 1000) + LostCarry(t, nsec)
  {
    hide TruncDiv, TruncMod;
    var u, v := t % SECOND / 1000, t % SECOND % 1000;
    var e := v + TruncMod(nsec, 1000);
    ModUnique(t, 1000, t / SECOND * MICROSECONDS + u, v);
    ModUnique(t + Nanos(sec, nsec), 1000, (t / SECOND + sec) * MICROSECONDS + u + TruncDiv(nsec, 1000) + e / 1000, e % 1000);
  }

  /** Everything the three buffers hold when interception advances real time. */
  lemma AdvancingReadings(w: World, cg: Core, gd: Core, tm: Core, s: State, t: Instant)
    requires SameMoment(w, cg, gd, tm, s, t) && s.mask == MASK_ENABLED
    ensures CleanRead(w, cg) && TpReading(w, cg) == t + Nanos(s.sec, s.nsec)
    ensures CameBack(gd, Run(w, gd), Gettimeofday.Args(gd))
    ensures 0 <= Load64(Run(w, gd).core.mem, gd.regs.rdi + 8) < MICROSECONDS
    ensures TvReading(w, gd) == TpReading(w, cg) / 1000 - LostCarry(t, s.nsec)
    ensures CameBack(tm, Run(w, tm), TimeStub.Tloc(tm)) && Run(w, tm).core.regs.rax == TpReading(w, cg) / SECOND
  {
    hide Run, Load64;
    Masks(s);
    AdvancingRead(w, cg, t, s.sec, s.nsec);
    Gettimeofday.Advancing(w, gd);
    TimeStub.Advancing(w, tm);
    MicroSum(t, s.sec, s.nsec);
    FloorParts(t);
  }

  lemma FrozenReadings(w: World, cg: Core, gd: Core, tm: Core, s: State, t: Instant)
    requires SameMoment(w, cg, gd, tm, s, t) && s.mask == MASK_FROZEN
    ensures CleanRead(w, cg) && TpReading(w, cg) == Nanos(s.sec, s.nsec)
    ensures CameBack(gd, Run(w, gd), Gettimeofday.Args(gd)) && TvReading(w, gd) == TpReading(w, cg) / 1000
    ensures CameBack(tm, Run(w, tm), TimeStub.Tloc(tm)) && Run(w, tm).core.regs.rax == TpReading(w, cg) / SECOND
  {
    hide Run, Load64;
    Masks(s);
    FrozenRead(w, cg, s.sec, s.nsec);
    Gettimeofday.FrozenReading(w, gd);
    TimeStub.FrozenReading(w, tm);
  }

  /** time() is clock_gettime's tv_sec, in both modes. */
  lemma TimeAgrees(w: World, cg: Core, gd: Core, tm: Core, s: State, t: Instant)
    requires SameMoment(w, cg, gd, tm, s, t)
    ensures CameBack(cg, Run(w, cg), ClockGettime.Tp(cg)) && CameBack(tm, Run(w, tm), TimeStub.Tloc(tm))
    ensures Run(w, tm).core.regs.rax == Load64(Run(w, cg).core.mem, cg.regs.rsi)
  {
    hide Run, Load64;
    if s.mask == MASK_ENABLED {
      AdvancingReadings(w, cg, gd, tm, s, t);
    } else {
      FrozenReadings(w, cg, gd, tm, s, t);
    }
  }

  /**
   gettimeofday is clock_gettime truncated to microseconds, give or take one;
   it is equal exactly when the sub-microsecond parts of the real time and of
   the offset neither carry nor borrow, and always when the offset is whole
   microseconds or the clock is frozen.
   */
  lemma TodAgrees(w: World, cg: Core, gd: Core, tm: Core, s: State, t: Instant)
    requires SameMoment(w, cg, gd, tm, s, t)
    ensures CameBack(cg, Run(w, cg), ClockGettime.Tp(cg)) && CameBack(gd, Run(w, gd), Gettimeofday.Args(gd))
    ensures -1 <= TvReading(w, gd) - TpReading(w, cg) / 1000 <= 1
    ensures TvReading(w, gd) == TpReading(w, cg) / 1000
      <==> s.mask == MASK_FROZEN || 0 <= t % 1000 + TruncMod(s.nsec, 1000) < 1000
  {
    hide Run, Load64;
    if s.mask == MASK_ENABLED {
      AdvancingReadings(w, cg, gd, tm, s, t);
    } else {
      FrozenReadings(w, cg, gd, tm, s, t);
    }
  }

  /**
   Agreement to the second, which the stub's comment promises of all three: it
   fails in advancing mode exactly when the lost carry meets a second boundary.
   */
  lemma SecondsDisagreeIff(w: World, cg: Core, gd: Core, tm: Core, s: State, t: Instant)
    requires SameMoment(w, cg, gd, tm, s, t) && s.mask == MASK_ENABLED
    ensures CameBack(cg, Run(w, cg), ClockGettime.Tp(cg)) && CameBack(gd, Run(w, gd), Gettimeofday.Args(gd))
    ensures
      var usec := (t + Nanos(s.sec, s.nsec)) / 1000 % MICROSECONDS;
      (Load64(Run(w, gd).core.mem, gd.regs.rdi) != Load64(Run(w, cg).core.mem, cg.regs.rsi))
      <==> (LostCarry(t, s.nsec) == 1 && usec == 0) || (LostCarry(t, s.nsec) == -1 && usec == MICROSECONDS - 1)
  {
    hide Run, Load64, LostCarry;
    AdvancingReadings(w, cg, gd, tm, s, t);
    SecondsOf(t + Nanos(s.sec, s.nsec), LostCarry(t, s.nsec),
              Load64(Run(w, cg).core.mem, cg.regs.rsi), Load64(Run(w, cg).core.mem, cg.regs.rsi + 8),
              Load64(Run(w, gd).core.mem, gd.regs.rdi), Load64(Run(w, gd).core.mem, gd.regs.rdi + 8));
  }

  lemma SecondsOf(x: int, d: int, sec: int, nsec: int, tvSec: int, tvUsec: int)
    requires -1 <= d <= 1
    requires x == Nanos(sec, nsec) && 0 <= nsec < SECOND
    requires x / 1000 - d == tvSec * MICROSECONDS + tvUsec && 0 <= tvUsec < MICROSECONDS
    ensures tvSec != sec
      <==> (d == 1 && x / 1000 % MICROSECONDS == 0) || (d == -1 && x / 1000 % MICROSECONDS == MICROSECONDS - 1)
  {
    assert x / 1000 == sec * MICROSECONDS + nsec / 1000;
  }

  /** Two nanoseconds before a second, offset by two: clock_gettime is in the next second, gettimeofday is not. */
  lemma SecondsCanDisagree() returns (w: World, cg: Core, gd: Core, tm: Core)
    ensures SameMoment(w, cg, gd, tm, State(0, 2, MASK_ENABLED, 0), SECOND - 2)
    ensures CameBack(cg, Run(w, cg), ClockGettime.Tp(cg)) && CameBack(gd, Run(w, gd), Gettimeofday.Args(gd))
    ensures Load64(Run(w, gd).core.mem, gd.regs.rdi) != Load64(Run(w, cg).core.mem, cg.regs.rsi)
  {
    hide Run, Load64, Bytes, BytesAt;
    var s := State(0, 2, MASK_ENABLED, 0);
    w := World(Kernel(_ => TimespecOf(SECOND - 2), Timeval(0, 999_999), 0, 0, 0, 0), 0x10000, _ => s, Flags(false, false));
    cg := Core(CallRegs(0, 0x30000), Flags(false, false), _ => 0, CLOCK_GETTIME_PC);
    gd := cg.(regs := CallRegs(0x30000, 0), pc := GETTIMEOFDAY_PC);
    tm := cg.(regs := CallRegs(0, 0), pc := TIME_PC);
    SecondsDisagreeIff(w, cg, gd, tm, s, SECOND - 2);
  }
}
