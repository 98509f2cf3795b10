/** From a tracked tree to the bytes its processes execute: what a hooked call in one of them returns. */
module TreeReadings {
  import opened Words
  import opened Memory
  import opened StateStruct
  import opened GoClock
  import opened Machine
  import opened Readings
  import opened ProcessTree
  import opened TreeInvariants
  import opened TreeTimes
  import ClockGettime

  /** The struct, word by word, that the tree model's struct stands for. */
  function StateOf(st: Struct, gen: Gen): State
  {
    match st
    case FrozenAt(at) => FrozenState(at, gen)
    case Advancing(offset) => AdvancingState(offset, 0, gen)
  }

  /** The tree model's update of a struct is the one whose words SetTime and Freeze write. */
  lemma UpdateWritesItsWords(freeze: bool, target: int, now: int, gen: Gen)
    ensures StateOf(StructFor(freeze, target, now), gen)
      == if freeze then FrozenState(target, gen) else AdvancingState(target, now, gen)
  {
  }

  /** A call in process p, undisturbed by writers: its memory holds the words of p's struct where p has it. */
  ghost predicate CallIn(w: World, c: Core, p: Proc, gen: Gen)
  {
    && HookedRead(w, c) && Quiet(w, c) && p.injected && w.state == p.addr
    && BytesAt(c.mem, w.state, STATE_SIZE) == Bytes(StateOf(p.struct, gen))
  }

  /**
   Frozen trees, to the nanosecond in the caller's buffer: after every run whose
   last setting was a freeze, a clock_gettime call in any running process of the
   tree returns exactly the frozen instant, if and only if its seconds fit an
   int64.
   */
  lemma FrozenTreeReads(s: Sys, at: int, es: seq<Event>, s': Sys, g': Goal, pid: Pid, w: World, c: Core, gen: Gen)
    requires Start(s) && s.t.handle.record.frozen && s.t.handle.record.frozenAt == at
    requires s.procs[s.t.parent].struct == FrozenAt(at)
    requires TimedRun(s, Pinned(at), es, s', g') && g'.Pinned?
    requires Live(s', pid) && s'.procs[pid].stop.Running? && CallIn(w, c, s'.procs[pid], gen)
    ensures CleanRead(w, c)
    ensures TpReading(w, c) == g'.at <==> -TWO63 <= g'.at / 1000000000 < TWO63
  {
    hide TimedRun, Quiet, HookedRead, CleanRead, TpReading, Bytes, BytesAt;
    FrozenTreesAreExact(s, at, es, s', g', pid);
    FreezeThenRead(w, c, g'.at, gen);
  }

  /**
   Advancing trees: a call at the real instant t in any running process returns t
   plus the offset last set, less at most the real time since it was set.
   */
  lemma AdvancingTreeReads(s: Sys, offset: int, since: int, es: seq<Event>, s': Sys, g': Goal, pid: Pid,
                           w: World, c: Core, gen: Gen, t: Instant)
    requires Start(s) && !s.t.handle.record.frozen && s.procs[s.t.parent].struct == Advancing(offset)
    requires since <= s.now && offset - (s.now - since) <= s.t.handle.record.offset <= offset
    requires TimedRun(s, Drifting(offset, since), es, s', g') && g'.Drifting?
    requires Live(s', pid) && s'.procs[pid].stop.Running? && CallIn(w, c, s'.procs[pid], gen)
    requires ClockGettime.Real(w, c) == TimespecOf(t) && Plausible(t)
    requires -TWO63 <= g'.offset - (s'.now - g'.since) && g'.offset < TWO63
    ensures CleanRead(w, c)
    ensures t + g'.offset - (s'.now - g'.since) <= TpReading(w, c) <= t + g'.offset
  {
    hide TimedRun, Quiet, HookedRead, CleanRead, TpReading, Bytes, BytesAt;
    RunningIsTracked(s, es, s', Drifting(offset, since), g', pid);
    AdvancingTreesLagBoundedly(s, offset, since, es, s', g', pid);
    SetTimeThenRead(w, c, s'.procs[pid].struct.offset, 0, gen, t);
  }

  lemma RunningIsTracked(s: Sys, es: seq<Event>, s': Sys, g: Goal, g': Goal, pid: Pid)
    requires Start(s) && OnTime(s, g) && TimedRun(s, g, es, s', g') && Live(s', pid) && s'.procs[pid].stop.Running?
    ensures Tracks(s'.t, pid)
  {
    OnTimeRun(s, g, es, s', g');
    assert InPlace(s', pid);
  }
}
