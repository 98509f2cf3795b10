/** What the processes of a tracked tree read, over every run. */
module TreeTimes {
  import opened Records
  import opened ProcessTree
  import opened TreeInvariants

  /** What the last bulk setting asked for: one frozen instant, or an offset that was right at some real instant. */
  datatype Goal = Pinned(at: int) | Drifting(offset: int, since: int)

  /** An offset may lag by at most the real time since it was right, and never lead. */
  predicate GoodOffset(o: int, g: Goal, now: int)
    requires g.Drifting?
  {
    g.offset - (now - g.since) <= o <= g.offset
  }

  predicate GoodStruct(st: Struct, g: Goal, now: int)
  {
    match g
    case Pinned(at) => st == FrozenAt(at)
    case Drifting(_, _) => st.Advancing? && GoodOffset(st.offset, g, now)
  }

  predicate GoodRecord(r: Record, g: Goal, now: int)
  {
    match g
    case Pinned(at) => r.frozen && r.frozenAt == at
    case Drifting(_, _) => !r.frozen && GoodOffset(r.offset, g, now)
  }

  ghost predicate OnTimeAt(s: Sys, g: Goal, pid: Pid)
    requires Live(s, pid)
  {
    && (Tracks(s.t, pid) ==>
      && GoodRecord(HandleOf(s.t, pid).record, g, s.now)
      && (!s.procs[pid].stop.AtExec? ==> GoodStruct(s.procs[pid].struct, g, s.now)))
    && (s.procs[pid].stop.AtFork? && Live(s, s.procs[pid].stop.child) ==>
      GoodStruct(s.procs[s.procs[pid].stop.child].struct, g, s.now))
  }

  /** Every record, every struct in use and every struct about to be used meets the goal. */
  ghost predicate OnTime(s: Sys, g: Goal)
  {
    && (g.Drifting? ==> g.since <= s.now)
    && forall pid :: Live(s, pid) ==> OnTimeAt(s, g, pid)
  }

  /** Times are set only in bulk, without error, and while no fork awaits handling; re-injection works. */
  ghost predicate Timely(s: Sys, e: Event)
  {
    Can(s, e) && Smooth(e) && !e.Update? && (e.Bulk? ==> !ForkAwaits(s))
  }

  function NextGoal(s: Sys, g: Goal, e: Event): Goal
  {
    if !e.Bulk? then g else if e.freeze then Pinned(e.target) else Drifting(e.target - s.now, s.now)
  }

  lemma OnTimeKernel(s: Sys, g: Goal, e: Event)
    requires Sound(s) && OnTime(s, g) && Timely(s, e) && (e.Fork? || e.Exec? || e.Signal? || e.Exit? || e.Prune?)
    ensures OnTime(After(s, e), g)
  {
    var s' := After(s, e);
    forall pid | Live(s', pid)
      ensures OnTimeAt(s', g, pid)
    {
      if Live(s, pid) {
        assert InPlace(s, pid) && OnTimeAt(s, g, pid);
      } else {
        assert e.Fork? && InPlace(s, e.p) && OnTimeAt(s, g, e.p);
      }
    }
  }

  lemma OnTimePoll(s: Sys, g: Goal, pid: Pid, c: Choice)
    requires Sound(s) && OnTime(s, g) && Timely(s, Poll(pid, c))
    ensures OnTime(After(s, Poll(pid, c)), g)
  {
    var s' := After(s, Poll(pid, c));
    forall q | Live(s', q)
      ensures OnTimeAt(s', g, q)
    {
      OnTimePollAt(s, g, pid, c, q);
    }
  }

  lemma OnTimePollAt(s: Sys, g: Goal, pid: Pid, c: Choice, q: Pid)
    requires Sound(s) && OnTime(s, g) && Timely(s, Poll(pid, c)) && Live(After(s, Poll(pid, c)), q)
    ensures OnTimeAt(After(s, Poll(pid, c)), g, q)
  {
    assert Tracks(s.t, pid);
    assert Live(s, pid) ==> InPlace(s, pid) && OnTimeAt(s, g, pid);
    assert InPlace(s, q) && OnTimeAt(s, g, q);
    match s.procs[pid].stop
    case Exited =>
    case AtFork(_) =>
    case AtExec =>
    case AtStart =>
    case AtSignal(_) =>
  }

  /**
   A bulk setting in a tree that is on time brings every process to the new goal
   unless a fork awaits handling, and in freeze mode exactly then (if the
   instant is new): the awaited child still carries the old instant.
   */
  lemma BulkReachesAllIff(s: Sys, g: Goal, e: Event)
    requires Sound(s) && OnTime(s, g) && Can(s, e) && e.Bulk?
    ensures !ForkAwaits(s) ==> OnTime(After(s, e), NextGoal(s, g, e))
    ensures e.freeze && g.Pinned? && g.at != e.target && OnTime(After(s, e), NextGoal(s, g, e)) ==> !ForkAwaits(s)
  {
    var s', g' := After(s, e), NextGoal(s, g, e);
    if !ForkAwaits(s) {
      forall q | Live(s', q)
        ensures OnTimeAt(s', g', q)
      {
        assert InPlace(s, q) && OnTimeAt(s, g, q);
      }
    } else if e.freeze && g.Pinned? && g.at != e.target {
      var p :| Live(s, p) && s.procs[p].stop.AtFork? && Live(s, s.procs[p].stop.child);
      assert InPlace(s, p) && OnTimeAt(s, g, p);
      assert !OnTimeAt(s', g', p);
    }
  }

  lemma OnTimeStep(s: Sys, g: Goal, e: Event)
    requires Sound(s) && OnTime(s, g) && Timely(s, e)
    ensures OnTime(After(s, e), NextGoal(s, g, e))
  {
    if e.Bulk? {
      BulkReachesAllIff(s, g, e);
    } else if e.Poll? {
      OnTimePoll(s, g, e.pid, e.choice);
    } else {
      OnTimeKernel(s, g, e);
    }
  }

  /** A run in which times are set in bulk only, and the goal it ends with. */
  ghost predicate TimedRun(s: Sys, g: Goal, es: seq<Event>, s': Sys, g': Goal)
    decreases |es|
  {
    if es == [] then s' == s && g' == g
    else Timely(s, es[0]) && TimedRun(After(s, es[0]), NextGoal(s, g, es[0]), es[1..], s', g')
  }

  lemma {:induction false} OnTimeRun(s: Sys, g: Goal, es: seq<Event>, s': Sys, g': Goal)
    requires Sound(s) && OnTime(s, g) && TimedRun(s, g, es, s', g')
    ensures Sound(s') && OnTime(s', g')
    decreases |es|
  {
    if es != [] {
      SoundStep(s, es[0]);
      OnTimeStep(s, g, es[0]);
      OnTimeRun(After(s, es[0]), NextGoal(s, g, es[0]), es[1..], s', g');
    }
  }

  /**
   Frozen trees are exact: from one process frozen at an instant, over every run
   of forks, execs, exits, signals and bulk settings, whenever the last setting
   was a freeze every process of the tree that runs, or will run without another
   exec, reads exactly that instant.
   */
  lemma FrozenTreesAreExact(s: Sys, at: int, es: seq<Event>, s': Sys, g': Goal, pid: Pid)
    requires Start(s) && s.t.handle.record.frozen && s.t.handle.record.frozenAt == at
    requires s.procs[s.t.parent].struct == FrozenAt(at)
    requires TimedRun(s, Pinned(at), es, s', g') && g'.Pinned?
    requires Live(s', pid) && (s'.procs[pid].stop.Running? || (Tracks(s'.t, pid) && !s'.procs[pid].stop.AtExec?))
    ensures s'.procs[pid].injected && s'.procs[pid].struct == FrozenAt(g'.at)
  {
    OnTimeRun(s, Pinned(at), es, s', g');
    assert InPlace(s', pid) && OnTimeAt(s', g', pid);
  }

  /**
   Advancing trees drift one way and boundedly: from one process at an offset,
   every record, and every struct but that of a process whose exec is unhandled
   and has none, lags the offset of the last setting by at most the real time
   since, and never leads it. (The first record is taken after the injection's own
   write, at the instant since.)
   */
  lemma AdvancingTreesLagBoundedly(s: Sys, offset: int, since: int, es: seq<Event>, s': Sys, g': Goal, pid: Pid)
    requires Start(s) && !s.t.handle.record.frozen && s.procs[s.t.parent].struct == Advancing(offset)
    requires since <= s.now && offset - (s.now - since) <= s.t.handle.record.offset <= offset
    requires TimedRun(s, Drifting(offset, since), es, s', g') && g'.Drifting?
    requires Live(s', pid) && Tracks(s'.t, pid)
    ensures GoodOffset(HandleOf(s'.t, pid).record.offset, g', s'.now)
    ensures !s'.procs[pid].stop.AtExec? ==>
      s'.procs[pid].injected && s'.procs[pid].struct.Advancing? && GoodOffset(s'.procs[pid].struct.offset, g', s'.now)
  {
    OnTimeRun(s, Drifting(offset, since), es, s', g');
    assert InPlace(s', pid) && OnTimeAt(s', g', pid);
  }

  /**
   Why a failed write matters: a process at an unhandled exec has no struct to
   write, and if the write is refused its handle keeps the old instant, which
   re-injection then restores.
   */
  lemma RefusedAtExecKeepsOldTime(s: Sys, pid: Pid, target: int, write: int, record: int, c: Choice)
    requires Sound(s) && Live(s, pid) && Tracks(s.t, pid) && s.procs[pid].stop.AtExec? && !s.procs[pid].injected
    requires HandleOf(s.t, pid).record.frozen && c.injects && s.now <= write <= record <= c.first <= c.second
    ensures
      var e := Update(pid, true, target, write, record, false);
      && Can(s, e) && Can(After(s, e), Poll(pid, c))
      && After(After(s, e), Poll(pid, c)).procs[pid].struct == FrozenAt(HandleOf(s.t, pid).record.frozenAt)
  {
    assert InPlace(s, pid);
  }
}
