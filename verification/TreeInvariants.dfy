/** What stays true of a tracked process tree over every run. */
module TreeInvariants {
  import opened Records
  import opened ProcessTree

  /** The handle that is used for pid names pid and points at the struct in pid's own address space. */
  ghost predicate PointsRight(s: Sys, pid: Pid)
    requires Live(s, pid) && (pid == s.t.parent || pid in s.t.children)
  {
    var h := HandleOf(s.t, pid);
    h.pid == pid && (s.procs[pid].stop.AtExec? || (s.procs[pid].injected && s.procs[pid].addr == h.addr))
  }

  /** The child of a fork the tracker has not heard of has a copy of the struct, and one parent. */
  ghost predicate AwaitedChild(s: Sys, p: Pid, c: Pid)
    requires p in s.procs
  {
    && c in s.used && !Tracks(s.t, c) && c != s.t.parent
    && s.procs[p].injected
    && (Live(s, c) ==> s.procs[c].injected && s.procs[c].addr == s.procs[p].addr)
    && forall q :: Live(s, q) && s.procs[q].stop == AtFork(c) ==> q == p
  }

  /**
   A live process: if the tracker polls it, its handle points right and it is
   expected to report its first stop exactly while it stands there; if not, it
   has not run yet.
   */
  ghost predicate InPlace(s: Sys, pid: Pid)
    requires Live(s, pid)
  {
    var p := s.procs[pid];
    && (Tracks(s.t, pid) ==> PointsRight(s, pid))
    && (!Tracks(s.t, pid) ==> p.stop.AtStart?)
    && (Tracks(s.t, pid) ==> (p.stop.AtStart? <==> pid in s.t.pendingStop))
    && (p.stop.AtFork? ==> AwaitedChild(s, pid, p.stop.child))
  }

  ghost predicate Books(s: Sys)
  {
    && s.procs.Keys <= s.used && s.t.children.Keys <= s.used && s.t.pendingStop <= s.used
    && s.t.parent in s.used && s.t.parent !in s.t.children && s.t.parent !in s.t.pendingStop
    && (s.t.parentGone ==> s.t.parent !in s.procs)
    && s.t.handle.pid == s.t.parent && forall pid :: pid in s.t.children ==> s.t.children[pid].pid == pid
  }

  ghost predicate Sound(s: Sys)
  {
    Books(s) && forall pid :: Live(s, pid) ==> InPlace(s, pid)
  }

  /** Re-injection after an exec works; everything else may go wrong. */
  predicate Smooth(e: Event)
  {
    e.Poll? ==> e.choice.injects
  }

  lemma SoundFork(s: Sys, p: Pid, c: Pid)
    requires Sound(s) && Can(s, Fork(p, c))
    ensures Sound(After(s, Fork(p, c)))
  {
    var s' := After(s, Fork(p, c));
    forall q | Live(s, q)
      ensures s.procs[q].stop != AtFork(c)
    {
      assert InPlace(s, q);
    }
    forall pid | Live(s', pid)
      ensures InPlace(s', pid)
    {
      if pid != c {
        assert InPlace(s, pid);
      }
    }
  }

  lemma SoundStop(s: Sys, e: Event)
    requires Sound(s) && Can(s, e) && (e.Exec? || e.Signal? || e.Exit?)
    ensures Sound(After(s, e))
  {
    var s' := After(s, e);
    forall pid | Live(s', pid)
      ensures InPlace(s', pid)
    {
      assert InPlace(s, pid);
    }
  }

  lemma SoundPoll(s: Sys, pid: Pid, c: Choice)
    requires Sound(s) && Can(s, Poll(pid, c)) && c.injects
    ensures Sound(After(s, Poll(pid, c)))
  {
    var s' := After(s, Poll(pid, c));
    assert Tracks(s.t, pid);
    assert Live(s, pid) ==> InPlace(s, pid);
    forall q | Live(s', q)
      ensures InPlace(s', q)
    {
      assert InPlace(s, q);
    }
  }

  lemma SoundUpdate(s: Sys, e: Event)
    requires Sound(s) && Can(s, e) && (e.Update? || e.Prune?)
    ensures Sound(After(s, e))
  {
    var s' := After(s, e);
    forall q | Live(s', q)
      ensures InPlace(s', q)
    {
      assert InPlace(s, q);
      assert Live(s, e.pid) ==> InPlace(s, e.pid);
    }
  }

  lemma SoundBulk(s: Sys, e: Event)
    requires Sound(s) && Can(s, e) && e.Bulk?
    ensures Sound(After(s, e))
  {
    var s' := After(s, e);
    forall q | Live(s', q)
      ensures InPlace(s', q)
    {
      assert InPlace(s, q);
      assert Live(s, s.t.parent) ==> InPlace(s, s.t.parent);
    }
  }

  /** Every event keeps the tree sound, whoever moves: the kernel, the watch loop, or an update between two of its steps. */
  lemma SoundStep(s: Sys, e: Event)
    requires Sound(s) && Can(s, e) && Smooth(e)
    ensures Sound(After(s, e))
  {
    match e
    case Fork(p, c) => SoundFork(s, p, c);
    case Exec(_) => SoundStop(s, e);
    case Signal(_, _) => SoundStop(s, e);
    case Exit(_) => SoundStop(s, e);
    case Poll(pid, c) => SoundPoll(s, pid, c);
    case Update(_, _, _, _, _, _) => SoundUpdate(s, e);
    case Prune(_) => SoundUpdate(s, e);
    case Bulk(_, _, _, _, _) => SoundBulk(s, e);
  }

  /**
   Whatever a tracked process has stopped for, and whatever goes wrong while that
   is handled, it runs again unless it has exited; a process that has exited is
   forgotten everywhere, the parent for good. Only an exec that is re-injected
   changes anything else about it: its new address space has the struct, and says
   what its own handle said at the first reading. No other process is touched.
   */
  lemma HandledRuns(s: Sys, pid: Pid, c: Choice)
    requires Can(s, Poll(pid, c))
    ensures var s' := After(s, Poll(pid, c));
      && (pid in s'.procs <==> !s.procs[pid].stop.Exited?)
      && (pid in s'.procs ==> s'.procs[pid].stop.Running?)
      && (pid in s'.procs && !s.procs[pid].stop.AtExec? ==> s'.procs[pid] == s.procs[pid].(stop := Running))
      && (s.procs[pid].stop.AtExec? ==>
            var h, p := HandleOf(s.t, pid).record, s'.procs[pid];
            if !c.injects then p == s.procs[pid].(stop := Running)
            else p == Proc(true, c.newAddr, p.struct, Running) && p.struct.FrozenAt? == h.frozen
                 && (if h.frozen then p.struct.at else c.second + p.struct.offset) == EffectiveTime(h, c.first))
      && (pid !in s'.procs ==> !Tracks(s'.t, pid) && pid !in s'.t.children && pid !in s'.t.pendingStop)
      && (s'.t.parentGone <==> s.t.parentGone || (pid == s.t.parent && pid !in s'.procs))
      && forall q :: q != pid ==>
        && (q in s'.procs <==> q in s.procs)
        && (q in s'.procs ==> s'.procs[q] == s.procs[q])
  {
  }

  /**
   Handling an event rewrites the handle of at most one pid: the one that reported
   an exec, under its own pid, or the newborn child of a fork, which then is on the
   waiting list and shows what the handle of the very process that forked showed.
   */
  lemma HandledBooks(s: Sys, pid: Pid, c: Choice)
    requires Can(s, Poll(pid, c))
    ensures var stop, t, t' := s.procs[pid].stop, s.t, After(s, Poll(pid, c)).t;
      && t'.parent == t.parent
      && (t'.handle != t.handle ==> stop.AtExec? && c.injects && pid == t.parent)
      && (forall q :: q in t'.children && (q !in t.children || t'.children[q] != t.children[q]) ==>
           if stop.AtExec? then c.injects && q == pid else stop == AtFork(q) && c.named)
      && (forall q :: q in t.children && q !in t'.children ==> stop.Exited? && q == pid)
      && (forall q :: q in t'.pendingStop && q !in t.pendingStop ==> stop == AtFork(q) && c.named)
      && (forall q :: q in t.pendingStop && q !in t'.pendingStop ==>
           q == pid && (stop.Exited? || stop.AtStart? || stop.AtSignal?))
      && (stop.AtFork? && c.named ==>
           && stop.child in t'.children && stop.child in t'.pendingStop
           && var h, r := HandleOf(t, pid), t'.children[stop.child];
             && r == Handle(stop.child, h.addr, r.record) && r.record.frozen == h.record.frozen
             && EffectiveTime(r.record, c.second) == EffectiveTime(h.record, c.first))
      && ((stop.AtStart? || stop.AtSignal?) ==> pid !in t'.pendingStop)
      && (stop.AtExec? && c.injects ==>
           HandleOf(t', pid) == Handle(pid, c.newAddr, HandleOf(t, pid).record))
      && (t'.failed <==> t.failed || (stop.AtExec? && !c.injects) || (stop.Exited? && pid == t.parent))
  {
  }

  /** es is a run from s that ends in s'. */
  ghost predicate Run(s: Sys, es: seq<Event>, s': Sys)
    decreases |es|
  {
    if es == [] then s' == s else Can(s, es[0]) && Run(After(s, es[0]), es[1..], s')
  }

  lemma {:induction false} RunExtends(s: Sys, es: seq<Event>, s': Sys, e: Event)
    requires Run(s, es, s') && Can(s', e)
    ensures Run(s, es + [e], After(s', e))
    decreases |es|
  {
    if es == [] {
      assert es + [e] == [e];
      assert Run(After(s, e), [], After(s', e));
    } else {
      RunExtends(After(s, es[0]), es[1..], s', e);
      assert (es + [e])[1..] == es[1..] + [e];
    }
  }

  /** One injected process, nothing else: where every tracker starts. */
  predicate Start(s: Sys)
  {
    && s.procs.Keys == s.used == {s.t.parent}
    && s.t.children == map[] && s.t.pendingStop == {} && !s.t.parentGone
    && s.t.handle.pid == s.t.parent
    && s.procs[s.t.parent] == Proc(true, s.t.handle.addr, s.procs[s.t.parent].struct, Running)
  }

  lemma {:induction false} SoundRun(s: Sys, es: seq<Event>, s': Sys)
    requires Sound(s) && Run(s, es, s') && forall e :: e in es ==> Smooth(e)
    ensures Sound(s')
    decreases |es|
  {
    if es != [] {
      SoundStep(s, es[0]);
      SoundRun(After(s, es[0]), es[1..], s');
    }
  }

  /**
   Over every run of forks, execs, exits, signals, updates and prunings in
   which re-injection succeeds: each live tracked process that does not stand at
   an unhandled exec has a handle with its own pid and the address of the struct
   in its current address space, and a process the tracker does not poll has
   never run.
   */
  lemma HandlesPointRight(s: Sys, es: seq<Event>, s': Sys, pid: Pid)
    requires Start(s) && Run(s, es, s') && (forall e :: e in es ==> Smooth(e))
    requires Live(s', pid)
    ensures pid in TrackedPids(s'.t) ==>
      var h := HandleOf(s'.t, pid);
      h.pid == pid && (!s'.procs[pid].stop.AtExec? ==> s'.procs[pid].injected && s'.procs[pid].addr == h.addr)
    ensures pid !in TrackedPids(s'.t) ==> s'.procs[pid].stop.AtStart?
  {
    SoundRun(s, es, s');
    assert InPlace(s', pid);
  }

  /**
   A first stop is recognised as one: when the watch loop handles a stop of a
   live child, the child is on the waiting list exactly if this is the stop it
   was born with, so a signal reaches a child exactly if it is not that stop and
   not a trap.
   */
  lemma FirstStopsAreRecognised(s: Sys, es: seq<Event>, s': Sys, pid: Pid)
    requires Start(s) && Run(s, es, s') && (forall e :: e in es ==> Smooth(e))
    requires Live(s', pid) && Tracks(s'.t, pid)
    ensures pid in s'.t.pendingStop <==> s'.procs[pid].stop.AtStart?
    ensures Forwarded(s'.t, pid, s'.procs[pid].stop)
      == if s'.procs[pid].stop.AtSignal? && s'.procs[pid].stop.sig != SIGTRAP then s'.procs[pid].stop.sig else 0
  {
    SoundRun(s, es, s');
    assert InPlace(s', pid);
  }
}
