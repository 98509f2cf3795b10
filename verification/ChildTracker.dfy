/** ChildTracker (pkg/faketime/faketime.go): the object whose fields the watch loop updates. */
module ChildTracking {
  import opened Sets
  import opened ProcessTree
  import opened TreeInvariants
  import opened Updates

  /** The live processes of the pids in ws say the new time, but for those missed. */
  ghost predicate Written(before: map<Pid, Proc>, after: map<Pid, Proc>, t: Tracker, missed: set<Pid>,
                          freeze: bool, target: int, ws: map<Pid, int>)
    requires forall pid :: pid in ws ==> pid == t.parent || pid in t.children
  {
    && after.Keys == before.Keys
    && forall pid :: pid in before ==>
         after[pid] == if pid in ws && LiveIn(before, pid) && pid !in missed
                       then Write(before[pid], HandleOf(t, pid).addr, StructFor(freeze, target, ws[pid]))
                       else before[pid]
  }

  /** The handles kept for the children in rs record the new time, but for those missed. */
  ghost predicate Noted(before: map<Pid, Proc>, t: Tracker, kept: map<Pid, Handle>, missed: set<Pid>,
                        freeze: bool, target: int, rs: map<Pid, int>)
  {
    && (forall pid :: pid in kept <==> pid in t.children && (pid !in rs || LiveIn(before, pid)))
    && (forall pid :: pid in kept && pid in rs ==>
          kept[pid] == if pid in missed then t.children[pid] else Recorded(t.children[pid], freeze, target, rs[pid]))
  }

  /**
   The updates of the pids in rs have been tried: their live processes say, and
   the handles kept for them record, the new time, but for the pids whose write
   was refused: these and their handles are as before.
   */
  ghost predicate Progress(before: map<Pid, Proc>, after: map<Pid, Proc>, t: Tracker, kept: map<Pid, Handle>,
                           missed: set<Pid>, freeze: bool, target: int, ws: map<Pid, int>, rs: map<Pid, int>)
  {
    && ws.Keys == rs.Keys && (forall pid :: pid in ws ==> pid in TrackedPids(t))
    && (forall pid :: pid in missed ==> pid in rs && LiveIn(before, pid))
    && Written(before, after, t, missed, freeze, target, ws) && Noted(before, t, kept, missed, freeze, target, rs)
  }

  /** What one update, of the handle for pid, leaves: the processes, the handles kept for children, and the missed. */
  function WrittenOnce(mid: map<Pid, Proc>, t: Tracker, freeze: bool, target: int, pid: Pid, out: Outcome, w: int)
    : map<Pid, Proc>
    requires (pid == t.parent || pid in t.children) && (out.Done? ==> pid in mid)
  {
    if out.Done? then mid[pid := Write(mid[pid], HandleOf(t, pid).addr, StructFor(freeze, target, w))] else mid
  }

  function NotedOnce(kept: map<Pid, Handle>, t: Tracker, freeze: bool, target: int, pid: Pid, out: Outcome, r: int)
    : map<Pid, Handle>
    requires pid == t.parent || pid in t.children
  {
    if pid == t.parent then kept
    else if out.NoProcess? then kept - {pid}
    else kept[pid := if out.Done? then Recorded(t.children[pid], freeze, target, r) else t.children[pid]]
  }

  function Missing(missed: set<Pid>, pid: Pid, out: Outcome): (r: set<Pid>)
    ensures pid !in missed ==> |r| == |missed| + if out.OtherError? then 1 else 0
  {
    if out.OtherError? then missed + {pid} else missed
  }

  /** One more handle, however its update ends. */
  lemma ProgressStep(before: map<Pid, Proc>, mid: map<Pid, Proc>, t: Tracker, kept: map<Pid, Handle>, missed: set<Pid>,
                     freeze: bool, target: int, ws: map<Pid, int>, rs: map<Pid, int>,
                     pid: Pid, out: Outcome, w: int, r: int)
    requires Progress(before, mid, t, kept, missed, freeze, target, ws, rs) && pid in TrackedPids(t) && pid !in rs
    requires t.parent !in t.children && (out.NoProcess? <==> !LiveIn(before, pid))
    ensures LiveIn(mid, pid) == LiveIn(before, pid) && pid !in missed
    ensures Progress(before, WrittenOnce(mid, t, freeze, target, pid, out, w), t,
                     NotedOnce(kept, t, freeze, target, pid, out, r), Missing(missed, pid, out),
                     freeze, target, ws[pid := w], rs[pid := r])
  {
    hide Written, Noted, HandleOf, WrittenOnce, NotedOnce;
    WrittenStep(before, mid, t, missed, freeze, target, ws, pid, out, w);
    NotedStep(before, t, kept, missed, freeze, target, rs, pid, out, r);
  }

  lemma WrittenStep(before: map<Pid, Proc>, mid: map<Pid, Proc>, t: Tracker, missed: set<Pid>,
                    freeze: bool, target: int, ws: map<Pid, int>, pid: Pid, out: Outcome, w: int)
    requires forall p :: p in ws || p == pid ==> p == t.parent || p in t.children
    requires pid !in ws && pid !in missed
    requires Written(before, mid, t, missed, freeze, target, ws) && (out.NoProcess? <==> !LiveIn(before, pid))
    ensures LiveIn(mid, pid) == LiveIn(before, pid)
    ensures Written(before, WrittenOnce(mid, t, freeze, target, pid, out, w), t, Missing(missed, pid, out),
                    freeze, target, ws[pid := w])
  {
    hide StructFor, Write;
  }

  lemma NotedStep(before: map<Pid, Proc>, t: Tracker, kept: map<Pid, Handle>, missed: set<Pid>,
                  freeze: bool, target: int, rs: map<Pid, int>, pid: Pid, out: Outcome, r: int)
    requires (pid == t.parent || pid in t.children) && pid !in rs && pid !in missed && t.parent !in t.children
    requires Noted(before, t, kept, missed, freeze, target, rs) && (out.NoProcess? <==> !LiveIn(before, pid))
    ensures Noted(before, t, NotedOnce(kept, t, freeze, target, pid, out, r), Missing(missed, pid, out),
                  freeze, target, rs[pid := r])
  {
    hide Recorded;
  }

  /** When every tracked handle has been tried, each one is on the new setting or among the refused. */
  lemma ProgressMeans(before: map<Pid, Proc>, after: map<Pid, Proc>, t: Tracker, t': Tracker, missed: set<Pid>,
                      freeze: bool, target: int, ws: map<Pid, int>, rs: map<Pid, int>, lo: int, hi: int)
    requires Progress(before, after, t, t'.children, missed, freeze, target, ws, rs) && ws.Keys == TrackedPids(t)
    requires forall pid :: pid in ws ==> lo <= ws[pid] <= rs[pid] <= hi
    requires forall pid :: pid == t.parent || pid in t.children ==> HandleOf(t, pid).pid == pid
    requires t' == t.(handle := t'.handle, children := t'.children) && t.parent !in t.children
    requires t.parent in rs && LiveIn(before, t.parent) ==>
      t'.handle == if t.parent in missed then t.handle else Recorded(t.handle, freeze, target, rs[t.parent])
    ensures forall pid :: pid in missed ==> pid in TrackedPids(t) && LiveIn(before, pid)
    ensures forall pid :: pid in TrackedPids(t) && LiveIn(before, pid) ==>
      && pid in TrackedPids(t')
      && if pid in missed then HandleOf(t', pid) == HandleOf(t, pid) && pid in after && after[pid] == before[pid]
         else Took(HandleOf(t', pid), after, freeze, target, lo, hi)
  {
  }

  lemma ProgressStart(procs: map<Pid, Proc>, t: Tracker, freeze: bool, target: int)
    ensures Progress(procs, procs, t, t.children, {}, freeze, target, map[], map[])
  {
  }

  /** When every tracked handle is done, that is the bulk step. */
  lemma ProgressDone(s: Sys, procs: map<Pid, Proc>, kept: map<Pid, Handle>, parent: Handle, freeze: bool, target: int,
                     ws: map<Pid, int>, rs: map<Pid, int>, end: int)
    requires Progress(s.procs, procs, s.t, kept, {}, freeze, target, ws, rs) && ws.Keys == TrackedPids(s.t)
    requires parent ==
      if s.t.parent in rs && LiveIn(s.procs, s.t.parent) then Recorded(s.t.handle, freeze, target, rs[s.t.parent])
      else s.t.handle
    ensures Sys(procs, s.used, s.t.(handle := parent, children := kept), end) == AfterBulk(s, freeze, target, ws, rs, end)
  {
    var a := AfterBulk(s, freeze, target, ws, rs, end);
    forall pid | pid in s.t.children
      ensures pid in rs && (pid in kept <==> pid in a.t.children)
    {
      assert Tracks(s.t, pid);
      assert LiveIn(s.procs, pid) == Live(s, pid);
    }
    assert forall pid :: pid in kept || pid in a.t.children ==> pid in s.t.children;
    forall pid | pid in kept
      ensures kept[pid] == a.t.children[pid]
    {
      assert pid in rs && pid in s.t.children;
    }
    assert kept == a.t.children;
    forall pid | pid in s.procs
      ensures procs[pid] == a.procs[pid]
    {
      assert pid in TrackedPids(s.t) <==> Tracks(s.t, pid);
    }
    assert procs == a.procs;
  }

  class ChildTracker {
    const parentPID: Pid
    var handle: Handle
    var parentGone: bool
    var children: map<Pid, Handle>
    var pendingStop: set<Pid>
    var loopErr: bool

    constructor (handle: Handle, parentPID: Pid)
      ensures Value() == Tracker(parentPID, handle, false, map[], {}, false)
    {
      this.handle, this.parentPID := handle, parentPID;
      parentGone, children, pendingStop, loopErr := false, map[], {}, false;
    }

    function Value(): Tracker
      reads this
    {
      Tracker(parentPID, handle, parentGone, children, pendingStop, loopErr)
    }

    method TrackedPIDs() returns (pids: set<Pid>)
      ensures pids == TrackedPids(Value())
      ensures forall pid :: pid in pids <==> (pid == parentPID && !parentGone) || pid in children
    {
      pids := {};
      if !parentGone {
        pids := pids + {parentPID};
      }
      pids := pids + children.Keys;
    }

    method HandleExec(k: Kernel, pid: Pid, c: Choice)
      requires pid in k.procs && k.procs[pid].stop.AtExec?
      modifies this, k`procs
      ensures Handled(Value(), k.procs) == AfterExec(old(Value()), old(k.procs), pid, c)
      ensures pid in k.procs && k.procs[pid].stop.Running?
    {
      var h: Handle;
      if pid == parentPID {
        h := handle;
      } else if pid in children {
        h := children[pid];
      } else {
        k.Resume(pid);
        return;
      }
      if !c.injects {
        loopErr := true;
        k.Resume(pid);
        return;
      }
      k.procs := k.procs[pid := Proc(true, c.newAddr, Reinjected(h, c), AtExec)];
      if pid == parentPID {
        handle := handle.(pid := pid, addr := c.newAddr);
      } else {
        children := children[pid := children[pid].(pid := pid, addr := c.newAddr)];
      }
      k.Resume(pid);
    }

    /** sig is the signal the process is resumed with. */
    method HandleEvent(k: Kernel, pid: Pid, c: Choice) returns (sig: nat)
      requires pid in k.procs && !k.procs[pid].stop.Running?
      modifies this, k`procs
      ensures Handled(Value(), k.procs) == AfterEvent(old(Value()), old(k.procs), pid, c)
      ensures sig == Forwarded(old(Value()), pid, old(k.procs[pid].stop))
      ensures sig ==
        if pid in old(pendingStop) then 0
        else if old(k.procs[pid].stop.AtStart?) then SIGSTOP
        else if old(k.procs[pid].stop.AtSignal?) && old(k.procs[pid].stop.sig) != SIGTRAP then old(k.procs[pid].stop.sig)
        else 0
      ensures if old(k.procs[pid].stop.Exited?) then pid !in k.procs else pid in k.procs && k.procs[pid].stop.Running?
      ensures forall q :: q != pid ==> (q in k.procs <==> q in old(k.procs))
      ensures forall q :: q != pid && q in k.procs ==> k.procs[q] == old(k.procs)[q]
    {
      sig := 0;
      var stop := k.procs[pid].stop;
      if k.procs[pid].stop.Exited? {
        k.procs := k.procs - {pid};
        children := children - {pid};
        pendingStop := pendingStop - {pid};
        if pid == parentPID {
          parentGone := true;
          loopErr := true;
        }
        return;
      }
      if k.procs[pid].stop.AtFork? {
        if !c.named {
          k.Resume(pid);
          return;
        }
        var child := k.procs[pid].stop.child;
        var parentH := handle;
        if pid != parentPID && pid in children {
          parentH := children[pid];
        }
        children := children[child := ForkedHandle(parentH, child, c)];
        pendingStop := pendingStop + {child};
        k.Resume(pid);
        return;
      }
      if k.procs[pid].stop.AtExec? {
        HandleExec(k, pid, c);
        return;
      }
      if pid in pendingStop {
        pendingStop := pendingStop - {pid};
        k.Resume(pid);
        return;
      }
      if StopSignal(stop) != SIGTRAP {
        sig := StopSignal(stop);
      }
      k.Resume(pid);
    }

    /** One poll of a tracked pid: one poll step of the system if it has something to report, nothing if not. */
    method PollOne(k: Kernel, pid: Pid, ghost used: set<Pid>) returns (ghost e: seq<Event>)
      requires pid in TrackedPids(Value())
      modifies this, k, k.wall
      ensures Value().parent == old(Value()).parent
      ensures forall q :: q != pid && q in TrackedPids(old(Value())) ==> q in TrackedPids(Value())
      ensures forall q :: q != pid ==> (Reports(k.procs, q) <==> Reports(old(k.procs), q))
      ensures !Reports(k.procs, pid)
      ensures
        var s, s' := old(Sys(k.procs, used, Value(), k.wall.now)), Sys(k.procs, used, Value(), k.wall.now);
        if Reports(s.procs, pid) then |e| == 1 && e[0].Poll? && e[0].pid == pid && Can(s, e[0]) && s' == After(s, e[0])
        else e == [] && s' == s
    {
      e := [];
      var ready := k.HasEvent(pid);
      if ready {
        var c: Choice := *;
        var first := k.wall.Now();
        var second := k.wall.Now();
        c := c.(first := first, second := second);
        var _ := HandleEvent(k, pid, c);
        e := [Poll(pid, c)];
      }
    }

    /**
     One pass of the watch loop over a snapshot of the polled pids. Whatever the
     pass does is a run of poll steps, one for each pid of the snapshot that had
     something to report, each on a pid that is tracked at that moment; after it
     none of them stands still any more.
     */
    method WatchPass(k: Kernel, ghost used: set<Pid>) returns (ghost es: seq<Event>)
      modifies this, k, k.wall
      ensures Run(old(Sys(k.procs, used, Value(), k.wall.now)), es, Sys(k.procs, used, Value(), k.wall.now))
      ensures forall e :: e in es ==> e.Poll?
      ensures forall pid :: pid in Polled(es) <==> pid in TrackedPids(old(Value())) && Reports(old(k.procs), pid)
      ensures |es| == |Polled(es)|
      ensures forall pid :: pid in TrackedPids(old(Value())) ==> !Reports(k.procs, pid)
    {
      hide PassSoFar, After, Can;
      var todo := TrackedPIDs();
      ghost var s0 := Sys(k.procs, used, Value(), k.wall.now);
      es := [];
      PassStarts(s0);
      while todo != {}
        invariant PassSoFar(s0, es, Sys(k.procs, used, Value(), k.wall.now), todo)
        decreases todo
      {
        var pid := Pick(todo);
        ghost var s := Sys(k.procs, used, Value(), k.wall.now);
        StillTracked(s0, es, s, todo);
        ghost var e := PollOne(k, pid, used);
        PassStep(s0, es, s, todo, pid, e, Sys(k.procs, used, Value(), k.wall.now));
        todo := todo - {pid};
        es := es + e;
      }
      PassEnds(s0, es, Sys(k.procs, used, Value(), k.wall.now));
    }

    /**
     applyAll, for SetTime and Freeze: it succeeds exactly when the kernel refused no
     write to a live process, and then it is one bulk step of the system, whatever
     order the handles are updated in. Errors or not, the children that leave are
     the dead ones, and of the live handles exactly as many as there were refusals
     are left as they were, while every other is on the new setting.
     */
    method ApplyAll(k: Kernel, freeze: bool, target: int, ghost used: set<Pid>)
      returns (ok: bool, ghost e: Event, ghost missed: set<Pid>)
      requires Sound(Sys(k.procs, used, Value(), k.wall.now))
      modifies this, k, k.wall
      ensures forall pid :: pid in children <==> pid in old(children) && LiveIn(old(k.procs), pid)
      ensures ok <==> k.refused == old(k.refused)
      ensures |missed| == k.refused - old(k.refused)
      ensures forall pid :: pid in missed ==> pid in TrackedPids(old(Value())) && LiveIn(old(k.procs), pid)
      ensures forall pid :: pid in TrackedPids(old(Value())) && LiveIn(old(k.procs), pid) ==>
        && pid in TrackedPids(Value())
        && if pid in missed
           then HandleOf(Value(), pid) == HandleOf(old(Value()), pid) && pid in k.procs && k.procs[pid] == old(k.procs)[pid]
           else Took(HandleOf(Value(), pid), k.procs, freeze, target, old(k.wall.now), k.wall.now)
      ensures ok ==>
        var s := old(Sys(k.procs, used, Value(), k.wall.now));
        && e.Bulk? && e.freeze == freeze && e.target == target && Can(s, e)
        && Sys(k.procs, used, Value(), k.wall.now) == After(s, e)
    {
      hide Sound, Progress, AfterBulk, Took, Write, StructFor, Recorded;
      ghost var s := Sys(k.procs, used, Value(), k.wall.now);
      ghost var ws, rs;
      GoneIsDead(s);
      var parent, well;
      parent, well, missed, ws, rs := UpdateParent(k, freeze, target, s);
      var rest, kept;
      rest, kept, missed, ws, rs := UpdateChildren(k, freeze, target, s, ws, rs, missed, well);
      ok := rest;
      handle, children := parent, kept;
      e := Bulk(freeze, target, ws, rs, k.wall.now);
      ProgressMeans(s.procs, k.procs, s.t, Value(), missed, freeze, target, ws, rs, s.now, k.wall.now);
      if ok {
        ProgressDone(s, k.procs, kept, parent, freeze, target, ws, rs, k.wall.now);
      }
    }

    /**
     SetTime or Freeze of one tracked handle: one update step of the system, unless
     the kernel refuses the write, and then nothing but the clock moves.
     */
    method UpdateHandle(k: Kernel, pid: Pid, freeze: bool, target: int, ghost used: set<Pid>)
      returns (out: Outcome, ghost e: Event)
      requires Sound(Sys(k.procs, used, Value(), k.wall.now)) && pid in TrackedPids(Value())
      modifies this, k, k.wall
      ensures out.NoProcess? <==> !LiveIn(old(k.procs), pid)
      ensures k.refused == old(k.refused) + if out.OtherError? then 1 else 0
      ensures
        var s, s' := old(Sys(k.procs, used, Value(), k.wall.now)), Sys(k.procs, used, Value(), k.wall.now);
        && e.Update? && e.pid == pid && e.freeze == freeze && e.target == target && Can(s, e)
        && s' == if out.OtherError? then s.(now := k.wall.now) else After(s, e)
    {
      ghost var s := Sys(k.procs, used, Value(), k.wall.now);
      GoneIsDead(s);
      ghost var w, r;
      var h;
      if pid == parentPID {
        out, h, w, r := UpdateOne(k, handle, freeze, target);
        handle := h;
      } else {
        out, h, w, r := UpdateOne(k, children[pid], freeze, target);
        children := children[pid := h];
      }
      e := Update(pid, freeze, target, w, r, true);
    }

    /** The part of applyAll that goes to the parent. */
    method UpdateParent(k: Kernel, freeze: bool, target: int, ghost s: Sys)
      returns (h: Handle, well: bool, ghost missed: set<Pid>, ghost ws: map<Pid, int>, ghost rs: map<Pid, int>)
      requires Value() == s.t && k.procs == s.procs && k.wall.now == s.now && s.t.parent !in s.t.children
      requires handle.pid == parentPID && (parentGone ==> !LiveIn(s.procs, parentPID))
      modifies k, k.wall
      ensures ws.Keys == rs.Keys == TrackedPids(s.t) - children.Keys && s.now <= k.wall.now
      ensures forall pid :: pid in ws ==> s.now <= ws[pid] <= rs[pid] <= k.wall.now
      ensures Progress(s.procs, k.procs, s.t, children, missed, freeze, target, ws, rs)
      ensures |missed| == k.refused - old(k.refused) && (well <==> missed == {})
      ensures h == if parentPID in rs && LiveIn(s.procs, parentPID) && parentPID !in missed
                   then Recorded(handle, freeze, target, rs[parentPID]) else handle
      ensures forall pid :: LiveIn(k.procs, pid) <==> LiveIn(s.procs, pid)
    {
      hide Progress, Write, StructFor, Recorded;
      missed, ws, rs := {}, map[], map[];
      ProgressStart(s.procs, s.t, freeze, target);
      ghost var w, r;
      var out;
      out, h, w, r := UpdateOne(k, handle, freeze, target);
      well := !out.OtherError?;
      if !parentGone {
        ProgressStep(s.procs, s.procs, s.t, children, {}, freeze, target, ws, rs, parentPID, out, w, r);
        ws, rs, missed := ws[parentPID := w], rs[parentPID := r], Missing({}, parentPID, out);
      }
    }

    /** The part of applyAll that goes over the children. */
    method UpdateChildren(k: Kernel, freeze: bool, target: int, ghost s: Sys,
                          ghost ws0: map<Pid, int>, ghost rs0: map<Pid, int>, ghost missed0: set<Pid>, well: bool)
      returns (ok: bool, kept: map<Pid, Handle>, ghost missed: set<Pid>, ghost ws: map<Pid, int>, ghost rs: map<Pid, int>)
      requires Value() == s.t && s.t.parent !in s.t.children && forall pid :: pid in children ==> children[pid].pid == pid
      requires ws0.Keys == rs0.Keys == TrackedPids(s.t) - children.Keys
      requires forall pid :: pid in ws0 ==> s.now <= ws0[pid] <= rs0[pid] <= k.wall.now
      requires Progress(s.procs, k.procs, s.t, children, missed0, freeze, target, ws0, rs0) && (well <==> missed0 == {})
      requires s.now <= k.wall.now && forall pid :: LiveIn(k.procs, pid) <==> LiveIn(s.procs, pid)
      modifies k, k.wall
      ensures ws.Keys == rs.Keys == TrackedPids(s.t) && s.now <= k.wall.now
      ensures forall pid :: pid in ws ==> s.now <= ws[pid] <= rs[pid] <= k.wall.now
      ensures forall pid :: pid in ws0 ==> ws[pid] == ws0[pid] && rs[pid] == rs0[pid]
      ensures forall pid :: pid in kept <==> pid in children && LiveIn(s.procs, pid)
      ensures |missed| - |missed0| == k.refused - old(k.refused) && (ok <==> missed == {})
      ensures forall pid :: pid in ws0 ==> (pid in missed <==> pid in missed0)
      ensures Progress(s.procs, k.procs, s.t, kept, missed, freeze, target, ws, rs)
    {
      hide Progress, Write, StructFor, Recorded;
      ok, kept, missed, ws, rs := well, children, missed0, ws0, rs0;
      var todo := children.Keys;
      while todo != {}
        invariant todo <= children.Keys && ws.Keys == rs.Keys == TrackedPids(s.t) - todo
        invariant |missed| - |missed0| == k.refused - old(k.refused) && (ok <==> missed == {})
        invariant forall pid :: pid in ws0 ==> (pid in missed <==> pid in missed0)
        invariant Progress(s.procs, k.procs, s.t, kept, missed, freeze, target, ws, rs)
        invariant forall pid :: pid in kept <==> pid in children && (pid in todo || LiveIn(s.procs, pid))
        invariant forall pid :: LiveIn(k.procs, pid) <==> LiveIn(s.procs, pid)
        invariant s.now <= k.wall.now && forall pid :: pid in ws ==> s.now <= ws[pid] <= rs[pid] <= k.wall.now
        invariant forall pid :: pid in ws0 ==> ws[pid] == ws0[pid] && rs[pid] == rs0[pid]
        decreases todo
      {
        var pid := Pick(todo);
        todo := todo - {pid};
        ghost var mid := k.procs;
        var o, h, w, r := UpdateOne(k, children[pid], freeze, target);
        ProgressStep(s.procs, mid, s.t, kept, missed, freeze, target, ws, rs, pid, o, w, r);
        ws, rs, missed := ws[pid := w], rs[pid := r], Missing(missed, pid, o);
        kept := if o.NoProcess? then kept - {pid} else kept[pid := h];
        ok := ok && !o.OtherError?;
      }
    }
  }

  /** What a sound tree says about handles and about a parent whose exit was seen. */
  lemma GoneIsDead(s: Sys)
    requires Sound(s)
    ensures forall pid :: pid == s.t.parent || pid in s.t.children ==> HandleOf(s.t, pid).pid == pid
    ensures s.t.parent !in s.t.children && (s.t.parentGone ==> !LiveIn(s.procs, s.t.parent))
  {
  }

  function Polled(es: seq<Event>): set<Pid>
  {
    set e | e in es && e.Poll? :: e.pid
  }

  lemma PolledOneMore(es: seq<Event>, e: Event)
    requires e.Poll?
    ensures Polled(es + [e]) == Polled(es) + {e.pid}
  {
    assert forall x :: x in es + [e] <==> x in es || x == e;
    assert e in es + [e];
  }

  /** es are the polls a pass has made, from s0 to s, with the pids in todo still to go. */
  ghost predicate PassSoFar(s0: Sys, es: seq<Event>, s: Sys, todo: set<Pid>)
  {
    && Run(s0, es, s)
    && (forall pid :: pid in todo ==> pid in TrackedPids(s0.t) && pid in TrackedPids(s.t))
    && (forall e :: e in es ==> e.Poll?)
    && (forall pid :: pid in todo ==> (Reports(s.procs, pid) <==> Reports(s0.procs, pid)))
    && (forall pid :: pid in TrackedPids(s0.t) && pid !in todo ==> !Reports(s.procs, pid))
    && (forall pid :: pid in Polled(es) <==> pid in TrackedPids(s0.t) && pid !in todo && Reports(s0.procs, pid))
    && |es| == |Polled(es)|
  }

  lemma PassStarts(s: Sys)
    ensures PassSoFar(s, [], s, TrackedPids(s.t))
  {
    assert Polled([]) == {};
  }

  lemma StillTracked(s0: Sys, es: seq<Event>, s: Sys, todo: set<Pid>)
    requires PassSoFar(s0, es, s, todo)
    ensures forall pid :: pid in todo ==> pid in TrackedPids(s.t)
  {
  }

  lemma PassStep(s0: Sys, es: seq<Event>, s: Sys, todo: set<Pid>, pid: Pid, e: seq<Event>, s': Sys)
    requires PassSoFar(s0, es, s, todo) && pid in todo
    requires forall q :: q != pid && q in TrackedPids(s.t) ==> q in TrackedPids(s'.t)
    requires forall q :: q != pid ==> (Reports(s'.procs, q) <==> Reports(s.procs, q))
    requires !Reports(s'.procs, pid)
    requires
      if Reports(s.procs, pid) then |e| == 1 && e[0].Poll? && e[0].pid == pid && Can(s, e[0]) && s' == After(s, e[0])
      else e == [] && s' == s
    ensures PassSoFar(s0, es + e, s', todo - {pid})
  {
    hide Run, Can, After, Reports, Polled, TrackedPids, Tracks;
    if e == [] {
      assert es + e == es;
    } else {
      RunExtends(s0, es, s, e[0]);
      PolledOneMore(es, e[0]);
      assert es + e == es + [e[0]] && pid !in Polled(es);
      assert Polled(es + e) == Polled(es) + {pid};
    }
  }

  lemma PassEnds(s0: Sys, es: seq<Event>, s: Sys)
    requires PassSoFar(s0, es, s, {})
    ensures Run(s0, es, s) && (forall e :: e in es ==> e.Poll?) && |es| == |Polled(es)|
    ensures forall pid :: pid in Polled(es) <==> pid in TrackedPids(s0.t) && Reports(s0.procs, pid)
    ensures forall pid :: pid in TrackedPids(s0.t) ==> !Reports(s.procs, pid)
  {
  }
}
