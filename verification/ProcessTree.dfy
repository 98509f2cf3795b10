/**
 The process tree under a tracker (pkg/faketime/faketime.go): what the kernel
 may do to traced processes, and what handleEvent and handleExec make of it.
 Clock readings are explicit and never decrease.
 */
module ProcessTree {
  import opened Records

  type Pid = int

  /** What the state struct of a process says, in nanoseconds. */
  datatype Struct = Advancing(offset: int) | FrozenAt(at: int)

  /** Why a traced process stands still, or that it does not. */
  datatype Stop = Running | AtFork(child: Pid) | AtExec | AtStart | AtSignal(sig: nat) | Exited

  /** One process: whether its address space holds the trampoline, where the struct lies, and what it says. */
  datatype Proc = Proc(injected: bool, addr: int, struct: Struct, stop: Stop)

  /** faketime.Handle together with the inject.Handle in it. */
  datatype Handle = Handle(pid: Pid, addr: int, record: Record)

  datatype Tracker = Tracker(
    parent: Pid, handle: Handle, parentGone: bool, children: map<Pid, Handle>, pendingStop: set<Pid>, failed: bool)

  /**
   What the outside decides while one event is handled: the clock at the first
   and at the second reading, whether the kernel still names the forked child,
   whether re-injection works, and where its page lands.
   */
  datatype Choice = Choice(first: int, second: int, named: bool, injects: bool, newAddr: int)

  /** newFrozenHandle / newAdvancingHandle on ChildHandle: time.Until is read after effectiveTime. */
  function ForkedHandle(h: Handle, child: Pid, c: Choice): (r: Handle)
    ensures r.pid == child && r.addr == h.addr && r.record.frozen == h.record.frozen
    ensures EffectiveTime(r.record, c.second) == EffectiveTime(h.record, c.first)
  {
    if h.record.frozen then Handle(child, h.addr, Record(true, h.record.frozenAt, 0))
    else Handle(child, h.addr, Record(false, ZERO_TIME, EffectiveTime(h.record, c.first) - c.second))
  }

  /** ReInjectFrozenAfterExec / ReInjectAtTimeAfterExec: the offset is taken at the second reading. */
  function Reinjected(h: Handle, c: Choice): (r: Struct)
    ensures r.FrozenAt? == h.record.frozen
    ensures (if r.FrozenAt? then r.at else c.second + r.offset) == EffectiveTime(h.record, c.first)
  {
    if h.record.frozen then FrozenAt(h.record.frozenAt) else Advancing(EffectiveTime(h.record, c.first) - c.second)
  }

  predicate Tracks(t: Tracker, pid: Pid)
  {
    (pid == t.parent && !t.parentGone) || pid in t.children
  }

  /** trackedPIDs: exactly the pids the watch loop polls. */
  function TrackedPids(t: Tracker): (s: set<Pid>)
    ensures forall pid :: pid in s <==> Tracks(t, pid)
  {
    (if t.parentGone then {} else {t.parent}) + t.children.Keys
  }

  function HandleOf(t: Tracker, pid: Pid): Handle
    requires pid == t.parent || pid in t.children
  {
    if pid == t.parent then t.handle else t.children[pid]
  }

  /** The handle a fork from pid builds on: pid's own, or the parent's if pid is not known. */
  function ForkSource(t: Tracker, pid: Pid): Handle
  {
    if pid != t.parent && pid in t.children then t.children[pid] else t.handle
  }

  function WithHandle(t: Tracker, pid: Pid, h: Handle): Tracker
    requires pid == t.parent || pid in t.children
  {
    if pid == t.parent then t.(handle := h) else t.(children := t.children[pid := h])
  }

  datatype Handled = Handled(t: Tracker, procs: map<Pid, Proc>)

  /** handleExec on a process stopped at its exec. */
  function AfterExec(t: Tracker, procs: map<Pid, Proc>, pid: Pid, c: Choice): Handled
    requires pid in procs
  {
    if pid != t.parent && pid !in t.children then
      Handled(t, procs[pid := procs[pid].(stop := Running)])
    else if !c.injects then
      Handled(t.(failed := true), procs[pid := procs[pid].(stop := Running)])
    else
      var h := HandleOf(t, pid);
      Handled(WithHandle(t, pid, h.(pid := pid, addr := c.newAddr)),
              procs[pid := Proc(true, c.newAddr, Reinjected(h, c), Running)])
  }

  /** handleEvent on a process that has something to report. */
  function AfterEvent(t: Tracker, procs: map<Pid, Proc>, pid: Pid, c: Choice): Handled
    requires pid in procs && !procs[pid].stop.Running?
  {
    var resumed := procs[pid := procs[pid].(stop := Running)];
    match procs[pid].stop
    case Exited =>
      Handled(t.(children := t.children - {pid}, pendingStop := t.pendingStop - {pid},
                 parentGone := t.parentGone || pid == t.parent, failed := t.failed || pid == t.parent),
              procs - {pid})
    case AtFork(child) =>
      if !c.named then Handled(t, resumed)
      else
        Handled(t.(children := t.children[child := ForkedHandle(ForkSource(t, pid), child, c)],
                   pendingStop := t.pendingStop + {child}),
                resumed)
    case AtExec => AfterExec(t, procs, pid, c)
    case AtStart => Handled(t.(pendingStop := t.pendingStop - {pid}), resumed)
    case AtSignal(sig) => Handled(t.(pendingStop := t.pendingStop - {pid}), resumed)
  }

  const SIGTRAP := 5
  const SIGSTOP := 19

  /** The signal a stop reports: ptrace events report SIGTRAP, a newborn child its SIGSTOP. */
  function StopSignal(stop: Stop): nat
  {
    match stop
    case AtStart => SIGSTOP
    case AtSignal(sig) => sig
    case _ => SIGTRAP
  }

  /** ContPID's signal: a first stop swallows it, and so does a trap; any other is forwarded. */
  function Forwarded(t: Tracker, pid: Pid, stop: Stop): nat
  {
    if pid in t.pendingStop || StopSignal(stop) == SIGTRAP then 0 else StopSignal(stop)
  }

  // ---- the system: kernel, tracker, clock ----

  datatype Sys = Sys(procs: map<Pid, Proc>, used: set<Pid>, t: Tracker, now: int)

  datatype Event =
    | Fork(p: Pid, c: Pid)
    | Exec(p: Pid)
    | Signal(p: Pid, sig: nat)
    | Exit(p: Pid)
    | Poll(pid: Pid, choice: Choice)
    | Update(pid: Pid, freeze: bool, target: int, write: int, record: int, lands: bool)
    | Prune(pid: Pid)
    | Bulk(freeze: bool, target: int, writes: map<Pid, int>, records: map<Pid, int>, end: int)

  predicate Live(s: Sys, pid: Pid)
  {
    pid in s.procs && !s.procs[pid].stop.Exited?
  }

  /** A fork the kernel has done and the tracker has not heard of. */
  ghost predicate ForkAwaits(s: Sys)
  {
    exists pid :: Live(s, pid) && s.procs[pid].stop.AtFork? && Live(s, s.procs[pid].stop.child)
  }

  ghost predicate Can(s: Sys, e: Event)
  {
    match e
    case Fork(p, c) => Live(s, p) && s.procs[p].stop.Running? && c !in s.used
    case Exec(p) => Live(s, p) && s.procs[p].stop.Running?
    case Signal(p, _) => Live(s, p) && s.procs[p].stop.Running?
    case Exit(p) => Live(s, p)
    case Poll(pid, c) =>
      && pid in TrackedPids(s.t) && pid in s.procs && !s.procs[pid].stop.Running?
      && s.now <= c.first <= c.second
    case Update(pid, _, _, w, r, _) => Tracks(s.t, pid) && s.now <= w <= r
    case Prune(pid) => pid in s.t.children && !Live(s, pid)
    case Bulk(_, _, ws, rs, end) =>
      && s.now <= end
      && ws.Keys == rs.Keys == TrackedPids(s.t)
      && forall pid :: pid in ws ==> s.now <= ws[pid] <= rs[pid] <= end
  }

  function StructFor(freeze: bool, target: int, now: int): Struct
  {
    if freeze then FrozenAt(target) else Advancing(target - now)
  }

  /** Handle.SetTime and Handle.Freeze record the new time after the write. */
  function Recorded(h: Handle, freeze: bool, target: int, now: int): Handle
  {
    h.(record := if freeze then Record(true, target, 0) else Record(false, ZERO_TIME, target - now))
  }

  /** process_vm_writev to a struct: it changes what the process says if the struct lies there. */
  function Write(p: Proc, addr: int, st: Struct): Proc
  {
    if p.injected && p.addr == addr then p.(struct := st) else p
  }

  /** One handle's update; a process without a struct at the address may take or refuse the bytes. */
  function AfterUpdate(s: Sys, pid: Pid, freeze: bool, target: int, write: int, record: int, lands: bool): Sys
    requires Tracks(s.t, pid)
  {
    var h := HandleOf(s.t, pid);
    if || !(h.pid in s.procs) || s.procs[h.pid].stop.Exited?
       || (!lands && !(s.procs[h.pid].injected && s.procs[h.pid].addr == h.addr)) then
      s.(now := record)
    else
      s.(procs := s.procs[h.pid := Write(s.procs[h.pid], h.addr, StructFor(freeze, target, write))],
         t := WithHandle(s.t, pid, Recorded(h, freeze, target, record)),
         now := record)
  }

  /** A bulk update that reports no error: every live handle was written and recorded, dead children dropped. */
  function AfterBulk(s: Sys, freeze: bool, target: int, ws: map<Pid, int>, rs: map<Pid, int>, end: int): Sys
    requires ws.Keys == rs.Keys == TrackedPids(s.t)
  {
    var t := s.t;
    Sys(map pid | pid in s.procs ::
          if Tracks(t, pid) && !s.procs[pid].stop.Exited?
          then Write(s.procs[pid], HandleOf(t, pid).addr, StructFor(freeze, target, ws[pid]))
          else s.procs[pid],
        s.used,
        t.(handle := if t.parent in rs && Live(s, t.parent) then Recorded(t.handle, freeze, target, rs[t.parent])
                     else t.handle,
           children := map pid | pid in t.children && Live(s, pid) :: Recorded(t.children[pid], freeze, target, rs[pid])),
        end)
  }

  ghost function After(s: Sys, e: Event): (s': Sys)
    requires Can(s, e)
  {
    match e
    case Fork(p, c) =>
      s.(procs := s.procs[p := s.procs[p].(stop := AtFork(c))][c := s.procs[p].(stop := AtStart)], used := s.used + {c})
    case Exec(p) => s.(procs := s.procs[p := s.procs[p].(injected := false, stop := AtExec)])
    case Signal(p, sig) => s.(procs := s.procs[p := s.procs[p].(stop := AtSignal(sig))])
    case Exit(p) => s.(procs := s.procs[p := s.procs[p].(stop := Exited)])
    case Poll(pid, c) =>
      var d := AfterEvent(s.t, s.procs, pid, c);
      s.(procs := d.procs, t := d.t, now := c.second)
    case Update(pid, f, target, w, r, lands) => AfterUpdate(s, pid, f, target, w, r, lands)
    case Prune(pid) => s.(t := s.t.(children := s.t.children - {pid}))
    case Bulk(f, target, ws, rs, end) => AfterBulk(s, f, target, ws, rs, end)
  }
}
