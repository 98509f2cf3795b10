/** The kernel as a tracker and a session see it, and one handle's update. */
module Updates {
  import opened Records
  import opened ProcessTree

  /** The kernel's side: the traced processes, and the clock. */
  class Kernel {
    var procs: map<Pid, Proc>
    const wall: Clock
    /** How many writes have been refused, to live processes. */
    ghost var refused: nat

    constructor (procs: map<Pid, Proc>, wall: Clock)
      ensures this.procs == procs && this.wall == wall
    {
      this.procs, this.wall, refused := procs, wall, 0;
    }

    /** WaitPIDNonBlocking: whether pid has something to report right now. */
    method HasEvent(pid: Pid) returns (ok: bool)
      ensures ok <==> Reports(procs, pid)
    {
      ok := pid in procs && !procs[pid].stop.Running?;
    }

    /** process_vm_writev of a struct: no such process, all of it, or a refusal. */
    method WriteStruct(pid: Pid, addr: int, st: Struct) returns (out: Outcome)
      modifies `procs, `refused
      ensures out.NoProcess? <==> !LiveIn(old(procs), pid)
      ensures procs == if out.Done? then old(procs)[pid := Write(old(procs)[pid], addr, st)] else old(procs)
      ensures refused == old(refused) + if out.OtherError? then 1 else 0
    {
      if !(pid in procs) || procs[pid].stop.Exited? {
        return NoProcess;
      }
      var lands: bool := *;
      if lands {
        procs := procs[pid := Write(procs[pid], addr, st)];
        return Done;
      }
      refused := refused + 1;
      return OtherError;
    }

    method Resume(pid: Pid)
      requires pid in procs
      modifies `procs
      ensures procs == old(procs)[pid := old(procs)[pid].(stop := Running)]
    {
      procs := procs[pid := procs[pid].(stop := Running)];
    }
  }

  predicate Reports(procs: map<Pid, Proc>, pid: Pid)
  {
    pid in procs && !procs[pid].stop.Running?
  }

  predicate LiveIn(procs: map<Pid, Proc>, pid: Pid)
  {
    pid in procs && !procs[pid].stop.Exited?
  }

  /** The record is the new setting's, at a clock reading between lo and hi. */
  predicate RecordTook(r: Record, freeze: bool, target: int, lo: int, hi: int)
  {
    if freeze then r == Record(true, target, 0)
    else r == Record(false, ZERO_TIME, r.offset) && lo <= target - r.offset <= hi
  }

  /** If the process has its struct at addr, the struct is the new setting's, written at a clock reading between lo and hi. */
  predicate StructTook(p: Proc, addr: int, freeze: bool, target: int, lo: int, hi: int)
  {
    p.injected && p.addr == addr ==>
      if freeze then p.struct == FrozenAt(target) else p.struct.Advancing? && lo <= target - p.struct.offset <= hi
  }

  /** The handle is on the new setting: its process lives, its record and its struct say so. */
  predicate Took(h: Handle, procs: map<Pid, Proc>, freeze: bool, target: int, lo: int, hi: int)
  {
    && LiveIn(procs, h.pid) && RecordTook(h.record, freeze, target, lo, hi)
    && StructTook(procs[h.pid], h.addr, freeze, target, lo, hi)
  }

  lemma RecordNow(freeze: bool, target: int, lo: int, now: int, hi: int)
    requires lo <= now <= hi
    ensures RecordTook(if freeze then Record(true, target, 0) else Record(false, ZERO_TIME, target - now), freeze, target, lo, hi)
  {
  }

  lemma TookNow(h: Handle, mid: map<Pid, Proc>, after: map<Pid, Proc>, freeze: bool, target: int, lo: int, w: int, r: int)
    requires LiveIn(mid, h.pid) && lo <= w <= r
    requires after == mid[h.pid := Write(mid[h.pid], h.addr, StructFor(freeze, target, w))]
    ensures Took(Recorded(h, freeze, target, r), after, freeze, target, lo, r)
  {
  }

  /** How one handle's update may end. */
  datatype Outcome = Done | NoProcess | OtherError

  /** Handle.SetTime or Handle.Freeze: a write, then a record at a later clock reading. */
  method UpdateOne(k: Kernel, h: Handle, freeze: bool, target: int)
    returns (out: Outcome, h': Handle, ghost w: int, ghost r: int)
    modifies k, k.wall
    ensures old(k.wall.now) <= w <= r == k.wall.now
    ensures out.NoProcess? <==> !LiveIn(old(k.procs), h.pid)
    ensures k.procs == if out.Done?
      then old(k.procs)[h.pid := Write(old(k.procs)[h.pid], h.addr, StructFor(freeze, target, w))] else old(k.procs)
    ensures h' == if out.Done? then Recorded(h, freeze, target, r) else h
    ensures forall pid :: LiveIn(k.procs, pid) <==> LiveIn(old(k.procs), pid)
    ensures k.refused == old(k.refused) + if out.OtherError? then 1 else 0
  {
    var write := k.wall.Now();
    w, h' := write, h;
    out := k.WriteStruct(h.pid, h.addr, StructFor(freeze, target, write));
    var record := k.wall.Now();
    r := record;
    if out.Done? {
      h' := Recorded(h, freeze, target, record);
    }
  }
}
