/** inject.Handle and the faketime.Handle around it: single-process updates. */
module Handles {
  import opened Words
  import opened Memory
  import opened StateStruct
  import opened GoClock
  import opened Traced
  import opened Records
  import ProcessTree

  /** No byte outside the struct at a changed. */
  ghost predicate OnlyStruct(m: Mem, k: Mem, a: int)
  {
    forall x :: !Within(x, a, STATE_SIZE) ==> k(x) == m(x)
  }

  lemma PokedOnlyStruct(m: Mem, a: int, b: seq<Byte>)
    requires |b| <= STATE_SIZE
    ensures OnlyStruct(m, Poke(m, a, b), a)
  {
  }

  lemma Ungenerate(g: Gen)
    ensures ((g + 1) % TWO32 - 1) % TWO32 == g
  {
  }

  class InjectHandle {
    const pid: int
    const stateAddr: Word
    var gen: Gen

    constructor (pid: int, stateAddr: Word)
      ensures this.pid == pid && this.stateAddr == stateAddr && gen == 0
    {
      this.pid, this.stateAddr, this.gen := pid, stateAddr, 0;
    }

    /** fork() copies the address space: the child's struct lies where the parent's does, generation zero. */
    constructor ChildHandle(parent: InjectHandle, childPID: int)
      ensures pid == childPID && stateAddr == parent.stateAddr && gen == 0
    {
      this.pid, this.stateAddr, this.gen := childPID, parent.stateAddr, 0;
    }

    /**
     One write; success is reported exactly if it lands. The generation is spent
     only then; uint32 wraps. A failed write may leave a prefix of the new struct.
     */
    method WriteState(t: Tracee, sec: Int64, nsec: Int64, mask: Word) returns (ok: bool)
      modifies this, t`mem, t`history, t`writeLanded, t`faults
      ensures ok == t.writeLanded && t.history == old(t.history) + [t.mem]
      ensures ok ==>
        && gen == (old(gen) + 1) % TWO32
        && t.mem == Poke(old(t.mem), stateAddr, Bytes(State(sec, nsec, mask, gen)))
      ensures !ok ==>
        && gen == old(gen)
        && SomeLanded(old(t.mem), t.mem, stateAddr, Bytes(State(sec, nsec, mask, (gen + 1) % TWO32)))
      ensures OnlyStruct(old(t.mem), t.mem, stateAddr)
    {
      hide Poke, Bytes;
      Ungenerate(gen);
      gen := (gen + 1) % TWO32;
      var encoded := EncodeState(sec, nsec, mask, gen);
      ghost var bytes := encoded[..];
      ok := t.WriteMem(stateAddr, encoded[..]);
      forall n | 0 <= n <= |bytes|
        ensures OnlyStruct(old(t.mem), Poke(old(t.mem), stateAddr, bytes[..n]), stateAddr)
      {
        PokedOnlyStruct(old(t.mem), stateAddr, bytes[..n]);
      }
      assert bytes[..|bytes|] == bytes;
      if !ok {
        gen := (gen - 1) % TWO32;
      }
    }

    /** After SetTime the process's struct is the one that SetTimeThenRead is about. */
    method SetTime(t: Tracee, clock: Clock, target: Instant) returns (ok: bool, ghost base: Instant)
      modifies this, t`mem, t`history, t`writeLanded, t`faults, clock
      ensures old(clock.now) <= base == clock.now
      ensures ok == t.writeLanded && t.history == old(t.history) + [t.mem]
      ensures ok ==> BytesAt(t.mem, stateAddr, STATE_SIZE) == Bytes(AdvancingState(target, base, gen))
      ensures gen == if ok then (old(gen) + 1) % TWO32 else old(gen)
      ensures OnlyStruct(old(t.mem), t.mem, stateAddr)
    {
      var now := clock.Now();
      base := now;
      var (sec, nsec) := DiffSecNsec(target, now);
      ok := WriteState(t, sec, nsec, MASK_ENABLED);
      PokedBytes(old(t.mem), stateAddr, Bytes(State(sec, nsec, MASK_ENABLED, gen)));
    }

    method Freeze(t: Tracee, target: Instant) returns (ok: bool)
      modifies this, t`mem, t`history, t`writeLanded, t`faults
      ensures ok == t.writeLanded && t.history == old(t.history) + [t.mem]
      ensures ok ==> BytesAt(t.mem, stateAddr, STATE_SIZE) == Bytes(FrozenState(target, gen))
      ensures gen == if ok then (old(gen) + 1) % TWO32 else old(gen)
      ensures OnlyStruct(old(t.mem), t.mem, stateAddr)
    {
      var (sec, nsec) := Unix(target);
      ok := WriteState(t, sec, nsec, MASK_FROZEN);
      PokedBytes(old(t.mem), stateAddr, Bytes(State(sec, nsec, MASK_FROZEN, gen)));
    }
  }

  /** One call of Advance: by how much, whether the write landed, and the clock at its target and at its record. */
  datatype AdvanceCall = AdvanceCall(d: Duration, lands: bool, first: Instant, last: Instant)

  function Advanced(r: Record, a: AdvanceCall): Record
  {
    if !a.lands then r
    else if r.frozen then Record(true, r.frozenAt + a.d, 0)
    else Record(false, ZERO_TIME, Sub(a.first + r.offset + a.d, a.last))
  }

  class Handle {
    const h: InjectHandle
    var record: Record

    constructor (h: InjectHandle, record: Record)
      ensures this.h == h && this.record == record
    {
      this.h, this.record := h, record;
    }

    /** What the tree model knows of a handle. */
    ghost function Value(): ProcessTree.Handle
      reads this
    {
      ProcessTree.Handle(h.pid, h.stateAddr, record)
    }

    /**
     The handle that handling a fork builds for the child: as the tree model says,
     if the parent's offset less the time between the two clock readings is a
     Duration; the parent's own handle stays.
     */
    static method Forked(parent: Handle, childPID: int, clock: Clock) returns (child: Handle, ghost c: ProcessTree.Choice)
      modifies clock
      ensures fresh(child) && fresh(child.h) && child.h.gen == 0
      ensures old(clock.now) <= c.first <= c.second == clock.now
      ensures
        child.Value() == ProcessTree.ForkedHandle(parent.Value(), childPID, c)
        <==> (parent.record.frozen || -TWO63 <= parent.record.offset - (c.second - c.first) < TWO63)
    {
      var ih := new InjectHandle.ChildHandle(parent.h, childPID);
      ghost var first := clock.now;
      if parent.record.frozen {
        child := new Handle(ih, Record(true, parent.record.frozenAt, 0));
      } else {
        var now := clock.Now();
        first := now;
        var target := EffectiveTime(parent.record, now);
        var later := clock.Now();
        child := new Handle(ih, Record(false, ZERO_TIME, Sub(target, later)));
      }
      c := ProcessTree.Choice(first, clock.now, true, true, 0);
    }

    method SetTime(t: Tracee, clock: Clock, target: Instant) returns (ok: bool, ghost base: Instant)
      modifies this, h, t`mem, t`history, t`writeLanded, t`faults, clock
      ensures old(clock.now) <= base <= clock.now
      ensures ok == t.writeLanded && t.history == old(t.history) + [t.mem]
      ensures h.gen == if ok then (old(h.gen) + 1) % TWO32 else old(h.gen)
      ensures ok ==> BytesAt(t.mem, h.stateAddr, STATE_SIZE) == Bytes(AdvancingState(target, base, h.gen))
      ensures record == if ok then Record(false, ZERO_TIME, Sub(target, clock.now)) else old(record)
      ensures OnlyStruct(old(t.mem), t.mem, h.stateAddr)
    {
      ok, base := h.SetTime(t, clock, target);
      if ok {
        var now := clock.Now();
        record := Record(false, ZERO_TIME, Sub(target, now));
      }
    }

    method Freeze(t: Tracee, target: Instant) returns (ok: bool)
      modifies this, h, t`mem, t`history, t`writeLanded, t`faults
      ensures ok == t.writeLanded && t.history == old(t.history) + [t.mem]
      ensures h.gen == if ok then (old(h.gen) + 1) % TWO32 else old(h.gen)
      ensures ok ==> BytesAt(t.mem, h.stateAddr, STATE_SIZE) == Bytes(FrozenState(target, h.gen))
      ensures record == if ok then Record(true, target, 0) else old(record)
      ensures OnlyStruct(old(t.mem), t.mem, h.stateAddr)
    {
      ok := h.Freeze(t, target);
      if ok {
        record := Record(true, target, 0);
      }
    }

    /** The old setting moved by d, in the process and in the record. */
    method Advance(t: Tracee, clock: Clock, d: Duration) returns (ok: bool, ghost a: AdvanceCall, ghost base: Instant)
      modifies this, h, t`mem, t`history, t`writeLanded, t`faults, clock
      ensures ok == t.writeLanded && t.history == old(t.history) + [t.mem]
      ensures a.d == d && a.lands == ok && old(clock.now) <= a.first <= base <= a.last == clock.now
      ensures h.gen == if ok then (old(h.gen) + 1) % TWO32 else old(h.gen)
      ensures ok ==> BytesAt(t.mem, h.stateAddr, STATE_SIZE) == Bytes(
        if old(record.frozen) then FrozenState(old(record.frozenAt) + d, h.gen)
        else AdvancingState(a.first + old(record.offset) + d, base, h.gen))
      ensures record == Advanced(old(record), a)
      ensures OnlyStruct(old(t.mem), t.mem, h.stateAddr)
    {
      hide BytesAt, Bytes, OnlyStruct, FrozenState, AdvancingState;
      var now := clock.Now();
      var frozen, target := record.frozen, EffectiveTime(record, now) + d;
      if frozen {
        ok := Freeze(t, target);
        base := now;
      } else {
        ok, base := SetTime(t, clock, target);
      }
      a := AdvanceCall(d, ok, now, clock.now);
    }
  }

  function AdvancedBy(r: Record, steps: seq<AdvanceCall>): Record
  {
    if steps == [] then r else Advanced(AdvancedBy(r, steps[..|steps| - 1]), steps[|steps| - 1])
  }

  /** The durations that took effect, added up. */
  function Total(steps: seq<AdvanceCall>): int
  {
    if steps == [] then 0
    else
      var s := steps[|steps| - 1];
      Total(steps[..|steps| - 1]) + (if s.lands then s.d else 0)
  }

  /** The real time that passed inside the calls, between their two clock readings. */
  function Lag(steps: seq<AdvanceCall>): int
  {
    if steps == [] then 0
    else
      var s := steps[|steps| - 1];
      Lag(steps[..|steps| - 1]) + (if s.lands then s.last - s.first else 0)
  }

  /** No offset along the way leaves the range of a Duration. */
  ghost predicate InRange(r: Record, steps: seq<AdvanceCall>)
  {
    forall n :: 0 <= n <= |steps| ==> -TWO63 <= r.offset + Total(steps[..n]) - Lag(steps[..n]) < TWO63
  }

  /**
   Advance telescopes, in either mode and through failed calls: a frozen handle
   ends at its start plus the durations that took effect, an advancing one at
   its start plus those durations minus exactly the real time its own calls took.
   */
  lemma {:induction false} AdvanceTelescopes(r: Record, steps: seq<AdvanceCall>)
    requires r.frozen || InRange(r, steps)
    ensures AdvancedBy(r, steps).frozen == r.frozen
    ensures r.frozen ==> AdvancedBy(r, steps).frozenAt == r.frozenAt + Total(steps)
    ensures !r.frozen ==> AdvancedBy(r, steps).offset == r.offset + Total(steps) - Lag(steps)
  {
    if steps != [] {
      var front := steps[..|steps| - 1];
      assert forall n :: 0 <= n <= |front| ==> front[..n] == steps[..n];
      assert steps[..|steps|] == steps;
      AdvanceTelescopes(r, front);
    }
  }
}
