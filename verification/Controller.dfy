/** The controller's objects: timeshifts whose handle slices are rewritten in place, and the registry that holds them. */
module Controllers {
  import opened Sets
  import opened Words
  import GoClock
  import opened Records
  import opened Registry
  import opened Conflicts
  import opened PodEvents

  const NO_HANDLE := ContainerHandle("", "", "", "", "")

  class Timeshift {
    const id: Id
    const namespace: string
    const labelSelector: string
    const expiresAt: Expiry
    var offset: int
    var frozenAt: int
    var frozen: bool
    /** The slice: its array, up to its capacity, and its length. */
    var buf: array<ContainerHandle>
    var len: nat

    ghost predicate Valid()
      reads this
    {
      len <= buf.Length
    }

    ghost function Value(): Shift
      requires Valid()
      reads this, buf
    {
      Shift(namespace, labelSelector, Record(frozen, frozenAt, offset), expiresAt, buf[..len])
    }

    /** The record createTimeshift builds. */
    constructor (id: Id, namespace: string, labelSelector: string, target: int, freeze: bool, now: int, ttl: int,
                 handles: seq<ContainerHandle>)
      ensures Valid() && fresh(buf)
      ensures this.id == id && Value() == Created(namespace, labelSelector, target, freeze, now, ttl, handles)
    {
      this.id, this.namespace, this.labelSelector := id, namespace, labelSelector;
      expiresAt := if ttl > 0 then At(now + ttl) else Never;
      frozen := freeze;
      frozenAt := if freeze then target else ZERO_TIME;
      offset := if freeze then 0 else GoClock.Sub(target, now);
      buf := new ContainerHandle[|handles|](i requires 0 <= i < |handles| => handles[i]);
      len := |handles|;
    }

    /** The second critical section of updateTimeshift: it holds the object, registered or not. */
    method ApplyUpdate(snapshot: seq<ContainerHandle>, us: seq<Update>, target: int, freeze: bool, now: int)
      requires Valid() && Indexed(us, snapshot)
      modifies this`offset, this`frozenAt, this`frozen, buf
      ensures Valid()
      ensures Value() == Retimed(old(Value()), target, freeze, now)
                         .(handles := Applied(old(Value()).handles, snapshot, us))
    {
      var i := 0;
      while i < |us|
        invariant 0 <= i <= |us|
        invariant buf[..len] == Applied(old(buf[..len]), snapshot, us[..i])
      {
        var u := us[i];
        assert us[..i + 1][..i] == us[..i];
        if u.idx < len && buf[u.idx].containerID == snapshot[u.idx].containerID {
          buf[u.idx] := buf[u.idx].(agentHandle := u.newHandle);
        }
        i := i + 1;
      }
      assert us[..i] == us;
      if freeze {
        frozenAt := target;
        offset := 0;
      } else {
        offset := GoClock.Sub(target, now);
        frozenAt := ZERO_TIME;
      }
      frozen := freeze;
    }

    /** The locked part of handlePodEvent. */
    method ReplacePod(pod: string, added: seq<ContainerHandle>)
      requires Valid()
      modifies this`buf, this`len, buf
      ensures Valid() && (buf == old(buf) || fresh(buf))
      ensures Value() == old(Value()).(handles := Others(old(Value()).handles, pod) + added)
    {
      len := FilterInPlace(buf, len, pod);
      buf := Append(buf, len, added);
      len := len + |added|;
    }
  }

  /**
   The retained slice starts empty over the very array being read, so entries
   are overwritten while the loop still reads: the write index never passes the
   read index.
   */
  method FilterInPlace(buf: array<ContainerHandle>, len: nat, pod: string) returns (kept: nat)
    requires len <= buf.Length
    modifies buf
    ensures kept <= len && buf[..kept] == Others(old(buf[..len]), pod)
  {
    ghost var was := buf[..len];
    kept := 0;
    for r := 0 to len
      invariant kept <= r
      invariant buf[..kept] == Others(was[..r], pod)
      invariant buf[r..len] == was[r..]
    {
      assert buf[r] == buf[r..len][0] == was[r];
      assert was[..r + 1][..r] == was[..r];
      assert buf[r + 1..len] == buf[r..len][1..] == was[r + 1..];
      if buf[r].pod != pod {
        buf[kept] := buf[r];
        kept := kept + 1;
      }
    }
    assert was[..len] == was;
  }

  /** append: into the slice's own array if the values fit its capacity, into a larger one if not. */
  method Append(buf: array<ContainerHandle>, len: nat, added: seq<ContainerHandle>) returns (out: array<ContainerHandle>)
    requires len <= buf.Length
    modifies buf
    ensures out == buf || fresh(out)
    ensures len + |added| <= out.Length && out[..len + |added|] == old(buf[..len]) + added
  {
    out := buf;
    if len + |added| > buf.Length {
      out := new ContainerHandle[len + |added|](_ => NO_HANDLE);
      Put(out, 0, buf[..len]);
    }
    Put(out, len, added);
  }

  /** Write s into buf from at on. */
  method Put(buf: array<ContainerHandle>, at: nat, s: seq<ContainerHandle>)
    requires at + |s| <= buf.Length
    modifies buf
    ensures buf[..at + |s|] == old(buf[..at]) + s
  {
    for i := 0 to |s|
      invariant buf[..at] == old(buf[..at])
      invariant buf[at..at + i] == s[..i]
    {
      buf[at + i] := s[i];
    }
    assert buf[..at + |s|] == buf[..at] + buf[at..at + |s|];
  }

  /** Inject the pod's containers one after the other; a refused one does not stop the rest. */
  method InjectPod(pod: Pod, target: int, freeze: bool, answers: nat -> Answer)
    returns (out: seq<ContainerHandle>, calls: seq<Call>)
    ensures out == Injected(pod, answers, |pod.statuses|)
    ensures calls == InjectCalls(pod, target, freeze, |pod.statuses|)
  {
    out, calls := [], [];
    for i := 0 to |pod.statuses|
      invariant out == Injected(pod, answers, i)
      invariant calls == InjectCalls(pod, target, freeze, i)
    {
      var cs := pod.statuses[i];
      if !cs.running || cs.containerID == "" {
        continue;
      }
      calls := calls + [Inject(pod.hostIP, cs.containerID, target, freeze)];
      if answers(i).Issued? {
        out := out + [ContainerHandle(pod.name, cs.name, pod.hostIP, cs.containerID, answers(i).handle)];
      }
    }
  }

  method InjectPods(c: Create) returns (handles: seq<ContainerHandle>, calls: seq<Call>)
    ensures handles == InjectedAll(c.pods, c.answers, |c.pods|)
    ensures calls == CreateCalls(c, |c.pods|)
  {
    handles, calls := [], [];
    for i := 0 to |c.pods|
      invariant handles == InjectedAll(c.pods, c.answers, i)
      invariant calls == CreateCalls(c, i)
    {
      var out, made := InjectPod(c.pods[i], c.target, c.freeze, c.answers(i));
      handles := handles + out;
      calls := calls + made;
    }
  }

  /** The unlocked part of updateTimeshift. */
  method Reissue(handles: seq<ContainerHandle>, target: int, freeze: bool, sets: nat -> SetAnswer, injects: nat -> Answer)
    returns (us: seq<Update>, calls: seq<Call>, ghost f: seq<nat>)
    ensures us == Reissued(sets, injects, |handles|)
    ensures calls == UpdateCalls(handles, sets, target, freeze, |handles|)
    ensures ServedInOrder(calls, f, handles, |handles|, sets, target, freeze)
  {
    us, calls := [], [];
    for i := 0 to |handles|
      invariant us == Reissued(sets, injects, i)
      invariant calls == UpdateCalls(handles, sets, target, freeze, i)
    {
      var h := handles[i];
      calls := calls + [SetTime(h.nodeIP, h.agentHandle, target, freeze)];
      if sets(i) != NotFound {
        continue;
      }
      calls := calls + [Inject(h.nodeIP, h.containerID, target, freeze)];
      if injects(i).Issued? {
        us := us + [Update(i, injects(i).handle)];
      }
    }
    f := UpdateCallsInOrder(handles, sets, target, freeze, |handles|);
  }

  datatype Reply = NoPods | Conflicting(entries: seq<Entry>) | NothingInjected | Registered(shift: Timeshift)

  ghost predicate Filed(id: Id, s: Timeshift, value: Shift)
    reads s, s.buf
  {
    s.id == id && s.Valid() && s.Value() == value
  }

  /** The timeshifts in calls have been refreshed, each by the calls recorded for it, and no other has changed. */
  ghost predicate Reinjected(was: Shifts, after: Shifts, calls: map<Id, seq<Call>>, matched: map<Id, Record>, pod: Pod,
                             now: Id -> int, answers: Id -> nat -> Answer)
  {
    && after.Keys == was.Keys && calls.Keys <= matched.Keys
    && (forall id :: id in was ==> after[id] == if id in calls then Refreshed(was[id], pod, answers(id)) else was[id])
    && (forall id :: id in calls ==>
          calls[id] == InjectCalls(pod, EffectiveTime(matched[id], now(id)), matched[id].frozen, |pod.statuses|))
  }

  lemma ReinjectedStart(was: Shifts, matched: map<Id, Record>, pod: Pod, now: Id -> int, answers: Id -> nat -> Answer)
    ensures Reinjected(was, was, map[], matched, pod, now, answers)
  {
  }

  lemma ReinjectedStep(was: Shifts, before: Shifts, calls: map<Id, seq<Call>>, matched: map<Id, Record>, id: Id, pod: Pod,
                       now: Id -> int, answers: Id -> nat -> Answer)
    requires Reinjected(was, before, calls, matched, pod, now, answers) && id in was && id in matched && id !in calls
    ensures Reinjected(was, before[id := Refreshed(before[id], pod, answers(id))],
                       calls[id := InjectCalls(pod, EffectiveTime(matched[id], now(id)), matched[id].frozen, |pod.statuses|)],
                       matched, pod, now, answers)
  {
  }

  class Controller {
    var timeshifts: map<Id, Timeshift>
    ghost var contents: Shifts
    ghost var repr: set<object>
    ghost var owner: map<object, Id>

    /** Every timeshift is filed under its own ID, owns its slice and has the value contents says. */
    ghost predicate Valid()
      reads this, repr
    {
      && this !in repr && timeshifts.Keys == contents.Keys
      && (forall id :: id in timeshifts ==>
            var s := timeshifts[id];
            s in repr && s.buf in repr && s.buf in owner && owner[s.buf] == id && Filed(id, s, contents[id]))
    }

    constructor ()
      ensures Valid() && contents == map[]
    {
      timeshifts, contents, repr, owner := map[], map[], {}, map[];
    }

    method Ids() returns (ids: set<Id>)
      requires Valid()
      ensures ids == timeshifts.Keys == contents.Keys && this !in repr
    {
      ids := timeshifts.Keys;
    }

    method Get(id: Id) returns (s: Timeshift)
      requires Valid() && id in timeshifts
      ensures s == timeshifts[id] && id in contents && Filed(id, s, contents[id])
      ensures s in repr && s.buf in repr && this !in repr
    {
      s := timeshifts[id];
    }

    /** Take a timeshift out of the registry; its resets come after the lock is let go. */
    method Drop(id: Id) returns (calls: seq<Call>)
      requires Valid() && id in timeshifts && id in contents
      modifies this`timeshifts, this`contents
      ensures Valid() && contents == old(contents) - {id}
      ensures calls == ResetCalls(old(contents)[id].handles)
    {
      var s := timeshifts[id];
      calls := ResetAll(s);
      timeshifts := timeshifts - {id};
      contents := contents - {id};
    }

    method Delete(id: Id) returns (found: bool, calls: seq<Call>)
      requires Valid()
      modifies this
      ensures Valid() && contents == After(old(contents), DeleteShift(id)) == old(contents) - {id}
      ensures found <==> id in old(contents)
      ensures calls == if found then ResetCalls(old(contents)[id].handles) else []
    {
      hide Valid, ResetCalls;
      var ids := Ids();
      found, calls := id in ids, [];
      if found {
        calls := Drop(id);
      }
    }

    method SweepExpired(now: int) returns (calls: map<Id, seq<Call>>)
      requires Valid()
      modifies this
      ensures Valid() && contents == After(old(contents), Sweep(now))
      ensures forall id :: id in contents <==>
        && id in old(contents)
        && !(old(contents)[id].expiresAt.At? && now > old(contents)[id].expiresAt.time)
      ensures forall id :: id in contents ==> contents[id] == old(contents)[id]
      ensures calls.Keys == old(contents).Keys - contents.Keys
      ensures forall id :: id in calls ==> calls[id] == ResetCalls(old(contents)[id].handles)
    {
      hide Valid, Swept;
      ghost var was := contents;
      calls := map[];
      var todo := Ids();
      SweptStart(was, now);
      while todo != {}
        invariant Valid() && todo <= contents.Keys && Swept(was, contents, calls, todo, now)
        decreases todo
      {
        var id := Pick(todo);
        SweptStep(was, contents, calls, todo, id, now);
        todo := todo - {id};
        var over := Overdue(id, now);
        if over {
          var made := Drop(id);
          calls := calls[id := made];
        }
      }
      SweptAll(was, contents, calls, now);
    }

    method Overdue(id: Id, now: int) returns (over: bool)
      requires Valid() && id in contents
      ensures id in timeshifts && over == Expired(contents[id], now)
    {
      var s := Get(id);
      over := s.expiresAt.At? && now > s.expiresAt.time;
    }

    method UpdateTimeshift(id: Id, target: int, freeze: bool, now: int, sets: nat -> SetAnswer, injects: nat -> Answer)
      returns (found: bool, calls: seq<Call>, ghost f: seq<nat>)
      requires Valid()
      modifies this`contents, this`repr, this`owner, repr
      ensures Valid() && fresh(repr - old(repr))
      ensures contents == After(old(contents), UpdateShift(id, target, freeze, now, sets, injects))
      ensures found <==> id in old(contents)
      ensures !found ==> calls == [] && contents == old(contents)
      ensures found ==>
        var s, s' := old(contents)[id], contents[id];
        && ServedInOrder(calls, f, s.handles, |s.handles|, sets, target, freeze)
        && contents == old(contents)[id := s']
        && s' == Retimed(s, target, freeze, now).(handles := s'.handles) && |s'.handles| == |s.handles|
        && forall i :: 0 <= i < |s.handles| ==>
             s'.handles[i] == if sets(i).NotFound? && injects(i).Issued?
                              then s.handles[i].(agentHandle := injects(i).handle) else s.handles[i]
    {
      hide Valid, Retimed, Applied, Reissued, ServedInOrder;
      f := [];
      var ids := Ids();
      found, calls := id in ids, [];
      if !found {
        return;
      }
      var s := Get(id);
      var handles := s.buf[..s.len];
      var us;
      us, calls, f := Reissue(handles, target, freeze, sets, injects);
      UpdatedEntries(contents[id], target, freeze, now, sets, injects);
      ApplyTo(id, handles, us, target, freeze, now);
    }

    /** Advance is an update, in the mode the request names, to a target computed under an earlier lock. */
    method AdvanceTimeshift(id: Id, delta: GoClock.Duration, freeze: bool, first: int, second: int,
                            sets: nat -> SetAnswer, injects: nat -> Answer)
      returns (found: bool, calls: seq<Call>, ghost f: seq<nat>)
      requires Valid()
      modifies this`contents, this`repr, this`owner, repr
      ensures Valid() && fresh(repr - old(repr))
      ensures found <==> id in old(contents)
      ensures !found ==> calls == [] && contents == old(contents)
      ensures found ==>
        var s, target := old(contents)[id], AdvanceTarget(old(contents)[id], delta, first);
        && ServedInOrder(calls, f, s.handles, |s.handles|, sets, target, freeze)
        && contents == After(old(contents), UpdateShift(id, target, freeze, second, sets, injects))
    {
      hide Valid, After, ServedInOrder;
      var ids := Ids();
      if id !in ids {
        return false, [], [];
      }
      var s := Get(id);
      var target := if s.frozen then s.frozenAt + delta else first + Wrap64(s.offset + delta);
      var updated, made, cuts := UpdateTimeshift(id, target, freeze, second, sets, injects);
      found, calls, f := updated, made, cuts;
    }

    method ApplyTo(id: Id, snapshot: seq<ContainerHandle>, us: seq<Update>, target: int, freeze: bool, now: int)
      requires Valid() && id in timeshifts && Indexed(us, snapshot)
      modifies this`contents, this`repr, this`owner, repr
      ensures Valid() && fresh(repr - old(repr)) && id in old(contents)
      ensures contents == old(contents)[id := Retimed(old(contents)[id], target, freeze, now)
                                              .(handles := Applied(old(contents)[id].handles, snapshot, us))]
    {
      hide Applied, Retimed, Valid;
      var s := Get(id);
      s.ApplyUpdate(snapshot, us, target, freeze, now);
      contents, repr, owner := contents[id := s.Value()], repr + {s.buf}, owner[s.buf := id];
      Refiled(id);
    }

    method ReplacePodOf(id: Id, pod: string, added: seq<ContainerHandle>)
      requires Valid() && id in timeshifts
      modifies this`contents, this`repr, this`owner, repr
      ensures Valid() && fresh(repr - old(repr)) && id in old(contents)
      ensures contents == old(contents)[id := old(contents)[id].(handles := Others(old(contents)[id].handles, pod) + added)]
    {
      hide Others, Valid;
      var s := Get(id);
      s.ReplacePod(pod, added);
      contents, repr, owner := contents[id := s.Value()], repr + {s.buf}, owner[s.buf := id];
      Refiled(id);
    }

    /** occupiedContainers. */
    method OccupiedContainers() returns (m: map<string, Id>)
      requires Valid()
      ensures Indexes(m, contents)
    {
      hide Valid;
      m := map[];
      var todo := Ids();
      while todo != {}
        invariant todo <= contents.Keys
        invariant Indexes(m, contents - todo)
        decreases todo
      {
        var id := Pick(todo);
        var s := Get(id);
        ghost var before := m;
        m := Occupy(m, s);
        IndexesOneMore(before, m, contents, todo, id);
        todo := todo - {id};
      }
      assert contents - todo == contents;
    }

    method CheckConflicts(ns: string, pods: seq<Pod>) returns (entries: seq<Entry>)
      requires Valid() && (forall id :: id in contents ==> Named(contents[id]))
      requires NulFree(ns) && forall p :: p in pods ==> NulFree(p.name)
      ensures Reported(entries, contents, ns, pods)
    {
      var occupied := OccupiedContainers();
      entries := [];
      for i := 0 to |pods|
        invariant Reported(entries, contents, ns, pods[..i])
      {
        var here := PodConflicts(occupied, contents, ns, pods[i]);
        WantsOneMorePod(pods, i);
        entries := entries + here;
      }
      assert pods[..|pods|] == pods;
    }

    method CreateTimeshift(c: Create) returns (reply: Reply, calls: seq<Call>)
      requires Valid() && (forall id :: id in contents ==> Named(contents[id]))
      requires NamesAllowed(c) && c.id !in timeshifts
      modifies this
      ensures Valid() && fresh(repr - old(repr)) && contents == After(old(contents), CreateShift(c))
      ensures reply.NoPods? <==> c.pods == []
      ensures reply.Conflicting? <==> !AllFree(old(contents), c.namespace, c.pods)
      ensures reply.Conflicting? ==> Reported(reply.entries, old(contents), c.namespace, c.pods)
      ensures reply.Registered? <==> c.id in contents
      ensures reply.Registered? ==> reply.shift.id == c.id && reply.shift == timeshifts[c.id]
      ensures calls == if reply.Conflicting? then [] else CreateCalls(c, |c.pods|)
    {
      hide Valid, Applied, Others, ConflictFree;
      var ids := Ids();
      calls := [];
      if c.pods == [] {
        return NoPods, [];
      }
      var entries := CheckConflicts(c.namespace, c.pods);
      ReportedNothingIff(entries, contents, c.namespace, c.pods);
      if entries != [] {
        return Conflicting(entries), [];
      }
      var handles;
      handles, calls := InjectPods(c);
      if handles == [] {
        return NothingInjected, calls;
      }
      var s := new Timeshift(c.id, c.namespace, c.labelSelector, c.target, c.freeze, c.now, c.ttl, handles);
      Register(s);
      reply := Registered(s);
    }

    method Register(s: Timeshift)
      requires Valid() && s.Valid() && s.id !in timeshifts && s !in repr && s.buf !in repr
      modifies this
      ensures Valid() && repr == old(repr) + {s, s.buf}
      ensures timeshifts == old(timeshifts)[s.id := s] && contents == old(contents)[s.id := s.Value()]
    {
      hide Valid;
      var _ := Ids();
      timeshifts, contents := timeshifts[s.id := s], contents[s.id := s.Value()];
      repr, owner := repr + {s, s.buf}, owner[s.buf := s.id];
      NewlyFiled(s);
    }

    twostate lemma NewlyFiled(s: Timeshift)
      requires old(Valid()) && s.Valid() && s.id !in old(timeshifts) && s.buf !in old(repr)
      requires timeshifts == old(timeshifts)[s.id := s] && contents == old(contents)[s.id := s.Value()]
      requires repr == old(repr) + {s, s.buf} && owner == old(owner)[s.buf := s.id]
      requires forall o :: o in old(repr) ==> unchanged(o)
      ensures Valid()
    {
      forall k | k in timeshifts && k != s.id
        ensures Filed(k, timeshifts[k], contents[k]) && timeshifts[k].buf == old(timeshifts[k].buf) != s.buf
      {
        assert old(Filed(k, timeshifts[k], contents[k]));
      }
    }

    /**
     handlePodEvent, with no other request between its two critical sections;
     now(id) is the clock read for timeshift id.
     */
    method HandlePodEvent(pod: Pod, selects: string -> bool, now: Id -> int, answers: Id -> nat -> Answer)
      returns (calls: map<Id, seq<Call>>)
      requires Valid()
      modifies this`contents, this`repr, this`owner, repr
      ensures Valid() && contents == AfterEvent(old(contents), pod, selects, answers)
      ensures forall id :: id in calls <==>
        && id in old(contents) && pod.running && old(contents)[id].namespace == pod.namespace
        && selects(old(contents)[id].labelSelector) && Unhandled(old(contents)[id], pod)
      ensures forall id :: id in calls ==>
        var s := old(contents)[id];
        calls[id] == InjectCalls(pod, EffectiveTime(s.record, now(id)), s.record.frozen, |pod.statuses|)
    {
      hide Valid, Refreshed, Injected, InjectCalls, AllHandled, Unhandled;
      calls := map[];
      forall id | id in contents
        ensures Unhandled(contents[id], pod) <==> !AllHandled(contents[id].handles, pod)
      {
        UnhandledMeans(contents[id], pod);
      }
      if !pod.running {
        return;
      }
      var matched := MatchedBy(pod, selects);
      calls := ReinjectAll(matched, pod, now, answers);
    }

    method MatchedBy(pod: Pod, selects: string -> bool) returns (matched: map<Id, Record>)
      requires Valid()
      ensures forall id :: id in matched <==> id in contents && Matched(contents[id], pod, selects)
      ensures forall id :: id in matched ==> matched[id] == contents[id].record
    {
      hide Valid, AllHandled;
      matched := map[];
      var todo := Ids();
      while todo != {}
        invariant todo <= contents.Keys
        invariant forall id :: id in matched <==> id in contents && id !in todo && Matched(contents[id], pod, selects)
        invariant forall id :: id in matched ==> matched[id] == contents[id].record
        decreases todo
      {
        var id := Pick(todo);
        todo := todo - {id};
        var s := Get(id);
        if s.namespace != pod.namespace || !selects(s.labelSelector) {
          continue;
        }
        var handled := AllContainersHandled(s.buf[..s.len], pod);
        if handled {
          continue;
        }
        matched := matched[id := Record(s.frozen, s.frozenAt, s.offset)];
      }
    }

    method ReinjectAll(matched: map<Id, Record>, pod: Pod, now: Id -> int, answers: Id -> nat -> Answer)
      returns (calls: map<Id, seq<Call>>)
      requires Valid() && matched.Keys <= contents.Keys
      modifies this`contents, this`repr, this`owner, repr
      ensures Valid() && fresh(repr - old(repr)) && contents.Keys == old(contents).Keys
      ensures calls.Keys == matched.Keys && Reinjected(old(contents), contents, calls, matched, pod, now, answers)
    {
      hide Valid, Reinjected;
      ghost var was := contents;
      calls := map[];
      var todo := matched.Keys;
      ReinjectedStart(was, matched, pod, now, answers);
      while todo != {}
        invariant Valid() && fresh(repr - old(repr)) && contents.Keys == was.Keys
        invariant todo <= matched.Keys && calls.Keys == matched.Keys - todo
        invariant Reinjected(was, contents, calls, matched, pod, now, answers)
        decreases todo
      {
        var id := Pick(todo);
        todo := todo - {id};
        ghost var before := contents;
        var made := ReinjectOne(id, matched[id], pod, now(id), answers(id));
        ReinjectedStep(was, before, calls, matched, id, pod, now, answers);
        calls := calls[id := made];
      }
    }

    method ReinjectOne(id: Id, m: Record, pod: Pod, now: int, answers: nat -> Answer) returns (calls: seq<Call>)
      requires Valid() && id in contents
      modifies this`contents, this`repr, this`owner, repr
      ensures Valid() && fresh(repr - old(repr))
      ensures contents == old(contents)[id := Refreshed(old(contents)[id], pod, answers)]
      ensures calls == InjectCalls(pod, EffectiveTime(m, now), m.frozen, |pod.statuses|)
    {
      hide Valid, Others, Injected, InjectCalls;
      var target := if m.frozen then m.frozenAt else now + m.offset;
      var added;
      added, calls := InjectPod(pod, target, m.frozen, answers);
      var ids := Ids();
      if added != [] && id in ids {
        ReplacePodOf(id, pod.name, added);
      }
    }

    /** When one timeshift has changed, and nothing else has, it is filed under its new value and slice. */
    twostate lemma Refiled(id: Id)
      requires old(Valid()) && id in timeshifts && timeshifts == old(timeshifts)
      requires timeshifts[id].Valid() && (timeshifts[id].buf == old(timeshifts[id].buf) || fresh(timeshifts[id].buf))
      requires repr == old(repr) + {timeshifts[id].buf} && owner == old(owner)[timeshifts[id].buf := id]
      requires forall o :: o in old(repr) && o != timeshifts[id] && o != old(timeshifts[id].buf) ==> unchanged(o)
      requires contents == old(contents)[id := timeshifts[id].Value()]
      ensures Valid()
    {
      forall k | k in timeshifts && k != id
        ensures Filed(k, timeshifts[k], contents[k]) && timeshifts[k].buf == old(timeshifts[k].buf)
      {
        assert old(Filed(k, timeshifts[k], contents[k])) && old(Filed(id, timeshifts[id], contents[id]));
        assert timeshifts[k] != timeshifts[id] && old(timeshifts[k].buf) != old(timeshifts[id].buf);
      }
    }
  }

  /** The locked part of deleteTimeshift has let go of s; every handle is reset, whatever the agents answer. */
  method ResetAll(s: Timeshift) returns (calls: seq<Call>)
    requires s.Valid()
    ensures calls == ResetCalls(s.Value().handles) && |calls| == |s.Value().handles|
    ensures forall i :: 0 <= i < |calls| ==>
      calls[i] == Reset(s.Value().handles[i].nodeIP, s.Value().handles[i].agentHandle)
  {
    calls := [];
    for i := 0 to s.len
      invariant calls == ResetCalls(s.buf[..s.len])[..i]
    {
      calls := calls + [Reset(s.buf[i].nodeIP, s.buf[i].agentHandle)];
    }
  }

  /** One timeshift's containers, over whatever the map held. */
  method Occupy(m: map<string, Id>, s: Timeshift) returns (r: map<string, Id>)
    requires s.Valid()
    ensures forall k :: k in r <==> k in m || HoldsKey(s.Value(), k)
    ensures forall k :: k in r ==> r[k] == if HoldsKey(s.Value(), k) then s.id else m[k]
  {
    r := m;
    for i := 0 to s.len
      invariant forall k :: k in r <==> k in m || HoldsKey(s.Value().(handles := s.buf[..i]), k)
      invariant forall k :: k in r ==> r[k] == if HoldsKey(s.Value().(handles := s.buf[..i]), k) then s.id else m[k]
    {
      assert s.buf[..i + 1] == s.buf[..i] + [s.buf[i]];
      var h := s.buf[i];
      r := r[s.namespace + "\0" + h.pod + "\0" + h.container := s.id];
    }
  }

  lemma IndexesOneMore(before: map<string, Id>, m: map<string, Id>, shifts: Shifts, todo: set<Id>, id: Id)
    requires id in todo && id in shifts && Indexes(before, shifts - todo)
    requires forall k :: k in m <==> k in before || HoldsKey(shifts[id], k)
    requires forall k :: k in m ==> m[k] == if HoldsKey(shifts[id], k) then id else before[k]
    ensures Indexes(m, shifts - (todo - {id}))
  {
    var l, r := shifts - todo, shifts - (todo - {id});
    assert forall j :: j in r <==> j in l || j == id;
    assert forall j :: j in l ==> r[j] == l[j];
    assert r[id] == shifts[id];
  }

  /** The conflicts of one pod's injectable containers. */
  method PodConflicts(occupied: map<string, Id>, ghost shifts: Shifts, ns: string, pod: Pod) returns (entries: seq<Entry>)
    requires Indexes(occupied, shifts) && (forall id :: id in shifts ==> Named(shifts[id]))
    requires NulFree(ns) && NulFree(pod.name)
    ensures Reported(entries, shifts, ns, [pod])
  {
    hide Reported, Holds, Free;
    entries := [];
    ReportedNone(shifts, ns, pod);
    for i := 0 to |pod.statuses|
      invariant Reported(entries, shifts, ns, [Cut(pod, i)])
    {
      var cs := pod.statuses[i];
      ReportedNext(entries, shifts, ns, pod, i);
      if !cs.running || cs.containerID == "" {
        continue;
      }
      var key := ns + "\0" + pod.name + "\0" + cs.name;
      OccupiedIff(occupied, shifts, Container(ns, pod.name, cs.name));
      if key in occupied {
        entries := entries + [Entry(pod.name, cs.name, occupied[key])];
      }
    }
    assert Cut(pod, |pod.statuses|) == pod;
  }

  /** The sweep has decided on all but todo: calls holds the resets of those it took out of was, leaving left. */
  ghost predicate Swept(was: Shifts, left: Shifts, calls: map<Id, seq<Call>>, todo: set<Id>, now: int)
  {
    && calls.Keys <= was.Keys && left == was - calls.Keys && todo <= left.Keys
    && (forall id :: id in was && id !in todo ==> (id in calls <==> Expired(was[id], now)))
    && (forall id :: id in calls ==> calls[id] == ResetCalls(was[id].handles))
  }

  lemma SweptStart(was: Shifts, now: int)
    ensures Swept(was, was, map[], was.Keys, now)
  {
    assert was - {} == was;
  }

  lemma SweptStep(was: Shifts, left: Shifts, calls: map<Id, seq<Call>>, todo: set<Id>, id: Id, now: int)
    requires Swept(was, left, calls, todo, now) && id in todo
    ensures id in left && left[id] == was[id]
    ensures !Expired(left[id], now) ==> Swept(was, left, calls, todo - {id}, now)
    ensures Expired(left[id], now) ==>
      Swept(was, left - {id}, calls[id := ResetCalls(left[id].handles)], todo - {id}, now)
  {
    assert left - {id} == was - (calls.Keys + {id});
  }

  lemma SweptAll(was: Shifts, left: Shifts, calls: map<Id, seq<Call>>, now: int)
    requires Swept(was, left, calls, {}, now)
    ensures left == Unexpired(was, now) && calls.Keys == was.Keys - left.Keys
    ensures forall id :: id in calls ==> calls[id] == ResetCalls(was[id].handles)
  {
  }
}
