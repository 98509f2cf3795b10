/** The controller's registry as values, and what each critical section does to it (cmd/controller/controller.go). */
module Registry {
  import GoClock
  import opened Records
  import opened Words

  type Id = string

  datatype ContainerHandle = ContainerHandle(
    pod: string, container: string, nodeIP: string, containerID: string, agentHandle: string)

  datatype Expiry = Never | At(time: int)

  datatype Shift = Shift(
    namespace: string, labelSelector: string, record: Record, expiresAt: Expiry,
    handles: seq<ContainerHandle>)

  type Shifts = map<Id, Shift>

  datatype ContainerStatus = ContainerStatus(name: string, running: bool, containerID: string)

  datatype Pod = Pod(namespace: string, name: string, running: bool, hostIP: string, statuses: seq<ContainerStatus>)

  /** What an agent answers to Inject. */
  datatype Answer = Issued(handle: string) | Refused

  /** What an agent answers to SetTime. */
  datatype SetAnswer = TimeSet | NotFound | Failed

  /** A request to the agent on a node. */
  datatype Call =
    | Inject(nodeIP: string, containerID: string, target: int, freeze: bool)
    | SetTime(nodeIP: string, agentHandle: string, target: int, freeze: bool)
    | Reset(nodeIP: string, agentHandle: string)

  /** The container filter that injection and conflict checking share. */
  predicate Injectable(cs: ContainerStatus)
  {
    cs.running && cs.containerID != ""
  }

  function HandleOf(pod: Pod, i: nat, agentHandle: string): ContainerHandle
    requires i < |pod.statuses|
  {
    ContainerHandle(pod.name, pod.statuses[i].name, pod.hostIP, pod.statuses[i].containerID, agentHandle)
  }

  /** The handles of the first n containers, when injecting container i is answered by answers(i). */
  function Injected(pod: Pod, answers: nat -> Answer, n: nat): (r: seq<ContainerHandle>)
    requires n <= |pod.statuses|
  {
    if n == 0 then []
    else
      var front := Injected(pod, answers, n - 1);
      if Injectable(pod.statuses[n - 1]) && answers(n - 1).Issued?
      then front + [HandleOf(pod, n - 1, answers(n - 1).handle)]
      else front
  }

  /** Container i runs, has an ID, and its injection succeeded: h is its handle, on the pod's node, under its own ID. */
  ghost predicate Accepted(pod: Pod, answers: nat -> Answer, i: nat, h: ContainerHandle)
    requires i < |pod.statuses|
  {
    var cs := pod.statuses[i];
    && cs.running && cs.containerID != "" && answers(i) == Issued(h.agentHandle)
    && h.pod == pod.name && h.container == cs.name && h.nodeIP == pod.hostIP && h.containerID == cs.containerID
  }

  /** f names, in order, exactly the containers that run, have an ID and accepted: one handle each. */
  lemma {:induction false} InjectedInOrder(pod: Pod, answers: nat -> Answer, n: nat) returns (f: seq<nat>)
    requires n <= |pod.statuses|
    ensures |f| == |Injected(pod, answers, n)|
    ensures forall k :: 0 <= k < |f| ==> f[k] < n && Accepted(pod, answers, f[k], Injected(pod, answers, n)[k])
    ensures forall j, k :: 0 <= j < k < |f| ==> f[j] < f[k]
    ensures forall i :: 0 <= i < n && pod.statuses[i].running && pod.statuses[i].containerID != "" && answers(i).Issued? ==>
      i in f
  {
    if n == 0 {
      f := [];
    } else {
      f := InjectedInOrder(pod, answers, n - 1);
      if Injectable(pod.statuses[n - 1]) && answers(n - 1).Issued? {
        f := f + [n - 1];
      }
    }
  }

  /** One handle for each injectable container whose injection succeeded, under that container's own ID. */
  lemma {:induction false} InjectedExactly(pod: Pod, answers: nat -> Answer, n: nat)
    requires n <= |pod.statuses|
    ensures forall h :: h in Injected(pod, answers, n) <==>
      exists i :: 0 <= i < n && Injectable(pod.statuses[i]) && answers(i).Issued? && h == HandleOf(pod, i, answers(i).handle)
  {
    if n > 0 {
      InjectedExactly(pod, answers, n - 1);
      var front := Injected(pod, answers, n - 1);
      forall h
        ensures h in Injected(pod, answers, n) <==>
          exists i :: 0 <= i < n && Injectable(pod.statuses[i]) && answers(i).Issued? && h == HandleOf(pod, i, answers(i).handle)
      {
        assert h in Injected(pod, answers, n) ==> h in front || h == HandleOf(pod, n - 1, answers(n - 1).handle);
      }
    }
  }

  /** The calls that injecting the first n containers makes. */
  function InjectCalls(pod: Pod, target: int, freeze: bool, n: nat): (calls: seq<Call>)
    requires n <= |pod.statuses|
  {
    if n == 0 then []
    else
      var front := InjectCalls(pod, target, freeze, n - 1);
      if Injectable(pod.statuses[n - 1])
      then front + [Inject(pod.hostIP, pod.statuses[n - 1].containerID, target, freeze)]
      else front
  }

  /**
   f names, in order, exactly the containers that run and have an ID, answered or
   not: one Inject each, to the pod's node, for that container, with the target
   and the mode given.
   */
  lemma {:induction false} InjectCallsInOrder(pod: Pod, target: int, freeze: bool, n: nat) returns (f: seq<nat>)
    requires n <= |pod.statuses|
    ensures |f| == |InjectCalls(pod, target, freeze, n)|
    ensures forall k :: 0 <= k < |f| ==>
      && f[k] < n && pod.statuses[f[k]].running && pod.statuses[f[k]].containerID != ""
      && InjectCalls(pod, target, freeze, n)[k] == Inject(pod.hostIP, pod.statuses[f[k]].containerID, target, freeze)
    ensures forall j, k :: 0 <= j < k < |f| ==> f[j] < f[k]
    ensures forall i :: 0 <= i < n && pod.statuses[i].running && pod.statuses[i].containerID != "" ==> i in f
  {
    if n == 0 {
      f := [];
    } else {
      f := InjectCallsInOrder(pod, target, freeze, n - 1);
      if Injectable(pod.statuses[n - 1]) {
        f := f + [n - 1];
      }
    }
  }

  /** A handle ID that the agent returned for the container at idx of an update's snapshot. */
  datatype Update = Update(idx: nat, newHandle: string)

  ghost predicate Indexed(us: seq<Update>, snapshot: seq<ContainerHandle>)
  {
    forall u :: u in us ==> u.idx < |snapshot|
  }

  /** What an update collects from the first n handles: the re-injections that an agent restart made necessary. */
  function Reissued(sets: nat -> SetAnswer, injects: nat -> Answer, n: nat): (us: seq<Update>)
    ensures forall u :: u in us ==> u.idx < n
  {
    if n == 0 then []
    else
      var front := Reissued(sets, injects, n - 1);
      if sets(n - 1).NotFound? && injects(n - 1).Issued? then front + [Update(n - 1, injects(n - 1).handle)] else front
  }

  /** Exactly the handles an agent no longer knew, each under the handle ID its re-injection was issued. */
  lemma {:induction false} ReissuedExactly(sets: nat -> SetAnswer, injects: nat -> Answer, n: nat)
    ensures forall u :: u in Reissued(sets, injects, n) <==>
      u.idx < n && sets(u.idx).NotFound? && injects(u.idx) == Issued(u.newHandle)
  {
    if n > 0 {
      ReissuedExactly(sets, injects, n - 1);
    }
  }

  /** The calls an update makes for the first n handles: each is retimed, and re-injected if its agent lost it. */
  function UpdateCalls(handles: seq<ContainerHandle>, sets: nat -> SetAnswer, target: int, freeze: bool, n: nat)
    : (calls: seq<Call>)
    requires n <= |handles|
  {
    if n == 0 then []
    else
      var h := handles[n - 1];
      UpdateCalls(handles, sets, target, freeze, n - 1)
      + [SetTime(h.nodeIP, h.agentHandle, target, freeze)]
      + if sets(n - 1).NotFound? then [Inject(h.nodeIP, h.containerID, target, freeze)] else []
  }

  /**
   The calls from start on, up to end, are those due for one handle: a SetTime to
   its node for its agent handle, with the target and the mode given, and exactly
   if the agent knew no such handle an Inject of its container there, with the
   same two.
   */
  predicate Served(calls: seq<Call>, start: nat, end: nat, h: ContainerHandle, answer: SetAnswer, target: int, freeze: bool)
  {
    && start <= end <= |calls|
    && calls[start..end] ==
         if answer == NotFound
         then [SetTime(h.nodeIP, h.agentHandle, target, freeze), Inject(h.nodeIP, h.containerID, target, freeze)]
         else [SetTime(h.nodeIP, h.agentHandle, target, freeze)]
  }

  /** f cuts the calls into those due for the first n handles, in order. */
  ghost predicate ServedInOrder(calls: seq<Call>, f: seq<nat>, handles: seq<ContainerHandle>, n: nat,
                                sets: nat -> SetAnswer, target: int, freeze: bool)
    requires n <= |handles|
  {
    && |f| == n + 1 && f[0] == 0 && f[n] == |calls|
    && forall i {:trigger handles[i]} :: 0 <= i < n ==> Served(calls, f[i], f[i + 1], handles[i], sets(i), target, freeze)
  }

  /** An update tells every agent the target and the mode that were asked for, handle by handle in order. */
  lemma {:induction false} UpdateCallsInOrder(handles: seq<ContainerHandle>, sets: nat -> SetAnswer,
                                              target: int, freeze: bool, n: nat) returns (f: seq<nat>)
    requires n <= |handles|
    ensures ServedInOrder(UpdateCalls(handles, sets, target, freeze, n), f, handles, n, sets, target, freeze)
  {
    if n == 0 {
      f := [0];
    } else {
      var front := UpdateCallsInOrder(handles, sets, target, freeze, n - 1);
      var before, calls := UpdateCalls(handles, sets, target, freeze, n - 1), UpdateCalls(handles, sets, target, freeze, n);
      f := front + [|calls|];
      forall i | 0 <= i < n
        ensures Served(calls, f[i], f[i + 1], handles[i], sets(i), target, freeze)
      {
        if i < n - 1 {
          assert Served(before, front[i], front[i + 1], handles[i], sets(i), target, freeze);
          assert calls[..|before|] == before;
          assert calls[f[i]..f[i + 1]] == before[f[i]..f[i + 1]];
        }
      }
    }
  }

  function ResetCalls(handles: seq<ContainerHandle>): (calls: seq<Call>)
    ensures |calls| == |handles|
    ensures forall i :: 0 <= i < |calls| ==> calls[i] == Reset(handles[i].nodeIP, handles[i].agentHandle)
  {
    seq(|handles|, i requires 0 <= i < |handles| => Reset(handles[i].nodeIP, handles[i].agentHandle))
  }

  /** One re-injected handle ID, if the entry at its index is still the same container's. */
  function ApplyOne(handles: seq<ContainerHandle>, snapshot: seq<ContainerHandle>, u: Update): (r: seq<ContainerHandle>)
    requires u.idx < |snapshot|
    ensures |r| == |handles|
  {
    if u.idx < |handles| && handles[u.idx].containerID == snapshot[u.idx].containerID
    then handles[u.idx := handles[u.idx].(agentHandle := u.newHandle)]
    else handles
  }

  function Applied(handles: seq<ContainerHandle>, snapshot: seq<ContainerHandle>, us: seq<Update>): (r: seq<ContainerHandle>)
    requires Indexed(us, snapshot)
    ensures |r| == |handles|
  {
    if us == [] then handles else ApplyOne(Applied(handles, snapshot, us[..|us| - 1]), snapshot, us[|us| - 1])
  }

  /**
   An update never moves, adds or drops an entry: at most the agent handle of
   entry i changes, and then to one re-injected at i for the same container.
   */
  lemma {:induction false} AppliedEntry(handles: seq<ContainerHandle>, snapshot: seq<ContainerHandle>, us: seq<Update>, i: nat)
    requires Indexed(us, snapshot) && i < |handles|
    ensures var r := Applied(handles, snapshot, us)[i];
            || r == handles[i]
            || (i < |snapshot| && handles[i].containerID == snapshot[i].containerID
                && r == handles[i].(agentHandle := r.agentHandle) && Update(i, r.agentHandle) in us)
  {
    if us != [] {
      AppliedEntry(handles, snapshot, us[..|us| - 1], i);
    }
  }

  /** If nothing rewrote the list meanwhile, every re-injected container gets its new handle and no other entry changes. */
  lemma {:induction false} AppliedInPeace(handles: seq<ContainerHandle>, sets: nat -> SetAnswer, injects: nat -> Answer,
                                          n: nat, i: nat)
    requires i < |handles| && n <= |handles|
    ensures var us := Reissued(sets, injects, n);
            && Indexed(us, handles)
            && Applied(handles, handles, us)[i] ==
                 if i < n && sets(i).NotFound? && injects(i).Issued? then handles[i].(agentHandle := injects(i).handle)
                 else handles[i]
  {
    if n > 0 {
      AppliedInPeace(handles, sets, injects, n - 1, i);
      var front, us := Reissued(sets, injects, n - 1), Reissued(sets, injects, n);
      if us != front {
        assert us[..|us| - 1] == front;
        AppliedEntry(handles, handles, front, n - 1);
      }
    }
  }

  function Retimed(s: Shift, target: int, freeze: bool, now: int): Shift
  {
    s.(record := if freeze then Record(true, target, 0) else Record(false, ZERO_TIME, GoClock.Sub(target, now)))
  }

  /** advanceTimeshift's target, at the clock reading now: the stored offset and delta are added in 64 bits. */
  function AdvanceTarget(s: Shift, delta: GoClock.Duration, now: int): int
  {
    if s.record.frozen then s.record.frozenAt + delta else now + Wrap64(s.record.offset + delta)
  }

  /**
   The update that advancing makes moves the setting by delta and keeps its mode
   exactly if the request names the mode the shift is in, and no offset leaves
   the range of a Duration; an advancing offset loses the time between the two
   clock readings.
   */
  lemma AdvancedIff(s: Shift, delta: GoClock.Duration, freeze: bool, first: int, second: int)
    requires -TWO63 <= s.record.offset < TWO63 && 0 <= second - first < TWO63
    ensures var r := Retimed(s, AdvanceTarget(s, delta, first), freeze, second).record;
            && var moved := s.record.offset + delta - (second - first);
            (r.frozen == s.record.frozen
             && if r.frozen then r.frozenAt == s.record.frozenAt + delta else r.offset == moved)
            <==>
            (freeze == s.record.frozen
             && (freeze || (-TWO63 <= s.record.offset + delta < TWO63 && -TWO63 <= moved)))
  {
    var sum := s.record.offset + delta;
    assert Wrap64(sum) == if sum >= TWO63 then sum - TWO64 else if sum < -TWO63 then sum + TWO64 else sum;
  }

  function Created(namespace: string, labelSelector: string, target: int, freeze: bool, now: int, ttl: int,
                   handles: seq<ContainerHandle>): Shift
  {
    Retimed(
      Shift(namespace, labelSelector, Record(freeze, ZERO_TIME, 0), if ttl > 0 then At(now + ttl) else Never, handles),
      target, freeze, now)
  }

  /**
   A retimed shift shows the target, and keeps it or advances from it, exactly if
   the difference is a Duration; nothing but its setting changes.
   */
  lemma RetimedShows(s: Shift, target: int, freeze: bool, now: int, later: int)
    ensures var r := Retimed(s, target, freeze, now);
            && r == s.(record := r.record) && r.record.frozen == freeze
            && (if freeze then r.record.offset == 0 else r.record.frozenAt == ZERO_TIME)
            && ((EffectiveTime(r.record, later) == if freeze then target else target + (later - now))
                <==> (freeze || -TWO63 <= target - now < TWO63))
  {
  }

  /** A created shift is what was asked for, is retimed the same way, and is swept once its ttl, if any, is over. */
  lemma CreatedLives(namespace: string, labelSelector: string, target: int, freeze: bool, now: int, ttl: int,
                     handles: seq<ContainerHandle>, later: int)
    ensures var s := Created(namespace, labelSelector, target, freeze, now, ttl, handles);
            && s.namespace == namespace && s.labelSelector == labelSelector && s.handles == handles
            && s == Retimed(s, target, freeze, now)
            && (Expired(s, later) <==> ttl > 0 && later > now + ttl)
  {
  }

  predicate Expired(s: Shift, now: int)
  {
    s.expiresAt.At? && now > s.expiresAt.time
  }

  function Unexpired(shifts: Shifts, now: int): Shifts
  {
    map id | id in shifts && !Expired(shifts[id], now) :: shifts[id]
  }

  /** The entries of other pods. */
  function Others(handles: seq<ContainerHandle>, pod: string): (r: seq<ContainerHandle>)
    ensures |r| <= |handles|
  {
    if handles == [] then []
    else
      var front, last := Others(handles[..|handles| - 1], pod), handles[|handles| - 1];
      if last.pod != pod then front + [last] else front
  }

  /** f picks from handles, in order, exactly the entries of other pods. */
  lemma {:induction false} OthersInOrder(handles: seq<ContainerHandle>, pod: string) returns (f: seq<nat>)
    ensures |f| == |Others(handles, pod)|
    ensures forall i :: 0 <= i < |f| ==> f[i] < |handles| && Others(handles, pod)[i] == handles[f[i]]
    ensures forall i, j :: 0 <= i < j < |f| ==> f[i] < f[j]
    ensures forall k :: 0 <= k < |handles| ==> (k in f <==> handles[k].pod != pod)
  {
    if handles == [] {
      f := [];
    } else {
      var n := |handles| - 1;
      f := OthersInOrder(handles[..n], pod);
      assert forall k :: 0 <= k < n ==> handles[..n][k] == handles[k];
      if handles[n].pod != pod {
        f := f + [n];
      }
    }
  }

  lemma OthersMembers(handles: seq<ContainerHandle>, pod: string)
    ensures forall h :: h in Others(handles, pod) <==> h in handles && h.pod != pod
  {
    var f := OthersInOrder(handles, pod);
    forall h | h in handles && h.pod != pod
      ensures h in Others(handles, pod)
    {
      var k :| 0 <= k < |handles| && handles[k] == h;
      var i :| 0 <= i < |f| && f[i] == k;
    }
  }
}
