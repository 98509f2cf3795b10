/** What one pod event does to the registry (cmd/controller/watcher.go). */
module PodEvents {
  import opened Records
  import opened Registry
  import opened Conflicts

  /** Every running container of the pod has an entry with its container ID. */
  predicate AllHandled(handles: seq<ContainerHandle>, pod: Pod)
  {
    forall cs :: cs in pod.statuses && cs.running ==>
      exists h :: h in handles && h.pod == pod.name && h.containerID == cs.containerID
  }

  /** selects says which label selectors parse and match the pod's labels. */
  predicate Matched(s: Shift, pod: Pod, selects: string -> bool)
  {
    s.namespace == pod.namespace && selects(s.labelSelector) && !AllHandled(s.handles, pod)
  }

  function Refreshed(s: Shift, pod: Pod, answers: nat -> Answer): Shift
  {
    var added := Injected(pod, answers, |pod.statuses|);
    if added == [] then s else s.(handles := Others(s.handles, pod.name) + added)
  }

  function ShiftAfter(s: Shift, pod: Pod, selects: string -> bool, answers: nat -> Answer): Shift
  {
    if pod.running && Matched(s, pod, selects) then Refreshed(s, pod, answers) else s
  }

  /** The registry after a pod event that nothing interrupts; container i of timeshift id is answered by answers(id)(i). */
  function AfterEvent(shifts: Shifts, pod: Pod, selects: string -> bool, answers: Id -> nat -> Answer): Shifts
  {
    map id | id in shifts :: ShiftAfter(shifts[id], pod, selects, answers(id))
  }

  /** A running container of the pod for which the timeshift has no entry with its ID. */
  ghost predicate Unhandled(s: Shift, pod: Pod)
  {
    exists cs :: cs in pod.statuses && cs.running &&
      forall h :: h in s.handles && h.pod == pod.name ==> h.containerID != cs.containerID
  }

  /**
   A running pod's event concerns the timeshifts of its namespace whose selector
   matches it and that miss one of its running containers. If any container
   accepts, such a timeshift ends with its entries of other pods and a handle for
   each container that accepted; nothing else changes anywhere.
   */
  lemma EventExactly(shifts: Shifts, pod: Pod, selects: string -> bool, answers: Id -> nat -> Answer, id: Id)
    requires id in shifts
    ensures var s, r := shifts[id], AfterEvent(shifts, pod, selects, answers)[id];
      && AfterEvent(shifts, pod, selects, answers).Keys == shifts.Keys && r == s.(handles := r.handles)
      && if && pod.running && s.namespace == pod.namespace && selects(s.labelSelector) && Unhandled(s, pod)
            && exists h :: AcceptedOf(pod, answers(id), h)
         then forall h :: h in r.handles <==> (h in s.handles && h.pod != pod.name) || AcceptedOf(pod, answers(id), h)
         else r == s
  {
    hide AcceptedOf, AllHandled, Unhandled;
    var s, added := shifts[id], Injected(pod, answers(id), |pod.statuses|);
    forall h
      ensures h in added <==> AcceptedOf(pod, answers(id), h)
    {
      AcceptedOfMeans(pod, answers(id), h);
    }
    OthersMembers(s.handles, pod.name);
    UnhandledMeans(s, pod);
    assert added != [] ==> added[0] in added;
  }

  /** Some container of the pod runs, has an ID and accepted, and h is its handle. */
  ghost predicate AcceptedOf(pod: Pod, answers: nat -> Answer, h: ContainerHandle)
  {
    exists j: nat :: j < |pod.statuses| && Accepted(pod, answers, j, h)
  }

  lemma AcceptedOfMeans(pod: Pod, answers: nat -> Answer, h: ContainerHandle)
    ensures h in Injected(pod, answers, |pod.statuses|) <==> AcceptedOf(pod, answers, h)
  {
    InjectedAccepted(pod, answers, h);
  }

  lemma UnhandledMeans(s: Shift, pod: Pod)
    ensures Unhandled(s, pod) <==> !AllHandled(s.handles, pod)
  {
  }

  /** The timeshifts for which the event makes agents inject. */
  function Injecting(shifts: Shifts, pod: Pod, selects: string -> bool): set<Id>
  {
    set id | id in shifts && pod.running && Matched(shifts[id], pod, selects)
             && exists cs :: cs in pod.statuses && Injectable(cs)
  }

  ghost predicate AllSucceed(pod: Pod, answers: nat -> Answer)
  {
    forall i :: 0 <= i < |pod.statuses| && Injectable(pod.statuses[i]) ==> answers(i).Issued?
  }

  /** A running container that the runtime has not named yet. */
  predicate Nameless(cs: ContainerStatus)
  {
    cs.running && cs.containerID == ""
  }

  /** Once every injection succeeded, the pod counts as handled unless a running container has no ID. */
  lemma RefreshedHandledIff(s: Shift, pod: Pod, answers: nat -> Answer)
    requires AllSucceed(pod, answers) && exists cs :: cs in pod.statuses && Injectable(cs)
    ensures AllHandled(Refreshed(s, pod, answers).handles, pod) <==> forall cs :: cs in pod.statuses ==> !Nameless(cs)
  {
    var n := |pod.statuses|;
    var added, t := Injected(pod, answers, n), Refreshed(s, pod, answers);
    InjectedExactly(pod, answers, n);
    OthersMembers(s.handles, pod.name);
    forall i | 0 <= i < n && Injectable(pod.statuses[i])
      ensures HandleOf(pod, i, answers(i).handle) in added
    {
    }
    assert forall h :: h in t.handles && h.pod == pod.name ==> h in added && h.containerID != "";
    if cs :| cs in pod.statuses && Nameless(cs) {
      assert !AllHandled(t.handles, pod);
    } else {
      forall cs | cs in pod.statuses && cs.running
        ensures exists h :: h in t.handles && h.pod == pod.name && h.containerID == cs.containerID
      {
        var i :| 0 <= i < n && pod.statuses[i] == cs;
        assert Injectable(pod.statuses[i]);
        assert HandleOf(pod, i, answers(i).handle) in t.handles;
      }
    }
  }

  /**
   When every injection succeeded, handling the same event again reaches an agent
   for exactly the timeshifts it reached the first time, if some running
   container has no ID, and for none if they all have one.
   */
  lemma SecondEvent(shifts: Shifts, pod: Pod, selects: string -> bool, answers: Id -> nat -> Answer)
    requires forall id :: id in shifts ==> AllSucceed(pod, answers(id))
    ensures Injecting(AfterEvent(shifts, pod, selects, answers), pod, selects)
      == if exists cs :: cs in pod.statuses && Nameless(cs) then Injecting(shifts, pod, selects) else {}
  {
    var after := AfterEvent(shifts, pod, selects, answers);
    if exists cs :: cs in pod.statuses && Injectable(cs) {
      forall id | id in shifts
        ensures id in Injecting(after, pod, selects)
          <==> id in Injecting(shifts, pod, selects) && exists cs :: cs in pod.statuses && Nameless(cs)
      {
        RefreshedHandledIff(shifts[id], pod, answers(id));
      }
    }
  }

  /** The event injects a container of that name for the timeshift, and the agent accepts. */
  predicate Takes(s: Shift, pod: Pod, selects: string -> bool, answers: nat -> Answer, name: string)
  {
    && pod.running && Matched(s, pod, selects)
    && exists i ::
         0 <= i < |pod.statuses| && Injectable(pod.statuses[i]) && answers(i).Issued? && pod.statuses[i].name == name
  }

  ghost predicate TakesSome(s: Shift, pod: Pod, selects: string -> bool, answers: nat -> Answer)
  {
    exists name :: Takes(s, pod, selects, answers, name)
  }

  /** The container that c is to the pod's own timeshifts. */
  predicate OfPod(c: Container, pod: Pod)
  {
    c.namespace == pod.namespace && c.pod == pod.name
  }

  /** A timeshift that takes anything of the pod holds, of the pod, exactly what it takes; every other holding stays. */
  lemma HoldsAfter(s: Shift, pod: Pod, selects: string -> bool, answers: nat -> Answer, c: Container)
    ensures Holds(ShiftAfter(s, pod, selects, answers), c)
      <==> if TakesSome(s, pod, selects, answers) && OfPod(c, pod) then Takes(s, pod, selects, answers, c.name) else Holds(s, c)
  {
    hide AllHandled;
    var n := |pod.statuses|;
    var added := Injected(pod, answers, n);
    InjectedExactly(pod, answers, n);
    OthersMembers(s.handles, pod.name);
    if pod.running && Matched(s, pod, selects) {
      assert forall h :: h in added ==> h.pod == pod.name && Takes(s, pod, selects, answers, h.container);
      forall name | Takes(s, pod, selects, answers, name)
        ensures exists h :: h in added && h.container == name
      {
        var i :| 0 <= i < n && Injectable(pod.statuses[i]) && answers(i).Issued? && pod.statuses[i].name == name;
        assert HandleOf(pod, i, answers(i).handle) in added;
      }
      if added != [] {
        assert added[0] in added;
      }
    }
  }

  /**
   With the agents' answers given, a pod event keeps the registry conflict-free
   exactly when no container it takes for one timeshift is at the same time taken
   or kept by another.
   */
  lemma AnsweredEventConflictFreeIff(shifts: Shifts, pod: Pod, selects: string -> bool, answers: Id -> nat -> Answer)
    requires ConflictFree(shifts)
    ensures ConflictFree(AfterEvent(shifts, pod, selects, answers)) <==>
      forall a, b, name :: a in shifts && b in shifts && a != b && Takes(shifts[a], pod, selects, answers(a), name) ==>
        if TakesSome(shifts[b], pod, selects, answers(b)) then !Takes(shifts[b], pod, selects, answers(b), name)
        else !Holds(shifts[b], Container(pod.namespace, pod.name, name))
  {
    hide Takes, TakesSome, Holds, Matched, Refreshed;
    var after := AfterEvent(shifts, pod, selects, answers);
    forall id, c | id in shifts
      ensures Holds(after[id], c) <==>
        if TakesSome(shifts[id], pod, selects, answers(id)) && OfPod(c, pod)
        then Takes(shifts[id], pod, selects, answers(id), c.name) else Holds(shifts[id], c)
    {
      HoldsAfter(shifts[id], pod, selects, answers(id), c);
    }
    forall a, name | a in shifts && Takes(shifts[a], pod, selects, answers(a), name)
      ensures TakesSome(shifts[a], pod, selects, answers(a)) && Holds(after[a], Container(pod.namespace, pod.name, name))
    {
      TakesOne(shifts[a], pod, selects, answers(a), name);
      assert OfPod(Container(pod.namespace, pod.name, name), pod);
    }
    if c, a, b :| a in shifts && b in shifts && a != b && Holds(after[a], c) && Holds(after[b], c) {
      assert Holds(shifts[a], c) && Holds(shifts[b], c) ==> a == b;
      assert OfPod(c, pod) ==> c == Container(pod.namespace, pod.name, c.name);
    }
  }

  lemma TakesOne(s: Shift, pod: Pod, selects: string -> bool, answers: nat -> Answer, name: string)
    requires Takes(s, pod, selects, answers, name)
    ensures TakesSome(s, pod, selects, answers)
  {
  }

  /** No container that the event would inject for one timeshift is held by another, or injected for another too. */
  ghost predicate Unrivalled(shifts: Shifts, pod: Pod, selects: string -> bool)
  {
    forall a, b, cs ::
      && a in shifts && b in shifts && a != b
      && pod.running && Matched(shifts[a], pod, selects) && cs in pod.statuses && Injectable(cs)
      ==> !Matched(shifts[b], pod, selects) && !Holds(shifts[b], Container(pod.namespace, pod.name, cs.name))
  }

  /**
   A pod event, which checks no conflicts, keeps the registry conflict-free
   whatever the agents answer exactly when the registry before it is unrivalled
   for the pod.
   */
  lemma EventConflictFreeIff(shifts: Shifts, pod: Pod, selects: string -> bool)
    requires ConflictFree(shifts)
    ensures (forall answers: Id -> nat -> Answer :: ConflictFree(AfterEvent(shifts, pod, selects, answers)))
      <==> Unrivalled(shifts, pod, selects)
  {
    hide ConflictFree, AfterEvent, Unrivalled;
    if Unrivalled(shifts, pod, selects) {
      forall answers: Id -> nat -> Answer
        ensures ConflictFree(AfterEvent(shifts, pod, selects, answers))
      {
        UnrivalledSuffices(shifts, pod, selects, answers);
      }
    } else {
      var answers: Id -> nat -> Answer := _ => _ => Issued("");
      RivalConflicts(shifts, pod, selects, answers);
      assert !ConflictFree(AfterEvent(shifts, pod, selects, answers));
    }
  }

  lemma UnrivalledSuffices(shifts: Shifts, pod: Pod, selects: string -> bool, answers: Id -> nat -> Answer)
    requires ConflictFree(shifts) && Unrivalled(shifts, pod, selects)
    ensures ConflictFree(AfterEvent(shifts, pod, selects, answers))
  {
    hide ConflictFree, AfterEvent, Holds, AllHandled;
    AnsweredEventConflictFreeIff(shifts, pod, selects, answers);
    forall a, b, name | a in shifts && b in shifts && a != b && Takes(shifts[a], pod, selects, answers(a), name)
      ensures !TakesSome(shifts[b], pod, selects, answers(b)) && !Holds(shifts[b], Container(pod.namespace, pod.name, name))
    {
      var i :| 0 <= i < |pod.statuses| && Injectable(pod.statuses[i]) && pod.statuses[i].name == name;
      assert pod.statuses[i] in pod.statuses;
    }
  }

  /** If two timeshifts are rivals and every injection succeeds, the event ends in a conflict. */
  lemma RivalConflicts(shifts: Shifts, pod: Pod, selects: string -> bool, answers: Id -> nat -> Answer)
    requires ConflictFree(shifts) && !Unrivalled(shifts, pod, selects)
    requires forall id :: id in shifts ==> AllSucceed(pod, answers(id))
    ensures !ConflictFree(AfterEvent(shifts, pod, selects, answers))
  {
    hide ConflictFree, AfterEvent, Holds, Matched, Takes, TakesSome;
    AnsweredEventConflictFreeIff(shifts, pod, selects, answers);
    var a, b, cs :|
      && a in shifts && b in shifts && a != b
      && pod.running && Matched(shifts[a], pod, selects) && cs in pod.statuses && Injectable(cs)
      && (Matched(shifts[b], pod, selects) || Holds(shifts[b], Container(pod.namespace, pod.name, cs.name)));
    var i :| 0 <= i < |pod.statuses| && pod.statuses[i] == cs;
    TakesAt(shifts[a], pod, selects, answers(a), i);
    if Matched(shifts[b], pod, selects) {
      TakesAt(shifts[b], pod, selects, answers(b), i);
    } else {
      TakesNone(shifts[b], pod, selects, answers(b));
    }
  }

  lemma TakesAt(s: Shift, pod: Pod, selects: string -> bool, answers: nat -> Answer, i: nat)
    requires pod.running && Matched(s, pod, selects)
    requires i < |pod.statuses| && Injectable(pod.statuses[i]) && answers(i).Issued?
    ensures Takes(s, pod, selects, answers, pod.statuses[i].name) && TakesSome(s, pod, selects, answers)
  {
    hide Matched;
    TakesOne(s, pod, selects, answers, pod.statuses[i].name);
  }

  lemma TakesNone(s: Shift, pod: Pod, selects: string -> bool, answers: nat -> Answer)
    requires !Matched(s, pod, selects)
    ensures !TakesSome(s, pod, selects, answers)
  {
  }

  /** Two selectors that match one new pod: after its event both timeshifts hold its container. */
  lemma WatcherCanConflict() returns (shifts: Shifts, pod: Pod, selects: string -> bool, answers: Id -> nat -> Answer)
    ensures ConflictFree(shifts) && !ConflictFree(AfterEvent(shifts, pod, selects, answers))
    ensures shifts.Keys == {"a", "b"}
    ensures Holds(shifts["a"], Container("ns", "p1", "c")) && Holds(shifts["b"], Container("ns", "p2", "c"))
    ensures pod == Pod("ns", "p3", true, "node", [ContainerStatus("c", true, "id3")])
  {
    hide ConflictFree, AfterEvent, Unrivalled, Matched;
    var a := Shift("ns", "app=web", Record(true, 0, 0), Never, [ContainerHandle("p1", "c", "node", "id1", "h1")]);
    var b := Shift("ns", "tier=front", Record(true, 0, 0), Never, [ContainerHandle("p2", "c", "node", "id2", "h2")]);
    shifts := map["a" := a, "b" := b];
    pod := Pod("ns", "p3", true, "node", [ContainerStatus("c", true, "id3")]);
    selects, answers := _ => true, _ => _ => Issued("h3");
    TwoShiftsConflictFree(a, b);
    assert pod.statuses[0] in pod.statuses;
    UnhandledMatch(a, pod, selects);
    UnhandledMatch(b, pod, selects);
    Rivals(shifts, pod, selects, "a", "b", pod.statuses[0]);
    RivalConflicts(shifts, pod, selects, answers);
  }

  lemma UnhandledMatch(s: Shift, pod: Pod, selects: string -> bool)
    requires s.namespace == pod.namespace && selects(s.labelSelector) && (forall h :: h in s.handles ==> h.pod != pod.name)
    requires exists cs :: cs in pod.statuses && cs.running
    ensures Matched(s, pod, selects)
  {
  }

  lemma Rivals(shifts: Shifts, pod: Pod, selects: string -> bool, a: Id, b: Id, cs: ContainerStatus)
    requires a in shifts && b in shifts && a != b && pod.running && cs in pod.statuses && Injectable(cs)
    requires Matched(shifts[a], pod, selects) && Matched(shifts[b], pod, selects)
    ensures !Unrivalled(shifts, pod, selects)
  {
  }

  lemma TwoShiftsConflictFree(a: Shift, b: Shift)
    requires forall g, h :: g in a.handles && h in b.handles ==> g.pod != h.pod
    ensures ConflictFree(map["a" := a, "b" := b])
  {
    forall c
      ensures !(Holds(a, c) && Holds(b, c))
    {
    }
  }

  /** allContainersHandled. */
  method AllContainersHandled(handles: seq<ContainerHandle>, pod: Pod) returns (handled: bool)
    ensures handled == AllHandled(handles, pod)
  {
    var known: map<string, bool> := map[];
    for i := 0 to |handles|
      invariant forall k :: k in known <==> exists h :: h in handles[..i] && h.pod == pod.name && h.containerID == k
    {
      assert handles[..i + 1] == handles[..i] + [handles[i]];
      if handles[i].pod == pod.name {
        known := known[handles[i].containerID := true];
      }
    }
    assert handles[..|handles|] == handles;
    for i := 0 to |pod.statuses|
      invariant AllHandled(handles, pod.(statuses := pod.statuses[..i]))
    {
      var cs := pod.statuses[i];
      if cs.running && cs.containerID !in known {
        return false;
      }
      assert pod.statuses[..i + 1] == pod.statuses[..i] + [cs];
    }
    assert pod.statuses[..|pod.statuses|] == pod.statuses;
    return true;
  }
}
