/**
 Where agent handles come from, over every interleaving of the controller's
 critical sections and agent calls (cmd/controller/controller.go,
 cmd/controller/watcher.go). A request is a thread: its unlocked calls and its
 locked sections are separate actions, and other threads act in between.
 */
module Provenance {
  import opened Registry
  import opened Conflicts
  import PodEvents

  /** An Inject that the agent on nodeIP answered. */
  datatype Issue = Issue(nodeIP: string, containerID: string, agentHandle: string)

  datatype Thread =
    /** createTimeshift, about to look at container j of pod i. */
    | Creating(namespace: string, labelSelector: string, pods: seq<Pod>, i: nat, j: nat, handles: seq<ContainerHandle>)
    /** updateTimeshift, between looking the timeshift up and copying its handles. */
    | Found(id: Id)
    /** updateTimeshift, about to retime snapshot[next]. */
    | Updating(id: Id, snapshot: seq<ContainerHandle>, next: nat, updates: seq<Update>)
    /** handlePodEvent, about to look at container j of the pod on behalf of matched[0]. */
    | Watching(pod: Pod, matched: seq<Id>, j: nat, added: seq<ContainerHandle>)

  /** objects holds every timeshift ever registered: a thread may still hold one that active has lost. */
  datatype State = State(objects: Shifts, active: set<Id>, threads: map<nat, Thread>, issued: set<Issue>)

  datatype Action =
    | StartCreate(t: nat, namespace: string, labelSelector: string, pods: seq<Pod>)
    | LookUp(t: nat, id: Id)
    | Snapshot(t: nat)
    | StartEvent(t: nat, pod: Pod, matched: seq<Id>)
    /** The thread's next agent call: how SetTime, and Inject if it is called, are answered. */
    | Ask(t: nat, retimed: SetAnswer, inject: Answer)
    /** The thread's last critical section for what it has asked. */
    | Conclude(t: nat, id: Id, target: int, freeze: bool, now: int, ttl: int)
    | Delete(id: Id)
    | SweepExpired(now: int)

  const INITIAL := State(map[], {}, map[], {})

  function Settle(s: State, t: nat, thread: Thread): State
  {
    s.(threads := s.threads[t := thread])
  }

  /** The thread asks for container j of the pod to be injected. */
  function Asked(s: State, pod: Pod, j: nat, inject: Answer): (r: (seq<ContainerHandle>, set<Issue>))
    requires j < |pod.statuses|
  {
    if Injectable(pod.statuses[j]) && inject.Issued?
    then ([HandleOf(pod, j, inject.handle)], s.issued + {Issue(pod.hostIP, pod.statuses[j].containerID, inject.handle)})
    else ([], s.issued)
  }

  function AfterAsk(s: State, t: nat, retimed: SetAnswer, inject: Answer): State
    requires t in s.threads
  {
    match s.threads[t]
    case Creating(ns, sel, pods, i, j, handles) =>
      if i >= |pods| then s
      else if j >= |pods[i].statuses| then Settle(s, t, Creating(ns, sel, pods, i + 1, 0, handles))
      else
        var (more, issued) := Asked(s, pods[i], j, inject);
        Settle(s, t, Creating(ns, sel, pods, i, j + 1, handles + more)).(issued := issued)
    case Found(_) => s
    case Updating(id, snapshot, next, updates) =>
      if next >= |snapshot| then s
      else if retimed.NotFound? && inject.Issued? then
        var h := snapshot[next];
        Settle(s, t, Updating(id, snapshot, next + 1, updates + [Update(next, inject.handle)]))
          .(issued := s.issued + {Issue(h.nodeIP, h.containerID, inject.handle)})
      else Settle(s, t, Updating(id, snapshot, next + 1, updates))
    case Watching(pod, matched, j, added) =>
      if matched == [] || j >= |pod.statuses| then s
      else
        var (more, issued) := Asked(s, pod, j, inject);
        Settle(s, t, Watching(pod, matched, j + 1, added + more)).(issued := issued)
  }

  function AfterConclude(s: State, t: nat, id: Id, target: int, freeze: bool, now: int, ttl: int): State
    requires t in s.threads && Sane(s.threads[t])
  {
    var done := s.threads - {t};
    match s.threads[t]
    case Creating(ns, sel, pods, i, _, handles) =>
      // newID is taken to be unused
      if i < |pods| || id in s.objects then s
      else if handles == [] then s.(threads := done)
      else s.(objects := s.objects[id := Created(ns, sel, target, freeze, now, ttl, handles)],
              active := s.active + {id}, threads := done)
    case Found(_) => s
    case Updating(at, snapshot, next, updates) =>
      if next < |snapshot| || at !in s.objects then s
      else
        var o := s.objects[at];
        s.(objects := s.objects[at := Retimed(o, target, freeze, now).(handles := Applied(o.handles, snapshot, updates))],
           threads := done)
    case Watching(pod, matched, j, added) =>
      if matched == [] then s.(threads := done)
      else if j < |pod.statuses| then s
      else
        var rest := Settle(s, t, Watching(pod, matched[1..], 0, []));
        if added == [] || matched[0] !in s.active || matched[0] !in s.objects then rest
        else
          var o := s.objects[matched[0]];
          rest.(objects := s.objects[matched[0] := o.(handles := Others(o.handles, pod.name) + added)])
  }

  /** What is needed for an update to be applied at all. */
  predicate Sane(th: Thread)
  {
    th.Updating? ==> forall u :: u in th.updates ==> u.idx < |th.snapshot|
  }

  /** An action that is not enabled changes nothing. */
  function Step(s: State, a: Action): State
  {
    match a
    case StartCreate(t, ns, sel, pods) => if t in s.threads then s else Settle(s, t, Creating(ns, sel, pods, 0, 0, []))
    case LookUp(t, id) => if t in s.threads || id !in s.active then s else Settle(s, t, Found(id))
    case Snapshot(t) =>
      if t in s.threads && s.threads[t].Found? && s.threads[t].id in s.objects
      then Settle(s, t, Updating(s.threads[t].id, s.objects[s.threads[t].id].handles, 0, []))
      else s
    case StartEvent(t, pod, matched) => if t in s.threads then s else Settle(s, t, Watching(pod, matched, 0, []))
    case Ask(t, retimed, inject) => if t in s.threads then AfterAsk(s, t, retimed, inject) else s
    case Conclude(t, id, target, freeze, now, ttl) =>
      if t in s.threads && Sane(s.threads[t]) then AfterConclude(s, t, id, target, freeze, now, ttl) else s
    case Delete(id) => s.(active := s.active - {id})
    case SweepExpired(now) => s.(active := set id | id in s.active && (id in s.objects ==> !Expired(s.objects[id], now)))
  }

  function Steps(s: State, run: seq<Action>): State
  {
    if run == [] then s else Step(Steps(s, run[..|run| - 1]), run[|run| - 1])
  }

  function Run(run: seq<Action>): State
  {
    Steps(INITIAL, run)
  }

  /** Some Inject for the container was answered with the handle. */
  predicate Answered(issued: set<Issue>, containerID: string, agentHandle: string)
  {
    exists i :: i in issued && i.containerID == containerID && i.agentHandle == agentHandle
  }

  predicate Backed(handles: seq<ContainerHandle>, issued: set<Issue>)
  {
    forall h :: h in handles ==> Answered(issued, h.containerID, h.agentHandle)
  }

  predicate ThreadBacked(th: Thread, issued: set<Issue>)
  {
    match th
    case Creating(_, _, _, _, _, handles) => Backed(handles, issued)
    case Found(_) => true
    case Updating(_, snapshot, _, updates) =>
      && Backed(snapshot, issued)
      && forall u :: u in updates ==> u.idx < |snapshot| && Answered(issued, snapshot[u.idx].containerID, u.newHandle)
    case Watching(_, _, _, added) => Backed(added, issued)
  }

  predicate AllBacked(s: State)
  {
    && (forall id :: id in s.objects ==> Backed(s.objects[id].handles, s.issued))
    && (forall t :: t in s.threads ==> ThreadBacked(s.threads[t], s.issued))
  }

  /** The entries an update writes are backed even if the list was rewritten after the snapshot. */
  lemma AppliedBacked(handles: seq<ContainerHandle>, snapshot: seq<ContainerHandle>, us: seq<Update>, issued: set<Issue>)
    requires Backed(handles, issued) && ThreadBacked(Updating("", snapshot, 0, us), issued)
    ensures Backed(Applied(handles, snapshot, us), issued)
  {
    var r := Applied(handles, snapshot, us);
    forall i | 0 <= i < |r|
      ensures Answered(issued, r[i].containerID, r[i].agentHandle)
    {
      AppliedEntry(handles, snapshot, us, i);
    }
  }

  lemma AskKeepsBacked(s: State, t: nat, retimed: SetAnswer, inject: Answer)
    requires AllBacked(s) && t in s.threads
    ensures AllBacked(AfterAsk(s, t, retimed, inject))
  {
    var r := AfterAsk(s, t, retimed, inject);
    assert s.issued <= r.issued;
    assert forall c, h :: Answered(s.issued, c, h) ==> Answered(r.issued, c, h);
    forall k | k in s.threads && k != t
      ensures ThreadBacked(r.threads[k], r.issued)
    {
      assert ThreadBacked(s.threads[k], s.issued);
    }
    assert ThreadBacked(s.threads[t], s.issued);
  }

  lemma ConcludeKeepsBacked(s: State, t: nat, id: Id, target: int, freeze: bool, now: int, ttl: int)
    requires AllBacked(s) && t in s.threads && Sane(s.threads[t])
    ensures AllBacked(AfterConclude(s, t, id, target, freeze, now, ttl))
  {
    var th := s.threads[t];
    match th
    case Creating(ns, sel, pods, i, _, handles) =>
    case Found(_) =>
    case Updating(at, snapshot, next, updates) =>
      if at in s.objects {
        AppliedBacked(s.objects[at].handles, snapshot, updates, s.issued);
      }
    case Watching(pod, matched, j, added) =>
      if matched != [] && matched[0] in s.objects {
        OthersMembers(s.objects[matched[0]].handles, pod.name);
      }
  }

  lemma StepKeepsBacked(s: State, a: Action)
    requires AllBacked(s)
    ensures AllBacked(Step(s, a))
  {
    match a
    case StartCreate(t, ns, sel, pods) =>
    case LookUp(t, id) =>
    case Snapshot(t) =>
    case StartEvent(t, pod, matched) =>
    case Ask(t, retimed, inject) => if t in s.threads { AskKeepsBacked(s, t, retimed, inject); }
    case Conclude(t, id, target, freeze, now, ttl) =>
      if t in s.threads && Sane(s.threads[t]) {
        ConcludeKeepsBacked(s, t, id, target, freeze, now, ttl);
      }
    case Delete(id) =>
    case SweepExpired(now) =>
  }

  /**
   After every interleaving, every entry of every timeshift, registered or already
   removed, carries a handle that an Inject for that entry's own container was
   answered with; and so does everything a thread has yet to apply.
   */
  lemma {:induction false} HandlesAreIssued(run: seq<Action>)
    ensures AllBacked(Run(run))
    ensures Run(run).active <= Run(run).objects.Keys
    ensures forall t :: t in Run(run).threads ==> Sane(Run(run).threads[t])
  {
    if run != [] {
      HandlesAreIssued(run[..|run| - 1]);
      StepKeepsBacked(Run(run[..|run| - 1]), run[|run| - 1]);
    }
  }

  /** host says on which node a container runs: container IDs are unique in the cluster. */
  predicate PodHosted(pod: Pod, host: string -> string)
  {
    forall cs :: cs in pod.statuses && Injectable(cs) ==> pod.hostIP == host(cs.containerID)
  }

  predicate ActionHosted(a: Action, host: string -> string)
  {
    match a
    case StartCreate(_, _, _, pods) => forall p :: p in pods ==> PodHosted(p, host)
    case StartEvent(_, pod, _) => PodHosted(pod, host)
    case _ => true
  }

  predicate Housed(handles: seq<ContainerHandle>, host: string -> string)
  {
    forall h :: h in handles ==> h.nodeIP == host(h.containerID)
  }

  predicate ThreadHoused(th: Thread, host: string -> string)
  {
    match th
    case Creating(_, _, pods, _, _, handles) => Housed(handles, host) && forall p :: p in pods ==> PodHosted(p, host)
    case Found(_) => true
    case Updating(_, snapshot, _, _) => Housed(snapshot, host)
    case Watching(pod, _, _, added) => Housed(added, host) && PodHosted(pod, host)
  }

  predicate AllHoused(s: State, host: string -> string)
  {
    && (forall id :: id in s.objects ==> Housed(s.objects[id].handles, host))
    && (forall t :: t in s.threads ==> ThreadHoused(s.threads[t], host))
    && (forall i :: i in s.issued ==> i.nodeIP == host(i.containerID))
  }

  lemma StepKeepsHoused(s: State, a: Action, host: string -> string)
    requires AllHoused(s, host) && ActionHosted(a, host)
    ensures AllHoused(Step(s, a), host)
  {
    match a
    case StartCreate(t, ns, sel, pods) =>
    case LookUp(t, id) =>
    case Snapshot(t) =>
    case StartEvent(t, pod, matched) =>
    case Ask(t, retimed, inject) =>
      if t in s.threads {
        AskKeepsHoused(s, t, retimed, inject, host);
      }
    case Conclude(t, id, target, freeze, now, ttl) =>
      if t in s.threads && Sane(s.threads[t]) {
        ConcludeKeepsHoused(s, t, id, target, freeze, now, ttl, host);
      }
    case Delete(id) =>
    case SweepExpired(now) =>
  }

  lemma AskKeepsHoused(s: State, t: nat, retimed: SetAnswer, inject: Answer, host: string -> string)
    requires AllHoused(s, host) && t in s.threads
    ensures AllHoused(AfterAsk(s, t, retimed, inject), host)
  {
    assert ThreadHoused(s.threads[t], host);
    var r := AfterAsk(s, t, retimed, inject);
    assert r.objects == s.objects;
    assert forall k :: k in s.threads && k != t ==> r.threads[k] == s.threads[k];
    match s.threads[t]
    case Creating(ns, sel, pods, i, j, handles) =>
      if i < |pods| && j < |pods[i].statuses| {
        assert pods[i] in pods;
        AskedHoused(s, pods[i], j, inject, host);
      }
    case Found(_) =>
    case Updating(id, snapshot, next, updates) =>
      assert next < |snapshot| ==> snapshot[next] in snapshot;
    case Watching(pod, matched, j, added) =>
      if j < |pod.statuses| {
        AskedHoused(s, pod, j, inject, host);
      }
  }

  lemma AskedHoused(s: State, pod: Pod, j: nat, inject: Answer, host: string -> string)
    requires j < |pod.statuses| && PodHosted(pod, host) && forall i :: i in s.issued ==> i.nodeIP == host(i.containerID)
    ensures Housed(Asked(s, pod, j, inject).0, host)
    ensures forall i :: i in Asked(s, pod, j, inject).1 ==> i.nodeIP == host(i.containerID)
  {
    assert pod.statuses[j] in pod.statuses;
  }

  lemma ConcludeKeepsHoused(s: State, t: nat, id: Id, target: int, freeze: bool, now: int, ttl: int, host: string -> string)
    requires AllHoused(s, host) && t in s.threads && Sane(s.threads[t])
    ensures AllHoused(AfterConclude(s, t, id, target, freeze, now, ttl), host)
  {
    assert ThreadHoused(s.threads[t], host);
    match s.threads[t]
    case Creating(ns, sel, pods, i, _, handles) =>
    case Found(_) =>
    case Updating(at, snapshot, next, updates) =>
      if at in s.objects {
        var handles := s.objects[at].handles;
        forall i | 0 <= i < |handles|
          ensures Applied(handles, snapshot, updates)[i].nodeIP == host(Applied(handles, snapshot, updates)[i].containerID)
        {
          AppliedEntry(handles, snapshot, updates, i);
          assert handles[i] in handles;
        }
      }
    case Watching(pod, matched, j, added) =>
      if matched != [] && matched[0] in s.objects {
        OthersMembers(s.objects[matched[0]].handles, pod.name);
      }
  }

  /** If a container ID names its node, every handle was issued by the very agent that the entry addresses. */
  lemma {:induction false} HandlesAreIssuedOnTheirNode(run: seq<Action>, host: string -> string, id: Id, h: ContainerHandle)
    requires forall a :: a in run ==> ActionHosted(a, host)
    requires id in Run(run).objects && h in Run(run).objects[id].handles
    ensures Issue(h.nodeIP, h.containerID, h.agentHandle) in Run(run).issued
  {
    HandlesAreIssued(run);
    RunHoused(run, host);
    assert Backed(Run(run).objects[id].handles, Run(run).issued);
    var i :| i in Run(run).issued && i.containerID == h.containerID && i.agentHandle == h.agentHandle;
  }

  lemma {:induction false} RunHoused(run: seq<Action>, host: string -> string)
    requires forall a :: a in run ==> ActionHosted(a, host)
    ensures AllHoused(Run(run), host)
  {
    if run != [] {
      RunHoused(run[..|run| - 1], host);
      StepKeepsHoused(Run(run[..|run| - 1]), run[|run| - 1], host);
    }
  }

  /** The first n agent calls of an update that answers as sets and injects say. */
  function Asks(t: nat, sets: nat -> SetAnswer, injects: nat -> Answer, n: nat): seq<Action>
  {
    if n == 0 then [] else Asks(t, sets, injects, n - 1) + [Ask(t, sets(n - 1), injects(n - 1))]
  }

  lemma {:induction false} AsksReissue(s: State, t: nat, id: Id, sets: nat -> SetAnswer, injects: nat -> Answer,
                                       snapshot: seq<ContainerHandle>, n: nat)
    requires t in s.threads && s.threads[t] == Updating(id, snapshot, 0, []) && n <= |snapshot|
    ensures var r := Steps(s, Asks(t, sets, injects, n));
            && r.objects == s.objects && r.active == s.active
            && r.threads == s.threads[t := Updating(id, snapshot, n, Reissued(sets, injects, n))]
  {
    hide Steps, Step, Reissued, Asks;
    if n > 0 {
      AsksReissue(s, t, id, sets, injects, snapshot, n - 1);
      var before, a := Steps(s, Asks(t, sets, injects, n - 1)), Ask(t, sets(n - 1), injects(n - 1));
      AsksOneMore(t, sets, injects, n);
      StepsLast(s, Asks(t, sets, injects, n - 1), a);
      AskOnce(before, t, sets(n - 1), injects(n - 1));
    } else {
      NothingAsked(s, t, sets, injects);
      assert s.threads == s.threads[t := Updating(id, snapshot, 0, [])];
    }
  }

  lemma NothingAsked(s: State, t: nat, sets: nat -> SetAnswer, injects: nat -> Answer)
    ensures Steps(s, Asks(t, sets, injects, 0)) == s && Reissued(sets, injects, 0) == []
  {
  }

  lemma AsksOneMore(t: nat, sets: nat -> SetAnswer, injects: nat -> Answer, n: nat)
    requires n > 0
    ensures Asks(t, sets, injects, n) == Asks(t, sets, injects, n - 1) + [Ask(t, sets(n - 1), injects(n - 1))]
    ensures Reissued(sets, injects, n) == Reissued(sets, injects, n - 1) +
      if sets(n - 1).NotFound? && injects(n - 1).Issued? then [Update(n - 1, injects(n - 1).handle)] else []
  {
  }

  lemma AskOnce(s: State, t: nat, retimed: SetAnswer, inject: Answer)
    requires t in s.threads && s.threads[t].Updating? && s.threads[t].next < |s.threads[t].snapshot|
    ensures
      var th := s.threads[t];
      var r := Step(s, Ask(t, retimed, inject));
      var more := if retimed.NotFound? && inject.Issued? then [Update(th.next, inject.handle)] else [];
      && r.objects == s.objects && r.active == s.active
      && r.threads == s.threads[t := Updating(th.id, th.snapshot, th.next + 1, th.updates + more)]
  {
    var us := s.threads[t].updates;
    assert us + [] == us;
  }

  lemma StepsLast(s: State, run: seq<Action>, a: Action)
    ensures Steps(s, run + [a]) == Step(Steps(s, run), a)
  {
    assert (run + [a])[..|run|] == run;
  }

  /** An update that no other thread interrupts is the whole-request update. */
  lemma UpdateAlone(s: State, t: nat, id: Id, target: int, freeze: bool, now: int,
                    sets: nat -> SetAnswer, injects: nat -> Answer)
    requires t !in s.threads && id in s.active && id in s.objects
    ensures
      var n := |s.objects[id].handles|;
      var r := Steps(s, [LookUp(t, id), Snapshot(t)] + Asks(t, sets, injects, n) + [Conclude(t, id, target, freeze, now, 0)]);
      && r.objects == After(s.objects, UpdateShift(id, target, freeze, now, sets, injects))
      && r.threads == s.threads && r.active == s.active
  {
    hide Steps, Step, Reissued, Asks, Applied, Retimed;
    var handles := s.objects[id].handles;
    var n := |handles|;
    var asks, last := Asks(t, sets, injects, n), Conclude(t, id, target, freeze, now, 0);
    var ready := Settle(s, t, Updating(id, handles, 0, []));
    Begins(s, t, id);
    StepsCompose(s, [LookUp(t, id), Snapshot(t)], asks);
    AsksReissue(ready, t, id, sets, injects, handles, n);
    StepsLast(s, [LookUp(t, id), Snapshot(t)] + asks, last);
    Ends(s, Steps(ready, asks), t, id, target, freeze, now, sets, injects);
  }

  lemma Begins(s: State, t: nat, id: Id)
    requires t !in s.threads && id in s.active && id in s.objects
    ensures Steps(s, [LookUp(t, id), Snapshot(t)]) == Settle(s, t, Updating(id, s.objects[id].handles, 0, []))
  {
    var front := [LookUp(t, id), Snapshot(t)];
    assert front[..1] == [LookUp(t, id)] && front[..1][..0] == [];
    assert Steps(s, front[..1]) == Settle(s, t, Found(id));
  }

  lemma Ends(s: State, asked: State, t: nat, id: Id, target: int, freeze: bool, now: int,
             sets: nat -> SetAnswer, injects: nat -> Answer)
    requires t !in s.threads && id in s.objects && asked.objects == s.objects && asked.active == s.active
    requires var handles := s.objects[id].handles;
             asked.threads == s.threads[t := Updating(id, handles, |handles|, Reissued(sets, injects, |handles|))]
    ensures var r := Step(asked, Conclude(t, id, target, freeze, now, 0));
            && r.objects == After(s.objects, UpdateShift(id, target, freeze, now, sets, injects))
            && r.threads == s.threads && r.active == s.active
  {
    assert asked.threads - {t} == s.threads;
  }

  lemma {:induction false} StepsCompose(s: State, a: seq<Action>, b: seq<Action>)
    ensures Steps(s, a + b) == Steps(Steps(s, a), b)
  {
    if b == [] {
      assert a + b == a;
    } else {
      StepsCompose(s, a, b[..|b| - 1]);
      assert (a + b)[..|a + b| - 1] == a + b[..|b| - 1];
    }
  }

  /** One container after the other, a watching thread collects what injecting the pod yields. */
  lemma {:induction false} AsksWatch(s: State, t: nat, pod: Pod, matched: seq<Id>, sets: nat -> SetAnswer,
                                     answers: nat -> Answer, n: nat)
    requires t in s.threads && s.threads[t] == Watching(pod, matched, 0, []) && matched != [] && n <= |pod.statuses|
    ensures var r := Steps(s, Asks(t, sets, answers, n));
            && r.objects == s.objects && r.active == s.active
            && r.threads == s.threads[t := Watching(pod, matched, n, Injected(pod, answers, n))]
  {
    hide Steps, Step, Injected, Asks;
    if n > 0 {
      AsksWatch(s, t, pod, matched, sets, answers, n - 1);
      AsksOneMore(t, sets, answers, n);
      InjectedOneMore(pod, answers, n);
      StepsLast(s, Asks(t, sets, answers, n - 1), Ask(t, sets(n - 1), answers(n - 1)));
      WatchOnce(Steps(s, Asks(t, sets, answers, n - 1)), t, sets(n - 1), answers(n - 1));
    } else {
      NothingAsked(s, t, sets, answers);
      NothingInjected(pod, answers);
      assert s.threads == s.threads[t := Watching(pod, matched, 0, [])];
    }
  }

  /** So does a creating thread, for the pod it is at. */
  lemma {:induction false} AsksCreate(s: State, t: nat, th: Thread, sets: nat -> SetAnswer, answers: nat -> Answer, n: nat)
    requires t in s.threads && s.threads[t] == th && th.Creating? && th.i < |th.pods| && th.j == 0
    requires n <= |th.pods[th.i].statuses|
    ensures var r := Steps(s, Asks(t, sets, answers, n));
            && r.objects == s.objects && r.active == s.active
            && r.threads == s.threads[t := th.(j := n, handles := th.handles + Injected(th.pods[th.i], answers, n))]
  {
    hide Steps, Step, Injected, Asks;
    var pod := th.pods[th.i];
    if n > 0 {
      AsksCreate(s, t, th, sets, answers, n - 1);
      AsksOneMore(t, sets, answers, n);
      InjectedOneMore(pod, answers, n);
      StepsLast(s, Asks(t, sets, answers, n - 1), Ask(t, sets(n - 1), answers(n - 1)));
      CreateOnce(Steps(s, Asks(t, sets, answers, n - 1)), t, sets(n - 1), answers(n - 1));
      assert th.handles + Injected(pod, answers, n - 1) + One(pod, n - 1, answers(n - 1))
        == th.handles + Injected(pod, answers, n);
    } else {
      NothingAsked(s, t, sets, answers);
      NothingInjected(pod, answers);
      assert th.handles + [] == th.handles;
      assert s.threads == s.threads[t := th];
    }
  }

  /** The handle of one container, if it is injectable and the agent accepts. */
  function One(pod: Pod, j: nat, answer: Answer): seq<ContainerHandle>
    requires j < |pod.statuses|
  {
    if Injectable(pod.statuses[j]) && answer.Issued? then [HandleOf(pod, j, answer.handle)] else []
  }

  lemma InjectedOneMore(pod: Pod, answers: nat -> Answer, n: nat)
    requires 0 < n <= |pod.statuses|
    ensures Injected(pod, answers, n) == Injected(pod, answers, n - 1) + One(pod, n - 1, answers(n - 1))
  {
  }

  lemma NothingInjected(pod: Pod, answers: nat -> Answer)
    ensures Injected(pod, answers, 0) == []
  {
  }

  lemma WatchOnce(s: State, t: nat, retimed: SetAnswer, inject: Answer)
    requires t in s.threads && s.threads[t].Watching?
    requires s.threads[t].matched != [] && s.threads[t].j < |s.threads[t].pod.statuses|
    ensures
      var th := s.threads[t];
      var r := Step(s, Ask(t, retimed, inject));
      && r.objects == s.objects && r.active == s.active
      && r.threads == s.threads[t := th.(j := th.j + 1, added := th.added + One(th.pod, th.j, inject))]
  {
  }

  lemma CreateOnce(s: State, t: nat, retimed: SetAnswer, inject: Answer)
    requires t in s.threads && s.threads[t].Creating? && s.threads[t].i < |s.threads[t].pods|
    requires s.threads[t].j < |s.threads[t].pods[s.threads[t].i].statuses|
    ensures
      var th := s.threads[t];
      var r := Step(s, Ask(t, retimed, inject));
      && r.objects == s.objects && r.active == s.active
      && r.threads == s.threads[t := th.(j := th.j + 1, handles := th.handles + One(th.pods[th.i], th.j, inject))]
  {
  }

  /** A pod event for one timeshift, which no other thread interrupts, leaves what refreshing it leaves. */
  lemma EventAlone(s: State, t: nat, id: Id, pod: Pod, sets: nat -> SetAnswer, answers: nat -> Answer, end: Action)
    requires t !in s.threads && id in s.active && id in s.objects && end.Conclude? && end.t == t
    ensures
      var n := |pod.statuses|;
      var r := Steps(s, [StartEvent(t, pod, [id])] + Asks(t, sets, answers, n) + [end] + [end]);
      && r.objects == s.objects[id := PodEvents.Refreshed(s.objects[id], pod, answers)]
      && r.threads == s.threads && r.active == s.active
  {
    hide Steps, Step, Injected, Asks, Others;
    var n := |pod.statuses|;
    var asks := Asks(t, sets, answers, n);
    var ready := Settle(s, t, Watching(pod, [id], 0, []));
    StepsOne(s, StartEvent(t, pod, [id]));
    StartsWatching(s, t, id, pod);
    StepsCompose(s, [StartEvent(t, pod, [id])], asks);
    AsksWatch(ready, t, pod, [id], sets, answers, n);
    StepsLast(s, [StartEvent(t, pod, [id])] + asks, end);
    StepsLast(s, [StartEvent(t, pod, [id])] + asks + [end], end);
    WatchEnds(s, Steps(ready, asks), t, id, pod, answers, end);
  }

  lemma StepsOne(s: State, a: Action)
    ensures Steps(s, [a]) == Step(s, a)
  {
    assert [a][..0] == [];
  }

  lemma StartsWatching(s: State, t: nat, id: Id, pod: Pod)
    requires t !in s.threads
    ensures Step(s, StartEvent(t, pod, [id])) == Settle(s, t, Watching(pod, [id], 0, []))
  {
  }

  lemma WatchEnds(s: State, asked: State, t: nat, id: Id, pod: Pod, answers: nat -> Answer, end: Action)
    requires t !in s.threads && id in s.active && id in s.objects && end.Conclude? && end.t == t
    requires asked.objects == s.objects && asked.active == s.active
    requires asked.threads == s.threads[t := Watching(pod, [id], |pod.statuses|, Injected(pod, answers, |pod.statuses|))]
    ensures var r := Step(Step(asked, end), end);
            && r.objects == s.objects[id := PodEvents.Refreshed(s.objects[id], pod, answers)]
            && r.threads == s.threads && r.active == s.active
  {
    hide Injected, Others;
    var once := Step(asked, end);
    assert [id][1..] == [];
    assert once.threads == s.threads[t := Watching(pod, [], 0, [])];
    assert once.threads - {t} == s.threads;
    assert s.objects == s.objects[id := s.objects[id]];
  }

  /** The agent calls of a create for its first n pods; one more look finds that the pod is done. */
  function CreateAsks(t: nat, c: Create, sets: nat -> SetAnswer, n: nat): seq<Action>
    requires n <= |c.pods|
  {
    if n == 0 then []
    else
      CreateAsks(t, c, sets, n - 1)
      + (Asks(t, sets, c.answers(n - 1), |c.pods[n - 1].statuses|) + [Ask(t, TimeSet, Refused)])
  }

  function CreatingAt(c: Create, n: nat): Thread
    requires n <= |c.pods|
  {
    Creating(c.namespace, c.labelSelector, c.pods, n, 0, InjectedAll(c.pods, c.answers, n))
  }

  lemma {:induction false} CreateAsksAll(s: State, t: nat, c: Create, sets: nat -> SetAnswer, n: nat)
    requires t in s.threads && s.threads[t] == CreatingAt(c, 0) && n <= |c.pods|
    ensures var r := Steps(s, CreateAsks(t, c, sets, n));
            && r.objects == s.objects && r.active == s.active && r.threads == s.threads[t := CreatingAt(c, n)]
  {
    hide Steps, Step, Injected, Asks;
    if n > 0 {
      CreateAsksAll(s, t, c, sets, n - 1);
      var before := Steps(s, CreateAsks(t, c, sets, n - 1));
      var asks := Asks(t, sets, c.answers(n - 1), |c.pods[n - 1].statuses|);
      StepsCompose(s, CreateAsks(t, c, sets, n - 1), asks + [Ask(t, TimeSet, Refused)]);
      AsksCreate(before, t, CreatingAt(c, n - 1), sets, c.answers(n - 1), |c.pods[n - 1].statuses|);
      StepsLast(before, asks, Ask(t, TimeSet, Refused));
      NextPod(Steps(before, asks), t);
    } else {
      NothingAsked(s, t, sets, c.answers(0));
      StepsNone(s);
      assert s.threads == s.threads[t := CreatingAt(c, 0)];
    }
  }

  lemma StepsNone(s: State)
    ensures Steps(s, []) == s
  {
  }

  lemma NextPod(s: State, t: nat)
    requires t in s.threads && s.threads[t].Creating? && s.threads[t].i < |s.threads[t].pods|
    requires s.threads[t].j == |s.threads[t].pods[s.threads[t].i].statuses|
    ensures var th := s.threads[t];
      Step(s, Ask(t, TimeSet, Refused)) == Settle(s, t, th.(i := th.i + 1, j := 0))
  {
  }

  /** A create that passed the check, and that no other thread interrupts, is the whole-request create. */
  lemma CreateAlone(s: State, t: nat, c: Create, sets: nat -> SetAnswer)
    requires t !in s.threads && c.id !in s.objects && AllFree(s.objects, c.namespace, c.pods)
    ensures
      var start := StartCreate(t, c.namespace, c.labelSelector, c.pods);
      var end := Conclude(t, c.id, c.target, c.freeze, c.now, c.ttl);
      var r := Steps(s, [start] + CreateAsks(t, c, sets, |c.pods|) + [end]);
      && r.objects == After(s.objects, CreateShift(c)) && r.threads == s.threads
      && r.active == if c.id in r.objects then s.active + {c.id} else s.active
  {
    hide Steps, Step, InjectedAll, CreateAsks, Created, AllFree;
    var start := StartCreate(t, c.namespace, c.labelSelector, c.pods);
    var end := Conclude(t, c.id, c.target, c.freeze, c.now, c.ttl);
    var asks := CreateAsks(t, c, sets, |c.pods|);
    var ready := Settle(s, t, CreatingAt(c, 0));
    StepsOne(s, start);
    StartsCreating(s, t, c);
    StepsCompose(s, [start], asks);
    CreateAsksAll(ready, t, c, sets, |c.pods|);
    StepsLast(s, [start] + asks, end);
    CreateEnds(s, Steps(ready, asks), t, c);
  }

  lemma StartsCreating(s: State, t: nat, c: Create)
    requires t !in s.threads
    ensures Step(s, StartCreate(t, c.namespace, c.labelSelector, c.pods)) == Settle(s, t, CreatingAt(c, 0))
  {
  }

  lemma CreateEnds(s: State, asked: State, t: nat, c: Create)
    requires t !in s.threads && c.id !in s.objects && AllFree(s.objects, c.namespace, c.pods)
    requires asked.objects == s.objects && asked.active == s.active
    requires asked.threads == s.threads[t := CreatingAt(c, |c.pods|)]
    ensures var r := Step(asked, Conclude(t, c.id, c.target, c.freeze, c.now, c.ttl));
            && r.objects == After(s.objects, CreateShift(c)) && r.threads == s.threads
            && r.active == if c.id in r.objects then s.active + {c.id} else s.active
  {
    hide InjectedAll, AllFree;
    assert asked.threads - {t} == s.threads;
  }

  /** What the registry holds: the objects it still refers to. */
  function Registered(s: State): Shifts
  {
    map id | id in s.active && id in s.objects :: s.objects[id]
  }

  /** Deletes and sweeps take out of the registry what the whole requests do, and touch no object and no thread. */
  lemma RemovalsAlone(s: State, id: Id, now: int)
    ensures
      var d, e := Step(s, Delete(id)), Step(s, SweepExpired(now));
      && Registered(d) == After(Registered(s), DeleteShift(id)) && Registered(e) == After(Registered(s), Sweep(now))
      && d.objects == e.objects == s.objects && d.threads == e.threads == s.threads
  {
    var d, e := Step(s, Delete(id)), Step(s, SweepExpired(now));
    forall k
      ensures k in Registered(d) <==> k in Registered(s) - {id}
      ensures k in Registered(e) <==> k in Unexpired(Registered(s), now)
    {
    }
  }
}
