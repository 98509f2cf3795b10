/** One container, one active timeshift: the conflict check and what keeps it (cmd/controller/controller.go). */
module Conflicts {
  import opened Registry

  datatype Container = Container(namespace: string, pod: string, name: string)

  /** The map key of the conflict check. */
  function Key(c: Container): string
  {
    c.namespace + "\0" + c.pod + "\0" + c.name
  }

  predicate NulFree(s: string)
  {
    '\0' !in s
  }

  /** A joined pair splits at the first NUL in one way. */
  lemma JoinInjective(a: string, b: string, c: string, d: string)
    requires NulFree(a) && NulFree(c) && a + "\0" + b == c + "\0" + d
    ensures a == c && b == d
  {
    var l, r := a + "\0" + b, c + "\0" + d;
    assert l[|a|] == '\0' && r[|c|] == '\0';
    assert a == l[..|a|] && c == r[..|c|] && b == l[|a| + 1..] && d == r[|c| + 1..];
  }

  /** The key identifies the container if namespace and pod name hold no NUL; the container name may. */
  lemma KeyInjective(c: Container, d: Container)
    requires NulFree(c.namespace) && NulFree(c.pod) && NulFree(d.namespace) && NulFree(d.pod)
    ensures Key(c) == Key(d) <==> c == d
  {
    if Key(c) == Key(d) {
      assert Key(c) == c.namespace + "\0" + (c.pod + "\0" + c.name);
      assert Key(d) == d.namespace + "\0" + (d.pod + "\0" + d.name);
      JoinInjective(c.namespace, c.pod + "\0" + c.name, d.namespace, d.pod + "\0" + d.name);
      JoinInjective(c.pod, c.name, d.pod, d.name);
    }
  }

  /** With a NUL in a namespace or a pod name two containers share a key. */
  lemma KeysCanCollide(a: string, b: string, c: string, d: string)
    ensures Key(Container(a + "\0" + b, c, d)) == Key(Container(a, b + "\0" + c, d))
    ensures Container(a + "\0" + b, c, d) != Container(a, b + "\0" + c, d)
  {
    assert Key(Container(a + "\0" + b, c, d)) == Key(Container(a, b + "\0" + c, d));
    assert |a + "\0" + b| > |a|;
  }

  predicate Holds(s: Shift, c: Container)
  {
    s.namespace == c.namespace && exists h :: h in s.handles && h.pod == c.pod && h.container == c.name
  }

  /** No container is held by two active timeshifts. */
  ghost predicate ConflictFree(shifts: Shifts)
  {
    forall i, j, c :: i in shifts && j in shifts && Holds(shifts[i], c) && Holds(shifts[j], c) ==> i == j
  }

  ghost predicate HoldsKey(s: Shift, key: string)
  {
    exists h :: h in s.handles && Key(Container(s.namespace, h.pod, h.container)) == key
  }

  /** occupied maps exactly the keys of held containers, each to a timeshift that holds it. */
  ghost predicate Indexes(occupied: map<string, Id>, shifts: Shifts)
  {
    && (forall k :: k in occupied ==> occupied[k] in shifts && HoldsKey(shifts[occupied[k]], k))
    && (forall id, k :: id in shifts && HoldsKey(shifts[id], k) ==> k in occupied)
  }

  /** Names as Kubernetes allows them. */
  ghost predicate Named(s: Shift)
  {
    NulFree(s.namespace) && forall h :: h in s.handles ==> NulFree(h.pod)
  }

  lemma HoldsKeyIff(s: Shift, c: Container)
    requires Named(s) && NulFree(c.namespace) && NulFree(c.pod)
    ensures HoldsKey(s, Key(c)) <==> Holds(s, c)
  {
    forall h | h in s.handles
      ensures Key(Container(s.namespace, h.pod, h.container)) == Key(c) <==> Container(s.namespace, h.pod, h.container) == c
    {
      KeyInjective(Container(s.namespace, h.pod, h.container), c);
    }
  }

  /** The check finds a container in the map exactly when a timeshift holds that container. */
  lemma OccupiedIff(occupied: map<string, Id>, shifts: Shifts, c: Container)
    requires Indexes(occupied, shifts) && (forall id :: id in shifts ==> Named(shifts[id]))
    requires NulFree(c.namespace) && NulFree(c.pod)
    ensures Key(c) in occupied <==> !Free(shifts, c)
    ensures Key(c) in occupied ==> Holds(shifts[occupied[Key(c)]], c)
  {
    forall id | id in shifts
      ensures HoldsKey(shifts[id], Key(c)) <==> Holds(shifts[id], c)
    {
      HoldsKeyIff(shifts[id], c);
    }
  }

  ghost predicate Free(shifts: Shifts, c: Container)
  {
    forall id :: id in shifts ==> !Holds(shifts[id], c)
  }

  /** No container that injection would take is held. */
  ghost predicate AllFree(shifts: Shifts, ns: string, pods: seq<Pod>)
  {
    forall i, j :: 0 <= i < |pods| && 0 <= j < |pods[i].statuses| && Injectable(pods[i].statuses[j]) ==>
      Free(shifts, Container(ns, pods[i].name, pods[i].statuses[j].name))
  }

  /** A conflicting container and a timeshift that holds it. */
  datatype Entry = Entry(pod: string, container: string, timeshift: Id)

  predicate Wants(pods: seq<Pod>, pod: string, container: string)
  {
    exists i, j :: 0 <= i < |pods| && 0 <= j < |pods[i].statuses| && Injectable(pods[i].statuses[j])
                   && pods[i].name == pod && pods[i].statuses[j].name == container
  }

  lemma WantsOneMorePod(pods: seq<Pod>, n: nat)
    requires n < |pods|
    ensures forall p, c :: Wants(pods[..n + 1], p, c) <==> Wants(pods[..n], p, c) || Wants([pods[n]], p, c)
  {
    forall p, c
      ensures Wants(pods[..n + 1], p, c) <==> Wants(pods[..n], p, c) || Wants([pods[n]], p, c)
    {
      if Wants(pods[..n], p, c) {
        var i, j :| 0 <= i < n && 0 <= j < |pods[..n][i].statuses| && Injectable(pods[..n][i].statuses[j])
          && pods[..n][i].name == p && pods[..n][i].statuses[j].name == c;
        assert pods[..n + 1][i] == pods[..n][i];
      }
      if Wants([pods[n]], p, c) {
        assert pods[..n + 1][n] == pods[n];
      }
      if Wants(pods[..n + 1], p, c) {
        var i, j :| 0 <= i < n + 1 && 0 <= j < |pods[..n + 1][i].statuses| && Injectable(pods[..n + 1][i].statuses[j])
          && pods[..n + 1][i].name == p && pods[..n + 1][i].statuses[j].name == c;
        assert i < n ==> pods[..n][i] == pods[..n + 1][i];
        assert i == n ==> [pods[n]][0] == pods[..n + 1][i];
      }
    }
  }

  function Cut(pod: Pod, n: nat): Pod
    requires n <= |pod.statuses|
  {
    pod.(statuses := pod.statuses[..n])
  }

  lemma WantsOneMoreContainer(pod: Pod, n: nat)
    requires n < |pod.statuses|
    ensures forall p, c :: Wants([Cut(pod, n + 1)], p, c) <==>
      Wants([Cut(pod, n)], p, c) || (Injectable(pod.statuses[n]) && p == pod.name && c == pod.statuses[n].name)
  {
    forall p, c
      ensures Wants([Cut(pod, n + 1)], p, c) <==>
        Wants([Cut(pod, n)], p, c) || (Injectable(pod.statuses[n]) && p == pod.name && c == pod.statuses[n].name)
    {
      WantsOf(Cut(pod, n), p, c);
      WantsOf(Cut(pod, n + 1), p, c);
      assert pod.statuses[..n + 1] == pod.statuses[..n] + [pod.statuses[n]];
    }
  }

  lemma WantsOf(pod: Pod, p: string, c: string)
    ensures Wants([pod], p, c) <==> pod.name == p && exists cs :: cs in pod.statuses && Injectable(cs) && cs.name == c
  {
    if pod.name == p && exists cs :: cs in pod.statuses && Injectable(cs) && cs.name == c {
      var j :| 0 <= j < |pod.statuses| && Injectable(pod.statuses[j]) && pod.statuses[j].name == c;
      assert [pod][0].statuses[j].name == c;
    }
  }

  /** entries names every held container among those that injection would take, and nothing else. */
  ghost predicate Reported(entries: seq<Entry>, shifts: Shifts, ns: string, pods: seq<Pod>)
  {
    && (forall e :: e in entries ==>
          && e.timeshift in shifts && Holds(shifts[e.timeshift], Container(ns, e.pod, e.container))
          && Wants(pods, e.pod, e.container))
    && (forall pod, container :: Wants(pods, pod, container) && !Free(shifts, Container(ns, pod, container)) ==>
          exists e :: e in entries && e.pod == pod && e.container == container)
  }

  lemma ReportedNone(shifts: Shifts, ns: string, pod: Pod)
    ensures Reported([], shifts, ns, [Cut(pod, 0)])
  {
  }

  /** One more container: an entry is due exactly if it is injectable and held. */
  lemma ReportedNext(entries: seq<Entry>, shifts: Shifts, ns: string, pod: Pod, n: nat)
    requires n < |pod.statuses| && Reported(entries, shifts, ns, [Cut(pod, n)])
    ensures
      var cs := pod.statuses[n];
      var c := Container(ns, pod.name, cs.name);
      && (!Injectable(cs) || Free(shifts, c) ==> Reported(entries, shifts, ns, [Cut(pod, n + 1)]))
      && (forall id :: Injectable(cs) && id in shifts && Holds(shifts[id], c) ==>
            Reported(entries + [Entry(pod.name, cs.name, id)], shifts, ns, [Cut(pod, n + 1)]))
  {
    hide Wants, Holds;
    WantsOneMoreContainer(pod, n);
    var cs := pod.statuses[n];
    forall id | Injectable(cs) && id in shifts && Holds(shifts[id], Container(ns, pod.name, cs.name))
      ensures Reported(entries + [Entry(pod.name, cs.name, id)], shifts, ns, [Cut(pod, n + 1)])
    {
      var more := entries + [Entry(pod.name, cs.name, id)];
      assert Entry(pod.name, cs.name, id) in more;
      forall e | e in entries
        ensures e in more
      {
      }
    }
  }

  /** The check passes exactly when no container that injection would take is held. */
  lemma ReportedNothingIff(entries: seq<Entry>, shifts: Shifts, ns: string, pods: seq<Pod>)
    requires Reported(entries, shifts, ns, pods)
    ensures entries == [] <==> AllFree(shifts, ns, pods)
  {
    if entries != [] {
      assert entries[0] in entries;
    } else {
      forall i, j | 0 <= i < |pods| && 0 <= j < |pods[i].statuses| && Injectable(pods[i].statuses[j])
        ensures Free(shifts, Container(ns, pods[i].name, pods[i].statuses[j].name))
      {
        assert Wants(pods, pods[i].name, pods[i].statuses[j].name);
      }
    }
  }

  /** Every handle of the first n pods; container j of pod i is answered by answers(i)(j). */
  function InjectedAll(pods: seq<Pod>, answers: nat -> nat -> Answer, n: nat): (r: seq<ContainerHandle>)
    requires n <= |pods|
  {
    if n == 0 then []
    else InjectedAll(pods, answers, n - 1) + Injected(pods[n - 1], answers(n - 1), |pods[n - 1].statuses|)
  }

  /** Injection takes no container that the conflict check did not look at. */
  lemma {:induction false} InjectedAreChecked(pods: seq<Pod>, answers: nat -> nat -> Answer, n: nat, h: ContainerHandle)
    requires n <= |pods| && h in InjectedAll(pods, answers, n)
    ensures exists i, j :: 0 <= i < n && 0 <= j < |pods[i].statuses| && Injectable(pods[i].statuses[j])
              && h.pod == pods[i].name && h.container == pods[i].statuses[j].name
  {
    var pod := pods[n - 1];
    if h in InjectedAll(pods, answers, n - 1) {
      InjectedAreChecked(pods, answers, n - 1, h);
    } else {
      InjectedExactly(pod, answers(n - 1), |pod.statuses|);
      var j :| 0 <= j < |pod.statuses| && Injectable(pod.statuses[j]) && answers(n - 1)(j).Issued?
        && h == HandleOf(pod, j, answers(n - 1)(j).handle);
      assert 0 <= n - 1 < n;
    }
  }

  /** Some container of the first n pods runs, has an ID and accepted, and h is its handle. */
  ghost predicate AcceptedSome(pods: seq<Pod>, answers: nat -> nat -> Answer, n: nat, h: ContainerHandle)
    requires n <= |pods|
  {
    exists i, j :: 0 <= i < n && 0 <= j < |pods[i].statuses| && Accepted(pods[i], answers(i), j, h)
  }

  /** The handles that injecting the pods yields. */
  lemma {:induction false} InjectedAllExactly(pods: seq<Pod>, answers: nat -> nat -> Answer, n: nat, h: ContainerHandle)
    requires n <= |pods|
    ensures h in InjectedAll(pods, answers, n) <==> AcceptedSome(pods, answers, n, h)
  {
    if n > 0 {
      var pod, a := pods[n - 1], answers(n - 1);
      InjectedAllExactly(pods, answers, n - 1, h);
      InjectedAccepted(pod, a, h);
      if h in Injected(pod, a, |pod.statuses|) {
        var j: nat :| j < |pod.statuses| && Accepted(pod, a, j, h);
        assert 0 <= n - 1 < n;
      }
    }
  }

  lemma InjectedAccepted(pod: Pod, answers: nat -> Answer, h: ContainerHandle)
    ensures h in Injected(pod, answers, |pod.statuses|) <==>
      exists j: nat :: j < |pod.statuses| && Accepted(pod, answers, j, h)
  {
    InjectedExactly(pod, answers, |pod.statuses|);
    if h in Injected(pod, answers, |pod.statuses|) {
      var j :| 0 <= j < |pod.statuses| && Injectable(pod.statuses[j]) && answers(j).Issued?
        && h == HandleOf(pod, j, answers(j).handle);
      assert Accepted(pod, answers, j, h);
    }
    if j: nat :| j < |pod.statuses| && Accepted(pod, answers, j, h) {
      assert Injectable(pod.statuses[j]) && h == HandleOf(pod, j, answers(j).handle);
    }
  }

  /** A create is refused exactly if some container that runs and has an ID is held by a registered timeshift. */
  lemma RefusedIff(shifts: Shifts, ns: string, pods: seq<Pod>)
    ensures !AllFree(shifts, ns, pods) <==>
      exists i, j, id, h :: 0 <= i < |pods| && 0 <= j < |pods[i].statuses| && id in shifts && h in shifts[id].handles
        && pods[i].statuses[j].running && pods[i].statuses[j].containerID != ""
        && shifts[id].namespace == ns && h.pod == pods[i].name && h.container == pods[i].statuses[j].name
  {
    if !AllFree(shifts, ns, pods) {
      var i, j :| 0 <= i < |pods| && 0 <= j < |pods[i].statuses| && Injectable(pods[i].statuses[j])
        && !Free(shifts, Container(ns, pods[i].name, pods[i].statuses[j].name));
    }
  }

  /** A create registers nothing exactly if no container accepted, and otherwise one new shift with a handle for each that did. */
  lemma CreatedExactly(shifts: Shifts, c: Create)
    requires AllFree(shifts, c.namespace, c.pods)
    ensures var r := After(shifts, CreateShift(c));
      if exists h :: AcceptedSome(c.pods, c.answers, |c.pods|, h) then
        && c.id in r && r == shifts[c.id := r[c.id]]
        && r[c.id] == Created(c.namespace, c.labelSelector, c.target, c.freeze, c.now, c.ttl, r[c.id].handles)
        && forall h :: h in r[c.id].handles <==> AcceptedSome(c.pods, c.answers, |c.pods|, h)
      else r == shifts
  {
    hide AcceptedSome, InjectedAll;
    forall h
      ensures h in ShiftOf(c).handles <==> AcceptedSome(c.pods, c.answers, |c.pods|, h)
    {
      InjectedAllExactly(c.pods, c.answers, |c.pods|, h);
    }
    assert ShiftOf(c).handles != [] ==> ShiftOf(c).handles[0] in ShiftOf(c).handles;
  }

  /** The calls of a create that passed the check. */
  function CreateCalls(c: Create, n: nat): seq<Call>
    requires n <= |c.pods|
  {
    if n == 0 then []
    else CreateCalls(c, n - 1) + InjectCalls(c.pods[n - 1], c.target, c.freeze, |c.pods[n - 1].statuses|)
  }

  /** The calls from start on, up to end, are those that injecting the pod makes. */
  predicate MadeFor(calls: seq<Call>, start: nat, end: nat, pod: Pod, target: int, freeze: bool)
  {
    start <= end <= |calls| && calls[start..end] == InjectCalls(pod, target, freeze, |pod.statuses|)
  }

  /** f cuts the calls of a create into those of its pods, in order, each with the target and the mode asked for. */
  lemma {:induction false} CreateCallsInOrder(c: Create, n: nat) returns (f: seq<nat>)
    requires n <= |c.pods|
    ensures |f| == n + 1 && f[0] == 0 && f[n] == |CreateCalls(c, n)|
    ensures forall i {:trigger c.pods[i]} :: 0 <= i < n ==>
      MadeFor(CreateCalls(c, n), f[i], f[i + 1], c.pods[i], c.target, c.freeze)
  {
    if n == 0 {
      f := [0];
    } else {
      var front := CreateCallsInOrder(c, n - 1);
      var before, calls := CreateCalls(c, n - 1), CreateCalls(c, n);
      f := front + [|calls|];
      forall i {:trigger c.pods[i]} | 0 <= i < n
        ensures MadeFor(calls, f[i], f[i + 1], c.pods[i], c.target, c.freeze)
      {
        if i < n - 1 {
          assert MadeFor(before, front[i], front[i + 1], c.pods[i], c.target, c.freeze);
          assert calls[f[i]..f[i + 1]] == before[f[i]..f[i + 1]];
        }
      }
    }
  }

  datatype Create = Create(
    id: Id, namespace: string, labelSelector: string, pods: seq<Pod>, target: int, freeze: bool, now: int, ttl: int,
    answers: nat -> nat -> Answer)

  /** A request runs from its first read of the registry to its last write with no other request between. */
  datatype Request =
    | CreateShift(c: Create)
    | UpdateShift(id: Id, target: int, freeze: bool, now: int, sets: nat -> SetAnswer, injects: nat -> Answer)
    | DeleteShift(id: Id)
    | Sweep(now: int)

  function ShiftOf(c: Create): Shift
  {
    Created(c.namespace, c.labelSelector, c.target, c.freeze, c.now, c.ttl, InjectedAll(c.pods, c.answers, |c.pods|))
  }

  function UpdatedInPeace(s: Shift, target: int, freeze: bool, now: int,
                          sets: nat -> SetAnswer, injects: nat -> Answer): Shift
  {
    Retimed(s, target, freeze, now)
      .(handles := Applied(s.handles, s.handles, Reissued(sets, injects, |s.handles|)))
  }

  ghost function After(shifts: Shifts, r: Request): Shifts
  {
    match r
    case CreateShift(c) =>
      if AllFree(shifts, c.namespace, c.pods) && ShiftOf(c).handles != [] then shifts[c.id := ShiftOf(c)] else shifts
    case UpdateShift(id, target, freeze, now, sets, injects) =>
      if id in shifts then shifts[id := UpdatedInPeace(shifts[id], target, freeze, now, sets, injects)] else shifts
    case DeleteShift(id) => shifts - {id}
    case Sweep(now) => Unexpired(shifts, now)
  }

  lemma CreateKeepsConflictFree(shifts: Shifts, c: Create)
    requires ConflictFree(shifts) && AllFree(shifts, c.namespace, c.pods)
    ensures ConflictFree(shifts[c.id := ShiftOf(c)])
  {
    var s := ShiftOf(c);
    forall id, k | id in shifts && Holds(s, k)
      ensures !Holds(shifts[id], k)
    {
      var h :| h in s.handles && h.pod == k.pod && h.container == k.name;
      InjectedAreChecked(c.pods, c.answers, |c.pods|, h);
      var i, j :| 0 <= i < |c.pods| && 0 <= j < |c.pods[i].statuses| && Injectable(c.pods[i].statuses[j])
        && h.pod == c.pods[i].name && h.container == c.pods[i].statuses[j].name;
      assert Free(shifts, Container(c.namespace, c.pods[i].name, c.pods[i].statuses[j].name));
    }
  }

  /** An update retimes the shift and renews the agent handles of exactly the entries that were lost and re-injected. */
  lemma UpdatedEntries(s: Shift, target: int, freeze: bool, now: int, sets: nat -> SetAnswer, injects: nat -> Answer)
    ensures var r := UpdatedInPeace(s, target, freeze, now, sets, injects);
            && r == Retimed(s, target, freeze, now).(handles := r.handles) && |r.handles| == |s.handles|
            && forall i :: 0 <= i < |s.handles| ==>
                 r.handles[i] == if sets(i).NotFound? && injects(i).Issued?
                                 then s.handles[i].(agentHandle := injects(i).handle) else s.handles[i]
  {
    forall i | 0 <= i < |s.handles|
      ensures Applied(s.handles, s.handles, Reissued(sets, injects, |s.handles|))[i]
        == if sets(i).NotFound? && injects(i).Issued? then s.handles[i].(agentHandle := injects(i).handle) else s.handles[i]
    {
      AppliedInPeace(s.handles, sets, injects, |s.handles|, i);
    }
  }

  /** An update changes no holding. */
  lemma UpdateHolds(s: Shift, target: int, freeze: bool, now: int,
                    sets: nat -> SetAnswer, injects: nat -> Answer, k: Container)
    ensures Holds(UpdatedInPeace(s, target, freeze, now, sets, injects), k) == Holds(s, k)
  {
    var us := Reissued(sets, injects, |s.handles|);
    var t := Applied(s.handles, s.handles, us);
    forall i | 0 <= i < |t|
      ensures t[i].pod == s.handles[i].pod && t[i].container == s.handles[i].container
    {
      AppliedEntry(s.handles, s.handles, us, i);
    }
    if Holds(s, k) {
      var i :| 0 <= i < |t| && s.handles[i].pod == k.pod && s.handles[i].container == k.name;
      assert t[i] in t;
    }
  }

  /** Every whole request keeps the registry conflict-free. */
  lemma RequestKeepsConflictFree(shifts: Shifts, r: Request)
    requires ConflictFree(shifts)
    ensures ConflictFree(After(shifts, r))
  {
    match r
    case CreateShift(c) =>
      if AllFree(shifts, c.namespace, c.pods) && ShiftOf(c).handles != [] {
        CreateKeepsConflictFree(shifts, c);
      }
    case UpdateShift(id, target, freeze, now, sets, injects) =>
      if id in shifts {
        forall k
          ensures Holds(UpdatedInPeace(shifts[id], target, freeze, now, sets, injects), k) == Holds(shifts[id], k)
        {
          UpdateHolds(shifts[id], target, freeze, now, sets, injects, k);
        }
      }
    case DeleteShift(id) =>
    case Sweep(now) =>
  }

  ghost function AfterRun(shifts: Shifts, rs: seq<Request>): Shifts
  {
    if rs == [] then shifts else After(AfterRun(shifts, rs[..|rs| - 1]), rs[|rs| - 1])
  }

  /** Every registry that whole requests can reach is conflict-free. */
  lemma {:induction false} ReachableConflictFree(rs: seq<Request>)
    ensures ConflictFree(AfterRun(map[], rs))
  {
    if rs != [] {
      ReachableConflictFree(rs[..|rs| - 1]);
      RequestKeepsConflictFree(AfterRun(map[], rs[..|rs| - 1]), rs[|rs| - 1]);
    }
  }

  /** Kubernetes names only. */
  ghost predicate NamesAllowed(c: Create)
  {
    NulFree(c.namespace) && forall p :: p in c.pods ==> NulFree(p.name)
  }

  /** If every create uses allowed names, so does everything registered, and the key check stays exact. */
  lemma {:induction false} ReachableNamed(rs: seq<Request>)
    requires forall r :: r in rs && r.CreateShift? ==> NamesAllowed(r.c)
    ensures forall id :: id in AfterRun(map[], rs) ==> Named(AfterRun(map[], rs)[id])
  {
    if rs != [] {
      ReachableNamed(rs[..|rs| - 1]);
      var before, r := AfterRun(map[], rs[..|rs| - 1]), rs[|rs| - 1];
      match r
      case CreateShift(c) =>
        forall h | h in ShiftOf(c).handles
          ensures NulFree(h.pod)
        {
          InjectedAreChecked(c.pods, c.answers, |c.pods|, h);
        }
      case UpdateShift(id, target, freeze, now, sets, injects) =>
        if id in before {
          var s := before[id];
          var t := UpdatedInPeace(s, target, freeze, now, sets, injects);
          forall i | 0 <= i < |t.handles|
            ensures NulFree(t.handles[i].pod)
          {
            AppliedEntry(s.handles, s.handles, Reissued(sets, injects, |s.handles|), i);
            assert s.handles[i] in s.handles;
          }
        }
      case DeleteShift(id) =>
      case Sweep(now) =>
    }
  }

  /** Two shifts of free containers can stand side by side exactly when they hold nothing in common. */
  lemma SideBySideIff(shifts: Shifts, c: Create, d: Create)
    requires ConflictFree(shifts) && c.id != d.id && c.id !in shifts && d.id !in shifts
    requires AllFree(shifts, c.namespace, c.pods) && AllFree(shifts, d.namespace, d.pods)
    ensures ConflictFree(shifts[c.id := ShiftOf(c)][d.id := ShiftOf(d)])
      <==> forall k :: Holds(ShiftOf(c), k) ==> !Holds(ShiftOf(d), k)
  {
    var both := shifts[c.id := ShiftOf(c)][d.id := ShiftOf(d)];
    CreateKeepsConflictFree(shifts, c);
    CreateKeepsConflictFree(shifts, d);
    assert both[c.id] == ShiftOf(c) && both[d.id] == ShiftOf(d);
    assert forall id :: id in shifts ==> both[id] == shifts[id];
    var a, b := shifts[c.id := ShiftOf(c)], shifts[d.id := ShiftOf(d)];
    assert forall id :: id in shifts ==> a[id] == shifts[id] && b[id] == shifts[id];
    assert a[c.id] == both[c.id] && b[d.id] == both[d.id];
  }

  /**
   What the watcher's critical section does to one timeshift breaks
   conflict-freedom exactly when some other timeshift holds a container it adds.
   */
  lemma PodAdditionConflictFreeIff(shifts: Shifts, id: Id, pod: string, added: seq<ContainerHandle>)
    requires ConflictFree(shifts) && id in shifts && (forall h :: h in added ==> h.pod == pod)
    ensures ConflictFree(shifts[id := shifts[id].(handles := Others(shifts[id].handles, pod) + added)])
      <==> forall h :: h in added ==> Free(shifts - {id}, Container(shifts[id].namespace, pod, h.container))
  {
    var s := shifts[id];
    var t := s.(handles := Others(s.handles, pod) + added);
    var after := shifts[id := t];
    OthersMembers(s.handles, pod);
    assert forall k :: Holds(t, k) ==>
      Holds(s, k) || (k.namespace == s.namespace && exists h :: h in added && k == Container(s.namespace, pod, h.container));
    if ConflictFree(after) {
      forall h | h in added
        ensures Free(shifts - {id}, Container(s.namespace, pod, h.container))
      {
        assert h in t.handles;
        assert Holds(after[id], Container(s.namespace, pod, h.container));
        assert forall j :: j in shifts - {id} ==> after[j] == (shifts - {id})[j];
      }
    }
    if forall h :: h in added ==> Free(shifts - {id}, Container(s.namespace, pod, h.container)) {
      forall j, k | j in shifts && j != id && Holds(t, k)
        ensures !Holds(shifts[j], k)
      {
        assert (shifts - {id})[j] == shifts[j];
      }
    }
  }
}
