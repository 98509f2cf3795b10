/**
 Creates and pod events in the two steps they really take
 (cmd/controller/controller.go, cmd/controller/watcher.go): a create's conflict
 check and its registration, and a pod event's matching and its rewriting of a
 matched timeshift, are separate critical sections. Agents inject in between, and
 whatever other requests do falls in between.
 */
module Races {
  import opened Registry
  import opened Conflicts
  import opened PodEvents

  /** A create that has passed its check, or a pod event that has matched a timeshift, and has not written yet. */
  datatype Flight =
    | Creating(c: Create)
    | Refreshing(id: Id, pod: Pod, answers: nat -> Answer)

  datatype Sys = Sys(shifts: Shifts, flights: map<nat, Flight>)

  datatype Action =
    | Check(t: nat, c: Create)
    | Match(t: nat, id: Id, pod: Pod, selects: string -> bool, answers: nat -> Answer)
    | Finish(t: nat)
    | Other(r: Request)

  function Owner(f: Flight): Id
  {
    match f
    case Creating(c) => c.id
    case Refreshing(id, _, _) => id
  }

  /** There is a timeshift for the flight to write to; a timeshift's namespace never changes. */
  predicate Landable(shifts: Shifts, f: Flight)
  {
    f.Refreshing? ==> f.id in shifts && shifts[f.id].namespace == f.pod.namespace
  }

  function Landed(shifts: Shifts, f: Flight): Shifts
  {
    match f
    case Creating(c) => Added(shifts, c)
    case Refreshing(id, pod, answers) =>
      if Landable(shifts, f) then shifts[id := Refreshed(shifts[id], pod, answers)] else shifts
  }

  function Added(shifts: Shifts, c: Create): Shifts
  {
    if ShiftOf(c).handles == [] then shifts else shifts[c.id := ShiftOf(c)]
  }

  ghost function Step(s: Sys, a: Action): Sys
  {
    match a
    case Check(t, c) =>
      if t !in s.flights && AllFree(s.shifts, c.namespace, c.pods) then s.(flights := s.flights[t := Creating(c)]) else s
    case Match(t, id, pod, selects, answers) =>
      if t !in s.flights && id in s.shifts && pod.running && Matched(s.shifts[id], pod, selects)
      then s.(flights := s.flights[t := Refreshing(id, pod, answers)])
      else s
    case Finish(t) => if t in s.flights then Sys(Landed(s.shifts, s.flights[t]), s.flights - {t}) else s
    case Other(r) => if r.CreateShift? then s else s.(shifts := After(s.shifts, r))
  }

  ghost function Steps(s: Sys, run: seq<Action>): Sys
  {
    if run == [] then s else Step(Steps(s, run[..|run| - 1]), run[|run| - 1])
  }

  /** A create whose two steps nothing separates is the whole-request create. */
  lemma CreateAlone(s: Sys, t: nat, c: Create)
    requires t !in s.flights
    ensures Steps(s, [Check(t, c), Finish(t)]) == Sys(After(s.shifts, CreateShift(c)), s.flights)
  {
    hide AllFree, ShiftOf;
    TwoSteps(s, Check(t, c), Finish(t));
    var mid := Step(s, Check(t, c));
    assert t in mid.flights ==> mid.flights - {t} == s.flights;
  }

  /** And so is a pod event, for the timeshift it matches. */
  lemma EventAlone(s: Sys, t: nat, id: Id, pod: Pod, selects: string -> bool, answers: nat -> Answer)
    requires t !in s.flights && id in s.shifts
    ensures Steps(s, [Match(t, id, pod, selects, answers), Finish(t)])
      == Sys(s.shifts[id := ShiftAfter(s.shifts[id], pod, selects, answers)], s.flights)
  {
    hide AllHandled, Refreshed;
    TwoSteps(s, Match(t, id, pod, selects, answers), Finish(t));
    var mid := Step(s, Match(t, id, pod, selects, answers));
    assert t in mid.flights ==> mid.flights - {t} == s.flights;
    assert s.shifts[id := s.shifts[id]] == s.shifts;
  }

  lemma TwoSteps(s: Sys, a: Action, b: Action)
    ensures Steps(s, [a, b]) == Step(Step(s, a), b)
  {
    assert [a, b][..1] == [a] && [a][..0] == [];
    assert Steps(s, [a]) == Step(s, a);
  }

  /** Both requests would inject some container: known before either does anything. */
  ghost predicate Share(c: Create, d: Create)
  {
    c.namespace == d.namespace && exists pod, name :: Wants(c.pods, pod, name) && Wants(d.pods, pod, name)
  }

  /** The containers that a flight sets out to inject. */
  ghost predicate Claims(f: Flight, k: Container)
  {
    match f
    case Creating(c) => k.namespace == c.namespace && Wants(c.pods, k.pod, k.name)
    case Refreshing(_, pod, _) => OfPod(k, pod) && exists cs :: cs in pod.statuses && Injectable(cs) && cs.name == k.name
  }

  /** Two flights set out to inject one container for different timeshifts. */
  ghost predicate Rivals(f: Flight, g: Flight)
  {
    Owner(f) != Owner(g) && exists k :: Claims(f, k) && Claims(g, k)
  }

  /** What a create comes to hold, its request wanted. */
  lemma HeldWasWanted(c: Create, k: Container)
    requires Holds(ShiftOf(c), k)
    ensures k.namespace == c.namespace && Wants(c.pods, k.pod, k.name)
  {
    var h :| h in ShiftOf(c).handles && h.pod == k.pod && h.container == k.name;
    InjectedAreChecked(c.pods, c.answers, |c.pods|, h);
  }

  /** What its request wanted, a create comes to hold when every injection succeeds. */
  lemma WantedIsHeld(c: Create, pod: string, name: string)
    requires Wants(c.pods, pod, name) && forall i, j :: c.answers(i)(j).Issued?
    ensures Holds(ShiftOf(c), Container(c.namespace, pod, name))
  {
    var i, j :| 0 <= i < |c.pods| && 0 <= j < |c.pods[i].statuses| && Injectable(c.pods[i].statuses[j])
      && c.pods[i].name == pod && c.pods[i].statuses[j].name == name;
    InjectedExactly(c.pods[i], c.answers(i), |c.pods[i].statuses|);
    var h := HandleOf(c.pods[i], j, c.answers(i)(j).handle);
    assert h in Injected(c.pods[i], c.answers(i), |c.pods[i].statuses|);
    InjectedStays(c.pods, c.answers, i, |c.pods|, h);
  }

  lemma {:induction false} InjectedStays(pods: seq<Pod>, answers: nat -> nat -> Answer, i: nat, n: nat, h: ContainerHandle)
    requires i < n <= |pods| && h in Injected(pods[i], answers(i), |pods[i].statuses|)
    ensures h in InjectedAll(pods, answers, n)
  {
    if i < n - 1 {
      InjectedStays(pods, answers, i, n - 1, h);
    }
  }

  // ---- safety over runs ----

  /** No timeshift but its own holds a container that the flight claims. */
  ghost predicate Unheld(shifts: Shifts, f: Flight)
  {
    forall k, id :: Claims(f, k) && id in shifts && id != Owner(f) ==> !Holds(shifts[id], k)
  }

  /**
   A create's check, or a pod event's match, finds no flight that claims one of
   its containers for another timeshift; and, as a pod event does not look for
   itself, no other timeshift that holds one.
   */
  ghost predicate Spaced(s: Sys, a: Action)
  {
    match a
    case Check(_, c) => forall t :: t in s.flights ==> !Rivals(s.flights[t], Creating(c))
    case Match(_, id, pod, _, answers) =>
      var f := Refreshing(id, pod, answers);
      Unheld(s.shifts, f) && forall t :: t in s.flights ==> !Rivals(s.flights[t], f)
    case _ => true
  }

  ghost predicate SpacedRun(run: seq<Action>)
  {
    run == [] || (SpacedRun(run[..|run| - 1]) && Spaced(Steps(Sys(map[], map[]), run[..|run| - 1]), run[|run| - 1]))
  }

  /** No conflict now, none when any flight lands, none between flights. */
  ghost predicate Safe(s: Sys)
  {
    && ConflictFree(s.shifts)
    && (forall t :: t in s.flights ==> Unheld(s.shifts, s.flights[t]))
    && (forall t, u :: t in s.flights && u in s.flights && t != u ==> !Rivals(s.flights[t], s.flights[u]))
  }

  /** Every holding after was there before, or is a claim of the flight for its own timeshift. */
  ghost predicate OnlyGains(before: Shifts, after: Shifts, f: Flight)
  {
    forall id, k :: id in after && Holds(after[id], k) ==>
      (id in before && Holds(before[id], k)) || (id == Owner(f) && Claims(f, k))
  }

  lemma LandingGains(shifts: Shifts, f: Flight)
    ensures OnlyGains(shifts, Landed(shifts, f), f)
  {
    match f
    case Creating(c) =>
      forall k | Holds(ShiftOf(c), k)
        ensures Claims(f, k)
      {
        HeldWasWanted(c, k);
      }
    case Refreshing(id, pod, answers) =>
      if Landable(shifts, f) {
        forall k | Holds(Refreshed(shifts[id], pod, answers), k)
          ensures Holds(shifts[id], k) || Claims(f, k)
        {
          if !Holds(shifts[id], k) {
            RefreshedGains(shifts[id], pod, answers, k);
          }
        }
      }
  }

  lemma RefreshedGains(s: Shift, pod: Pod, answers: nat -> Answer, k: Container)
    requires s.namespace == pod.namespace && Holds(Refreshed(s, pod, answers), k) && !Holds(s, k)
    ensures OfPod(k, pod) && exists cs :: cs in pod.statuses && Injectable(cs) && cs.name == k.name
  {
    InjectedExactly(pod, answers, |pod.statuses|);
    OthersMembers(s.handles, pod.name);
    var h :| h in Refreshed(s, pod, answers).handles && h.pod == k.pod && h.container == k.name;
    assert h in Injected(pod, answers, |pod.statuses|);
    var i :| 0 <= i < |pod.statuses| && Injectable(pod.statuses[i]) && answers(i).Issued?
      && h == HandleOf(pod, i, answers(i).handle);
    assert pod.statuses[i] in pod.statuses;
  }

  /** No other request takes a container. */
  lemma OtherGainsNothing(shifts: Shifts, r: Request, id: Id, k: Container)
    requires !r.CreateShift? && id in After(shifts, r) && Holds(After(shifts, r)[id], k)
    ensures id in shifts && Holds(shifts[id], k)
  {
    if r.UpdateShift? && r.id in shifts {
      UpdateHolds(shifts[r.id], r.target, r.freeze, r.now, r.sets, r.injects, k);
    }
  }

  lemma RivalsSymmetric(f: Flight, g: Flight)
    ensures Rivals(f, g) == Rivals(g, f)
  {
  }

  lemma SafeStart(s: Sys, t: nat, f: Flight)
    requires Safe(s) && t !in s.flights && Unheld(s.shifts, f)
    requires forall u :: u in s.flights ==> !Rivals(s.flights[u], f)
    ensures Safe(s.(flights := s.flights[t := f]))
  {
    hide ConflictFree, Unheld, Rivals;
    forall u | u in s.flights
      ensures !Rivals(f, s.flights[u])
    {
      RivalsSymmetric(f, s.flights[u]);
    }
  }

  lemma SafeFinish(s: Sys, t: nat)
    requires Safe(s) && t in s.flights
    ensures Safe(Sys(Landed(s.shifts, s.flights[t]), s.flights - {t}))
  {
    hide Claims, Holds, Landed, Unheld, ConflictFree;
    var f, after := s.flights[t], Landed(s.shifts, s.flights[t]);
    LandingGains(s.shifts, f);
    LandingConflictFree(s.shifts, after, f);
    forall u | u in s.flights && u != t
      ensures Unheld(after, s.flights[u])
    {
      LandingUnheld(s.shifts, after, f, s.flights[u]);
    }
  }

  lemma LandingConflictFree(before: Shifts, after: Shifts, f: Flight)
    requires OnlyGains(before, after, f) && ConflictFree(before) && Unheld(before, f)
    ensures ConflictFree(after)
  {
    hide Claims, Holds;
    forall i, j, k | i in after && j in after && Holds(after[i], k) && Holds(after[j], k)
      ensures i == j
    {
      assert (i in before && Holds(before[i], k)) || (i == Owner(f) && Claims(f, k));
      assert (j in before && Holds(before[j], k)) || (j == Owner(f) && Claims(f, k));
    }
  }

  lemma LandingUnheld(before: Shifts, after: Shifts, f: Flight, g: Flight)
    requires OnlyGains(before, after, f) && Unheld(before, g) && !Rivals(f, g)
    ensures Unheld(after, g)
  {
    hide Claims, Holds;
    forall k, id | Claims(g, k) && id in after && id != Owner(g)
      ensures !Holds(after[id], k)
    {
      if Holds(after[id], k) {
        assert (id in before && Holds(before[id], k)) || (id == Owner(f) && Claims(f, k));
        if id == Owner(f) {
          NoCommonClaim(f, g, k);
        }
        assert false;
      }
    }
  }

  lemma NoCommonClaim(f: Flight, g: Flight, k: Container)
    requires !Rivals(f, g) && Owner(f) != Owner(g) && Claims(g, k)
    ensures !Claims(f, k)
  {
  }

  lemma CheckedIsUnheld(shifts: Shifts, c: Create)
    requires AllFree(shifts, c.namespace, c.pods)
    ensures Unheld(shifts, Creating(c))
  {
    forall k, id | Claims(Creating(c), k) && id in shifts
      ensures !Holds(shifts[id], k)
    {
      var i, j :| 0 <= i < |c.pods| && 0 <= j < |c.pods[i].statuses| && Injectable(c.pods[i].statuses[j])
        && c.pods[i].name == k.pod && c.pods[i].statuses[j].name == k.name;
      assert Free(shifts, Container(c.namespace, c.pods[i].name, c.pods[i].statuses[j].name));
    }
  }

  lemma SafeStep(s: Sys, a: Action)
    requires Safe(s) && Spaced(s, a)
    ensures Safe(Step(s, a))
  {
    hide ConflictFree, Rivals, Claims, AllFree, Matched, Holds, Landed;
    match a
    case Check(t, c) =>
      if t !in s.flights && AllFree(s.shifts, c.namespace, c.pods) {
        CheckedIsUnheld(s.shifts, c);
        SafeStart(s, t, Creating(c));
      }
    case Match(t, id, pod, selects, answers) =>
      if t !in s.flights {
        SafeStart(s, t, Refreshing(id, pod, answers));
      }
    case Finish(t) =>
      if t in s.flights {
        SafeFinish(s, t);
      }
    case Other(r) =>
      if !r.CreateShift? {
        RequestKeepsConflictFree(s.shifts, r);
        forall id, k | id in After(s.shifts, r) && Holds(After(s.shifts, r)[id], k)
          ensures id in s.shifts && Holds(s.shifts[id], k)
        {
          OtherGainsNothing(s.shifts, r, id, k);
        }
      }
  }

  /**
   However creates, pod events, updates, deletes and sweeps interleave, spaced
   checks and matches keep the registry conflict-free.
   */
  lemma {:induction false} SpacedRunsAreConflictFree(run: seq<Action>)
    requires SpacedRun(run)
    ensures Safe(Steps(Sys(map[], map[]), run))
  {
    if run != [] {
      SpacedRunsAreConflictFree(run[..|run| - 1]);
      SafeStep(Steps(Sys(map[], map[]), run[..|run| - 1]), run[|run| - 1]);
    }
  }

  // ---- spacing is needed ----

  /** Every agent that the flight asks accepts. */
  ghost predicate Succeeds(f: Flight)
  {
    match f
    case Creating(c) => forall i, j :: c.answers(i)(j).Issued?
    case Refreshing(_, pod, answers) => AllSucceed(pod, answers)
  }

  /** A flight that succeeds gains all it claims. */
  lemma ClaimsAreGained(shifts: Shifts, f: Flight, k: Container)
    requires Claims(f, k) && Succeeds(f) && Landable(shifts, f)
    ensures Owner(f) in Landed(shifts, f) && Holds(Landed(shifts, f)[Owner(f)], k)
  {
    match f
    case Creating(c) =>
      WantedIsHeld(c, k.pod, k.name);
    case Refreshing(id, pod, answers) =>
      InjectedExactly(pod, answers, |pod.statuses|);
      var cs :| cs in pod.statuses && Injectable(cs) && cs.name == k.name;
      var i :| 0 <= i < |pod.statuses| && pod.statuses[i] == cs;
      var h := HandleOf(pod, i, answers(i).handle);
      assert h in Injected(pod, answers, |pod.statuses|);
      assert h in Refreshed(shifts[id], pod, answers).handles;
  }

  /** Two rivals that both succeed end in a conflict, in either order. */
  lemma RivalsConflict(shifts: Shifts, f: Flight, g: Flight)
    requires Rivals(f, g) && Succeeds(f) && Succeeds(g) && Landable(shifts, f) && Landable(shifts, g)
    ensures !ConflictFree(Landed(Landed(shifts, f), g))
  {
    hide Claims, Holds, Refreshed, ShiftOf, Succeeds;
    var k :| Claims(f, k) && Claims(g, k);
    var mid := Landed(shifts, f);
    ClaimsAreGained(shifts, f, k);
    StaysLandable(shifts, f, g);
    ClaimsAreGained(mid, g, k);
    assert Landed(mid, g)[Owner(f)] == mid[Owner(f)];
  }

  lemma StaysLandable(shifts: Shifts, f: Flight, g: Flight)
    requires Owner(f) != Owner(g) && Landable(shifts, g)
    ensures Landable(Landed(shifts, f), g)
  {
  }

  /**
   Spacing is needed at every point of every run: a check or a match that is let
   through unspaced is at most two steps away from a conflict, if every agent
   accepts and the flights it meets still have their timeshift.
   */
  lemma UnspacedStepCanConflict(s: Sys, a: Action) returns (run: seq<Action>)
    requires Safe(s) && !Spaced(s, a) && a.t !in s.flights && a.t in Step(s, a).flights
    requires forall t :: t in Step(s, a).flights ==>
      Succeeds(Step(s, a).flights[t]) && Landable(s.shifts, Step(s, a).flights[t])
    ensures |run| <= 2 && !ConflictFree(Steps(Step(s, a), run).shifts)
  {
    hide ConflictFree, Rivals, Claims, AllFree, Matched, Holds, Landed, Succeeds, Unheld;
    var next := Step(s, a);
    var f := next.flights[a.t];
    assert next.flights == s.flights[a.t := f] && next.shifts == s.shifts;
    if t :| t in s.flights && Rivals(s.flights[t], f) {
      assert t in next.flights && next.flights[t] == s.flights[t];
      RivalsConflict(s.shifts, s.flights[t], f);
      run := [Finish(t), Finish(a.t)];
      assert run[..1][..0] == [] && run[..1] == [Finish(t)];
      assert Steps(next, run[..1]) == Sys(Landed(s.shifts, s.flights[t]), next.flights - {t});
    } else {
      run := [Finish(a.t)];
      assert run[..0] == [];
      HeldClaimConflicts(s.shifts, f);
    }
  }

  lemma HeldClaimConflicts(shifts: Shifts, f: Flight)
    requires !Unheld(shifts, f) && Succeeds(f) && Landable(shifts, f)
    ensures !ConflictFree(Landed(shifts, f))
  {
    hide Claims, Holds, Refreshed, ShiftOf, Succeeds;
    var k, id :| Claims(f, k) && id in shifts && id != Owner(f) && Holds(shifts[id], k);
    ClaimsAreGained(shifts, f, k);
    assert Landed(shifts, f)[id] == shifts[id];
  }

  // ---- two creates that race ----

  /** Both check, then both register. */
  ghost function Raced(shifts: Shifts, c: Create, d: Create): Shifts
  {
    Steps(Sys(shifts, map[]), [Check(0, c), Check(1, d), Finish(0), Finish(1)]).shifts
  }

  lemma RacedIs(shifts: Shifts, c: Create, d: Create)
    requires AllFree(shifts, c.namespace, c.pods) && AllFree(shifts, d.namespace, d.pods)
    ensures Raced(shifts, c, d) == Added(Added(shifts, c), d)
  {
    hide AllFree, ShiftOf;
    var run := [Check(0, c), Check(1, d), Finish(0), Finish(1)];
    var s0 := Sys(shifts, map[]);
    assert run[..3][..2][..1][..0] == [] && run[..3][..2][..1] == [Check(0, c)] && run[..3][..2] == run[..2];
    assert Steps(s0, run[..3][..2][..1]) == Sys(shifts, map[0 := Creating(c)]);
    assert Steps(s0, run[..3][..2]) == Sys(shifts, map[0 := Creating(c), 1 := Creating(d)]);
    assert Steps(s0, run[..3]) == Sys(Added(shifts, c), map[0 := Creating(c), 1 := Creating(d)] - {0});
  }

  /** With the answers given. */
  lemma AddedConflictFreeIff(shifts: Shifts, c: Create, d: Create)
    requires ConflictFree(shifts) && c.id != d.id && c.id !in shifts && d.id !in shifts
    requires AllFree(shifts, c.namespace, c.pods) && AllFree(shifts, d.namespace, d.pods)
    ensures ConflictFree(Added(Added(shifts, c), d)) <==> forall k :: Holds(ShiftOf(c), k) ==> !Holds(ShiftOf(d), k)
  {
    hide ConflictFree, AllFree, ShiftOf;
    CreateKeepsConflictFree(shifts, c);
    CreateKeepsConflictFree(shifts, d);
    if ShiftOf(c).handles != [] && ShiftOf(d).handles != [] {
      SideBySideIff(shifts, c, d);
    }
  }

  /**
   Two creates that both pass the check before either registers: whatever the
   agents answer, the registry stays conflict-free, exactly when the two requests
   want no common container.
   */
  lemma RacingCreatesIff(shifts: Shifts, c: Create, d: Create)
    requires ConflictFree(shifts) && c.id != d.id && c.id !in shifts && d.id !in shifts
    requires AllFree(shifts, c.namespace, c.pods) && AllFree(shifts, d.namespace, d.pods)
    ensures (forall f: nat -> nat -> Answer, g: nat -> nat -> Answer ::
               ConflictFree(Raced(shifts, c.(answers := f), d.(answers := g))))
      <==> !Share(c, d)
  {
    hide ConflictFree, AllFree, ShiftOf, Raced, Added;
    if Share(c, d) {
      var f: nat -> nat -> Answer := _ => _ => Issued("");
      SharersConflict(shifts, c.(answers := f), d.(answers := f));
      RacedIs(shifts, c.(answers := f), d.(answers := f));
      assert !ConflictFree(Raced(shifts, c.(answers := f), d.(answers := f)));
    } else {
      forall f: nat -> nat -> Answer, g: nat -> nat -> Answer
        ensures ConflictFree(Raced(shifts, c.(answers := f), d.(answers := g)))
      {
        StrangersDoNot(shifts, c.(answers := f), d.(answers := g));
        RacedIs(shifts, c.(answers := f), d.(answers := g));
      }
    }
  }

  lemma SharersConflict(shifts: Shifts, c: Create, d: Create)
    requires ConflictFree(shifts) && c.id != d.id && c.id !in shifts && d.id !in shifts
    requires AllFree(shifts, c.namespace, c.pods) && AllFree(shifts, d.namespace, d.pods)
    requires Share(c, d) && (forall i, j :: c.answers(i)(j).Issued?) && (forall i, j :: d.answers(i)(j).Issued?)
    ensures !ConflictFree(Added(Added(shifts, c), d))
  {
    hide ConflictFree, AllFree, ShiftOf, Wants, Added;
    AddedConflictFreeIff(shifts, c, d);
    var pod, name :| Wants(c.pods, pod, name) && Wants(d.pods, pod, name);
    WantedIsHeld(c, pod, name);
    WantedIsHeld(d, pod, name);
  }

  lemma StrangersDoNot(shifts: Shifts, c: Create, d: Create)
    requires ConflictFree(shifts) && c.id != d.id && c.id !in shifts && d.id !in shifts
    requires AllFree(shifts, c.namespace, c.pods) && AllFree(shifts, d.namespace, d.pods) && !Share(c, d)
    ensures ConflictFree(Added(Added(shifts, c), d))
  {
    hide ConflictFree, AllFree, ShiftOf, Wants, Added;
    AddedConflictFreeIff(shifts, c, d);
    forall k | Holds(ShiftOf(c), k)
      ensures !Holds(ShiftOf(d), k)
    {
      HeldWasWanted(c, k);
      if Holds(ShiftOf(d), k) {
        HeldWasWanted(d, k);
      }
    }
  }

  /** Two creates of the same one-container pod, on an empty registry. */
  lemma SomeCreatesRace() returns (c: Create, d: Create)
    ensures c.pods == d.pods == [Pod("ns", "p", true, "node", [ContainerStatus("c", true, "id")])]
    ensures AllFree(map[], c.namespace, c.pods) && AllFree(map[], d.namespace, d.pods)
    ensures !ConflictFree(Raced(map[], c, d))
  {
    hide ShiftOf, Raced, Added, ConflictFree;
    var pods := [Pod("ns", "p", true, "node", [ContainerStatus("c", true, "id")])];
    c := Create("a", "ns", "app=web", pods, 0, true, 0, 0, _ => _ => Issued("h1"));
    d := Create("b", "ns", "app=web", pods, 0, true, 0, 0, _ => _ => Issued("h2"));
    assert Injectable(pods[0].statuses[0]) && Wants(pods, "p", "c");
    NothingConflicts();
    SharersConflict(map[], c, d);
    RacedIs(map[], c, d);
  }

  lemma NothingConflicts()
    ensures ConflictFree(map[])
  {
  }
}
