/** Session bulk updates and pruning (pkg/faketime/faketime.go). */
module Sessions {
  import opened Records
  import opened ProcessTree
  import opened Updates

  /** A faketime.Handle: shared by reference, and compared by identity. */
  class HandleRef {
    var h: Handle

    constructor (h: Handle)
      ensures this.h == h
    {
      this.h := h;
    }
  }

  type Ref = HandleRef

  /** A ChildTracker as a session sees it: its parent's handle, and its children's. */
  datatype Tracked = Tracked(handle: Ref, children: seq<Ref>)

  function Extra(trackers: seq<Tracked>): (r: seq<Ref>)
  {
    if trackers == [] then [] else trackers[0].children + Extra(trackers[1..])
  }

  /** Every child of every tracker, and nothing else. */
  lemma {:induction false} ExtraMembers(trackers: seq<Tracked>)
    ensures forall r :: r in Extra(trackers) <==> exists i :: 0 <= i < |trackers| && r in trackers[i].children
  {
    if trackers != [] {
      var rest := trackers[1..];
      ExtraMembers(rest);
      forall r
        ensures r in Extra(rest) <==> exists i :: 1 <= i < |trackers| && r in trackers[i].children
      {
        if r in Extra(rest) {
          var i :| 0 <= i < |rest| && r in rest[i].children;
          assert trackers[i + 1] == rest[i];
        }
        if i :| 1 <= i < |trackers| && r in trackers[i].children {
          assert rest[i - 1] == trackers[i];
        }
      }
    }
  }

  /** s without the members of out, order kept. */
  function Without(s: seq<Ref>, out: set<Ref>): (r: seq<Ref>)
    ensures |r| <= |s|
  {
    if s == [] then []
    else
      var front, last := Without(s[..|s| - 1], out), s[|s| - 1];
      if last in out then front else front + [last]
  }

  /** The handles whose own update found no process. */
  function Dead(handles: seq<Ref>, errs: seq<Outcome>): (d: set<Ref>)
    requires |handles| <= |errs|
  {
    set i | 0 <= i < |handles| && errs[i].NoProcess? :: handles[i]
  }

  /** Only structs changed. */
  predicate OnlyStructs(before: map<Pid, Proc>, after: map<Pid, Proc>)
  {
    && after.Keys == before.Keys
    && forall pid :: pid in before ==> after[pid] == before[pid].(struct := after[pid].struct)
  }

  ghost function Values(all: seq<Ref>): (hs: seq<Handle>)
    reads set r | r in all
    ensures |hs| == |all| && forall i :: 0 <= i < |all| ==> hs[i] == all[i].h
  {
    seq(|all|, i requires 0 <= i < |all| reads all => all[i].h)
  }

  /**
   The updates of the first handles have ended as errs says: ESRCH exactly for
   dead processes, done only if the handle is on the new setting. Handles keep
   process and address, change only to the new setting, and no other process
   changes.
   */
  ghost predicate Ended(procs0: map<Pid, Proc>, procs: map<Pid, Proc>, hs0: seq<Handle>, hs: seq<Handle>, errs: seq<Outcome>,
                        freeze: bool, target: int, lo: int, hi: int)
    requires |errs| <= |hs| == |hs0|
  {
    && OnlyStructs(procs0, procs)
    && (forall i :: 0 <= i < |errs| ==> (errs[i].NoProcess? <==> !LiveIn(procs0, hs0[i].pid)))
    && (forall i :: 0 <= i < |errs| && errs[i].Done? ==> Took(hs[i], procs, freeze, target, lo, hi))
    && (forall i :: 0 <= i < |hs| ==> hs[i] == hs0[i] || Took(hs[i], procs, freeze, target, lo, hi))
    && (forall i :: 0 <= i < |hs| ==> hs[i].pid == hs0[i].pid && hs[i].addr == hs0[i].addr)
    && (forall pid :: pid in procs && (forall i :: 0 <= i < |hs| ==> hs0[i].pid != pid) ==> procs[pid] == procs0[pid])
  }

  /** One more update; other places of the list may hold the same handle. */
  lemma EndedStep(procs0: map<Pid, Proc>, mid: map<Pid, Proc>, after: map<Pid, Proc>, hs0: seq<Handle>, hs: seq<Handle>,
                  hs': seq<Handle>, errs: seq<Outcome>, e: Outcome, freeze: bool, target: int,
                  lo: int, seen: int, w: int, r: int)
    requires |errs| < |hs0| == |hs| == |hs'| && lo <= seen <= w <= r
    requires Ended(procs0, mid, hs0, hs, errs, freeze, target, lo, seen)
    requires e.NoProcess? <==> !LiveIn(mid, hs[|errs|].pid)
    requires
      var h := hs[|errs|];
      && after == (if e.Done? then mid[h.pid := Write(mid[h.pid], h.addr, StructFor(freeze, target, w))] else mid)
      && hs'[|errs|] == (if e.Done? then Recorded(h, freeze, target, r) else h)
      && forall i :: 0 <= i < |hs| ==> hs'[i] == hs[i] || (hs[i] == h && hs'[i] == hs'[|errs|])
    ensures Ended(procs0, after, hs0, hs', errs + [e], freeze, target, lo, r)
  {
    hide Took;
    var h := hs[|errs|];
    if e.Done? {
      TookNow(h, mid, after, freeze, target, lo, w, r);
    }
    forall g: Handle | Took(g, mid, freeze, target, lo, seen)
      ensures Took(g, after, freeze, target, lo, r)
    {
      TookStays(h, g, mid, after, freeze, target, lo, seen, w, r);
    }
  }

  lemma NothingEnded(procs: map<Pid, Proc>, hs: seq<Handle>, freeze: bool, target: int, now: int)
    ensures Ended(procs, procs, hs, hs, [], freeze, target, now, now)
  {
  }

  lemma EndedLater(procs0: map<Pid, Proc>, procs: map<Pid, Proc>, hs0: seq<Handle>, hs: seq<Handle>, errs: seq<Outcome>,
                   freeze: bool, target: int, lo: int, hi: int, later: int)
    requires |errs| <= |hs| == |hs0| && Ended(procs0, procs, hs0, hs, errs, freeze, target, lo, hi) && lo <= hi <= later
    ensures Ended(procs0, procs, hs0, hs, errs, freeze, target, lo, later)
  {
  }

  lemma EndedMeans(procs0: map<Pid, Proc>, procs: map<Pid, Proc>, hs0: seq<Handle>, hs: seq<Handle>, errs: seq<Outcome>,
                   freeze: bool, target: int, lo: int, hi: int)
    requires |errs| == |hs| == |hs0| && Ended(procs0, procs, hs0, hs, errs, freeze, target, lo, hi)
    ensures forall i :: 0 <= i < |hs| ==> (errs[i].NoProcess? <==> !LiveIn(procs0, hs0[i].pid))
    ensures forall i :: 0 <= i < |hs| ==> (errs[i].NoProcess? <==> !LiveIn(procs, hs[i].pid))
    ensures forall i :: 0 <= i < |hs| && errs[i].Done? ==> Took(hs[i], procs, freeze, target, lo, hi)
  {
  }

  /**
   Of the first n handles exactly those without a process count as dead; with no
   refusal the live ones are on the new setting.
   */
  lemma EachOutcome(all: seq<Ref>, n: nat, procs0: map<Pid, Proc>, procs: map<Pid, Proc>, hs0: seq<Handle>, hs: seq<Handle>,
                    errs: seq<Outcome>, freeze: bool, target: int, lo: int, hi: int)
    requires n <= |all| == |errs| == |hs| == |hs0| && Ended(procs0, procs, hs0, hs, errs, freeze, target, lo, hi)
    requires forall i, j :: 0 <= i < |all| && 0 <= j < |all| && all[i] == all[j] ==> hs0[i] == hs0[j]
    ensures forall i :: 0 <= i < n ==> (all[i] in Dead(all[..n], errs) <==> !LiveIn(procs0, hs0[i].pid))
    ensures OtherError !in errs ==> forall i :: 0 <= i < |all| && LiveIn(procs0, hs0[i].pid) ==>
      Took(hs[i], procs, freeze, target, lo, hi)
    ensures OtherError !in errs ==> forall i :: 0 <= i < |all| && LiveIn(procs, hs[i].pid) ==>
      Took(hs[i], procs, freeze, target, lo, hi)
  {
    hide Took, LiveIn, Ended, Dead;
    EndedMeans(procs0, procs, hs0, hs, errs, freeze, target, lo, hi);
    forall i | 0 <= i < n
      ensures all[i] in Dead(all[..n], errs) <==> !LiveIn(procs0, hs0[i].pid)
    {
      DeadAt(all[..n], errs, i);
    }
    forall i | 0 <= i < |errs|
      ensures errs[i].Done? || errs[i].NoProcess? || OtherError in errs
    {
    }
  }

  lemma DeadAt(handles: seq<Ref>, errs: seq<Outcome>, i: nat)
    requires i < |handles| <= |errs|
    ensures handles[i] in Dead(handles, errs)
      <==> exists j :: 0 <= j < |handles| && handles[j] == handles[i] && errs[j].NoProcess?
  {
  }

  /** A handle that is on the new setting stays on it when another, or the same, is updated. */
  lemma TookStays(h: Handle, g: Handle, mid: map<Pid, Proc>, after: map<Pid, Proc>, freeze: bool, target: int,
                  lo: int, seen: int, w: int, r: int)
    requires lo <= seen <= w <= r && Took(g, mid, freeze, target, lo, seen)
    requires after == mid ||
      (LiveIn(mid, h.pid) && after == mid[h.pid := Write(mid[h.pid], h.addr, StructFor(freeze, target, w))])
    ensures Took(g, after, freeze, target, lo, r)
  {
  }

  /** Without keeps exactly the occurrences of the other members. */
  lemma {:induction false} WithoutCounts(s: seq<Ref>, out: set<Ref>, h: Ref)
    ensures multiset(Without(s, out))[h] == if h in out then 0 else multiset(s)[h]
  {
    if s != [] {
      WithoutCounts(s[..|s| - 1], out, h);
      assert s == s[..|s| - 1] + [s[|s| - 1]];
    }
  }

  /** Without keeps the order. */
  lemma {:induction false} WithoutInOrder(s: seq<Ref>, out: set<Ref>) returns (f: seq<nat>)
    ensures Embeds(Without(s, out), s, f)
  {
    if s == [] {
      f := [];
    } else {
      var n := |s| - 1;
      f := WithoutInOrder(s[..n], out);
      if s[n] !in out {
        f := f + [n];
      }
    }
  }

  /** f picks the places of r in s, in increasing order. */
  ghost predicate Embeds<T>(r: seq<T>, s: seq<T>, f: seq<nat>)
  {
    && |f| == |r|
    && (forall i :: 0 <= i < |f| ==> f[i] < |s| && s[f[i]] == r[i])
    && (forall i, j :: 0 <= i < j < |f| ==> f[i] < f[j])
  }

  lemma {:induction false} WithoutMembers(s: seq<Ref>, out: set<Ref>)
    ensures forall h :: h in Without(s, out) <==> h in s && h !in out
  {
    if s != [] {
      WithoutMembers(s[..|s| - 1], out);
      assert s == s[..|s| - 1] + [s[|s| - 1]];
    }
  }

  /** How many places of s hold members of out. */
  function Count(s: seq<Ref>, out: set<Ref>): (n: nat)
  {
    if s == [] then 0 else Count(s[..|s| - 1], out) + if s[|s| - 1] in out then 1 else 0
  }

  class Session {
    var handles: seq<Ref>
    var trackers: seq<Tracked>
    var record: Record

    constructor (record: Record)
      ensures this.record == record && handles == [] && trackers == []
    {
      this.record, handles, trackers := record, [], [];
    }

    /** Every handle a bulk update goes over. */
    function All(): seq<Ref>
      reads this
    {
      handles + Extra(trackers)
    }

    /** fn(h) for every handle, fn being SetTime or Freeze. */
    method CallEach(k: Kernel, all: seq<Ref>, freeze: bool, target: int) returns (errs: seq<Outcome>)
      modifies k, k.wall, set r | r in all
      ensures |errs| == |all| && k.wall.now >= old(k.wall.now)
      ensures k.refused == old(k.refused) + multiset(errs)[OtherError]
      ensures Ended(old(k.procs), k.procs, old(Values(all)), Values(all), errs, freeze, target, old(k.wall.now), k.wall.now)
    {
      hide Ended, Write, StructFor, Recorded;
      errs := [];
      ghost var lo, procs0, hs0 := k.wall.now, k.procs, Values(all);
      NothingEnded(procs0, hs0, freeze, target, lo);
      while |errs| < |all|
        invariant |errs| <= |all| && k.wall.now >= lo
        invariant k.refused == old(k.refused) + multiset(errs)[OtherError]
        invariant Ended(procs0, k.procs, hs0, Values(all), errs, freeze, target, lo, k.wall.now)
      {
        ghost var mid, seen, hs := k.procs, k.wall.now, Values(all);
        var ref := all[|errs|];
        var e, h, w, r := UpdateOne(k, ref.h, freeze, target);
        ref.h := h;
        EndedStep(procs0, mid, k.procs, hs0, hs, Values(all), errs, e, freeze, target, lo, seen, w, r);
        errs := errs + [e];
      }
    }

    /**
     SetTime or Freeze of the whole session. Exactly the primary handles whose
     process is dead go, the others stay in order; the session's own setting
     changes exactly when the kernel refused no write, and then every handle that
     stays, and every live child of a tracker, is on the new setting in record
     and in process.
     */
    method ApplyAll(k: Kernel, freeze: bool, target: int) returns (ok: bool, ghost errs: seq<Outcome>)
      modifies this, k, k.wall, set r | r in All()
      ensures trackers == old(trackers) && k.wall.now >= old(k.wall.now)
      ensures |errs| == |old(All())|
      ensures handles == Without(old(handles), Dead(old(handles), errs))
      ensures forall r :: r in handles <==> r in old(handles) && LiveIn(old(k.procs), old(r.h.pid))
      ensures k.refused == old(k.refused) + multiset(errs)[OtherError]
      ensures ok <==> k.refused == old(k.refused)
      ensures if ok then RecordTook(record, freeze, target, old(k.wall.now), k.wall.now) else record == old(record)
      ensures Ended(old(k.procs), k.procs, old(Values(All())), Values(old(All())), errs,
                    freeze, target, old(k.wall.now), k.wall.now)
      ensures ok ==> forall r :: r in handles ==> Took(r.h, k.procs, freeze, target, old(k.wall.now), k.wall.now)
      ensures ok ==> forall i, r :: 0 <= i < |trackers| && r in trackers[i].children && LiveIn(k.procs, r.h.pid) ==>
        Took(r.h, k.procs, freeze, target, old(k.wall.now), k.wall.now)
    {
      hide Took, Without, Extra, Ended, Dead, LiveIn, RecordTook;
      ghost var all, lo, procs0 := All(), k.wall.now, k.procs;
      ghost var hs0 := Values(all);
      var primary := handles;
      var extra := Children(trackers);
      assert all == primary + extra;
      var results := CallEach(k, primary + extra, freeze, target);
      errs := results;
      ghost var done, hs, procs := k.wall.now, Values(all), k.procs;
      var dead := DeadOf(primary, results);
      handles := Keep(primary, dead);
      ok := OtherError !in results;
      if ok {
        var now := k.wall.Now();
        record := if freeze then Record(true, target, 0) else Record(false, ZERO_TIME, target - now);
        RecordNow(freeze, target, lo, now, k.wall.now);
      }
      EndedLater(procs0, procs, hs0, hs, errs, freeze, target, lo, done, k.wall.now);
      assert Values(all) == hs && k.procs == procs && all[..|primary|] == primary;
      EachOutcome(all, |primary|, procs0, procs, hs0, hs, errs, freeze, target, lo, k.wall.now);
      WithoutMembers(primary, dead);
      ExtraMembers(trackers);
      forall r | r in primary
        ensures r in dead <==> !LiveIn(procs0, old(r.h.pid))
        ensures ok && r !in dead ==> Took(r.h, k.procs, freeze, target, lo, k.wall.now)
      {
        var i :| 0 <= i < |primary| && primary[i] == r;
        assert all[i] == r;
      }
      forall r | ok && r in extra && LiveIn(k.procs, r.h.pid)
        ensures Took(r.h, k.procs, freeze, target, lo, k.wall.now)
      {
        var i :| 0 <= i < |extra| && extra[i] == r;
        assert all[|primary| + i] == r;
      }
    }

    /** Trackers whose parent is gone, then their handles and the dead standalone handles, leave the session. */
    method Prune(alive: Ref -> bool, aliveLater: Ref -> bool) returns (n: nat)
      modifies this
      ensures trackers == LiveTrackers(old(trackers), alive)
      ensures handles == Without(old(handles), Dropped(old(handles), old(trackers), alive, aliveLater))
      ensures forall r :: r in handles <==>
        && r in old(handles)
        && (forall i :: 0 <= i < |old(trackers)| && old(trackers)[i].handle == r ==> alive(r))
        && ((exists i :: 0 <= i < |old(trackers)| && old(trackers)[i].handle == r) || aliveLater(r))
      ensures forall c :: c in trackers <==> c in old(trackers) && alive(c.handle)
      ensures n == |old(trackers)| - |trackers|
        + |old(handles)| - |handles| - Count(old(handles), DeadParents(old(trackers), alive))
      ensures record == old(record)
    {
      var liveTrackers, deadSet, liveSet;
      liveTrackers, deadSet, liveSet, n := SplitTrackers(trackers, alive);
      ghost var gone := Dropped(handles, trackers, alive, aliveLater);
      var live: seq<Ref> := [];
      var j := 0;
      ghost var deadTrackers := n;
      while j < |handles|
        invariant 0 <= j <= |handles|
        invariant live == Without(handles[..j], gone)
        invariant n == deadTrackers + j - |live| - Count(handles[..j], deadSet)
        invariant handles == old(handles) && trackers == old(trackers) && record == old(record)
      {
        assert handles[..j + 1][..j] == handles[..j];
        var h := handles[j];
        if h in deadSet {
        } else if h in liveSet || aliveLater(h) {
          live := live + [h];
        } else {
          n := n + 1;
        }
        j := j + 1;
      }
      assert handles[..j] == handles;
      WithoutMembers(handles, gone);
      LiveTrackersMembers(trackers, alive);
      trackers := liveTrackers;
      handles := live;
    }
  }

  /** The children of every tracker. */
  method Children(trackers: seq<Tracked>) returns (extra: seq<Ref>)
    ensures extra == Extra(trackers)
  {
    extra := [];
    for k := 0 to |trackers|
      invariant extra + Extra(trackers[k..]) == Extra(trackers)
    {
      assert trackers[k..][1..] == trackers[k + 1..];
      extra := extra + trackers[k].children;
    }
    assert trackers[|trackers|..] == [];
  }

  method DeadOf(primary: seq<Ref>, errs: seq<Outcome>) returns (dead: set<Ref>)
    requires |primary| <= |errs|
    ensures dead == Dead(primary, errs)
  {
    dead := {};
    for i := 0 to |primary|
      invariant dead == Dead(primary[..i], errs)
    {
      if errs[i].NoProcess? {
        dead := dead + {primary[i]};
      }
    }
    assert primary[..|primary|] == primary;
  }

  /** The handles that are not dead, in a new list. */
  method Keep(handles: seq<Ref>, dead: set<Ref>) returns (live: seq<Ref>)
    ensures live == Without(handles, dead)
  {
    live := [];
    for j := 0 to |handles|
      invariant live == Without(handles[..j], dead)
    {
      assert handles[..j + 1][..j] == handles[..j];
      if handles[j] !in dead {
        live := live + [handles[j]];
      }
    }
    assert handles[..|handles|] == handles;
  }

  /** Prune's pass over the trackers. */
  method SplitTrackers(ts: seq<Tracked>, alive: Ref -> bool)
    returns (live: seq<Tracked>, deadSet: set<Ref>, liveSet: set<Ref>, n: nat)
    ensures live == LiveTrackers(ts, alive) && n == |ts| - |live|
    ensures deadSet == DeadParents(ts, alive) && liveSet == LiveParents(ts, alive)
  {
    live, deadSet, liveSet, n := [], {}, {}, 0;
    for k := 0 to |ts|
      invariant live == LiveTrackers(ts[..k], alive) && n == k - |live|
      invariant deadSet == DeadParents(ts[..k], alive) && liveSet == LiveParents(ts[..k], alive)
    {
      assert ts[..k + 1][..k] == ts[..k];
      if alive(ts[k].handle) {
        live := live + [ts[k]];
        liveSet := liveSet + {ts[k].handle};
      } else {
        deadSet := deadSet + {ts[k].handle};
        n := n + 1;
      }
    }
    assert ts[..|ts|] == ts;
  }

  function LiveTrackers(ts: seq<Tracked>, alive: Ref -> bool): (r: seq<Tracked>)
    ensures |r| <= |ts|
  {
    if ts == [] then []
    else
      var front, last := LiveTrackers(ts[..|ts| - 1], alive), ts[|ts| - 1];
      if alive(last.handle) then front + [last] else front
  }

  lemma {:induction false} LiveTrackersMembers(ts: seq<Tracked>, alive: Ref -> bool)
    ensures forall c :: c in LiveTrackers(ts, alive) <==> c in ts && alive(c.handle)
  {
    if ts != [] {
      LiveTrackersMembers(ts[..|ts| - 1], alive);
      assert ts == ts[..|ts| - 1] + [ts[|ts| - 1]];
    }
  }

  /** The trackers whose parent lives stay, each as often as before. */
  lemma {:induction false} LiveTrackersCounts(ts: seq<Tracked>, alive: Ref -> bool, c: Tracked)
    ensures multiset(LiveTrackers(ts, alive))[c] == if alive(c.handle) then multiset(ts)[c] else 0
  {
    if ts != [] {
      LiveTrackersCounts(ts[..|ts| - 1], alive, c);
      assert ts == ts[..|ts| - 1] + [ts[|ts| - 1]];
    }
  }

  /** And in their order. */
  lemma {:induction false} LiveTrackersInOrder(ts: seq<Tracked>, alive: Ref -> bool) returns (f: seq<nat>)
    ensures Embeds(LiveTrackers(ts, alive), ts, f)
  {
    if ts == [] {
      f := [];
    } else {
      var n := |ts| - 1;
      f := LiveTrackersInOrder(ts[..n], alive);
      if alive(ts[n].handle) {
        f := f + [n];
      }
    }
  }

  function DeadParents(ts: seq<Tracked>, alive: Ref -> bool): set<Ref>
  {
    set i | 0 <= i < |ts| && !alive(ts[i].handle) :: ts[i].handle
  }

  function LiveParents(ts: seq<Tracked>, alive: Ref -> bool): set<Ref>
  {
    set i | 0 <= i < |ts| && alive(ts[i].handle) :: ts[i].handle
  }

  /** Parents of dead trackers, and dead handles that no live tracker vouches for. */
  function Dropped(hs: seq<Ref>, ts: seq<Tracked>, alive: Ref -> bool, aliveLater: Ref -> bool): set<Ref>
  {
    DeadParents(ts, alive) + set h | h in hs && h !in LiveParents(ts, alive) && !aliveLater(h)
  }

  lemma {:induction false} CountOneMore(s: seq<Ref>, out: set<Ref>, x: Ref)
    requires x !in out
    ensures Count(s, out + {x}) == Count(s, out) + multiset(s)[x]
  {
    if s != [] {
      CountOneMore(s[..|s| - 1], out, x);
      assert s == s[..|s| - 1] + [s[|s| - 1]];
    }
  }

  /** Each tracker has a handle of its own, which occurs once in the list. */
  ghost predicate OncePerTracker(hs: seq<Ref>, ts: seq<Tracked>)
  {
    && (forall i :: 0 <= i < |ts| ==> multiset(hs)[ts[i].handle] == 1)
    && (forall i, j :: 0 <= i < j < |ts| ==> ts[i].handle != ts[j].handle)
  }

  lemma {:induction false} DeadParentsCounted(hs: seq<Ref>, ts: seq<Tracked>, alive: Ref -> bool)
    requires OncePerTracker(hs, ts)
    ensures Count(hs, DeadParents(ts, alive)) == |ts| - |LiveTrackers(ts, alive)|
  {
    if ts == [] {
      assert DeadParents(ts, alive) == {};
      CountNone(hs);
    } else {
      var n := |ts| - 1;
      var front, x := ts[..n], ts[n].handle;
      DeadParentsCounted(hs, front, alive);
      if alive(x) {
        assert DeadParents(ts, alive) == DeadParents(front, alive);
      } else {
        CountOneMore(hs, DeadParents(front, alive), x);
        assert DeadParents(ts, alive) == DeadParents(front, alive) + {x};
      }
    }
  }

  lemma {:induction false} CountNone(s: seq<Ref>)
    ensures Count(s, {}) == 0
  {
    if s != [] {
      CountNone(s[..|s| - 1]);
    }
  }

  /**
   What Prune returns, against how many handles it dropped: the two agree
   exactly when the list holds as many dead trackers' handles as there are dead
   trackers, and so whenever each tracker's handle is in the list exactly once.
   */
  lemma PruneCounts(before: seq<Ref>, after: seq<Ref>, ts: seq<Tracked>, alive: Ref -> bool, n: int)
    requires n == |ts| - |LiveTrackers(ts, alive)| + |before| - |after| - Count(before, DeadParents(ts, alive))
    ensures n == |before| - |after| <==> Count(before, DeadParents(ts, alive)) == |ts| - |LiveTrackers(ts, alive)|
    ensures OncePerTracker(before, ts) ==> n == |before| - |after|
  {
    if OncePerTracker(before, ts) {
      DeadParentsCounted(before, ts, alive);
    }
  }
}
