/**
 A bulk freeze taken apart (pkg/faketime/faketime.go): it goes over a snapshot of
 the handles, writing each process's struct and recording in its handle as two
 steps, while processes fork, exec and exit and the watch loop runs.
 */
module BulkFreezes {
  import opened Records
  import opened ProcessTree
  import opened TreeInvariants
  import opened TreeTimes

  /** A step of the tree, or of the bulk freeze. */
  datatype Move = Tree(e: Event) | WriteTo(pid: Pid) | RecordOf(pid: Pid)

  ghost predicate May(s: Sys, m: Move)
  {
    m.Tree? ==> Can(s, m.e) && Smooth(m.e) && !m.e.Bulk? && !m.e.Update?
  }

  /** Handle.Freeze(at), taken apart: a dead process is not written, and a handle no longer tracked is of no account. */
  ghost function Do(s: Sys, at: int, m: Move): Sys
    requires May(s, m)
  {
    match m
    case Tree(e) => After(s, e)
    case WriteTo(pid) =>
      if Tracks(s.t, pid) && Live(s, pid)
      then s.(procs := s.procs[pid := Write(s.procs[pid], HandleOf(s.t, pid).addr, FrozenAt(at))])
      else s
    case RecordOf(pid) =>
      if Tracks(s.t, pid) then s.(t := WithHandle(s.t, pid, HandleOf(s.t, pid).(record := Record(true, at, 0)))) else s
  }

  /** The two steps for a live process, one after the other, are its handle's whole update, but for the clock. */
  lemma TakenApart(s: Sys, pid: Pid, at: int, write: int, record: int)
    requires Sound(s) && Tracks(s.t, pid) && Live(s, pid)
    ensures var mid := Do(s, at, WriteTo(pid));
      Do(mid, at, RecordOf(pid)) == AfterUpdate(s, pid, true, at, write, record, true).(now := s.now)
  {
    assert InPlace(s, pid);
  }

  lemma SoundDo(s: Sys, at: int, m: Move)
    requires Sound(s) && May(s, m)
    ensures Sound(Do(s, at, m))
  {
    var s' := Do(s, at, m);
    if m.Tree? {
      SoundStep(s, m.e);
    } else {
      forall q | Live(s', q)
        ensures InPlace(s', q)
      {
        assert InPlace(s, q);
      }
    }
  }

  // ---- who is behind, told from the order of events alone ----

  /** The processes whose struct, and those whose handle's record, the freeze has not reached. */
  datatype Behind = Behind(structs: set<Pid>, records: set<Pid>)

  function Put(set_: set<Pid>, pid: Pid, in_: bool): set<Pid>
  {
    if in_ then set_ + {pid} else set_ - {pid}
  }

  /** A fork passes on the struct, its handling the record, the handling of an exec turns record into struct. */
  ghost function Follow(s: Sys, b: Behind, m: Move): Behind
    requires May(s, m)
  {
    match m
    case Tree(e) =>
      if e.Fork? then b.(structs := Put(b.structs, e.c, e.p in b.structs))
      else if e.Poll? then
        match s.procs[e.pid].stop
        case AtFork(child) => if e.choice.named then b.(records := Put(b.records, child, e.pid in b.records)) else b
        case AtExec => b.(structs := Put(b.structs, e.pid, e.pid in b.records))
        case _ => b
      else b
    case WriteTo(pid) =>
      if Tracks(s.t, pid) && Live(s, pid) && !s.procs[pid].stop.AtExec? then b.(structs := b.structs - {pid}) else b
    case RecordOf(pid) => if Tracks(s.t, pid) then b.(records := b.records - {pid}) else b
  }

  ghost predicate MarkedAt(s: Sys, b: Behind, was: int, at: int, pid: Pid)
    requires Live(s, pid)
  {
    && (Tracks(s.t, pid) ==>
          && HandleOf(s.t, pid).record.frozen
          && HandleOf(s.t, pid).record.frozenAt == (if pid in b.records then was else at)
          && (!s.procs[pid].stop.AtExec? ==> s.procs[pid].struct == FrozenAt(if pid in b.structs then was else at)))
    && (s.procs[pid].stop.AtFork? && Live(s, s.procs[pid].stop.child) ==>
          var c := s.procs[pid].stop.child;
          s.procs[c].struct == FrozenAt(if c in b.structs then was else at))
  }

  /** Exactly those that are behind show and record the old instant, the others the new one. */
  ghost predicate Marked(s: Sys, b: Behind, was: int, at: int)
  {
    forall pid :: Live(s, pid) ==> MarkedAt(s, b, was, at, pid)
  }

  lemma FollowKernel(s: Sys, b: Behind, was: int, at: int, m: Move)
    requires Sound(s) && Marked(s, b, was, at) && May(s, m) && m.Tree? && !m.e.Poll?
    ensures Marked(Do(s, at, m), Follow(s, b, m), was, at)
  {
    var s', b' := Do(s, at, m), Follow(s, b, m);
    forall q | Live(s', q)
      ensures MarkedAt(s', b', was, at, q)
    {
      if Live(s, q) {
        assert InPlace(s, q) && MarkedAt(s, b, was, at, q);
      } else {
        assert m.e.Fork? && InPlace(s, m.e.p) && MarkedAt(s, b, was, at, m.e.p);
      }
    }
  }

  lemma FollowPoll(s: Sys, b: Behind, was: int, at: int, m: Move, q: Pid)
    requires Sound(s) && Marked(s, b, was, at) && May(s, m) && m.Tree? && m.e.Poll? && Live(Do(s, at, m), q)
    ensures MarkedAt(Do(s, at, m), Follow(s, b, m), was, at, q)
  {
    var pid := m.e.pid;
    assert Tracks(s.t, pid);
    assert Live(s, pid) ==> InPlace(s, pid) && MarkedAt(s, b, was, at, pid);
    assert InPlace(s, q) && MarkedAt(s, b, was, at, q);
    match s.procs[pid].stop
    case Exited =>
    case AtFork(_) =>
    case AtExec =>
    case AtStart =>
    case AtSignal(_) =>
  }

  lemma FollowUpdate(s: Sys, b: Behind, was: int, at: int, m: Move)
    requires Sound(s) && Marked(s, b, was, at) && May(s, m) && !m.Tree?
    ensures Marked(Do(s, at, m), Follow(s, b, m), was, at)
  {
    var s', b' := Do(s, at, m), Follow(s, b, m);
    forall q | Live(s', q)
      ensures MarkedAt(s', b', was, at, q)
    {
      assert InPlace(s, q) && MarkedAt(s, b, was, at, q);
    }
  }

  /** The marks follow every step of the tree and of the freeze. */
  lemma FollowKeepsMarks(s: Sys, b: Behind, was: int, at: int, m: Move)
    requires Sound(s) && Marked(s, b, was, at) && May(s, m)
    ensures Marked(Do(s, at, m), Follow(s, b, m), was, at)
  {
    if !m.Tree? {
      FollowUpdate(s, b, was, at, m);
    } else if m.e.Poll? {
      forall q | Live(Do(s, at, m), q)
        ensures MarkedAt(Do(s, at, m), Follow(s, b, m), was, at, q)
      {
        FollowPoll(s, b, was, at, m, q);
      }
    } else {
      FollowKernel(s, b, was, at, m);
    }
  }

  ghost predicate Moves(s: Sys, b: Behind, at: int, ms: seq<Move>, s': Sys, b': Behind)
    decreases |ms|
  {
    if ms == [] then s' == s && b' == b
    else May(s, ms[0]) && Moves(Do(s, at, ms[0]), Follow(s, b, ms[0]), at, ms[1..], s', b')
  }

  lemma {:induction false} MovesKeepMarks(s: Sys, b: Behind, was: int, at: int, ms: seq<Move>, s': Sys, b': Behind)
    requires Sound(s) && Marked(s, b, was, at) && Moves(s, b, at, ms, s', b')
    ensures Sound(s') && Marked(s', b', was, at)
    decreases |ms|
  {
    if ms != [] {
      SoundDo(s, at, ms[0]);
      FollowKeepsMarks(s, b, was, at, ms[0]);
      MovesKeepMarks(Do(s, at, ms[0]), Follow(s, b, ms[0]), was, at, ms[1..], s', b');
    }
  }

  ghost predicate LagsAt(s: Sys, b: Behind, pid: Pid)
    requires Live(s, pid)
  {
    || (Tracks(s.t, pid) && (pid in b.records || (pid in b.structs && !s.procs[pid].stop.AtExec?)))
    || (s.procs[pid].stop.AtFork? && Live(s, s.procs[pid].stop.child) && s.procs[pid].stop.child in b.structs)
  }

  /** Before a freeze everyone is behind. */
  function Everyone(s: Sys): Behind
  {
    Behind(s.used, s.used)
  }

  /**
   A bulk freeze that kernel events and the watch loop interleave with in any way
   ends with the whole tree on the new instant exactly when nobody is left
   behind, as told from the order of writes, records, forks and handlings alone.
   */
  lemma FreezeReachesAllIff(s: Sys, was: int, at: int, ms: seq<Move>, s': Sys, b': Behind)
    requires Sound(s) && OnTime(s, Pinned(was)) && was != at && Moves(s, Everyone(s), at, ms, s', b')
    ensures OnTime(s', Pinned(at)) <==> forall pid :: Live(s', pid) ==> !LagsAt(s', b', pid)
  {
    forall pid | Live(s, pid)
      ensures MarkedAt(s, Everyone(s), was, at, pid)
    {
      assert InPlace(s, pid) && OnTimeAt(s, Pinned(was), pid);
    }
    MovesKeepMarks(s, Everyone(s), was, at, ms, s', b');
    forall pid | Live(s', pid)
      ensures OnTimeAt(s', Pinned(at), pid) <==> !LagsAt(s', b', pid)
    {
      assert MarkedAt(s', b', was, at, pid);
    }
  }

  // ---- the simple case: nobody execs or exits meanwhile ----

  /** A move of a freeze over the snapshot, in a tree where nobody execs or exits and fork events name their child. */
  predicate Calm(m: Move, snapshot: set<Pid>)
  {
    match m
    case Tree(e) => !e.Exec? && !e.Exit? && (e.Poll? ==> e.choice.named)
    case WriteTo(pid) => pid in snapshot
    case RecordOf(pid) => pid in snapshot
  }

  /** Every process lives, none stands at an exec, and the processes of the snapshot are still tracked. */
  ghost predicate Peaceful(s: Sys, snapshot: set<Pid>)
  {
    && (forall pid :: pid in s.procs ==> !s.procs[pid].stop.Exited? && !s.procs[pid].stop.AtExec?)
    && (forall pid :: pid in s.procs && s.procs[pid].stop.AtFork? ==> s.procs[pid].stop.child in s.procs)
    && (forall pid :: pid in snapshot ==> Tracks(s.t, pid) && pid in s.procs)
  }

  lemma PeacefulDo(s: Sys, snapshot: set<Pid>, at: int, m: Move)
    requires Sound(s) && Peaceful(s, snapshot) && May(s, m) && Calm(m, snapshot)
    ensures Peaceful(Do(s, at, m), snapshot)
  {
    if m.Tree? && m.e.Poll? {
      assert InPlace(s, m.e.pid);
    }
  }

  /** The forker is no process of the snapshot, or was written before; the same for the fork's handling and the record. */
  ghost predicate Punctual(s: Sys, snapshot: set<Pid>, written: set<Pid>, recorded: set<Pid>, m: Move)
    requires May(s, m)
  {
    match m
    case Tree(e) =>
      && (e.Fork? ==> e.p !in snapshot - written)
      && (e.Poll? && s.procs[e.pid].stop.AtFork? ==> e.pid !in snapshot - recorded)
    case _ => true
  }

  function WrittenBy(m: Move): set<Pid>
  {
    if m.WriteTo? then {m.pid} else {}
  }

  function RecordedBy(m: Move): set<Pid>
  {
    if m.RecordOf? then {m.pid} else {}
  }

  ghost predicate AllPunctual(s: Sys, at: int, snapshot: set<Pid>, written: set<Pid>, recorded: set<Pid>, ms: seq<Move>)
    decreases |ms|
  {
    ms == [] ||
    (May(s, ms[0]) && Punctual(s, snapshot, written, recorded, ms[0])
     && AllPunctual(Do(s, at, ms[0]), at, snapshot, written + WrittenBy(ms[0]), recorded + RecordedBy(ms[0]), ms[1..]))
  }

  /** Only processes of the snapshot, not yet written or recorded, are behind. */
  ghost predicate OnlyWaiting(s: Sys, b: Behind, snapshot: set<Pid>, written: set<Pid>, recorded: set<Pid>)
  {
    forall pid :: Live(s, pid) ==>
      && (Tracks(s.t, pid) && pid in b.structs ==> pid in snapshot - written)
      && (Tracks(s.t, pid) && pid in b.records ==> pid in snapshot - recorded)
      && (s.procs[pid].stop.AtFork? && Live(s, s.procs[pid].stop.child) ==> s.procs[pid].stop.child !in b.structs)
  }

  lemma PunctualMove(s: Sys, b: Behind, snapshot: set<Pid>, written: set<Pid>, recorded: set<Pid>, at: int, m: Move)
    requires Sound(s) && Peaceful(s, snapshot) && May(s, m) && Calm(m, snapshot)
    requires Punctual(s, snapshot, written, recorded, m) && OnlyWaiting(s, b, snapshot, written, recorded)
    ensures OnlyWaiting(Do(s, at, m), Follow(s, b, m), snapshot, written + WrittenBy(m), recorded + RecordedBy(m))
  {
    var s' := Do(s, at, m);
    if m.Tree? && m.e.Poll? {
      assert InPlace(s, m.e.pid);
    }
    forall q | Live(s', q) && Live(s, q)
      ensures InPlace(s, q)
    {
    }
  }

  /** Some process outside the snapshot is behind, and no write will reach it. */
  ghost predicate LeftBehind(s: Sys, b: Behind, snapshot: set<Pid>, c: Pid)
  {
    && c !in snapshot && Live(s, c)
    && ((Tracks(s.t, c) && (c in b.structs || c in b.records))
        || (c in b.structs && exists p :: Live(s, p) && s.procs[p].stop == AtFork(c)))
  }

  lemma LeftBehindStays(s: Sys, b: Behind, snapshot: set<Pid>, at: int, m: Move, c: Pid)
    requires Sound(s) && Peaceful(s, snapshot) && May(s, m) && Calm(m, snapshot) && LeftBehind(s, b, snapshot, c)
    ensures LeftBehind(Do(s, at, m), Follow(s, b, m), snapshot, c)
  {
    var s' := Do(s, at, m);
    assert InPlace(s, c);
    if m.Tree? && m.e.Poll? {
      assert InPlace(s, m.e.pid);
    }
    if !Tracks(s.t, c) {
      var p :| Live(s, p) && s.procs[p].stop == AtFork(c);
      assert InPlace(s, p);
      if !(m.Tree? && m.e.Poll? && m.e.pid == p) {
        assert Live(s', p) && s'.procs[p].stop == AtFork(c);
      }
    }
  }

  /** A move that is not punctual leaves a child behind. */
  lemma LateMove(s: Sys, b: Behind, snapshot: set<Pid>, written: set<Pid>, recorded: set<Pid>, at: int, m: Move)
    returns (c: Pid)
    requires Sound(s) && Peaceful(s, snapshot) && May(s, m) && Calm(m, snapshot) && snapshot <= s.used
    requires snapshot - written <= b.structs && snapshot - recorded <= b.records
    requires !Punctual(s, snapshot, written, recorded, m)
    ensures LeftBehind(Do(s, at, m), Follow(s, b, m), snapshot, c)
  {
    var s' := Do(s, at, m);
    if m.e.Fork? {
      c := m.e.c;
      assert Live(s', m.e.p) && s'.procs[m.e.p].stop == AtFork(c);
    } else {
      c := s.procs[m.e.pid].stop.child;
      assert InPlace(s, m.e.pid);
    }
  }

  function Written(ms: seq<Move>): set<Pid>
  {
    if ms == [] then {} else WrittenBy(ms[0]) + Written(ms[1..])
  }

  function RecordedIn(ms: seq<Move>): set<Pid>
  {
    if ms == [] then {} else RecordedBy(ms[0]) + RecordedIn(ms[1..])
  }

  lemma {:induction false} WrittenHas(ms: seq<Move>, pid: Pid)
    ensures WriteTo(pid) in ms ==> pid in Written(ms)
    ensures RecordOf(pid) in ms ==> pid in RecordedIn(ms)
  {
    if ms != [] {
      WrittenHas(ms[1..], pid);
      assert ms == [ms[0]] + ms[1..];
    }
  }

  lemma {:induction false} PunctualRun(s: Sys, b: Behind, snapshot: set<Pid>, written: set<Pid>, recorded: set<Pid>, at: int,
                                       ms: seq<Move>, s': Sys, b': Behind)
    requires Sound(s) && Peaceful(s, snapshot) && Moves(s, b, at, ms, s', b') && forall m :: m in ms ==> Calm(m, snapshot)
    requires AllPunctual(s, at, snapshot, written, recorded, ms) && OnlyWaiting(s, b, snapshot, written, recorded)
    ensures OnlyWaiting(s', b', snapshot, written + Written(ms), recorded + RecordedIn(ms))
    decreases |ms|
  {
    hide Sound, Peaceful, OnlyWaiting, Do, Follow, Punctual, Calm;
    if ms == [] {
      assert written + Written(ms) == written && recorded + RecordedIn(ms) == recorded;
    } else {
      var w, r := written + WrittenBy(ms[0]), recorded + RecordedBy(ms[0]);
      SoundDo(s, at, ms[0]);
      PeacefulDo(s, snapshot, at, ms[0]);
      PunctualMove(s, b, snapshot, written, recorded, at, ms[0]);
      PunctualRun(Do(s, at, ms[0]), Follow(s, b, ms[0]), snapshot, w, r, at, ms[1..], s', b');
      assert w + Written(ms[1..]) == written + Written(ms);
      assert r + RecordedIn(ms[1..]) == recorded + RecordedIn(ms);
    }
  }

  lemma {:induction false} LeftBehindForGood(s: Sys, b: Behind, snapshot: set<Pid>, at: int,
                                             ms: seq<Move>, s': Sys, b': Behind, c: Pid)
    requires Sound(s) && Peaceful(s, snapshot) && Moves(s, b, at, ms, s', b') && forall m :: m in ms ==> Calm(m, snapshot)
    requires LeftBehind(s, b, snapshot, c)
    ensures LeftBehind(s', b', snapshot, c) && Peaceful(s', snapshot)
    decreases |ms|
  {
    hide Sound, Peaceful, LeftBehind, Do, Follow, Calm;
    if ms != [] {
      SoundDo(s, at, ms[0]);
      PeacefulDo(s, snapshot, at, ms[0]);
      LeftBehindStays(s, b, snapshot, at, ms[0], c);
      LeftBehindForGood(Do(s, at, ms[0]), Follow(s, b, ms[0]), snapshot, at, ms[1..], s', b', c);
    }
  }

  /** What the freeze has not reached stays behind. */
  lemma StillWaiting(s: Sys, b: Behind, snapshot: set<Pid>, written: set<Pid>, recorded: set<Pid>, at: int, m: Move)
    requires Sound(s) && Peaceful(s, snapshot) && May(s, m) && Calm(m, snapshot) && snapshot <= s.used
    requires snapshot - written <= b.structs && snapshot - recorded <= b.records
    ensures snapshot <= Do(s, at, m).used
    ensures snapshot - (written + WrittenBy(m)) <= Follow(s, b, m).structs
    ensures snapshot - (recorded + RecordedBy(m)) <= Follow(s, b, m).records
  {
    if m.Tree? && m.e.Poll? {
      assert InPlace(s, m.e.pid);
    }
  }

  lemma {:induction false} LateRun(s: Sys, b: Behind, snapshot: set<Pid>, written: set<Pid>, recorded: set<Pid>, at: int,
                                   ms: seq<Move>, s': Sys, b': Behind) returns (c: Pid)
    requires Sound(s) && Peaceful(s, snapshot) && Moves(s, b, at, ms, s', b') && forall m :: m in ms ==> Calm(m, snapshot)
    requires snapshot <= s.used && snapshot - written <= b.structs && snapshot - recorded <= b.records
    requires !AllPunctual(s, at, snapshot, written, recorded, ms)
    ensures LeftBehind(s', b', snapshot, c) && Peaceful(s', snapshot)
    decreases |ms|
  {
    hide Sound, Peaceful, LeftBehind, Do, Follow, Punctual, Calm;
    SoundDo(s, at, ms[0]);
    PeacefulDo(s, snapshot, at, ms[0]);
    if !Punctual(s, snapshot, written, recorded, ms[0]) {
      c := LateMove(s, b, snapshot, written, recorded, at, ms[0]);
      LeftBehindForGood(Do(s, at, ms[0]), Follow(s, b, ms[0]), snapshot, at, ms[1..], s', b', c);
    } else {
      StillWaiting(s, b, snapshot, written, recorded, at, ms[0]);
      c := LateRun(Do(s, at, ms[0]), Follow(s, b, ms[0]), snapshot, written + WrittenBy(ms[0]), recorded + RecordedBy(ms[0]),
                   at, ms[1..], s', b');
    }
  }

  lemma LeftBehindLags(s: Sys, b: Behind, snapshot: set<Pid>, c: Pid)
    requires Peaceful(s, snapshot) && LeftBehind(s, b, snapshot, c)
    ensures exists pid :: Live(s, pid) && LagsAt(s, b, pid)
  {
    if Tracks(s.t, c) {
      assert LagsAt(s, b, c);
    } else {
      var p :| Live(s, p) && s.procs[p].stop == AtFork(c);
      assert LagsAt(s, b, p);
    }
  }

  /** If a fork awaits handling at the snapshot, its child is left behind; if none does, only the snapshot waits. */
  lemma AtTheSnapshot(s: Sys) returns (c: Pid)
    requires Sound(s)
    ensures ForkAwaits(s) ==> LeftBehind(s, Everyone(s), TrackedPids(s.t), c)
    ensures !ForkAwaits(s) ==> OnlyWaiting(s, Everyone(s), TrackedPids(s.t), {}, {})
    ensures forall pid :: pid in TrackedPids(s.t) && Live(s, pid) ==> pid in s.used
  {
    c := 0;
    if ForkAwaits(s) {
      var p :| Live(s, p) && s.procs[p].stop.AtFork? && Live(s, s.procs[p].stop.child);
      c := s.procs[p].stop.child;
      assert InPlace(s, p);
    }
  }

  /**
   While nobody execs or exits, a bulk freeze that the tree keeps forking under
   ends with the whole tree on the new instant exactly when no fork awaited
   handling at the snapshot, every process of the snapshot forked only after its
   own write, and each of its forks was handled only after its own record.
   */
  lemma CalmFreezeReachesAllIff(s: Sys, was: int, at: int, ms: seq<Move>, s': Sys, b': Behind)
    requires Sound(s) && OnTime(s, Pinned(was)) && was != at && Peaceful(s, TrackedPids(s.t))
    requires Moves(s, Everyone(s), at, ms, s', b') && forall m :: m in ms ==> Calm(m, TrackedPids(s.t))
    requires forall pid :: pid in TrackedPids(s.t) ==> WriteTo(pid) in ms && RecordOf(pid) in ms
    ensures OnTime(s', Pinned(at)) <==> !ForkAwaits(s) && AllPunctual(s, at, TrackedPids(s.t), {}, {}, ms)
  {
    hide Sound, OnTime, Moves, AllPunctual, ForkAwaits, LagsAt, Calm;
    var snapshot := TrackedPids(s.t);
    FreezeReachesAllIff(s, was, at, ms, s', b');
    var c := AtTheSnapshot(s);
    assert forall pid :: pid in snapshot ==> pid in s.used;
    if ForkAwaits(s) {
      LeftBehindForGood(s, Everyone(s), snapshot, at, ms, s', b', c);
      LeftBehindLags(s', b', snapshot, c);
    } else if !AllPunctual(s, at, snapshot, {}, {}, ms) {
      SnapshotInUse(s);
      c := LateRun(s, Everyone(s), snapshot, {}, {}, at, ms, s', b');
      LeftBehindLags(s', b', snapshot, c);
    } else {
      PunctualRun(s, Everyone(s), snapshot, {}, {}, at, ms, s', b');
      forall pid | Live(s', pid)
        ensures !LagsAt(s', b', pid)
      {
        NobodyWaits(s', b', snapshot, {} + Written(ms), {} + RecordedIn(ms), ms, pid);
      }
    }
  }

  lemma SnapshotInUse(s: Sys)
    requires Sound(s) && Peaceful(s, TrackedPids(s.t))
    ensures TrackedPids(s.t) <= s.used && TrackedPids(s.t) - {} <= s.used
  {
  }

  lemma NobodyWaits(s: Sys, b: Behind, snapshot: set<Pid>, written: set<Pid>, recorded: set<Pid>, ms: seq<Move>, pid: Pid)
    requires OnlyWaiting(s, b, snapshot, written, recorded) && Live(s, pid)
    requires written == {} + Written(ms) && recorded == {} + RecordedIn(ms)
    requires forall p :: p in snapshot ==> WriteTo(p) in ms && RecordOf(p) in ms
    ensures !LagsAt(s, b, pid)
  {
    WrittenHas(ms, pid);
  }
}
