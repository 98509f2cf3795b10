/** remoteMmap and injectWithTracer (pkg/inject/inject.go). */
module Injector {
  import opened Words
  import opened Memory
  import opened StateStruct
  import opened GapSearch
  import opened Jumps
  import opened Traced
  import opened GoClock
  import opened Records

  datatype Mapped = MappedAt(page: Word) | MmapFailed
  datatype Attempt = Attempt(flags: Word, addr: Word)

  /** Nothing but freshly mapped pages differs from before, and registers are as they were. */
  twostate predicate Transparent(t: Tracee)
    reads t
  {
    && t.regs == old(t.regs)
    && SameBut(old(t.mem), t.mem, t.pages - old(t.pages), 0, 0)
  }

  /**
   A moment while code bytes are borrowed: at most the eight bytes at a and fresh
   pages differ, and those eight bytes are the original ones, with or without the
   stub in front.
   */
  ghost predicate MidBorrow(m0: Mem, m: Mem, pages: set<Word>, a: int)
  {
    && SameBut(m0, m, pages, a, 8)
    && (BytesAt(m, a, 8) == BytesAt(m0, a, 8) || BytesAt(m, a, 8) == STUB + BytesAt(m0, a, 8)[3..])
  }

  ghost predicate AllMidBorrow(m0: Mem, ms: seq<Mem>, pages: set<Word>, a: int)
  {
    forall k :: 0 <= k < |ms| ==> MidBorrow(m0, ms[k], pages, a)
  }

  /** While code bytes are borrowed, now and at every moment since; no mapping was overwritten. */
  twostate predicate Borrowed(t: Tracee, a: Word)
    reads t
  {
    && SameBut(old(t.mem), t.mem, t.pages - old(t.pages), a, 8)
    && old(t.pages) <= t.pages
    && (forall p :: p in t.pages - old(t.pages) ==> old(t.Free(p)))
    && t.replaced == old(t.replaced)
    && |t.history| >= |old(t.history)| && t.history[..|old(t.history)|] == old(t.history)
    && AllMidBorrow(old(t.mem), t.history[|old(t.history)|..], t.pages - old(t.pages), a)
    && (old(t.Current()) ==> t.Current())
  }

  function MmapRegs(orig: PtraceRegs, patchAddr: Word, a: Attempt): PtraceRegs
  {
    orig.(rip := patchAddr, rax := SYS_MMAP, rdi := a.addr, rsi := PAGE, rdx := PROT_RWX,
          r10 := a.flags, r8 := TWO64 - 1, r9 := 0)
  }

  function Attempts(fixedAddr: Word): seq<Attempt>
  {
    if fixedAddr != 0 then
      [Attempt(MAP_BASE + MAP_FIXED_NOREPLACE, fixedAddr), Attempt(MAP_BASE + MAP_FIXED, fixedAddr)]
    else
      [Attempt(MAP_BASE, 0)]
  }

  predicate Retryable(rax: Word)
  {
    TWO64 - rax == EBADF || TWO64 - rax == EEXIST
  }

  /**
   The mmap calls made for one page: at most two, through the stub at entry, with
   the caller's registers otherwise; the first refuses to replace a mapping, the
   second does not.
   */
  ghost predicate Requested(regs: PtraceRegs, entry: Word, page: Word, made: seq<Asked>)
  {
    && |made| <= (if page == 0 then 1 else 2)
    && forall i :: 0 <= i < |made| ==>
      made[i].regs == regs.(
        rip := entry, rax := SYS_MMAP, rdi := page, rsi := PAGE, rdx := PROT_RWX, r8 := TWO64 - 1, r9 := 0,
        r10 := MAP_BASE + if page == 0 then 0 else if i == 0 then MAP_FIXED_NOREPLACE else MAP_FIXED)
  }

  /** The answers decide: EBADF or EEXIST asks for the second call, and the last one maps the page or does not. */
  ghost predicate AsAnswered(page: Word, made: seq<Asked>, got: bool)
  {
    && |made| > 0 && (got <==> made[|made| - 1].rax < TWO63)
    && (|made| == 2 <==> page != 0 && (made[0].rax == TWO64 - EBADF || made[0].rax == TWO64 - EEXIST))
  }

  /** The two restoring calls. */
  method GiveBack(t: Tracee, a: Word, regs: PtraceRegs, b: seq<Byte>) returns (ok: bool)
    modifies t`mem, t`regs, t`history, t`pokeLanded, t`regsLanded, t`faults
    ensures t.faults >= old(t.faults) && (ok <==> t.faults == old(t.faults))
    ensures t.mem == old(t.mem) || t.mem == Poke(old(t.mem), a, b)
    ensures ok ==> t.mem == Poke(old(t.mem), a, b) && t.regs == regs
    ensures t.history == old(t.history) || t.history == old(t.history) + [Poke(old(t.mem), a, b)]
    ensures old(t.Current()) ==> t.Current()
  {
    ok := t.PokeText(a, b);
    if ok {
      ok := t.SetRegs(regs);
    }
  }

  lemma Composes(m0: Mem, m1: Mem, m2: Mem, p: set<Word>, q: set<Word>, a: int)
    requires SameBut(m0, m1, p, a, 8) && SameBut(m1, m2, q, 0, 0)
    ensures SameBut(m0, m2, p + q, a, 8)
  {
    forall x | !InPages(x, p + q) && !Within(x, a, 8)
      ensures m2(x) == m0(x)
    {
      assert !InPages(x, p) && !InPages(x, q);
    }
  }

  lemma SameAsItself(m: Mem, a: int)
    ensures SameBut(m, m, {}, a, 8) && SameBut(m, m, {}, 0, 0)
  {
  }

  /** Putting the stub in, or the originals back, is a moment of borrowing. */
  lemma PokeMid(m0: Mem, m: Mem, pages: set<Word>, a: int)
    requires SameBut(m0, m, pages, a, 8)
    ensures MidBorrow(m0, Poke(m, a, BytesAt(m0, a, 8)), pages, a)
    ensures BytesAt(m, a, 8) == BytesAt(m0, a, 8) ==> MidBorrow(m0, Poke(m, a, STUB), pages, a)
  {
    hide SameBut;
    var o := BytesAt(m0, a, 8);
    PokedFront(m, a, o, 8);
    PokedFront(m, a, STUB, 8);
    assert o + BytesAt(m, a, 8)[8..] == o;
    PokeStays(m0, m, pages, a, o);
    PokeStays(m0, m, pages, a, STUB);
  }

  lemma PokedFront(m: Mem, a: int, b: seq<Byte>, n: nat)
    requires |b| <= n
    ensures BytesAt(Poke(m, a, b), a, n) == b + BytesAt(m, a, n)[|b|..]
  {
  }

  /** So is every moment of an mmap call, whose page misses the borrowed bytes. */
  lemma LandingMid(m0: Mem, m: Mem, k: Mem, landed: set<Word>, a: int)
    requires MidBorrow(m0, m, {}, a) && SameBut(m, k, landed, 0, 0)
    requires forall p :: p in landed ==> Disjoint(p, PAGE, a, 8)
    ensures MidBorrow(m0, k, landed, a)
  {
    Composes(m0, m, k, {}, landed, a);
    assert {} + landed == landed;
    forall i | 0 <= i < 8
      ensures BytesAt(k, a, 8)[i] == BytesAt(m, a, 8)[i]
    {
      assert !InPages(a + i, landed);
    }
    assert BytesAt(k, a, 8) == BytesAt(m, a, 8);
  }

  lemma WiderMid(m0: Mem, ms: seq<Mem>, landed: set<Word>, a: int)
    requires AllMidBorrow(m0, ms, {}, a)
    ensures AllMidBorrow(m0, ms, landed, a)
  {
  }

  /** The moments of one attempt extend those before it. */
  lemma AttemptMid(m0: Mem, before: seq<Mem>, m: Mem, after: seq<Mem>, landed: set<Word>, a: int)
    requires AllMidBorrow(m0, before, {}, a) && MidBorrow(m0, m, {}, a)
    requires |before| <= |after| && after[..|before|] == before
    requires forall k :: |before| <= k < |after| ==> SameBut(m, after[k], landed, 0, 0)
    requires forall p :: p in landed ==> Disjoint(p, PAGE, a, 8)
    ensures AllMidBorrow(m0, after, landed, a)
  {
    WiderMid(m0, before, landed, a);
    forall k | 0 <= k < |after|
      ensures MidBorrow(m0, after[k], landed, a)
    {
      if k < |before| {
        assert after[k] == after[..|before|][k];
      } else {
        LandingMid(m0, m, after[k], landed, a);
      }
    }
  }

  lemma NothingMid(m0: Mem, a: int)
    ensures AllMidBorrow(m0, [], {}, a)
  {
  }

  lemma OneMoreMid(m0: Mem, ms: seq<Mem>, k: Mem, pages: set<Word>, a: int)
    requires AllMidBorrow(m0, ms, pages, a) && MidBorrow(m0, k, pages, a)
    ensures AllMidBorrow(m0, ms + [k], pages, a)
  {
  }

  lemma TailOneMore(h: seq<Mem>, n: nat, k: Mem)
    requires n <= |h|
    ensures (h + [k])[n..] == h[n..] + [k]
  {
  }

  lemma TailKeeps(h: seq<Mem>, k: seq<Mem>, n: nat)
    requires n <= |h| <= |k| && k[..|h|] == h
    ensures k[n..][..|h| - n] == h[n..]
    ensures forall i :: |h| - n <= i < |k| - n ==> k[n..][i] == k[n + i]
  {
    assert k[n..][..|h| - n] == k[..|h|][n..];
  }

  lemma JustLanded(pages: set<Word>, landed: set<Word>)
    requires forall p :: p in landed ==> forall q :: q in pages ==> Disjoint(p, PAGE, q, PAGE)
    ensures {} + landed == landed == (pages + landed) - pages
  {
    forall p | p in landed
      ensures p !in pages
    {
      assert !Disjoint(p, PAGE, p, PAGE);
    }
  }

  lemma PagesMissBytes(spans: seq<Span>, landed: set<Word>, a: int)
    requires InText(spans, a, 8) && forall p :: p in landed ==> Unmapped(p, spans)
    ensures forall p :: p in landed ==> Disjoint(p, PAGE, a, 8)
  {
    forall p | p in landed
      ensures Disjoint(p, PAGE, a, 8)
    {
      FreeMissesText(spans, p, a, 8);
    }
  }

  lemma NothingLanded(m: Mem, k: Mem, a: int, n: nat)
    requires SameBut(m, k, {}, 0, 0)
    ensures BytesAt(k, a, n) == BytesAt(m, a, n)
  {
  }

  lemma PokeStays(m0: Mem, m: Mem, pages: set<Word>, a: int, b: seq<Byte>)
    requires SameBut(m0, m, pages, a, 8) && |b| <= 8
    ensures SameBut(m0, Poke(m, a, b), pages, a, 8)
  {
  }

  lemma OriginalsBack(m0: Mem, m: Mem, pages: set<Word>, a: int)
    requires SameBut(m0, m, pages, a, 8)
    ensures SameBut(m0, Poke(m, a, BytesAt(m0, a, 8)), pages, 0, 0)
    ensures SameBut(m0, Poke(m, a, BytesAt(m0, a, 8)), pages, a, 8)
  {
  }

  /** One mmap call through the stub; got says whether its result could be read. */
  method TryOnce(t: Tracee, patchAddr: Word, origRegs: PtraceRegs, att: Attempt)
    returns (got: bool, rax: Word, ghost landed: set<Word>, ghost made: seq<Asked>)
    requires BytesAt(t.mem, patchAddr, 3) == STUB
    requires FixedFlag(att.flags) ==> t.Free(att.addr)
    modifies t
    ensures t.faults >= old(t.faults) && (got <==> t.faults == old(t.faults))
    ensures t.asked == old(t.asked) + made && |made| <= 1
    ensures forall q :: q in made ==> q.regs == MmapRegs(origRegs, patchAddr, att)
    ensures got ==> |made| == 1 && made[0].rax == rax
    ensures t.pages == old(t.pages) + landed && SameBut(old(t.mem), t.mem, landed, 0, 0)
    ensures forall p :: p in landed ==> old(t.Free(p)) && p % PAGE == 0 && p + PAGE <= TWO63
    ensures t.replaced == old(t.replaced)
    ensures got ==> (rax < TWO63 && landed == {rax}) || (rax >= TWO64 - MAX_ERRNO && landed == {})
    ensures |t.history| >= |old(t.history)| && t.history[..|old(t.history)|] == old(t.history)
    ensures forall k :: |old(t.history)| <= k < |t.history| ==> SameBut(old(t.mem), t.history[k], landed, 0, 0)
    ensures old(t.Current()) ==> t.Current()
  {
    hide BytesAt, Poke, SameBut, Unmapped;
    landed, rax, made := {}, 0, [];
    SameAsItself(t.mem, 0);
    got := t.SetRegs(MmapRegs(origRegs, patchAddr, att));
    if !got {
      return;
    }
    var s;
    s, landed := t.Resume();
    made := [t.asked[|t.asked| - 1]];
    if !s.Trapped? {
      return false, 0, landed, made;
    }
    var post;
    got, post := t.GetRegs();
    rax := post.rax;
  }

  /** The calls of the first attempts, all to be retried. */
  ghost predicate Tried(regs: PtraceRegs, entry: Word, page: Word, made: seq<Asked>)
  {
    && |made| < |Attempts(page)|
    && forall j :: 0 <= j < |made| ==> made[j].regs == MmapRegs(regs, entry, Attempts(page)[j]) && Retryable(made[j].rax)
  }

  lemma NothingTried(regs: PtraceRegs, entry: Word, page: Word)
    ensures Tried(regs, entry, page, [])
  {
  }

  lemma TriedOnce(regs: PtraceRegs, entry: Word, page: Word, made: seq<Asked>, one: seq<Asked>)
    requires Tried(regs, entry, page, made)
    requires |one| <= 1 && forall q :: q in one ==> q.regs == MmapRegs(regs, entry, Attempts(page)[|made|])
    ensures Requested(regs, entry, page, made + one)
    ensures |one| == 1 ==>
      if |made| < |Attempts(page)| - 1 && Retryable(one[0].rax) then Tried(regs, entry, page, made + one)
      else AsAnswered(page, made + one, one[0].rax < TWO63)
  {
  }

  /** The attempts, until one maps a page. */
  method TryAttempts(t: Tracee, patchAddr: Word, fixedAddr: Word, origRegs: PtraceRegs)
    returns (got: bool, page: Word, ghost landed: set<Word>, ghost made: seq<Asked>)
    requires BytesAt(t.mem, patchAddr, 3) == STUB
    requires fixedAddr != 0 ==> t.Free(fixedAddr)
    modifies t
    ensures t.asked == old(t.asked) + made && Requested(origRegs, patchAddr, fixedAddr, made)
    ensures t.faults >= old(t.faults) && (t.faults > old(t.faults) ==> !got)
    ensures t.faults == old(t.faults) ==> AsAnswered(fixedAddr, made, got)
    ensures got ==> page == made[|made| - 1].rax
    ensures t.pages == old(t.pages) + landed && SameBut(old(t.mem), t.mem, landed, 0, 0)
    ensures forall p :: p in landed ==> old(t.Free(p)) && p % PAGE == 0 && p + PAGE <= TWO63
    ensures t.replaced == old(t.replaced)
    ensures got ==> landed == {page}
    ensures |t.history| >= |old(t.history)| && t.history[..|old(t.history)|] == old(t.history)
    ensures forall k :: |old(t.history)| <= k < |t.history| ==> SameBut(old(t.mem), t.history[k], landed, 0, 0)
    ensures old(t.Current()) ==> t.Current()
  {
    hide BytesAt, Poke, SameBut, Unmapped, Tried, Requested, AsAnswered, MmapRegs;
    got, page, landed, made := false, 0, {}, [];
    SameAsItself(t.mem, 0);
    var attempts := Attempts(fixedAddr);
    NothingTried(origRegs, patchAddr, fixedAddr);
    var i := 0;
    while i < |attempts|
      invariant 0 <= i < |attempts| && landed == {} && |made| == i
      invariant t.asked == old(t.asked) + made && t.faults == old(t.faults)
      invariant Tried(origRegs, patchAddr, fixedAddr, made)
      invariant t.pages == old(t.pages) && t.replaced == old(t.replaced) && (old(t.Current()) ==> t.Current())
      invariant SameBut(old(t.mem), t.mem, {}, 0, 0) && BytesAt(t.mem, patchAddr, 3) == STUB
      invariant |t.history| >= |old(t.history)| && t.history[..|old(t.history)|] == old(t.history)
      invariant forall k :: |old(t.history)| <= k < |t.history| ==> SameBut(old(t.mem), t.history[k], {}, 0, 0)
    {
      ghost var m1, h1 := t.mem, t.history;
      var done, rax, more, one := TryOnce(t, patchAddr, origRegs, attempts[i]);
      TriedOnce(origRegs, patchAddr, fixedAddr, made, one);
      landed, made := more, made + one;
      SameThen(old(t.mem), m1, landed);
      if landed == {} {
        NothingLanded(m1, t.mem, patchAddr, 3);
      }
      if !done {
        return;
      }
      if rax < TWO63 {
        return true, rax, landed, made;
      }
      if i < |attempts| - 1 && Retryable(rax) {
        i := i + 1;
        continue;
      }
      return;
    }
  }

  /** Where nothing has changed yet, what an attempt leaves is what it would leave of the start. */
  lemma SameThen(m0: Mem, m1: Mem, landed: set<Word>)
    requires SameBut(m0, m1, {}, 0, 0)
    ensures forall k: Mem {:trigger SameBut(m1, k, landed, 0, 0)} {:trigger SameBut(m0, k, landed, 0, 0)} ::
      SameBut(m0, k, landed, 0, 0) == SameBut(m1, k, landed, 0, 0)
    ensures forall k: Mem {:trigger SameBut(m0, k, {}, 0, 0)} :: SameBut(m0, k, {}, 0, 0) ==> SameBut(m0, k, landed, 0, 0)
  {
  }

  /** The stub goes in and is run. */
  method MapThroughStub(t: Tracee, patchAddr: Word, fixedAddr: Word, origRegs: PtraceRegs)
    returns (got: bool, page: Word, ghost landed: set<Word>, ghost made: seq<Asked>)
    requires InText(t.spans, patchAddr, 8)
    requires fixedAddr != 0 ==> t.Free(fixedAddr)
    modifies t
    ensures t.asked == old(t.asked) + made && Requested(origRegs, patchAddr, fixedAddr, made)
    ensures t.faults >= old(t.faults) && (t.faults > old(t.faults) ==> !got)
    ensures t.faults == old(t.faults) ==> AsAnswered(fixedAddr, made, got)
    ensures got ==> page == made[|made| - 1].rax
    ensures Borrowed(t, patchAddr)
    ensures t.pages == old(t.pages) + landed
    ensures forall p :: p in landed ==> old(t.Free(p)) && p % PAGE == 0 && p + PAGE <= TWO63
    ensures got ==> landed == {page}
  {
    hide BytesAt, Poke, SameBut, InText, Unmapped, MidBorrow, AllMidBorrow, Disjoint;
    ghost var m0, n0 := t.mem, |t.history|;
    SameAsItself(m0, patchAddr);
    PokeStays(m0, m0, {}, patchAddr, STUB);
    PokedBytes(m0, patchAddr, STUB);
    PokeMid(m0, m0, {}, patchAddr);
    NothingMid(m0, patchAddr);
    assert t.history[n0..] == [] && t.pages - old(t.pages) == {};
    page, landed, made := 0, {}, [];
    got := t.PokeText(patchAddr, STUB);
    if !got {
      return;
    }
    OneMoreMid(m0, [], t.mem, {}, patchAddr);
    TailOneMore(old(t.history), n0, t.mem);
    ghost var m1, h1, tail1 := t.mem, t.history, t.history[n0..];
    got, page, landed, made := TryAttempts(t, patchAddr, fixedAddr, origRegs);
    TailKeeps(h1, t.history, n0);
    Composes(m0, m1, t.mem, {}, landed, patchAddr);
    JustLanded(old(t.pages), landed);
    PagesMissBytes(t.spans, landed, patchAddr);
    AttemptMid(m0, tail1, m1, t.history[n0..], landed, patchAddr);
  }

  /** The part of remoteMmap between saving the originals and the deferred restore. */
  method MmapThroughStub(t: Tracee, patchAddr: Word, fixedAddr: Word, origRegs: PtraceRegs, origBytes: seq<Byte>)
    returns (r: Mapped, restored: bool, ghost made: seq<Asked>)
    requires origRegs == t.regs && origBytes == BytesAt(t.mem, patchAddr, 8)
    requires InText(t.spans, patchAddr, 8)
    requires fixedAddr != 0 ==> t.Free(fixedAddr)
    modifies t
    ensures t.asked == old(t.asked) + made && Requested(origRegs, patchAddr, fixedAddr, made)
    ensures t.faults >= old(t.faults) && (t.faults > old(t.faults) ==> r.MmapFailed?)
    ensures t.faults == old(t.faults) ==> AsAnswered(fixedAddr, made, r.MappedAt?)
    ensures r.MappedAt? ==> r.page == made[|made| - 1].rax
    ensures Borrowed(t, patchAddr)
    ensures restored <==> r.MappedAt?
    ensures restored ==> Transparent(t)
    ensures r.MappedAt? ==>
      t.pages == old(t.pages) + {r.page} && old(t.Free(r.page)) && r.page % PAGE == 0 && r.page + PAGE <= TWO63
  {
    hide BytesAt, Poke, SameBut, InText, Unmapped, MidBorrow, AllMidBorrow;
    ghost var m0, n0 := t.mem, |t.history|;
    var got, page, landed, calls := MapThroughStub(t, patchAddr, fixedAddr, origRegs);
    made := calls;
    if !got {
      return MmapFailed, false, made;
    }
    ghost var pages, back := t.pages - old(t.pages), Poke(t.mem, patchAddr, origBytes);
    PokeMid(m0, t.mem, pages, patchAddr);
    OriginalsBack(m0, t.mem, pages, patchAddr);
    OneMoreMid(m0, t.history[n0..], back, pages, patchAddr);
    TailOneMore(t.history, n0, back);
    var ok := GiveBack(t, patchAddr, origRegs, origBytes);
    if !ok {
      return MmapFailed, false, made;
    }
    return MappedAt(page), true, made;
  }

  /**
   remoteMmap. On every exit, if the latest poke took effect then every byte
   outside a page that was free before is what it was, and if the latest setting
   of the registers took effect then they are what they were: whatever else
   failed, the process cannot tell. No mapping is replaced. It fails only where
   some call failed or the last mmap call was refused.
   */
  method RemoteMmap(t: Tracee, patchAddr: Word, fixedAddr: Word) returns (r: Mapped, ghost made: seq<Asked>)
    requires InText(t.spans, patchAddr, 8)
    requires fixedAddr != 0 ==> t.Free(fixedAddr)
    modifies t
    ensures t.asked == old(t.asked) + made && Requested(old(t.regs), patchAddr, fixedAddr, made)
    ensures t.faults >= old(t.faults) && (t.faults > old(t.faults) ==> r.MmapFailed?)
    ensures t.faults == old(t.faults) ==> AsAnswered(fixedAddr, made, r.MappedAt?)
    ensures r.MappedAt? ==> r.page == made[|made| - 1].rax
    ensures Borrowed(t, patchAddr)
    ensures t.pokeLanded ==> SameBut(old(t.mem), t.mem, t.pages - old(t.pages), 0, 0)
    ensures t.regsLanded ==> t.regs == old(t.regs)
    ensures r.MappedAt? ==> Transparent(t)
    ensures r.MappedAt? ==>
      t.pages == old(t.pages) + {r.page} && old(t.Free(r.page)) && r.page % PAGE == 0 && r.page + PAGE <= TWO63
  {
    hide BytesAt, Poke, SameBut, InText, Unmapped, MidBorrow, AllMidBorrow;
    ghost var m0, n0 := t.mem, |t.history|;
    SameAsItself(m0, patchAddr);
    NothingMid(m0, patchAddr);
    assert t.history[n0..] == [] && t.pages - old(t.pages) == {};
    made := [];
    var got, origRegs := t.GetRegs();
    if !got {
      return MmapFailed, made;
    }
    var read, origBytes := t.ReadMem(patchAddr, 8);
    if !read {
      return MmapFailed, made;
    }
    var restored: bool;
    r, restored, made := MmapThroughStub(t, patchAddr, fixedAddr, origRegs, origBytes);
    if !restored {
      ghost var pages, back := t.pages - old(t.pages), Poke(t.mem, patchAddr, origBytes);
      PokeMid(m0, t.mem, pages, patchAddr);
      OriginalsBack(m0, t.mem, pages, patchAddr);
      OneMoreMid(m0, t.history[n0..], back, pages, patchAddr);
      TailOneMore(t.history, n0, back);
      var _ := t.PokeText(patchAddr, origBytes);
      var _ := t.SetRegs(origRegs);
    }
  }

  /** An entry point to patch, and where its stub lies in the payload. */
  datatype Hook = Hook(addr: Word, entryOffset: nat)
  datatype Patched = Patched(addr: Word, orig: seq<Byte>)

  /** At which of its steps injectWithTracer gave up. */
  datatype InjectError = NoNearbyGap | NoMapping | PayloadNotWritten | EntryNotPatched
  datatype Injection = Injected(stateAddr: Word, patched: seq<Patched>) | Failed(error: InjectError)

  /** The mapping was made and handed over: remoteMmap is over. */
  predicate PastMapping(r: Injection)
  {
    r.Injected? || r.error.PayloadNotWritten? || r.error.EntryNotPatched?
  }

  function Hooks(clockGettime: Word, gettimeofday: Word, time: Word): (h: seq<Hook>)
    ensures |h| == 3
  {
    [Hook(clockGettime, CLOCK_GETTIME_ENTRY), Hook(gettimeofday, GETTIMEOFDAY_ENTRY), Hook(time, TIME_ENTRY)]
  }

  /** The template with the initial state in place of its last 32 bytes. */
  function Payload(template: seq<Byte>, s: State): (p: seq<Byte>)
    requires |template| == STATE_OFFSET + STATE_SIZE
    ensures |p| == |template| && p[..STATE_OFFSET] == template[..STATE_OFFSET] && p[STATE_OFFSET..] == Bytes(s)
  {
    template[..STATE_OFFSET] + Bytes(s)
  }

  /** Where the payload is, its code and its state are. */
  lemma PayloadParts(m: Mem, page: Word, template: seq<Byte>, s: State)
    requires |template| == STATE_OFFSET + STATE_SIZE
    requires BytesAt(m, page, STATE_OFFSET + STATE_SIZE) == Payload(template, s)
    ensures BytesAt(m, page, STATE_OFFSET) == template[..STATE_OFFSET]
    ensures BytesAt(m, page + STATE_OFFSET, STATE_SIZE) == Bytes(s)
  {
    hide Payload, Bytes;
    var all := BytesAt(m, page, STATE_OFFSET + STATE_SIZE);
    assert BytesAt(m, page, STATE_OFFSET) == all[..STATE_OFFSET];
    assert BytesAt(m, page + STATE_OFFSET, STATE_SIZE) == all[STATE_OFFSET..];
  }

  ghost predicate HooksInText(spans: seq<Span>, hooks: seq<Hook>)
  {
    && (forall i :: 0 <= i < |hooks| ==> InText(spans, hooks[i].addr, JMP_SIZE) && hooks[i].addr < TWO63)
    && (forall i, j :: 0 <= i < j < |hooks| ==> Disjoint(hooks[i].addr, JMP_SIZE, hooks[j].addr, JMP_SIZE))
  }

  ghost predicate Original(m: Mem, m0: Mem, h: Hook)
  {
    BytesAt(m, h.addr, JMP_SIZE) == BytesAt(m0, h.addr, JMP_SIZE)
  }

  /** The entry jumps to its own stub, and the whole payload is there. */
  ghost predicate Hooked(m: Mem, h: Hook, page: Word, payload: seq<Byte>)
  {
    && JumpsTo(BytesAt(m, h.addr, JMP_SIZE), h.addr, ToWord(page + h.entryOffset))
    && BytesAt(m, page, |payload|) == payload
  }

  /** Whichever function the process calls, it runs the original or the complete replacement. */
  ghost predicate Safe(m: Mem, m0: Mem, hooks: seq<Hook>, page: Word, payload: seq<Byte>)
  {
    forall i :: 0 <= i < |hooks| ==> Original(m, m0, hooks[i]) || Hooked(m, hooks[i], page, payload)
  }

  /** Only the page and the entry bytes differ. */
  ghost predicate OnlyPatched(m0: Mem, m: Mem, hooks: seq<Hook>, page: Word)
  {
    forall x :: !Within(x, page, PAGE) && (forall i :: 0 <= i < |hooks| ==> !Within(x, hooks[i].addr, JMP_SIZE))
      ==> m(x) == m0(x)
  }

  /** Write the saved bytes back, entry by entry. */
  function WriteBack(m: Mem, patched: seq<Patched>): Mem
  {
    if patched == [] then m
    else
      var front, last := patched[..|patched| - 1], patched[|patched| - 1];
      Poke(WriteBack(m, front), last.addr, last.orig)
  }

  ghost predicate Saved(m0: Mem, hooks: seq<Hook>, patched: seq<Patched>)
  {
    && |patched| <= |hooks|
    && forall i :: 0 <= i < |patched| ==>
      patched[i].addr == hooks[i].addr && patched[i].orig == BytesAt(m0, hooks[i].addr, JMP_SIZE)
  }

  lemma {:induction false} WriteBackBytes(m0: Mem, m: Mem, hooks: seq<Hook>, patched: seq<Patched>, x: int)
    requires Saved(m0, hooks, patched)
    ensures (exists i :: 0 <= i < |patched| && Within(x, hooks[i].addr, JMP_SIZE)) ==> WriteBack(m, patched)(x) == m0(x)
    ensures (forall i :: 0 <= i < |patched| ==> !Within(x, hooks[i].addr, JMP_SIZE)) ==> WriteBack(m, patched)(x) == m(x)
  {
    if patched != [] {
      var n := |patched| - 1;
      WriteBackBytes(m0, m, hooks, patched[..n], x);
      if Within(x, hooks[n].addr, JMP_SIZE) {
        assert BytesAt(m0, hooks[n].addr, JMP_SIZE)[x - hooks[n].addr] == m0(x);
      }
    }
  }

  /** Uninstalling: the saved bytes restore every byte outside the trampoline page. */
  lemma WriteBackRestores(m0: Mem, m: Mem, hooks: seq<Hook>, patched: seq<Patched>, page: Word)
    requires Saved(m0, hooks, patched) && |patched| == |hooks| && OnlyPatched(m0, m, hooks, page)
    ensures forall x :: !Within(x, page, PAGE) ==> WriteBack(m, patched)(x) == m0(x)
  {
    forall x | !Within(x, page, PAGE)
      ensures WriteBack(m, patched)(x) == m0(x)
    {
      WriteBackBytes(m0, m, hooks, patched, x);
    }
  }

  /** The jump of hook number i goes in: one poke takes it from original to hooked, and moves nothing else. */
  lemma PatchOne(m0: Mem, m: Mem, hooks: seq<Hook>, i: nat, page: Word, payload: seq<Byte>)
    requires i < |hooks|
    requires forall j, k :: 0 <= j < k < |hooks| ==> Disjoint(hooks[j].addr, JMP_SIZE, hooks[k].addr, JMP_SIZE)
    requires forall j :: 0 <= j < |hooks| ==> Disjoint(page, PAGE, hooks[j].addr, JMP_SIZE)
    requires |payload| <= PAGE && BytesAt(m, page, |payload|) == payload
    requires forall j :: 0 <= j < i ==> Hooked(m, hooks[j], page, payload)
    requires forall j :: i <= j < |hooks| ==> Original(m, m0, hooks[j])
    requires OnlyPatched(m0, m, hooks, page)
    requires Reaches(ToWord(page + hooks[i].entryOffset), hooks[i].addr)
    ensures var k := Poke(m, hooks[i].addr, JmpBytes(ToWord(page + hooks[i].entryOffset), hooks[i].addr));
      && BytesAt(k, page, |payload|) == payload
      && (forall j :: 0 <= j < i + 1 ==> Hooked(k, hooks[j], page, payload))
      && (forall j :: i + 1 <= j < |hooks| ==> Original(k, m0, hooks[j]))
      && OnlyPatched(m0, k, hooks, page)
  {
    hide JmpBytes, JumpsTo, ToWord, Reaches, BytesAt, Poke, OnlyPatched;
    var h := hooks[i];
    var jmp := JmpBytes(ToWord(page + h.entryOffset), h.addr);
    var k := Poke(m, h.addr, jmp);
    JmpRoundTrip(ToWord(page + h.entryOffset), h.addr);
    PokedBytes(m, h.addr, jmp);
    PokeElsewhere(m, h.addr, jmp, page, |payload|);
    assert Hooked(k, h, page, payload) by { hide Disjoint; }
    forall j | 0 <= j < |hooks| && j != i
      ensures BytesAt(k, hooks[j].addr, JMP_SIZE) == BytesAt(m, hooks[j].addr, JMP_SIZE)
    {
      assert Disjoint(hooks[j].addr, JMP_SIZE, h.addr, JMP_SIZE);
      PokeElsewhere(m, h.addr, jmp, hooks[j].addr, JMP_SIZE);
    }
    OnlyPatchedStays(m0, m, hooks, i, page, jmp);
  }

  lemma OnlyPatchedStays(m0: Mem, m: Mem, hooks: seq<Hook>, i: nat, page: Word, b: seq<Byte>)
    requires i < |hooks| && |b| == JMP_SIZE && OnlyPatched(m0, m, hooks, page)
    ensures OnlyPatched(m0, Poke(m, hooks[i].addr, b), hooks, page)
  {
    var k := Poke(m, hooks[i].addr, b);
    forall x | !Within(x, page, PAGE) && (forall j :: 0 <= j < |hooks| ==> !Within(x, hooks[j].addr, JMP_SIZE))
      ensures k(x) == m0(x)
    {
      assert !Within(x, hooks[i].addr, JMP_SIZE);
    }
  }

  /** The three jumps, one after the other, each after its own range check. */
  method PatchEntries(t: Tracee, hooks: seq<Hook>, page: Word, payload: seq<Byte>, ghost m0: Mem, ghost mark: nat)
    returns (ok: bool, patched: seq<Patched>)
    requires HooksInText(t.spans, hooks) && t.Current() && page + PAGE <= TWO63
    requires forall j :: 0 <= j < |hooks| ==> Disjoint(page, PAGE, hooks[j].addr, JMP_SIZE)
    requires |payload| <= PAGE && BytesAt(t.mem, page, |payload|) == payload
    requires forall j :: 0 <= j < |hooks| ==> Original(t.mem, m0, hooks[j])
    requires OnlyPatched(m0, t.mem, hooks, page)
    requires mark < |t.history| && forall k :: mark <= k < |t.history| ==> Safe(t.history[k], m0, hooks, page, payload)
    modifies t`mem, t`history, t`pokeLanded, t`faults
    ensures t.faults >= old(t.faults)
    ensures ok <==>
      && t.faults == old(t.faults)
      && forall j :: 0 <= j < |hooks| ==> Reaches(ToWord(page + hooks[j].entryOffset), hooks[j].addr)
    ensures t.Current() && |t.history| >= |old(t.history)| && t.history[..|old(t.history)|] == old(t.history)
    ensures forall k :: mark <= k < |t.history| ==> Safe(t.history[k], m0, hooks, page, payload)
    ensures OnlyPatched(m0, t.mem, hooks, page) && BytesAt(t.mem, page, |payload|) == payload
    ensures ok ==> Saved(m0, hooks, patched) && |patched| == |hooks|
    ensures ok ==> forall j :: 0 <= j < |hooks| ==> Hooked(t.mem, hooks[j], page, payload)
  {
    hide Hooked, BytesAt, InText, Poke, JmpBytes, Reaches, OnlyPatched;
    patched := [];
    var i := 0;
    while i < |hooks|
      invariant 0 <= i <= |hooks| && |patched| == i && t.faults == old(t.faults)
      invariant forall j :: 0 <= j < i ==> Reaches(ToWord(page + hooks[j].entryOffset), hooks[j].addr)
      invariant t.Current() && |t.history| >= |old(t.history)| && t.history[..|old(t.history)|] == old(t.history)
      invariant forall k :: mark <= k < |t.history| ==> Safe(t.history[k], m0, hooks, page, payload)
      invariant BytesAt(t.mem, page, |payload|) == payload && OnlyPatched(m0, t.mem, hooks, page)
      invariant forall j :: 0 <= j < i ==> Hooked(t.mem, hooks[j], page, payload)
      invariant forall j :: i <= j < |hooks| ==> Original(t.mem, m0, hooks[j])
      invariant Saved(m0, hooks, patched)
    {
      var h := hooks[i];
      var target := ToWord(page + h.entryOffset);
      if !Reaches(target, h.addr) {
        return false, patched;
      }
      var read, orig := t.ReadMem(h.addr, JMP_SIZE);
      if !read {
        return false, patched;
      }
      PatchOne(m0, t.mem, hooks, i, page, payload);
      var poked := t.PokeText(h.addr, JmpBytes(target, h.addr));
      if !poked {
        return false, patched;
      }
      patched := patched + [Patched(h.addr, orig)];
      i := i + 1;
    }
    ok := true;
  }

  /**
   injectWithTracer. Every memory content the process ever has, to every exit, is
   accounted for. Until remoteMmap is over (before mark) only the borrowed bytes
   and the fresh page differ, and the borrowed bytes are the originals or the
   system call stub: nothing jumps anywhere. From then on each entry point holds
   its original bytes or a jump to its own stub in a fully written payload. On
   success only the page and the three entries differ, the registers are the
   caller's, the saved bytes undo everything outside the page, each function
   jumps to its own stub of the template's code, and the struct after that code
   holds the words given, generation zero.
   The page asked for is the lowest free one in reach, and injection succeeds
   exactly when no call fails, there is such a page, the kernel maps one, and
   all three functions reach it; which of these failed is what is reported.
   */
  method InjectWithTracer(t: Tracee, clockGettime: Word, gettimeofday: Word, time: Word, template: seq<Byte>,
                          sec: Int64, nsec: Int64, mask: Word)
    returns (r: Injection, ghost mark: nat, ghost page: Word, ghost made: seq<Asked>)
    requires SortedMap(t.spans) && t.pages == {} && t.Current()
    requires InText(t.spans, clockGettime, 8) && HooksInText(t.spans, Hooks(clockGettime, gettimeofday, time))
    requires |template| == STATE_OFFSET + STATE_SIZE
    modifies t
    ensures |t.history| >= |old(t.history)| && t.history[..|old(t.history)|] == old(t.history) && t.Current()
    ensures t.replaced == old(t.replaced)
    ensures |old(t.history)| <= mark <= |t.history|
    ensures AllMidBorrow(old(t.mem), t.history[|old(t.history)|..mark], t.pages, clockGettime)
    ensures forall k :: mark <= k < |t.history| ==>
      Safe(t.history[k], old(t.mem), Hooks(clockGettime, gettimeofday, time), page,
           Payload(template, State(sec, nsec, mask, 0)))
    ensures mark < |t.history| <==> PastMapping(r)
    ensures r == Failed(NoNearbyGap) ==> t.history == old(t.history) && t.regs == old(t.regs) && t.pages == {}
    ensures forall p :: p in t.pages ==> old(t.Free(p))
    ensures r == Failed(NoMapping) ==>
      && (t.pokeLanded ==> SameBut(old(t.mem), t.mem, t.pages, 0, 0))
      && (t.regsLanded ==> t.regs == old(t.regs))
    ensures PastMapping(r) ==>
      && t.pages == {page} && t.regs == old(t.regs)
      && OnlyPatched(old(t.mem), t.mem, Hooks(clockGettime, gettimeofday, time), page)
    ensures r.Injected? ==>
      && r.stateAddr == page + STATE_OFFSET
      && (forall x :: !Within(x, page, PAGE) ==> WriteBack(t.mem, r.patched)(x) == old(t.mem)(x))
      && JumpsTo(BytesAt(t.mem, clockGettime, JMP_SIZE), clockGettime, ToWord(page + CLOCK_GETTIME_ENTRY))
      && JumpsTo(BytesAt(t.mem, gettimeofday, JMP_SIZE), gettimeofday, ToWord(page + GETTIMEOFDAY_ENTRY))
      && JumpsTo(BytesAt(t.mem, time, JMP_SIZE), time, ToWord(page + TIME_ENTRY))
      && BytesAt(t.mem, page, STATE_OFFSET) == template[..STATE_OFFSET]
      && BytesAt(t.mem, r.stateAddr, STATE_SIZE) == Bytes(State(sec, nsec, mask, 0))
    ensures t.asked == old(t.asked) + made
    ensures made != [] ==>
      var asked := made[0].regs.rdi;
      && Requested(old(t.regs), clockGettime, asked, made)
      && FreePage(asked, clockGettime, t.spans) && forall p :: FreePage(p, clockGettime, t.spans) ==> asked <= p
    ensures t.faults >= old(t.faults) && (t.faults > old(t.faults) ==> r.Failed?)
    ensures t.faults == old(t.faults) ==> (r == Failed(NoNearbyGap) <==> forall p :: !FreePage(p, clockGettime, t.spans))
    ensures t.faults == old(t.faults) && r != Failed(NoNearbyGap) ==>
      made != [] && AsAnswered(made[0].regs.rdi, made, PastMapping(r))
    ensures PastMapping(r) ==> (r == Failed(PayloadNotWritten) <==> !t.writeLanded)
    ensures PastMapping(r) && t.faults == old(t.faults) ==>
      (r.Injected? <==>
        && Reaches(ToWord(page + CLOCK_GETTIME_ENTRY), clockGettime)
        && Reaches(ToWord(page + GETTIMEOFDAY_ENTRY), gettimeofday)
        && Reaches(ToWord(page + TIME_ENTRY), time))
  {
    hide Hooked, BytesAt, InText, Poke, Bytes, WriteBack, AllMidBorrow, Reaches, JumpsTo, FreePage, SameBut, ToWord;
    page, made := 0, [];
    mark := |t.history|;
    NothingMid(t.mem, clockGettime);
    assert t.history[|old(t.history)|..mark] == [];
    var readMaps, spans := t.ReadMaps();
    if !readMaps {
      return Failed(NoNearbyGap), mark, page, made;
    }
    var found := FindNearbyGap(clockGettime, spans);
    if found.NoGap? {
      return Failed(NoNearbyGap), mark, page, made;
    }
    FreeToMap(t, found.page, clockGettime);
    var mapped;
    mapped, made := RemoteMmap(t, clockGettime, found.page);
    mark := |t.history|;
    assert t.pages - {} == t.pages;
    ghost var borrowing := t.history[|old(t.history)|..];
    assert t.history[|old(t.history)|..mark] == borrowing;
    if mapped.MmapFailed? {
      return Failed(NoMapping), mark, page, made;
    }
    page := mapped.page;
    var hooks := Hooks(clockGettime, gettimeofday, time);
    PageMissesHooks(t.spans, mapped.page, hooks);
    Untouched(old(t.mem), t.mem, mapped.page, hooks);
    r := Deliver(t, clockGettime, gettimeofday, time, mapped.page, template, sec, nsec, mask, old(t.mem));
    assert t.history[|old(t.history)|..mark] == borrowing;
  }

  /** injectWithTracer from the mapped page on. */
  method Deliver(t: Tracee, clockGettime: Word, gettimeofday: Word, time: Word, page: Word, template: seq<Byte>,
                 sec: Int64, nsec: Int64, mask: Word, ghost m0: Mem)
    returns (r: Injection)
    requires |template| == STATE_OFFSET + STATE_SIZE && t.Current() && page + PAGE <= TWO63
    requires HooksInText(t.spans, Hooks(clockGettime, gettimeofday, time))
    requires forall j :: 0 <= j < 3 ==>
      var h := Hooks(clockGettime, gettimeofday, time)[j];
      Disjoint(page, PAGE, h.addr, JMP_SIZE) && Original(t.mem, m0, h)
    requires OnlyPatched(m0, t.mem, Hooks(clockGettime, gettimeofday, time), page)
    modifies t`mem, t`history, t`pokeLanded, t`writeLanded, t`faults
    ensures t.faults >= old(t.faults) && (t.faults > old(t.faults) ==> r.Failed?)
    ensures t.faults == old(t.faults) ==>
      (r.Injected? <==>
        && Reaches(ToWord(page + CLOCK_GETTIME_ENTRY), clockGettime)
        && Reaches(ToWord(page + GETTIMEOFDAY_ENTRY), gettimeofday)
        && Reaches(ToWord(page + TIME_ENTRY), time))
    ensures r == Failed(PayloadNotWritten) <==> !t.writeLanded
    ensures |t.history| > |old(t.history)| && t.history[..|old(t.history)|] == old(t.history) && t.Current()
    ensures forall k :: |old(t.history)| <= k < |t.history| ==>
      Safe(t.history[k], m0, Hooks(clockGettime, gettimeofday, time), page, Payload(template, State(sec, nsec, mask, 0)))
    ensures PastMapping(r) && OnlyPatched(m0, t.mem, Hooks(clockGettime, gettimeofday, time), page)
    ensures r.Injected? ==>
      && r.stateAddr == page + STATE_OFFSET
      && (forall x :: !Within(x, page, PAGE) ==> WriteBack(t.mem, r.patched)(x) == m0(x))
      && JumpsTo(BytesAt(t.mem, clockGettime, JMP_SIZE), clockGettime, ToWord(page + CLOCK_GETTIME_ENTRY))
      && JumpsTo(BytesAt(t.mem, gettimeofday, JMP_SIZE), gettimeofday, ToWord(page + GETTIMEOFDAY_ENTRY))
      && JumpsTo(BytesAt(t.mem, time, JMP_SIZE), time, ToWord(page + TIME_ENTRY))
      && BytesAt(t.mem, page, STATE_OFFSET) == template[..STATE_OFFSET]
      && BytesAt(t.mem, r.stateAddr, STATE_SIZE) == Bytes(State(sec, nsec, mask, 0))
  {
    hide Hooked, BytesAt, InText, Poke, Bytes, WriteBack, JumpsTo, Reaches, ToWord, OnlyPatched, Original;
    var encoded := EncodeState(sec, nsec, mask, 0);
    var hooks, payload := Hooks(clockGettime, gettimeofday, time), template[..STATE_OFFSET] + encoded[..];
    r := Install(t, hooks, page, payload, m0);
    EachHook(page, clockGettime, gettimeofday, time);
    if r.Injected? {
      HookedMeans(t.mem, clockGettime, gettimeofday, time, page, payload);
      PayloadParts(t.mem, page, template, State(sec, nsec, mask, 0));
    }
  }

  /** The payload goes in, and then the jumps to it. */
  method Install(t: Tracee, hooks: seq<Hook>, page: Word, payload: seq<Byte>, ghost m0: Mem) returns (r: Injection)
    requires HooksInText(t.spans, hooks) && t.Current() && page + PAGE <= TWO63 && |payload| <= PAGE
    requires forall j :: 0 <= j < |hooks| ==> Disjoint(page, PAGE, hooks[j].addr, JMP_SIZE) && Original(t.mem, m0, hooks[j])
    requires OnlyPatched(m0, t.mem, hooks, page)
    modifies t`mem, t`history, t`pokeLanded, t`writeLanded, t`faults
    ensures t.faults >= old(t.faults) && (t.faults > old(t.faults) ==> r.Failed?)
    ensures t.faults == old(t.faults) ==>
      (r.Injected? <==> forall j :: 0 <= j < |hooks| ==> Reaches(ToWord(page + hooks[j].entryOffset), hooks[j].addr))
    ensures r == Failed(PayloadNotWritten) <==> !t.writeLanded
    ensures |t.history| > |old(t.history)| && t.history[..|old(t.history)|] == old(t.history) && t.Current()
    ensures forall k :: |old(t.history)| <= k < |t.history| ==> Safe(t.history[k], m0, hooks, page, payload)
    ensures PastMapping(r) && OnlyPatched(m0, t.mem, hooks, page)
    ensures r.Injected? ==>
      && r.stateAddr == page + STATE_OFFSET
      && (forall j :: 0 <= j < |hooks| ==> Hooked(t.mem, hooks[j], page, payload))
      && (forall x :: !Within(x, page, PAGE) ==> WriteBack(t.mem, r.patched)(x) == m0(x))
  {
    hide Hooked, BytesAt, InText, Poke, WriteBack, OnlyPatched, Reaches;
    ghost var before, mark := t.mem, |t.history|;
    var written := t.WriteMem(page, payload);
    ghost var n: nat := |payload|;
    if !written {
      n :| 0 <= n <= |payload| && t.mem == Poke(before, page, payload[..n]);
    }
    assert payload[..|payload|] == payload;
    PayloadLands(m0, before, page, hooks, payload[..n]);
    if !written {
      return Failed(PayloadNotWritten);
    }
    var patchedAll, patched := PatchEntries(t, hooks, page, payload, m0, mark);
    if !patchedAll {
      return Failed(EntryNotPatched);
    }
    WriteBackRestores(m0, t.mem, hooks, patched, page);
    return Injected(page + STATE_OFFSET, patched);
  }

  /** The page the search found may be mapped over. */
  lemma FreeToMap(t: Tracee, page: Word, near: Word)
    requires FreePage(page, near, t.spans) && t.pages == {}
    ensures t.Free(page)
  {
  }

  lemma EachHook(page: Word, clockGettime: Word, gettimeofday: Word, time: Word)
    ensures var hooks := Hooks(clockGettime, gettimeofday, time);
      (forall j :: 0 <= j < |hooks| ==> Reaches(ToWord(page + hooks[j].entryOffset), hooks[j].addr)) <==>
        && Reaches(ToWord(page + CLOCK_GETTIME_ENTRY), clockGettime)
        && Reaches(ToWord(page + GETTIMEOFDAY_ENTRY), gettimeofday)
        && Reaches(ToWord(page + TIME_ENTRY), time)
  {
    hide Reaches, ToWord;
    var hooks := Hooks(clockGettime, gettimeofday, time);
    assert forall j :: 0 <= j < |hooks| ==> hooks[j] in [hooks[0], hooks[1], hooks[2]];
  }

  /** Three hooked entries, function by function. */
  lemma HookedMeans(m: Mem, clockGettime: Word, gettimeofday: Word, time: Word, page: Word, payload: seq<Byte>)
    requires forall i :: 0 <= i < 3 ==> Hooked(m, Hooks(clockGettime, gettimeofday, time)[i], page, payload)
    ensures BytesAt(m, page, |payload|) == payload
    ensures JumpsTo(BytesAt(m, clockGettime, JMP_SIZE), clockGettime, ToWord(page + CLOCK_GETTIME_ENTRY))
    ensures JumpsTo(BytesAt(m, gettimeofday, JMP_SIZE), gettimeofday, ToWord(page + GETTIMEOFDAY_ENTRY))
    ensures JumpsTo(BytesAt(m, time, JMP_SIZE), time, ToWord(page + TIME_ENTRY))
  {
    var hooks := Hooks(clockGettime, gettimeofday, time);
    assert Hooked(m, hooks[0], page, payload) && Hooked(m, hooks[1], page, payload) && Hooked(m, hooks[2], page, payload);
  }

  lemma PageMissesHooks(spans: seq<Span>, page: Word, hooks: seq<Hook>)
    requires Unmapped(page, spans) && HooksInText(spans, hooks)
    ensures forall j :: 0 <= j < |hooks| ==> Disjoint(page, PAGE, hooks[j].addr, JMP_SIZE)
  {
    forall j | 0 <= j < |hooks|
      ensures Disjoint(page, PAGE, hooks[j].addr, JMP_SIZE)
    {
      FreeMissesText(spans, page, hooks[j].addr, JMP_SIZE);
    }
  }

  lemma Untouched(m0: Mem, m: Mem, page: Word, hooks: seq<Hook>)
    requires SameBut(m0, m, {page}, 0, 0)
    requires forall j :: 0 <= j < |hooks| ==> Disjoint(page, PAGE, hooks[j].addr, JMP_SIZE)
    ensures OnlyPatched(m0, m, hooks, page)
    ensures forall j :: 0 <= j < |hooks| ==> Original(m, m0, hooks[j])
  {
  }

  lemma PayloadLands(m0: Mem, m: Mem, page: Word, hooks: seq<Hook>, b: seq<Byte>)
    requires OnlyPatched(m0, m, hooks, page) && |b| <= PAGE
    requires forall j :: 0 <= j < |hooks| ==> Disjoint(page, PAGE, hooks[j].addr, JMP_SIZE) && Original(m, m0, hooks[j])
    ensures OnlyPatched(m0, Poke(m, page, b), hooks, page) && BytesAt(Poke(m, page, b), page, |b|) == b
    ensures forall j :: 0 <= j < |hooks| ==> Original(Poke(m, page, b), m0, hooks[j])
  {
    PokedBytes(m, page, b);
    forall j | 0 <= j < |hooks|
      ensures Original(Poke(m, page, b), m0, hooks[j])
    {
      assert BytesAt(Poke(m, page, b), hooks[j].addr, JMP_SIZE) == BytesAt(m, hooks[j].addr, JMP_SIZE);
    }
  }

  /** Why an injection in which no call failed may fail: no page, no mapping, or a page out of reach. */
  ghost predicate Unlucky(spans: seq<Span>, clockGettime: Word, gettimeofday: Word, time: Word, made: seq<Asked>,
                          pages: set<Word>)
  {
    || (forall p :: !FreePage(p, clockGettime, spans))
    || (made != [] && made[|made| - 1].rax >= TWO63)
    || exists page :: page in pages && !(
         && Reaches(ToWord(page + CLOCK_GETTIME_ENTRY), clockGettime)
         && Reaches(ToWord(page + GETTIMEOFDAY_ENTRY), gettimeofday)
         && Reaches(ToWord(page + TIME_ENTRY), time))
  }

  /** InjectAtTime: the offset is taken before the injection starts. */
  method InjectAtTime(t: Tracee, clockGettime: Word, gettimeofday: Word, time: Word, template: seq<Byte>,
                      clock: Clock, target: Instant)
    returns (r: Injection, ghost base: Instant, ghost made: seq<Asked>)
    requires SortedMap(t.spans) && t.pages == {} && t.Current()
    requires InText(t.spans, clockGettime, 8) && HooksInText(t.spans, Hooks(clockGettime, gettimeofday, time))
    requires |template| == STATE_OFFSET + STATE_SIZE
    modifies t, clock
    ensures old(clock.now) <= base == clock.now
    ensures t.asked == old(t.asked) + made && t.faults >= old(t.faults)
    ensures t.faults == old(t.faults) ==> r.Injected? || Unlucky(t.spans, clockGettime, gettimeofday, time, made, t.pages)
    ensures r.Injected? ==> t.faults == old(t.faults)
    ensures r.Injected? ==> BytesAt(t.mem, r.stateAddr, STATE_SIZE) == Bytes(AdvancingState(target, base, 0))
  {
    hide BytesAt, Bytes, InText, Reaches, ToWord, FreePage;
    var now := clock.Now();
    base := now;
    var (sec, nsec) := DiffSecNsec(target, now);
    var injection, mark, page, calls :=
      InjectWithTracer(t, clockGettime, gettimeofday, time, template, sec, nsec, MASK_ENABLED);
    r, made := injection, calls;
  }

  /** InjectFrozen. */
  method InjectFrozen(t: Tracee, clockGettime: Word, gettimeofday: Word, time: Word, template: seq<Byte>, target: Instant)
    returns (r: Injection, ghost made: seq<Asked>)
    requires SortedMap(t.spans) && t.pages == {} && t.Current()
    requires InText(t.spans, clockGettime, 8) && HooksInText(t.spans, Hooks(clockGettime, gettimeofday, time))
    requires |template| == STATE_OFFSET + STATE_SIZE
    modifies t
    ensures t.asked == old(t.asked) + made && t.faults >= old(t.faults)
    ensures t.faults == old(t.faults) ==> r.Injected? || Unlucky(t.spans, clockGettime, gettimeofday, time, made, t.pages)
    ensures r.Injected? ==> t.faults == old(t.faults)
    ensures r.Injected? ==> BytesAt(t.mem, r.stateAddr, STATE_SIZE) == Bytes(FrozenState(target, 0))
  {
    hide BytesAt, Bytes, InText, Reaches, ToWord, FreePage;
    var (sec, nsec) := Unix(target);
    var injection, mark, page, calls :=
      InjectWithTracer(t, clockGettime, gettimeofday, time, template, sec, nsec, MASK_FROZEN);
    r, made := injection, calls;
  }
}
