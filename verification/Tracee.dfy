/** A ptrace-stopped process: memory, registers and mappings, and the tracer calls that may fail. */
module Traced {
  import opened Words
  import opened Memory
  import opened GapSearch

  const SYS_MMAP := 9
  const MAP_BASE := 0x22               // MAP_PRIVATE | MAP_ANONYMOUS
  const MAP_FIXED := 0x10
  const MAP_FIXED_NOREPLACE := 0x100000
  const PROT_RWX := 7
  const EBADF := 9
  const EEXIST := 17
  const MAX_ERRNO := 4095

  /** syscall; int3 */
  const STUB: seq<Byte> := [0x0F, 0x05, 0xCC]

  datatype PtraceRegs = PtraceRegs(
    rip: Word, rax: Word, rdi: Word, rsi: Word, rdx: Word, r10: Word, r8: Word, r9: Word, rcx: Word, r11: Word,
    rest: seq<Word>)

  datatype Stop = ContFailed | WaitFailed | OtherStop | Trapped

  /** One mmap call: the registers it was made with, how the process stopped, and what rax then held. */
  datatype Asked = Asked(regs: PtraceRegs, stop: Stop, rax: Word)

  predicate FixedFlag(flags: Word)
  {
    flags / MAP_FIXED % 2 == 1
  }

  ghost predicate InPages(x: int, pages: set<Word>)
  {
    exists p :: p in pages && Within(x, p, PAGE)
  }

  /** m and k agree except on the pages and on n bytes at a. */
  ghost predicate SameBut(m: Mem, k: Mem, pages: set<Word>, a: int, n: nat)
  {
    forall x :: !InPages(x, pages) && !Within(x, a, n) ==> k(x) == m(x)
  }

  /** k is m with some of the bytes b, from the first on, written at a. */
  ghost predicate SomeLanded(m: Mem, k: Mem, a: int, b: seq<Byte>)
  {
    exists n :: 0 <= n <= |b| && k == Poke(m, a, b[..n])
  }

  /** The n bytes at a lie in one mapping. */
  ghost predicate InText(spans: seq<Span>, a: int, n: nat)
  {
    exists i :: 0 <= i < |spans| && spans[i].lo <= a && a + n <= spans[i].hi
  }

  lemma FreeMissesText(spans: seq<Span>, p: int, a: int, n: nat)
    requires Unmapped(p, spans) && InText(spans, a, n)
    ensures Disjoint(p, PAGE, a, n)
  {
    var i :| 0 <= i < |spans| && spans[i].lo <= a && a + n <= spans[i].hi;
    assert p + PAGE <= spans[i].lo || spans[i].hi <= p;
  }

  class Tracee {
    var mem: Mem
    var regs: PtraceRegs
    /** /proc/pid/maps at the moment of the stop, and the pages mapped since. */
    const spans: seq<Span>
    var pages: set<Word>
    /** Every memory content since the stop, and whether a mapping was ever overwritten. */
    ghost var history: seq<Mem>
    ghost var replaced: bool
    /** Whether the latest poke, the latest setting of the registers and the latest write took effect. */
    ghost var pokeLanded: bool
    ghost var regsLanded: bool
    ghost var writeLanded: bool
    /** How many calls have failed, and every mmap call made; an errno from mmap is an answer, not a failure. */
    ghost var faults: nat
    ghost var asked: seq<Asked>

    constructor (mem: Mem, regs: PtraceRegs, spans: seq<Span>)
      ensures this.mem == mem && this.regs == regs && this.spans == spans
      ensures pages == {} && history == [mem] && !replaced && pokeLanded && regsLanded && writeLanded
      ensures faults == 0 && asked == []
    {
      this.mem, this.regs, this.spans := mem, regs, spans;
      pages, history, replaced := {}, [mem], false;
      pokeLanded, regsLanded, writeLanded := true, true, true;
      faults, asked := 0, [];
    }

    /** The page at p overlaps no mapping. */
    predicate Free(p: Word)
      reads this
    {
      Unmapped(p, spans) && forall q :: q in pages ==> Disjoint(p, PAGE, q, PAGE)
    }

    /** The history ends with the present. */
    ghost predicate Current()
      reads this
    {
      |history| > 0 && history[|history| - 1] == mem
    }

    /** A call that may fail. */
    method Try() returns (ok: bool)
      modifies `faults
      ensures faults == old(faults) + if ok then 0 else 1
    {
      ok := *;
      if !ok {
        faults := faults + 1;
      }
    }

    /** /proc/pid/maps. */
    method ReadMaps() returns (ok: bool, s: seq<Span>)
      modifies `faults
      ensures faults == old(faults) + if ok then 0 else 1
      ensures ok ==> s == spans
    {
      ok := Try();
      s := spans;
    }

    method GetRegs() returns (ok: bool, r: PtraceRegs)
      modifies `faults
      ensures faults == old(faults) + if ok then 0 else 1
      ensures ok ==> r == regs
    {
      ok := Try();
      r := regs;
    }

    method SetRegs(r: PtraceRegs) returns (ok: bool)
      modifies `regs, `regsLanded, `faults
      ensures faults == old(faults) + if ok then 0 else 1
      ensures regs == if ok then r else old(regs)
      ensures regsLanded == ok
    {
      ok := Try();
      regsLanded := ok;
      if ok {
        regs := r;
      }
    }

    method ReadMem(a: Word, n: nat) returns (ok: bool, b: seq<Byte>)
      modifies `faults
      ensures faults == old(faults) + if ok then 0 else 1
      ensures |b| == n && (ok ==> b == BytesAt(mem, a, n))
    {
      ok := Try();
      b := BytesAt(mem, a, n);
    }

    /** PTRACE_POKETEXT: all of the bytes, or none. */
    method PokeText(a: Word, b: seq<Byte>) returns (ok: bool)
      modifies `mem, `history, `pokeLanded, `faults
      ensures faults == old(faults) + if ok then 0 else 1
      ensures mem == if ok then Poke(old(mem), a, b) else old(mem)
      ensures history == if ok then old(history) + [mem] else old(history)
      ensures pokeLanded == ok
    {
      ok := Try();
      pokeLanded := ok;
      if ok {
        mem := Poke(mem, a, b);
        history := history + [mem];
      }
    }

    /** process_vm_writev: when it fails, a prefix of the bytes may have landed. */
    method WriteMem(a: Word, b: seq<Byte>) returns (ok: bool)
      modifies `mem, `history, `writeLanded, `faults
      ensures faults == old(faults) + if ok then 0 else 1
      ensures history == old(history) + [mem]
      ensures ok ==> mem == Poke(old(mem), a, b)
      ensures !ok ==> SomeLanded(old(mem), mem, a, b)
      ensures writeLanded == ok
    {
      ok := Try();
      writeLanded := ok;
      var n := |b|;
      if !ok {
        n :| 0 <= n <= |b|;
      }
      assert b[..|b|] == b;
      mem := Poke(mem, a, b[..n]);
      history := history + [mem];
    }

    /** A page the kernel may hand out for the mmap call in r: where MAP_FIXED says, or else a free one. */
    predicate MayMap(r: PtraceRegs, p: Word)
      reads this
    {
      p % PAGE == 0 && p + PAGE <= TWO63 && if FixedFlag(r.r10) then p == r.rdi else Free(p)
    }

    /** A successful mmap: a zeroed page, on top of whatever was there. */
    method MapPage(p: Word)
      modifies `mem, `history, `pages, `replaced
      ensures SameBut(old(mem), mem, {p}, 0, 0) && pages == old(pages) + {p}
      ensures history == old(history) + [mem]
      ensures replaced <==> old(replaced) || !old(Free(p))
    {
      replaced := replaced || !Free(p);
      mem := Poke(mem, p, seq(PAGE, i => 0));
      assert p in {p};
      history := history + [mem];
      pages := pages + {p};
    }

    /**
     Continue and wait, with the stub at rip: the process makes the mmap call
     its registers name. The kernel maps a page the flags allow (an old one
     takes MAP_FIXED_NOREPLACE for a hint) or puts an errno in rax. After any
     stop but the trap, the call may or may not have happened and the registers
     may be anything.
     */
    method Resume() returns (s: Stop, ghost landed: set<Word>)
      requires BytesAt(mem, regs.rip, 3) == STUB && regs.rax == SYS_MMAP
      modifies this
      ensures s.ContFailed? ==> landed == {} && regs == old(regs)
      ensures pokeLanded == old(pokeLanded) && regsLanded == old(regsLanded) && writeLanded == old(writeLanded)
      ensures faults == old(faults) + if s.Trapped? then 0 else 1
      ensures asked == old(asked) + [Asked(old(regs), s, regs.rax)]
      ensures pages == old(pages) + landed && SameBut(old(mem), mem, landed, 0, 0)
      ensures forall p :: p in landed ==> old(MayMap(regs, p))
      ensures (forall p :: p in landed ==> old(Free(p))) ==> replaced == old(replaced)
      ensures s.Trapped? ==>
        || (regs.rax < TWO63 && landed == {regs.rax})
        || (regs.rax >= TWO64 - MAX_ERRNO && landed == {})
      ensures |history| >= |old(history)| && history[..|old(history)|] == old(history)
      ensures forall k :: |old(history)| <= k < |history| ==> SameBut(old(mem), history[k], landed, 0, 0)
      ensures old(Current()) ==> Current()
    {
      landed := {};
      s := *;
      faults := faults + if s.Trapped? then 0 else 1;
      ghost var asking := regs;
      if s.ContFailed? {
        asked := asked + [Asked(asking, s, regs.rax)];
        return;
      }
      var p: Word := *;
      var errno: Word := *;
      var after: PtraceRegs := *;
      var succeeds: bool := *;
      if succeeds && MayMap(regs, p) {
        MapPage(p);
        landed := {p};
        regs := after.(rax := p);
      } else {
        regs := after.(rax := if 1 <= errno <= MAX_ERRNO then TWO64 - errno else TWO64 - EBADF);
      }
      if !s.Trapped? {
        var anything: PtraceRegs := *;
        regs := anything;
      }
      asked := asked + [Asked(asking, s, regs.rax)];
    }
  }
}
