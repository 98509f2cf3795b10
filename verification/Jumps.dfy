/** The five-byte jumps that patch the vDSO entries (pkg/inject/inject.go), and how far they reach. */
module Jumps {
  import opened Words
  import opened StateStruct
  import opened GapSearch

  const JMP_SIZE := 5
  const JMP_OPCODE := 0xE9

  /** int64(target) - int64(vdsoAddr + 5), in wrapping 64-bit arithmetic. */
  function Displacement(target: Word, entry: Word): Int64
  {
    Wrap64(target - (entry + JMP_SIZE))
  }

  /** disp == int64(int32(disp)) */
  predicate Reaches(target: Word, entry: Word)
  {
    Displacement(target, entry) == Wrap32(Displacement(target, entry))
  }

  /** E9 and the low four bytes of the displacement. */
  function JmpBytes(target: Word, entry: Word): (b: seq<Byte>)
    ensures |b| == JMP_SIZE
  {
    [JMP_OPCODE] + LeBytes(Displacement(target, entry), HALF_BYTES)
  }

  /** Where the processor goes when it executes the five bytes b at address entry. */
  function JmpTarget(b: seq<Byte>, entry: Word): (t: Word)
    requires |b| == JMP_SIZE
  {
    ToWord(entry + JMP_SIZE + Wrap32(LeValue(b[1..])))
  }

  predicate JumpsTo(b: seq<Byte>, entry: Word, target: Word)
  {
    |b| == JMP_SIZE && b[0] == JMP_OPCODE && JmpTarget(b, entry) == target
  }

  lemma Congruent(x: int, w: Word)
    requires (x - w) % TWO64 == 0
    ensures ToWord(x) == w
  {
  }

  /** The bytes written jump to the intended stub exactly when the range check passes. */
  lemma JmpRoundTrip(target: Word, entry: Word)
    ensures JumpsTo(JmpBytes(target, entry), entry, target) <==> Reaches(target, entry)
  {
    var d := Displacement(target, entry);
    var b := JmpBytes(target, entry);
    assert b[1..] == LeBytes(d, HALF_BYTES);
    Low32(d);
    Congruent(entry + JMP_SIZE + d, target);
    assert JmpTarget(b, entry) == ToWord(entry + JMP_SIZE + Wrap32(d));
    if Wrap32(d) != d {
      Apart64(entry + JMP_SIZE + d, entry + JMP_SIZE + Wrap32(d));
    }
  }

  lemma Low32(d: int)
    ensures Wrap32(LeValue(LeBytes(d, HALF_BYTES))) == Wrap32(d)
  {
    hide LeBytes, LeValue, Wrap32;
    LeRoundTrip(d, HALF_BYTES);
    Pow256Values();
    Wrap32Mod(d);
  }

  lemma Wrap32Mod(d: int)
    ensures Wrap32(d % TWO32) == Wrap32(d)
  {
    var k := d / TWO32;
    assert d % TWO32 + TWO31 == (d + TWO31) - TWO32 * k;
    ModUnique(d % TWO32 + TWO31, TWO32, (d + TWO31) / TWO32 - k, (d + TWO31) % TWO32);
  }

  lemma Apart64(x: int, y: int)
    requires x != y && -TWO64 < x - y < TWO64
    ensures ToWord(x) != ToWord(y)
  {
  }

  /** Every aligned page of the search window, used as a trampoline, is in reach of the hook. */
  ghost predicate WholeWindowReaches(near: Word, below: nat, entryOffset: nat)
    requires below <= near && near + WINDOW + entryOffset < TWO63
  {
    forall p :: 0 <= p && p % PAGE == 0 && WindowLo(near) <= p && p + PAGE <= WindowHi(near) ==>
      Reaches(p + entryOffset, near - below)
  }

  /**
   The range check can never fail for a hook that lies below bytes under the
   anchor of the search exactly when neither end of the window is out of range.
   */
  lemma ReachIff(near: Word, below: nat, entryOffset: nat)
    requires near >= WINDOW && below <= near && near + WINDOW + entryOffset < TWO63
    ensures WholeWindowReaches(near, below, entryOffset)
      <==> 5 <= (PAGE - near % PAGE) % PAGE + below + entryOffset && below + entryOffset <= 4100 + near % PAGE
  {
    hide Reaches;
    var r := near % PAGE;
    var first, last := near - WINDOW + (PAGE - r) % PAGE, near + WINDOW - PAGE - r;
    AlignedEnds(near);
    ReachesInt32(first + entryOffset, near - below);
    ReachesInt32(last + entryOffset, near - below);
    if WholeWindowReaches(near, below, entryOffset) {
      assert Reaches(first + entryOffset, near - below);
      assert Reaches(last + entryOffset, near - below);
    }
    if 5 <= (PAGE - r) % PAGE + below + entryOffset && below + entryOffset <= 4100 + r {
      forall p | 0 <= p && p % PAGE == 0 && WindowLo(near) <= p && p + PAGE <= WindowHi(near)
        ensures Reaches(p + entryOffset, near - below)
      {
        BetweenEnds(near, p);
        ReachesInt32(p + entryOffset, near - below);
      }
    }
  }

  /** Away from the wrap-around, a displacement reaches exactly when it is an int32. */
  lemma ReachesInt32(target: int, entry: int)
    requires 0 <= target < TWO63 && 0 <= entry < TWO63 - JMP_SIZE
    ensures Reaches(target, entry) <==> -TWO31 <= target - entry - JMP_SIZE < TWO31
  {
    var d := target - entry - JMP_SIZE;
    assert Displacement(target, entry) == d;
    if -TWO31 <= d < TWO31 {
      ModUnique(d + TWO31, TWO32, 0, d + TWO31);
    }
  }

  /** The first and the last aligned page of the window. */
  lemma AlignedEnds(near: Word)
    requires near >= WINDOW && near + WINDOW < TWO63
    ensures (near - WINDOW + (PAGE - near % PAGE) % PAGE) % PAGE == 0 && (near + WINDOW - PAGE - near % PAGE) % PAGE == 0
  {
  }

  lemma BetweenEnds(near: Word, p: int)
    requires near >= WINDOW && near + WINDOW < TWO63
    requires p % PAGE == 0 && near - WINDOW <= p && p + PAGE <= near + WINDOW
    ensures near - WINDOW + (PAGE - near % PAGE) % PAGE <= p <= near + WINDOW - PAGE - near % PAGE
  {
  }

  /**
   With the search anchored at clock_gettime, the highest hook, the check on
   clock_gettime itself can fail for some page exactly when the entry lies at a
   page start or in the last four bytes of a page; the other two hooks are then
   always in reach if they lie within 3794 bytes below.
   */
  lemma HooksReach(near: Word, todBelow: nat, timeBelow: nat)
    requires WINDOW <= near < TWO63 - 2 * WINDOW
    requires 0 < todBelow <= 3794 && 0 < timeBelow <= 3794
    ensures WholeWindowReaches(near, 0, CLOCK_GETTIME_ENTRY) <==> 1 <= near % PAGE <= 4091
    ensures WholeWindowReaches(near, todBelow, GETTIMEOFDAY_ENTRY)
    ensures WholeWindowReaches(near, timeBelow, TIME_ENTRY)
  {
    ReachIff(near, 0, CLOCK_GETTIME_ENTRY);
    ReachIff(near, todBelow, GETTIMEOFDAY_ENTRY);
    ReachIff(near, timeBelow, TIME_ENTRY);
  }

  /** So the range check cannot fail on any page that the search returns. */
  lemma FreePageReaches(near: Word, todBelow: nat, timeBelow: nat, spans: seq<Span>, page: Word)
    requires WINDOW <= near < TWO63 - 2 * WINDOW && 1 <= near % PAGE <= 4091
    requires 0 < todBelow <= 3794 && 0 < timeBelow <= 3794
    requires FreePage(page, near, spans)
    ensures Reaches(ToWord(page + CLOCK_GETTIME_ENTRY), near)
    ensures Reaches(ToWord(page + GETTIMEOFDAY_ENTRY), near - todBelow)
    ensures Reaches(ToWord(page + TIME_ENTRY), near - timeBelow)
  {
    hide Reaches;
    HooksReach(near, todBelow, timeBelow);
    assert Reaches(page + CLOCK_GETTIME_ENTRY, near - 0);
    assert Reaches(page + GETTIMEOFDAY_ENTRY, near - todBelow);
    assert Reaches(page + TIME_ENTRY, near - timeBelow);
  }

  /** The vDSO at a page start and nothing mapped below it: the search chooses the lowest page, just out of reach. */
  lemma SearchCanMissAnchor() returns (near: Word, spans: seq<Span>, page: Word)
    ensures near == 0x7FFF_F7FC_1000 && spans == [Span(near, near + 8192)] && SortedMap(spans)
    ensures FreePage(page, near, spans) && forall p :: FreePage(p, near, spans) ==> page <= p
    ensures !Reaches(ToWord(page + CLOCK_GETTIME_ENTRY), near)
  {
    near := 0x7FFF_F7FC_1000;
    spans, page := [Span(near, near + 8192)], near - WINDOW;
    ReachesInt32(page + CLOCK_GETTIME_ENTRY, near);
  }
}
