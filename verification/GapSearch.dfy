/** findNearbyGap (pkg/inject/inject.go): a free page within reach of a vDSO entry. */
module GapSearch {
  import opened Words

  const PAGE := 4096
  const WINDOW := TWO31

  /** One line of the map: the half-open range [lo, hi). */
  datatype Span = Span(lo: Word, hi: Word)

  datatype Found = Gap(page: Word) | NoGap

  /** uintptr arithmetic wraps. */
  function Add(a: Word, b: Word): Word { ToWord(a + b) }
  function Minus(a: Word, b: Word): Word { ToWord(a - b) }

  /** (x + 4095) &^ 4095 in 64 bits. */
  function AlignUp(x: Word): (r: Word)
    ensures r % PAGE == 0
    ensures x <= TWO64 - PAGE ==> x <= r < x + PAGE
  {
    var y := Add(x, PAGE - 1);
    y - y % PAGE
  }

  function WindowLo(near: Word): (lo: Word)
    ensures lo == if near >= WINDOW then near - WINDOW else PAGE
  {
    if Minus(near, WINDOW) > near then PAGE else Minus(near, WINDOW)
  }

  function WindowHi(near: Word): (hi: Word)
    ensures hi == if near + WINDOW < TWO64 then near + WINDOW else TWO64 - 1 - PAGE
  {
    if Add(near, WINDOW) < near then TWO64 - 1 - PAGE else Add(near, WINDOW)
  }

  /** Sorted, disjoint, non-empty spans; the last two pages of the address space are never mapped. */
  ghost predicate SortedMap(spans: seq<Span>)
  {
    && (forall i :: 0 <= i < |spans| ==> spans[i].lo < spans[i].hi <= TWO64 - 2 * PAGE)
    && (forall i, j :: 0 <= i < j < |spans| ==> spans[i].hi <= spans[j].lo)
  }

  /** The page at p misses every span. */
  predicate Unmapped(p: int, spans: seq<Span>)
  {
    forall i :: 0 <= i < |spans| ==> p + PAGE <= spans[i].lo || spans[i].hi <= p
  }

  /** An aligned page wholly inside the window that misses every span. */
  ghost predicate FreePage(p: int, near: Word, spans: seq<Span>)
  {
    p % PAGE == 0 && WindowLo(near) <= p && p + PAGE <= WindowHi(near) && Unmapped(p, spans)
  }

  function Max(a: Word, b: Word): Word
  {
    if a < b then b else a
  }

  /** Everything scanned so far ends at or below from, and no free page starts below it. */
  ghost predicate Scanned(near: Word, spans: seq<Span>, i: nat, from: Word)
    requires i <= |spans|
  {
    && WindowLo(near) <= from <= TWO64 - 2 * PAGE
    && (forall k :: 0 <= k < i ==> spans[k].hi <= from)
    && (forall p :: FreePage(p, near, spans) ==> from <= p)
  }

  lemma AlignedAbove(p: int, from: Word)
    requires p % PAGE == 0 && from <= p && from <= TWO64 - PAGE
    ensures AlignUp(from) <= p
  {
  }

  /** A page that fits before the next span (or before the end of the window) is the lowest free page. */
  lemma Fits(near: Word, spans: seq<Span>, i: nat, from: Word)
    requires SortedMap(spans) && i <= |spans| && Scanned(near, spans, i, from)
    requires AlignUp(from) + PAGE <= WindowHi(near)
    requires i < |spans| ==> AlignUp(from) + PAGE <= spans[i].lo
    ensures FreePage(AlignUp(from), near, spans)
    ensures forall p :: FreePage(p, near, spans) ==> AlignUp(from) <= p
  {
    hide AlignUp, WindowLo, WindowHi;
    forall p | FreePage(p, near, spans)
      ensures AlignUp(from) <= p
    {
      AlignedAbove(p, from);
    }
  }

  /** If no page fits before span i, every free page lies above it. */
  lemma Skips(near: Word, spans: seq<Span>, i: nat, from: Word)
    requires SortedMap(spans) && i < |spans| && Scanned(near, spans, i, from)
    requires AlignUp(from) + PAGE > WindowHi(near) || AlignUp(from) + PAGE > spans[i].lo
    ensures Scanned(near, spans, i + 1, Max(from, spans[i].hi))
  {
    hide AlignUp, WindowLo, WindowHi;
    forall p | FreePage(p, near, spans)
      ensures spans[i].hi <= p
    {
      AlignedAbove(p, from);
    }
  }

  /** If nothing is left in the window above from, there is no free page at all. */
  lemma Exhausted(near: Word, spans: seq<Span>, i: nat, from: Word)
    requires i <= |spans| && Scanned(near, spans, i, from)
    requires AlignUp(from) + PAGE > WindowHi(near)
    ensures forall p :: !FreePage(p, near, spans)
  {
    hide AlignUp, WindowLo, WindowHi;
    forall p | FreePage(p, near, spans)
      ensures false
    {
      AlignedAbove(p, from);
    }
  }

  /** The lowest free page in the window, or none only if there is none. */
  method FindNearbyGap(near: Word, spans: seq<Span>) returns (r: Found)
    requires SortedMap(spans)
    ensures r.Gap? ==> FreePage(r.page, near, spans) && forall p :: FreePage(p, near, spans) ==> r.page <= p
    ensures r.NoGap? ==> forall p :: !FreePage(p, near, spans)
  {
    hide FreePage, Unmapped;
    var lo, hi := WindowLo(near), WindowHi(near);
    var prev := lo;
    var i := 0;
    StartsScanned(near, spans);
    while i < |spans|
      invariant 0 <= i <= |spans|
      invariant Scanned(near, spans, i, Max(prev, lo))
    {
      hide AlignUp;
      var s, e := spans[i].lo, spans[i].hi;
      if e <= lo {
        BelowWindow(near, spans, i, Max(prev, lo));
        prev := e;
        i := i + 1;
        continue;
      }
      if s >= hi {
        break;
      }
      var gapStart, gapEnd := prev, s;
      if gapStart < lo {
        gapStart := lo;
      }
      if gapEnd > hi {
        gapEnd := hi;
      }
      assert gapStart == Max(prev, lo);
      gapStart := AlignUp(gapStart);
      if Add(gapStart, PAGE) <= gapEnd {
        Fits(near, spans, i, Max(prev, lo));
        return Gap(gapStart);
      }
      Skips(near, spans, i, Max(prev, lo));
      if e > prev {
        prev := e;
      }
      i := i + 1;
    }
    var gapStart := prev;
    if gapStart < lo {
      gapStart := lo;
    }
    gapStart := AlignUp(gapStart);
    if gapStart >= lo && Add(gapStart, PAGE) <= hi {
      Fits(near, spans, i, Max(prev, lo));
      return Gap(gapStart);
    }
    Exhausted(near, spans, i, Max(prev, lo));
    return NoGap;
  }

  lemma StartsScanned(near: Word, spans: seq<Span>)
    ensures Scanned(near, spans, 0, WindowLo(near))
  {
  }

  lemma BelowWindow(near: Word, spans: seq<Span>, i: nat, from: Word)
    requires SortedMap(spans) && i < |spans| && Scanned(near, spans, i, from) && spans[i].hi <= WindowLo(near)
    ensures Scanned(near, spans, i + 1, WindowLo(near))
  {
  }
}
