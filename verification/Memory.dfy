/** Byte-addressed memory and the 64-bit loads and stores the stubs perform on it. */
module Memory {
  import opened Words

  type Mem = int -> Byte

  function BytesAt(m: Mem, a: int, n: nat): (s: seq<Byte>)
    ensures |s| == n
  {
    seq(n, i => m(a + i))
  }

  /** m with the bytes bs written at address a. */
  function Poke(m: Mem, a: int, bs: seq<Byte>): (r: Mem)
    ensures forall x {:trigger r(x)} :: r(x) == if a <= x < a + |bs| then bs[x - a] else m(x)
  {
    x => if a <= x < a + |bs| then bs[x - a] else m(x)
  }

  lemma PokedBytes(m: Mem, a: int, bs: seq<Byte>)
    ensures BytesAt(Poke(m, a, bs), a, |bs|) == bs
  {
  }

  lemma PokeElsewhere(m: Mem, a: int, bs: seq<Byte>, b: int, n: nat)
    requires Disjoint(a, |bs|, b, n)
    ensures BytesAt(Poke(m, a, bs), b, n) == BytesAt(m, b, n)
  {
  }

  function Load64(m: Mem, a: int): (v: Int64)
  {
    Wrap64(LeValue(BytesAt(m, a, WORD_BYTES)))
  }

  function Store64(m: Mem, a: int, v: Int64): (r: Mem)
    ensures Load64(r, a) == v
    ensures forall b {:trigger Load64(r, b)} :: b + WORD_BYTES <= a || a + WORD_BYTES <= b ==> Load64(r, b) == Load64(m, b)
    ensures forall x {:trigger r(x)} :: !(a <= x < a + WORD_BYTES) ==> r(x) == m(x)
  {
    var r := Poke(m, a, LeBytes(v, WORD_BYTES));
    Int64RoundTrip(v);
    PokedBytes(m, a, LeBytes(v, WORD_BYTES));
    assert forall b :: b + WORD_BYTES <= a || a + WORD_BYTES <= b ==>
        BytesAt(r, b, WORD_BYTES) == BytesAt(m, b, WORD_BYTES);
    r
  }

  /** Equal bytes load as equal words. */
  lemma SameBytesSameLoad(m: Mem, k: Mem, a: int)
    requires forall x :: a <= x < a + WORD_BYTES ==> m(x) == k(x)
    ensures Load64(m, a) == Load64(k, a)
  {
    assert BytesAt(m, a, WORD_BYTES) == BytesAt(k, a, WORD_BYTES);
  }

  /** [a, a + n) and [b, b + k) have no address in common. */
  predicate Disjoint(a: int, n: nat, b: int, k: nat)
  {
    a + n <= b || b + k <= a
  }

  predicate Within(x: int, a: int, n: nat)
  {
    a <= x < a + n
  }
}
