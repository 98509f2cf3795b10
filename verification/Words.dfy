/**
 Machine integers and little-endian bytes: the 64-bit arithmetic shared by the
 trampoline stubs, the state struct and the injector.
 */
module Words {

  const TWO31 := 0x8000_0000
  const TWO32 := 0x1_0000_0000
  const TWO63 := 0x8000_0000_0000_0000
  const TWO64 := 0x1_0000_0000_0000_0000

  /** Bytes in a 64-bit word and in a 32-bit word. */
  const WORD_BYTES := 8
  const HALF_BYTES := 4

  type Byte = b: int | 0 <= b < 256
  type Word = w: int | 0 <= w < TWO64
  type Int64 = i: int | -TWO63 <= i < TWO63

  /** The uint64 congruent to x. */
  function ToWord(x: int): (w: Word)
    ensures 0 <= x < TWO64 ==> w == x
  {
    x % TWO64
  }

  /** The int64 congruent to x: two's complement wrap-around. */
  function Wrap64(x: int): (i: Int64)
    ensures -TWO63 <= x < TWO63 ==> i == x
    ensures (i - x) % TWO64 == 0
  {
    (x + TWO63) % TWO64 - TWO63
  }

  /** Wrapping early or late makes no difference to a later carry. */
  lemma WrapTwice(x: int)
    ensures Wrap64(Wrap64(x)) == Wrap64(x)
    ensures Wrap64(Wrap64(x) + 1) == Wrap64(x + 1)
    ensures Wrap64(Wrap64(x) - 1) == Wrap64(x - 1)
  {
  }

  /** The int32 congruent to x, Go's int32(x). */
  function Wrap32(x: int): (i: int)
    ensures -TWO31 <= i < TWO31
    ensures i == x <==> -TWO31 <= x < TWO31
  {
    (x + TWO31) % TWO32 - TWO31
  }

  function Abs(x: int): (a: nat)
    ensures a == x || a == -x
  {
    if x < 0 then -x else x
  }

  /** Division that truncates toward zero, as idiv and Go's / do (positive divisors only). */
  function TruncDiv(a: int, b: int): (q: int)
    requires b > 0
  {
    if a >= 0 then a / b else -((-a) / b)
  }

  /** The remainder that goes with TruncDiv; it takes the sign of a. */
  function TruncMod(a: int, b: int): (r: int)
    requires b > 0
    ensures a == b * TruncDiv(a, b) + r
    ensures -b < r < b
    ensures a >= 0 ==> r >= 0
    ensures a <= 0 ==> r <= 0
  {
    if a >= 0 then a % b else -((-a) % b)
  }

  function Pow256(n: nat): (p: nat)
    ensures p > 0
  {
    if n == 0 then 1 else 256 * Pow256(n - 1)
  }

  /** The low n bytes of x, least significant first. */
  function LeBytes(x: int, n: nat): (s: seq<Byte>)
    ensures |s| == n
    decreases n
  {
    if n == 0 then [] else [x % 256] + LeBytes(x / 256, n - 1)
  }

  /** The unsigned value of bytes stored least significant first. */
  function LeValue(s: seq<Byte>): (v: nat)
    ensures v < Pow256(|s|)
  {
    if s == [] then 0 else s[0] + 256 * LeValue(s[1..])
  }

  lemma ModPeel(x: int, p: nat)
    requires p > 0
    ensures x % (256 * p) == x % 256 + 256 * ((x / 256) % p)
  {
    var q, r := x / 256, x % 256;
    var k, t := q / p, q % p;
    assert x == (256 * p) * k + (256 * t + r) by {
      assert q == p * k + t;
    }
    assert 0 <= 256 * t + r < 256 * p by {
      assert t <= p - 1;
    }
    ModUnique(x, 256 * p, k, 256 * t + r);
  }

  lemma MulAwayFromZero(m: int, d: int)
    requires m > 0
    ensures d >= 1 ==> m * d >= m
    ensures d <= -1 ==> m * d <= -m
  {
  }

  /** Quotient and remainder are the only k and r with x == m * k + r and 0 <= r < m. */
  lemma ModUnique(x: int, m: int, k: int, r: int)
    requires m > 0 && x == m * k + r && 0 <= r < m
    ensures x % m == r && x / m == k
  {
    var d := x / m - k;
    assert m * d == r - x % m by {
      assert m * (x / m) + x % m == x;
      assert m * d == m * (x / m) - m * k;
    }
    MulAwayFromZero(m, d);
  }

  lemma {:induction false} LeRoundTrip(x: int, n: nat)
    ensures LeValue(LeBytes(x, n)) == x % Pow256(n)
    decreases n
  {
    if n > 0 {
      LeRoundTrip(x / 256, n - 1);
      ModPeel(x, Pow256(n - 1));
      assert LeBytes(x, n)[1..] == LeBytes(x / 256, n - 1);
    }
  }

  /** Little-endian bytes determine each other: the decoder is injective too. */
  lemma {:induction false} LeUnique(s: seq<Byte>)
    ensures LeBytes(LeValue(s), |s|) == s
  {
    if s != [] {
      LeUnique(s[1..]);
      ModUnique(LeValue(s), 256, LeValue(s[1..]), s[0]);
      assert s == [s[0]] + s[1..];
    }
  }

  lemma Pow256Values()
    ensures Pow256(HALF_BYTES) == TWO32
    ensures Pow256(WORD_BYTES) == TWO64
  {
    assert Pow256(4) == 256 * (256 * (256 * 256));
    assert Pow256(8) == 256 * (256 * (256 * (256 * Pow256(4))));
  }

  /** Eight bytes read back as the int64 that was written. */
  lemma Int64RoundTrip(x: Int64)
    ensures Wrap64(LeValue(LeBytes(x, WORD_BYTES))) == x
  {
    LeRoundTrip(x, WORD_BYTES);
    Pow256Values();
  }

  lemma Int32RoundTrip(x: int)
    requires -TWO31 <= x < TWO31
    ensures Wrap32(LeValue(LeBytes(x, HALF_BYTES))) == x
  {
    LeRoundTrip(x, HALF_BYTES);
    Pow256Values();
  }
}
