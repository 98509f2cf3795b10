/**
 The 32-byte state struct behind the trampoline (pkg/trampoline/trampoline.go):
 the Go writer encodes it, the machine stubs load its words.
 */
module StateStruct {
  import opened Words

  const STATE_SIZE := 32
  const STATE_OFFSET := 436
  const CLOCK_GETTIME_ENTRY := 0
  const GETTIMEOFDAY_ENTRY := 141
  const TIME_ENTRY := 306

  const OFF_SEC := 0
  const OFF_NSEC := 8
  const OFF_MASK := 16
  const OFF_GENERATION := 24

  const MASK_ENABLED := 1
  const MASK_FROZEN := 3

  type Gen = g: int | 0 <= g < TWO32

  datatype State = State(sec: Int64, nsec: Int64, mask: Word, generation: Gen)

  datatype Decoded = Ok(state: State) | TooShort

  /** The struct layout: three little-endian words, a half word, four bytes of padding. */
  function Bytes(s: State): (b: seq<Byte>)
    ensures |b| == STATE_SIZE
  {
    LeBytes(s.sec, WORD_BYTES) + LeBytes(s.nsec, WORD_BYTES) + LeBytes(s.mask, WORD_BYTES)
    + LeBytes(s.generation, HALF_BYTES) + [0, 0, 0, 0]
  }

  function Decode(b: seq<Byte>): (d: Decoded)
    ensures d.TooShort? <==> |b| < STATE_SIZE
  {
    if |b| < STATE_SIZE then TooShort
    else
      Pow256Values();
      Ok(State(Wrap64(LeValue(b[0..8])), Wrap64(LeValue(b[8..16])), LeValue(b[16..24]), LeValue(b[24..28])))
  }

  lemma Fields(s: State)
    ensures Bytes(s)[0..8] == LeBytes(s.sec, WORD_BYTES)
    ensures Bytes(s)[8..16] == LeBytes(s.nsec, WORD_BYTES)
    ensures Bytes(s)[16..24] == LeBytes(s.mask, WORD_BYTES)
    ensures Bytes(s)[24..28] == LeBytes(s.generation, HALF_BYTES)
    ensures Bytes(s)[16] == s.mask % 256
  {
    hide LeBytes;
    LeStep(s.mask, WORD_BYTES);
    Parts(LeBytes(s.sec, WORD_BYTES), LeBytes(s.nsec, WORD_BYTES), LeBytes(s.mask, WORD_BYTES),
          LeBytes(s.generation, HALF_BYTES));
  }

  lemma Parts(a: seq<Byte>, b: seq<Byte>, c: seq<Byte>, d: seq<Byte>)
    requires |a| == |b| == |c| == 8 && |d| == 4
    ensures var all := a + b + c + d + [0, 0, 0, 0];
            all[0..8] == a && all[8..16] == b && all[16..24] == c && all[24..28] == d && all[16] == c[0]
  {
  }

  /** Whatever is encoded decodes to itself, for every int64, mask and generation. */
  lemma DecodeEncode(s: State)
    ensures Decode(Bytes(s)) == Ok(s)
  {
    hide LeBytes, LeValue, Bytes;
    Fields(s);
    Int64RoundTrip(s.sec);
    Int64RoundTrip(s.nsec);
    LeRoundTrip(s.mask, WORD_BYTES);
    LeRoundTrip(s.generation, HALF_BYTES);
    Pow256Values();
  }

  lemma WrapBytes(v: Word)
    ensures LeBytes(Wrap64(v), WORD_BYTES) == LeBytes(v, WORD_BYTES)
  {
    hide LeBytes, LeValue;
    var w := Wrap64(v);
    LeRoundTrip(w, WORD_BYTES);
    Pow256Values();
    assert w % TWO64 == v;
    LeRoundTrip(v, WORD_BYTES);
    LeUnique(LeBytes(w, WORD_BYTES));
    LeUnique(LeBytes(v, WORD_BYTES));
  }

  /** A decodable buffer is its own re-encoding, up to the padding and anything past the struct. */
  lemma EncodeDecode(b: seq<Byte>)
    requires |b| >= STATE_SIZE
    ensures Decode(b).Ok? && Bytes(Decode(b).state)[..28] == b[..28]
  {
    hide LeBytes, LeValue, Bytes;
    var s := Decode(b).state;
    Pow256Values();
    LeUnique(b[0..8]);
    LeUnique(b[8..16]);
    LeUnique(b[16..24]);
    LeUnique(b[24..28]);
    WrapBytes(LeValue(b[0..8]));
    WrapBytes(LeValue(b[8..16]));
    Fields(s);
    var e := Bytes(s);
    assert e[..28] == e[0..8] + e[8..16] + e[16..24] + e[24..28];
    assert b[..28] == b[0..8] + b[8..16] + b[16..24] + b[24..28];
  }

  function Zeros(n: nat): seq<Byte>
  {
    seq(n, _ => 0)
  }

  lemma LeStep(x: int, n: nat)
    requires n > 0
    ensures LeBytes(x, n) == [x % 256] + LeBytes(x / 256, n - 1)
  {
  }

  /** binary.LittleEndian.PutUint64 / PutUint32: n bytes of x at offset off of the buffer. */
  method PutLe(b: array<Byte>, off: nat, x: int, n: nat)
    requires off + n <= b.Length
    modifies b
    ensures b[..] == old(b[..off]) + LeBytes(x, n) + old(b[off + n..])
  {
    hide LeBytes;
    var i, rest := 0, x;
    ghost var all := LeBytes(x, n);
    while i < n
      invariant 0 <= i <= n
      invariant all == all[..i] + LeBytes(rest, n - i)
      invariant b[..off] == old(b[..off]) && b[off..off + i] == all[..i]
      invariant b[off + n..] == old(b[off + n..])
    {
      LeStep(rest, n - i);
      assert all[i] == LeBytes(rest, n - i)[0];
      b[off + i] := rest % 256;
      assert b[off..off + i + 1] == b[off..off + i] + [b[off + i]];
      rest := rest / 256;
      i := i + 1;
    }
    assert b[..] == b[..off] + b[off..off + n] + b[off + n..];
  }

  /** trampoline.EncodeState: fill a zeroed buffer field by field. */
  method EncodeState(offsetSec: Int64, offsetNsec: Int64, mask: Word, generation: Gen) returns (b: array<Byte>)
    ensures fresh(b)
    ensures b[..] == Bytes(State(offsetSec, offsetNsec, mask, generation))
  {
    hide LeBytes;
    b := new Byte[STATE_SIZE](i => 0);
    PutLe(b, OFF_SEC, offsetSec, WORD_BYTES);
    ghost var done := LeBytes(offsetSec, WORD_BYTES);
    assert b[..] == done + Zeros(24);
    PutLe(b, OFF_NSEC, offsetNsec, WORD_BYTES);
    done := done + LeBytes(offsetNsec, WORD_BYTES);
    assert b[..] == done + Zeros(16);
    PutLe(b, OFF_MASK, mask, WORD_BYTES);
    done := done + LeBytes(mask, WORD_BYTES);
    assert b[..] == done + Zeros(8);
    PutLe(b, OFF_GENERATION, generation, HALF_BYTES);
    done := done + LeBytes(generation, HALF_BYTES);
    assert b[..] == done + Zeros(4);
    assert Zeros(4) == [0, 0, 0, 0];
  }
}
