/** How every layer keeps a fake time, and the real clock that it is kept against. */
module Records {
  /** The zero time.Time, year 1, in nanoseconds since the epoch. */
  const ZERO_TIME := -62135596800 * 1000000000

  /** Frozen at an instant, or at an offset from the real clock. The other field is at rest. */
  datatype Record = Record(frozen: bool, frozenAt: int, offset: int)

  function EffectiveTime(r: Record, now: int): int
  {
    if r.frozen then r.frozenAt else now + r.offset
  }

  /** time.Now(): never goes back. */
  class Clock {
    var now: int

    constructor (now: int)
      ensures this.now == now
    {
      this.now := now;
    }

    method Now() returns (t: int)
      modifies this
      ensures t == now && now >= old(now)
    {
      var later: int := *;
      if later > now {
        now := later;
      }
      t := now;
    }
  }
}
