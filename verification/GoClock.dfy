/** The Go side of a clock update: from a target instant to the words of the state struct. */
module GoClock {
  import opened Words
  import opened StateStruct
  import opened Clocks

  /** An instant is a whole number of nanoseconds since the epoch; a duration is an int64 of them. */
  type Instant = int
  type Duration = Int64

  /** time.Time.Sub saturates where the difference does not fit a Duration. */
  function Sub(t: Instant, u: Instant): (d: Duration)
    ensures d == t - u <==> -TWO63 <= t - u < TWO63
    ensures d < t - u ==> d == TWO63 - 1
    ensures d > t - u ==> d == -TWO63
  {
    if t - u < -TWO63 then -TWO63 else if t - u >= TWO63 then TWO63 - 1 else t - u
  }

  function DiffSecNsec(target: Instant, base: Instant): (r: (Int64, Int64))
    ensures Nanos(r.0, r.1) == Sub(target, base)
    ensures -SECOND < r.1 < SECOND
  {
    (TruncDiv(Sub(target, base), SECOND), TruncMod(Sub(target, base), SECOND))
  }

  /** Unix() and Nanosecond(): the floor second, as an int64, and the non-negative rest. */
  function Unix(target: Instant): (r: (Int64, Int64))
    ensures 0 <= r.1 < SECOND
    ensures Nanos(r.0, r.1) == target <==> -TWO63 <= target / SECOND < TWO63
  {
    (Wrap64(target / SECOND), target % SECOND)
  }

  /** What InjectAtTime, SetTime and re-injection in advancing mode write. */
  function AdvancingState(target: Instant, base: Instant, gen: Gen): State
  {
    State(DiffSecNsec(target, base).0, DiffSecNsec(target, base).1, MASK_ENABLED, gen)
  }

  /** What InjectFrozen, Freeze and re-injection in freeze mode write. */
  function FrozenState(target: Instant, gen: Gen): State
  {
    State(Unix(target).0, Unix(target).1, MASK_FROZEN, gen)
  }

  /** 2^63 nanoseconds in whole seconds: the furthest an offset can reach. */
  const MAX_OFFSET_SEC := 9223372036

  /** The range the single correction step of every stub needs, and the one freeze mode returns as it is. */
  predicate Wellformed(s: State)
  {
    || (s.mask == MASK_ENABLED && -SECOND < s.nsec < SECOND && -MAX_OFFSET_SEC <= s.sec <= MAX_OFFSET_SEC)
    || (s.mask == MASK_FROZEN && 0 <= s.nsec < SECOND)
  }

  /** Every state any Go writer produces is in range, saturated difference or not. */
  lemma WritersAreWellformed(target: Instant, base: Instant, gen: Gen)
    ensures Wellformed(AdvancingState(target, base, gen))
    ensures Wellformed(FrozenState(target, gen))
  {
  }
}
