/** Clock arithmetic in whole nanoseconds: what the stubs are meant to compute. */
module Clocks {
  import opened Words

  const SECOND := 1000000000
  const MICROSECONDS := 1000000

  /** Nanoseconds since the epoch as the pair that names them. */
  function Nanos(sec: int, nsec: int): int
  {
    sec * SECOND + nsec
  }

  /** The single correction step of the stubs: at most one carry or one borrow. */
  function OneStep(sec: int, frac: int, unit: int): (r: (int, int))
  {
    if frac >= unit then (sec + 1, frac - unit)
    else if frac < 0 then (sec - 1, frac + unit)
    else (sec, frac)
  }

  /** One correction step is floor division exactly when the sum is less than one unit out of range. */
  lemma OneStepIsFloor(sec: int, frac: int, unit: int)
    requires unit > 0
    ensures OneStep(sec, frac, unit) == ((sec * unit + frac) / unit, (sec * unit + frac) % unit)
      <==> -unit <= frac < 2 * unit
  {
    var (s, f) := OneStep(sec, frac, unit);
    assert s * unit + f == sec * unit + frac;
    if 0 <= f < unit {
      ModUnique(sec * unit + frac, unit, s, f);
    }
  }

  /** Adding in 64-bit registers and correcting once is floor division in the integers, modulo 2^64 seconds. */
  lemma WrappedSum(sec: int, frac: int, unit: int)
    requires 0 < unit <= SECOND && -unit <= frac < 2 * unit
    ensures var (s, f) := OneStep(Wrap64(sec), Wrap64(frac), unit);
      Wrap64(s) == Wrap64((sec * unit + frac) / unit) && f == (sec * unit + frac) % unit
  {
    OneStepIsFloor(sec, frac, unit);
    WrapTwice(sec);
  }
}
