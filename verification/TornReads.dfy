/** One clock read racing one update whose words land in any order. */
module TornReads {
  import opened Words
  import opened Memory
  import opened StateStruct
  import opened Clocks
  import opened GoClock
  import opened Machine
  import opened Stubs
  import opened Readings
  import ClockGettime

  /** At every instruction each word of the struct is the old one or the new one. */
  ghost predicate Racing(w: World, a: State, b: State)
  {
    forall pc ::
      && (w.view(pc).sec == a.sec || w.view(pc).sec == b.sec)
      && (w.view(pc).nsec == a.nsec || w.view(pc).nsec == b.nsec)
      && (w.view(pc).mask == a.mask || w.view(pc).mask == b.mask)
  }

  /** What clock_gettime would read at the real instant t under s alone. */
  function ReadingUnder(s: State, t: Instant): int
  {
    if s.mask == MASK_FROZEN then Nanos(s.sec, s.nsec) else t + Nanos(s.sec, s.nsec)
  }

  predicate Near(x: int, y: int, bound: int)
  {
    -bound < x - y < bound
  }

  /**
   A same-mode update never tears a read far: the result is in normal form and
   less than two seconds (one in freeze mode) from the reading under the state
   whose seconds word was seen.
   */
  lemma TornReadBound(w: World, c: Core, a: State, b: State, t: Instant)
    requires RacingCall(w, c, a, b, t) && a.mask == b.mask && Wellformed(a) && Wellformed(b)
    ensures CleanRead(w, c)
    ensures
      var bound := if a.mask == MASK_FROZEN then SECOND else 2 * SECOND;
      var seen := w.view(if a.mask == MASK_FROZEN then ClockGettime.READ_FROZEN_SEC else ClockGettime.READ_SEC).sec;
      && (seen == a.sec ==> Near(TpReading(w, c), ReadingUnder(a, t), bound))
      && (seen == b.sec ==> Near(TpReading(w, c), ReadingUnder(b, t), bound))
  {
    var _, _ := TornReading(w, c, a, b, t);
  }

  predicate Between(x: int, y: int, z: int)
  {
    y <= x <= z || z <= x <= y
  }

  /** c is a clock_gettime call at the real instant t that races an update from a to b. */
  ghost predicate RacingCall(w: World, c: Core, a: State, b: State, t: Instant)
  {
    HookedRead(w, c) && ClockGettime.Real(w, c) == TimespecOf(t) && Plausible(t) && Racing(w, a, b)
  }

  /** The call returns a time between the old and the new one. */
  ghost predicate ReadsBetween(w: World, c: Core, a: State, b: State, t: Instant)
  {
    CleanRead(w, c) && Between(TpReading(w, c), ReadingUnder(a, t), ReadingUnder(b, t))
  }

  /** So does every call, whatever it sees of the update. */
  ghost predicate AlwaysBetween(a: State, b: State)
  {
    forall w, c, t :: RacingCall(w, c, a, b, t) ==> ReadsBetween(w, c, a, b, t)
  }

  /** The update moves the two words in opposite directions. */
  predicate Opposed(a: State, b: State)
  {
    (a.sec < b.sec && a.nsec > b.nsec) || (a.sec > b.sec && a.nsec < b.nsec)
  }

  /** What a racing call reads is made of one of the two seconds words and one of the two nanoseconds words. */
  lemma TornReading(w: World, c: Core, a: State, b: State, t: Instant) returns (sec: Int64, nsec: Int64)
    requires RacingCall(w, c, a, b, t) && a.mask == b.mask && Wellformed(a) && Wellformed(b)
    ensures (sec == a.sec || sec == b.sec) && (nsec == a.nsec || nsec == b.nsec)
    ensures sec == w.view(if a.mask == MASK_FROZEN then ClockGettime.READ_FROZEN_SEC else ClockGettime.READ_SEC).sec
    ensures nsec == w.view(if a.mask == MASK_FROZEN then ClockGettime.READ_FROZEN_NSEC else ClockGettime.READ_NSEC).nsec
    ensures CleanRead(w, c) && TpReading(w, c) == ReadingUnder(State(sec, nsec, a.mask, 0), t)
  {
    hide Run, Load64;
    if a.mask == MASK_FROZEN {
      sec, nsec := w.view(ClockGettime.READ_FROZEN_SEC).sec, w.view(ClockGettime.READ_FROZEN_NSEC).nsec;
      FrozenRead(w, c, sec, nsec);
    } else {
      sec, nsec := w.view(ClockGettime.READ_SEC).sec, w.view(ClockGettime.READ_NSEC).nsec;
      AdvancingRead(w, c, t, sec, nsec);
    }
  }

  /** Some call races the update and sees the seconds of one state and the nanoseconds of the other. */
  lemma SomeTornCall(secOf: State, nsecOf: State, a: State, b: State, t: Instant) returns (w: World, c: Core)
    requires (secOf == a && nsecOf == b) || (secOf == b && nsecOf == a)
    requires a.mask == b.mask && Wellformed(a) && Wellformed(b) && Plausible(t)
    ensures RacingCall(w, c, a, b, t) && CleanRead(w, c)
    ensures TpReading(w, c) == ReadingUnder(State(secOf.sec, nsecOf.nsec, a.mask, 0), t)
  {
    hide Run, Load64, Bytes, BytesAt;
    w, c := SomeCallReads(a, t);
    w := w.(view := pc => if pc == ClockGettime.READ_FROZEN_SEC || pc == ClockGettime.READ_SEC then secOf else nsecOf);
    var _, _ := TornReading(w, c, a, b, t);
  }

  /**
   Every read that races a same-mode update lies between the old and the new time
   exactly when the update does not move seconds and nanoseconds in opposite
   directions.
   */
  lemma TornBetweenIff(a: State, b: State)
    requires Wellformed(a) && Wellformed(b) && a.mask == b.mask
    ensures AlwaysBetween(a, b) <==> !Opposed(a, b)
  {
    hide RacingCall, ReadsBetween;
    if Opposed(a, b) {
      var w, c := OvershootingCall(a, b);
      assert RacingCall(w, c, a, b, 0) && !ReadsBetween(w, c, a, b, 0);
    } else {
      forall w, c, t | RacingCall(w, c, a, b, t)
        ensures ReadsBetween(w, c, a, b, t)
      {
        StaysBetween(w, c, a, b, t);
      }
    }
  }

  lemma StaysBetween(w: World, c: Core, a: State, b: State, t: Instant)
    requires Wellformed(a) && Wellformed(b) && a.mask == b.mask && !Opposed(a, b) && RacingCall(w, c, a, b, t)
    ensures ReadsBetween(w, c, a, b, t)
  {
    hide CleanRead, RacingCall;
    var sec, nsec := TornReading(w, c, a, b, t);
  }

  lemma OvershootingCall(a: State, b: State) returns (w: World, c: Core)
    requires Wellformed(a) && Wellformed(b) && a.mask == b.mask && Opposed(a, b)
    ensures RacingCall(w, c, a, b, 0) && !ReadsBetween(w, c, a, b, 0)
  {
    hide CleanRead, RacingCall;
    if a.sec < b.sec {
      w, c := SomeTornCall(b, a, a, b, 0);
    } else {
      w, c := SomeTornCall(a, b, a, b, 0);
    }
  }

  /** Freezing at 1.9 s and then at 2.1 s: a call that sees the new seconds and the old nanoseconds returns 2.9 s. */
  lemma TornReadCanOvershoot() returns (w: World, c: Core)
    ensures
      var a, b := FrozenState(1_900_000_000, 0), FrozenState(2_100_000_000, 1);
      && RacingCall(w, c, a, b, 0) && CleanRead(w, c) && TpReading(w, c) == 2_900_000_000
      && !Between(TpReading(w, c), ReadingUnder(a, 0), ReadingUnder(b, 0))
  {
    hide Run, Load64, CleanRead, RacingCall;
    var a, b := FrozenState(1_900_000_000, 0), FrozenState(2_100_000_000, 1);
    w, c := SomeTornCall(b, a, a, b, 0);
  }
}
