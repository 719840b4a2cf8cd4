/**
 * The dashboard's animated statistics: four counters start at zero and an
 * interval timer replaces the record on every tick, moving each counter up by
 * its step while it is below its target and setting it to the target
 * otherwise. A counter can therefore pass its target by up to one step before
 * it settles. The timer itself is not modelled: a tick is a call.
 */
module Dashboard {

  datatype Stats = Stats(totalPatients: int, totalDoctors: int, totalAppointments: int, occupancyRate: int)

  const Zero := Stats(0, 0, 0, 0)

  /** The targets the counters settle on. */
  const Targets := Stats(1254, 75, 328, 73)

  /** One counter's update: `prev < cap ? prev + step : cap`. */
  function Saturate(prev: int, cap: int, step: int): int
  {
    if prev < cap then prev + step else cap
  }

  /** At or above the target the next value is the target, so the target is a
      fixed point; below it the counter grows by step and can pass the target
      by at most step - 1; a non-negative counter stays non-negative. */
  lemma SaturateBounds(prev: int, cap: int, step: int)
    requires step > 0
    ensures prev >= cap ==> Saturate(prev, cap, step) == cap
    ensures Saturate(cap, cap, step) == cap
    ensures prev < cap ==> prev < Saturate(prev, cap, step) < cap + step
    ensures 0 <= prev && 0 <= cap ==> 0 <= Saturate(prev, cap, step)
  {
  }

  /** The interval's updater: every field independently. */
  function NextStats(s: Stats): (r: Stats)
  {
    Stats(
      Saturate(s.totalPatients, 1254, 50),
      Saturate(s.totalDoctors, 75, 3),
      Saturate(s.totalAppointments, 328, 15),
      Saturate(s.occupancyRate, 73, 3))
  }

  /** The target record is left alone by a tick. */
  lemma TargetsAreFixed()
    ensures NextStats(Targets) == Targets
  {
  }

  /** The record after n ticks. */
  function AfterTicks(s: Stats, n: nat): Stats
  {
    if n == 0 then s else NextStats(AfterTicks(s, n - 1))
  }

  /** One counter after n ticks. */
  function Steps(v: int, cap: int, step: int, n: nat): int
  {
    if n == 0 then v else Saturate(Steps(v, cap, step, n - 1), cap, step)
  }

  /** The ticks a counter needs from zero to reach or pass cap: ceil(cap / step). */
  function TicksToReach(cap: nat, step: nat): (k: nat)
    requires step > 0
    ensures k * step >= cap
    ensures k == 0 || (k - 1) * step < cap
  {
    if cap == 0 then 0 else 1 + TicksToReach(if cap <= step then 0 else cap - step, step)
  }

  /** From zero a counter climbs by step each tick until the tick at which it
      first reaches or passes the target, and from the next tick on it is the
      target. */
  lemma {:induction false} StepsFromZero(cap: nat, step: nat, n: nat)
    requires step > 0
    ensures Steps(0, cap, step, n) == if n <= TicksToReach(cap, step) then n * step else cap
  {
    var k := TicksToReach(cap, step);
    if n > 0 {
      StepsFromZero(cap, step, n - 1);
      assert n * step == (n - 1) * step + step;
      if n <= k {
        MulMonotone(n - 1, k - 1, step);
      }
    }
  }

  lemma MulMonotone(a: nat, b: nat, c: nat)
    requires a <= b
    ensures a * c <= b * c
  {
  }

  /** The ticks of the four fields are independent of each other. */
  lemma {:induction false} AfterTicksFields(s: Stats, n: nat)
    ensures AfterTicks(s, n).totalPatients == Steps(s.totalPatients, 1254, 50, n)
    ensures AfterTicks(s, n).totalDoctors == Steps(s.totalDoctors, 75, 3, n)
    ensures AfterTicks(s, n).totalAppointments == Steps(s.totalAppointments, 328, 15, n)
    ensures AfterTicks(s, n).occupancyRate == Steps(s.occupancyRate, 73, 3, n)
  {
    if n > 0 {
      AfterTicksFields(s, n - 1);
    }
  }

  /** Patients show 1300 at tick 26 and 1254 from tick 27; appointments 330
      at tick 22 and 328 from tick 23; occupancy 75 at tick 25 and 73 from
      tick 26; doctors reach exactly 75 at tick 25 and never pass it. */
  lemma OvershootThenSettle()
    ensures AfterTicks(Zero, 26).totalPatients == 1300 && AfterTicks(Zero, 27).totalPatients == 1254
    ensures AfterTicks(Zero, 22).totalAppointments == 330 && AfterTicks(Zero, 23).totalAppointments == 328
    ensures AfterTicks(Zero, 25).occupancyRate == 75 && AfterTicks(Zero, 26).occupancyRate == 73
    ensures forall n: nat :: AfterTicks(Zero, n).totalDoctors == if n <= 25 then 3 * n else 75
  {
    AfterTicksFields(Zero, 26);
    AfterTicksFields(Zero, 27);
    StepsFromZero(1254, 50, 26);
    StepsFromZero(1254, 50, 27);
    AfterTicksFields(Zero, 22);
    AfterTicksFields(Zero, 23);
    StepsFromZero(328, 15, 22);
    StepsFromZero(328, 15, 23);
    AfterTicksFields(Zero, 25);
    StepsFromZero(73, 3, 25);
    StepsFromZero(73, 3, 26);
    forall n: nat
      ensures AfterTicks(Zero, n).totalDoctors == if n <= 25 then 3 * n else 75
    {
      AfterTicksFields(Zero, n);
      StepsFromZero(75, 3, n);
    }
  }

  /** From zero every counter equals its target after ceil(target / step) + 1
      ticks and stays there: from tick 27 on the record is the targets. */
  lemma SettlesOnTargets(n: nat)
    requires n >= 27
    ensures AfterTicks(Zero, n) == Targets
  {
    AfterTicksFields(Zero, n);
    StepsFromZero(1254, 50, n);
    StepsFromZero(75, 3, n);
    StepsFromZero(328, 15, n);
    StepsFromZero(73, 3, n);
  }

  /** The dashboard's `stats` state; ticks counts the timer's firings so far. */
  class StatsTicker {
    var stats: Stats
    ghost var ticks: nat

    ghost predicate Valid()
      reads this
    {
      stats == AfterTicks(Zero, ticks)
    }

    constructor()
      ensures Valid() && stats == Zero && ticks == 0
    {
      stats := Zero;
      ticks := 0;
    }

    /** One firing of the interval: `setStats(prev => ...)`. */
    method Tick()
      requires Valid()
      modifies this
      ensures Valid() && ticks == old(ticks) + 1
      ensures stats == NextStats(old(stats))
    {
      stats := NextStats(stats);
      ticks := ticks + 1;
    }
  }
}
