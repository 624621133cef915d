/**
 Auto-scaling of the task scheduler's concurrency
 (internal/controllers/mcptaskscheduler_controller.go), in exact arithmetic.
 */
module AutoScaler {

  const INT32_MAX := 0x7fff_ffff

  /** The configured target, and the bounds on concurrency. */
  datatype Scaling = Scaling(target: int, minTasks: int, maxTasks: int)

  /** Where a load stands against the target; a zero limit makes any load count as infinite utilization. */
  predicate Overloaded(s: Scaling, current: int, load: int) {
    if current == 0 then load > 0
    else load as real / current as real * 100.0 > s.target as real
  }

  predicate Underused(s: Scaling, current: int, load: int) {
    if current == 0 then load < 0
    else load as real / current as real * 100.0 < s.target as real / 2.0
  }

  /** math.Floor(n * 0.25) */
  function QuarterDown(n: int): int {
    n / 4
  }

  /** math.Ceil(n * 0.25) */
  function QuarterUp(n: int): int {
    -((-n) / 4)
  }

  function Clamp(s: Scaling, n: int): int {
    var raised := if n < s.minTasks then s.minTasks else n;
    if raised > s.maxTasks then s.maxTasks else raised
  }

  function Desired(s: Scaling, current: int, load: int): int {
    if load == 0 then s.minTasks
    else if Overloaded(s, current, load) then Clamp(s, current + QuarterDown(current))
    else if Underused(s, current, load) then Clamp(s, current - QuarterUp(current))
    else Clamp(s, current)
  }

  class TaskScheduler {
    const scaling: Scaling
    var maxConcurrentTasks: int

    constructor (scaling: Scaling, maxConcurrentTasks: int)
      ensures this.scaling == scaling && this.maxConcurrentTasks == maxConcurrentTasks
    {
      this.scaling, this.maxConcurrentTasks := scaling, maxConcurrentTasks;
    }

    method CalculateDesiredConcurrency(load: int) returns (desired: int)
      ensures desired == Desired(scaling, maxConcurrentTasks, load)
    {
      var current := maxConcurrentTasks;
      if load == 0 { return scaling.minTasks; }
      if Overloaded(scaling, current, load) {
        desired := current + QuarterDown(current);
      } else if Underused(scaling, current, load) {
        desired := current - QuarterUp(current);
      } else {
        desired := current;
      }
      if desired < scaling.minTasks {
        desired := scaling.minTasks;
      }
      if desired > scaling.maxTasks {
        desired := scaling.maxTasks;
      }
    }

    /** The running tasks are capped to 32 bits, and the result is fed back as the new limit. */
    method HandleAutoScaling(runningTasks: int)
      modifies this
      ensures runningTasks <= 2_147_483_647 ==>
        maxConcurrentTasks == Desired(scaling, old(maxConcurrentTasks), runningTasks)
      ensures runningTasks > 2_147_483_647 ==>
        maxConcurrentTasks == Desired(scaling, old(maxConcurrentTasks), 2_147_483_647)
    {
      var load := if runningTasks > INT32_MAX then INT32_MAX else runningTasks;
      var desired := CalculateDesiredConcurrency(load);
      if desired != maxConcurrentTasks {
        maxConcurrentTasks := desired;
      }
    }
  }

  // ----- The comparisons without division -----

  lemma Proportion(x: real, y: real, t: real)
    requires y > 0.0
    ensures x / y * 100.0 > t <==> x * 100.0 > t * y
    ensures x / y * 100.0 < t <==> x * 100.0 < t * y
  {
    var u := x / y;
    assert x == u * y;
    assert x * 100.0 == (u * 100.0) * y;
    if u * 100.0 > t { assert (u * 100.0 - t) * y > 0.0; }
    if u * 100.0 < t { assert (t - u * 100.0) * y > 0.0; }
  }

  /** For a positive limit: over target when 100 loads exceed target limits, under half of it when 200 fall short. */
  lemma Thresholds(s: Scaling, current: int, load: int)
    requires current > 0
    ensures Overloaded(s, current, load) <==> 100 * load > s.target * current
    ensures Underused(s, current, load) <==> 200 * load < s.target * current
  {
    var x, y, t := load as real, current as real, s.target as real;
    Proportion(x, y, t);
    Proportion(x, y, t / 2.0);
    assert (s.target * current) as real == t * y;
    assert (100 * load) as real == 100.0 * x && (200 * load) as real == 200.0 * x;
    assert t / 2.0 * y * 2.0 == t * y;
  }

  // ----- The size of one step -----

  /**
   One step from a positive limit, written out. Unless a bound stops it, the limit
   grows by a quarter of itself, rounded down, when 100 loads exceed target limits;
   it shrinks by a quarter, rounded up, when 200 loads fall short of them; it stays
   otherwise. Without load it is the minimum, and a maximum below the minimum wins.
   */
  lemma StepIsAQuarter(s: Scaling, current: int, load: int)
    requires current > 0
    ensures var next := Desired(s, current, load);
      && (load == 0 ==> next == s.minTasks)
      && (load != 0 && s.maxTasks <= s.minTasks ==> next == s.maxTasks)
      && (load != 0 && s.minTasks <= s.maxTasks ==> s.minTasks <= next <= s.maxTasks)
      && (load != 0 && 100 * load > s.target * current ==>
            && (s.minTasks < next ==> 4 * (next - current) <= current)
            && (next < s.maxTasks ==> current < 4 * (next - current) + 4))
      && (load != 0 && 100 * load <= s.target * current && 200 * load < s.target * current ==>
            && (s.minTasks < next ==> current <= 4 * (current - next))
            && (next < s.maxTasks ==> 4 * (current - next) - 4 < current))
      && (load != 0 && 100 * load <= s.target * current <= 200 * load ==>
            && (s.minTasks < next ==> next <= current)
            && (next < s.maxTasks ==> current <= next))
  {
    hide Overloaded, Underused;
    Thresholds(s, current, load);
  }

  /** A limit of zero counts as overloaded by any load and has no quarter to grow by. */
  lemma StepFromZero(s: Scaling, load: int)
    requires load > 0 && s.minTasks <= s.maxTasks
    ensures var next := Desired(s, 0, load);
      s.minTasks <= next <= s.maxTasks && (s.minTasks < next ==> next <= 0) && (next < s.maxTasks ==> 0 <= next)
  {
  }

  // ----- The feedback loop under a constant load -----

  function Iterate(s: Scaling, current: int, load: int, n: nat): int {
    if n == 0 then current else Desired(s, Iterate(s, current, load, n - 1), load)
  }

  ghost predicate InBounds(s: Scaling, n: int) {
    s.minTasks <= n <= s.maxTasks
  }

  /** Neither over the target nor under half of it. */
  ghost predicate InBand(s: Scaling, current: int, load: int) {
    !Overloaded(s, current, load) && !Underused(s, current, load)
  }

  /** Whatever the limit was, one step brings it within the bounds. */
  lemma StepIsInBounds(s: Scaling, current: int, load: int)
    requires s.minTasks <= s.maxTasks
    ensures InBounds(s, Desired(s, current, load))
  {
  }

  /** The limits that the controller leaves alone are exactly these. */
  lemma FixedPoints(s: Scaling, current: int, load: int)
    requires 1 <= s.minTasks <= s.maxTasks && load >= 1 && InBounds(s, current)
    ensures Desired(s, current, load) == current <==>
      || InBand(s, current, load)
      || (Underused(s, current, load) && current == s.minTasks)
      || (Overloaded(s, current, load) && (current == s.maxTasks || current < 4))
  {
    Thresholds(s, current, load);
    assert s.target * current > 200 * load ==> s.target * current >= 100 * load;
  }

  lemma ScaledOrder(t: int, a: int, b: int, m: int, n: int)
    requires t >= 0 && m * a <= n * b
    ensures m * (t * a) <= n * (t * b)
  {
    assert t * (m * a) <= t * (n * b);
    assert t * (m * a) == m * (t * a) && t * (n * b) == n * (t * b);
  }

  lemma SignOfTarget(t: int, n: int)
    requires n > 0
    ensures t <= 0 ==> t * n <= 0
  {
  }

  /** After a step up the next step is not down. */
  lemma UpIsNotFollowedByDown(s: Scaling, current: int, load: int)
    requires 1 <= s.minTasks <= s.maxTasks && load >= 1 && InBounds(s, current) && Overloaded(s, current, load)
    ensures !Underused(s, Desired(s, current, load), load)
  {
    hide Overloaded, Underused;
    var next := Desired(s, current, load);
    Thresholds(s, current, load);
    Thresholds(s, next, load);
    SignOfTarget(s.target, next);
    if s.target > 0 {
      ScaledOrder(s.target, next, current, 4, 5);
    }
  }

  /** After a step down the next step is not up. */
  lemma DownIsNotFollowedByUp(s: Scaling, current: int, load: int)
    requires 1 <= s.minTasks <= s.maxTasks && load >= 1 && InBounds(s, current) && Underused(s, current, load)
    ensures !Overloaded(s, Desired(s, current, load), load)
  {
    hide Overloaded, Underused;
    Thresholds(s, current, load);
    SignOfTarget(s.target, current);
    var next := Desired(s, current, load);
    UpperHalf(s, current, load);
    Thresholds(s, next, load);
    ScaledOrder(s.target, current, next, 1, 2);
  }

  /** A step down takes away at most half. */
  lemma UpperHalf(s: Scaling, current: int, load: int)
    requires 1 <= s.minTasks <= s.maxTasks && load >= 1 && InBounds(s, current)
    ensures 1 <= Desired(s, current, load) && current <= 2 * Desired(s, current, load)
  {
    hide Overloaded, Underused;
  }

  lemma NotBoth(s: Scaling, current: int, load: int)
    requires current >= 1 && load >= 1
    ensures !(Overloaded(s, current, load) && Underused(s, current, load))
  {
    Thresholds(s, current, load);
  }

  ghost predicate GoesUp(s: Scaling, current: int, load: int) {
    Desired(s, current, load) > current
  }

  ghost predicate GoesDown(s: Scaling, current: int, load: int) {
    Desired(s, current, load) < current
  }

  lemma StepKeepsDirection(s: Scaling, current: int, load: int)
    requires 1 <= s.minTasks <= s.maxTasks && load >= 1 && InBounds(s, current)
    ensures var next := Desired(s, current, load);
      && (!GoesDown(s, current, load) ==> !GoesDown(s, next, load))
      && (!GoesUp(s, current, load) ==> !GoesUp(s, next, load))
  {
    hide Overloaded, Underused;
    var next := Desired(s, current, load);
    StepIsInBounds(s, current, load);
    NotBoth(s, current, load);
    NotBoth(s, next, load);
    if Overloaded(s, current, load) { UpIsNotFollowedByDown(s, current, load); }
    if Underused(s, current, load) { DownIsNotFollowedByUp(s, current, load); }
  }

  /** From within the bounds the limit never turns round. */
  lemma {:induction false} NeverTurnsRound(s: Scaling, current: int, load: int, n: nat)
    requires 1 <= s.minTasks <= s.maxTasks && load >= 1 && InBounds(s, current)
    ensures InBounds(s, Iterate(s, current, load, n))
    ensures !GoesDown(s, current, load) ==> !GoesDown(s, Iterate(s, current, load, n), load)
    ensures !GoesUp(s, current, load) ==> !GoesUp(s, Iterate(s, current, load, n), load)
  {
    hide Desired, GoesUp, GoesDown;
    if n > 0 {
      NeverTurnsRound(s, current, load, n - 1);
      StepIsInBounds(s, Iterate(s, current, load, n - 1), load);
      StepKeepsDirection(s, Iterate(s, current, load, n - 1), load);
    }
  }

  /** As long as no fixed point is reached, every step moves by at least one, always the same way. */
  lemma {:induction false} MovesOrRests(s: Scaling, current: int, load: int, n: nat)
    requires 1 <= s.minTasks <= s.maxTasks && load >= 1 && InBounds(s, current)
    ensures var x := Iterate(s, current, load, n);
      || Desired(s, x, load) == x
      || (!GoesDown(s, current, load) && x >= current + n)
      || (!GoesUp(s, current, load) && x <= current - n)
  {
    hide Desired;
    NeverTurnsRound(s, current, load, n);
    if n > 0 {
      NeverTurnsRound(s, current, load, n - 1);
      MovesOrRests(s, current, load, n - 1);
    }
  }

  /**
   Fed its own result under a constant load, the controller reaches a limit that
   it then keeps, in at most maxTasks - minTasks steps after the first, moving one
   way only; and that limit is in the band, or at a bound that the load pushes
   against, or too small for a quarter of it to count.
   */
  lemma ConvergesWithoutOscillating(s: Scaling, start: int, load: int)
    requires 1 <= s.minTasks <= s.maxTasks && load >= 1
    ensures var first := Desired(s, start, load); var last := Iterate(s, first, load, s.maxTasks - s.minTasks);
      && Desired(s, last, load) == last
      && (|| InBand(s, last, load) || (Underused(s, last, load) && last == s.minTasks)
          || (Overloaded(s, last, load) && (last == s.maxTasks || last < 4)))
      && ((forall n: nat :: Iterate(s, first, load, n) <= Iterate(s, first, load, n + 1))
          || (forall n: nat :: Iterate(s, first, load, n) >= Iterate(s, first, load, n + 1)))
  {
    hide Overloaded, Underused, Desired;
    StepIsInBounds(s, start, load);
    var first, steps := Desired(s, start, load), s.maxTasks - s.minTasks;
    var last := Iterate(s, first, load, steps);
    NeverTurnsRound(s, first, load, steps);
    MovesOrRests(s, first, load, steps);
    if Desired(s, last, load) != last {
      StepIsInBounds(s, last, load);
    }
    FixedPoints(s, last, load);
    if !GoesDown(s, first, load) {
      forall n: nat
        ensures Iterate(s, first, load, n) <= Iterate(s, first, load, n + 1)
      {
        NeverTurnsRound(s, first, load, n);
      }
    } else {
      forall n: nat
        ensures Iterate(s, first, load, n) >= Iterate(s, first, load, n + 1)
      {
        NeverTurnsRound(s, first, load, n);
      }
    }
  }

  // ----- The speed of convergence -----

  function Power(b: nat, n: nat): nat {
    if n == 0 then 1 else b * Power(b, n - 1)
  }

  lemma {:induction false} PowerIsPositive(b: nat, n: nat)
    requires b > 0
    ensures Power(b, n) > 0
  {
    if n > 0 {
      PowerIsPositive(b, n - 1);
      Products(b - 1, Power(b, n - 1));
    }
  }

  lemma Products(a: nat, b: nat)
    ensures a * b >= 0 && (a + 1) * b == a * b + b
  {
  }

  /** From p * y >= q * x and P * x >= Q * z to (p * P) * y >= (q * Q) * z. */
  lemma Compound(p: nat, q: nat, P: nat, Q: nat, x: int, y: int, z: int)
    requires p * y >= q * x && P * x >= Q * z
    ensures (p * P) * y >= (q * Q) * z
  {
    assert P * (p * y) >= P * (q * x);
    assert q * (P * x) >= q * (Q * z);
    assert P * (p * y) == (p * P) * y && P * (q * x) == q * (P * x) && q * (Q * z) == (q * Q) * z;
  }

  lemma Cancel(p: nat, x: int, y: int)
    requires p > 0
    ensures p * x >= p * y ==> x >= y
  {
    if x < y { assert p * (y - x) >= 1; }
  }

  /** A load that is over the target for a limit is over it for every smaller positive one. */
  lemma OverloadedBelow(s: Scaling, smaller: int, current: int, load: int)
    requires 0 < smaller <= current && load >= 1
    ensures Overloaded(s, current, load) ==> Overloaded(s, smaller, load)
  {
    hide Overloaded, Underused;
    Thresholds(s, smaller, load);
    Thresholds(s, current, load);
    SignOfTarget(s.target, smaller);
    if s.target > 0 {
      ScaledOrder(s.target, smaller, current, 1, 1);
    }
  }

  /** A load that is under half the target for a limit is so for every larger one. */
  lemma UnderusedAbove(s: Scaling, current: int, larger: int, load: int)
    requires 0 < current <= larger && load >= 1
    ensures Underused(s, current, load) ==> Underused(s, larger, load)
  {
    hide Overloaded, Underused;
    Thresholds(s, larger, load);
    Thresholds(s, current, load);
    SignOfTarget(s.target, current);
    if s.target > 0 {
      ScaledOrder(s.target, current, larger, 1, 1);
    }
  }

  /** While the load stays over the target, the limit less three has grown by five quarters in every step. */
  lemma {:induction false} RisesGeometrically(s: Scaling, start: int, load: int, n: nat)
    requires 1 <= s.minTasks <= s.maxTasks && load >= 1 && InBounds(s, start)
    requires var x := Iterate(s, start, load, n); Overloaded(s, x, load) && x < s.maxTasks
    ensures Power(4, n) * (Iterate(s, start, load, n) - 3) >= Power(5, n) * (start - 3)
  {
    hide Overloaded, Underused, Desired;
    if n > 0 {
      var x, next := Iterate(s, start, load, n - 1), Iterate(s, start, load, n);
      NeverTurnsRound(s, start, load, n - 1);
      StepAgainstOverload(s, x, load);
      RisesGeometrically(s, start, load, n - 1);
      Compound(4, 5, Power(4, n - 1), Power(5, n - 1), x - 3, next - 3, start - 3);
    }
  }

  /** A step that leaves the limit overloaded and below the maximum was a step up from an overloaded one. */
  lemma StepAgainstOverload(s: Scaling, current: int, load: int)
    requires 1 <= s.minTasks <= s.maxTasks && load >= 1 && InBounds(s, current)
    requires var next := Desired(s, current, load); Overloaded(s, next, load) && next < s.maxTasks
    ensures var next := Desired(s, current, load);
      Overloaded(s, current, load) && current <= next && 4 * (next - 3) >= 5 * (current - 3)
  {
    hide Overloaded, Underused;
    var next := Desired(s, current, load);
    StepIsInBounds(s, current, load);
    if Underused(s, current, load) {
      DownIsNotFollowedByUp(s, current, load);
    }
    NotBoth(s, next, load);
    if current <= next {
      OverloadedBelow(s, current, next, load);
    }
  }

  /** While the load stays under half the target, the limit has lost a quarter in every step. */
  lemma {:induction false} FallsGeometrically(s: Scaling, start: int, load: int, n: nat)
    requires 1 <= s.minTasks <= s.maxTasks && load >= 1 && InBounds(s, start)
    requires var x := Iterate(s, start, load, n); Underused(s, x, load) && x > s.minTasks
    ensures Power(4, n) * Iterate(s, start, load, n) <= Power(3, n) * start
  {
    hide Overloaded, Underused, Desired;
    if n > 0 {
      var x, next := Iterate(s, start, load, n - 1), Iterate(s, start, load, n);
      NeverTurnsRound(s, start, load, n - 1);
      StepAgainstUnderuse(s, x, load);
      FallsGeometrically(s, start, load, n - 1);
      Compound(4, 3, Power(4, n - 1), Power(3, n - 1), -x, -next, -start);
    }
  }

  lemma StepAgainstUnderuse(s: Scaling, current: int, load: int)
    requires 1 <= s.minTasks <= s.maxTasks && load >= 1 && InBounds(s, current)
    requires var next := Desired(s, current, load); Underused(s, next, load) && next > s.minTasks
    ensures var next := Desired(s, current, load);
      Underused(s, current, load) && next <= current && 4 * next <= 3 * current
  {
    hide Overloaded, Underused;
    var next := Desired(s, current, load);
    StepIsInBounds(s, current, load);
    if Overloaded(s, current, load) {
      UpIsNotFollowedByDown(s, current, load);
    }
    NotBoth(s, current, load);
    NotBoth(s, next, load);
    if next <= current {
      UnderusedAbove(s, next, current, load);
    }
  }

  /**
   The number of steps is logarithmic in the ratio of the bounds: the limit rests
   once (5/4)^n covers the way from the start to the maximum, each less three, and
   (4/3)^n the way from the start down to the minimum.
   */
  lemma RestsGeometrically(s: Scaling, start: int, load: int, n: nat)
    requires 1 <= s.minTasks <= s.maxTasks && load >= 1 && InBounds(s, start)
    requires start < 4 || Power(5, n) * (start - 3) >= Power(4, n) * (s.maxTasks - 3)
    requires Power(3, n) * start <= Power(4, n) * s.minTasks
    ensures var last := Iterate(s, start, load, n); Desired(s, last, load) == last
  {
    hide Overloaded, Underused, Desired;
    var last := Iterate(s, start, load, n);
    NeverTurnsRound(s, start, load, n);
    FixedPoints(s, last, load);
    PowerIsPositive(4, n);
    if Overloaded(s, last, load) && last < s.maxTasks {
      RisesGeometrically(s, start, load, n);
      if start < 4 {
        SmallStartStays(s, start, load, n);
      } else {
        Cancel(Power(4, n), last - 3, s.maxTasks - 3);
      }
    } else if Underused(s, last, load) && last > s.minTasks {
      FallsGeometrically(s, start, load, n);
      Cancel(Power(4, n), s.minTasks, last);
    }
  }

  /** A limit below four never grows. */
  lemma {:induction false} SmallStartStays(s: Scaling, start: int, load: int, n: nat)
    requires 1 <= s.minTasks <= s.maxTasks && load >= 1 && InBounds(s, start) && start < 4
    ensures Iterate(s, start, load, n) <= start
  {
    hide Overloaded, Underused, Desired;
    if n > 0 {
      SmallStartStays(s, start, load, n - 1);
      NeverTurnsRound(s, start, load, n - 1);
      SmallLimitStays(s, Iterate(s, start, load, n - 1), load);
    }
  }

  lemma SmallLimitStays(s: Scaling, current: int, load: int)
    requires 1 <= s.minTasks <= s.maxTasks && load >= 1 && InBounds(s, current) && current < 4
    ensures Desired(s, current, load) <= current
  {
    hide Overloaded, Underused;
  }

  /** Without load the limit drops to the minimum at once and stays there. */
  lemma IdleGoesToMinimum(s: Scaling, start: int, n: nat)
    requires n > 0
    ensures Iterate(s, start, 0, n) == s.minTasks
  {
  }
}
