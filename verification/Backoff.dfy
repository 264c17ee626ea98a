/**
 Delays: the capped exponential of the reconnection and retry policies, the
 jitter applied to it, and the doubling wait of the resubscribe loops.

 Durations are whole milliseconds and powers are exact reals, so floating-point
 rounding is not modelled; the cast to an integer truncates as in the original.
 */
module Backoff {

  datatype JitterMode = NoJitter | FullJitter | EqualJitter

  /** The part of a reconnection or retry policy that fixes its delays. */
  datatype Policy = Policy(initial: int, maximum: int, multiplier: real, jitter: JitterMode)

  const DEFAULT_RECONNECT := Policy(1000, 30000, 2.0, FullJitter)

  // ------------------------------------------------------------------ jitter

  /** A draw of the generator reduced to [0, n). */
  function Uniform(draw: nat, n: int): (r: int)
    requires n > 0
    ensures 0 <= r < n
    ensures draw < n ==> r == draw
  {
    draw % n
  }

  /** draw is the next output of the random generator. */
  function ApplyJitter(delay: int, mode: JitterMode, draw: nat): int {
    if mode == NoJitter || delay <= 0 then delay
    else if mode == FullJitter then Uniform(draw, delay)
    else
      var half := delay / 2;
      if half <= 0 then delay else half + Uniform(draw, half)
  }

  /** The delays that jitter can turn a delay into, for every mode. */
  predicate JitterRange(delay: int, mode: JitterMode, r: int) {
    if mode == NoJitter || delay <= 0 || (mode == EqualJitter && delay == 1) then r == delay
    else if mode == FullJitter then 0 <= r < delay
    else delay / 2 <= r < 2 * (delay / 2)
  }

  /** Jitter reaches every delay of its range and no other. */
  lemma JitterReachesItsRange(delay: int, mode: JitterMode, r: int)
    ensures JitterRange(delay, mode, r) <==> exists draw: nat :: ApplyJitter(delay, mode, draw) == r
  {
    hide Uniform;
    if JitterRange(delay, mode, r) {
      var draw: nat := if r >= 0 && mode == EqualJitter && delay > 1 then r - delay / 2 else if r >= 0 then r else 0;
      assert ApplyJitter(delay, mode, draw) == r;
    }
  }

  lemma JitterStaysBelow(delay: int, mode: JitterMode, draw: nat)
    requires delay >= 0
    ensures 0 <= ApplyJitter(delay, mode, draw) <= delay
  {
    JitterReachesItsRange(delay, mode, ApplyJitter(delay, mode, draw));
  }

  // ------------------------------------------------------- exponential delay

  function Pow(base: real, k: nat): real {
    if k == 0 then 1.0 else base * Pow(base, k - 1)
  }

  function MinReal(x: real, y: real): real { if y < x then y else x }

  /** The cast of a double to int64_t. */
  function Truncate(x: real): int {
    if x >= 0.0 then x.Floor else -((-x).Floor)
  }

  /** A whole duration times a factor. */
  function Scale(duration: int, factor: real): real { duration as real * factor }

  lemma ScaleMonotone(duration: int, x: real, y: real)
    requires duration >= 0 && 0.0 <= x <= y
    ensures 0.0 <= Scale(duration, x) <= Scale(duration, y)
  {
    assert duration as real >= 0.0;
    Product(duration as real, 0.0, x);
    Product(duration as real, x, y);
  }

  lemma ScaleWhole(duration: int, n: int)
    ensures Scale(duration, n as real) == (duration * n) as real
  {}

  /** initial * multiplier^attempt, capped, truncated, jittered. */
  function CalculateBackoff(p: Policy, attempt: nat, draw: nat): int {
    var computed := Scale(p.initial, Pow(p.multiplier, attempt));
    var capped := MinReal(computed, p.maximum as real);
    ApplyJitter(Truncate(capped), p.jitter, draw)
  }

  /** The cast drops the fraction, towards zero on either side. */
  lemma TruncateDropsFraction(x: real)
    ensures x >= 0.0 ==> Truncate(x) as real <= x < Truncate(x) as real + 1.0
    ensures x <= 0.0 ==> Truncate(x) as real - 1.0 < x <= Truncate(x) as real
  {}

  lemma TruncateMonotone(x: real, y: real)
    requires 0.0 <= x <= y
    ensures 0 <= Truncate(x) <= Truncate(y)
  {}

  lemma TruncateInteger(n: int)
    ensures Truncate(n as real) == n
  {
    if n < 0 {
      assert -(n as real) == (-n) as real;
    }
  }

  lemma {:induction false} PowNonNegative(base: real, k: nat)
    requires base >= 0.0
    ensures Pow(base, k) >= 0.0
  {
    if k > 0 { PowNonNegative(base, k - 1); }
  }

  lemma Product(x: real, y: real, z: real)
    requires x >= 0.0 && y <= z
    ensures x * y <= x * z
  {}

  lemma {:induction false} PowGrows(base: real, k: nat, l: nat)
    requires base >= 1.0 && k <= l
    ensures 0.0 <= Pow(base, k) <= Pow(base, l)
    decreases l
  {
    PowNonNegative(base, k);
    if k < l {
      PowGrows(base, k, l - 1);
      Product(Pow(base, l - 1), 1.0, base);
    }
  }

  /** Whatever the jitter, a delay lies between zero and the cap. */
  lemma DelayWithinCap(p: Policy, attempt: nat, draw: nat)
    requires p.initial >= 0 && p.maximum >= 0 && p.multiplier >= 0.0
    ensures 0 <= CalculateBackoff(p, attempt, draw) <= p.maximum
  {
    hide Scale, Pow, ApplyJitter, Truncate;
    PowNonNegative(p.multiplier, attempt);
    ScaleMonotone(p.initial, Pow(p.multiplier, attempt), Pow(p.multiplier, attempt));
    var capped := MinReal(Scale(p.initial, Pow(p.multiplier, attempt)), p.maximum as real);
    TruncateMonotone(capped, p.maximum as real);
    TruncateInteger(p.maximum);
    JitterStaysBelow(Truncate(capped), p.jitter, draw);
  }

  /** Jitter spreads the delay of the attempt over exactly its range. */
  lemma JitterSpreadsTheDelay(p: Policy, attempt: nat, r: int)
    ensures JitterRange(CalculateBackoff(p.(jitter := NoJitter), attempt, 0), p.jitter, r)
       <==> exists draw: nat :: CalculateBackoff(p, attempt, draw) == r
  {
    hide Scale, Pow, Truncate, Uniform;
    var delay := CalculateBackoff(p.(jitter := NoJitter), attempt, 0);
    assert forall draw: nat :: CalculateBackoff(p, attempt, draw) == ApplyJitter(delay, p.jitter, draw);
    JitterReachesItsRange(delay, p.jitter, r);
    if draw: nat :| ApplyJitter(delay, p.jitter, draw) == r {
      assert CalculateBackoff(p, attempt, draw) == r;
    }
  }

  /**
   Without jitter the delay is initial * multiplier^attempt, capped, without its
   fraction: the whole number at or just below it, or above it if it is negative.
   */
  lemma DelayIsWholePart(p: Policy, attempt: nat, draw: nat)
    requires p.jitter == NoJitter
    ensures var exact := p.initial as real * Pow(p.multiplier, attempt);
      var delay := CalculateBackoff(p, attempt, draw);
      if exact > p.maximum as real then delay == p.maximum
      else if exact >= 0.0 then delay as real <= exact < delay as real + 1.0
      else delay as real - 1.0 < exact <= delay as real
  {
    hide Pow, Truncate;
    var exact := Scale(p.initial, Pow(p.multiplier, attempt));
    TruncateDropsFraction(exact);
    TruncateInteger(p.maximum);
  }

  /** Without jitter, and with a multiplier of at least one, delays never shrink. */
  lemma DelayMonotone(p: Policy, k: nat, l: nat, draw: nat)
    requires p.initial >= 0 && p.maximum >= 0 && p.multiplier >= 1.0 && p.jitter == NoJitter
    requires k <= l
    ensures CalculateBackoff(p, k, draw) <= CalculateBackoff(p, l, draw)
  {
    hide Scale, Pow, Truncate;
    PowGrows(p.multiplier, k, l);
    var x, y := Pow(p.multiplier, k), Pow(p.multiplier, l);
    ScaleMonotone(p.initial, x, y);
    TruncateMonotone(MinReal(Scale(p.initial, x), p.maximum as real), MinReal(Scale(p.initial, y), p.maximum as real));
  }

  // ----------------------------------------------------------- doubling wait

  function Min(x: int, y: int): int { if y < x then y else x }

  /** The k-th wait of a loop that starts at initial and repeats b := min(b * factor, cap). */
  function IteratedWait(initial: int, factor: int, cap: int, k: nat): int {
    if k == 0 then initial else Min(IteratedWait(initial, factor, cap, k - 1) * factor, cap)
  }

  function PowInt(base: int, k: nat): int {
    if k == 0 then 1 else base * PowInt(base, k - 1)
  }

  lemma {:induction false} PowIntIsPow(base: int, k: nat)
    ensures Pow(base as real, k) == PowInt(base, k) as real
  {
    if k > 0 {
      PowIntIsPow(base, k - 1);
      assert (base * PowInt(base, k - 1)) as real == base as real * PowInt(base, k - 1) as real;
    }
  }

  lemma ProductInt(x: int, y: int, z: int)
    requires x >= 0 && y <= z
    ensures x * y <= x * z
  {}

  /** A policy without jitter and with a whole multiplier, in integers. */
  lemma WholeDelay(p: Policy, factor: int, attempt: nat, draw: nat)
    requires p.multiplier == factor as real && p.jitter == NoJitter
    ensures CalculateBackoff(p, attempt, draw) == Min(p.initial * PowInt(factor, attempt), p.maximum)
  {
    hide Scale, Pow, Truncate, PowInt;
    PowIntIsPow(factor, attempt);
    ScaleWhole(p.initial, PowInt(factor, attempt));
    TruncateInteger(p.initial * PowInt(factor, attempt));
    TruncateInteger(p.maximum);
  }

  lemma {:induction false} IteratedIsCapped(initial: int, factor: int, cap: int, k: nat)
    requires 0 <= initial <= cap && factor >= 1
    ensures IteratedWait(initial, factor, cap, k) == Min(initial * PowInt(factor, k), cap)
    ensures initial * PowInt(factor, k) >= 0
  {
    if k > 0 {
      IteratedIsCapped(initial, factor, cap, k - 1);
      var x := initial * PowInt(factor, k - 1);
      assert initial * PowInt(factor, k) == x * factor by {
        Reorder(initial, factor, PowInt(factor, k - 1));
      }
      ProductInt(x, 1, factor);
      ProductInt(cap, 1, factor);
      if x >= cap { ProductInt(factor, cap, x); }
    }
  }

  lemma Reorder(a: int, b: int, c: int)
    ensures a * (b * c) == (a * c) * b
  {}

  /**
   The repeated min agrees with the closed form of the policy for every number of
   failures exactly when the first wait is within the cap; a larger first wait is
   slept in full by the loop, though never by the closed form.
   */
  lemma IteratedEqualsClosedForm(p: Policy, factor: int, draw: nat)
    requires p.initial >= 0 && p.maximum >= 0 && factor >= 1
    requires p.multiplier == factor as real && p.jitter == NoJitter
    ensures p.initial <= p.maximum <==>
      forall k: nat :: IteratedWait(p.initial, factor, p.maximum, k) == CalculateBackoff(p, k, draw)
  {
    if p.initial <= p.maximum {
      forall k: nat
        ensures IteratedWait(p.initial, factor, p.maximum, k) == CalculateBackoff(p, k, draw)
      {
        IteratedIsCapped(p.initial, factor, p.maximum, k);
        WholeDelay(p, factor, k, draw);
      }
    } else {
      WholeDelay(p, factor, 0, draw);
      assert IteratedWait(p.initial, factor, p.maximum, 0) != CalculateBackoff(p, 0, draw);
    }
  }

  lemma MinScales(w: int, factor: int, cap: int, unit: int)
    requires unit > 0
    ensures Min((w * unit) * factor, cap * unit) == Min(w * factor, cap) * unit
  {
    var x := w * factor;
    assert (w * unit) * factor == x * unit by { Reorder(unit, w, factor); }
    if x <= cap { ProductInt(unit, x, cap); } else { ProductInt(unit, cap, x); }
  }

  lemma {:induction false} IteratedScales(initial: int, factor: int, cap: int, unit: int, k: nat)
    requires unit > 0
    ensures IteratedWait(initial * unit, factor, cap * unit, k) == IteratedWait(initial, factor, cap, k) * unit
  {
    hide Min;
    if k > 0 {
      IteratedScales(initial, factor, cap, unit, k - 1);
      MinScales(IteratedWait(initial, factor, cap, k - 1), factor, cap, unit);
    }
  }

  /** The resubscribe wait, in seconds, is the default reconnection delay without jitter. */
  lemma ResubscribeWaitIsDefaultDelay(k: nat, draw: nat)
    ensures IteratedWait(1, 2, 30, k) * 1000 == CalculateBackoff(DEFAULT_RECONNECT.(jitter := NoJitter), k, draw)
  {
    IteratedScales(1, 2, 30, 1000, k);
    IteratedEqualsClosedForm(DEFAULT_RECONNECT.(jitter := NoJitter), 2, draw);
  }
}
