/** How long the retry policy and the notifier wait between attempts. */
module Backoffs {

  // ----- retry.Backoff, over the reals -----

  const DEFAULT_BASE: real := 500_000_000.0
  const DEFAULT_FACTOR: real := 2.0
  const DEFAULT_MAX: real := 30_000_000_000.0

  /** Durations in nanoseconds; a field that is not positive takes its default. */
  datatype Backoff = Backoff(base: real, max: real, factor: real) {
    function Resolved(): Backoff {
      Backoff(if base <= 0.0 then DEFAULT_BASE else base,
              if max <= 0.0 then DEFAULT_MAX else max,
              if factor <= 0.0 then DEFAULT_FACTOR else factor)
    }
  }

  function Min(a: real, b: real): real {
    if a <= b then a else b
  }

  function Scaled(window: real, factor: real): real {
    window * factor
  }

  /** The base grown n times. */
  function Grown(b: Backoff, n: nat): real {
    if n == 0 then b.base else Scaled(Grown(b, n - 1), b.factor)
  }

  /** How often the window has grown before the given attempt. */
  function Growths(attempt: int): nat {
    if attempt <= 1 then 0 else attempt - 1
  }

  /** The documented window: exponential growth, capped. */
  function Window(b: Backoff, attempt: int): real {
    Min(b.max, Grown(b, Growths(attempt)))
  }

  /** The closed form of the growth. */
  lemma {:induction false} GrownIsPower(b: Backoff, n: nat)
    ensures Grown(b, n) == b.base * Pow(b.factor, n)
  {
    if n > 0 {
      GrownIsPower(b, n - 1);
      var p := Pow(b.factor, n - 1);
      assert b.base * p * b.factor == b.base * (p * b.factor);
    }
  }

  function Pow(f: real, n: nat): real {
    if n == 0 then 1.0 else Pow(f, n - 1) * f
  }

  lemma Scale(a: real, f: real)
    requires a > 0.0 && f > 0.0
    ensures a * f > 0.0
    ensures f >= 1.0 ==> a * f >= a
    ensures f < 1.0 ==> a * f < a
  {
  }

  lemma {:induction false} GrownPositive(b: Backoff, n: nat)
    requires b.base > 0.0 && b.factor > 0.0
    ensures Grown(b, n) > 0.0
  {
    if n > 0 {
      GrownPositive(b, n - 1);
      Scale(Grown(b, n - 1), b.factor);
    }
  }

  /** Below one growth shrinks, from one on it never does. */
  lemma GrownOnce(b: Backoff, n: nat)
    requires b.base > 0.0 && b.factor > 0.0
    ensures if b.factor >= 1.0 then Grown(b, n) <= Grown(b, n + 1) else Grown(b, n + 1) <= Grown(b, n)
  {
    GrownPositive(b, n);
    Scale(Grown(b, n), b.factor);
  }

  lemma {:induction false} GrownMonotone(b: Backoff, m: nat, n: nat)
    requires b.base > 0.0 && b.factor > 0.0 && m <= n
    ensures if b.factor >= 1.0 then Grown(b, m) <= Grown(b, n) else Grown(b, n) <= Grown(b, m)
    decreases n - m
  {
    if m < n {
      GrownOnce(b, m);
      GrownMonotone(b, m + 1, n);
    }
  }

  /** The window after n more turns of the growth loop, which stops early at the cap. */
  function Looped(b: Backoff, n: nat, window: real): real {
    if n == 0 then Min(b.max, window)
    else if window >= b.max then b.max
    else Looped(b, n - 1, Scaled(window, b.factor))
  }

  /** What the loop computes. */
  function LoopWindow(b: Backoff, attempt: int): real {
    Looped(b, Growths(attempt), b.base)
  }

  /** The corner: growth that shrinks, started at or above the cap, stops on its first turn, at the cap. */
  predicate Corner(b: Backoff, attempt: int) {
    b.factor < 1.0 && b.base >= b.max && attempt > 1
  }

  lemma {:induction false} LoopedIs(b: Backoff, n: nat, i: nat)
    requires b.base > 0.0 && b.max > 0.0 && b.factor > 0.0
    ensures Looped(b, n, Grown(b, i)) ==
            if b.factor < 1.0 && Grown(b, i) >= b.max && n > 0 then b.max else Min(b.max, Grown(b, i + n))
  {
    if n > 0 {
      var g, next := Grown(b, i), Grown(b, i + 1);
      GrownMonotone(b, i, i + n);
      GrownOnce(b, i);
      assert next == Scaled(g, b.factor);
      assert Looped(b, n, g) == if g >= b.max then b.max else Looped(b, n - 1, next);
      LoopedIs(b, n - 1, i + 1);
    }
  }

  /**
   The loop computes the documented window exactly when the factor is at least one, the base is below the
   cap, nothing has grown yet, or the formula reaches the cap anyway. In the corner it computes the cap.
   */
  lemma WindowExactlyWhen(b: Backoff, attempt: int)
    requires b.base > 0.0 && b.max > 0.0 && b.factor > 0.0
    ensures LoopWindow(b, attempt) == if Corner(b, attempt) then b.max else Window(b, attempt)
    ensures LoopWindow(b, attempt) == Window(b, attempt) <==>
            b.factor >= 1.0 || b.base < b.max || attempt <= 1 || b.base * Pow(b.factor, attempt - 1) >= b.max
    ensures 0.0 < LoopWindow(b, attempt) <= b.max
  {
    LoopedIs(b, Growths(attempt), 0);
    WindowPositive(b, attempt);
    GrownIsPower(b, Growths(attempt));
  }

  /** The corner is real: at this backoff the documented window is half of what the loop computes. */
  lemma ShrinkingWindowDiffers()
    ensures var b := Backoff(8.0, 8.0, 0.5); Window(b, 2) == 4.0 && LoopWindow(b, 2) == 8.0
  {
    var b := Backoff(8.0, 8.0, 0.5);
    assert Grown(b, 1) == Grown(b, 0) * 0.5;
    WindowExactlyWhen(b, 2);
  }

  /** The growth loop. */
  method GrowWindow(b: Backoff, attempt: int) returns (window: real)
    requires b.base > 0.0 && b.max > 0.0 && b.factor > 0.0
    ensures window == LoopWindow(b, attempt) == (if Corner(b, attempt) then b.max else Window(b, attempt))
    ensures window == Window(b, attempt) <==>
            b.factor >= 1.0 || b.base < b.max || attempt <= 1 || b.base * Pow(b.factor, attempt - 1) >= b.max
  {
    WindowExactlyWhen(b, attempt);
    window := b.base;
    var i := 1;
    while i < attempt
      invariant 1 <= i && i - 1 <= Growths(attempt)
      invariant LoopWindow(b, attempt) == Looped(b, Growths(attempt) - (i - 1), window)
    {
      ghost var left: nat := Growths(attempt) - (i - 1);
      assert left > 0;
      if window >= b.max {
        return b.max;
      }
      window := Scaled(window, b.factor);
      i := i + 1;
    }
    if window > b.max {
      window := b.max;
    }
  }

  /** Spreads a window upward, never below it and never past its double. */
  function Jittered(w: real, rnd: real): (d: real)
    requires w > 0.0 && 0.0 <= rnd < 1.0
    ensures w <= d <= 2.0 * w
  {
    assert 0.0 <= w * rnd <= w;
    assert w * (1.0 + rnd) == w + w * rnd;
    w * (1.0 + rnd)
  }

  lemma WindowPositive(b: Backoff, attempt: int)
    requires b.base > 0.0 && b.max > 0.0 && b.factor > 0.0
    ensures 0.0 < Window(b, attempt) <= b.max
  {
    GrownPositive(b, Growths(attempt));
  }

  lemma NonNegative(a: real, f: real)
    requires a >= 0.0 && f >= 0.0
    ensures a * f >= 0.0
  {
  }

  lemma JitterMonotone(x: real, y: real, rnd: real)
    requires 0.0 < x <= y && 0.0 <= rnd < 1.0
    ensures Jittered(x, rnd) <= Jittered(y, rnd)
  {
    var gap, f := y - x, 1.0 + rnd;
    NonNegative(gap, f);
    assert x * f + gap * f == y * f;
  }

  /** Fields that are not positive take the defaults: half a second, doubling, up to thirty seconds. */
  lemma Defaults(b: Backoff)
    ensures b.base <= 0.0 && b.max <= 0.0 && b.factor <= 0.0 ==>
              b.Resolved() == Backoff(500_000_000.0, 30_000_000_000.0, 2.0)
    ensures b.base > 0.0 && b.max > 0.0 && b.factor > 0.0 ==> b.Resolved() == b
    ensures b.Resolved().base == (if b.base <= 0.0 then 500_000_000.0 else b.base)
    ensures b.Resolved().max == (if b.max <= 0.0 then 30_000_000_000.0 else b.max)
    ensures b.Resolved().factor == (if b.factor <= 0.0 then 2.0 else b.factor)
  {
  }

  /** The delay before truncation to whole nanoseconds, given the draw. */
  function DelayOf(b: Backoff, attempt: int, rnd: real): real
    requires 0.0 <= rnd < 1.0
  {
    var r := b.Resolved();
    WindowExactlyWhen(r, attempt);
    Min(r.max, Jittered(LoopWindow(r, attempt), rnd))
  }

  /**
   The documented range, from the window to the lesser of the cap and its double, holds for every draw exactly
   outside the corner, or in it when the cap is still within twice the documented window.
   */
  method Delay(b: Backoff, attempt: int, rnd: real) returns (delay: real)
    requires 0.0 <= rnd < 1.0
    ensures delay == DelayOf(b, attempt, rnd)
    ensures var r := b.Resolved();
            var w := Window(r, attempt);
            && w > 0.0
            && (if Corner(r, attempt) then delay == r.max else delay == Min(r.max, w * (1.0 + rnd)))
            && (w <= delay <= Min(r.max, 2.0 * w) <==> !Corner(r, attempt) || 2.0 * w >= r.max)
  {
    var r := b.Resolved();
    WindowPositive(r, attempt);
    var window := GrowWindow(r, attempt);
    delay := Jittered(window, rnd);
    if delay > r.max {
      delay := r.max;
    }
  }

  /** With a factor of at least one the window never shrinks from one attempt to a later one, else it never grows. */
  lemma WindowMonotone(b: Backoff, m: int, n: int)
    requires b.base > 0.0 && b.max > 0.0 && b.factor > 0.0 && m <= n
    ensures if b.factor >= 1.0 then LoopWindow(b, m) <= LoopWindow(b, n) else LoopWindow(b, n) <= LoopWindow(b, m)
  {
    WindowExactlyWhen(b, m);
    WindowExactlyWhen(b, n);
    GrownMonotone(b, Growths(m), Growths(n));
  }

  /** For the same draw, a later attempt waits no less when the factor is at least one, and no more when it is not. */
  lemma DelayMonotone(b: Backoff, m: int, n: int, rnd: real)
    requires m <= n && 0.0 <= rnd < 1.0
    ensures if b.Resolved().factor >= 1.0 then DelayOf(b, m, rnd) <= DelayOf(b, n, rnd)
            else DelayOf(b, n, rnd) <= DelayOf(b, m, rnd)
  {
    var r := b.Resolved();
    WindowMonotone(r, m, n);
    WindowExactlyWhen(r, m);
    WindowExactlyWhen(r, n);
    var x, y := LoopWindow(r, m), LoopWindow(r, n);
    if x <= y { JitterMonotone(x, y, rnd); } else { JitterMonotone(y, x, rnd); }
  }

  // ----- notify.backoff, in whole nanoseconds -----

  const MAX_BACKOFF: int := 5_000_000_000
  const TWO_63: int := 0x8000_0000_0000_0000

  /** A time.Duration is an int64: arithmetic wraps. */
  function Wrap(x: int): int {
    (x + TWO_63) % (2 * TWO_63) - TWO_63
  }

  function Doubled(base: int, n: nat): int {
    if n == 0 then base else 2 * Doubled(base, n - 1)
  }

  lemma {:induction false} DoubledMonotone(base: int, m: nat, n: nat)
    requires base > 0 && m <= n
    ensures 0 < Doubled(base, m) <= Doubled(base, n)
    decreases n
  {
    if n > 0 { DoubledMonotone(base, if m < n then m else n - 1, n - 1); }
  }

  /** The documented interval before jitter: the base doubled once per attempt after the first, capped. */
  function CappedPower(base: int, attempt: int): int {
    var d := Doubled(base, Growths(attempt));
    if d <= MAX_BACKOFF then d else MAX_BACKOFF
  }

  /** Some doubling up to the n-th, as 64 bits hold it, has reached the cap. */
  predicate Capped(base: int, n: int) {
    exists i: nat :: 1 <= i <= n && Wrap(Doubled(base, i)) >= MAX_BACKOFF
  }

  /** What the loop computes, wrap-around included: the cap once a doubling reaches it, else the last doubling. */
  function LoopInterval(base: int, attempt: int): int {
    if attempt <= 1 then base
    else if Capped(base, attempt - 1) then MAX_BACKOFF
    else Wrap(Doubled(base, attempt - 1))
  }

  lemma WrapShifted(x: int, k: int)
    ensures Wrap(x - 2 * TWO_63 * k) == Wrap(x)
  {
  }

  lemma WrapDoubles(x: int)
    ensures Wrap(2 * Wrap(x)) == Wrap(2 * x)
  {
    var q := (x + TWO_63) / (2 * TWO_63);
    assert Wrap(x) == x - 2 * TWO_63 * q;
    WrapShifted(2 * x, 2 * q);
  }

  /** When the loop computes the documented interval. */
  predicate Documented(base: int, attempt: int) {
    base <= MAX_BACKOFF || (attempt > 1 && (base < TWO_63 / 2 || Capped(base, attempt - 1)))
  }

  /**
   The first attempt is not capped, so a base above the cap waits as long as itself once; and from 2^62 on doubling
   overflows, so a later attempt keeps to the documented interval only if a wrapped doubling reaches the cap.
   */
  lemma IntervalExactlyWhen(base: int, attempt: int)
    requires 0 < base < TWO_63
    ensures LoopInterval(base, attempt) == CappedPower(base, attempt) <==> Documented(base, attempt)
    ensures LoopInterval(base, attempt) <= MAX_BACKOFF <==> attempt > 1 || base <= MAX_BACKOFF
  {
    if attempt > 1 {
      var n := attempt - 1;
      DoubledMonotone(base, 1, n);
      if base >= TWO_63 / 2 {
        assert CappedPower(base, attempt) == MAX_BACKOFF;
        if !Capped(base, n) { assert Wrap(Doubled(base, n)) < MAX_BACKOFF; }
      } else if Doubled(base, n) >= MAX_BACKOFF {
        FirstCap(base, n);
      } else {
        forall i: nat | 1 <= i <= n ensures Wrap(Doubled(base, i)) < MAX_BACKOFF { DoubledMonotone(base, i, n); }
      }
    }
  }

  /** A base of ten seconds makes the first interval ten seconds, twice the documented cap. */
  lemma FirstIntervalUncapped()
    ensures var base := 10_000_000_000; LoopInterval(base, 1) == base == 2 * CappedPower(base, 1)
  {
    assert Doubled(10_000_000_000, 0) == 10_000_000_000;
  }

  /** Below 2^62 the first doubling to reach the cap does so before 64 bits run out. */
  lemma {:induction false} FirstCap(base: int, n: nat)
    requires 0 < base < TWO_63 / 2 && n >= 1 && Doubled(base, n) >= MAX_BACKOFF
    ensures Capped(base, n)
  {
    if n == 1 || Doubled(base, n - 1) < MAX_BACKOFF {
      DoubledMonotone(base, 0, n - 1);
      assert 0 < Doubled(base, n) < TWO_63;
      assert Wrap(Doubled(base, n)) >= MAX_BACKOFF;
    } else {
      FirstCap(base, n - 1);
    }
  }

  /** From 2^62 on the second attempt already waits a negative time. */
  lemma LargeBaseWraps(base: int)
    requires TWO_63 / 2 <= base < TWO_63
    ensures LoopInterval(base, 2) < 0
  {
    assert Doubled(base, 1) == 2 * Doubled(base, 0);
    assert Wrap(Doubled(base, 1)) < 0;
  }

  /** The doubling loop, in 64-bit arithmetic. */
  method DoubleInterval(attempt: int, base: int) returns (d: int)
    requires 0 < base < TWO_63
    ensures d == LoopInterval(base, attempt)
    ensures d == CappedPower(base, attempt) <==> Documented(base, attempt)
  {
    IntervalExactlyWhen(base, attempt);
    d := base;
    var i: nat := 0;
    while i < attempt - 1
      invariant i == 0 || i <= attempt - 1
      invariant d == Wrap(Doubled(base, i)) && !Capped(base, i)
    {
      WrapDoubles(Doubled(base, i));
      d := Wrap(d * 2);
      i := i + 1;
      assert d == Wrap(Doubled(base, i));
      if d >= MAX_BACKOFF {
        assert Capped(base, attempt - 1);
        return MAX_BACKOFF;
      }
    }
  }

  /** Half-jitter: the wait is in the upper half of the interval, never the whole of it. */
  method NotifyBackoff(attempt: int, base: int, draw: int -> int) returns (wait: int)
    requires base < TWO_63
    requires forall n :: n > 0 ==> 0 <= draw(n) < n
    ensures base <= 0 ==> wait == 0
    ensures base > 0 ==>
              var d := LoopInterval(base, attempt);
              if d >= 2 then wait == d / 2 + draw(d / 2) && d / 2 <= wait < d else wait == d
    ensures base > 0 ==> (LoopInterval(base, attempt) == CappedPower(base, attempt) <==> Documented(base, attempt))
    ensures 0 < base <= MAX_BACKOFF ==> 0 < wait <= MAX_BACKOFF
  {
    if base <= 0 { return 0; }
    var d := DoubleInterval(attempt, base);
    if base <= MAX_BACKOFF && attempt > 1 { DoubledMonotone(base, 0, attempt - 1); }
    var half := d / 2;
    if half <= 0 { return d; }
    return half + draw(half);
  }
}
