/** The splash screen's progress bar: it starts at 8 and every 250 ms
    takes one step towards 100, a sixth of the remaining distance rounded,
    but at least 1. After 4000 ms the splash calls `onDone` whatever the bar
    shows. The interval keeps ticking until the parent unmounts the splash;
    the parent is not part of this model. */
module Splash {
  import opened Common

  const START: int := 8
  const INTERVAL_MS: nat := 250
  const TIMEOUT_MS: nat := 4000

  /** One tick: `min(100, p + max(1, Math.round((100 - p) / 6)))`. */
  function Step(p: int): (r: int)
    ensures r <= 100
    ensures p < 100 ==> p < r
    ensures p >= 100 ==> r == 100
  {
    Min(100, p + Max(1, Round((100 - p) as real / 6.0)))
  }

  /** On whole numbers the rounded sixth is a floor division: the step
      stays in the integers. */
  lemma RoundedSixth(p: int)
    ensures Round((100 - p) as real / 6.0) == (103 - p) / 6
  {
    var q := (103 - p) / 6;
    assert 6 * q <= 103 - p < 6 * q + 6;
    assert q as real - 0.5 <= (100 - p) as real / 6.0 < q as real + 0.5;
  }

  /** The same step in integer arithmetic only, written with plain
      conditionals so that it evaluates on constants. */
  function IntStep(p: int): int
  {
    var sixth := (103 - p) / 6;
    if sixth < 1 then (if p + 1 > 100 then 100 else p + 1)
    else (if p + sixth > 100 then 100 else p + sixth)
  }

  lemma StepInIntegers(p: int)
    ensures Step(p) == IntStep(p)
  {
    RoundedSixth(p);
  }

  /** 100 is the fixed point the bar settles on. */
  lemma StepFixedPoint()
    ensures Step(100) == 100
    ensures forall p :: Step(p) == p <==> p == 100
  {
  }

  /** The bar after `n` ticks, starting from `p`. */
  function After(p: int, n: nat): int
    decreases n
  {
    if n == 0 then p else After(Step(p), n - 1)
  }

  /** The number of ticks from `p` until the bar shows 100: each tick
      strictly shrinks `100 - p`, so the count is finite. */
  function Ticks(p: int): (n: nat)
    decreases 100 - p
  {
    if p >= 100 then 0 else 1 + Ticks(Step(p))
  }

  /** After `Ticks(p)` ticks the bar shows exactly 100, and not before. */
  lemma {:induction false} TicksReachFull(p: int, k: nat)
    requires p <= 100
    ensures After(p, Ticks(p)) == 100
    ensures k < Ticks(p) ==> After(p, k) < 100
    decreases 100 - p
  {
    if p < 100 {
      var q := Step(p);
      assert Ticks(p) == 1 + Ticks(q);
      TicksReachFull(q, Ticks(q));
      assert After(p, Ticks(p)) == After(q, Ticks(q));
      if 0 < k < Ticks(p) {
        TicksReachFull(q, k - 1);
        assert After(p, k) == After(q, k - 1);
      }
    }
  }

  /** The bar never leaves the range from its start to 100. */
  lemma {:induction false} AfterBounded(p: int, n: nat)
    requires p <= 100
    ensures p <= After(p, n) <= 100
    decreases n
  {
    if n > 0 {
      AfterBounded(Step(p), n - 1);
    }
  }

  /** The bar never moves backwards. */
  lemma {:induction false} AfterMonotone(p: int, j: nat, k: nat)
    requires p <= 100 && j <= k
    ensures After(p, j) <= After(p, k)
    decreases j
  {
    if j == 0 {
      AfterBounded(p, k);
    } else {
      AfterMonotone(Step(p), j - 1, k - 1);
    }
  }

  /** The tick count and the position after `n` ticks, computed with the
      integer step. */
  function IntAfter(p: int, n: nat): int
    decreases n
  {
    if n == 0 then p else IntAfter(IntStep(p), n - 1)
  }

  function IntTicks(p: int): nat
    decreases 100 - p
  {
    if p >= 100 then 0 else 1 + IntTicks(IntStep(p))
  }

  lemma {:induction false} AfterInIntegers(p: int, n: nat)
    ensures After(p, n) == IntAfter(p, n)
    decreases n
  {
    if n > 0 {
      StepInIntegers(p);
      AfterInIntegers(Step(p), n - 1);
    }
  }

  lemma {:induction false} TicksInIntegers(p: int)
    ensures Ticks(p) == IntTicks(p)
    decreases 100 - p
  {
    if p < 100 {
      StepInIntegers(p);
      TicksInIntegers(Step(p));
    }
  }

  /** The values the bar shows from the initial 8 on, one per tick,
      counted backwards from 100: 8, 23, 36, 47, 56, 63, 69, 74, 78, 82,
      85, 88, 90, 92, 93, 94, 95, 96, 97, 98, 99, 100. */
  lemma IntTicksFromStart()
    ensures IntTicks(START) == 21
  {
    assert IntTicks(100) == 0;
    assert IntTicks(99) == 1;
    assert IntTicks(98) == 2;
    assert IntTicks(97) == 3;
    assert IntTicks(96) == 4;
    assert IntTicks(95) == 5;
    assert IntTicks(94) == 6;
    assert IntTicks(93) == 7;
    assert IntTicks(92) == 8;
    assert IntTicks(90) == 9;
    assert IntTicks(88) == 10;
    assert IntTicks(85) == 11;
    assert IntTicks(82) == 12;
    assert IntTicks(78) == 13;
    assert IntTicks(74) == 14;
    assert IntTicks(69) == 15;
    assert IntTicks(63) == 16;
    assert IntTicks(56) == 17;
    assert IntTicks(47) == 18;
    assert IntTicks(36) == 19;
    assert IntTicks(23) == 20;
    assert IntTicks(8) == 21;
  }

  /** The 16th value of the same trace is 95. */
  lemma IntAfterFromStart()
    ensures IntAfter(START, 16) == 95
  {
    assert IntAfter(95, 0) == 95;
    assert IntAfter(94, 1) == 95;
    assert IntAfter(93, 2) == 95;
    assert IntAfter(92, 3) == 95;
    assert IntAfter(90, 4) == 95;
    assert IntAfter(88, 5) == 95;
    assert IntAfter(85, 6) == 95;
    assert IntAfter(82, 7) == 95;
    assert IntAfter(78, 8) == 95;
    assert IntAfter(74, 9) == 95;
    assert IntAfter(69, 10) == 95;
    assert IntAfter(63, 11) == 95;
    assert IntAfter(56, 12) == 95;
    assert IntAfter(47, 13) == 95;
    assert IntAfter(36, 14) == 95;
    assert IntAfter(23, 15) == 95;
    assert IntAfter(8, 16) == 95;
  }

  /** From the initial 8 the bar needs 21 ticks (5.25 s) to reach 100,
      but the splash calls `onDone` after 4000 ms, that is after at most 16
      ticks, so the bar shows at most 95 at that moment and has never shown
      100. */
  lemma SplashSchedule()
    ensures Ticks(START) == 21
    ensures TIMEOUT_MS / INTERVAL_MS == 16
    ensures After(START, TIMEOUT_MS / INTERVAL_MS) == 95
    ensures forall k: nat :: k <= TIMEOUT_MS / INTERVAL_MS ==> After(START, k) <= 95 < 100
  {
    var n := TIMEOUT_MS / INTERVAL_MS;
    assert n == 16;
    TicksInIntegers(START);
    IntTicksFromStart();
    AfterInIntegers(START, n);
    IntAfterFromStart();
    forall k: nat | k <= n
      ensures After(START, k) <= 95
    {
      AfterMonotone(START, k, n);
    }
  }
}
