/**
 Metric smoothing (change_smoothing_half_life and route_smoothed_metric in
 babeld/route.c, roughly in babeld/util.c): for any elapsed time and any random
 draws the smoothed metric moves towards the metric and never past it.
 */
module BabelMetric {
  import opened Common
  import opened BabelNode

  const INT_MAX := 0x7FFF_FFFF

  /** C's division, which truncates towards zero. */
  function TruncDiv(a: int, b: int): int
    requires b > 0
  {
    if a >= 0 then a / b else -((-a) / b)
  }

  function Abs(x: int): int { if x < 0 then -x else x }

  /** The values roughly() may return. */
  ghost predicate IsRoughly(value: int, r: int)
    decreases value < 0
  {
    if value < 0 then IsRoughly(-value, -r)
    else if value <= 1 then r == value
    else value * 3 / 4 <= r < value * 3 / 4 + value / 2
  }

  method Roughly(value: int) returns (r: int)
    ensures IsRoughly(value, r)
    decreases value < 0
  {
    if value < 0 {
      r := Roughly(-value);
      r := -r;
    } else if value <= 1 {
      r := value;
    } else {
      var random: nat := *;
      r := value * 3 / 4 + random % (value / 2);
    }
  }

  /** 2^(1/halfLife) in 16.16 fixed point, as change_smoothing_half_life sets it. */
  function TwoToTheOneOver(halfLife: int): int
    requires halfLife > 0
  {
    if halfLife == 1 then 131072
    else if halfLife == 2 then 92682
    else if halfLife == 3 then 82570
    else if halfLife == 4 then 77935
    else 0x1_0000 + 45426 / halfLife
  }

  /** The factor is 2^(1/halfLife): for small half-lives its power is 2 up to one part in
      11000, and else what it adds in a half-life is 45426 / 0x10000, that is log(2). */
  lemma {:induction false} FactorIsRoot(halfLife: int)
    requires halfLife > 0
    ensures var f, one := TwoToTheOneOver(halfLife), 0x1_0000;
            && (halfLife == 1 ==> f == 2 * one)
            && (halfLife == 2 ==> Abs(f * f - 2 * (one * one)) * 11000 <= one * one)
            && (halfLife == 3 ==> Abs(f * f * f - 2 * (one * one * one)) * 11000 <= one * one * one)
            && (halfLife == 4 ==> Abs(f * f * f * f - 2 * (one * one * one * one)) * 11000 <= one * one * one * one)
            && (halfLife > 4 ==> 45426 - halfLife < halfLife * (f - one) <= 45426)
  {
    if halfLife > 4 {
      var q, m := 45426 / halfLife, 45426 % halfLife;
      assert halfLife * q + m == 45426;
    }
  }

  /** `s` lies between the old smoothed metric and the metric. */
  ghost predicate Between(metric: int, was: int, s: int) {
    (was <= s <= metric) || (metric <= s <= was)
  }

  ghost predicate Towards(diff: int, step: int) {
    (0 <= step <= diff) || (diff <= step <= 0)
  }

  lemma {:induction false} RoughlyBound(diff: int, r: int)
    requires IsRoughly(diff, r)
    ensures (diff >= 0 ==> 0 <= r && 4 * r <= 5 * diff) && (diff <= 0 ==> r <= 0 && 4 * r >= 5 * diff)
    ensures Abs(diff) <= 1 ==> r == diff
  {
  }

  lemma {:induction false} HalfStep(diff: int, r: int)
    requires IsRoughly(diff, r)
    ensures Towards(diff, TruncDiv(r, 2))
  {
    RoughlyBound(diff, r);
  }

  lemma {:induction false} SecondStep(diff: int, r: int, halfLife: int)
    requires IsRoughly(diff, r) && halfLife >= 2
    ensures Towards(diff, TruncDiv(r * (TwoToTheOneOver(halfLife) - 0x1_0000), 0x1_0000))
  {
    RoughlyBound(diff, r);
    var f := TwoToTheOneOver(halfLife) - 0x1_0000;
    assert 0 <= f <= 27146 by { if halfLife > 4 { FactorSmall(halfLife); } }
    ScaledBound(Abs(r), f);
    assert r < 0 ==> r * f == -((-r) * f);
  }

  lemma {:induction false} FactorSmall(halfLife: int)
    requires halfLife > 4
    ensures 0 <= 45426 / halfLife <= 9085
  {
    QuotientBound(halfLife, 45426 / halfLife, 45426 % halfLife);
  }

  lemma {:induction false} QuotientBound(d: int, q: int, m: int)
    requires d >= 5 && d * q + m == 45426 && 0 <= m < d
    ensures 0 <= q <= 9085
  {
    if q > 9085 { ProductGrows(5, d, 9086, q); }
  }

  lemma {:induction false} ProductGrows(a: nat, x: nat, b: nat, y: nat)
    requires a <= x && b <= y
    ensures a * b <= x * y
  {
    assert a * b <= x * b by { assert (x - a) * b >= 0; }
    assert x * b <= x * y by { assert x * (y - b) >= 0; }
  }

  lemma {:induction false} ScaledBound(r: nat, f: nat)
    requires f <= 27146
    ensures 0 <= r * f / 0x1_0000 && 2 * (r * f / 0x1_0000) <= r
  {
    assert r * f <= r * 27146;
  }

  // ------------------------------------------------------------------
  // How fast the difference shrinks
  // ------------------------------------------------------------------

  /** What may be left of a difference after one half-life: at most five eighths. */
  function AfterHalf(d: nat): nat { d - 3 * d / 8 }

  function AfterHalves(d: nat, halves: nat): nat { if halves == 0 then d else AfterHalf(AfterHalves(d, halves - 1)) }

  /** What may be left after one more second. */
  function AfterSecond(d: nat, factor: nat): (r: nat)
    requires factor <= 0x1_0000
    ensures r <= d
  {
    SecondAtMost(d, factor);
    d - 3 * d / 4 * factor / 0x1_0000
  }

  lemma {:induction false} SecondAtMost(d: nat, factor: nat)
    requires factor <= 0x1_0000
    ensures 0 <= 3 * d / 4 * factor / 0x1_0000 <= d
  {
    ProductGrows(3 * d / 4, d, factor, 0x1_0000);
  }

  function AfterSeconds(d: nat, seconds: nat, factor: nat): nat
    requires factor <= 0x1_0000
  {
    if seconds == 0 then d else AfterSecond(AfterSeconds(d, seconds - 1, factor), factor)
  }

  lemma {:induction false} HalfGrows(d: nat, e: nat)
    requires d <= e
    ensures AfterHalf(d) <= AfterHalf(e)
  {
  }

  lemma {:induction false} HalvesGrow(d: nat, e: nat, halves: nat)
    requires d <= e
    ensures AfterHalves(d, halves) <= AfterHalves(e, halves)
  {
    if halves > 0 {
      HalvesGrow(d, e, halves - 1);
      HalfGrows(AfterHalves(d, halves - 1), AfterHalves(e, halves - 1));
    }
  }

  lemma {:induction false} HalvesShrink(d: nat, m: nat, n: nat)
    requires m <= n
    ensures AfterHalves(d, n) <= AfterHalves(d, m)
  {
    if m < n { HalvesShrink(d, m, n - 1); }
  }

  lemma {:induction false} SecondGrows(d: nat, e: nat, factor: nat)
    requires d <= e && factor <= 0x1_0000
    ensures AfterSecond(d, factor) <= AfterSecond(e, factor)
  {
    var x, k := 3 * d / 4, 3 * e / 4 - 3 * d / 4;
    assert 0 <= k <= e - d;
    ScaledMore(x, k, factor);
    assert x + k == 3 * e / 4;
  }

  lemma {:induction false} ScaledMore(x: nat, k: nat, factor: nat)
    requires factor <= 0x1_0000
    ensures (x + k) * factor / 0x1_0000 <= x * factor / 0x1_0000 + k
  {
    assert (x + k) * factor == x * factor + k * factor;
    ProductGrows(k, k, factor, 0x1_0000);
    AddedHeads(x * factor, k * factor, k);
  }

  lemma {:induction false} AddedHeads(a: nat, b: nat, k: nat)
    requires b <= k * 0x1_0000
    ensures (a + b) / 0x1_0000 <= a / 0x1_0000 + k
  {
  }

  lemma {:induction false} SecondsShrink(d: nat, seconds: nat, factor: nat)
    requires factor <= 0x1_0000
    ensures AfterSeconds(d, seconds, factor) <= d
  {
    if seconds > 0 { SecondsShrink(d, seconds - 1, factor); }
  }

  /** Any difference is below four after 23 half-lives. */
  lemma {:induction false} GoneAfter(d: nat, halves: nat)
    requires d < 0x1_0000 && halves >= 23
    ensures AfterHalves(d, halves) < 4
  {
    hide AfterHalves, AfterHalf;
    HalvesGrow(d, 65535, 23);
    HalvesShrink(d, 23, halves);
    HalfValues();
    HalvesTo(65535, 4, 10000);
    HalvesTo(10000, 4, 1527);
    HalvesTo(1527, 4, 234);
    HalvesTo(234, 4, 37);
    HalvesTo(37, 4, 7);
    HalvesTo(7, 3, 3);
    HalvesAdd(65535, 4, 19);
    HalvesAdd(10000, 4, 15);
    HalvesAdd(1527, 4, 11);
    HalvesAdd(234, 4, 7);
    HalvesAdd(37, 4, 3);
  }

  lemma {:induction false} HalfValues()
    ensures AfterHalf(65535) == 40960 && AfterHalf(40960) == 25600 && AfterHalf(25600) == 16000 && AfterHalf(16000) == 10000
    ensures AfterHalf(10000) == 6250 && AfterHalf(6250) == 3907 && AfterHalf(3907) == 2442 && AfterHalf(2442) == 1527
    ensures AfterHalf(1527) == 955 && AfterHalf(955) == 597 && AfterHalf(597) == 374 && AfterHalf(374) == 234
    ensures AfterHalf(234) == 147 && AfterHalf(147) == 92 && AfterHalf(92) == 58 && AfterHalf(58) == 37
    ensures AfterHalf(37) == 24 && AfterHalf(24) == 15 && AfterHalf(15) == 10 && AfterHalf(10) == 7
    ensures AfterHalf(7) == 5 && AfterHalf(5) == 4 && AfterHalf(4) == 3
  {
  }

  lemma {:induction false} HalvesAdd(d: nat, m: nat, n: nat)
    ensures AfterHalves(d, m + n) == AfterHalves(AfterHalves(d, m), n)
  {
    if n > 0 { HalvesAdd(d, m, n - 1); }
  }

  lemma {:induction false} HalvesTo(d: nat, n: nat, e: nat)
    requires n == 3 || n == 4
    requires var x := AfterHalf(AfterHalf(AfterHalf(d))); e == if n == 3 then x else AfterHalf(x)
    ensures AfterHalves(d, n) == e
  {
    hide AfterHalf, AfterHalves;
    HalvesMore(d, 0);
    HalvesMore(d, 1);
    HalvesMore(d, 2);
    HalvesMore(d, 3);
  }

  lemma {:induction false} HalfStepNearer(diff: int, r: int)
    requires IsRoughly(diff, r)
    ensures Towards(diff, TruncDiv(r, 2)) && Abs(diff - TruncDiv(r, 2)) <= AfterHalf(Abs(diff))
  {
    HalfStep(diff, r);
    RoughlyAtLeast(diff, r);
  }

  lemma {:induction false} RoughlyAtLeast(diff: int, r: int)
    requires IsRoughly(diff, r)
    ensures Abs(r) >= 3 * Abs(diff) / 4
  {
    if diff < 0 { assert IsRoughly(-diff, -r); }
  }

  lemma {:induction false} SecondStepNearer(diff: int, r: int, halfLife: int)
    requires IsRoughly(diff, r) && halfLife >= 2
    ensures 0 <= TwoToTheOneOver(halfLife) - 0x1_0000 <= 0x1_0000
    ensures var step := TruncDiv(r * (TwoToTheOneOver(halfLife) - 0x1_0000), 0x1_0000);
            Towards(diff, step) && Abs(diff - step) <= AfterSecond(Abs(diff), TwoToTheOneOver(halfLife) - 0x1_0000)
  {
    hide TwoToTheOneOver, IsRoughly, TruncDiv;
    SecondStep(diff, r, halfLife);
    RoughlyAtLeast(diff, r);
    RoughlyBound(diff, r);
    FactorBound(halfLife);
    var f := TwoToTheOneOver(halfLife) - 0x1_0000;
    ScaledAtLeast(3 * Abs(diff) / 4, r, f);
    SecondAtMost(Abs(diff), f);
  }

  lemma {:induction false} ScaledAtLeast(x: nat, r: int, f: nat)
    requires x <= Abs(r)
    ensures Abs(TruncDiv(r * f, 0x1_0000)) >= x * f / 0x1_0000
    ensures if r >= 0 then TruncDiv(r * f, 0x1_0000) >= 0 else TruncDiv(r * f, 0x1_0000) <= 0
  {
    ProductGrows(x, Abs(r), f, f);
    SameHead(x * f, Abs(r) * f);
    assert r < 0 ==> r * f == -((-r) * f);
  }

  lemma {:induction false} FactorBound(halfLife: int)
    requires halfLife >= 1
    ensures 0 <= TwoToTheOneOver(halfLife) - 0x1_0000 <= 0x1_0000
  {
    if halfLife > 4 { FactorSmall(halfLife); }
  }

  lemma {:induction false} SameHead(a: nat, b: nat)
    requires a <= b
    ensures a / 0x1_0000 <= b / 0x1_0000
  {
  }

  lemma {:induction false} Elapsed(x: nat, q: nat, d: nat, m: nat)
    requires d > 0 && x == q * d + m && m < d
    ensures x / d == q && x % d == m
  {
    var p, n := x / d, x % d;
    assert x == p * d + n;
    if p < q { ProductGrows(p + 1, q, d, d); }
    if p > q { ProductGrows(q + 1, p, d, d); }
  }

  lemma {:induction false} ManyHalves(x: nat, d: nat)
    requires d > 0 && x >= 23 * d
    ensures x / d >= 23
  {
    var p, n := x / d, x % d;
    assert x == p * d + n;
    if p < 23 { ProductGrows(p, 22, d, d); }
  }

  /** The most that can be left of a difference `d` after `elapsed` seconds. */
  function Remaining(d: nat, elapsed: nat, halfLife: int): nat
    requires halfLife > 0
  {
    FactorBound(halfLife);
    AfterSeconds(AfterHalves(d, elapsed / halfLife), elapsed % halfLife, TwoToTheOneOver(halfLife) - 0x1_0000)
  }

  lemma {:induction false} NothingRemains(d: nat, elapsed: nat, halfLife: int)
    requires d < 0x1_0000 && halfLife > 0 && elapsed >= 23 * halfLife
    ensures Remaining(d, elapsed, halfLife) < 4
  {
    FactorBound(halfLife);
    ManyHalves(elapsed, halfLife);
    GoneAfter(d, elapsed / halfLife);
    SecondsShrink(AfterHalves(d, elapsed / halfLife), elapsed % halfLife, TwoToTheOneOver(halfLife) - 0x1_0000);
  }

  /** A smoothed metric that route_smoothed_metric would leave alone. */
  ghost predicate Settled(metric: U16, smoothed: U16, halfLife: int) {
    smoothed == metric || (halfLife > 0 && metric < INFINITY && Abs(metric - smoothed) >= 4)
  }

  /** route_smoothed_metric.  The two loops end with the clock at `now`, the
      value never leaves the span between the old one and the metric, and a
      second call at the same instant changes nothing.  `fits` says that no product
      overflowed, which is so unless the half-life is 2 and the metrics were far
      apart.  Each half-life that has passed takes away at least three eighths of the
      difference, so that after 23 of them nothing is left of it. */
  method RouteSmoothedMetric(metric: U16, smoothed0: U16, time0: int, now: int, halfLife: int)
    returns (smoothed: U16, time: int, ghost fits: bool)
    ensures time == now
    ensures Between(metric, smoothed0, smoothed)
    ensures halfLife <= 0 || metric >= INFINITY || time0 > now ==> smoothed == metric
    ensures Settled(metric, smoothed, halfLife)
    ensures time0 == now && Settled(metric, smoothed0, halfLife) ==> smoothed == smoothed0
    ensures halfLife != 2 || Abs(metric - smoothed0) <= 63287 ==> fits
    ensures halfLife > 0 && time0 <= now ==>
              Abs(metric - smoothed) <= Remaining(Abs(metric - smoothed0), now - time0, halfLife)
    ensures time0 <= now && now - time0 >= 23 * halfLife ==> smoothed == metric
  {
    hide TwoToTheOneOver, AfterHalves, AfterSeconds;
    fits := true;
    if halfLife <= 0 || metric >= INFINITY || time0 > now || smoothed0 == metric {
      return metric, now, true;
    }
    FactorBound(halfLife);
    smoothed, time := SmoothHalves(metric, smoothed0, time0, now, halfLife);
    ghost var d, mid, seconds := Abs(metric - smoothed0), Abs(metric - smoothed), now - time;
    ghost var f := TwoToTheOneOver(halfLife) - 0x1_0000;
    smoothed, time, fits := SmoothSeconds(metric, smoothed, time, now, halfLife);
    SecondsGrow(mid, AfterHalves(d, (now - time0) / halfLife), seconds, f);
    if now - time0 >= 23 * halfLife { NothingRemains(d, now - time0, halfLife); }
    if -4 < metric - smoothed < 4 { smoothed := metric; }
  }

  /** The loop over half-lives. */
  method SmoothHalves(metric: U16, smoothed0: U16, time0: int, now: int, halfLife: int) returns (smoothed: U16, time: int)
    requires halfLife > 0 && time0 <= now
    ensures Between(metric, smoothed0, smoothed) && (time0 == now ==> smoothed == smoothed0)
    ensures time <= now && now - time == (now - time0) % halfLife
    ensures Abs(metric - smoothed) <= AfterHalves(Abs(metric - smoothed0), (now - time0) / halfLife)
  {
    hide IsRoughly, TruncDiv, AfterHalf, AfterHalves;
    smoothed, time := smoothed0, time0;
    ghost var d, halves := Abs(metric - smoothed0), 0;
    HalvesMore(d, 0);
    while time <= now - halfLife
      invariant Between(metric, smoothed0, smoothed)
      invariant time <= now && (time0 == now ==> smoothed == smoothed0)
      invariant time == time0 + halves * halfLife && Abs(metric - smoothed) <= AfterHalves(d, halves)
      decreases now - time
    {
      var r := Roughly(metric - smoothed);
      HalfStepNearer(metric - smoothed, r);
      HalfGrows(Abs(metric - smoothed), AfterHalves(d, halves));
      HalvesMore(d, halves);
      smoothed := smoothed + TruncDiv(r, 2);
      time := time + halfLife;
      halves := halves + 1;
    }
    Elapsed(now - time0, halves, halfLife, now - time);
  }

  /** The loop over the seconds that remain. */
  method SmoothSeconds(metric: U16, smoothed0: U16, time0: int, now: int, halfLife: int)
    returns (smoothed: U16, time: int, ghost fits: bool)
    requires halfLife > 0 && now - halfLife < time0 <= now
    ensures Between(metric, smoothed0, smoothed) && (time0 == now ==> smoothed == smoothed0) && time == now
    ensures halfLife != 2 || Abs(metric - smoothed0) <= 63287 ==> fits
    ensures 0 <= TwoToTheOneOver(halfLife) - 0x1_0000 <= 0x1_0000
    ensures Abs(metric - smoothed) <= AfterSeconds(Abs(metric - smoothed0), now - time0, TwoToTheOneOver(halfLife) - 0x1_0000)
  {
    hide IsRoughly, TruncDiv, AfterSecond, AfterSeconds, TwoToTheOneOver;
    FactorBound(halfLife);
    fits, smoothed, time := true, smoothed0, time0;
    ghost var d, f := Abs(metric - smoothed0), TwoToTheOneOver(halfLife) - 0x1_0000;
    SecondsMore(d, 0, f);
    while time < now
      invariant Between(metric, smoothed0, smoothed)
      invariant time0 <= time <= now && (time0 == now ==> smoothed == smoothed0)
      invariant halfLife != 2 || Abs(metric - smoothed0) <= 63287 ==> fits
      invariant Abs(metric - smoothed) <= AfterSeconds(d, time - time0, f)
    {
      var r := Roughly(metric - smoothed);
      SecondStepNearer(metric - smoothed, r, halfLife);
      SecondGrows(Abs(metric - smoothed), AfterSeconds(d, time - time0, f), f);
      SecondsMore(d, time - time0, f);
      FitsUnlessTwo(metric, smoothed, r, halfLife);
      fits := fits && Abs(r * (TwoToTheOneOver(halfLife) - 0x1_0000)) <= INT_MAX;
      smoothed := smoothed + TruncDiv(r * (TwoToTheOneOver(halfLife) - 0x1_0000), 0x1_0000);
      time := time + 1;
    }
  }

  lemma {:induction false} SecondsGrow(d: nat, e: nat, seconds: nat, factor: nat)
    requires d <= e && factor <= 0x1_0000
    ensures AfterSeconds(d, seconds, factor) <= AfterSeconds(e, seconds, factor)
  {
    if seconds > 0 {
      SecondsGrow(d, e, seconds - 1, factor);
      SecondGrows(AfterSeconds(d, seconds - 1, factor), AfterSeconds(e, seconds - 1, factor), factor);
    }
  }

  lemma {:induction false} HalvesMore(d: nat, halves: nat)
    ensures AfterHalves(d, 0) == d && AfterHalves(d, halves + 1) == AfterHalf(AfterHalves(d, halves))
  {
    hide AfterHalf;
  }

  lemma {:induction false} SecondsMore(d: nat, seconds: nat, factor: nat)
    requires factor <= 0x1_0000
    ensures AfterSeconds(d, 0, factor) == d
    ensures AfterSeconds(d, seconds + 1, factor) == AfterSecond(AfterSeconds(d, seconds, factor), factor)
  {
    hide AfterSecond;
  }

  lemma {:induction false} FitsUnlessTwo(metric: U16, smoothed: U16, r: int, halfLife: int)
    requires halfLife >= 2 && IsRoughly(metric - smoothed, r)
    ensures halfLife != 2 || Abs(metric - smoothed) <= 63287 ==> Abs(r * (TwoToTheOneOver(halfLife) - 0x1_0000)) <= INT_MAX
  {
    if halfLife == 2 {
      HalfLifeTwo(metric - smoothed);
      assert Abs(metric - smoothed) <= 63287 ==> ProductOfTwoFits(r);
    } else {
      ProductFits(metric, smoothed, r, halfLife);
    }
  }

  /** The product in the second loop fits a signed 32-bit int for every half-life
      that gets there, except 2. */
  lemma {:induction false} ProductFits(metric: U16, smoothed: U16, r: int, halfLife: int)
    requires halfLife >= 3 && IsRoughly(metric - smoothed, r)
    ensures Abs(r * (TwoToTheOneOver(halfLife) - 0x1_0000)) <= INT_MAX
  {
    RoughlyBound(metric - smoothed, r);
    var f := TwoToTheOneOver(halfLife) - 0x1_0000;
    assert 0 <= f <= 17034 by { if halfLife > 4 { FactorSmall(halfLife); } }
    hide TwoToTheOneOver, IsRoughly;
    AbsProduct(r, f, 81918, 17034);
  }

  lemma {:induction false} AbsProduct(x: int, y: nat, a: nat, b: nat)
    requires Abs(x) <= a && y <= b
    ensures Abs(x * y) <= a * b
  {
    assert Abs(x) * y <= a * y <= a * b;
    assert Abs(x * y) == Abs(x) * y;
  }

  /** The product with a half-life of 2. */
  ghost predicate ProductOfTwoFits(r: int) { Abs(r * (TwoToTheOneOver(2) - 0x1_0000)) <= INT_MAX }

  /** With a half-life of 2 the product fits, whatever is drawn, exactly when the
      metric and the smoothed metric, `d` apart, are at most 63287 apart. */
  lemma {:induction false} HalfLifeTwo(d: int)
    ensures (forall r :: IsRoughly(d, r) ==> ProductOfTwoFits(r)) <==> Abs(d) <= 63287
  {
    if Abs(d) <= 63287 {
      forall r | IsRoughly(d, r) ensures ProductOfTwoFits(r) { DrawAtMost(d, r); }
    } else {
      var r := Abs(d) * 3 / 4 + Abs(d) / 2 - 1;
      var draw := if d < 0 then -r else r;
      assert IsRoughly(d, draw) by { if d < 0 { assert IsRoughly(-d, r); } }
      assert !ProductOfTwoFits(draw);
    }
  }

  lemma {:induction false} DrawAtMost(d: int, r: int)
    requires Abs(d) <= 63287 && IsRoughly(d, r)
    ensures Abs(r) <= 79108
  {
    if d < 0 { assert IsRoughly(-d, -r); }
  }

  /** A metric of 65534 is that far from a smoothed metric of 1. */
  lemma {:induction false} HalfLifeTwoOverflows()
    ensures exists r :: IsRoughly(65533, r) && !ProductOfTwoFits(r)
  {
    HalfLifeTwo(65533);
  }
}
