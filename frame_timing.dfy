/**
  Frame-timing arithmetic of the experiment base class (lib/qexperiment.cc):
  the swap coefficient and its 1 % tolerance rule, the number of frames in a
  trial, and the power-of-two texture size.  Floating point is modelled over
  the reals; `nearbyintf` in the default rounding mode is round-half-to-even.
*/
module FrameTiming {
  import opened Wrappers

  /** `nearbyintf` in the default rounding mode: the nearest integer, ties to even. */
  function RoundHalfEven(x: real): (r: int)
    ensures r as real - 1.0 / 2.0 <= x <= r as real + 1.0 / 2.0
    ensures (x == r as real - 1.0 / 2.0 || x == r as real + 1.0 / 2.0) ==> r % 2 == 0
  {
    var f := x.Floor;
    var d := x - f as real;
    if d < 1.0 / 2.0 then f
    else if d > 1.0 / 2.0 then f + 1
    else if f % 2 == 0 then f
    else f + 1
  }

  /** The two properties above determine the rounded value: it is the integer nearest to x. */
  lemma RoundHalfEvenUnique(x: real, k: int)
    requires k as real - 1.0 / 2.0 <= x <= k as real + 1.0 / 2.0
    requires (x == k as real - 1.0 / 2.0 || x == k as real + 1.0 / 2.0) ==> k % 2 == 0
    ensures RoundHalfEven(x) == k
  {
  }

  /** Rounding an integer gives that integer back. */
  lemma RoundHalfEvenOfInt(k: int)
    ensures RoundHalfEven(k as real) == k
  {
    RoundHalfEvenUnique(k as real, k);
  }

  /** The swap coefficient: how many refreshes each stimulus frame stays on screen. */
  function SwapCoef(refresh: real, wanted: real): int
    requires wanted > 0.0
  {
    RoundHalfEven(refresh / wanted)
  }

  /** The frequency actually reached when each frame lasts `coef` refreshes. */
  function AchievedRate(refresh: real, coef: int): real
    requires coef >= 1
  {
    refresh / coef as real
  }

  datatype Timing = Timing(refresh: real, swapInterval: int, nframes: int)

  datatype TimingError =
    | FrequencyMismatch  // the achieved rate is not within 1 % of the wanted one
    | RefreshMismatch    // the configured refresh rate differs from the measured one

  /**
    The tolerance rule exactly as written: the relative error is compared with
    0.01 without taking its absolute value.
  */
  predicate Rejected(refresh: real, wanted: real, coef: int)
    requires wanted > 0.0 && coef >= 1
  {
    (AchievedRate(refresh, coef) - wanted) / wanted > 1.0 / 100.0
  }

  lemma RejectedIffTooFast(refresh: real, wanted: real, coef: int)
    requires wanted > 0.0 && coef >= 1
    ensures Rejected(refresh, wanted, coef) <==> AchievedRate(refresh, coef) > wanted * (101.0 / 100.0)
  {
    var a := AchievedRate(refresh, coef);
    var q := (a - wanted) / wanted;
    assert q * wanted == a - wanted;
    if q > 1.0 / 100.0 {
      assert q * wanted > (1.0 / 100.0) * wanted;
    }
    if a > wanted * (101.0 / 100.0) {
      assert q * wanted > (1.0 / 100.0) * wanted;
    }
  }

  /**
    Frame count and swap interval from a refresh rate, the wanted stimulus
    frequency and the trial duration in milliseconds (the configured-rate copy
    of the rule; the RandR copy is RandRTiming below).
  */
  function ComputeTiming(refresh: real, wanted: real, durMs: real): (r: Result<Timing, TimingError>)
    requires wanted > 0.0 && SwapCoef(refresh, wanted) >= 1
    ensures r.Ok? <==> AchievedRate(refresh, SwapCoef(refresh, wanted)) <= wanted * (101.0 / 100.0)
    ensures r.Err? ==> r.error == FrequencyMismatch
    ensures r.Ok? ==> r.value.refresh == refresh && r.value.swapInterval == SwapCoef(refresh, wanted)
    ensures r.Ok? ==>
      var exact := AchievedRate(refresh, r.value.swapInterval) * (durMs / 1000.0);
      exact - 1.0 / 2.0 <= r.value.nframes as real <= exact + 1.0 / 2.0 && r.value.nframes == RoundHalfEven(exact)
  {
    var coef := SwapCoef(refresh, wanted);
    RejectedIffTooFast(refresh, wanted, coef);
    if Rejected(refresh, wanted, coef) then Err(FrequencyMismatch)
    else Ok(Timing(refresh, coef, RoundHalfEven((refresh / coef as real) * (durMs / 1000.0))))
  }

  /**
    The RandR copy of the rule: a nonzero configured rate must equal the
    measured one; the measured rate is then stored and used.
  */
  function RandRTiming(configured: real, measured: real, wanted: real, durMs: real): (r: Result<Timing, TimingError>)
    requires wanted > 0.0
    requires configured == 0.0 || configured == measured ==> SwapCoef(measured, wanted) >= 1
    ensures configured != 0.0 && configured != measured ==> r == Err(RefreshMismatch)
    ensures configured == 0.0 || configured == measured ==> r == ComputeTiming(measured, wanted, durMs)
    ensures r.Ok? ==> r.value.refresh == measured && (configured == 0.0 || configured == measured)
    ensures r.Ok? ==> r.value.swapInterval >= 1 && !Rejected(measured, wanted, r.value.swapInterval)
  {
    if configured != 0.0 && configured != measured then Err(RefreshMismatch)
    else ComputeTiming(measured, wanted, durMs)
  }

  /** As written, a rate below the target is never refused, however far below it is. */
  lemma SlowRateNeverRejected(refresh: real, wanted: real, durMs: real)
    requires wanted > 0.0 && SwapCoef(refresh, wanted) >= 1
    requires AchievedRate(refresh, SwapCoef(refresh, wanted)) <= wanted
    ensures ComputeTiming(refresh, wanted, durMs).Ok?
  {
  }

  /** 50 Hz for a 30 Hz target: coef 2 gives 25 Hz, 16.7 % too slow, and is accepted. */
  lemma FiftyHertzForThirtyAccepted()
    ensures SwapCoef(50.0, 30.0) == 2
    ensures ComputeTiming(50.0, 30.0, 332.0).Ok?
  {
    RoundHalfEvenUnique(50.0 / 30.0, 2);
  }

  /** 60 Hz, 30 Hz wanted, 332 ms: every second refresh, 10 frames. */
  lemma SixtyHertzScenario()
    ensures ComputeTiming(60.0, 30.0, 332.0) == Ok(Timing(60.0, 2, 10))
  {
    RoundHalfEvenUnique(60.0 / 30.0, 2);
    RoundHalfEvenUnique((60.0 / 2.0) * (332.0 / 1000.0), 10);
  }

  // Power-of-two texture sizes

  function Pow2(k: nat): (p: nat)
    ensures p >= 1
  {
    if k == 0 then 1 else 2 * Pow2(k - 1)
  }

  lemma {:induction false} Pow2Monotone(j: nat, k: nat)
    requires j <= k
    ensures Pow2(j) <= Pow2(k)
    decreases k
  {
    if j < k {
      Pow2Monotone(j, k - 1);
    }
  }

  /** `(int) log2f(n)` for n >= 1: the exponent of the largest power of two not above n. */
  function FloorLog2(n: int): (k: nat)
    requires n >= 1
    ensures Pow2(k) <= n < 2 * Pow2(k)
  {
    if n == 1 then 0 else 1 + FloorLog2(n / 2)
  }

  /**
    `1 << (int) log2f(stim)`, doubled when it is still below `stim`: the texture
    side for a stimulus side of `stim` pixels.
  */
  function TextureSize(stim: int): (tex: int)
    requires stim >= 1
    ensures exists k: nat :: tex == Pow2(k)
    ensures stim <= tex < 2 * stim
  {
    var k := FloorLog2(stim);
    var t := Pow2(k);
    if t < stim then assert 2 * t == Pow2(k + 1); 2 * t else t
  }

  /** No smaller power of two holds the stimulus. */
  lemma TextureSizeIsLeast(stim: int, k: nat)
    requires stim >= 1 && Pow2(k) >= stim
    ensures TextureSize(stim) <= Pow2(k)
  {
    var tex := TextureSize(stim);
    var j: nat :| tex == Pow2(j);
    if k < j {
      Pow2Monotone(k, j - 1);
    } else {
      Pow2Monotone(j, k);
    }
  }
}
