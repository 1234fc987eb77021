/** src/ewma.rs: the integer moving average and the ejection line. */
module Ewma {
  import opened Prelude

  datatype EwmaConfig = EwmaConfig(
    alphaMilli: u64,
    factorMilli: u64,
    windowMs: u64,
    minSamples: u32,
    ejectionMs: u64,
    reinstatePercent: u32,
    rampWindowMs: u64)
  {
    /** The smoothing factor after its clamp to 1000. */
    function Alpha(): nat {
      Min(alphaMilli, 1000)
    }

    function ThresholdMilli(poolMeanMilli: u64): u64 {
      var line := poolMeanMilli * factorMilli / 1000;
      if line <= U64_MAX then line else U64_MAX
    }

    function Fold(current: Option<u64>, latencyMs: u64): u64 {
      match current
      case None => SampleMilli(latencyMs)
      case Some(prev) =>
        var blended := Blend(Alpha(), SampleMilli(latencyMs), prev) / 1000;
        if blended <= U64_MAX then blended else U64_MAX
    }
  }

  /** A latency in milli units, saturated at the top of the range. */
  function SampleMilli(latencyMs: u64): u64 {
    Min(latencyMs * 1000, U64_MAX)
  }

  /** The 128-bit intermediate of a fold, before the division. */
  function Blend(alpha: nat, sample: nat, prev: nat): nat
    requires alpha <= 1000
  {
    MulMonotone(alpha, 0, sample);
    MulMonotone(1000 - alpha, 0, prev);
    alpha * sample + (1000 - alpha) * prev
  }

  // ---- one fold ---------------------------------------------------------

  /** The blend is a weighted mean of `sample` and `prev`, so it fits in 128
      bits and its quotient never needs the final saturation. */
  lemma {:induction false} BlendBounds(alpha: nat, sample: u64, prev: u64)
    requires alpha <= 1000
    ensures 1000 * Min(sample, prev) <= Blend(alpha, sample, prev) <= 1000 * Max(sample, prev)
    ensures Blend(alpha, sample, prev) <= U128_MAX
  {
    var lo, hi := Min(sample, prev), Max(sample, prev);
    MulMonotone(alpha, lo, sample);
    MulMonotone(alpha, sample, hi);
    MulMonotone(1000 - alpha, lo, prev);
    MulMonotone(1000 - alpha, prev, hi);
  }

  /** A fold is the exact blend rounded down: no saturation ever changes it,
      and it stays between the previous value and the sample. */
  lemma {:induction false} FoldRounds(cfg: EwmaConfig, prev: u64, latencyMs: u64)
    ensures var v := cfg.Fold(Some(prev), latencyMs);
            var a, s := Min(cfg.alphaMilli, 1000), Min(1000 * latencyMs, U64_MAX);
            && 1000 * v <= a * s + (1000 - a) * prev < 1000 * v + 1000
            && Min(s, prev) <= v <= Max(s, prev)
  {
    BlendBounds(cfg.Alpha(), SampleMilli(latencyMs), prev);
  }

  lemma {:induction false} FoldMonotone(cfg: EwmaConfig, prev: u64, prev': u64, latencyMs: u64, latencyMs': u64)
    requires prev <= prev' && latencyMs <= latencyMs'
    ensures cfg.Fold(Some(prev), latencyMs) <= cfg.Fold(Some(prev'), latencyMs')
  {
    var a, s, s' := cfg.Alpha(), SampleMilli(latencyMs), SampleMilli(latencyMs');
    FoldRounds(cfg, prev, latencyMs);
    FoldRounds(cfg, prev', latencyMs');
    MulMonotone(a, s, s');
    MulMonotone(1000 - a, prev, prev');
  }

  /** Above the sample, one fold keeps `(1000 - alpha)` thousandths of the gap,
      rounded down; below it, rounded up. */
  lemma {:induction false} FoldGap(cfg: EwmaConfig, prev: u64, latencyMs: u64)
    ensures var v, s, a := cfg.Fold(Some(prev), latencyMs), SampleMilli(latencyMs), cfg.Alpha();
            && 1000 * (v - s) <= (1000 - a) * (prev - s) < 1000 * (v - s) + 1000
            && 1000 * (v - prev) <= a * (s - prev) < 1000 * (v - prev) + 1000
  {
    hide EwmaConfig.Fold;
    FoldRounds(cfg, prev, latencyMs);
    BlendGap(cfg.Alpha(), SampleMilli(latencyMs), prev);
  }

  lemma {:induction false} BlendGap(a: int, s: int, prev: int)
    ensures a * s + (1000 - a) * prev == 1000 * s + (1000 - a) * (prev - s)
    ensures a * s + (1000 - a) * prev == 1000 * prev + a * (s - prev)
  {
    MulDistributes(s, prev, a);
    MulDistributes(s, prev, 1000 - a);
    MulDistributes(1000, a, s);
    MulDistributes(1000, a, prev);
  }

  /** A value below the sample is left where it is exactly when the weighted gap
      is less than one unit; a value above always moves. */
  lemma {:induction false} StallsExactlyWhen(cfg: EwmaConfig, prev: u64, latencyMs: u64)
    requires cfg.Alpha() > 0
    ensures cfg.Fold(Some(prev), latencyMs) == prev
            <==> 0 <= cfg.Alpha() * (SampleMilli(latencyMs) - prev) < 1000
  {
    FoldGap(cfg, prev, latencyMs);
  }

  /** Where one fold lands, in the two directions. */
  lemma {:induction false} FoldSteps(cfg: EwmaConfig, prev: u64, latencyMs: u64, v: u64)
    requires cfg.Alpha() > 0 && v == cfg.Fold(Some(prev), latencyMs)
    ensures prev > SampleMilli(latencyMs) ==> SampleMilli(latencyMs) <= v < prev
    ensures prev <= SampleMilli(latencyMs) ==> prev <= v <= SampleMilli(latencyMs)
    ensures prev < SampleMilli(latencyMs) && cfg.Alpha() < 1000 ==> v < SampleMilli(latencyMs)
  {
    hide EwmaConfig.Fold, SampleMilli;
    FoldGap(cfg, prev, latencyMs);
    var s := SampleMilli(latencyMs);
    GapSteps(cfg.Alpha(), prev - s, v - s, v - prev);
  }

  /** The same over plain integers: `gap` above the sample before, `left` after, and
      `step` made in between. */
  lemma {:induction false} GapSteps(a: int, gap: int, left: int, step: int)
    requires 0 < a <= 1000 && step == left - gap
    requires 1000 * left <= (1000 - a) * gap < 1000 * left + 1000
    requires 1000 * step <= a * -gap < 1000 * step + 1000
    ensures gap > 0 ==> left >= 0 && step < 0
    ensures gap <= 0 ==> left <= 0 && step >= 0
    ensures gap < 0 && a < 1000 ==> left < 0
  {
    if gap > 0 {
      MulMonotone(gap, 1, a);
      MulMonotone(gap, 0, 1000 - a);
    } else {
      MulMonotone(-gap, 0, a);
      MulMonotone(-gap, if a < 1000 then 1 else 0, 1000 - a);
    }
  }

  // ---- repeated folds of one sample -------------------------------------

  ghost function FoldTimes(cfg: EwmaConfig, prev: u64, latencyMs: u64, n: nat): u64 {
    if n == 0 then prev else cfg.Fold(Some(FoldTimes(cfg, prev, latencyMs, n - 1)), latencyMs)
  }

  function Pow(b: nat, n: nat): nat {
    if n == 0 then 1 else b * Pow(b, n - 1)
  }

  /** From above, `gap` folds reach the sample exactly and never pass it. */
  lemma {:induction false} ConvergesFromAbove(cfg: EwmaConfig, prev: u64, latencyMs: u64, n: nat)
    requires cfg.Alpha() > 0 && prev >= SampleMilli(latencyMs)
    ensures var s, v := SampleMilli(latencyMs), FoldTimes(cfg, prev, latencyMs, n);
            && s <= v <= s + Max(0, prev - s - n)
            && (n >= prev - s ==> v == s)
  {
    if n > 0 {
      ConvergesFromAbove(cfg, prev, latencyMs, n - 1);
      FoldSteps(cfg, FoldTimes(cfg, prev, latencyMs, n - 1), latencyMs, FoldTimes(cfg, prev, latencyMs, n));
    }
  }

  /** From above the gap shrinks at least as fast as `(1 - alpha)^n`; from below
      (both sides negative) at most that fast. */
  lemma {:induction false} GeometricGap(cfg: EwmaConfig, prev: u64, latencyMs: u64, n: nat)
    ensures Pow(1000, n) * (FoldTimes(cfg, prev, latencyMs, n) - SampleMilli(latencyMs))
            <= Pow(1000 - cfg.Alpha(), n) * (prev - SampleMilli(latencyMs))
  {
    if n > 0 {
      GeometricGap(cfg, prev, latencyMs, n - 1);
      GeometricFold(cfg, FoldTimes(cfg, prev, latencyMs, n - 1), latencyMs, Pow(1000, n - 1),
                    Pow(1000 - cfg.Alpha(), n - 1), prev - SampleMilli(latencyMs));
    }
  }

  lemma {:induction false} GeometricFold(cfg: EwmaConfig, u: u64, latencyMs: u64, p: nat, q: nat, g: int)
    requires p * (u - SampleMilli(latencyMs)) <= q * g
    ensures (1000 * p) * (cfg.Fold(Some(u), latencyMs) - SampleMilli(latencyMs)) <= ((1000 - cfg.Alpha()) * q) * g
  {
    FoldGap(cfg, u, latencyMs);
    GeometricStep(p, q, 1000 - cfg.Alpha(), g, u - SampleMilli(latencyMs),
                  cfg.Fold(Some(u), latencyMs) - SampleMilli(latencyMs));
  }

  lemma {:induction false} GeometricStep(p: nat, q: nat, k: nat, g: int, g': int, g'': int)
    requires 1000 * g'' <= k * g' && p * g' <= q * g
    ensures (1000 * p) * g'' <= (k * q) * g
  {
    MulMonotone(p, 1000 * g'', k * g');
    MulMonotone(k, p * g', q * g);
    assert (1000 * p) * g'' == p * (1000 * g'');
    assert p * (k * g') == k * (p * g');
    assert (k * q) * g == k * (q * g);
  }

  lemma {:induction false} StallStep(cfg: EwmaConfig, prev: u64, latencyMs: u64, v: u64)
    requires cfg.Alpha() > 0 && prev <= SampleMilli(latencyMs)
    requires v == cfg.Fold(Some(prev), latencyMs)
    ensures prev <= v <= SampleMilli(latencyMs)
    ensures if cfg.Alpha() * (SampleMilli(latencyMs) - prev) < 1000 then v == prev else v > prev
    ensures SampleMilli(latencyMs) == prev ==> cfg.Alpha() * (SampleMilli(latencyMs) - prev) < 1000
  {
    FoldSteps(cfg, prev, latencyMs, v);
    StallsExactlyWhen(cfg, prev, latencyMs);
  }

  /** From below the value rises until it stalls: after `gap` folds the weighted
      gap is under one unit and no further fold moves it. */
  lemma {:induction false} StallsFromBelow(cfg: EwmaConfig, prev: u64, latencyMs: u64, n: nat)
    requires cfg.Alpha() > 0 && prev <= SampleMilli(latencyMs)
    ensures var s, v := SampleMilli(latencyMs), FoldTimes(cfg, prev, latencyMs, n);
            && prev <= v <= s
            && (cfg.Alpha() * (s - v) < 1000 || v >= prev + n)
            && (n >= s - prev ==> cfg.Alpha() * (s - v) < 1000
                                  && FoldTimes(cfg, prev, latencyMs, n + 1) == v)
  {
    var s, v := SampleMilli(latencyMs), FoldTimes(cfg, prev, latencyMs, n);
    if n > 0 {
      StallsFromBelow(cfg, prev, latencyMs, n - 1);
      StallStep(cfg, FoldTimes(cfg, prev, latencyMs, n - 1), latencyMs, v);
    }
    StallStep(cfg, v, latencyMs, FoldTimes(cfg, prev, latencyMs, n + 1));
  }

  /** From strictly below, the sample itself is reached by some number of folds
      exactly when there is no smoothing at all. */
  lemma {:induction false} ReachesFromBelowExactlyWhen(cfg: EwmaConfig, prev: u64, latencyMs: u64)
    requires prev < SampleMilli(latencyMs)
    ensures (exists n: nat :: FoldTimes(cfg, prev, latencyMs, n) == SampleMilli(latencyMs))
            <==> cfg.alphaMilli >= 1000
  {
    if cfg.alphaMilli >= 1000 {
      FoldGap(cfg, prev, latencyMs);
      assert FoldTimes(cfg, prev, latencyMs, 0) == prev;
      assert FoldTimes(cfg, prev, latencyMs, 1) == SampleMilli(latencyMs);
    } else {
      forall n: nat ensures FoldTimes(cfg, prev, latencyMs, n) != SampleMilli(latencyMs) {
        StaysBelow(cfg, prev, latencyMs, n);
      }
    }
  }

  lemma {:induction false} StaysBelow(cfg: EwmaConfig, prev: u64, latencyMs: u64, n: nat)
    requires prev < SampleMilli(latencyMs) && cfg.alphaMilli < 1000
    ensures FoldTimes(cfg, prev, latencyMs, n) < SampleMilli(latencyMs)
  {
    if n > 0 {
      StaysBelow(cfg, prev, latencyMs, n - 1);
      var u := FoldTimes(cfg, prev, latencyMs, n - 1);
      if cfg.Alpha() > 0 {
        FoldSteps(cfg, u, latencyMs, FoldTimes(cfg, prev, latencyMs, n));
      }
    }
  }

  /** With a quarter of smoothing an average of 1 ms under a constant latency of
      2 ms never shows those 2 ms: it stalls three thousandths short. */
  lemma {:induction false} StallsThreeShort(n: nat)
    ensures var cfg := EwmaConfig(250, 3000, 1000, 5, 1000, 10, 1000);
            && FoldTimes(cfg, 1000, 2, n) < SampleMilli(2)
            && cfg.Fold(Some(1997), 2) == 1997 == SampleMilli(2) - 3
            && (n >= 1000 ==> FoldTimes(cfg, 1000, 2, n) == 1997)
  {
    var cfg := EwmaConfig(250, 3000, 1000, 5, 1000, 10, 1000);
    StaysBelow(cfg, 1000, 2, n);
    StallsAt1997(cfg, n);
  }

  lemma {:induction false} StallsAt1997(cfg: EwmaConfig, n: nat)
    requires cfg.alphaMilli == 250
    ensures cfg.Fold(Some(1997), 2) == 1997
    ensures n <= 997 ==> FoldTimes(cfg, 1000, 2, n) >= 1000 + n
    ensures FoldTimes(cfg, 1000, 2, n) <= 1997
    ensures n >= 997 ==> FoldTimes(cfg, 1000, 2, n) == 1997
  {
    if n > 0 {
      StallsAt1997(cfg, n - 1);
    }
  }

  // ---- the ejection line ------------------------------------------------

  /** A bigger mean never gives a smaller line, and past the top of the range
      the line is exactly `u64::MAX`; the product fits in 128 bits. */
  lemma {:induction false} LineMonotoneAndSaturating(cfg: EwmaConfig, mean: u64, mean': u64)
    requires mean <= mean'
    ensures cfg.ThresholdMilli(mean) <= cfg.ThresholdMilli(mean')
    ensures cfg.ThresholdMilli(mean) < U64_MAX
            ==> 1000 * cfg.ThresholdMilli(mean) <= mean * cfg.factorMilli
                < 1000 * cfg.ThresholdMilli(mean) + 1000
    ensures cfg.ThresholdMilli(mean) == U64_MAX <==> mean * cfg.factorMilli >= 1000 * U64_MAX
    ensures mean * cfg.factorMilli <= U128_MAX
  {
    MulMonotone(cfg.factorMilli, mean, mean');
    MulMonotone(cfg.factorMilli, mean, U64_MAX);
    MulMonotone(U64_MAX, cfg.factorMilli, U64_MAX);
  }

  /** With a factor of at least one the line is never below the mean. */
  lemma {:induction false} LineAboveMean(cfg: EwmaConfig, mean: u64)
    requires cfg.factorMilli >= 1000
    ensures cfg.ThresholdMilli(mean) >= mean
  {
    MulMonotone(mean, 1000, cfg.factorMilli);
  }
}
