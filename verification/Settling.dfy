/** How the encoder's target follows a steady estimate (native/crates/engine/src/tuning.rs). */
module Settling {
  import opened Common
  import opened Tuning

  function Abs(x: real): real {
    if x < 0.0 then -x else x
  }

  /** How far the smoothed estimate is from the raw one. */
  function Distance(f: RateFilter, raw: u32): real {
    Abs(f.smoothed - raw as real)
  }

  /** One sample takes away exactly its weight's share of the distance. */
  lemma DistanceShrinks(f: RateFilter, s: Sample)
    ensures Next(f, s).smoothed - s.raw as real == (1.0 - s.alpha) * (f.smoothed - s.raw as real)
    ensures Distance(Next(f, s), s.raw) == (1.0 - s.alpha) * Distance(f, s.raw)
  {
    hide Share, Abs, Next;
    Smooths(f, s);
    var r := s.raw as real;
    Remains(s.alpha, f.smoothed, r);
    var w, d, size := 1.0 - s.alpha, f.smoothed - r, Distance(f, s.raw);
    Scaled(w, d, size);
    assert Next(f, s).smoothed - r == w * d;
    assert Distance(Next(f, s), s.raw) == w * size;
  }

  lemma Smooths(f: RateFilter, s: Sample)
    ensures Next(f, s).smoothed == f.smoothed + Share(s.alpha, s.raw as real - f.smoothed)
  {
    hide Share;
  }

  lemma Remains(w: real, x: real, r: real)
    ensures x + Share(w, r - x) - r == (1.0 - w) * (x - r)
  {
    var d := x - r;
    assert r - x == -d;
    assert w * -d == -(w * d);
    assert (1.0 - w) * d == d - w * d;
  }

  lemma Scaled(w: real, d: real, size: real)
    requires w >= 0.0 && size == Abs(d)
    ensures Abs(w * d) == w * size
  {
    if d >= 0.0 {
      assert w * d >= 0.0;
    } else {
      assert w * d <= 0.0;
      assert w * -d == -(w * d);
    }
  }

  /** Every sample has at least the weight `a`. */
  predicate Heavy(run: seq<Sample>, a: real) {
    0.0 < a < 1.0 && forall j :: 0 <= j < |run| ==> run[j].alpha >= a
  }

  /** One factor more. */
  lemma Decayed(before: real, w: real, q: real, p: real, first: real)
    requires 0.0 <= before <= p * first && 0.0 <= w <= q
    ensures w * before <= q * p * first
  {
    assert (q - w) * before >= 0.0;
    assert q * (p * first - before) >= 0.0;
    assert q * (p * first) == q * p * first;
  }

  /** Under a constant estimate the distance falls at least as fast as a geometric sequence. */
  lemma {:induction false} DistanceDecays(f: RateFilter, run: seq<Sample>, raw: u32, a: real, n: nat)
    requires Constant(run, raw) && Heavy(run, a) && n <= |run|
    ensures Distance(At(f, run, n), raw) <= Pow(1.0 - a, n) * Distance(f, raw)
  {
    hide Next, Distance, Pow;
    if n == 0 {
      PowZero(1.0 - a);
    } else {
      DistanceDecays(f, run, raw, a, n - 1);
      var g, s := At(f, run, n - 1), run[n - 1];
      DistanceShrinks(g, s);
      DistanceSign(g, raw);
      PowNext(1.0 - a, n - 1);
      Decayed(Distance(g, raw), 1.0 - s.alpha, 1.0 - a, Pow(1.0 - a, n - 1), Distance(f, raw));
    }
  }

  lemma DistanceSign(f: RateFilter, raw: u32)
    ensures Distance(f, raw) >= 0.0
  {
  }

  lemma PowZero(q: real)
    ensures Pow(q, 0) == 1.0
  {
  }

  /** Bernoulli: after `n` samples less than one part in `1 + n * a` is left. */
  lemma {:induction false} PowBelow(a: real, n: nat)
    requires 0.0 < a < 1.0
    ensures 0.0 < Pow(1.0 - a, n) && Pow(1.0 - a, n) * (1.0 + n as real * a) <= 1.0
  {
    if n == 0 {
      PowZero(1.0 - a);
    } else {
      hide Pow;
      PowBelow(a, n - 1);
      PowNext(1.0 - a, n - 1);
      BernoulliStep(a, Pow(1.0 - a, n - 1), (n - 1) as real);
      assert (n - 1) as real + 1.0 == n as real;
    }
  }

  lemma BernoulliStep(a: real, p: real, m: real)
    requires 0.0 < a < 1.0 && 0.0 < p && m >= 0.0 && p * (1.0 + m * a) <= 1.0
    ensures 0.0 < (1.0 - a) * p && (1.0 - a) * p * (1.0 + (m + 1.0) * a) <= 1.0
  {
    var u := (1.0 - a) * (1.0 + (m + 1.0) * a);
    assert m * a >= 0.0 && (m * a + a) * a >= 0.0;
    assert u == 1.0 + m * a - (m * a + a) * a;
    assert (1.0 - a) * p > 0.0;
    assert p * (1.0 + m * a - u) >= 0.0;
    assert (1.0 - a) * p * (1.0 + (m + 1.0) * a) == p * u;
  }

  /** After `n` samples, `n * a` being at least the first distance, the smoothed estimate is within 1. */
  lemma WithinOne(f: RateFilter, run: seq<Sample>, raw: u32, a: real, n: nat)
    requires Constant(run, raw) && Heavy(run, a) && n <= |run|
    requires n as real * a >= Distance(f, raw)
    ensures Distance(At(f, run, n), raw) <= 1.0
  {
    hide At, Distance, Pow;
    DistanceDecays(f, run, raw, a, n);
    DistanceSign(f, raw);
    PowBelow(a, n);
    OneLeft(Pow(1.0 - a, n), n as real * a, Distance(f, raw));
  }

  lemma OneLeft(p: real, m: real, d: real)
    requires p > 0.0 && p * (1.0 + m) <= 1.0 && d <= m
    ensures p * d <= 1.0
  {
    assert p * (m - d) >= 0.0;
    assert p * (1.0 + m) == p + p * m;
    assert p * (m - d) == p * m - p * d;
  }

  /** However an interval is sampled, the smoothed estimate ends up the same: weights compose. */
  lemma SamplingDoesNotMatter(f: RateFilter, s: Sample, t: Sample, both: Sample)
    requires s.raw == t.raw == both.raw && 1.0 - both.alpha == (1.0 - s.alpha) * (1.0 - t.alpha)
    ensures Next(Next(f, s), t).smoothed == Next(f, both).smoothed
  {
    hide Next;
    DistanceShrinks(f, s);
    DistanceShrinks(Next(f, s), t);
    DistanceShrinks(f, both);
    var d := f.smoothed - s.raw as real;
    assert (1.0 - t.alpha) * ((1.0 - s.alpha) * d) == (1.0 - s.alpha) * (1.0 - t.alpha) * d;
  }

  // ---- The target --------------------------------------------------------

  /** The estimate as the encoder may use it. */
  function Usable(raw: u32): nat {
    if raw < 500_000 then 500_000 else if raw > 8_000_000 then 8_000_000 else raw
  }

  /** A filter starts at the usable target, with nothing on its timers. */
  lemma StartsUsable(initial: u32)
    ensures New(initial) == RateFilter(Usable(initial), Usable(initial) as real, 0.0, 0.0)
  {
  }

  /** Below the band the drop timer runs as fast as the clock, but a clock that jumps counts for 0 to 5 seconds. */
  lemma TimeCounts(f: RateFilter, s: Sample)
    requires Valid(f) && Low(f, s) && Next(f, s).target == f.target
    ensures Next(f, s).below - f.below == if s.dt < 0.0 then 0.0 else if s.dt > 5.0 then 5.0 else s.dt
  {
    LowAccumulates(f, s);
  }

  /** Within 1 of the raw estimate, so is what the band is compared with. */
  lemma NearEst(f: RateFilter, s: Sample)
    requires Distance(Next(f, s), s.raw) <= 1.0
    ensures Usable(s.raw) - 1 <= Est(f, s) <= Usable(s.raw) + 1
  {
    hide Share;
    var x, r := Smoothed(f, s), s.raw as real;
    assert r - 1.0 <= x <= r + 1.0;
    if 0.0 <= x < 4294967296.0 {
      assert s.raw - 1 <= x.Floor <= s.raw + 1;
    }
  }

  /** The target `t` is too high for the estimate, or too low, by more than the rounding of one sample. */
  predicate TooHigh(t: nat, raw: u32) {
    (Usable(raw) + 1) as real < 0.75 * t as real
  }

  predicate TooLow(t: nat, raw: u32) {
    (Usable(raw) - 1) as real > 1.25 * t as real
  }

  /** As long as the target stays too high, the drop timer runs. */
  lemma {:induction false} HighTargetTimes(f: RateFilter, run: seq<Sample>, raw: u32, i: nat, n: nat)
    requires Valid(f) && Constant(run, raw) && i <= n <= |run|
    requires forall k :: i <= k <= n ==> Distance(At(f, run, k), raw) <= 1.0
    requires forall k :: i <= k <= n ==> At(f, run, k).target == At(f, run, i).target
    requires TooHigh(At(f, run, i).target, raw)
    ensures Valid(At(f, run, n)) && At(f, run, n).below >= Elapsed(run, i, n)
  {
    hide Next, Valid, Low, High, Est, Distance, Usable, TooHigh;
    ChangesArePaid(f, run, n);
    if i < n {
      HighTargetTimes(f, run, raw, i, n - 1);
      var g, s := At(f, run, n - 1), run[n - 1];
      AtNext(f, run, n);
      TooHighIsLow(g, s);
      LowAccumulates(g, s);
    } else {
      ValidTimers(At(f, run, n));
    }
  }

  lemma ValidTimers(f: RateFilter)
    requires Valid(f)
    ensures 0.0 <= f.below < 3.0 && 0.0 <= f.above < 2.0
  {
  }

  lemma TooHighIsLow(g: RateFilter, s: Sample)
    requires Distance(Next(g, s), s.raw) <= 1.0
    ensures TooHigh(g.target, s.raw) ==> Low(g, s)
    ensures TooLow(g.target, s.raw) ==> High(g, s)
  {
    hide Est, Next, Distance, Usable;
    NearEst(g, s);
  }

  lemma {:induction false} LowTargetTimes(f: RateFilter, run: seq<Sample>, raw: u32, i: nat, n: nat)
    requires Valid(f) && Constant(run, raw) && i <= n <= |run|
    requires forall k :: i <= k <= n ==> Distance(At(f, run, k), raw) <= 1.0
    requires forall k :: i <= k <= n ==> At(f, run, k).target == At(f, run, i).target
    requires TooLow(At(f, run, i).target, raw)
    ensures Valid(At(f, run, n)) && At(f, run, n).above >= Elapsed(run, i, n)
  {
    hide Next, Valid, Low, High, Est, Distance, Usable, TooLow;
    ChangesArePaid(f, run, n);
    if i < n {
      LowTargetTimes(f, run, raw, i, n - 1);
      var g, s := At(f, run, n - 1), run[n - 1];
      AtNext(f, run, n);
      TooHighIsLow(g, s);
      HighAccumulates(g, s);
    } else {
      ValidTimers(At(f, run, n));
    }
  }

  /** Nearness stays. */
  lemma {:induction false} StaysNear(f: RateFilter, run: seq<Sample>, raw: u32, i: nat, n: nat)
    requires Constant(run, raw) && i <= n <= |run| && Distance(At(f, run, i), raw) <= 1.0
    ensures Distance(At(f, run, n), raw) <= 1.0
  {
    hide Next, Distance;
    if i < n {
      StaysNear(f, run, raw, i, n - 1);
      var g, s := At(f, run, n - 1), run[n - 1];
      DistanceShrinks(g, s);
      DistanceSign(g, raw);
      assert s.alpha * Distance(g, raw) >= 0.0;
    }
  }

  /** A target set while the estimate is near suits the estimate. */
  lemma {:induction false} SuitsOnceSet(f: RateFilter, run: seq<Sample>, raw: u32, i: nat, n: nat)
    requires Valid(f) && Constant(run, raw) && i <= n <= |run| && Distance(At(f, run, i), raw) <= 1.0
    requires exists k :: i <= k <= n && At(f, run, k).target != At(f, run, i).target
    ensures Usable(raw) - 1 <= At(f, run, n).target <= Usable(raw) + 1
  {
    hide Next, Valid, Est, Low, High, Distance, Usable;
    var g, s := At(f, run, n - 1), run[n - 1];
    StaysNear(f, run, raw, i, n);
    ChangesArePaid(f, run, n - 1);
    AtNext(f, run, n);
    StepKeeps(g, s);
    NearEst(g, s);
    if At(f, run, n).target == g.target {
      SuitsOnceSet(f, run, raw, i, n - 1);
    }
  }

  /**
   * The target follows a steady estimate: once `n * a` is the first distance, three more seconds
   * suffice for a target in whose band of a quarter the estimate lies, up to the rounding of one
   * sample, and it stays so.
   */
  lemma TargetSettles(f: RateFilter, run: seq<Sample>, raw: u32, a: real, n: nat, m: nat)
    requires Valid(f) && Constant(run, raw) && Heavy(run, a) && n <= m <= |run|
    requires n as real * a >= Distance(f, raw) && Elapsed(run, n, m) >= 3.0
    ensures !TooHigh(At(f, run, m).target, raw) && !TooLow(At(f, run, m).target, raw)
  {
    hide At, Valid, Distance, Elapsed, Usable;
    WithinOne(f, run, raw, a, n);
    var t := At(f, run, n).target;
    if exists k :: n <= k <= m && At(f, run, k).target != t {
      SuitsOnceSet(f, run, raw, n, m);
    } else {
      forall k | n <= k <= m
        ensures Distance(At(f, run, k), raw) <= 1.0
      {
        StaysNear(f, run, raw, n, k);
      }
      ChangesArePaid(f, run, m);
      ValidTimers(At(f, run, m));
      if TooHigh(t, raw) {
        HighTargetTimes(f, run, raw, n, m);
      } else if TooLow(t, raw) {
        LowTargetTimes(f, run, raw, n, m);
      }
    }
  }
}
