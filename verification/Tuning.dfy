/** The filter between bandwidth estimates and the encoder's target (native/crates/engine/src/tuning.rs). */
module Tuning {
  import opened Common

  const TARGET_BITRATE: nat := 8_000_000
  const MIN_BITRATE: nat := 500_000
  const DROP_HOLD_SECS: real := 3.0
  const RAISE_HOLD_SECS: real := 2.0

  type u32 = n: int | 0 <= n < 0x1_0000_0000

  function EncoderTarget(bwe: u32): nat {
    Min(Max(bwe, MIN_BITRATE), TARGET_BITRATE)
  }

  /** Rust's saturating `as u32`. */
  function AsU32(x: real): u32 {
    if x < 0.0 then 0
    else if x >= 4294967296.0 then 0xFFFF_FFFF
    else x.Floor
  }

  datatype RateFilter = RateFilter(target: nat, smoothed: real, below: real, above: real)

  function New(initial: u32): RateFilter {
    RateFilter(EncoderTarget(initial), EncoderTarget(initial) as real, 0.0, 0.0)
  }

  /** A weight of the newest sample: `1 - exp(-dt/tau)` lies in this range for every `dt`. */
  type Weight = w: real | 0.0 <= w < 1.0 witness 0.0

  datatype Sample = Sample(raw: u32, dt: real, alpha: Weight)

  function Clamped(dt: real): real {
    if dt < 0.0 then 0.0 else if dt > 5.0 then 5.0 else dt
  }

  function Share(w: real, d: real): real {
    w * d
  }

  function Smoothed(f: RateFilter, s: Sample): real {
    f.smoothed + Share(s.alpha, s.raw as real - f.smoothed)
  }

  /** The estimate the band is compared with. */
  function Est(f: RateFilter, s: Sample): nat {
    EncoderTarget(AsU32(Smoothed(f, s)))
  }

  predicate Low(f: RateFilter, s: Sample) {
    Est(f, s) as real < f.target as real * 0.75
  }

  predicate High(f: RateFilter, s: Sample) {
    Est(f, s) as real > f.target as real * 1.25
  }

  /** `next` */
  function Next(f: RateFilter, s: Sample): RateFilter {
    var dt := Clamped(s.dt);
    var est := Est(f, s);
    var below := if Low(f, s) then f.below + dt else 0.0;
    var above := if !Low(f, s) && High(f, s) then f.above + dt else 0.0;
    if below >= DROP_HOLD_SECS then RateFilter(est, Smoothed(f, s), 0.0, above)
    else if above >= RAISE_HOLD_SECS then RateFilter(est, Smoothed(f, s), below, 0.0)
    else RateFilter(f.target, Smoothed(f, s), below, above)
  }

  /** What every reachable state satisfies. */
  predicate Valid(f: RateFilter) {
    && MIN_BITRATE <= f.target <= TARGET_BITRATE
    && 0.0 <= f.below < DROP_HOLD_SECS
    && 0.0 <= f.above < RAISE_HOLD_SECS
    && (f.below == 0.0 || f.above == 0.0)
  }

  lemma NewIsValid(initial: u32)
    ensures Valid(New(initial))
  {
  }

  /**
   * One sample: the state stays reachable, a drop goes below three quarters and a raise
   * above five quarters of the old target, and the timers pay for the change.
   */
  lemma StepKeeps(f: RateFilter, s: Sample)
    requires Valid(f)
    ensures var g := Next(f, s);
            && Valid(g)
            && (g.target < f.target ==>
                  && Low(f, s) && g.target == Est(f, s) && g.target as real < 0.75 * f.target as real
                  && DROP_HOLD_SECS + g.below + g.above <= f.below + f.above + Clamped(s.dt))
            && (g.target > f.target ==>
                  && High(f, s) && g.target == Est(f, s) && g.target as real > 1.25 * f.target as real
                  && RAISE_HOLD_SECS + g.below + g.above <= f.below + f.above + Clamped(s.dt))
            && g.below + g.above <= f.below + f.above + Clamped(s.dt)
  {
    hide Share;
  }

  // ---- Runs --------------------------------------------------------------

  /** The state after the first `n` samples. */
  function At(f: RateFilter, run: seq<Sample>, n: nat): RateFilter
    requires n <= |run|
  {
    if n == 0 then f else Next(At(f, run, n - 1), run[n - 1])
  }

  function Elapsed(run: seq<Sample>, i: nat, n: nat): real
    requires i <= n <= |run|
  {
    if i == n then 0.0 else Elapsed(run, i, n - 1) + Clamped(run[n - 1].dt)
  }

  function Drops(f: RateFilter, run: seq<Sample>, n: nat): nat
    requires n <= |run|
  {
    if n == 0 then 0
    else Drops(f, run, n - 1) + if At(f, run, n).target < At(f, run, n - 1).target then 1 else 0
  }

  function Raises(f: RateFilter, run: seq<Sample>, n: nat): nat
    requires n <= |run|
  {
    if n == 0 then 0
    else Raises(f, run, n - 1) + if At(f, run, n).target > At(f, run, n - 1).target then 1 else 0
  }

  /**
   * Every drop costs three seconds and every raise two: together with what is on the timers
   * they never exceed the time that has passed.
   */
  lemma {:induction false} ChangesArePaid(f: RateFilter, run: seq<Sample>, n: nat)
    requires Valid(f) && n <= |run|
    ensures var g := At(f, run, n);
            && Valid(g)
            && 3.0 * Drops(f, run, n) as real + 2.0 * Raises(f, run, n) as real + g.below + g.above
               <= f.below + f.above + Elapsed(run, 0, n)
  {
    if n > 0 {
      hide Next, Valid, Low, High, Est;
      ChangesArePaid(f, run, n - 1);
      StepKeeps(At(f, run, n - 1), run[n - 1]);
    }
  }

  /** From sample `i` on, below the band of one and the same target. */
  ghost predicate LowSince(f: RateFilter, run: seq<Sample>, i: nat, n: nat)
    requires i <= n <= |run|
  {
    forall j :: i <= j < n ==> At(f, run, j).target == At(f, run, i).target && Low(At(f, run, j), run[j])
  }

  ghost predicate HighSince(f: RateFilter, run: seq<Sample>, i: nat, n: nat)
    requires i <= n <= |run|
  {
    forall j :: i <= j < n ==> At(f, run, j).target == At(f, run, i).target && High(At(f, run, j), run[j])
  }

  /** What the drop timer measures: the time of the unbroken stretch below the band. */
  lemma {:induction false} BelowMeasures(f: RateFilter, run: seq<Sample>, n: nat) returns (i: nat)
    requires Valid(f) && f.below == 0.0 && n <= |run|
    ensures i <= n && LowSince(f, run, i, n)
    ensures At(f, run, i).target == At(f, run, n).target && At(f, run, n).below == Elapsed(run, i, n)
  {
    hide Next, Low, Valid, At, LowSince;
    AtZero(f, run);
    i := n;
    LowSinceNow(f, run, n);
    if n > 0 {
      ChangesArePaid(f, run, n - 1);
      AtNext(f, run, n);
      NextTimers(At(f, run, n - 1), run[n - 1]);
      if At(f, run, n).below != 0.0 {
        i := BelowMeasures(f, run, n - 1);
        LowSinceMore(f, run, i, n);
      }
    }
  }

  /** What the raise timer measures: the time of the unbroken stretch above the band. */
  lemma {:induction false} AboveMeasures(f: RateFilter, run: seq<Sample>, n: nat) returns (i: nat)
    requires Valid(f) && f.above == 0.0 && n <= |run|
    ensures i <= n && HighSince(f, run, i, n)
    ensures At(f, run, i).target == At(f, run, n).target && At(f, run, n).above == Elapsed(run, i, n)
  {
    hide Next, High, Valid, At, HighSince;
    AtZero(f, run);
    i := n;
    LowSinceNow(f, run, n);
    if n > 0 {
      ChangesArePaid(f, run, n - 1);
      AtNext(f, run, n);
      NextTimers(At(f, run, n - 1), run[n - 1]);
      if At(f, run, n).above != 0.0 {
        i := AboveMeasures(f, run, n - 1);
        HighSinceMore(f, run, i, n);
      }
    }
  }

  lemma LowSinceNow(f: RateFilter, run: seq<Sample>, n: nat)
    requires n <= |run|
    ensures LowSince(f, run, n, n) && HighSince(f, run, n, n)
  {
  }

  lemma LowSinceMore(f: RateFilter, run: seq<Sample>, i: nat, n: nat)
    requires i < n <= |run| && LowSince(f, run, i, n - 1)
    requires At(f, run, n - 1).target == At(f, run, i).target && Low(At(f, run, n - 1), run[n - 1])
    ensures LowSince(f, run, i, n)
  {
    hide At, Low;
  }

  lemma HighSinceMore(f: RateFilter, run: seq<Sample>, i: nat, n: nat)
    requires i < n <= |run| && HighSince(f, run, i, n - 1)
    requires At(f, run, n - 1).target == At(f, run, i).target && High(At(f, run, n - 1), run[n - 1])
    ensures HighSince(f, run, i, n)
  {
    hide At, High;
  }

  lemma AtNext(f: RateFilter, run: seq<Sample>, n: nat)
    requires 0 < n <= |run|
    ensures At(f, run, n) == Next(At(f, run, n - 1), run[n - 1])
  {
  }

  lemma NextTimers(g: RateFilter, s: Sample)
    requires Valid(g)
    ensures var h := Next(g, s);
            && (h.below != 0.0 ==> Low(g, s) && h.target == g.target && h.below == g.below + Clamped(s.dt))
            && (h.above != 0.0 ==> High(g, s) && h.target == g.target && h.above == g.above + Clamped(s.dt))
  {
    hide Share;
  }

  /**
   * Every change comes at the end of an unbroken stretch outside the band of the old target
   * that lasted the whole hold window: three seconds below it, or two above it.
   */
  lemma ChangesPersisted(f: RateFilter, run: seq<Sample>, n: nat) returns (i: nat)
    requires Valid(f) && f.below == 0.0 && f.above == 0.0 && n < |run|
    requires At(f, run, n + 1).target != At(f, run, n).target
    ensures i <= n
    ensures At(f, run, n + 1).target < At(f, run, n).target ==>
              LowSince(f, run, i, n + 1) && Elapsed(run, i, n + 1) >= DROP_HOLD_SECS
    ensures At(f, run, n + 1).target > At(f, run, n).target ==>
              HighSince(f, run, i, n + 1) && Elapsed(run, i, n + 1) >= RAISE_HOLD_SECS
  {
    hide Next, Low, High, Valid, At, LowSince, HighSince;
    ChangesArePaid(f, run, n);
    AtNext(f, run, n + 1);
    var g, s := At(f, run, n), run[n];
    CommitTimers(g, s);
    if Next(g, s).target < g.target {
      i := BelowMeasures(f, run, n);
      LowSinceMore(f, run, i, n + 1);
    } else {
      i := AboveMeasures(f, run, n);
      HighSinceMore(f, run, i, n + 1);
    }
  }

  lemma CommitTimers(g: RateFilter, s: Sample)
    requires Valid(g)
    ensures var h := Next(g, s);
            && (h.target < g.target ==> Low(g, s) && g.below + Clamped(s.dt) >= DROP_HOLD_SECS)
            && (h.target > g.target ==> High(g, s) && g.above + Clamped(s.dt) >= RAISE_HOLD_SECS)
  {
    hide Share;
  }

  // ---- A constant estimate -----------------------------------------------

  predicate Constant(run: seq<Sample>, raw: u32) {
    forall j :: 0 <= j < |run| ==> run[j].raw == raw
  }

  /** The smoothed estimate moves towards the raw one and never past it. */
  lemma MovesTowards(f: RateFilter, s: Sample)
    ensures f.smoothed <= s.raw as real ==> f.smoothed <= Smoothed(f, s) <= s.raw as real
    ensures f.smoothed >= s.raw as real ==> f.smoothed >= Smoothed(f, s) >= s.raw as real
  {
    hide Share;
    Portion(s.alpha, s.raw as real - f.smoothed);
  }

  lemma Portion(a: real, d: real)
    requires 0.0 <= a <= 1.0
    ensures d >= 0.0 ==> 0.0 <= Share(a, d) <= d
    ensures d <= 0.0 ==> d <= Share(a, d) <= 0.0
  {
    var rest := 1.0 - a;
    assert rest * d == d - a * d;
    if d >= 0.0 {
      NotNegative(a, d);
      NotNegative(rest, d);
    } else {
      NotNegative(a, -d);
      NotNegative(rest, -d);
      assert a * -d == -(a * d) && rest * -d == -(rest * d);
    }
  }

  lemma NotNegative(a: real, d: real)
    requires a >= 0.0 && d >= 0.0
    ensures a * d >= 0.0
  {
  }

  lemma EstMonotone(x: real, y: real)
    requires x <= y
    ensures EncoderTarget(AsU32(x)) <= EncoderTarget(AsU32(y))
  {
    if 0.0 <= x && y < 4294967296.0 {
      assert (x.Floor as real) <= x <= y < (y.Floor + 1) as real;
    }
  }

  function Pow(q: real, n: nat): real {
    if n == 0 then 1.0 else q * Pow(q, n - 1)
  }

  lemma PowNext(q: real, n: nat)
    ensures Pow(q, n + 1) == q * Pow(q, n)
  {
  }

  lemma {:induction false} PowUp(n: nat)
    requires n >= 13
    ensures Pow(1.25, n) > 16.0
  {
    if n == 13 {
      assert Pow(1.25, 3) == 1.953125;
      assert Pow(1.25, 6) == 1.953125 * 1.953125;
      assert Pow(1.25, 9) > 7.45;
      assert Pow(1.25, 11) > 11.6;
    } else {
      PowUp(n - 1);
    }
  }

  lemma {:induction false} PowDown(n: nat)
    requires n >= 10
    ensures 0.0 < Pow(0.75, n) < 0.0625
  {
    if n == 10 {
      assert Pow(0.75, 3) == 0.421875;
      assert Pow(0.75, 6) == 0.421875 * 0.421875;
      assert Pow(0.75, 8) == 0.421875 * 0.421875 * 0.5625;
    } else {
      PowDown(n - 1);
    }
  }

  /** The target drops, if at all, as the very first change. */
  ghost predicate DropsFirst(f: RateFilter, run: seq<Sample>) {
    forall k: nat :: k < |run| && Drops(f, run, k) + Raises(f, run, k) > 0 ==> Drops(f, run, k + 1) == Drops(f, run, k)
  }

  /** The target rises, if at all, as the very first change. */
  ghost predicate RaisesFirst(f: RateFilter, run: seq<Sample>) {
    forall k: nat :: k < |run| && Drops(f, run, k) + Raises(f, run, k) > 0 ==>
      Raises(f, run, k + 1) == Raises(f, run, k)
  }

  /** The filter while the estimate rises: at most one drop, first of all, and each raise a quarter up. */
  lemma {:induction false} Rising(f: RateFilter, run: seq<Sample>, raw: u32, n: nat)
    requires Valid(f) && Constant(run, raw) && n <= |run| && f.smoothed <= raw as real
    ensures var g := At(f, run, n);
            && Valid(g) && g.smoothed <= raw as real
            && Drops(f, run, n) <= 1
            && (Drops(f, run, n) + Raises(f, run, n) > 0 ==> g.target <= EncoderTarget(AsU32(g.smoothed)))
            && 500_000.0 * Pow(1.25, Raises(f, run, n)) <= g.target as real
    ensures n > 0 && Drops(f, run, n - 1) + Raises(f, run, n - 1) > 0 ==> Drops(f, run, n) == Drops(f, run, n - 1)
  {
    if n > 0 {
      hide Valid, At, EncoderTarget, AsU32, Smoothed, Next, Low, High, Est, Pow, Clamped;
      Rising(f, run, raw, n - 1);
      var g, s := At(f, run, n - 1), run[n - 1];
      AtNext(f, run, n);
      TargetFollows(g, s);
      MovesTowards(g, s);
      EstMonotone(g.smoothed, Smoothed(g, s));
      PowNext(1.25, Raises(f, run, n - 1));
    }
  }

  /** The target against the smoothed estimate, over one sample. */
  lemma TargetFollows(g: RateFilter, s: Sample)
    requires Valid(g)
    ensures var h := Next(g, s);
            && Valid(h) && h.smoothed == Smoothed(g, s)
            && (h.target != g.target ==> h.target == EncoderTarget(AsU32(h.smoothed)))
            && (h.target > g.target ==> h.target as real > 1.25 * g.target as real)
            && (h.target < g.target ==> h.target as real < 0.75 * g.target as real)
  {
    hide Smoothed, AsU32;
    StepKeeps(g, s);
  }

  /** The mirror image: while the estimate falls, at most one raise, first of all. */
  lemma {:induction false} Falling(f: RateFilter, run: seq<Sample>, raw: u32, n: nat)
    requires Valid(f) && Constant(run, raw) && n <= |run| && f.smoothed >= raw as real
    ensures var g := At(f, run, n);
            && Valid(g) && g.smoothed >= raw as real
            && Raises(f, run, n) <= 1
            && (Drops(f, run, n) + Raises(f, run, n) > 0 ==> g.target >= EncoderTarget(AsU32(g.smoothed)))
            && 8_000_000.0 * Pow(0.75, Drops(f, run, n)) >= g.target as real
    ensures n > 0 && Drops(f, run, n - 1) + Raises(f, run, n - 1) > 0 ==> Raises(f, run, n) == Raises(f, run, n - 1)
  {
    if n > 0 {
      hide Valid, At, EncoderTarget, AsU32, Smoothed, Next, Low, High, Est, Pow, Clamped;
      Falling(f, run, raw, n - 1);
      var g, s := At(f, run, n - 1), run[n - 1];
      AtNext(f, run, n);
      TargetFollows(g, s);
      MovesTowards(g, s);
      EstMonotone(Smoothed(g, s), g.smoothed);
      PowNext(0.75, Drops(f, run, n - 1));
    }
  }

  /**
   * Under a constant raw estimate the target changes at most 13 times, however long the run: at
   * most once against the direction in which the estimate moves, before everything else, and then
   * at most 12 times up or 9 times down.
   */
  lemma ConstantSettles(f: RateFilter, run: seq<Sample>, raw: u32)
    requires Valid(f) && Constant(run, raw)
    ensures var drops, raises := Drops(f, run, |run|), Raises(f, run, |run|);
            && (f.smoothed <= raw as real ==> drops <= 1 && raises <= 12 && DropsFirst(f, run))
            && (f.smoothed >= raw as real ==> raises <= 1 && drops <= 9 && RaisesFirst(f, run))
            && drops + raises <= 13
  {
    hide At, Next, Pow, Drops, Raises;
    var n := |run|;
    if f.smoothed <= raw as real {
      Rising(f, run, raw, n);
      if Raises(f, run, n) >= 13 {
        PowUp(Raises(f, run, n));
      }
      forall k: nat | k < n && Drops(f, run, k) + Raises(f, run, k) > 0
        ensures Drops(f, run, k + 1) == Drops(f, run, k)
      {
        Rising(f, run, raw, k + 1);
      }
    }
    if f.smoothed >= raw as real {
      Falling(f, run, raw, n);
      if Drops(f, run, n) >= 10 {
        PowDown(Drops(f, run, n));
      }
      forall k: nat | k < n && Drops(f, run, k) + Raises(f, run, k) > 0
        ensures Raises(f, run, k + 1) == Raises(f, run, k)
      {
        Falling(f, run, raw, k + 1);
      }
    }
  }

  /**
   * Once a rising estimate is above the band it stays above it as long as the target stands,
   * and the target cannot stand for the whole hold window.
   */
  lemma {:induction false} RaiseFollows(f: RateFilter, run: seq<Sample>, raw: u32, n: nat)
    requires Valid(f) && Constant(run, raw) && 0 < n <= |run| && f.smoothed <= raw as real
    requires High(f, run[0])
    requires forall j :: 0 <= j <= n ==> At(f, run, j).target == f.target
    ensures HighSince(f, run, 0, n)
    ensures At(f, run, n).above >= Elapsed(run, 0, n) && Elapsed(run, 0, n) < RAISE_HOLD_SECS
  {
    hide At, EncoderTarget, AsU32, Smoothed, Valid, Elapsed;
    assert At(f, run, 0) == f && Elapsed(run, 0, 0) == 0.0 by {
      AtZero(f, run);
    }
    if n > 1 {
      RaiseFollows(f, run, raw, n - 1);
    }
    Rising(f, run, raw, n - 1);
    var g, s := At(f, run, n - 1), run[n - 1];
    AtNext(f, run, n);
    if n > 1 {
      var g0, s0 := At(f, run, n - 2), run[n - 2];
      AtNext(f, run, n - 1);
      RisingStep0(g0, s0);
      MovesTowards(g, s);
      EstMonotone(g.smoothed, Smoothed(g, s));
    }
    assert High(g, s);
    HighAccumulates(g, s);
    assert Elapsed(run, 0, n) == Elapsed(run, 0, n - 1) + Clamped(s.dt) by {
      ElapsedNext(run, n);
    }
    Rising(f, run, raw, n);
  }

  /**
   * Once a falling estimate is below the band it stays below it as long as the target stands,
   * and the target cannot stand for the whole hold window.
   */
  lemma {:induction false} DropFollows(f: RateFilter, run: seq<Sample>, raw: u32, n: nat)
    requires Valid(f) && Constant(run, raw) && 0 < n <= |run| && f.smoothed >= raw as real
    requires Low(f, run[0])
    requires forall j :: 0 <= j <= n ==> At(f, run, j).target == f.target
    ensures LowSince(f, run, 0, n)
    ensures At(f, run, n).below >= Elapsed(run, 0, n) && Elapsed(run, 0, n) < DROP_HOLD_SECS
  {
    hide At, EncoderTarget, AsU32, Smoothed, Valid, Elapsed;
    assert At(f, run, 0) == f && Elapsed(run, 0, 0) == 0.0 by {
      AtZero(f, run);
    }
    if n > 1 {
      DropFollows(f, run, raw, n - 1);
    }
    Falling(f, run, raw, n - 1);
    var g, s := At(f, run, n - 1), run[n - 1];
    AtNext(f, run, n);
    if n > 1 {
      var g0, s0 := At(f, run, n - 2), run[n - 2];
      AtNext(f, run, n - 1);
      RisingStep0(g0, s0);
      MovesTowards(g, s);
      EstMonotone(Smoothed(g, s), g.smoothed);
    }
    assert Low(g, s);
    LowAccumulates(g, s);
    assert Elapsed(run, 0, n) == Elapsed(run, 0, n - 1) + Clamped(s.dt) by {
      ElapsedNext(run, n);
    }
    Falling(f, run, raw, n);
  }

  lemma AtZero(f: RateFilter, run: seq<Sample>)
    ensures At(f, run, 0) == f && Elapsed(run, 0, 0) == 0.0
  {
  }

  lemma ElapsedNext(run: seq<Sample>, n: nat)
    requires 0 < n <= |run|
    ensures Elapsed(run, 0, n) == Elapsed(run, 0, n - 1) + Clamped(run[n - 1].dt)
  {
  }

  lemma RisingStep0(g: RateFilter, s: Sample)
    ensures Next(g, s).smoothed == Smoothed(g, s)
  {
  }

  lemma HighAccumulates(g: RateFilter, s: Sample)
    requires Valid(g) && High(g, s) && Next(g, s).target == g.target
    ensures Next(g, s).above == g.above + Clamped(s.dt) < RAISE_HOLD_SECS && g.above >= 0.0
  {
  }

  lemma LowAccumulates(g: RateFilter, s: Sample)
    requires Valid(g) && Low(g, s) && Next(g, s).target == g.target
    ensures Next(g, s).below == g.below + Clamped(s.dt) < DROP_HOLD_SECS && g.below >= 0.0
  {
  }
}
