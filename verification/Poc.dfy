/** Picture order counts from their low bits (native/crates/codec-goldens/src/nal.rs). */
module Poc {
  import opened Common

  datatype PocState = PocState(prevMsb: int, prevLsb: int)

  const START := PocState(0, 0)

  /** The msb of a picture with `lsb`, given the one it is derived from. */
  function Msb(s: PocState, lsb: int, max: int): int {
    if lsb < s.prevLsb && s.prevLsb - lsb >= max / 2 then s.prevMsb + max
    else if lsb > s.prevLsb && lsb - s.prevLsb > max / 2 then s.prevMsb - max
    else s.prevMsb
  }

  /** The state after a picture and the picture's order count. */
  function Next(s: PocState, lsb: int, max: int, reset: bool, anchor: bool): (PocState, int) {
    var from := if reset then START else s;
    var msb := Msb(from, lsb, max);
    (if anchor || reset then PocState(msb, lsb) else from, msb + lsb)
  }

  class PocTracker {
    var prevMsb: int
    var prevLsb: int

    function State(): PocState
      reads this
    {
      PocState(prevMsb, prevLsb)
    }

    constructor ()
      ensures State() == START
    {
      prevMsb, prevLsb := 0, 0;
    }

    method Poc(lsb: nat, maxLsb: nat, reset: bool, anchor: bool) returns (poc: int)
      modifies this
      ensures (State(), poc) == Next(old(State()), lsb, maxLsb, reset, anchor)
    {
      if reset {
        prevMsb := 0;
        prevLsb := 0;
      }
      var msb := prevMsb;
      if lsb < prevLsb && prevLsb - lsb >= maxLsb / 2 {
        msb := prevMsb + maxLsb;
      } else if lsb > prevLsb && lsb - prevLsb > maxLsb / 2 {
        msb := prevMsb - maxLsb;
      }
      if anchor || reset {
        prevMsb := msb;
        prevLsb := lsb;
      }
      poc := msb + lsb;
    }
  }

  // ---- Runs --------------------------------------------------------------

  /** A coded picture: its true order count, of which the header carries `poc % max`. */
  datatype Pic = Pic(poc: int, max: nat, reset: bool, anchor: bool)

  /** `max` is even and changes only at a reset. */
  predicate Coded(pics: seq<Pic>, max: nat) {
    pics == [] ||
    (pics[0].max > 0 && pics[0].max % 2 == 0 && (pics[0].reset || pics[0].max == max) && Coded(pics[1..], pics[0].max))
  }

  /** What the tracker returns, picture by picture. */
  function Tracked(s: PocState, pics: seq<Pic>): seq<int>
    requires forall k :: 0 <= k < |pics| ==> pics[k].max > 0
    decreases pics
  {
    if pics == [] then []
    else
      var p := pics[0];
      var (s, poc) := Next(s, p.poc % p.max, p.max, p.reset, p.anchor);
      [poc] + Tracked(s, pics[1..])
  }

  function Truth(pics: seq<Pic>): seq<int> {
    if pics == [] then [] else [pics[0].poc] + Truth(pics[1..])
  }

  /** The picture lies within half a period of `base`: in (base - max/2, base + max/2]. */
  predicate Near(poc: int, base: int, max: int) {
    -max < 2 * (poc - base) <= max
  }

  /** Every picture is near its latest anchor, 0 at a reset. */
  predicate AllNear(pics: seq<Pic>, anchor: int) {
    pics == [] ||
    var p := pics[0];
    var base := if p.reset then 0 else anchor;
    Near(p.poc, base, p.max) && AllNear(pics[1..], if p.anchor || p.reset then p.poc else base)
  }

  /** The state holds `anchor`, split at multiples of `max`. */
  predicate Holds(s: PocState, anchor: int, max: nat)
    requires max > 0
  {
    s.prevMsb + s.prevLsb == anchor && s.prevLsb == anchor % max
  }

  lemma DivModOfInt(n: int, d: nat)
    requires d > 0
    ensures n == d * (n / d) + n % d
  {
  }

  /** From the right anchor, a picture is reconstructed exactly when it is near it. */
  lemma StepExact(s: PocState, anchor: int, poc: int, max: nat)
    requires max > 0 && max % 2 == 0 && Holds(s, anchor, max)
    ensures Msb(s, poc % max, max) + poc % max == poc <==> Near(poc, anchor, max)
  {
    var k := poc / max - anchor / max;
    DivModOfInt(poc, max);
    DivModOfInt(anchor, max);
    Multiples(max, k);
    assert max * (poc / max) == max * (anchor / max) + max * k;
    NearByParts(poc % max, anchor % max, max, k, max * k);
  }

  /** How the multiples of a period lie. */
  lemma Multiples(max: int, k: int)
    requires max > 0
    ensures k == 0 ==> max * k == 0
    ensures k == 1 ==> max * k == max
    ensures k == -1 ==> max * k == -max
    ensures k >= 2 ==> max * k >= 2 * max
    ensures k <= -2 ==> max * k <= -2 * max
  {
  }

  /** For a picture `k` periods above its anchor: the reconstructed msb is `k` periods up
      exactly when the distance `m + lsb - prev` is near. */
  lemma NearByParts(lsb: int, prev: int, max: int, k: int, m: int)
    requires 0 <= lsb < max && 0 <= prev < max && max % 2 == 0
    requires k == 0 ==> m == 0
    requires k == 1 ==> m == max
    requires k == -1 ==> m == -max
    requires k >= 2 ==> m >= 2 * max
    requires k <= -2 ==> m <= -2 * max
    ensures Msb(PocState(0, prev), lsb, max) == m <==> -max < 2 * (m + lsb - prev) <= max
  {
  }

  /** The tracker returns every true count of a run exactly when every picture is near
      its anchor, over any number of wraps and resets. */
  lemma {:induction false} TrackedExact(s: PocState, anchor: int, max: nat, pics: seq<Pic>)
    requires Coded(pics, max) && forall k :: 0 <= k < |pics| ==> pics[k].max > 0
    requires max > 0 && Holds(s, anchor, max)
    ensures Tracked(s, pics) == Truth(pics) <==> AllNear(pics, anchor)
    decreases pics
  {
    if pics != [] {
      var p := pics[0];
      var from := if p.reset then START else s;
      var base := if p.reset then 0 else anchor;
      StepExact(from, base, p.poc, p.max);
      var next := Next(s, p.poc % p.max, p.max, p.reset, p.anchor);
      if next.1 == p.poc {
        TrackedExact(next.0, if p.anchor || p.reset then p.poc else base, p.max, pics[1..]);
        assert Tracked(s, pics)[1..] == Tracked(next.0, pics[1..]);
        assert Truth(pics)[1..] == Truth(pics[1..]);
      } else {
        assert Tracked(s, pics)[0] != Truth(pics)[0];
      }
    }
  }

  /** A fresh tracker: the first picture counts from 0, reset or not. */
  lemma FreshTrackerExact(pics: seq<Pic>, max: nat)
    requires max > 0 && Coded(pics, max) && forall k :: 0 <= k < |pics| ==> pics[k].max > 0
    ensures Tracked(START, pics) == Truth(pics) <==> AllNear(pics, 0)
  {
    TrackedExact(START, 0, max, pics);
  }
}
