/** What the order rule of the stream checker means (native/crates/codec-goldens/src/shape.rs). */
module ShapeOrder {
  import opened Common
  import opened Headers
  import opened Poc
  import opened Shape
  import AnnexB

  // ---- Pictures and their order counts -----------------------------------

  /** Every slice starts a picture. */
  predicate Leading(pics: seq<SliceInfo>) {
    forall k :: 0 <= k < |pics| ==> pics[k].firstInPicture
  }

  /** The tracker's state behind the first `n` pictures; one without a POC lsb leaves it alone. */
  function StateAfter(s: PocState, pics: seq<SliceInfo>, n: nat): PocState
    requires n <= |pics|
  {
    if n == 0 then s
    else
      var before := StateAfter(s, pics, n - 1);
      if pics[n - 1].pocLsb.Some? then PocOf(before, pics[n - 1]).0 else before
  }

  /** The POC the tracker gives picture `k`, if it carries a lsb. */
  function PocAt(s: PocState, pics: seq<SliceInfo>, k: nat): Option<int>
    requires k < |pics|
  {
    if pics[k].pocLsb.Some? then Some(PocOf(StateAfter(s, pics, k), pics[k]).1) else None
  }

  function Shown(s: PocState, pics: seq<SliceInfo>): (pocs: seq<Option<int>>)
    ensures |pocs| == |pics|
  {
    seq(|pics|, k requires 0 <= k < |pics| => PocAt(s, pics, k))
  }

  /** An IDR, with or without a POC lsb, behind picture `a` and up to picture `b`. */
  predicate IdrWithin(pics: seq<SliceInfo>, a: nat, b: nat)
    requires b < |pics|
  {
    exists c :: a < c <= b && pics[c].idr
  }

  predicate Below(pocs: seq<Option<int>>, a: nat, b: nat)
    requires a < |pocs| && b < |pocs|
  {
    pocs[a].Some? && pocs[b].Some? ==> pocs[a].value < pocs[b].value
  }

  /** The promise, for the first `n` pictures: from one IDR to the next, every POC is above all earlier ones. */
  predicate Rises(pics: seq<SliceInfo>, pocs: seq<Option<int>>, n: nat)
    requires n <= |pics| == |pocs|
  {
    forall a: nat, b: nat :: a < b < n && !IdrWithin(pics, a, b) ==> Below(pocs, a, b)
  }

  /** No picture with a POC stands between `a` and `b`. */
  predicate Neighbours(pocs: seq<Option<int>>, a: nat, b: nat)
    requires b <= |pocs|
  {
    forall c :: a < c < b ==> pocs[c].None?
  }

  /** What the rule asks on top: across an IDR without a lsb, the next POC is above the last one. */
  predicate Bridges(pics: seq<SliceInfo>, pocs: seq<Option<int>>, n: nat)
    requires n <= |pics| == |pocs|
  {
    forall a: nat, b: nat ::
      a < b < n && IdrWithin(pics, a, b) && !pics[b].idr && Neighbours(pocs, a, b) ==> Below(pocs, a, b)
  }

  /** The last POC among the first `n` pictures. */
  function LastPoc(pocs: seq<Option<int>>, n: nat): Option<int>
    requires n <= |pocs|
  {
    if n == 0 then None else if pocs[n - 1].Some? then pocs[n - 1] else LastPoc(pocs, n - 1)
  }

  lemma {:induction false} LastPocAt(pocs: seq<Option<int>>, n: nat) returns (i: nat)
    requires n <= |pocs|
    ensures LastPoc(pocs, n).Some? ==> i < n && pocs[i] == LastPoc(pocs, n) && Neighbours(pocs, i, n)
    ensures LastPoc(pocs, n).None? ==> forall c :: 0 <= c < n ==> pocs[c].None?
  {
    i := 0;
    if n > 0 {
      if pocs[n - 1].Some? {
        i := n - 1;
      } else {
        i := LastPocAt(pocs, n - 1);
      }
    }
  }

  // ---- The rule, exactly -------------------------------------------------

  /** Whether picture `n` is above the last POC before it: all that the rule compares. */
  predicate AboveLast(pics: seq<SliceInfo>, pocs: seq<Option<int>>, n: nat)
    requires n < |pics| == |pocs|
  {
    pocs[n].Some? && !pics[n].idr && LastPoc(pocs, n).Some? ==> LastPoc(pocs, n).value < pocs[n].value
  }

  /** One comparison a picture decides both conditions. */
  lemma OneComparison(pics: seq<SliceInfo>, pocs: seq<Option<int>>, n: nat)
    requires n < |pics| == |pocs|
    ensures Rises(pics, pocs, n + 1) && Bridges(pics, pocs, n + 1) <==>
            Rises(pics, pocs, n) && Bridges(pics, pocs, n) && AboveLast(pics, pocs, n)
  {
    var i := LastPocAt(pocs, n);
    if pocs[n].Some? && !pics[n].idr && LastPoc(pocs, n).Some? {
      if Rises(pics, pocs, n) && Bridges(pics, pocs, n) && AboveLast(pics, pocs, n) {
        forall a: nat, b: nat | a < b < n + 1 && !IdrWithin(pics, a, b)
          ensures Below(pocs, a, b)
        {
          if b == n && a < i {
            assert Below(pocs, a, i);
          }
        }
      }
      if Rises(pics, pocs, n + 1) && Bridges(pics, pocs, n + 1) {
        assert Below(pocs, i, n);
      }
    }
  }

  /**
   * The rule accepts exactly the runs that keep the promise and, besides, keep rising across
   * every IDR that carries no POC lsb.
   */
  lemma {:induction false} OrderExact(s: PocState, pics: seq<SliceInfo>, n: nat)
    requires Leading(pics) && n <= |pics|
    ensures var order, pocs := OrderOf(s, None, Timed(pics[..n])), Shown(s, pics);
            && order.poc == StateAfter(s, pics, n) && order.last == LastPoc(pocs, n)
            && (order.rising <==> Rises(pics, pocs, n) && Bridges(pics, pocs, n))
  {
    hide PocOf, Rises, Bridges, OrderOf, Timed;
    var pocs := Shown(s, pics);
    if n == 0 {
      NothingRises(s, pics, pocs);
    } else {
      var m := n - 1;
      OrderExact(s, pics, m);
      OneComparison(pics, pocs, m);
      assert pics[..n] == pics[..m] + [pics[m]];
      TimedAppend(pics[..m], pics[m]);
      if pics[m].pocLsb.Some? {
        OrderAppend(s, None, Timed(pics[..m]), pics[m]);
      }
    }
  }

  lemma NothingRises(s: PocState, pics: seq<SliceInfo>, pocs: seq<Option<int>>)
    requires |pocs| == |pics|
    ensures OrderOf(s, None, Timed(pics[..0])) == Order(s, None, true)
    ensures Rises(pics, pocs, 0) && Bridges(pics, pocs, 0)
  {
  }

  /** Every IDR carries a POC lsb. */
  predicate IdrsTimed(pics: seq<SliceInfo>) {
    forall k :: 0 <= k < |pics| && pics[k].idr ==> pics[k].pocLsb.Some?
  }

  /** When every IDR carries a lsb the rule is the promise, and it never accepts less than the promise. */
  lemma RuleKeepsPromise(s: PocState, pics: seq<SliceInfo>)
    requires Leading(pics)
    ensures var rising, pocs := OrderOf(s, None, Timed(pics)).rising, Shown(s, pics);
            && (rising ==> Rises(pics, pocs, |pics|))
            && (IdrsTimed(pics) ==> (rising <==> Rises(pics, pocs, |pics|)))
  {
    hide OrderOf, Timed, Rises;
    assert pics[..|pics|] == pics;
    OrderExact(s, pics, |pics|);
    if IdrsTimed(pics) {
      TimedBridges(s, pics);
    }
  }

  lemma TimedBridges(s: PocState, pics: seq<SliceInfo>)
    requires IdrsTimed(pics)
    ensures Bridges(pics, Shown(s, pics), |pics|)
  {
    hide PocOf;
    var pocs := Shown(s, pics);
    forall a: nat, b: nat | a < b < |pics| && IdrWithin(pics, a, b) && !pics[b].idr
      ensures !Neighbours(pocs, a, b)
    {
      var c :| a < c <= b && pics[c].idr;
      assert pocs[c].Some?;
    }
  }

  function Untimed(): SliceInfo {
    SliceInfo(Some(I), true, None, 1, true, true)
  }

  function Inter(lsb: nat): SliceInfo {
    SliceInfo(Some(P), true, Some(lsb), 64, false, true)
  }

  /** A picture with POC 10, an IDR without a POC lsb, a picture with POC 4: the promise holds, the rule refuses. */
  lemma UntimedIdrDoesNotRestart()
    ensures var pics := [Inter(10), Untimed(), Inter(4)];
            && Leading(pics) && Rises(pics, Shown(START, pics), 3)
            && !OrderOf(START, None, Timed(pics)).rising
  {
    var pics := [Inter(10), Untimed(), Inter(4)];
    var pocs := Shown(START, pics);
    assert StateAfter(START, pics, 1) == PocState(0, 10) == StateAfter(START, pics, 2);
    assert pocs[0] == Some(10) && pocs[1] == None && pocs[2] == Some(4);
    assert pics[1].idr;
    assert IdrWithin(pics, 0, 1) && IdrWithin(pics, 0, 2);
    assert Neighbours(pocs, 0, 2) && !Below(pocs, 0, 2);
    assert Rises(pics, pocs, 3) && !Bridges(pics, pocs, 3);
    assert pics[..3] == pics;
    OrderExact(START, pics, 3);
  }

  // ---- Whole streams -----------------------------------------------------

  /** The slices that start a picture, with a POC lsb or without. */
  function Firsts(slices: seq<SliceInfo>): (r: seq<SliceInfo>)
    ensures Leading(r)
  {
    if slices == [] then []
    else
      var x := slices[|slices| - 1];
      var front := Firsts(slices[..|slices| - 1]);
      if x.firstInPicture then front + [x] else front
  }

  /** All pictures of a stream. */
  function AllPictures(codec: Codec, aus: seq<Au>): (r: seq<SliceInfo>)
    ensures Leading(r)
  {
    if aus == [] then []
    else
      var m := |aus| - 1;
      AllPictures(codec, aus[..m]) +
      Firsts(ScanOf(codec, PlaceAfter(codec, aus[..m]).tables, AnnexB.Split(aus[m].0)).slices)
  }

  lemma {:induction false} TimedFirsts(slices: seq<SliceInfo>)
    ensures Timed(Firsts(slices)) == Timed(slices)
  {
    if slices != [] {
      var m := |slices| - 1;
      TimedFirsts(slices[..m]);
      TimedAppend(Firsts(slices[..m]), slices[m]);
    }
  }

  lemma {:induction false} TimedConcat(a: seq<SliceInfo>, b: seq<SliceInfo>)
    ensures Timed(a + b) == Timed(a) + Timed(b)
  {
    if b == [] {
      assert a + b == a && Timed(b) == [];
    } else {
      hide Timed;
      var m := |b| - 1;
      TimedConcat(a, b[..m]);
      assert a + b == (a + b[..m]) + [b[m]] && b == b[..m] + [b[m]];
      TimedAppend(a + b[..m], b[m]);
      TimedAppend(b[..m], b[m]);
    }
  }

  lemma {:induction false} OrderConcat(s: PocState, last: Option<int>, a: seq<SliceInfo>, b: seq<SliceInfo>)
    requires forall k :: 0 <= k < |a| ==> a[k].pocLsb.Some?
    requires forall k :: 0 <= k < |b| ==> b[k].pocLsb.Some?
    ensures var x := OrderOf(s, last, a);
            var y := OrderOf(x.poc, x.last, b);
            OrderOf(s, last, a + b) == Order(y.poc, y.last, x.rising && y.rising)
  {
    hide PocOf;
    if b == [] {
      assert a + b == a;
    } else {
      var m := |b| - 1;
      OrderConcat(s, last, a, b[..m]);
      assert a + b == (a + b[..m]) + [b[m]];
      OrderAppend(s, last, a + b[..m], b[m]);
    }
  }

  /** No access unit breaks the order rule. */
  predicate InOrder(codec: Codec, aus: seq<Au>, n: nat)
    requires n <= |aus|
  {
    forall i :: 0 <= i < n ==> Obeys(NoReordering, codec, PlaceAfter(codec, aus[..i]), i, aus[i])
  }

  /** The slices of access unit `m`. */
  function SlicesOf(codec: Codec, aus: seq<Au>, m: nat): seq<SliceInfo>
    requires m < |aus|
  {
    ScanOf(codec, PlaceAfter(codec, aus[..m]).tables, AnnexB.Split(aus[m].0)).slices
  }

  /** One access unit more: its pictures, the place behind it, and whether it breaks the order rule. */
  lemma StreamStep(codec: Codec, aus: seq<Au>, m: nat)
    requires m < |aus|
    ensures AllPictures(codec, aus[..m + 1]) == AllPictures(codec, aus[..m]) + Firsts(SlicesOf(codec, aus, m))
    ensures var place := PlaceAfter(codec, aus[..m]);
            var order := OrderOf(place.poc, place.last, Timed(SlicesOf(codec, aus, m)));
            && PlaceAfter(codec, aus[..m + 1]).poc == order.poc && PlaceAfter(codec, aus[..m + 1]).last == order.last
            && (InOrder(codec, aus, m + 1) <==> InOrder(codec, aus, m) && order.rising)
  {
    hide ScanOf, Timed, OrderOf, Firsts, AnnexB.Split;
    assert aus[..m + 1][..m] == aus[..m] && aus[..m + 1][m] == aus[m];
    hide PlaceAfter, AllPictures;
    assert Obeys(NoReordering, codec, PlaceAfter(codec, aus[..m]), m, aus[m]) <==>
           OrderOf(PlaceAfter(codec, aus[..m]).poc, PlaceAfter(codec, aus[..m]).last,
                   Timed(SlicesOf(codec, aus, m))).rising;
    InOrderMore(codec, aus, m);
  }

  lemma InOrderMore(codec: Codec, aus: seq<Au>, m: nat)
    requires m < |aus|
    ensures InOrder(codec, aus, m + 1) <==>
            InOrder(codec, aus, m) && Obeys(NoReordering, codec, PlaceAfter(codec, aus[..m]), m, aus[m])
  {
    hide PlaceAfter, Obeys;
  }

  lemma {:induction false} StreamOrder(codec: Codec, aus: seq<Au>, n: nat)
    requires n <= |aus|
    ensures var order, place := OrderOf(START, None, Timed(AllPictures(codec, aus[..n]))), PlaceAfter(codec, aus[..n]);
            && order.poc == place.poc && order.last == place.last
            && (order.rising <==> InOrder(codec, aus, n))
  {
    if n == 0 {
      assert aus[..0] == [];
      NothingRises(START, [], []);
    } else {
      hide Timed, OrderOf, Firsts, InOrder, PlaceAfter, AllPictures, SlicesOf;
      var m := n - 1;
      StreamOrder(codec, aus, m);
      StreamStep(codec, aus, m);
      var slices := SlicesOf(codec, aus, m);
      TimedFirsts(slices);
      TimedConcat(AllPictures(codec, aus[..m]), Firsts(slices));
      OrderConcat(START, None, Timed(AllPictures(codec, aus[..m])), Timed(slices));
    }
  }

  /**
   * Over a whole stream: no access unit breaks the order rule exactly when the pictures, taken
   * together, keep the promise and keep rising across every IDR without a POC lsb.
   */
  lemma StreamOrderExact(codec: Codec, aus: seq<Au>)
    ensures var pics := AllPictures(codec, aus);
            var pocs := Shown(START, pics);
            && (InOrder(codec, aus, |aus|) <==> Rises(pics, pocs, |pics|) && Bridges(pics, pocs, |pics|))
            && (IdrsTimed(pics) ==> (InOrder(codec, aus, |aus|) <==> Rises(pics, pocs, |pics|)))
  {
    hide Timed, OrderOf, AllPictures, InOrder, Rises, Bridges, IdrsTimed;
    var pics := AllPictures(codec, aus);
    assert aus[..|aus|] == aus && pics[..|pics|] == pics;
    StreamOrder(codec, aus, |aus|);
    OrderExact(START, pics, |pics|);
    RuleKeepsPromise(START, pics);
  }

  /** An accepted stream shows its pictures in decode order, from every IDR to the next. */
  lemma AcceptedInOrder(codec: Codec, aus: seq<Au>)
    requires AllConform(codec, aus, |aus|)
    ensures var pics := AllPictures(codec, aus); Rises(pics, Shown(START, pics), |pics|)
  {
    hide AllPictures, Rises, Bridges, Shown;
    StreamOrderExact(codec, aus);
    ConformsInOrder(codec, aus);
  }

  lemma ConformsInOrder(codec: Codec, aus: seq<Au>)
    requires AllConform(codec, aus, |aus|)
    ensures InOrder(codec, aus, |aus|)
  {
    hide Obeys, PlaceAfter;
  }

  // ---- True order counts -------------------------------------------------

  /** The pictures are those of `truth`, each carrying its POC modulo its own period. */
  predicate Carries(pics: seq<SliceInfo>, truth: seq<Pic>) {
    && |pics| == |truth| && Leading(pics)
    && forall k :: 0 <= k < |pics| ==>
         && truth[k].max > 0 && pics[k].pocLsb == Some(truth[k].poc % truth[k].max)
         && pics[k].maxPocLsb == truth[k].max && pics[k].idr == truth[k].reset && pics[k].pocAnchor == truth[k].anchor
  }

  function Somes(pocs: seq<int>): (r: seq<Option<int>>)
    ensures |r| == |pocs|
  {
    seq(|pocs|, k requires 0 <= k < |pocs| => Some(pocs[k]))
  }

  lemma {:induction false} StateAfterTail(s: PocState, pics: seq<SliceInfo>, n: nat)
    requires 0 < n <= |pics| && pics[0].pocLsb.Some?
    ensures StateAfter(s, pics, n) == StateAfter(PocOf(s, pics[0]).0, pics[1..], n - 1)
  {
    hide PocOf;
    if n > 1 {
      StateAfterTail(s, pics, n - 1);
    }
  }

  /** The checker's POCs are what the tracker returns. */
  lemma {:induction false} PocsAreTracked(s: PocState, pics: seq<SliceInfo>, truth: seq<Pic>)
    requires Carries(pics, truth)
    ensures Shown(s, pics) == Somes(Tracked(s, truth))
    decreases |pics|
  {
    hide Next;
    if pics != [] {
      var next := PocOf(s, pics[0]);
      PocsAreTracked(next.0, pics[1..], truth[1..]);
      forall k | 0 <= k < |pics|
        ensures Shown(s, pics)[k] == Somes(Tracked(s, truth))[k]
      {
        if k > 0 {
          StateAfterTail(s, pics, k);
          assert Shown(next.0, pics[1..])[k - 1] == Somes(Tracked(next.0, truth[1..]))[k - 1];
        }
      }
    }
  }

  /**
   * When every picture is near its anchor the rule compares true order counts: it refuses exactly
   * the runs in which a picture is shown before one decoded earlier.
   */
  lemma OrderRuleIsTrueOrder(pics: seq<SliceInfo>, truth: seq<Pic>, max: nat)
    requires Carries(pics, truth) && max > 0 && Coded(truth, max) && AllNear(truth, 0)
    ensures |Truth(truth)| == |pics|
    ensures OrderOf(START, None, Timed(pics)).rising <==> Rises(pics, Somes(Truth(truth)), |pics|)
  {
    hide OrderOf, Rises, Coded, AllNear, Tracked, Timed, Shown;
    PocsAreTracked(START, pics, truth);
    FreshTrackerExact(truth, max);
    RuleKeepsPromise(START, pics);
  }
}
