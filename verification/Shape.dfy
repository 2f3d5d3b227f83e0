/** The stream-shape checker (native/crates/codec-goldens/src/shape.rs) against the rules it enforces. */
module Shape {
  import opened Common
  import opened Headers
  import opened Poc
  import opened Parser
  import AnnexB

  type Au = (seq<byte>, bool)

  // ---- One access unit, read in order ------------------------------------

  /** What reading NAL units says: the tables, whether every parameter set and every slice
      header parsed, the slices, and the types in front of the first picture's slice. */
  datatype Scan = Scan(tables: Tables, sets: bool, headers: bool, slices: seq<SliceInfo>, front: set<nat>)

  function GetOr<T>(o: Option<T>, d: T): T {
    match o case Some(v) => v case None => d
  }

  /** How many of the slices start a picture. */
  function Pictures(slices: seq<SliceInfo>): nat {
    if slices == [] then 0
    else Pictures(slices[..|slices| - 1]) + (if slices[|slices| - 1].firstInPicture then 1 else 0)
  }

  function Add(scan: Scan, codec: Codec, nal: seq<byte>): Scan {
    var after := Record(scan.tables, codec, nal);
    var tables := GetOr(after, scan.tables);
    var sets := scan.sets && after.Some?;
    if IsSlice(codec, nal) then
      match SliceOf(tables, codec, nal)
      case Some(info) => Scan(tables, sets, scan.headers, scan.slices + [info], scan.front)
      case None => Scan(tables, sets, false, scan.slices, scan.front)
    else
      var nalType := NalType(codec, nal);
      Scan(tables, sets, scan.headers, scan.slices,
           if Pictures(scan.slices) == 0 && nalType.Some? then scan.front + {nalType.value} else scan.front)
  }

  function ScanOf(codec: Codec, tables: Tables, nals: seq<seq<byte>>): Scan {
    if nals == [] then Scan(tables, true, true, [], {})
    else Add(ScanOf(codec, tables, nals[..|nals| - 1]), codec, nals[|nals| - 1])
  }

  // ---- Picture order -----------------------------------------------------

  /** The slices that start a picture and carry a POC lsb. */
  function Timed(slices: seq<SliceInfo>): (r: seq<SliceInfo>)
    ensures forall k :: 0 <= k < |r| ==> r[k].pocLsb.Some?
  {
    if slices == [] then []
    else
      var x := slices[|slices| - 1];
      var front := Timed(slices[..|slices| - 1]);
      if x.firstInPicture && x.pocLsb.Some? then front + [x] else front
  }

  /** Where the stream stands: the tables, the POC tracker and the last POC. */
  datatype Place = Place(tables: Tables, poc: PocState, last: Option<int>)

  const BEGINNING := Place(NO_TABLES, START, None)

  function PocOf(s: PocState, x: SliceInfo): (PocState, int)
    requires x.pocLsb.Some?
  {
    Next(s, x.pocLsb.value, x.maxPocLsb, x.idr, x.pocAnchor)
  }

  /** The tracker and the last POC after some pictures, and whether every picture that is
      not an IDR came after the one before it. */
  datatype Order = Order(poc: PocState, last: Option<int>, rising: bool)

  function OrderOf(s: PocState, last: Option<int>, pics: seq<SliceInfo>): Order
    requires forall k :: 0 <= k < |pics| ==> pics[k].pocLsb.Some?
  {
    if pics == [] then Order(s, last, true)
    else
      var x := pics[|pics| - 1];
      var before := OrderOf(s, last, pics[..|pics| - 1]);
      var next := PocOf(before.poc, x);
      Order(next.0, Some(next.1), before.rising && (x.idr || before.last.None? || before.last.value < next.1))
  }

  // ---- The rules ---------------------------------------------------------

  datatype Rule =
    | StartCode | ParameterSets | SliceHeaders | OneIdrKind | NoSwitching | NoReordering
    | OnePicture | IdrFirst | KeyframeFlag | SetsInFront

  function SetTypes(codec: Codec): set<nat> {
    match codec
    case H264 => {7, 8}
    case Hevc => {32, 33, 34}
    case Av1 => {}
  }

  predicate StartsWithCode(au: seq<byte>) {
    [0, 0, 1] <= au || [0, 0, 0, 1] <= au
  }

  predicate HasIdr(slices: seq<SliceInfo>) {
    exists k :: 0 <= k < |slices| && slices[k].idr
  }

  /** Whether the access unit at index `i`, read at `place`, obeys a rule. */
  predicate Obeys(rule: Rule, codec: Codec, place: Place, i: nat, au: Au) {
    var scan := ScanOf(codec, place.tables, AnnexB.Split(au.0));
    match rule
    case StartCode => StartsWithCode(au.0)
    case ParameterSets => scan.sets
    case SliceHeaders => scan.headers
    case OneIdrKind => forall j, k :: 0 <= j < k < |scan.slices| ==> scan.slices[j].idr == scan.slices[k].idr
    case NoSwitching => forall k :: 0 <= k < |scan.slices| ==> scan.slices[k].kind != Some(Switching)
    case NoReordering => OrderOf(place.poc, place.last, Timed(scan.slices)).rising
    case OnePicture => Pictures(scan.slices) == 1
    case IdrFirst => i == 0 ==> HasIdr(scan.slices)
    case KeyframeFlag => au.1 <==> HasIdr(scan.slices)
    case SetsInFront => HasIdr(scan.slices) ==> SetTypes(codec) <= scan.front
  }

  predicate Conforms(codec: Codec, place: Place, i: nat, au: Au) {
    && Obeys(StartCode, codec, place, i, au) && Obeys(ParameterSets, codec, place, i, au)
    && Obeys(SliceHeaders, codec, place, i, au) && Obeys(OneIdrKind, codec, place, i, au)
    && Obeys(NoSwitching, codec, place, i, au) && Obeys(NoReordering, codec, place, i, au)
    && Obeys(OnePicture, codec, place, i, au) && Obeys(IdrFirst, codec, place, i, au)
    && Obeys(KeyframeFlag, codec, place, i, au) && Obeys(SetsInFront, codec, place, i, au)
  }

  lemma RuleOfConforms(rule: Rule, codec: Codec, place: Place, i: nat, au: Au)
    requires !Obeys(rule, codec, place, i, au)
    ensures !Conforms(codec, place, i, au)
  {
    hide Obeys;
    match rule {
      case StartCode =>
      case ParameterSets =>
      case SliceHeaders =>
      case OneIdrKind =>
      case NoSwitching =>
      case NoReordering =>
      case OnePicture =>
      case IdrFirst =>
      case KeyframeFlag =>
      case SetsInFront =>
    }
  }

  /** Where the stream stands after an access unit. */
  function After(codec: Codec, place: Place, au: Au): Place {
    var scan := ScanOf(codec, place.tables, AnnexB.Split(au.0));
    var order := OrderOf(place.poc, place.last, Timed(scan.slices));
    Place(scan.tables, order.poc, order.last)
  }

  /** Where it stands after all of them. */
  function PlaceAfter(codec: Codec, aus: seq<Au>): Place {
    if aus == [] then BEGINNING else After(codec, PlaceAfter(codec, aus[..|aus| - 1]), aus[|aus| - 1])
  }

  // ---- The checker -------------------------------------------------------

  /** What a stream that passed contains. */
  datatype Report = Report(accessUnits: nat, keyframes: seq<nat>, profileIdc: Option<nat>, sliceKinds: set<SliceKind>)

  datatype CheckError = NoAv1Shape | NoAccessUnits | Broken(index: nat, rule: Rule)

  function Kinds(slices: seq<SliceInfo>): set<SliceKind> {
    if slices == [] then {}
    else
      var kind := slices[|slices| - 1].kind;
      Kinds(slices[..|slices| - 1]) + (if kind.Some? then {kind.value} else {})
  }

  /** Indexes of the access units flagged as keyframes. */
  function Flagged(aus: seq<Au>): seq<nat> {
    if aus == [] then []
    else
      var front := Flagged(aus[..|aus| - 1]);
      if aus[|aus| - 1].1 then front + [|aus| - 1] else front
  }

  function AllKinds(codec: Codec, aus: seq<Au>): set<SliceKind> {
    if aus == [] then {}
    else
      var m := |aus| - 1;
      AllKinds(codec, aus[..m]) +
      Kinds(ScanOf(codec, PlaceAfter(codec, aus[..m]).tables, AnnexB.Split(aus[m].0)).slices)
  }

  function Profile(codec: Codec, t: Tables): Option<nat> {
    match codec
    case H264 => if 0 in t.h264Sps then Some(t.h264Sps[0].profileIdc) else None
    case Hevc => if 0 in t.hevcSps then Some(t.hevcSps[0].profileIdc) else None
    case Av1 => None
  }

  /** What the inner loop has read of an access unit. */
  datatype Unit = Unit(last: Option<int>, idr: Option<bool>, pictures: nat, front: set<nat>, kinds: set<SliceKind>)

  /** The loop's variables agree with the scan of the NAL units read. */
  ghost predicate Kept(u: Unit, tables: Tables, poc: PocState, codec: Codec, place: Place, nals: seq<seq<byte>>) {
    var scan := ScanOf(codec, place.tables, nals);
    var order := OrderOf(place.poc, place.last, Timed(scan.slices));
    && tables == scan.tables && poc == order.poc && u.last == order.last
    && scan.sets && scan.headers && order.rising
    && u.idr == (if scan.slices == [] then None else Some(scan.slices[0].idr))
    && (forall k :: 0 <= k < |scan.slices| ==> u.idr == Some(scan.slices[k].idr))
    && (forall k :: 0 <= k < |scan.slices| ==> scan.slices[k].kind != Some(Switching))
    && u.pictures == Pictures(scan.slices) && u.front == scan.front && u.kinds == Kinds(scan.slices)
  }

  /** A rule the loop finds broken, in terms of the NAL units read so far. */
  ghost predicate Violated(rule: Rule, codec: Codec, place: Place, nals: seq<seq<byte>>) {
    var scan := ScanOf(codec, place.tables, nals);
    match rule
    case ParameterSets => !scan.sets
    case SliceHeaders => !scan.headers
    case OneIdrKind => exists j, k :: 0 <= j < k < |scan.slices| && scan.slices[j].idr != scan.slices[k].idr
    case NoSwitching => exists k :: 0 <= k < |scan.slices| && scan.slices[k].kind == Some(Switching)
    case NoReordering => !OrderOf(place.poc, place.last, Timed(scan.slices)).rising
    case _ => false
  }

  lemma ScanAppend(codec: Codec, tables: Tables, nals: seq<seq<byte>>, nal: seq<byte>)
    ensures ScanOf(codec, tables, nals + [nal]) == Add(ScanOf(codec, tables, nals), codec, nal)
  {
    assert (nals + [nal])[..|nals|] == nals;
  }

  lemma TimedAppend(slices: seq<SliceInfo>, x: SliceInfo)
    ensures Timed(slices + [x]) == if x.firstInPicture && x.pocLsb.Some? then Timed(slices) + [x] else Timed(slices)
    ensures Pictures(slices + [x]) == Pictures(slices) + (if x.firstInPicture then 1 else 0)
    ensures Kinds(slices + [x]) == Kinds(slices) + (if x.kind.Some? then {x.kind.value} else {})
  {
    assert (slices + [x])[..|slices|] == slices;
  }

  lemma OrderAppend(s: PocState, last: Option<int>, pics: seq<SliceInfo>, x: SliceInfo)
    requires x.pocLsb.Some? && forall k :: 0 <= k < |pics| ==> pics[k].pocLsb.Some?
    ensures var before := OrderOf(s, last, pics);
            var next := PocOf(before.poc, x);
            OrderOf(s, last, pics + [x]) ==
            Order(next.0, Some(next.1), before.rising && (x.idr || before.last.None? || before.last.value < next.1))
  {
    assert (pics + [x])[..|pics|] == pics;
  }

  /** A rule broken by the NAL units read stays broken whatever follows. */
  lemma ViolatedStep(rule: Rule, codec: Codec, place: Place, nals: seq<seq<byte>>, nal: seq<byte>)
    requires Violated(rule, codec, place, nals)
    ensures Violated(rule, codec, place, nals + [nal])
  {
    hide ScanOf, Record, IsSlice, SliceOf, OrderOf, Timed, NalType, Pictures;
    ScanAppend(codec, place.tables, nals, nal);
    var before, after := ScanOf(codec, place.tables, nals), ScanOf(codec, place.tables, nals + [nal]);
    assert before.slices <= after.slices;
    if |after.slices| > |before.slices| {
      var x := after.slices[|before.slices|];
      assert after.slices == before.slices + [x];
      OrderBroken(place, before.slices, x);
    }
  }

  lemma OrderBroken(place: Place, slices: seq<SliceInfo>, x: SliceInfo)
    ensures !OrderOf(place.poc, place.last, Timed(slices)).rising ==>
              !OrderOf(place.poc, place.last, Timed(slices + [x])).rising
  {
    hide OrderOf, Timed, PocOf;
    TimedAppend(slices, x);
    if x.firstInPicture && x.pocLsb.Some? {
      OrderAppend(place.poc, place.last, Timed(slices), x);
    }
  }

  lemma {:induction false} ViolatedWhole(rule: Rule, codec: Codec, place: Place, nals: seq<seq<byte>>, n: nat)
    requires n <= |nals| && Violated(rule, codec, place, nals[..n])
    ensures Violated(rule, codec, place, nals)
    decreases |nals| - n
  {
    hide Violated;
    if n == |nals| {
      assert nals[..n] == nals;
    } else {
      ViolatedStep(rule, codec, place, nals[..n], nals[n]);
      assert nals[..n + 1] == nals[..n] + [nals[n]];
      ViolatedWhole(rule, codec, place, nals, n + 1);
    }
  }

  /** The body of the inner loop: one NAL unit. */
  method ReadNal(codec: Codec, parser: Parser, tracker: PocTracker, u: Unit, nal: seq<byte>,
                 ghost place: Place, ghost nals: seq<seq<byte>>)
    returns (res: Result<Unit, Rule>)
    requires Kept(u, parser.State(), tracker.State(), codec, place, nals)
    modifies parser, tracker
    ensures res.Ok? ==> Kept(res.value, parser.State(), tracker.State(), codec, place, nals + [nal])
    ensures res.Err? ==> Violated(res.error, codec, place, nals + [nal])
  {
    hide ScanOf, Record, IsSlice, SliceOf, OrderOf, Timed, NalType, PocOf, Pictures, Kinds, Next;
    ScanAppend(codec, place.tables, nals, nal);
    ghost var before := ScanOf(codec, place.tables, nals);
    ghost var after := ScanOf(codec, place.tables, nals + [nal]);
    var stored := parser.ParameterSet(codec, nal);
    if stored.Err? {
      return Err(ParameterSets);
    }
    var read := parser.Slice(codec, nal);
    if read.Err? {
      return Err(SliceHeaders);
    }
    if read.value.None? {
      var nalType := NalType(codec, nal);
      var front := if u.pictures == 0 && nalType.Some? then u.front + {nalType.value} else u.front;
      return Ok(u.(front := front));
    }
    var slice := read.value.value;
    assert after.slices == before.slices + [slice];
    TimedAppend(before.slices, slice);
    if u.idr.Some? && u.idr.value != slice.idr {
      assert after.slices[0].idr != after.slices[|before.slices|].idr;
      return Err(OneIdrKind);
    }
    if slice.kind == Some(Switching) {
      assert after.slices[|before.slices|].kind == Some(Switching);
      return Err(NoSwitching);
    }
    var kinds := u.kinds + (if slice.kind.Some? then {slice.kind.value} else {});
    var pictures := u.pictures + (if slice.firstInPicture then 1 else 0);
    var last := u.last;
    if slice.firstInPicture && slice.pocLsb.Some? {
      OrderAppend(place.poc, place.last, Timed(before.slices), slice);
      var p := Track(tracker, slice);
      if !slice.idr && last.Some? && p <= last.value {
        return Err(NoReordering);
      }
      last := Some(p);
    }
    res := Ok(Unit(last, Some(slice.idr), pictures, u.front, kinds));
  }

  method Track(tracker: PocTracker, slice: SliceInfo) returns (p: int)
    requires slice.pocLsb.Some?
    modifies tracker
    ensures (tracker.State(), p) == PocOf(old(tracker.State()), slice)
  {
    p := tracker.Poc(slice.pocLsb.value, slice.maxPocLsb, slice.idr, slice.pocAnchor);
  }

  lemma ViolatedBreaks(rule: Rule, codec: Codec, place: Place, i: nat, au: Au)
    requires Violated(rule, codec, place, AnnexB.Split(au.0))
    ensures !Obeys(rule, codec, place, i, au)
  {
    hide ScanOf, OrderOf, Timed, AnnexB.Split;
  }

  lemma IdrOfKept(u: Unit, tables: Tables, poc: PocState, codec: Codec, place: Place, nals: seq<seq<byte>>)
    requires Kept(u, tables, poc, codec, place, nals)
    ensures GetOr(u.idr, false) <==> HasIdr(ScanOf(codec, place.tables, nals).slices)
  {
    hide ScanOf, OrderOf, Timed, Pictures, Kinds;
    var slices := ScanOf(codec, place.tables, nals).slices;
    if slices != [] {
      assert u.idr == Some(slices[0].idr);
    }
  }

  /** The rules checked once all NAL units of the access unit are read. */
  method Conclude(codec: Codec, i: nat, au: Au, u: Unit, ghost tables: Tables, ghost poc: PocState, ghost place: Place)
    returns (res: Result<bool, Rule>)
    requires Kept(u, tables, poc, codec, place, AnnexB.Split(au.0)) && StartsWithCode(au.0)
    ensures res.Ok? ==> Conforms(codec, place, i, au) && (res.value <==> au.1)
    ensures res.Err? ==> !Obeys(res.error, codec, place, i, au)
  {
    hide ScanOf, OrderOf, Timed, Pictures, Kinds, AnnexB.Split, HasIdr, SetTypes;
    IdrOfKept(u, tables, poc, codec, place, AnnexB.Split(au.0));
    if u.pictures != 1 {
      return Err(OnePicture);
    }
    var idr := GetOr(u.idr, false);
    if i == 0 && !idr {
      return Err(IdrFirst);
    }
    if au.1 != idr {
      return Err(KeyframeFlag);
    }
    if idr && !(SetTypes(codec) <= u.front) {
      return Err(SetsInFront);
    }
    res := Ok(idr);
  }

  /** One access unit: the last POC, whether it is a keyframe and its slice kinds. */
  method CheckUnit(codec: Codec, parser: Parser, tracker: PocTracker, last: Option<int>, i: nat, au: Au)
    returns (res: Result<(Option<int>, bool, set<SliceKind>), Rule>)
    modifies parser, tracker
    ensures var place := Place(old(parser.State()), old(tracker.State()), last);
            match res
            case Ok(v) =>
              && Conforms(codec, place, i, au)
              && Place(parser.State(), tracker.State(), v.0) == After(codec, place, au)
              && v.1 == au.1
              && v.2 == Kinds(ScanOf(codec, place.tables, AnnexB.Split(au.0)).slices)
            case Err(rule) => !Obeys(rule, codec, place, i, au)
  {
    hide Violated, Conforms, Obeys, ScanOf, OrderOf, Timed, Pictures, Kinds, AnnexB.Split, HasIdr;
    ghost var place := Place(parser.State(), tracker.State(), last);
    if !StartsWithCode(au.0) {
      StartCodeRule(codec, place, i, au);
      return Err(StartCode);
    }
    var nals := AnnexB.NalUnits(au.0);
    var u := Unit(last, None, 0, {}, {});
    KeptAtStart(codec, place);
    for k := 0 to |nals|
      invariant Kept(u, parser.State(), tracker.State(), codec, place, nals[..k])
    {
      var next := ReadNal(codec, parser, tracker, u, nals[k], place, nals[..k]);
      assert nals[..k + 1] == nals[..k] + [nals[k]];
      if next.Err? {
        ViolatedWhole(next.error, codec, place, nals, k + 1);
        ViolatedBreaks(next.error, codec, place, i, au);
        return Err(next.error);
      }
      u := next.value;
    }
    assert nals[..|nals|] == nals;
    var idr :- Conclude(codec, i, au, u, parser.State(), tracker.State(), place);
    res := Ok((u.last, idr, u.kinds));
  }

  lemma StartCodeRule(codec: Codec, place: Place, i: nat, au: Au)
    ensures Obeys(StartCode, codec, place, i, au) <==> StartsWithCode(au.0)
  {
  }

  lemma KeptAtStart(codec: Codec, place: Place)
    ensures Kept(Unit(place.last, None, 0, {}, {}), place.tables, place.poc, codec, place, [])
  {
  }

  /** Every access unit up to the n-th obeys every rule. */
  predicate AllConform(codec: Codec, aus: seq<Au>, n: nat)
    requires n <= |aus|
  {
    forall i :: 0 <= i < n ==> Conforms(codec, PlaceAfter(codec, aus[..i]), i, aus[i])
  }

  function ReportOf(codec: Codec, aus: seq<Au>): Report {
    Report(|aus|, Flagged(aus), Profile(codec, PlaceAfter(codec, aus).tables), AllKinds(codec, aus))
  }

  lemma NextUnit(codec: Codec, aus: seq<Au>, i: nat)
    requires i < |aus|
    ensures PlaceAfter(codec, aus[..i + 1]) == After(codec, PlaceAfter(codec, aus[..i]), aus[i])
    ensures Flagged(aus[..i + 1]) == if aus[i].1 then Flagged(aus[..i]) + [i] else Flagged(aus[..i])
    ensures AllKinds(codec, aus[..i + 1]) ==
            AllKinds(codec, aus[..i]) +
            Kinds(ScanOf(codec, PlaceAfter(codec, aus[..i]).tables, AnnexB.Split(aus[i].0)).slices)
  {
    hide After, ScanOf, Kinds, AnnexB.Split;
    assert aus[..i + 1][..i] == aus[..i];
  }

  /** An error that is true of the stream: the index is that of the first access unit that breaks a rule. */
  predicate Explains(codec: Codec, aus: seq<Au>, e: CheckError) {
    match e
    case NoAv1Shape => codec == Av1
    case NoAccessUnits => codec != Av1 && aus == []
    case Broken(i, rule) =>
      && codec != Av1 && i < |aus| && AllConform(codec, aus, i)
      && !Obeys(rule, codec, PlaceAfter(codec, aus[..i]), i, aus[i])
  }

  /** `check`: a stream is accepted exactly when it has access units and every one of them
      obeys every rule; otherwise the index is that of the first that does not. */
  method Check(codec: Codec, aus: seq<Au>) returns (res: Result<Report, CheckError>)
    ensures res.Ok? <==> codec != Av1 && aus != [] && AllConform(codec, aus, |aus|)
    ensures res.Ok? ==> res.value == ReportOf(codec, aus)
    ensures res.Err? ==> Explains(codec, aus, res.error)
  {
    hide Conforms, Obeys, After, PlaceAfter, ScanOf, Kinds, AnnexB.Split, Flagged, AllKinds;
    if codec == Av1 {
      return Err(NoAv1Shape);
    }
    var parser := new Parser();
    var tracker := new PocTracker();
    var last: Option<int> := None;
    var keyframes, kinds := [], {};
    CheckStart(codec, aus);
    for i := 0 to |aus|
      invariant Place(parser.State(), tracker.State(), last) == PlaceAfter(codec, aus[..i])
      invariant AllConform(codec, aus, i)
      invariant keyframes == Flagged(aus[..i]) && kinds == AllKinds(codec, aus[..i])
    {
      NextUnit(codec, aus, i);
      var unit := CheckUnit(codec, parser, tracker, last, i, aus[i]);
      if unit.Err? {
        RuleOfConforms(unit.error, codec, PlaceAfter(codec, aus[..i]), i, aus[i]);
        return Err(Broken(i, unit.error));
      }
      last := unit.value.0;
      if unit.value.1 {
        keyframes := keyframes + [i];
      }
      kinds := kinds + unit.value.2;
    }
    assert aus[..|aus|] == aus;
    if |aus| == 0 {
      return Err(NoAccessUnits);
    }
    res := Ok(Report(|aus|, keyframes, parser.ProfileIdc(codec), kinds));
  }

  lemma CheckStart(codec: Codec, aus: seq<Au>)
    ensures PlaceAfter(codec, aus[..0]) == BEGINNING && Flagged(aus[..0]) == [] && AllKinds(codec, aus[..0]) == {}
  {
    assert aus[..0] == [];
  }

  // ---- The session check -------------------------------------------------

  /** `check_session`: one access unit a frame, keyframes exactly on frame 0 and the forced one. */
  method CheckSession(codec: Codec, units: seq<Au>, frames: nat, forced: nat) returns (ok: bool, report: Option<Report>)
    ensures ok <==>
            && codec != Av1 && units != [] && AllConform(codec, units, |units|)
            && |units| == frames && OnlyTwo(units, forced)
    ensures ok ==> report == Some(ReportOf(codec, units))
  {
    hide AllConform, Flagged, AllKinds, PlaceAfter, OnlyTwo;
    report := None;
    var shape := Check(codec, units);
    if shape.Err? {
      return false, None;
    }
    if |units| != frames {
      return false, None;
    }
    if shape.value.keyframes != [0, forced] {
      TwoFlagged(units, forced);
      return false, None;
    }
    TwoFlagged(units, forced);
    return true, Some(shape.value);
  }

  predicate OnlyTwo(aus: seq<Au>, forced: nat) {
    0 < forced < |aus| && forall k :: 0 <= k < |aus| ==> (aus[k].1 <==> k == 0 || k == forced)
  }

  lemma {:induction false} FlaggedMembers(aus: seq<Au>)
    ensures forall k :: k in Flagged(aus) <==> 0 <= k < |aus| && aus[k].1
  {
    if aus != [] {
      FlaggedMembers(aus[..|aus| - 1]);
    }
  }

  lemma {:induction false} FlaggedOnlyTwo(aus: seq<Au>, forced: nat, n: nat)
    requires OnlyTwo(aus, forced) && n <= |aus|
    ensures Flagged(aus[..n]) == if n == 0 then [] else if n <= forced then [0] else [0, forced]
  {
    if n > 0 {
      FlaggedOnlyTwo(aus, forced, n - 1);
      assert aus[..n][..n - 1] == aus[..n - 1];
    }
  }

  lemma {:induction false} FlaggedBelow(aus: seq<Au>)
    ensures forall k :: 0 <= k < |Flagged(aus)| ==> Flagged(aus)[k] < |aus|
    ensures |Flagged(aus)| >= 2 ==> Flagged(aus)[|Flagged(aus)| - 2] < Flagged(aus)[|Flagged(aus)| - 1]
  {
    if aus != [] {
      FlaggedBelow(aus[..|aus| - 1]);
    }
  }

  lemma TwoFlagged(aus: seq<Au>, forced: nat)
    ensures Flagged(aus) == [0, forced] <==> OnlyTwo(aus, forced)
  {
    hide Flagged;
    if OnlyTwo(aus, forced) {
      FlaggedOnlyTwo(aus, forced, |aus|);
      assert aus[..|aus|] == aus;
    }
    if Flagged(aus) == [0, forced] {
      FlaggedMembers(aus);
      FlaggedBelow(aus);
      assert forced in Flagged(aus);
    }
  }
}
