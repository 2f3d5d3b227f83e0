/** The H.264 headers a conforming encoder writes (sections 7.3.2.1.1, 7.3.2.2 and
    7.3.3 of ITU-T H.264), and the proof that the parser recovers them. */
module HeaderWriter {
  import opened Common
  import opened BitIO
  import opened Headers
  import AnnexB

  // ---- Single fields -----------------------------------------------------

  function PutFlag(b: bool, rest: seq<bool>): (s: seq<bool>)
    ensures |s| == 1 + |rest|
  {
    [b] + rest
  }

  function PutU(n: nat, v: nat, rest: seq<bool>): (s: seq<bool>)
    ensures |s| == n + |rest|
  {
    UBits(n, v) + rest
  }

  function PutUe(v: nat, rest: seq<bool>): (s: seq<bool>)
    ensures |s| == |UeBits(v)| + |rest|
  {
    UeBits(v) + rest
  }

  function PutSe(v: int, rest: seq<bool>): (s: seq<bool>)
    ensures |s| == |SeBits(v)| + |rest|
  {
    SeBits(v) + rest
  }

  lemma FlagBack(b: bool, rest: seq<bool>)
    ensures GetFlag(PutFlag(b, rest)) == Got(b, rest)
  {
  }

  lemma UBack(n: nat, v: nat, rest: seq<bool>)
    requires v < Pow2(n)
    ensures GetU(n, PutU(n, v, rest)) == Got(v, rest)
  {
    ReadUBits(n, v, rest);
  }

  lemma SkipBack(n: nat, v: nat, rest: seq<bool>)
    ensures GetSkip(n, PutU(n, v, rest)) == Got((), rest)
  {
    assert (UBits(n, v) + rest)[n..] == rest;
  }

  lemma NoSkip(rest: seq<bool>)
    ensures GetSkip(0, rest) == Got((), rest)
  {
    assert rest[0..] == rest;
  }

  lemma UeBack(v: nat, rest: seq<bool>)
    requires v <= MAX_UE
    ensures GetUe(PutUe(v, rest)) == Got(v, rest)
  {
    hide GetUe, UeBits;
    ReadUeBits(v, rest);
  }

  predicate SeFits(v: int) {
    -0x7FFF_FFFF <= v <= 0x7FFF_FFFF
  }

  lemma SeBack(v: int, rest: seq<bool>)
    requires SeFits(v)
    ensures GetSe(PutSe(v, rest)) == Got(v, rest)
  {
    hide GetSe, SeBits;
    ReadSeBits(v, rest);
  }

  // Whatever follows a field can be written later.

  lemma FlagMore(b: bool, rest: seq<bool>, z: seq<bool>)
    ensures PutFlag(b, rest + z) == PutFlag(b, rest) + z
  {
  }

  lemma UMore(n: nat, v: nat, rest: seq<bool>, z: seq<bool>)
    ensures PutU(n, v, rest + z) == PutU(n, v, rest) + z
  {
    hide UBits;
  }

  lemma UeMore(v: nat, rest: seq<bool>, z: seq<bool>)
    ensures PutUe(v, rest + z) == PutUe(v, rest) + z
  {
    hide UeBits;
  }

  lemma SeMore(v: int, rest: seq<bool>, z: seq<bool>)
    ensures PutSe(v, rest + z) == PutSe(v, rest) + z
  {
    hide SeBits;
  }

  // ---- Scaling lists -----------------------------------------------------

  /** `d` is the list of deltas a scaling list of `n` more entries carries; their sums fit 32 bits. */
  predicate ListFits(n: nat, last: int, next: int, d: seq<int>) {
    if n == 0 then d == []
    else if next == 0 then ListFits(n - 1, last, 0, d)
    else
      && d != [] && SeFits(d[0]) && -0x8000_0000 <= last + d[0] + 256 < 0x8000_0000
      && var next := Rem(last + d[0] + 256, 256);
         ListFits(n - 1, if next != 0 then next else last, next, d[1..])
  }

  function PutSeAll(d: seq<int>, rest: seq<bool>): (s: seq<bool>)
    ensures |s| >= |rest|
  {
    if d == [] then rest else PutSe(d[0], PutSeAll(d[1..], rest))
  }

  lemma {:induction false} ListBack(n: nat, last: int, next: int, d: seq<int>, rest: seq<bool>)
    requires ListFits(n, last, next, d)
    ensures ScalingList(n, last, next, PutSeAll(d, rest)) == Got((), rest)
  {
    hide GetSe, PutSe, Rem;
    if n > 0 {
      if next == 0 {
        ListBack(n - 1, last, 0, d, rest);
      } else {
        SeBack(d[0], PutSeAll(d[1..], rest));
        var next := Rem(last + d[0] + 256, 256);
        ListBack(n - 1, if next != 0 then next else last, next, d[1..], rest);
      }
    }
  }

  /** The lists from the i-th on: each absent, or present with its deltas. */
  predicate ListsFit(i: nat, lists: seq<Option<seq<int>>>) {
    forall k :: 0 <= k < |lists| && lists[k].Some? ==>
      ListFits(if i + k < 6 then 16 else 64, 8, 8, lists[k].value)
  }

  function PutLists(lists: seq<Option<seq<int>>>, rest: seq<bool>): seq<bool> {
    if lists == [] then rest
    else
      PutFlag(lists[0].Some?,
              match lists[0]
              case None => PutLists(lists[1..], rest)
              case Some(d) => PutSeAll(d, PutLists(lists[1..], rest)))
  }

  lemma {:induction false} ListsBack(i: nat, lists: seq<Option<seq<int>>>, rest: seq<bool>)
    requires ListsFit(i, lists)
    ensures ScalingLists(i, i + |lists|, PutLists(lists, rest)) == Got((), rest)
    decreases |lists|
  {
    hide GetFlag, PutFlag, ScalingList, ListFits, PutSeAll;
    if lists != [] {
      assert forall k :: 0 <= k < |lists[1..]| ==> lists[1..][k] == lists[k + 1];
      ListsBack(i + 1, lists[1..], rest);
      var more := PutLists(lists[1..], rest);
      match lists[0] {
        case None => FlagBack(false, more);
        case Some(d) =>
          FlagBack(true, PutSeAll(d, more));
          ListBack(ListSize(i), 8, 8, d, more);
      }
    }
  }

  // ---- The SPS -----------------------------------------------------------

  datatype High = High(
    chroma: nat, separate: bool, luma: nat, chromaDepth: nat, bypass: bool, matrix: Option<seq<Option<seq<int>>>>)

  datatype Poc =
    | Poc0(log2Minus4: nat)
    | Poc1(always: bool, nonRef: int, topBottom: int, cycle: seq<int>)
    | Poc2
    | PocOther(number: nat)

  datatype Sps = Sps(
    header: byte, profile: byte, levels: nat, id: nat, high: Option<High>, frameNumMinus4: nat, poc: Poc,
    refs: nat, gaps: bool, width: nat, height: nat, frameMbsOnly: bool)

  predicate HighFits(h: High) {
    && h.chroma <= MAX_UE && h.luma <= MAX_UE && h.chromaDepth <= MAX_UE
    && (h.chroma != 3 ==> !h.separate)
    && (h.matrix.Some? ==> |h.matrix.value| == (if h.chroma == 3 then 12 else 8) && ListsFit(0, h.matrix.value))
  }

  predicate PocFits(p: Poc) {
    match p
    case Poc0(n) => n <= MAX_UE - 4
    case Poc1(_, a, b, cycle) =>
      SeFits(a) && SeFits(b) && |cycle| <= MAX_UE && forall k :: 0 <= k < |cycle| ==> SeFits(cycle[k])
    case Poc2 => true
    case PocOther(number) => 2 < number <= MAX_UE
  }

  /** The fields the parser checks are in the range of the format. */
  predicate InRange(x: Sps) {
    x.frameNumMinus4 <= 12 && !x.poc.PocOther? && (x.poc.Poc0? ==> x.poc.log2Minus4 <= 12)
  }

  predicate SpsFits(x: Sps) {
    && (x.high.Some? <==> x.profile in {100, 110, 122, 244, 44, 83, 86, 118, 128, 138, 139, 134, 135})
    && (x.high.Some? ==> HighFits(x.high.value))
    && PocFits(x.poc)
    && x.id <= MAX_UE && x.frameNumMinus4 <= MAX_UE - 4
    && x.refs <= MAX_UE && x.width <= MAX_UE && x.height <= MAX_UE
  }

  function PocType(p: Poc): nat {
    match p
    case Poc0(_) => 0
    case Poc1(_, _, _, _) => 1
    case Poc2 => 2
    case PocOther(number) => number
  }

  /** What the parser should keep of the SPS. */
  function Kept(x: Sps): H264Sps
    requires SpsFits(x) && InRange(x)
  {
    H264Sps(x.profile, x.high.Some? && x.high.value.separate, x.frameNumMinus4 + 4, PocType(x.poc),
            if x.poc.Poc0? then x.poc.log2Minus4 + 4 else 0, x.frameMbsOnly)
  }

  function PutProfile(x: Sps, rest: seq<bool>): seq<bool> {
    PutU(8, x.profile, PutU(16, x.levels, PutUe(x.id, rest)))
  }

  function PutHead(x: Sps, rest: seq<bool>): seq<bool> {
    PutU(8, x.header, PutProfile(x, rest))
  }

  function PutMatrix(m: Option<seq<Option<seq<int>>>>, rest: seq<bool>): seq<bool> {
    PutFlag(m.Some?, match m case None => rest case Some(lists) => PutLists(lists, rest))
  }

  function PutHigh(h: High, rest: seq<bool>): seq<bool> {
    var tail := PutUe(h.luma, PutUe(h.chromaDepth, PutFlag(h.bypass, PutMatrix(h.matrix, rest))));
    PutUe(h.chroma, if h.chroma == 3 then PutFlag(h.separate, tail) else tail)
  }

  function PutPoc(p: Poc, rest: seq<bool>): seq<bool> {
    match p
    case Poc0(n) => PutUe(n, rest)
    case Poc1(always, a, b, cycle) => PutFlag(always, PutSe(a, PutSe(b, PutUe(|cycle|, PutSeAll(cycle, rest)))))
    case Poc2 => rest
    case PocOther(_) => rest
  }

  function PutSize(x: Sps, rest: seq<bool>): seq<bool> {
    PutUe(x.refs, PutFlag(x.gaps, PutUe(x.width, PutUe(x.height, PutFlag(x.frameMbsOnly, rest)))))
  }

  function PutBody(x: Sps, rest: seq<bool>): seq<bool> {
    PutUe(x.frameNumMinus4, PutUe(PocType(x.poc), PutPoc(x.poc, PutSize(x, rest))))
  }

  /** Everything behind the id. */
  function PutBehind(x: Sps, rest: seq<bool>): seq<bool> {
    match x.high
    case None => PutBody(x, rest)
    case Some(h) => PutHigh(h, PutBody(x, rest))
  }

  /** The SPS, with `rest` for the fields behind the ones the parser reads. */
  function PutSps(x: Sps, rest: seq<bool>): seq<bool> {
    PutHead(x, PutBehind(x, rest))
  }

  lemma HeadBack(x: Sps, rest: seq<bool>)
    requires SpsFits(x)
    ensures SpsHead(PutHead(x, rest)) == Got((x.profile, x.id), rest)
  {
    hide GetSkip, GetU, GetUe, PutU, PutUe, HighFits, PocFits;
    var a := PutUe(x.id, rest);
    var b := PutU(16, x.levels, a);
    var c := PutU(8, x.profile, b);
    SkipBack(8, x.header, c);
    assert Pow2(8) == 256;
    UBack(8, x.profile, b);
    SkipBack(16, x.levels, a);
    UeBack(x.id, rest);
  }

  lemma HighBack(h: High, rest: seq<bool>)
    requires HighFits(h)
    ensures HighFields(PutHigh(h, rest)) == Got(h.separate, rest)
  {
    hide GetFlag, GetUe, PutFlag, PutUe, ScalingLists, PutLists, ListsFit;
    var m := match h.matrix case None => rest case Some(lists) => PutLists(lists, rest);
    var a := PutFlag(h.matrix.Some?, m);
    var b := PutFlag(h.bypass, a);
    var c := PutUe(h.chromaDepth, b);
    var d := PutUe(h.luma, c);
    UeBack(h.chroma, if h.chroma == 3 then PutFlag(h.separate, d) else d);
    FlagBack(h.separate, d);
    UeBack(h.luma, c);
    UeBack(h.chromaDepth, b);
    FlagBack(h.bypass, a);
    FlagBack(h.matrix.Some?, m);
    if h.matrix.Some? {
      ListsBack(0, h.matrix.value, rest);
    }
  }

  lemma {:induction false} SkipSeBack(d: seq<int>, rest: seq<bool>)
    requires forall k :: 0 <= k < |d| ==> SeFits(d[k])
    ensures SkipSe(|d|, PutSeAll(d, rest)) == Got((), rest)
  {
    hide GetSe, PutSe, SeFits;
    if d != [] {
      SeBack(d[0], PutSeAll(d[1..], rest));
      SkipSeBack(d[1..], rest);
    }
  }

  lemma PocBack(p: Poc, rest: seq<bool>)
    requires PocFits(p)
    ensures PocFields(PocType(p), PutPoc(p, rest)) ==
            if p.PocOther? then Bad else Got(if p.Poc0? then p.log2Minus4 + 4 else 0, rest)
  {
    hide GetSe, GetUe, GetFlag, PutSe, PutUe, PutFlag, SeFits, SkipSe, PutSeAll;
    match p {
      case Poc0(n) => UeBack(n, rest);
      case Poc1(always, x, y, cycle) =>
        var a := PutSeAll(cycle, rest);
        var b := PutUe(|cycle|, a);
        var c := PutSe(y, b);
        var d := PutSe(x, c);
        FlagBack(always, d);
        SeBack(x, c);
        SeBack(y, b);
        UeBack(|cycle|, a);
        SkipSeBack(cycle, rest);
      case Poc2 =>
      case PocOther(_) =>
    }
  }

  lemma SizeBack(x: Sps, rest: seq<bool>)
    requires SpsFits(x)
    ensures SizeFields(PutSize(x, rest)) == Got(x.frameMbsOnly, rest)
  {
    hide GetUe, GetFlag, PutUe, PutFlag, HighFits, PocFits;
    var a := PutFlag(x.frameMbsOnly, rest);
    var b := PutUe(x.height, a);
    var c := PutUe(x.width, b);
    var d := PutFlag(x.gaps, c);
    UeBack(x.refs, d);
    FlagBack(x.gaps, c);
    UeBack(x.width, b);
    UeBack(x.height, a);
    FlagBack(x.frameMbsOnly, rest);
  }

  /** The parser recovers the fields of every SPS, and refuses exactly those out of range. */
  lemma SpsBack(x: Sps, rest: seq<bool>)
    requires SpsFits(x)
    ensures H264SpsOf(PutSps(x, rest)) == if InRange(x) then Got((x.id, Kept(x)), rest) else Bad
  {
    hide GetUe, PutUe, SpsHead, PutHead, HighFields, PutHigh, PocFields, PutPoc, SizeFields, PutSize, HighFits, PocFits;
    var a := PutSize(x, rest);
    var b := PutPoc(x.poc, a);
    var c := PutUe(PocType(x.poc), b);
    var body := PutUe(x.frameNumMinus4, c);
    HeadBack(x, PutBehind(x, rest));
    if x.high.Some? {
      HighBack(x.high.value, body);
    }
    UeBack(x.frameNumMinus4, c);
    TypeFits(x.poc);
    UeBack(PocType(x.poc), b);
    PocBack(x.poc, a);
    SizeBack(x, rest);
  }

  lemma TypeFits(p: Poc)
    requires PocFits(p)
    ensures PocType(p) <= MAX_UE
  {
  }

  // ---- PPS and slice header ----------------------------------------------

  function PutPps(header: byte, id: nat, spsId: nat, rest: seq<bool>): seq<bool> {
    PutU(8, header, PutIds(id, spsId, rest))
  }

  function PutIds(id: nat, spsId: nat, rest: seq<bool>): seq<bool> {
    PutUe(id, PutUe(spsId, rest))
  }

  lemma PpsBack(header: byte, id: nat, spsId: nat, rest: seq<bool>)
    requires id <= MAX_UE && spsId <= MAX_UE
    ensures H264PpsOf(PutPps(header, id, spsId, rest)) == Got((id, spsId), rest)
  {
    hide GetSkip, GetUe, PutU, PutUe;
    SkipBack(8, header, PutUe(id, PutUe(spsId, rest)));
    UeBack(id, PutUe(spsId, rest));
    UeBack(spsId, rest);
  }

  /** How a slice is coded (Table 7-6 of ITU-T H.264). */
  datatype Coding = CodedP | CodedB | CodedI | CodedSp | CodedSi

  /** `again` is how often the table is run through before the code; the standard uses 0 and 1. */
  datatype Slice = Slice(
    header: byte, firstMb: nat, coding: Coding, again: nat, ppsId: nat, colourPlane: nat, frameNum: nat, field: bool,
    idrPicId: nat, lsb: nat)

  function SliceType(x: Slice): nat {
    5 * x.again + match x.coding case CodedP => 0 case CodedB => 1 case CodedI => 2 case CodedSp => 3 case CodedSi => 4
  }

  predicate Switches(x: Slice) {
    x.coding.CodedSp? || x.coding.CodedSi?
  }

  predicate SliceFits(x: Slice, sps: H264Sps) {
    && x.firstMb <= MAX_UE && SliceType(x) <= MAX_UE && x.ppsId <= MAX_UE && x.idrPicId <= MAX_UE
    && x.lsb < Pow2(sps.log2MaxPocLsb)
  }

  /** A frame, and of a POC type the parser looks at. */
  predicate Readable(x: Slice, sps: H264Sps) {
    (sps.frameMbsOnly || !x.field) && (sps.pocType == 0 || sps.pocType == 2)
  }

  predicate IsIdr(header: byte) {
    header % 32 == 5
  }

  /** The fields of a frame's slice from the colour plane up to the POC lsb. */
  function PutFrame(x: Slice, sps: H264Sps, rest: seq<bool>): seq<bool> {
    var lsb := if sps.pocType == 0 then PutU(sps.log2MaxPocLsb, x.lsb, rest) else rest;
    var idr := if IsIdr(x.header) then PutUe(x.idrPicId, lsb) else lsb;
    var field := if sps.frameMbsOnly then idr else PutFlag(x.field, idr);
    var frameNum := PutU(sps.log2MaxFrameNum, x.frameNum, field);
    if sps.separateColourPlane then PutU(2, x.colourPlane, frameNum) else frameNum
  }

  function PutSlice(x: Slice, sps: H264Sps, rest: seq<bool>): seq<bool> {
    PutU(8, x.header, PutUe(x.firstMb, PutUe(SliceType(x), PutUe(x.ppsId, PutFrame(x, sps, rest)))))
  }

  lemma FrameBack(x: Slice, sps: H264Sps, rest: seq<bool>)
    requires SliceFits(x, sps)
    ensures H264FrameFields(sps, IsIdr(x.header), PutFrame(x, sps, rest)) ==
            if Readable(x, sps) then Got(if sps.pocType == 0 then Some(x.lsb) else None, rest) else Bad
  {
    hide GetSkip, GetUe, GetU, GetFlag, PutU, PutUe, PutFlag, Pow2;
    var lsb := if sps.pocType == 0 then PutU(sps.log2MaxPocLsb, x.lsb, rest) else rest;
    var idr := if IsIdr(x.header) then PutUe(x.idrPicId, lsb) else lsb;
    var field := if sps.frameMbsOnly then idr else PutFlag(x.field, idr);
    var frameNum := PutU(sps.log2MaxFrameNum, x.frameNum, field);
    SkipBack(2, x.colourPlane, frameNum);
    NoSkip(frameNum);
    SkipBack(sps.log2MaxFrameNum, x.frameNum, field);
    FlagBack(x.field, idr);
    UeBack(x.idrPicId, lsb);
    assert SkipUe(if IsIdr(x.header) then 1 else 0, idr) == Got((), lsb) by {
      assert SkipUe(0, lsb) == Got((), lsb);
    }
    if sps.pocType == 0 {
      UBack(sps.log2MaxPocLsb, x.lsb, rest);
    }
  }

  // ---- What follows a structure can be written later ---------------------

  lemma {:induction false} SeAllMore(d: seq<int>, rest: seq<bool>, z: seq<bool>)
    ensures PutSeAll(d, rest + z) == PutSeAll(d, rest) + z
  {
    hide PutSe;
    if d != [] {
      SeAllMore(d[1..], rest, z);
      SeMore(d[0], PutSeAll(d[1..], rest), z);
    }
  }

  lemma {:induction false} ListsMore(lists: seq<Option<seq<int>>>, rest: seq<bool>, z: seq<bool>)
    ensures PutLists(lists, rest + z) == PutLists(lists, rest) + z
  {
    hide PutFlag, PutSeAll;
    if lists != [] {
      ListsMore(lists[1..], rest, z);
      var more := PutLists(lists[1..], rest);
      match lists[0] {
        case None => FlagMore(false, more, z);
        case Some(d) =>
          SeAllMore(d, more, z);
          FlagMore(true, PutSeAll(d, more), z);
      }
    }
  }

  lemma MatrixMore(m: Option<seq<Option<seq<int>>>>, rest: seq<bool>, z: seq<bool>)
    ensures PutMatrix(m, rest + z) == PutMatrix(m, rest) + z
  {
    hide PutFlag, PutLists;
    match m {
      case None => FlagMore(false, rest, z);
      case Some(lists) =>
        ListsMore(lists, rest, z);
        FlagMore(true, PutLists(lists, rest), z);
    }
  }

  lemma HighMore(h: High, rest: seq<bool>, z: seq<bool>)
    ensures PutHigh(h, rest + z) == PutHigh(h, rest) + z
  {
    hide PutUe, PutFlag, PutMatrix;
    var a := PutMatrix(h.matrix, rest);
    var b := PutFlag(h.bypass, a);
    var c := PutUe(h.chromaDepth, b);
    var d := PutUe(h.luma, c);
    MatrixMore(h.matrix, rest, z);
    FlagMore(h.bypass, a, z);
    UeMore(h.chromaDepth, b, z);
    UeMore(h.luma, c, z);
    FlagMore(h.separate, d, z);
    UeMore(h.chroma, if h.chroma == 3 then PutFlag(h.separate, d) else d, z);
  }

  lemma PocMore(p: Poc, rest: seq<bool>, z: seq<bool>)
    ensures PutPoc(p, rest + z) == PutPoc(p, rest) + z
  {
    hide PutUe, PutSe, PutFlag, PutSeAll;
    match p {
      case Poc0(n) => UeMore(n, rest, z);
      case Poc1(always, a, b, cycle) =>
        var s := PutSeAll(cycle, rest);
        SeAllMore(cycle, rest, z);
        UeMore(|cycle|, s, z);
        SeMore(b, PutUe(|cycle|, s), z);
        SeMore(a, PutSe(b, PutUe(|cycle|, s)), z);
        FlagMore(always, PutSe(a, PutSe(b, PutUe(|cycle|, s))), z);
      case Poc2 =>
      case PocOther(_) =>
    }
  }

  lemma SizeMore(x: Sps, rest: seq<bool>, z: seq<bool>)
    ensures PutSize(x, rest + z) == PutSize(x, rest) + z
  {
    hide PutUe, PutFlag;
    var a := PutFlag(x.frameMbsOnly, rest);
    var b := PutUe(x.height, a);
    var c := PutUe(x.width, b);
    FlagMore(x.frameMbsOnly, rest, z);
    UeMore(x.height, a, z);
    UeMore(x.width, b, z);
    FlagMore(x.gaps, c, z);
    UeMore(x.refs, PutFlag(x.gaps, c), z);
  }

  lemma BehindMore(x: Sps, rest: seq<bool>, z: seq<bool>)
    ensures PutBehind(x, rest + z) == PutBehind(x, rest) + z
  {
    hide PutUe, PutPoc, PutSize, PutHigh;
    var a := PutSize(x, rest);
    var b := PutPoc(x.poc, a);
    var c := PutUe(PocType(x.poc), b);
    SizeMore(x, rest, z);
    PocMore(x.poc, a, z);
    UeMore(PocType(x.poc), b, z);
    UeMore(x.frameNumMinus4, c, z);
    if x.high.Some? {
      HighMore(x.high.value, PutBody(x, rest), z);
    }
  }

  lemma SpsMore(x: Sps, rest: seq<bool>, z: seq<bool>)
    ensures PutSps(x, rest + z) == PutSps(x, rest) + z
  {
    hide PutU, PutUe, PutBehind;
    var a := PutBehind(x, rest);
    var b := PutUe(x.id, a);
    BehindMore(x, rest, z);
    UeMore(x.id, a, z);
    UMore(16, x.levels, b, z);
    UMore(8, x.profile, PutU(16, x.levels, b), z);
    UMore(8, x.header, PutProfile(x, a), z);
  }

  lemma PpsMore(header: byte, id: nat, spsId: nat, rest: seq<bool>, z: seq<bool>)
    ensures PutPps(header, id, spsId, rest + z) == PutPps(header, id, spsId, rest) + z
  {
    hide PutU, PutUe;
    UeMore(spsId, rest, z);
    UeMore(id, PutUe(spsId, rest), z);
    UMore(8, header, PutIds(id, spsId, rest), z);
  }

  lemma FrameMore(x: Slice, sps: H264Sps, rest: seq<bool>, z: seq<bool>)
    ensures PutFrame(x, sps, rest + z) == PutFrame(x, sps, rest) + z
  {
    hide PutU, PutUe, PutFlag;
    var lsb := if sps.pocType == 0 then PutU(sps.log2MaxPocLsb, x.lsb, rest) else rest;
    var idr := if IsIdr(x.header) then PutUe(x.idrPicId, lsb) else lsb;
    var field := if sps.frameMbsOnly then idr else PutFlag(x.field, idr);
    UMore(sps.log2MaxPocLsb, x.lsb, rest, z);
    UeMore(x.idrPicId, lsb, z);
    FlagMore(x.field, idr, z);
    UMore(sps.log2MaxFrameNum, x.frameNum, field, z);
    UMore(2, x.colourPlane, PutU(sps.log2MaxFrameNum, x.frameNum, field), z);
  }

  lemma SliceMore(x: Slice, sps: H264Sps, rest: seq<bool>, z: seq<bool>)
    ensures PutSlice(x, sps, rest + z) == PutSlice(x, sps, rest) + z
  {
    hide PutU, PutUe, PutFrame;
    var a := PutFrame(x, sps, rest);
    var b := PutUe(x.ppsId, a);
    var c := PutUe(SliceType(x), b);
    FrameMore(x, sps, rest, z);
    UeMore(x.ppsId, a, z);
    UeMore(SliceType(x), b, z);
    UeMore(x.firstMb, c, z);
    UMore(8, x.header, PutUe(x.firstMb, c), z);
  }

  // ---- NAL units ---------------------------------------------------------

  /** A NAL unit from its bits, header first: stop bit, padding, packed and escaped. */
  function Nal(bits: seq<bool>): seq<byte> {
    AnnexB.Escape(BitIO.Rbsp(bits))
  }

  /** It ends in a byte that is not zero. */
  lemma NalEnds(bits: seq<bool>)
    ensures var nal := Nal(bits); nal != [] && nal[|nal| - 1] != 0
  {
    hide BitIO.Rbsp, AnnexB.EscapeFrom;
    RbspEnds(bits);
  }

  lemma {:induction false} ValUBits(n: nat, v: nat)
    requires v < Pow2(n)
    ensures Val(UBits(n, v)) == v
  {
    if n > 0 {
      ValUBits(n - 1, v / 2);
      assert UBits(n, v)[..n - 1] == UBits(n - 1, v / 2);
    }
  }

  /** What the parser sees of a NAL unit: its header byte, and its bits with the stop bit behind them. */
  lemma NalBack(header: byte, rest: seq<bool>)
    ensures var bits := PutU(8, header, rest);
            var nal := Nal(bits);
            && nal != [] && nal[0] == header
            && AnnexB.Rbsp(nal) != [] && AnnexB.Rbsp(nal)[0] == header
            && BitsOf(AnnexB.Rbsp(nal)) == bits + Stop(|bits|)
  {
    hide UBits, BitsOf, AnnexB.UnescapeFrom, Stop;
    var bits := PutU(8, header, rest);
    var all := bits + Stop(|bits|);
    BitsOfPack(all);
    AnnexB.UnescapeEscape(Pack(all), 0);
    assert Pow2(8) == 256;
    ValUBits(8, header);
    assert all[..8] == UBits(8, header);
  }

  predicate SpsNalFits(x: Sps) {
    SpsFits(x) && InRange(x) && x.header % 32 == 7
  }

  lemma RecordIs(t: Tables, nal: seq<byte>)
    requires nal != []
    ensures nal[0] % 32 == 7 ==>
              var r := H264SpsOf(BitsOf(AnnexB.Rbsp(nal)));
              Record(t, H264, nal) ==
              if r.Got? then Some(t.(h264Sps := t.h264Sps[r.value.0 := r.value.1])) else None
    ensures nal[0] % 32 == 8 ==>
              var r := H264PpsOf(BitsOf(AnnexB.Rbsp(nal)));
              r.Got? ==> Record(t, H264, nal) == Some(t.(h264Pps := t.h264Pps[r.value.0 := r.value.1]))
  {
    hide H264SpsOf, H264PpsOf, HevcSpsOf, HevcPpsOf, BitsOf, AnnexB.Rbsp;
  }

  /** A written SPS ends up in the tables under its id, or is an error when it is out of range. */
  lemma RecordSps(t: Tables, x: Sps, tail: seq<bool>)
    requires SpsFits(x) && x.header % 32 == 7
    ensures Record(t, H264, Nal(PutSps(x, tail))) ==
            if InRange(x) then Some(t.(h264Sps := t.h264Sps[x.id := Kept(x)])) else None
  {
    hide Record, PutU, PutProfile, PutBehind, H264SpsOf, H264PpsOf, HighFits, PocFits, Nal, BitsOf, AnnexB.Rbsp, Stop;
    var z := Stop(|PutSps(x, tail)|);
    SpsMore(x, tail, z);
    SpsBack(x, tail + z);
    NalBack(x.header, PutProfile(x, PutBehind(x, tail)));
    RecordIs(t, Nal(PutSps(x, tail)));
  }

  lemma RecordPps(t: Tables, header: byte, id: nat, spsId: nat, tail: seq<bool>)
    requires id <= MAX_UE && spsId <= MAX_UE && header % 32 == 8
    ensures Record(t, H264, Nal(PutPps(header, id, spsId, tail))) == Some(t.(h264Pps := t.h264Pps[id := spsId]))
  {
    hide Record, PutU, PutIds, H264SpsOf, H264PpsOf, Nal, BitsOf, AnnexB.Rbsp, Stop;
    var z := Stop(|PutPps(header, id, spsId, tail)|);
    PpsMore(header, id, spsId, tail, z);
    PpsBack(header, id, spsId, tail + z);
    NalBack(header, PutIds(id, spsId, tail));
    RecordIs(t, Nal(PutPps(header, id, spsId, tail)));
  }

  predicate SliceNalFits(x: Slice, sps: H264Sps) {
    SliceFits(x, sps) && Readable(x, sps) && (x.header % 32 == 1 || x.header % 32 == 5)
  }

  function Kind(x: Slice): SliceKind {
    if Switches(x) then Switching else if x.coding.CodedP? then P else if x.coding.CodedB? then B else I
  }

  lemma KindBack(x: Slice)
    ensures H264Kind(SliceType(x)) == Kind(x)
  {
  }

  /** What a slice says: its kind, whether it starts a picture, its POC lsb, whether
      it is an IDR (type 5) and whether it is a reference (`nal_ref_idc` not 0). */
  function Said(x: Slice, sps: H264Sps): SliceInfo {
    SliceInfo(Some(Kind(x)), x.firstMb == 0, if sps.pocType == 0 then Some(x.lsb) else None,
              Pow2(sps.log2MaxPocLsb), x.header % 32 == 5, x.header / 32 % 4 != 0)
  }

  lemma SliceBack(t: Tables, x: Slice, sps: H264Sps, rest: seq<bool>, rbsp: seq<byte>)
    requires SliceFits(x, sps) && H264SpsFor(t, x.ppsId) == Some(sps)
    requires rbsp != [] && rbsp[0] == x.header && BitsOf(rbsp) == PutSlice(x, sps, rest)
    ensures H264SliceOf(t, rbsp, IsIdr(x.header)) == if Readable(x, sps) then Got(Said(x, sps), rest) else Bad
  {
    hide GetSkip, GetUe, PutU, PutUe, PutFrame, H264FrameFields, Pow2, BitsOf, H264Kind, SliceType, Kind;
    KindBack(x);
    var d := PutFrame(x, sps, rest);
    var c := PutUe(x.ppsId, d);
    var b := PutUe(SliceType(x), c);
    var a := PutUe(x.firstMb, b);
    SkipBack(8, x.header, a);
    UeBack(x.firstMb, b);
    UeBack(SliceType(x), c);
    UeBack(x.ppsId, d);
    FrameBack(x, sps, rest);
  }

  /** A written slice says what the encoder wrote; one of a field, or with POC type 1, is an error. */
  lemma ReadSlice(t: Tables, x: Slice, sps: H264Sps, tail: seq<bool>)
    requires SliceFits(x, sps) && (x.header % 32 == 1 || x.header % 32 == 5) && H264SpsFor(t, x.ppsId) == Some(sps)
    ensures IsSlice(H264, Nal(PutSlice(x, sps, tail)))
    ensures SliceOf(t, H264, Nal(PutSlice(x, sps, tail))) == if Readable(x, sps) then Some(Said(x, sps)) else None
  {
    hide PutU, PutUe, PutFrame, SliceType, H264SliceOf, HevcSliceOf, SliceFits, Nal, BitsOf, AnnexB.Rbsp, Said, Stop;
    var nal := Nal(PutSlice(x, sps, tail));
    var z := Stop(|PutSlice(x, sps, tail)|);
    SliceMore(x, sps, tail, z);
    NalBack(x.header, PutUe(x.firstMb, PutUe(SliceType(x), PutUe(x.ppsId, PutFrame(x, sps, tail)))));
    SliceBack(t, x, sps, tail + z, AnnexB.Rbsp(nal));
  }

  /** A slice that names a PPS or an SPS not seen yet is an error. */
  lemma UnknownSets(t: Tables, x: Slice, sps: H264Sps, tail: seq<bool>)
    requires SliceFits(x, sps) && (x.header % 32 == 1 || x.header % 32 == 5) && H264SpsFor(t, x.ppsId) == None
    ensures IsSlice(H264, Nal(PutSlice(x, sps, tail))) && SliceOf(t, H264, Nal(PutSlice(x, sps, tail))) == None
  {
    hide PutU, PutUe, PutFrame, GetSkip, GetUe, H264FrameFields, SliceType, HevcSliceOf, Nal, BitsOf, AnnexB.Rbsp, Stop;
    var z := Stop(|PutSlice(x, sps, tail)|);
    SliceMore(x, sps, tail, z);
    var d := PutFrame(x, sps, tail + z);
    var c := PutUe(x.ppsId, d);
    var b := PutUe(SliceType(x), c);
    NalBack(x.header, PutUe(x.firstMb, PutUe(SliceType(x), PutUe(x.ppsId, PutFrame(x, sps, tail)))));
    SkipBack(8, x.header, PutUe(x.firstMb, b));
    UeBack(x.firstMb, b);
    UeBack(SliceType(x), c);
    UeBack(x.ppsId, d);
  }

  /** Whatever the parser has seen, a written SPS, a PPS that names it and a slice that
      names the PPS are recovered field by field. The tails are the fields the parser does not read. */
  lemma HeadersRoundTrip(t: Tables, x: Sps, tail: seq<bool>, ppsHeader: byte, ppsTail: seq<bool>, y: Slice,
        sliceTail: seq<bool>)
    requires SpsNalFits(x) && y.ppsId <= MAX_UE && ppsHeader % 32 == 8 && SliceNalFits(y, Kept(x))
    ensures var t1 := Record(t, H264, Nal(PutSps(x, tail)));
            && t1.Some?
            && var t2 := Record(t1.value, H264, Nal(PutPps(ppsHeader, y.ppsId, x.id, ppsTail)));
            && t2.Some?
            && var nal := Nal(PutSlice(y, Kept(x), sliceTail));
            && IsSlice(H264, nal)
            && SliceOf(t2.value, H264, nal) == Some(Said(y, Kept(x)))
  {
    hide Record, SliceOf, IsSlice, PutSps, PutPps, PutSlice, Nal, SliceFits, Said, HighFits, PocFits, Kept;
    RecordSps(t, x, tail);
    var t1 := t.(h264Sps := t.h264Sps[x.id := Kept(x)]);
    RecordPps(t1, ppsHeader, y.ppsId, x.id, ppsTail);
    var t2 := t1.(h264Pps := t1.h264Pps[y.ppsId := x.id]);
    ReadSlice(t2, y, Kept(x), sliceTail);
  }
}
