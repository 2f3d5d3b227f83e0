/** The HEVC parameter sets and slice segment headers a conforming encoder writes (sections 7.3.2.2,
    7.3.2.3, 7.3.3 and 7.3.6 of ITU-T H.265), and the proof that the parser recovers them. */
module HevcWriter {
  import opened Common
  import opened BitIO
  import opened Headers
  import opened HeaderWriter
  import AnnexB

  // ---- The two header bytes ----------------------------------------------

  function PutHeader(hi: byte, lo: byte, rest: seq<bool>): seq<bool> {
    PutU(8, hi, PutU(8, lo, rest))
  }

  lemma HeaderSkipped(hi: byte, lo: byte, rest: seq<bool>)
    ensures GetSkip(16, PutHeader(hi, lo, rest)) == Got((), rest)
  {
    hide UBits;
    var s := PutHeader(hi, lo, rest);
    assert s == UBits(8, hi) + UBits(8, lo) + rest;
    assert s[16..] == rest;
  }

  /** The NAL type is in the first byte, and the second byte comes back as well. */
  lemma HeaderBack(hi: byte, lo: byte, rest: seq<bool>)
    ensures var bits := PutHeader(hi, lo, rest);
            var nal := Nal(bits);
            && NalType(Hevc, nal) == Some(hi / 2 % 64)
            && |AnnexB.Rbsp(nal)| >= 2 && AnnexB.Rbsp(nal)[1] == lo
            && BitsOf(AnnexB.Rbsp(nal)) == bits + Stop(|bits|)
  {
    hide Nal, AnnexB.Rbsp, BitsOf, UBits, Stop;
    var bits := PutHeader(hi, lo, rest);
    NalBack(hi, PutU(8, lo, rest));
    var rbsp := AnnexB.Rbsp(Nal(bits));
    SecondByte(rbsp);
    var all := bits + Stop(|bits|);
    assert all[8..16] == UBits(8, lo);
    SameByte(rbsp[1], lo);
  }

  lemma SecondByte(data: seq<byte>)
    requires |data| >= 2
    ensures BitsOf(data)[8..16] == UBits(8, data[1])
  {
    hide UBits;
    assert BitsOf(data) == UBits(8, data[0]) + (UBits(8, data[1]) + BitsOf(data[1..][1..]));
  }

  lemma SameByte(a: byte, b: byte)
    requires UBits(8, a) == UBits(8, b)
    ensures a == b
  {
    hide UBits, Val;
    assert Pow2(8) == 256;
    ValUBits(8, a);
    ValUBits(8, b);
  }

  lemma HeaderMore(hi: byte, lo: byte, rest: seq<bool>, z: seq<bool>)
    ensures PutHeader(hi, lo, rest + z) == PutHeader(hi, lo, rest) + z
  {
    hide PutU;
    UMore(8, lo, rest, z);
    UMore(8, hi, PutU(8, lo, rest), z);
  }

  // ---- The SPS -----------------------------------------------------------

  /** The fields of an SPS; a sub-layer's presence flags, and the data they announce in one number. */
  datatype HevcSpsFields = HevcSpsFields(
    vps: nat, nesting: nat, tier: nat, profile: nat, constraints: nat, level: nat,
    subLayers: seq<(bool, bool)>, alignment: nat, subData: nat, id: nat,
    chroma: nat, separate: bool, width: nat, height: nat, window: Option<seq<nat>>, depths: seq<nat>,
    pocMinus4: nat, all: bool, ordering: seq<nat>, minCbMinus3: nat, diff: nat)

  predicate AllUe(v: seq<nat>) {
    forall k :: 0 <= k < |v| ==> v[k] <= MAX_UE
  }

  function CtbLog2(x: HevcSpsFields): nat {
    x.minCbMinus3 + 3 + x.diff
  }

  predicate HevcSpsFits(x: HevcSpsFields) {
    && |x.subLayers| < 8 && x.profile < 32 && x.id <= MAX_UE
    && PictureFits(x) && CodingFits(x)
  }

  predicate PictureFits(x: HevcSpsFields) {
    && x.chroma <= MAX_UE && (x.chroma != 3 ==> !x.separate)
    && x.width <= MAX_UE && x.height <= MAX_UE
    && (x.window.Some? ==> |x.window.value| == 4 && AllUe(x.window.value))
    && |x.depths| == 2 && AllUe(x.depths)
  }

  predicate CodingFits(x: HevcSpsFields) {
    && x.pocMinus4 <= MAX_UE - 4
    && |x.ordering| == (if x.all then 3 * (|x.subLayers| + 1) else 3) && AllUe(x.ordering)
    && CtbLog2(x) <= MAX_UE
  }

  /** The fields the parser checks are in the range of the format. */
  predicate HevcInRange(x: HevcSpsFields) {
    x.pocMinus4 <= 12 && 4 <= CtbLog2(x) <= 6 && x.width > 0 && x.height > 0
  }

  /** What the parser should keep of the SPS. */
  function KeptHevc(x: HevcSpsFields): HevcSps
    requires HevcSpsFits(x) && HevcInRange(x)
  {
    HevcSps(x.profile, x.separate, x.pocMinus4 + 4,
            AddressBits(PicSizeInCtbs(x.width, x.height, Pow2(CtbLog2(x)))))
  }

  function PutUes(v: seq<nat>, rest: seq<bool>): seq<bool> {
    if v == [] then rest else PutUe(v[0], PutUes(v[1..], rest))
  }

  lemma {:induction false} UesBack(v: seq<nat>, rest: seq<bool>)
    requires AllUe(v)
    ensures SkipUe(|v|, PutUes(v, rest)) == Got((), rest)
  {
    hide GetUe, PutUe;
    if v != [] {
      UesBack(v[1..], rest);
      UeBack(v[0], PutUes(v[1..], rest));
    }
  }

  lemma {:induction false} UesMore(v: seq<nat>, rest: seq<bool>, z: seq<bool>)
    ensures PutUes(v, rest + z) == PutUes(v, rest) + z
  {
    hide PutUe;
    if v != [] {
      UesMore(v[1..], rest, z);
      UeMore(v[0], PutUes(v[1..], rest), z);
    }
  }

  function PutFlags(flags: seq<(bool, bool)>, rest: seq<bool>): seq<bool> {
    if flags == [] then rest else PutFlag(flags[0].0, PutFlag(flags[0].1, PutFlags(flags[1..], rest)))
  }

  /** How many bits the data of the sub-layers take. */
  function DataBits(flags: seq<(bool, bool)>): nat {
    if flags == [] then 0
    else (if flags[0].0 then 88 else 0) + (if flags[0].1 then 8 else 0) + DataBits(flags[1..])
  }

  lemma {:induction false} FlagsBack(flags: seq<(bool, bool)>, rest: seq<bool>)
    ensures SubLayerBits(|flags|, PutFlags(flags, rest)) == Got(DataBits(flags), rest)
  {
    hide GetFlag, PutFlag;
    if flags != [] {
      FlagsBack(flags[1..], rest);
      var more := PutFlags(flags[1..], rest);
      FlagBack(flags[0].0, PutFlag(flags[0].1, more));
      FlagBack(flags[0].1, more);
    }
  }

  lemma {:induction false} FlagsMore(flags: seq<(bool, bool)>, rest: seq<bool>, z: seq<bool>)
    ensures PutFlags(flags, rest + z) == PutFlags(flags, rest) + z
  {
    hide PutFlag;
    if flags != [] {
      FlagsMore(flags[1..], rest, z);
      var more := PutFlags(flags[1..], rest);
      FlagMore(flags[0].1, more, z);
      FlagMore(flags[0].0, PutFlag(flags[0].1, more), z);
    }
  }

  function Alignment(n: nat): nat
    requires n < 8
  {
    if n > 0 then 2 * (8 - n) else 0
  }

  function PutSubLayers(x: HevcSpsFields, rest: seq<bool>): seq<bool>
    requires |x.subLayers| < 8
  {
    PutFlags(x.subLayers, PutU(Alignment(|x.subLayers|), x.alignment, PutU(DataBits(x.subLayers), x.subData, rest)))
  }

  function PutTier(x: HevcSpsFields, rest: seq<bool>): seq<bool>
    requires |x.subLayers| < 8
  {
    var level := PutU(8, x.level, PutSubLayers(x, rest));
    PutU(3, x.tier, PutU(5, x.profile, PutU(80, x.constraints, level)))
  }

  lemma TierBack(x: HevcSpsFields, rest: seq<bool>)
    requires |x.subLayers| < 8 && x.profile < 32
    ensures ProfileTierLevel(|x.subLayers|, PutTier(x, rest)) == Got(x.profile, rest)
  {
    hide GetSkip, GetU, SubLayerBits, PutU, PutFlags, DataBits;
    var n := |x.subLayers|;
    var data := PutU(DataBits(x.subLayers), x.subData, rest);
    var pad := PutU(Alignment(n), x.alignment, data);
    var subs := PutFlags(x.subLayers, pad);
    var level := PutU(8, x.level, subs);
    var constraints := PutU(80, x.constraints, level);
    SkipBack(3, x.tier, PutU(5, x.profile, constraints));
    assert Pow2(5) == 32;
    UBack(5, x.profile, constraints);
    SkipBack(80, x.constraints, level);
    SkipBack(8, x.level, subs);
    FlagsBack(x.subLayers, pad);
    SkipBack(Alignment(n), x.alignment, data);
    SkipBack(DataBits(x.subLayers), x.subData, rest);
  }

  lemma TierMore(x: HevcSpsFields, rest: seq<bool>, z: seq<bool>)
    requires |x.subLayers| < 8
    ensures PutTier(x, rest + z) == PutTier(x, rest) + z
  {
    hide PutU, PutFlags, DataBits, Alignment;
    var n := |x.subLayers|;
    var data := PutU(DataBits(x.subLayers), x.subData, rest);
    var pad := PutU(Alignment(n), x.alignment, data);
    var subs := PutFlags(x.subLayers, pad);
    var level := PutU(8, x.level, subs);
    var constraints := PutU(80, x.constraints, level);
    UMore(DataBits(x.subLayers), x.subData, rest, z);
    UMore(Alignment(n), x.alignment, data, z);
    FlagsMore(x.subLayers, pad, z);
    UMore(8, x.level, subs, z);
    UMore(80, x.constraints, level, z);
    UMore(5, x.profile, constraints, z);
    UMore(3, x.tier, PutU(5, x.profile, constraints), z);
  }

  function PutWindow(x: HevcSpsFields, rest: seq<bool>): seq<bool> {
    PutFlag(x.window.Some?, PutUes(if x.window.Some? then x.window.value else [], PutUes(x.depths, rest)))
  }

  function PutPicture(x: HevcSpsFields, rest: seq<bool>): seq<bool> {
    var size := PutUe(x.width, PutUe(x.height, PutWindow(x, rest)));
    PutUe(x.chroma, if x.chroma == 3 then PutFlag(x.separate, size) else size)
  }

  lemma PictureBack(x: HevcSpsFields, rest: seq<bool>)
    requires PictureFits(x)
    ensures PictureFields(PutPicture(x, rest)) == Got(Picture(x.separate, x.width, x.height), rest)
  {
    hide GetUe, GetFlag, SkipUe, PutUe, PutFlag, PutUes, AllUe;
    var depths := PutUes(x.depths, rest);
    var offsets := if x.window.Some? then x.window.value else [];
    var window := PutFlag(x.window.Some?, PutUes(offsets, depths));
    var height := PutUe(x.height, window);
    var size := PutUe(x.width, height);
    UeBack(x.chroma, if x.chroma == 3 then PutFlag(x.separate, size) else size);
    FlagBack(x.separate, size);
    UeBack(x.width, height);
    UeBack(x.height, window);
    FlagBack(x.window.Some?, PutUes(offsets, depths));
    NoneUe();
    UesBack(offsets, depths);
    UesBack(x.depths, rest);
  }

  lemma NoneUe()
    ensures AllUe([])
  {
  }

  lemma PictureMore(x: HevcSpsFields, rest: seq<bool>, z: seq<bool>)
    ensures PutPicture(x, rest + z) == PutPicture(x, rest) + z
  {
    hide PutUe, PutFlag, PutUes;
    var depths := PutUes(x.depths, rest);
    var offsets := if x.window.Some? then x.window.value else [];
    var window := PutFlag(x.window.Some?, PutUes(offsets, depths));
    var height := PutUe(x.height, window);
    var size := PutUe(x.width, height);
    UesMore(x.depths, rest, z);
    UesMore(offsets, depths, z);
    FlagMore(x.window.Some?, PutUes(offsets, depths), z);
    UeMore(x.height, window, z);
    UeMore(x.width, height, z);
    FlagMore(x.separate, size, z);
    UeMore(x.chroma, if x.chroma == 3 then PutFlag(x.separate, size) else size, z);
  }

  function PutCoding(x: HevcSpsFields, rest: seq<bool>): seq<bool> {
    var blocks := PutUe(x.minCbMinus3, PutUe(x.diff, rest));
    PutUe(x.pocMinus4, PutFlag(x.all, PutUes(x.ordering, blocks)))
  }

  lemma CodingBack(x: HevcSpsFields, rest: seq<bool>)
    requires CodingFits(x)
    ensures CodingFields(|x.subLayers|, PutCoding(x, rest)) == Got((x.pocMinus4 + 4, CtbLog2(x)), rest)
  {
    hide GetUe, GetFlag, SkipUe, PutUe, PutFlag, PutUes, AllUe;
    var diff := PutUe(x.diff, rest);
    var blocks := PutUe(x.minCbMinus3, diff);
    var ordering := PutUes(x.ordering, blocks);
    UeBack(x.pocMinus4, PutFlag(x.all, ordering));
    FlagBack(x.all, ordering);
    UesBack(x.ordering, blocks);
    UeBack(x.minCbMinus3, diff);
    UeBack(x.diff, rest);
  }

  lemma CodingMore(x: HevcSpsFields, rest: seq<bool>, z: seq<bool>)
    ensures PutCoding(x, rest + z) == PutCoding(x, rest) + z
  {
    hide PutUe, PutFlag, PutUes;
    var diff := PutUe(x.diff, rest);
    var blocks := PutUe(x.minCbMinus3, diff);
    var ordering := PutUes(x.ordering, blocks);
    UeMore(x.diff, rest, z);
    UeMore(x.minCbMinus3, diff, z);
    UesMore(x.ordering, blocks, z);
    FlagMore(x.all, ordering, z);
    UeMore(x.pocMinus4, PutFlag(x.all, ordering), z);
  }

  function PutSpsFields(x: HevcSpsFields, rest: seq<bool>): seq<bool>
    requires |x.subLayers| < 8
  {
    var id := PutUe(x.id, PutPicture(x, PutCoding(x, rest)));
    PutU(4, x.vps, PutU(3, |x.subLayers|, PutU(1, x.nesting, PutTier(x, id))))
  }

  function PutHevcSps(hi: byte, lo: byte, x: HevcSpsFields, rest: seq<bool>): seq<bool>
    requires |x.subLayers| < 8
  {
    PutHeader(hi, lo, PutSpsFields(x, rest))
  }

  /** The parser recovers every SPS, with the width of its slice addresses, and refuses exactly those out of range. */
  lemma HevcSpsBack(hi: byte, lo: byte, x: HevcSpsFields, rest: seq<bool>)
    requires HevcSpsFits(x)
    ensures HevcSpsOf(PutHevcSps(hi, lo, x, rest)) == if HevcInRange(x) then Got((x.id, KeptHevc(x)), rest) else Bad
  {
    hide GetSkip, GetUe, GetU, ProfileTierLevel, PictureFields, CodingFields, PutHeader, PutUe, PutU, PutTier,
         PutPicture, PutCoding, PicSizeInCtbs, AddressBits, AllUe;
    var coding := PutCoding(x, rest);
    var picture := PutPicture(x, coding);
    var id := PutUe(x.id, picture);
    var tier := PutTier(x, id);
    HeaderSkipped(hi, lo, PutSpsFields(x, rest));
    SkipBack(4, x.vps, PutU(3, |x.subLayers|, PutU(1, x.nesting, tier)));
    assert Pow2(3) == 8;
    UBack(3, |x.subLayers|, PutU(1, x.nesting, tier));
    SkipBack(1, x.nesting, tier);
    TierBack(x, id);
    UeBack(x.id, picture);
    PictureBack(x, coding);
    CodingBack(x, rest);
  }

  lemma HevcSpsMore(hi: byte, lo: byte, x: HevcSpsFields, rest: seq<bool>, z: seq<bool>)
    requires |x.subLayers| < 8
    ensures PutHevcSps(hi, lo, x, rest + z) == PutHevcSps(hi, lo, x, rest) + z
  {
    hide PutHeader, PutUe, PutU, PutTier, PutPicture, PutCoding;
    var coding := PutCoding(x, rest);
    var picture := PutPicture(x, coding);
    var id := PutUe(x.id, picture);
    var tier := PutTier(x, id);
    CodingMore(x, rest, z);
    PictureMore(x, coding, z);
    UeMore(x.id, picture, z);
    TierMore(x, id, z);
    UMore(1, x.nesting, tier, z);
    UMore(3, |x.subLayers|, PutU(1, x.nesting, tier), z);
    UMore(4, x.vps, PutU(3, |x.subLayers|, PutU(1, x.nesting, tier)), z);
    HeaderMore(hi, lo, PutSpsFields(x, rest), z);
  }

  /** The address bits are just enough for every block address of the picture. */
  lemma AddressBitsFit(n: nat)
    requires n > 0
    ensures n <= Pow2(AddressBits(n)) && (AddressBits(n) > 0 ==> Pow2(AddressBits(n) - 1) < n)
  {
    if n > 1 {
      Log2Bounds(n - 1);
    }
  }

  /** The blocks of a side are just enough to cover it, and those of a picture are across times down. */
  lemma BlocksCover(width: nat, height: nat, ctb: nat) returns (across: nat, down: nat)
    requires ctb > 0 && width > 0 && height > 0
    ensures ctb * across < width + ctb && width <= ctb * across
    ensures ctb * down < height + ctb && height <= ctb * down
    ensures PicSizeInCtbs(width, height, ctb) == across * down
  {
    across, down := CtbsOf(width, ctb), CtbsOf(height, ctb);
    SideCovered(width, ctb);
    SideCovered(height, ctb);
  }

  lemma SideCovered(size: nat, ctb: nat)
    requires ctb > 0 && size > 0
    ensures ctb * CtbsOf(size, ctb) < size + ctb && size <= ctb * CtbsOf(size, ctb)
  {
    var q := (size - 1) / ctb;
    assert ctb * q <= size - 1 < ctb * q + ctb;
    assert ctb * (q + 1) == ctb * q + ctb;
  }

  /** Which NAL units are slices and which change the tables, by their types, in both formats. */
  lemma NalTypesExact(t: Tables, codec: Codec, nal: seq<byte>)
    requires nal != []
    ensures IsSlice(codec, nal) <==>
            match codec
            case H264 => nal[0] % 32 == 1 || nal[0] % 32 == 5
            case Hevc => nal[0] / 2 % 64 <= 9 || 16 <= nal[0] / 2 % 64 <= 21
            case Av1 => false
    ensures Record(t, codec, nal) != Some(t) ==>
              match codec
              case H264 => nal[0] % 32 == 7 || nal[0] % 32 == 8
              case Hevc => nal[0] / 2 % 64 == 33 || nal[0] / 2 % 64 == 34
              case Av1 => false
  {
    hide H264SpsOf, H264PpsOf, HevcSpsOf, HevcPpsOf, BitsOf, AnnexB.Rbsp;
  }

  lemma {:induction false} Log2Bounds(x: nat)
    requires x > 0
    ensures Pow2(Log2(x)) <= x < Pow2(Log2(x) + 1)
  {
    if x > 1 {
      Log2Bounds(x / 2);
    }
  }

  // ---- The PPS -----------------------------------------------------------

  predicate PpsFits(id: nat, pps: HevcPps) {
    id <= MAX_UE && pps.spsId <= MAX_UE && pps.numExtraSliceHeaderBits < 8
  }

  function PutPpsFields(id: nat, pps: HevcPps, rest: seq<bool>): seq<bool> {
    var flags := PutFlag(pps.outputFlagPresent, PutU(3, pps.numExtraSliceHeaderBits, rest));
    PutUe(id, PutUe(pps.spsId, PutFlag(pps.dependentSliceSegments, flags)))
  }

  function PutHevcPps(hi: byte, lo: byte, id: nat, pps: HevcPps, rest: seq<bool>): seq<bool> {
    PutHeader(hi, lo, PutPpsFields(id, pps, rest))
  }

  /** The parser recovers every PPS and its id. */
  lemma HevcPpsBack(hi: byte, lo: byte, id: nat, pps: HevcPps, rest: seq<bool>)
    requires PpsFits(id, pps)
    ensures HevcPpsOf(PutHevcPps(hi, lo, id, pps, rest)) == Got((id, pps), rest)
  {
    hide GetSkip, GetUe, GetFlag, GetU, PutHeader, PutUe, PutFlag, PutU;
    var a := PutU(3, pps.numExtraSliceHeaderBits, rest);
    var b := PutFlag(pps.outputFlagPresent, a);
    var c := PutFlag(pps.dependentSliceSegments, b);
    HeaderSkipped(hi, lo, PutPpsFields(id, pps, rest));
    UeBack(id, PutUe(pps.spsId, c));
    UeBack(pps.spsId, c);
    FlagBack(pps.dependentSliceSegments, b);
    FlagBack(pps.outputFlagPresent, a);
    assert Pow2(3) == 8;
    UBack(3, pps.numExtraSliceHeaderBits, rest);
  }

  lemma HevcPpsMore(hi: byte, lo: byte, id: nat, pps: HevcPps, rest: seq<bool>, z: seq<bool>)
    ensures PutHevcPps(hi, lo, id, pps, rest + z) == PutHevcPps(hi, lo, id, pps, rest) + z
  {
    hide PutHeader, PutUe, PutFlag, PutU;
    var a := PutU(3, pps.numExtraSliceHeaderBits, rest);
    var b := PutFlag(pps.outputFlagPresent, a);
    var c := PutFlag(pps.dependentSliceSegments, b);
    UMore(3, pps.numExtraSliceHeaderBits, rest, z);
    FlagMore(pps.outputFlagPresent, a, z);
    FlagMore(pps.dependentSliceSegments, b, z);
    UeMore(pps.spsId, c, z);
    UeMore(id, PutUe(pps.spsId, c), z);
    HeaderMore(hi, lo, PutPpsFields(id, pps, rest), z);
  }

  // ---- The slice segment header ------------------------------------------

  /** The pictures a slice segment can belong to (Table 7-1 of ITU-T H.265); N is a sub-layer non-reference. */
  datatype PictureKind =
    | TrailN | TrailR | TsaN | TsaR | StsaN | StsaR | RadlN | RadlR | RaslN | RaslR
    | BlaWLp | BlaWRadl | BlaNLp | IdrWRadl | IdrNLp | Cra

  function PictureType(p: PictureKind): nat {
    match p
    case TrailN => 0 case TrailR => 1 case TsaN => 2 case TsaR => 3 case StsaN => 4 case StsaR => 5
    case RadlN => 6 case RadlR => 7 case RaslN => 8 case RaslR => 9
    case BlaWLp => 16 case BlaWRadl => 17 case BlaNLp => 18 case IdrWRadl => 19 case IdrNLp => 20 case Cra => 21
  }

  /** A segment in the bits of its header; `temporal` is nuh_temporal_id_plus1. */
  datatype Segment = Segment(
    forbidden: bool, picture: PictureKind, layer: nat, temporal: nat, first: bool, noOutput: bool, ppsId: nat,
    dependent: bool, address: nat, reserved: nat, kind: SliceKind, output: bool, plane: nat, lsb: nat)

  /** Table 7-7; HEVC has no switching slices, their number stands for those the table does not name. */
  function SegmentType(x: Segment): nat {
    if x.kind == B then 0 else if x.kind == P then 1 else if x.kind == I then 2 else 3
  }

  function Hi(x: Segment): byte
    requires x.layer < 64
  {
    (if x.forbidden then 128 else 0) + 2 * PictureType(x.picture) + x.layer / 32
  }

  function Lo(x: Segment): byte
    requires x.temporal < 8
  {
    x.layer % 32 * 8 + x.temporal
  }

  lemma HeaderBytes(x: Segment)
    requires x.layer < 64 && x.temporal < 8
    ensures Hi(x) / 2 % 64 == PictureType(x.picture) && Lo(x) % 8 == x.temporal
  {
  }

  predicate Idr(x: Segment) {
    x.picture.IdrWRadl? || x.picture.IdrNLp?
  }

  /** Later pictures take their POC from references of the lowest sub-layer that no leading picture is. */
  predicate Anchors(x: Segment) {
    && x.temporal <= 1 && !x.picture.RadlR? && !x.picture.RaslR?
    && !x.picture.TrailN? && !x.picture.TsaN? && !x.picture.StsaN? && !x.picture.RadlN? && !x.picture.RaslN?
  }

  /** Only a segment that does not start its picture can depend on the one before. */
  predicate SegmentFits(x: Segment, pps: HevcPps, sps: HevcSps) {
    && x.layer < 64 && x.temporal < 8 && x.ppsId <= MAX_UE
    && (x.dependent ==> !x.first && pps.dependentSliceSegments)
    && (Idr(x) ==> x.lsb == 0) && x.lsb < Pow2(sps.log2MaxPocLsb)
  }

  /** The fields of an independent segment from the reserved bits up to the POC lsb. */
  function PutRest(x: Segment, pps: HevcPps, sps: HevcSps, rest: seq<bool>): seq<bool> {
    var lsb := if Idr(x) then rest else PutU(sps.log2MaxPocLsb, x.lsb, rest);
    var plane := PutU(if sps.separateColourPlane then 2 else 0, x.plane, lsb);
    var output := if pps.outputFlagPresent then PutFlag(x.output, plane) else plane;
    PutU(pps.numExtraSliceHeaderBits, x.reserved, PutUe(SegmentType(x), output))
  }

  function PutPlace(x: Segment, pps: HevcPps, sps: HevcSps, rest: seq<bool>): seq<bool> {
    var address := PutU(if x.first then 0 else sps.addressBits, x.address, rest);
    if !x.first && pps.dependentSliceSegments then PutFlag(x.dependent, address) else address
  }

  function PutStart(x: Segment, pps: HevcPps, sps: HevcSps, rest: seq<bool>): seq<bool>
    requires x.layer < 64 && x.temporal < 8
  {
    var id := PutUe(x.ppsId, PutPlace(x, pps, sps, rest));
    var output := if 16 <= PictureType(x.picture) <= 23 then PutFlag(x.noOutput, id) else id;
    PutHeader(Hi(x), Lo(x), PutFlag(x.first, output))
  }

  function PutSegment(x: Segment, pps: HevcPps, sps: HevcSps, rest: seq<bool>): seq<bool>
    requires x.layer < 64 && x.temporal < 8
  {
    PutStart(x, pps, sps, if x.dependent then rest else PutRest(x, pps, sps, rest))
  }

  /** What a segment says. */
  function SegmentSaid(x: Segment, sps: HevcSps): SliceInfo {
    var max, anchor := Pow2(sps.log2MaxPocLsb), Anchors(x);
    if x.dependent then SliceInfo(None, false, None, max, Idr(x), anchor)
    else SliceInfo(Some(x.kind), x.first, Some(x.lsb), max, Idr(x), anchor)
  }

  lemma RestBack(x: Segment, pps: HevcPps, sps: HevcSps, dependent: bool, rest: seq<bool>)
    requires SegmentFits(x, pps, sps)
    ensures HevcSliceRest(HevcStart(x.first, pps, sps, dependent), Idr(x), PutRest(x, pps, sps, rest)) ==
            if x.kind == Switching then Bad else Got((x.kind, x.lsb), rest)
  {
    hide GetSkip, GetUe, GetU, GetFlag, PutU, PutUe, PutFlag, Pow2, PictureType;
    var lsb := if Idr(x) then rest else PutU(sps.log2MaxPocLsb, x.lsb, rest);
    var plane := PutU(if sps.separateColourPlane then 2 else 0, x.plane, lsb);
    var output := if pps.outputFlagPresent then PutFlag(x.output, plane) else plane;
    SkipBack(pps.numExtraSliceHeaderBits, x.reserved, PutUe(SegmentType(x), output));
    UeBack(SegmentType(x), output);
    FlagBack(x.output, plane);
    SkipBack(if sps.separateColourPlane then 2 else 0, x.plane, lsb);
    UBack(sps.log2MaxPocLsb, x.lsb, rest);
  }

  lemma StartBack(t: Tables, x: Segment, pps: HevcPps, sps: HevcSps, rest: seq<bool>)
    requires SegmentFits(x, pps, sps)
    requires x.ppsId in t.hevcPps && t.hevcPps[x.ppsId] == pps && pps.spsId in t.hevcSps && t.hevcSps[pps.spsId] == sps
    ensures HevcSliceStart(t, PictureType(x.picture), PutStart(x, pps, sps, rest)) ==
            Got(HevcStart(x.first, pps, sps, x.dependent), rest)
  {
    hide GetSkip, GetUe, GetU, GetFlag, PutU, PutUe, PutFlag, PutHeader, Pow2, PictureType, Idr;
    var address := PutU(if x.first then 0 else sps.addressBits, x.address, rest);
    var id := PutUe(x.ppsId, PutPlace(x, pps, sps, rest));
    var output := if 16 <= PictureType(x.picture) <= 23 then PutFlag(x.noOutput, id) else id;
    HeaderSkipped(Hi(x), Lo(x), PutFlag(x.first, output));
    FlagBack(x.first, output);
    FlagBack(x.noOutput, id);
    UeBack(x.ppsId, PutPlace(x, pps, sps, rest));
    FlagBack(x.dependent, address);
    SkipBack(if x.first then 0 else sps.addressBits, x.address, rest);
  }

  lemma RestMore(x: Segment, pps: HevcPps, sps: HevcSps, rest: seq<bool>, z: seq<bool>)
    ensures PutRest(x, pps, sps, rest + z) == PutRest(x, pps, sps, rest) + z
  {
    hide PutU, PutUe, PutFlag, Idr;
    var lsb := if Idr(x) then rest else PutU(sps.log2MaxPocLsb, x.lsb, rest);
    var plane := PutU(if sps.separateColourPlane then 2 else 0, x.plane, lsb);
    var output := if pps.outputFlagPresent then PutFlag(x.output, plane) else plane;
    UMore(sps.log2MaxPocLsb, x.lsb, rest, z);
    UMore(if sps.separateColourPlane then 2 else 0, x.plane, lsb, z);
    FlagMore(x.output, plane, z);
    UeMore(SegmentType(x), output, z);
    UMore(pps.numExtraSliceHeaderBits, x.reserved, PutUe(SegmentType(x), output), z);
  }

  lemma StartMore(x: Segment, pps: HevcPps, sps: HevcSps, rest: seq<bool>, z: seq<bool>)
    requires x.layer < 64 && x.temporal < 8
    ensures PutStart(x, pps, sps, rest + z) == PutStart(x, pps, sps, rest) + z
  {
    hide PutU, PutUe, PutFlag, PutHeader, PictureType;
    var address := PutU(if x.first then 0 else sps.addressBits, x.address, rest);
    var id := PutUe(x.ppsId, PutPlace(x, pps, sps, rest));
    var output := if 16 <= PictureType(x.picture) <= 23 then PutFlag(x.noOutput, id) else id;
    UMore(if x.first then 0 else sps.addressBits, x.address, rest, z);
    FlagMore(x.dependent, address, z);
    UeMore(x.ppsId, PutPlace(x, pps, sps, rest), z);
    FlagMore(x.noOutput, id, z);
    FlagMore(x.first, output, z);
    HeaderMore(Hi(x), Lo(x), PutFlag(x.first, output), z);
  }

  lemma SegmentMore(x: Segment, pps: HevcPps, sps: HevcSps, rest: seq<bool>, z: seq<bool>)
    requires x.layer < 64 && x.temporal < 8
    ensures PutSegment(x, pps, sps, rest + z) == PutSegment(x, pps, sps, rest) + z
  {
    hide PutStart, PutRest;
    if x.dependent {
      StartMore(x, pps, sps, rest, z);
    } else {
      RestMore(x, pps, sps, rest, z);
      StartMore(x, pps, sps, PutRest(x, pps, sps, rest), z);
    }
  }

  lemma AnchorBack(x: Segment)
    requires x.layer < 64 && x.temporal < 8
    ensures HevcAnchor(Lo(x), PictureType(x.picture)) == Anchors(x)
    ensures Idr(x) <==> PictureType(x.picture) == 19 || PictureType(x.picture) == 20
  {
  }

  lemma SegmentBack(t: Tables, x: Segment, pps: HevcPps, sps: HevcSps, rest: seq<bool>, rbsp: seq<byte>)
    requires SegmentFits(x, pps, sps)
    requires x.ppsId in t.hevcPps && t.hevcPps[x.ppsId] == pps && pps.spsId in t.hevcSps && t.hevcSps[pps.spsId] == sps
    requires |rbsp| >= 2 && rbsp[1] == Lo(x) && BitsOf(rbsp) == PutSegment(x, pps, sps, rest)
    ensures HevcSliceOf(t, rbsp, PictureType(x.picture)) ==
            if !x.dependent && x.kind == Switching then Bad else Got(SegmentSaid(x, sps), rest)
  {
    hide HevcSliceStart, HevcSliceRest, PutStart, PutRest, BitsOf, Pow2, PictureType, HevcAnchor, Idr, Anchors;
    AnchorBack(x);
    if x.dependent {
      StartBack(t, x, pps, sps, rest);
    } else {
      StartBack(t, x, pps, sps, PutRest(x, pps, sps, rest));
      RestBack(x, pps, sps, false, rest);
    }
  }

  // ---- NAL units ---------------------------------------------------------

  /** A written SPS ends up in the tables under its id, or is an error when it is out of range. */
  lemma RecordHevcSps(t: Tables, hi: byte, lo: byte, x: HevcSpsFields, tail: seq<bool>)
    requires HevcSpsFits(x) && hi / 2 % 64 == 33
    ensures Record(t, Hevc, Nal(PutHevcSps(hi, lo, x, tail))) ==
            if HevcInRange(x) then Some(t.(hevcSps := t.hevcSps[x.id := KeptHevc(x)])) else None
  {
    hide H264SpsOf, H264PpsOf, HevcSpsOf, HevcPpsOf, PutSpsFields, PutHeader, Nal, NalType, BitsOf, AnnexB.Rbsp, Stop,
         PictureFits, CodingFits, KeptHevc;
    var z := Stop(|PutHevcSps(hi, lo, x, tail)|);
    HevcSpsMore(hi, lo, x, tail, z);
    HevcSpsBack(hi, lo, x, tail + z);
    HeaderBack(hi, lo, PutSpsFields(x, tail));
  }

  /** A written PPS ends up in the tables under its id. */
  lemma RecordHevcPps(t: Tables, hi: byte, lo: byte, id: nat, pps: HevcPps, tail: seq<bool>)
    requires PpsFits(id, pps) && hi / 2 % 64 == 34
    ensures Record(t, Hevc, Nal(PutHevcPps(hi, lo, id, pps, tail))) == Some(t.(hevcPps := t.hevcPps[id := pps]))
  {
    hide H264SpsOf, H264PpsOf, HevcSpsOf, HevcPpsOf, PutPpsFields, PutHeader, Nal, NalType, BitsOf, AnnexB.Rbsp, Stop;
    var z := Stop(|PutHevcPps(hi, lo, id, pps, tail)|);
    HevcPpsMore(hi, lo, id, pps, tail, z);
    HevcPpsBack(hi, lo, id, pps, tail + z);
    HeaderBack(hi, lo, PutPpsFields(id, pps, tail));
  }

  /** A written slice segment says what the encoder wrote: kind, first in picture, POC lsb, IDR and anchor. */
  lemma ReadSegment(t: Tables, x: Segment, pps: HevcPps, sps: HevcSps, tail: seq<bool>)
    requires SegmentFits(x, pps, sps)
    requires x.ppsId in t.hevcPps && t.hevcPps[x.ppsId] == pps && pps.spsId in t.hevcSps && t.hevcSps[pps.spsId] == sps
    ensures IsSlice(Hevc, Nal(PutSegment(x, pps, sps, tail)))
    ensures SliceOf(t, Hevc, Nal(PutSegment(x, pps, sps, tail))) ==
            if !x.dependent && x.kind == Switching then None else Some(SegmentSaid(x, sps))
  {
    hide H264SliceOf, HevcSliceOf, PutStart, PutRest, Nal, NalType, BitsOf, AnnexB.Rbsp, SegmentSaid, Pow2, Stop;
    var bits := PutSegment(x, pps, sps, tail);
    var z := Stop(|bits|);
    SegmentMore(x, pps, sps, tail, z);
    SegmentHeader(x, pps, sps, tail);
    SegmentBack(t, x, pps, sps, tail + z, AnnexB.Rbsp(Nal(bits)));
  }

  lemma SegmentHeader(x: Segment, pps: HevcPps, sps: HevcSps, tail: seq<bool>)
    requires x.layer < 64 && x.temporal < 8
    ensures var bits := PutSegment(x, pps, sps, tail);
            var nal := Nal(bits);
            && NalType(Hevc, nal) == Some(PictureType(x.picture))
            && |AnnexB.Rbsp(nal)| >= 2 && AnnexB.Rbsp(nal)[1] == Lo(x)
            && BitsOf(AnnexB.Rbsp(nal)) == bits + Stop(|bits|)
  {
    hide PutHeader, PutPlace, PutUe, PutFlag, PutRest, Nal, NalType, BitsOf, AnnexB.Rbsp, Stop;
    var rest := if x.dependent then tail else PutRest(x, pps, sps, tail);
    var id := PutUe(x.ppsId, PutPlace(x, pps, sps, rest));
    var output := if 16 <= PictureType(x.picture) <= 23 then PutFlag(x.noOutput, id) else id;
    HeaderBytes(x);
    HeaderBack(Hi(x), Lo(x), PutFlag(x.first, output));
  }

  /** An SPS, a PPS that names it and a slice segment that names the PPS, all of matching NAL types. */
  predicate HevcFits(spsHi: byte, x: HevcSpsFields, ppsHi: byte, pps: HevcPps, y: Segment) {
    && HevcSpsFits(x) && HevcInRange(x) && spsHi / 2 % 64 == 33
    && PpsFits(y.ppsId, pps) && ppsHi / 2 % 64 == 34 && pps.spsId == x.id
    && SegmentFits(y, pps, KeptHevc(x)) && y.kind != Switching
  }

  /** Whatever the parser has seen, a written SPS, PPS and slice segment are recovered field by field. */
  lemma HevcRoundTrip(t: Tables, spsHi: byte, spsLo: byte, x: HevcSpsFields, spsTail: seq<bool>,
                      ppsHi: byte, ppsLo: byte, pps: HevcPps, ppsTail: seq<bool>, y: Segment, tail: seq<bool>)
    requires HevcFits(spsHi, x, ppsHi, pps, y)
    ensures var t1 := Record(t, Hevc, Nal(PutHevcSps(spsHi, spsLo, x, spsTail)));
            && t1.Some?
            && var t2 := Record(t1.value, Hevc, Nal(PutHevcPps(ppsHi, ppsLo, y.ppsId, pps, ppsTail)));
            && t2.Some?
            && var nal := Nal(PutSegment(y, pps, KeptHevc(x), tail));
            && IsSlice(Hevc, nal) && SliceOf(t2.value, Hevc, nal) == Some(SegmentSaid(y, KeptHevc(x)))
  {
    hide Record, SliceOf, IsSlice, PutHevcSps, PutHevcPps, PutSegment, Nal, SegmentFits, SegmentSaid, PictureType,
         KeptHevc, PictureFits, CodingFits;
    RecordHevcSps(t, spsHi, spsLo, x, spsTail);
    var t1 := t.(hevcSps := t.hevcSps[x.id := KeptHevc(x)]);
    RecordHevcPps(t1, ppsHi, ppsLo, y.ppsId, pps, ppsTail);
    ReadSegment(t1.(hevcPps := t1.hevcPps[y.ppsId := pps]), y, pps, KeptHevc(x), tail);
  }
}
