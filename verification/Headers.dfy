/** The H.264 and HEVC header parser (native/crates/codec-goldens/src/nal.rs): what
    each NAL unit says, as functions on its bits, and the parser that reads it in place. */
module Headers {
  import opened Common
  import opened BitIO
  import AnnexB

  datatype Codec = H264 | Hevc | Av1

  datatype SliceKind = I | P | B | Switching

  datatype SliceInfo = SliceInfo(
    kind: Option<SliceKind>, firstInPicture: bool, pocLsb: Option<nat>, maxPocLsb: nat, idr: bool, pocAnchor: bool)

  /** A field width the parser has checked. */
  type Width = n: nat | n <= 16

  datatype H264Sps = H264Sps(
    profileIdc: nat, separateColourPlane: bool, log2MaxFrameNum: Width, pocType: nat, log2MaxPocLsb: Width,
    frameMbsOnly: bool)

  datatype HevcSps = HevcSps(profileIdc: nat, separateColourPlane: bool, log2MaxPocLsb: Width, addressBits: nat)

  datatype HevcPps = HevcPps(
    spsId: nat, dependentSliceSegments: bool, outputFlagPresent: bool, numExtraSliceHeaderBits: nat)

  /** The parameter sets seen so far, by id. */
  datatype Tables = Tables(
    h264Sps: map<nat, H264Sps>, h264Pps: map<nat, nat>, hevcSps: map<nat, HevcSps>, hevcPps: map<nat, HevcPps>)

  const NO_TABLES := Tables(map[], map[], map[], map[])

  function NalType(codec: Codec, nal: seq<byte>): Option<nat> {
    if nal == [] then None
    else match codec
      case H264 => Some(nal[0] % 32)
      case Hevc => Some(nal[0] / 2 % 64)
      case Av1 => None
  }

  const HIGH_PROFILES: set<nat> := {100, 110, 122, 244, 44, 83, 86, 118, 128, 138, 139, 134, 135}

  // ---- H.264 parameter sets ----------------------------------------------

  /** Rust's `%` on a possibly negative left operand. */
  function Rem(a: int, n: int): int
    requires n > 0
  {
    if a >= 0 then a % n else -((-a) % n)
  }

  /** `n` more entries of a scaling list; an entry has bits only while `next` is not 0. */
  function ScalingList(n: nat, last: int, next: int, s: seq<bool>): Read<()> {
    if n == 0 then Got((), s)
    else if next == 0 then ScalingList(n - 1, last, 0, s)
    else
      var (delta, s) :- GetSe(s);
      var next := Rem(last + delta + 256, 256);
      ScalingList(n - 1, if next != 0 then next else last, next, s)
  }

  function ListSize(i: nat): nat {
    if i < 6 then 16 else 64
  }

  function ScalingLists(i: nat, lists: nat, s: seq<bool>): Read<()>
    requires i <= lists
    decreases lists - i
  {
    if i == lists then Got((), s)
    else
      var (present, s) :- GetFlag(s);
      var (_, s) :- if present then ScalingList(ListSize(i), 8, 8, s) else Got((), s);
      ScalingLists(i + 1, lists, s)
  }

  /** The fields only high profiles carry; their `separate_colour_plane_flag`. */
  function HighFields(s: seq<bool>): Read<bool> {
    var (chroma, s) :- GetUe(s);
    var (separate, s) :- if chroma == 3 then GetFlag(s) else Got(false, s);
    var (_, s) :- GetUe(s);
    var (_, s) :- GetUe(s);
    var (_, s) :- GetFlag(s);
    var (matrix, s) :- GetFlag(s);
    var (_, s) :- if matrix then ScalingLists(0, if chroma == 3 then 12 else 8, s) else Got((), s);
    Got(separate, s)
  }

  function SkipSe(n: nat, s: seq<bool>): Read<()> {
    if n == 0 then Got((), s)
    else
      var (_, s) :- GetSe(s);
      SkipSe(n - 1, s)
  }

  /** `log2_max_pic_order_cnt_lsb`, or the fields that stand there for other POC types. */
  function PocFields(pocType: nat, s: seq<bool>): Read<nat> {
    match pocType
    case 0 =>
      var (v, s) :- GetUe(s);
      Got(v + 4, s)
    case 1 =>
      var (_, s) :- GetFlag(s);
      var (_, s) :- GetSe(s);
      var (_, s) :- GetSe(s);
      var (n, s) :- GetUe(s);
      var (_, s) :- SkipSe(n, s);
      Got(0, s)
    case 2 => Got(0, s)
    case _ => Bad
  }

  /** The fields behind the POC fields; `frame_mbs_only_flag`. */
  function SizeFields(s: seq<bool>): Read<bool> {
    var (_, s) :- GetUe(s);
    var (_, s) :- GetFlag(s);
    var (_, s) :- GetUe(s);
    var (_, s) :- GetUe(s);
    GetFlag(s)
  }

  function SpsHead(s: seq<bool>): Read<(nat, nat)> {
    var (_, s) :- GetSkip(8, s);
    var (profile, s) :- GetU(8, s);
    var (_, s) :- GetSkip(16, s);
    var (id, s) :- GetUe(s);
    Got((profile, id), s)
  }

  /** An H.264 SPS and its id. */
  function H264SpsOf(s: seq<bool>): Read<(nat, H264Sps)> {
    var (head, s) :- SpsHead(s);
    var (separate, s) :- if head.0 in HIGH_PROFILES then HighFields(s) else Got(false, s);
    var (frameNum, s) :- GetUe(s);
    var (pocType, s) :- GetUe(s);
    var (log2MaxPocLsb, s) :- PocFields(pocType, s);
    var (frameMbsOnly, s) :- SizeFields(s);
    if frameNum + 4 > 16 || log2MaxPocLsb > 16 then Bad
    else Got((head.1, H264Sps(head.0, separate, frameNum + 4, pocType, log2MaxPocLsb, frameMbsOnly)), s)
  }

  /** An H.264 PPS: its id and the SPS it names. */
  function H264PpsOf(s: seq<bool>): Read<(nat, nat)> {
    var (_, s) :- GetSkip(8, s);
    var (id, s) :- GetUe(s);
    var (spsId, s) :- GetUe(s);
    Got((id, spsId), s)
  }

  // ---- HEVC parameter sets -----------------------------------------------

  /** The presence flags of `n` sub-layers: how many bits their data takes. */
  function SubLayerBits(n: nat, s: seq<bool>): Read<nat> {
    if n == 0 then Got(0, s)
    else
      var (profile, s) :- GetFlag(s);
      var (level, s) :- GetFlag(s);
      var (more, s) :- SubLayerBits(n - 1, s);
      Got((if profile then 88 else 0) + (if level then 8 else 0) + more, s)
  }

  /** `profile_tier_level`: `general_profile_idc`. */
  function ProfileTierLevel(maxSubLayers: nat, s: seq<bool>): Read<nat>
    requires maxSubLayers < 8
  {
    var (_, s) :- GetSkip(3, s);
    var (profile, s) :- GetU(5, s);
    var (_, s) :- GetSkip(32 + 4 + 43 + 1, s);
    var (_, s) :- GetSkip(8, s);
    var (bits, s) :- SubLayerBits(maxSubLayers, s);
    var (_, s) :- GetSkip(if maxSubLayers > 0 then 2 * (8 - maxSubLayers) else 0, s);
    var (_, s) :- GetSkip(bits, s);
    Got(profile, s)
  }

  function SkipUe(n: nat, s: seq<bool>): Read<()> {
    if n == 0 then Got((), s)
    else
      var (_, s) :- GetUe(s);
      SkipUe(n - 1, s)
  }

  datatype Picture = Picture(separateColourPlane: bool, width: nat, height: nat)

  /** Chroma format, picture size, conformance window and bit depths. */
  function PictureFields(s: seq<bool>): Read<Picture> {
    var (chroma, s) :- GetUe(s);
    var (separate, s) :- if chroma == 3 then GetFlag(s) else Got(false, s);
    var (width, s) :- GetUe(s);
    var (height, s) :- GetUe(s);
    var (window, s) :- GetFlag(s);
    var (_, s) :- SkipUe(if window then 4 else 0, s);
    var (_, s) :- SkipUe(2, s);
    Got(Picture(separate, width, height), s)
  }

  /** POC lsb width, sub-layer ordering info and coding block sizes: the first and `log2_ctb`. */
  function CodingFields(maxSubLayers: nat, s: seq<bool>): Read<(nat, nat)> {
    var (poc, s) :- GetUe(s);
    var (all, s) :- GetFlag(s);
    var (_, s) :- SkipUe(if all then 3 * (maxSubLayers + 1) else 3, s);
    var (minCb, s) :- GetUe(s);
    var (diff, s) :- GetUe(s);
    Got((poc + 4, minCb + 3 + diff), s)
  }

  /** `Ceil(Log2(n))`, the bits an address below `n` takes. */
  function AddressBits(n: nat): nat
    requires n > 0
  {
    if n == 1 then 0 else Log2(n - 1) + 1
  }

  function CtbsOf(size: nat, ctb: nat): (n: nat)
    requires ctb > 0 && size > 0
    ensures n > 0
  {
    DivPos(size - 1, ctb);
    (size - 1) / ctb + 1
  }

  lemma DivPos(a: nat, b: nat)
    requires b > 0
    ensures a / b >= 0
  {
  }

  function PicSizeInCtbs(width: nat, height: nat, ctb: nat): (n: nat)
    requires ctb > 0 && width > 0 && height > 0
    ensures n > 0
  {
    var w, h := CtbsOf(width, ctb), CtbsOf(height, ctb);
    MulMono(w, 1, h);
    w * h
  }

  /** An HEVC SPS and its id. */
  function HevcSpsOf(s: seq<bool>): Read<(nat, HevcSps)> {
    var (_, s) :- GetSkip(16, s);
    var (_, s) :- GetSkip(4, s);
    var (maxSubLayers, s) :- GetU(3, s);
    var (_, s) :- GetSkip(1, s);
    assert Pow2(3) == 8;
    var (profile, s) :- ProfileTierLevel(maxSubLayers, s);
    var (id, s) :- GetUe(s);
    var (pic, s) :- PictureFields(s);
    var (coding, s) :- CodingFields(maxSubLayers, s);
    if coding.0 > 16 || !(4 <= coding.1 <= 6) || pic.width == 0 || pic.height == 0 then Bad
    else
      var ctbs := PicSizeInCtbs(pic.width, pic.height, Pow2(coding.1));
      Got((id, HevcSps(profile, pic.separateColourPlane, coding.0, AddressBits(ctbs))), s)
  }

  /** An HEVC PPS and its id. */
  function HevcPpsOf(s: seq<bool>): Read<(nat, HevcPps)> {
    var (_, s) :- GetSkip(16, s);
    var (id, s) :- GetUe(s);
    var (spsId, s) :- GetUe(s);
    var (dependent, s) :- GetFlag(s);
    var (output, s) :- GetFlag(s);
    var (extra, s) :- GetU(3, s);
    Got((id, HevcPps(spsId, dependent, output, extra)), s)
  }

  // ---- Slice headers -----------------------------------------------------

  function H264Kind(sliceType: nat): SliceKind {
    match sliceType % 5
    case 0 => P
    case 1 => B
    case 2 => I
    case _ => Switching
  }

  function FirstByte(rbsp: seq<byte>): byte {
    if rbsp == [] then 0 else rbsp[0]
  }

  /** The SPS a slice with `ppsId` uses. */
  function H264SpsFor(t: Tables, ppsId: nat): Option<H264Sps> {
    if ppsId in t.h264Pps && t.h264Pps[ppsId] in t.h264Sps then Some(t.h264Sps[t.h264Pps[ppsId]]) else None
  }

  /** The fields from the colour plane up to the POC lsb. */
  function H264FrameFields(sps: H264Sps, idr: bool, s: seq<bool>): Read<Option<nat>> {
    var (_, s) :- GetSkip(if sps.separateColourPlane then 2 else 0, s);
    var (_, s) :- GetSkip(sps.log2MaxFrameNum, s);
    var (field, s) :- if sps.frameMbsOnly then Got(false, s) else GetFlag(s);
    if field then Bad
    else
      var (_, s) :- SkipUe(if idr then 1 else 0, s);
      match sps.pocType
      case 0 =>
        var (lsb, s) :- GetU(sps.log2MaxPocLsb, s);
        Got(Some(lsb), s)
      case 2 => Got(None, s)
      case _ => Bad
  }

  /** An H.264 slice header, up to its POC lsb. */
  function H264SliceOf(t: Tables, rbsp: seq<byte>, idr: bool): Read<SliceInfo> {
    var (_, s) :- GetSkip(8, BitsOf(rbsp));
    var (firstMb, s) :- GetUe(s);
    var (sliceType, s) :- GetUe(s);
    var (ppsId, s) :- GetUe(s);
    match H264SpsFor(t, ppsId)
    case None => Bad
    case Some(sps) =>
      var (lsb, s) :- H264FrameFields(sps, idr, s);
      Got(SliceInfo(Some(H264Kind(sliceType)), firstMb == 0, lsb, Pow2(sps.log2MaxPocLsb), idr,
                    FirstByte(rbsp) / 32 % 4 != 0), s)
  }

  /** Whether later pictures derive their POC from a picture of NAL type `t`. */
  function HevcAnchor(secondByte: byte, t: nat): bool {
    secondByte % 8 <= 1 && !(t < 16 && t % 2 == 0) && !(6 <= t <= 9)
  }

  datatype HevcStart = HevcStart(first: bool, pps: HevcPps, sps: HevcSps, dependent: bool)

  /** The fields up to the slice address. */
  function HevcSliceStart(t: Tables, nalType: nat, s: seq<bool>): Read<HevcStart> {
    var (_, s) :- GetSkip(16, s);
    var (first, s) :- GetFlag(s);
    var (_, s) :- if 16 <= nalType <= 23 then GetFlag(s) else Got(false, s);
    var (ppsId, s) :- GetUe(s);
    if ppsId !in t.hevcPps || t.hevcPps[ppsId].spsId !in t.hevcSps then Bad
    else
      var pps := t.hevcPps[ppsId];
      var sps := t.hevcSps[pps.spsId];
      var (dependent, s) :- if !first && pps.dependentSliceSegments then GetFlag(s) else Got(false, s);
      var (_, s) :- GetSkip(if first then 0 else sps.addressBits, s);
      Got(HevcStart(first, pps, sps, dependent), s)
  }

  function HevcKind(v: nat): Option<SliceKind> {
    match v
    case 0 => Some(B)
    case 1 => Some(P)
    case 2 => Some(I)
    case _ => None
  }

  /** Slice type and POC lsb of an independent slice segment. */
  function HevcSliceRest(start: HevcStart, idr: bool, s: seq<bool>): Read<(SliceKind, nat)> {
    var (_, s) :- GetSkip(start.pps.numExtraSliceHeaderBits, s);
    var (v, s) :- GetUe(s);
    match HevcKind(v)
    case None => Bad
    case Some(kind) =>
      var (_, s) :- if start.pps.outputFlagPresent then GetFlag(s) else Got(false, s);
      var (_, s) :- GetSkip(if start.sps.separateColourPlane then 2 else 0, s);
      var (lsb, s) :- if idr then Got(0, s) else GetU(start.sps.log2MaxPocLsb, s);
      Got((kind, lsb), s)
  }

  /** An HEVC slice segment header, up to its POC lsb. */
  function HevcSliceOf(t: Tables, rbsp: seq<byte>, nalType: nat): Read<SliceInfo> {
    if |rbsp| < 2 then Bad
    else
      var (start, s) :- HevcSliceStart(t, nalType, BitsOf(rbsp));
      var idr := nalType == 19 || nalType == 20;
      var anchor := HevcAnchor(rbsp[1], nalType);
      var max := Pow2(start.sps.log2MaxPocLsb);
      if start.dependent then Got(SliceInfo(None, false, None, max, idr, anchor), s)
      else
        var (rest, s) :- HevcSliceRest(start, idr, s);
        Got(SliceInfo(Some(rest.0), start.first, Some(rest.1), max, idr, anchor), s)
  }

  // ---- Whole NAL units ---------------------------------------------------

  function Value<T>(r: Read<T>): Option<T> {
    if r.Got? then Some(r.value) else None
  }

  /** The tables after a NAL unit; nothing when it is a parameter set that does not parse. */
  function Record(t: Tables, codec: Codec, nal: seq<byte>): Option<Tables> {
    var s := BitsOf(AnnexB.Rbsp(nal));
    match (codec, NalType(codec, nal))
    case (H264, Some(7)) =>
      (match H264SpsOf(s) case Got(v, _) => Some(t.(h264Sps := t.h264Sps[v.0 := v.1])) case Bad => None)
    case (H264, Some(8)) =>
      (match H264PpsOf(s) case Got(v, _) => Some(t.(h264Pps := t.h264Pps[v.0 := v.1])) case Bad => None)
    case (Hevc, Some(33)) =>
      (match HevcSpsOf(s) case Got(v, _) => Some(t.(hevcSps := t.hevcSps[v.0 := v.1])) case Bad => None)
    case (Hevc, Some(34)) =>
      (match HevcPpsOf(s) case Got(v, _) => Some(t.(hevcPps := t.hevcPps[v.0 := v.1])) case Bad => None)
    case _ => Some(t)
  }

  predicate IsSlice(codec: Codec, nal: seq<byte>) {
    match (codec, NalType(codec, nal))
    case (H264, Some(t)) => t == 1 || t == 5
    case (Hevc, Some(t)) => t <= 9 || 16 <= t <= 21
    case _ => false
  }

  /** What the header of a slice says; nothing when it does not parse. */
  function SliceOf(t: Tables, codec: Codec, nal: seq<byte>): Option<SliceInfo>
    requires IsSlice(codec, nal)
  {
    var rbsp := AnnexB.Rbsp(nal);
    var nalType := NalType(codec, nal).value;
    if codec.H264? then Value(H264SliceOf(t, rbsp, nalType == 5)) else Value(HevcSliceOf(t, rbsp, nalType))
  }
}
