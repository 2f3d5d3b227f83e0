/** The header parser as it runs: one bit reader per NAL unit, parameter sets kept in maps. */
module Parser {
  import opened Common
  import opened BitIO
  import opened Headers
  import AnnexB

  // ---- H.264 parameter sets ----------------------------------------------

  method SkipScalingList(r: Bits, size: nat) returns (res: Result<(), string>)
    requires r.Valid()
    modifies r
    ensures r.Valid() && Agrees(ScalingList(size, 8, 8, old(r.Rest())), res, r.Rest())
  {
    hide Bits.Rest, GetSe;
    var last, next := 8, 8;
    for j := 0 to size
      invariant r.Valid()
      invariant ScalingList(size, 8, 8, old(r.Rest())) == ScalingList(size - j, last, next, r.Rest())
    {
      if next != 0 {
        var delta :- r.Se();
        next := Rem(last + delta + 256, 256);
      }
      if next != 0 {
        last := next;
      }
    }
    res := Ok(());
  }

  method SkipScalingLists(r: Bits, lists: nat) returns (res: Result<(), string>)
    requires r.Valid()
    modifies r
    ensures r.Valid() && Agrees(ScalingLists(0, lists, old(r.Rest())), res, r.Rest())
  {
    hide Bits.Rest, ScalingList;
    for i := 0 to lists
      invariant r.Valid() && ScalingLists(0, lists, old(r.Rest())) == ScalingLists(i, lists, r.Rest())
    {
      var present :- r.Flag();
      if present {
        var _ :- SkipScalingList(r, ListSize(i));
      }
    }
    res := Ok(());
  }

  method ReadHighFields(r: Bits) returns (res: Result<bool, string>)
    requires r.Valid()
    modifies r
    ensures r.Valid() && Agrees(HighFields(old(r.Rest())), res, r.Rest())
  {
    hide Bits.Rest, GetUe, GetFlag, ScalingLists;
    var separate := false;
    var chroma :- r.Ue();
    if chroma == 3 {
      separate :- r.Flag();
    }
    var _ :- r.Ue();
    var _ :- r.Ue();
    var _ :- r.Flag();
    var matrix :- r.Flag();
    if matrix {
      var _ :- SkipScalingLists(r, if chroma == 3 then 12 else 8);
    }
    res := Ok(separate);
  }

  method ReadPocFields(r: Bits, pocType: nat) returns (res: Result<nat, string>)
    requires r.Valid()
    modifies r
    ensures r.Valid() && Agrees(PocFields(pocType, old(r.Rest())), res, r.Rest())
  {
    hide Bits.Rest, GetUe, GetSe, GetFlag;
    if pocType == 0 {
      var v :- r.Ue();
      return Ok(v + 4);
    } else if pocType == 1 {
      var _ :- r.Flag();
      var _ :- r.Se();
      var _ :- r.Se();
      var n :- r.Ue();
      ghost var before := r.Rest();
      for i := 0 to n
        invariant r.Valid() && SkipSe(n, before) == SkipSe(n - i, r.Rest())
      {
        var _ :- r.Se();
      }
      return Ok(0);
    } else if pocType == 2 {
      return Ok(0);
    }
    return Err("pic_order_cnt_type");
  }

  method ReadSpsHead(r: Bits) returns (res: Result<(nat, nat), string>)
    requires r.Valid()
    modifies r
    ensures r.Valid() && Agrees(SpsHead(old(r.Rest())), res, r.Rest())
  {
    hide Bits.Rest, GetUe, GetU, GetSkip;
    var _ :- r.Skip(8);
    var profileIdc :- r.ReadBits(8);
    var _ :- r.Skip(16);
    var id :- r.Ue();
    res := Ok((profileIdc, id));
  }

  method ReadSizeFields(r: Bits) returns (res: Result<bool, string>)
    requires r.Valid()
    modifies r
    ensures r.Valid() && Agrees(SizeFields(old(r.Rest())), res, r.Rest())
  {
    hide Bits.Rest, GetUe, GetFlag;
    var _ :- r.Ue();
    var _ :- r.Flag();
    var _ :- r.Ue();
    var _ :- r.Ue();
    res := r.Flag();
  }

  method ReadH264Sps(r: Bits) returns (res: Result<(nat, H264Sps), string>)
    requires r.Valid()
    modifies r
    ensures r.Valid() && Agrees(H264SpsOf(old(r.Rest())), res, r.Rest())
  {
    hide Bits.Rest, GetUe, SpsHead, HighFields, PocFields, SizeFields;
    var head :- ReadSpsHead(r);
    var (profileIdc, id) := head;
    var separate := false;
    if profileIdc in HIGH_PROFILES {
      separate :- ReadHighFields(r);
    }
    var frameNum :- r.Ue();
    var pocType :- r.Ue();
    var log2MaxPocLsb :- ReadPocFields(r, pocType);
    var frameMbsOnly :- ReadSizeFields(r);
    if frameNum + 4 > 16 || log2MaxPocLsb > 16 {
      return Err("SPS field out of range");
    }
    res := Ok((id, H264Sps(profileIdc, separate, frameNum + 4, pocType, log2MaxPocLsb, frameMbsOnly)));
  }

  method ReadH264Pps(r: Bits) returns (res: Result<(nat, nat), string>)
    requires r.Valid()
    modifies r
    ensures r.Valid() && Agrees(H264PpsOf(old(r.Rest())), res, r.Rest())
  {
    hide Bits.Rest, GetUe, GetSkip;
    var _ :- r.Skip(8);
    var id :- r.Ue();
    var spsId :- r.Ue();
    res := Ok((id, spsId));
  }

  // ---- HEVC parameter sets -----------------------------------------------

  method SkipUes(r: Bits, n: nat) returns (res: Result<(), string>)
    requires r.Valid()
    modifies r
    ensures r.Valid() && Agrees(SkipUe(n, old(r.Rest())), res, r.Rest())
  {
    hide Bits.Rest, GetUe;
    for i := 0 to n
      invariant r.Valid() && SkipUe(n, old(r.Rest())) == SkipUe(n - i, r.Rest())
    {
      var _ :- r.Ue();
    }
    res := Ok(());
  }

  /** The presence flags come first, the data they announce behind all of them. */
  method ReadSubLayers(r: Bits, n: nat) returns (res: Result<nat, string>)
    requires r.Valid()
    modifies r
    ensures r.Valid() && Agrees(SubLayerBits(n, old(r.Rest())), res, r.Rest())
  {
    hide Bits.Rest, GetFlag;
    var bits := 0;
    for i := 0 to n
      invariant r.Valid()
      invariant match SubLayerBits(n - i, r.Rest())
                case Got(v, s) => SubLayerBits(n, old(r.Rest())) == Got(bits + v, s)
                case Bad => SubLayerBits(n, old(r.Rest())).Bad?
    {
      var profilePresent :- r.Flag();
      var levelPresent :- r.Flag();
      bits := bits + (if profilePresent then 88 else 0) + (if levelPresent then 8 else 0);
    }
    res := Ok(bits);
  }

  method ReadProfileTierLevel(r: Bits, maxSubLayers: nat) returns (res: Result<nat, string>)
    requires r.Valid() && maxSubLayers < 8
    modifies r
    ensures r.Valid() && Agrees(ProfileTierLevel(maxSubLayers, old(r.Rest())), res, r.Rest())
  {
    hide Bits.Rest, GetU, GetSkip, SubLayerBits;
    var _ :- r.Skip(3);
    var profileIdc :- r.ReadBits(5);
    var _ :- r.Skip(32 + 4 + 43 + 1);
    var _ :- r.Skip(8);
    var bits :- ReadSubLayers(r, maxSubLayers);
    var _ :- r.Skip(if maxSubLayers > 0 then 2 * (8 - maxSubLayers) else 0);
    var _ :- r.Skip(bits);
    res := Ok(profileIdc);
  }

  method ReadPictureFields(r: Bits) returns (res: Result<Picture, string>)
    requires r.Valid()
    modifies r
    ensures r.Valid() && Agrees(PictureFields(old(r.Rest())), res, r.Rest())
  {
    hide Bits.Rest, GetUe, GetFlag, SkipUe;
    var chroma :- r.Ue();
    var separate := false;
    if chroma == 3 {
      separate :- r.Flag();
    }
    var width :- r.Ue();
    var height :- r.Ue();
    var window :- r.Flag();
    var _ :- SkipUes(r, if window then 4 else 0);
    var _ :- SkipUes(r, 2);
    res := Ok(Picture(separate, width, height));
  }

  method ReadHevcSps(r: Bits) returns (res: Result<(nat, HevcSps), string>)
    requires r.Valid()
    modifies r
    ensures r.Valid() && Agrees(HevcSpsOf(old(r.Rest())), res, r.Rest())
  {
    hide Bits.Rest, GetUe, GetU, GetFlag, GetSkip, ProfileTierLevel, PictureFields, SkipUe, AddressBits, PicSizeInCtbs;
    var _ :- r.Skip(16);
    var _ :- r.Skip(4);
    var maxSubLayers :- r.ReadBits(3);
    assert Pow2(3) == 8;
    var _ :- r.Skip(1);
    var profileIdc :- ReadProfileTierLevel(r, maxSubLayers);
    var id :- r.Ue();
    var pic :- ReadPictureFields(r);
    var poc :- r.Ue();
    var allSubLayers :- r.Flag();
    var _ :- SkipUes(r, if allSubLayers then 3 * (maxSubLayers + 1) else 3);
    var minCb :- r.Ue();
    var diff :- r.Ue();
    var log2Ctb := minCb + 3 + diff;
    if poc + 4 > 16 || !(4 <= log2Ctb <= 6) || pic.width == 0 || pic.height == 0 {
      return Err("SPS field out of range");
    }
    var ctbs := PicSizeInCtbs(pic.width, pic.height, Pow2(log2Ctb));
    res := Ok((id, HevcSps(profileIdc, pic.separateColourPlane, poc + 4, AddressBits(ctbs))));
  }

  method ReadHevcPps(r: Bits) returns (res: Result<(nat, HevcPps), string>)
    requires r.Valid()
    modifies r
    ensures r.Valid() && Agrees(HevcPpsOf(old(r.Rest())), res, r.Rest())
  {
    hide Bits.Rest, GetUe, GetU, GetFlag, GetSkip;
    var _ :- r.Skip(16);
    var id :- r.Ue();
    var spsId :- r.Ue();
    var dependent :- r.Flag();
    var output :- r.Flag();
    var extra :- r.ReadBits(3);
    res := Ok((id, HevcPps(spsId, dependent, output, extra)));
  }

  // ---- The parser --------------------------------------------------------

  class Parser {
    var h264Sps: map<nat, H264Sps>
    var h264Pps: map<nat, nat>
    var hevcSps: map<nat, HevcSps>
    var hevcPps: map<nat, HevcPps>

    function State(): Tables
      reads this
    {
      Tables(h264Sps, h264Pps, hevcSps, hevcPps)
    }

    constructor ()
      ensures State() == NO_TABLES
    {
      h264Sps, h264Pps, hevcSps, hevcPps := map[], map[], map[], map[];
    }

    /** Record a parameter set; one that does not parse leaves the tables alone. */
    method ParameterSet(codec: Codec, nal: seq<byte>) returns (res: Result<(), string>)
      modifies this
      ensures match Record(old(State()), codec, nal)
              case Some(t) => res.Ok? && State() == t
              case None => res.Err? && State() == old(State())
    {
      hide Bits.Rest, H264SpsOf, H264PpsOf, HevcSpsOf, HevcPpsOf, BitsOf, AnnexB.UnescapeFrom;
      match (codec, NalType(codec, nal)) {
        case (H264, Some(7)) => res := RecordH264Sps(nal);
        case (H264, Some(8)) => res := RecordH264Pps(nal);
        case (Hevc, Some(33)) => res := RecordHevcSps(nal);
        case (Hevc, Some(34)) => res := RecordHevcPps(nal);
        case _ => res := Ok(());
      }
    }

    method RecordH264Sps(nal: seq<byte>) returns (res: Result<(), string>)
      modifies this
      ensures match H264SpsOf(BitsOf(AnnexB.Rbsp(nal)))
              case Got(v, _) => res.Ok? && State() == old(State()).(h264Sps := old(h264Sps)[v.0 := v.1])
              case Bad => res.Err? && State() == old(State())
    {
      hide Bits.Rest, H264SpsOf, BitsOf, AnnexB.UnescapeFrom;
      var rbsp := AnnexB.Unescape(nal);
      var r := new Bits(rbsp);
      var v :- ReadH264Sps(r);
      h264Sps := h264Sps[v.0 := v.1];
      res := Ok(());
    }

    method RecordH264Pps(nal: seq<byte>) returns (res: Result<(), string>)
      modifies this
      ensures match H264PpsOf(BitsOf(AnnexB.Rbsp(nal)))
              case Got(v, _) => res.Ok? && State() == old(State()).(h264Pps := old(h264Pps)[v.0 := v.1])
              case Bad => res.Err? && State() == old(State())
    {
      hide Bits.Rest, H264PpsOf, BitsOf, AnnexB.UnescapeFrom;
      var rbsp := AnnexB.Unescape(nal);
      var r := new Bits(rbsp);
      var v :- ReadH264Pps(r);
      h264Pps := h264Pps[v.0 := v.1];
      res := Ok(());
    }

    method RecordHevcSps(nal: seq<byte>) returns (res: Result<(), string>)
      modifies this
      ensures match HevcSpsOf(BitsOf(AnnexB.Rbsp(nal)))
              case Got(v, _) => res.Ok? && State() == old(State()).(hevcSps := old(hevcSps)[v.0 := v.1])
              case Bad => res.Err? && State() == old(State())
    {
      hide Bits.Rest, HevcSpsOf, BitsOf, AnnexB.UnescapeFrom;
      var rbsp := AnnexB.Unescape(nal);
      var r := new Bits(rbsp);
      var v :- ReadHevcSps(r);
      hevcSps := hevcSps[v.0 := v.1];
      res := Ok(());
    }

    method RecordHevcPps(nal: seq<byte>) returns (res: Result<(), string>)
      modifies this
      ensures match HevcPpsOf(BitsOf(AnnexB.Rbsp(nal)))
              case Got(v, _) => res.Ok? && State() == old(State()).(hevcPps := old(hevcPps)[v.0 := v.1])
              case Bad => res.Err? && State() == old(State())
    {
      hide Bits.Rest, HevcPpsOf, BitsOf, AnnexB.UnescapeFrom;
      var rbsp := AnnexB.Unescape(nal);
      var r := new Bits(rbsp);
      var v :- ReadHevcPps(r);
      hevcPps := hevcPps[v.0 := v.1];
      res := Ok(());
    }

    /** `profile_idc` of the SPS with id 0. */
    function ProfileIdc(codec: Codec): Option<nat>
      reads this
    {
      match codec
      case H264 => if 0 in h264Sps then Some(h264Sps[0].profileIdc) else None
      case Hevc => if 0 in hevcSps then Some(hevcSps[0].profileIdc) else None
      case Av1 => None
    }

    /** Parse the start of a slice header; `None` for any other NAL unit. */
    method Slice(codec: Codec, nal: seq<byte>) returns (res: Result<Option<SliceInfo>, string>)
      ensures !IsSlice(codec, nal) ==> res == Ok(None)
      ensures IsSlice(codec, nal) ==>
                match SliceOf(State(), codec, nal)
                case Some(info) => res == Ok(Some(info))
                case None => res.Err?
    {
      hide Bits.Rest, H264SliceOf, HevcSliceOf, AnnexB.UnescapeFrom;
      res := Ok(None);
      match (codec, NalType(codec, nal)) {
        case (H264, Some(t)) =>
          if t == 1 || t == 5 {
            var info :- ReadH264Slice(nal, t == 5);
            res := Ok(Some(info));
          }
        case (Hevc, Some(t)) =>
          if t <= 9 || 16 <= t <= 21 {
            var info :- ReadHevcSlice(nal, t);
            res := Ok(Some(info));
          }
        case _ =>
      }
    }

    method ReadH264Slice(nal: seq<byte>, idr: bool) returns (res: Result<SliceInfo, string>)
      ensures match H264SliceOf(State(), AnnexB.Rbsp(nal), idr)
              case Got(info, _) => res == Ok(info)
              case Bad => res.Err?
    {
      hide Bits.Rest, GetUe, GetSkip, H264FrameFields, H264Kind, BitsOf, AnnexB.UnescapeFrom, Pow2;
      var rbsp := AnnexB.Unescape(nal);
      var r := new Bits(rbsp);
      var reference := FirstByte(rbsp) / 32 % 4 != 0;
      var _ :- r.Skip(8);
      var firstMb :- r.Ue();
      var sliceType :- r.Ue();
      var ppsId :- r.Ue();
      if !(ppsId in h264Pps && h264Pps[ppsId] in h264Sps) {
        return Err("slice refers to a PPS before its SPS/PPS");
      }
      var sps := h264Sps[h264Pps[ppsId]];
      var lsb :- ReadH264FrameFields(r, sps, idr);
      res := Ok(SliceInfo(Some(H264Kind(sliceType)), firstMb == 0, lsb, Pow2(sps.log2MaxPocLsb), idr, reference));
    }

    method ReadHevcSlice(nal: seq<byte>, t: nat) returns (res: Result<SliceInfo, string>)
      ensures match HevcSliceOf(State(), AnnexB.Rbsp(nal), t)
              case Got(info, _) => res == Ok(info)
              case Bad => res.Err?
    {
      hide Bits.Rest, HevcSliceStart, HevcSliceRest, HevcAnchor, BitsOf, AnnexB.UnescapeFrom, Pow2;
      var rbsp := AnnexB.Unescape(nal);
      if |rbsp| < 2 {
        return Err("NAL header ends early");
      }
      var r := new Bits(rbsp);
      var start :- ReadHevcSliceStart(r, t);
      var idr := t == 19 || t == 20;
      var anchor := HevcAnchor(rbsp[1], t);
      var max := Pow2(start.sps.log2MaxPocLsb);
      if start.dependent {
        return Ok(SliceInfo(None, false, None, max, idr, anchor));
      }
      var rest :- ReadHevcSliceRest(r, start, idr);
      res := Ok(SliceInfo(Some(rest.0), start.first, Some(rest.1), max, idr, anchor));
    }

    method ReadHevcSliceStart(r: Bits, t: nat) returns (res: Result<HevcStart, string>)
      requires r.Valid()
      modifies r
      ensures State() == old(State())
      ensures r.Valid() && Agrees(HevcSliceStart(State(), t, old(r.Rest())), res, r.Rest())
    {
      hide Bits.Rest, GetUe, GetFlag, GetSkip;
      var _ :- r.Skip(16);
      var first :- r.Flag();
      if 16 <= t <= 23 {
        var _ :- r.Flag();
      }
      var ppsId :- r.Ue();
      if ppsId !in hevcPps {
        return Err("slice refers to a PPS before it was sent");
      }
      var pps := hevcPps[ppsId];
      if pps.spsId !in hevcSps {
        return Err("PPS refers to an SPS before it");
      }
      var sps := hevcSps[pps.spsId];
      var dependent := false;
      if !first && pps.dependentSliceSegments {
        dependent :- r.Flag();
      }
      var _ :- r.Skip(if first then 0 else sps.addressBits);
      res := Ok(HevcStart(first, pps, sps, dependent));
    }
  }

  method ReadH264FrameFields(r: Bits, sps: H264Sps, idr: bool) returns (res: Result<Option<nat>, string>)
    requires r.Valid()
    modifies r
    ensures r.Valid() && Agrees(H264FrameFields(sps, idr, old(r.Rest())), res, r.Rest())
  {
    hide Bits.Rest, GetFlag, GetSkip, GetU, SkipUe;
    var _ :- r.Skip(if sps.separateColourPlane then 2 else 0);
    var _ :- r.Skip(sps.log2MaxFrameNum);
    var field := false;
    if !sps.frameMbsOnly {
      field :- r.Flag();
    }
    if field {
      return Err("field-coded picture");
    }
    var _ :- SkipUes(r, if idr then 1 else 0);
    if sps.pocType == 0 {
      var lsb :- r.ReadBits(sps.log2MaxPocLsb);
      return Ok(Some(lsb));
    } else if sps.pocType == 2 {
      return Ok(None);
    }
    return Err("pic_order_cnt_type is not checked here");
  }

  method ReadHevcSliceRest(r: Bits, start: HevcStart, idr: bool) returns (res: Result<(SliceKind, nat), string>)
    requires r.Valid()
    modifies r
    ensures r.Valid() && Agrees(HevcSliceRest(start, idr, old(r.Rest())), res, r.Rest())
  {
    hide Bits.Rest, GetFlag, GetSkip, GetU, GetUe;
    var _ :- r.Skip(start.pps.numExtraSliceHeaderBits);
    var v :- r.Ue();
    if HevcKind(v) == None {
      return Err("slice_type");
    }
    if start.pps.outputFlagPresent {
      var _ :- r.Flag();
    }
    var _ :- r.Skip(if start.sps.separateColourPlane then 2 else 0);
    var lsb := 0;
    if !idr {
      lsb :- r.ReadBits(start.sps.log2MaxPocLsb);
    }
    res := Ok((HevcKind(v).value, lsb));
  }
}
