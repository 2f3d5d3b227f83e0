/** HEVC access units as an encoder frames them, against the rules of the stream checker. */
module HevcUnits {
  import opened Common
  import AnnexB
  import opened Headers
  import Writer = HeaderWriter
  import H = HevcWriter
  import opened Shape
  import opened EncodedUnits

  /** A video parameter set, which the checker only wants to be there. */
  function Vps(hi: byte, lo: byte, rest: seq<bool>): seq<byte> {
    Writer.Nal(H.PutHeader(hi, lo, rest))
  }

  lemma VpsIsNoSet(t: Tables, hi: byte, lo: byte, rest: seq<bool>)
    requires hi / 2 % 64 == 32
    ensures NalType(Hevc, Vps(hi, lo, rest)) == Some(32) && Record(t, Hevc, Vps(hi, lo, rest)) == Some(t)
  {
    hide H.PutHeader, Writer.Nal, NalType, H264SpsOf, H264PpsOf, HevcSpsOf, HevcPpsOf, AnnexB.Rbsp;
    H.HeaderBack(hi, lo, rest);
  }

  lemma ScanFour(t: Tables, a: seq<byte>, b: seq<byte>, c: seq<byte>, d: seq<byte>)
    ensures ScanOf(Hevc, t, [a, b, c, d]) == Add(Add(Add(Add(Unread(t), Hevc, a), Hevc, b), Hevc, c), Hevc, d)
  {
    hide Add, ScanOf;
    ScanThree(Hevc, t, a, b, c);
    assert [a, b, c] + [d] == [a, b, c, d];
    ScanAppend(Hevc, t, [a, b, c], d);
  }

  /** A framed VPS, SPS, PPS and slice, the three sets parsing. */
  lemma KeyUnitOf(place: Place, i: nat, a: seq<byte>, b: seq<byte>, c: seq<byte>, d: seq<byte>, t1: Tables, t2: Tables,
                  x: SliceInfo, pads: seq<nat>, flag: bool)
    requires Framable(a) && Framable(b) && Framable(c) && Framable(d) && |pads| == 4 && x.firstInPicture
    requires NalType(Hevc, a) == Some(32) && Record(place.tables, Hevc, a) == Some(place.tables)
    requires NalType(Hevc, b) == Some(33) && Record(place.tables, Hevc, b) == Some(t1)
    requires NalType(Hevc, c) == Some(34) && Record(t1, Hevc, c) == Some(t2)
    requires IsSlice(Hevc, d) && SliceOf(t2, Hevc, d) == Some(x)
    ensures Conforms(Hevc, place, i, (AnnexB.Frame([a, b, c, d], pads), flag)) <==>
            pads[0] <= 1 && (i == 0 ==> x.idr) && (flag <==> x.idr) && x.kind != Some(Switching) && InOrder(place, x)
  {
    hide Conforms, AnnexB.Frame, AnnexB.Split, InOrder, StartsWithCode, IsSlice, SliceOf, Add, Framable, ScanOf,
         Record, NalType;
    SplitWhole([a, b, c, d], pads);
    EncodedUnits.StartCodeRule([a, b, c, d], pads);
    var t := place.tables;
    AddSet(Hevc, Unread(t), a, 32, t);
    var s1 := Unread(t).(front := Unread(t).front + {32});
    AddSet(Hevc, s1, b, 33, t1);
    var s2 := s1.(tables := t1, front := s1.front + {33});
    AddSet(Hevc, s2, c, 34, t2);
    AddSlice(Hevc, s2.(tables := t2, front := s2.front + {34}), d, x);
    ScanFour(t, a, b, c, d);
    OneSliceRules(Hevc, place, i, (AnnexB.Frame([a, b, c, d], pads), flag), ScanOf(Hevc, t, [a, b, c, d]), x);
  }

  /** The headers of an IDR access unit: a VPS, an SPS, a PPS that names it and a first slice that names the PPS. */
  datatype Key = Key(vpsHi: byte, vpsLo: byte, spsHi: byte, spsLo: byte, sps: H.HevcSpsFields,
                     ppsHi: byte, ppsLo: byte, pps: HevcPps, slice: H.Segment)

  predicate KeyFits(k: Key) {
    && k.vpsHi / 2 % 64 == 32 && H.HevcFits(k.spsHi, k.sps, k.ppsHi, k.pps, k.slice)
    && k.slice.first && (k.slice.picture.IdrWRadl? || k.slice.picture.IdrNLp?)
  }

  /** The NAL units; the tails are the fields the checker does not read. */
  function KeyNals(k: Key, vps: seq<bool>, sps: seq<bool>, pps: seq<bool>, slice: seq<bool>): seq<seq<byte>>
    requires KeyFits(k)
  {
    [Vps(k.vpsHi, k.vpsLo, vps), Writer.Nal(H.PutHevcSps(k.spsHi, k.spsLo, k.sps, sps)),
     Writer.Nal(H.PutHevcPps(k.ppsHi, k.ppsLo, k.slice.ppsId, k.pps, pps)),
     Writer.Nal(H.PutSegment(k.slice, k.pps, H.KeptHevc(k.sps), slice))]
  }

  /** At any place of a stream, framed and flagged as a keyframe, they obey every rule exactly when the start code
      does. */
  lemma KeyConforms(place: Place, i: nat, k: Key, vps: seq<bool>, sps: seq<bool>, pps: seq<bool>, slice: seq<bool>,
                    pads: seq<nat>)
    requires KeyFits(k) && |pads| == 4
    ensures Conforms(Hevc, place, i, (AnnexB.Frame(KeyNals(k, vps, sps, pps, slice), pads), true)) <==> pads[0] <= 1
  {
    hide Conforms, AnnexB.Frame, InOrder, IsSlice, SliceOf, Framable, Record, NalType, Writer.Nal, Vps, H.PutHeader,
         H.PutHevcSps, H.PutHevcPps, H.PutSegment, H.HevcSpsFits, H.HevcInRange, H.SegmentFits, H.KeptHevc,
         H.SegmentSaid, H.PictureType;
    var nals := KeyNals(k, vps, sps, pps, slice);
    var t := place.tables;
    var t1 := t.(hevcSps := t.hevcSps[k.sps.id := H.KeptHevc(k.sps)]);
    var t2 := t1.(hevcPps := t1.hevcPps[k.slice.ppsId := k.pps]);
    VpsIsNoSet(t, k.vpsHi, k.vpsLo, vps);
    H.RecordHevcSps(t, k.spsHi, k.spsLo, k.sps, sps);
    H.RecordHevcPps(t1, k.ppsHi, k.ppsLo, k.slice.ppsId, k.pps, pps);
    H.ReadSegment(t2, k.slice, k.pps, H.KeptHevc(k.sps), slice);
    SetTypesOfKey(k, sps, pps);
    KeyFramable(k, vps, sps, pps, slice);
    KeySaid(k, place);
    KeyUnitOf(place, i, nals[0], nals[1], nals[2], nals[3], t1, t2, H.SegmentSaid(k.slice, H.KeptHevc(k.sps)), pads,
              true);
    assert nals == [nals[0], nals[1], nals[2], nals[3]];
  }

  lemma SetTypesOfKey(k: Key, sps: seq<bool>, pps: seq<bool>)
    requires KeyFits(k)
    ensures NalType(Hevc, Writer.Nal(H.PutHevcSps(k.spsHi, k.spsLo, k.sps, sps))) == Some(33)
    ensures NalType(Hevc, Writer.Nal(H.PutHevcPps(k.ppsHi, k.ppsLo, k.slice.ppsId, k.pps, pps))) == Some(34)
  {
    hide NalType, Writer.Nal, H.PutHeader, H.PutSpsFields, H.PutPpsFields, AnnexB.Rbsp;
    H.HeaderBack(k.spsHi, k.spsLo, H.PutSpsFields(k.sps, sps));
    H.HeaderBack(k.ppsHi, k.ppsLo, H.PutPpsFields(k.slice.ppsId, k.pps, pps));
  }

  lemma KeyFramable(k: Key, vps: seq<bool>, sps: seq<bool>, pps: seq<bool>, slice: seq<bool>)
    requires KeyFits(k)
    ensures forall j :: 0 <= j < 4 ==> Framable(KeyNals(k, vps, sps, pps, slice)[j])
  {
    hide Framable, Writer.Nal, H.PutHevcSps, H.PutHevcPps, H.PutSegment, H.PutHeader;
    NalFramable(H.PutHeader(k.vpsHi, k.vpsLo, vps));
    NalFramable(H.PutHevcSps(k.spsHi, k.spsLo, k.sps, sps));
    NalFramable(H.PutHevcPps(k.ppsHi, k.ppsLo, k.slice.ppsId, k.pps, pps));
    NalFramable(H.PutSegment(k.slice, k.pps, H.KeptHevc(k.sps), slice));
  }

  lemma KeySaid(k: Key, place: Place)
    requires KeyFits(k)
    ensures var x := H.SegmentSaid(k.slice, H.KeptHevc(k.sps));
            x.idr && x.firstInPicture && x.kind != Some(Switching) && InOrder(place, x)
    ensures !(!k.slice.dependent && k.slice.kind == Switching)
  {
    hide H.KeptHevc, H.HevcSpsFits, H.HevcInRange, PocOf;
  }

  /** A first slice of a picture that is no IDR: accepted exactly when its start code is right, it is not the first
      access unit, and it is shown after the picture before it. */
  lemma SegmentConforms(place: Place, i: nat, y: H.Segment, pps: HevcPps, sps: HevcSps, tail: seq<bool>, pad: nat)
    requires H.SegmentFits(y, pps, sps) && y.first && !y.picture.IdrWRadl? && !y.picture.IdrNLp? && y.kind != Switching
    requires var t := place.tables;
             && y.ppsId in t.hevcPps && t.hevcPps[y.ppsId] == pps
             && pps.spsId in t.hevcSps && t.hevcSps[pps.spsId] == sps
    ensures Conforms(Hevc, place, i, (AnnexB.Frame([Writer.Nal(H.PutSegment(y, pps, sps, tail))], [pad]), false)) <==>
            pad <= 1 && i > 0 && InOrder(place, H.SegmentSaid(y, sps))
  {
    hide Conforms, Writer.Nal, H.PutSegment, AnnexB.Frame, InOrder, IsSlice, SliceOf, Framable, H.PictureType;
    NalFramable(H.PutSegment(y, pps, sps, tail));
    H.ReadSegment(place.tables, y, pps, sps, tail);
    SliceUnit(Hevc, place, i, Writer.Nal(H.PutSegment(y, pps, sps, tail)), H.SegmentSaid(y, sps), pad, false);
  }
}
