/** Access units as an encoder frames them, against the rules of the stream checker. */
module EncodedUnits {
  import opened Common
  import AnnexB
  import BitIO
  import opened Headers
  import Writer = HeaderWriter
  import opened Shape

  // ---- Splitting what was framed -----------------------------------------

  /** A unit that survives framing: free of start codes, and not ending in a zero byte. */
  predicate Framable(nal: seq<byte>) {
    AnnexB.CleanFrom(nal, 0) && nal != [] && nal[|nal| - 1] != 0
  }

  lemma KeptWhole(nal: seq<byte>)
    requires Framable(nal)
    ensures AnnexB.Trim(nal) == nal && AnnexB.Keep(nal) == [nal]
  {
  }

  lemma {:induction false} TrimAllWhole(nals: seq<seq<byte>>)
    requires forall k :: 0 <= k < |nals| ==> Framable(nals[k])
    ensures AnnexB.TrimAll(nals) == nals
  {
    hide Framable, AnnexB.Trim, AnnexB.Keep;
    if nals != [] {
      var m := |nals| - 1;
      TrimAllWhole(nals[..m]);
      KeptWhole(nals[m]);
      assert nals == nals[..m] + [nals[m]];
    }
  }

  /** Framed units come out of the splitter as they went in. */
  lemma SplitWhole(nals: seq<seq<byte>>, pads: seq<nat>)
    requires |pads| == |nals| > 0 && forall k :: 0 <= k < |nals| ==> Framable(nals[k])
    ensures AnnexB.Split(AnnexB.Frame(nals, pads)) == nals
  {
    hide AnnexB.Split, AnnexB.Frame, AnnexB.TrimAll, AnnexB.Keep, AnnexB.CleanFrom;
    var m := |nals| - 1;
    AnnexB.SplitFrame(nals, pads);
    TrimAllWhole(nals[..m]);
    KeptWhole(nals[m]);
    assert nals == nals[..m] + [nals[m]];
  }

  /** A framed stream starts with its first start code. */
  lemma {:induction false} FrameStarts(nals: seq<seq<byte>>, pads: seq<nat>)
    requires |pads| == |nals| > 0
    ensures var s := AnnexB.Frame(nals, pads);
            |s| >= pads[0] + 3 && s[..pads[0] + 3] == AnnexB.StartCodeOf(pads[0])
  {
    var m := |nals| - 1;
    if m > 0 {
      FrameStarts(nals[..m], pads[..m]);
      var f := AnnexB.Frame(nals[..m], pads[..m]);
      assert AnnexB.Frame(nals, pads)[..|f|] == f;
    }
  }

  /** The start-code rule accepts exactly the codes of three and four bytes. */
  lemma StartCodeRule(nals: seq<seq<byte>>, pads: seq<nat>)
    requires |pads| == |nals| > 0
    ensures StartsWithCode(AnnexB.Frame(nals, pads)) <==> pads[0] <= 1
  {
    hide AnnexB.Frame;
    FrameStarts(nals, pads);
    var s, pad := AnnexB.Frame(nals, pads), pads[0];
    var code := AnnexB.StartCodeOf(pad);
    assert forall i :: 0 <= i < pad + 3 ==> s[i] == s[..pad + 3][i] == code[i];
    if pad == 0 {
      assert s[..3] == [0, 0, 1];
    } else if pad == 1 {
      assert s[..4] == [0, 0, 0, 1];
    } else {
      assert s[2] == 0 && s[3] == (if pad == 2 then 0 else code[3]);
    }
  }

  // ---- One slice, one picture --------------------------------------------

  /** The order rule for a unit with one picture. */
  predicate InOrder(place: Place, x: SliceInfo) {
    x.pocLsb.Some? && !x.idr && place.last.Some? ==> place.last.value < PocOf(place.poc, x).1
  }

  lemma OneOrder(place: Place, x: SliceInfo)
    requires x.firstInPicture
    ensures OrderOf(place.poc, place.last, Timed([x])).rising <==> InOrder(place, x)
  {
    hide PocOf;
    assert [x][..0] == [];
    assert Timed([]) == [];
    if x.pocLsb.Some? {
      assert Timed([x]) == [x];
    }
  }

  /** What is left of the rules for a unit of one slice whose headers all parse. */
  lemma OneSliceRules(codec: Codec, place: Place, i: nat, au: Au, scan: Scan, x: SliceInfo)
    requires codec != Av1 && scan == ScanOf(codec, place.tables, AnnexB.Split(au.0))
    requires scan.sets && scan.headers && scan.slices == [x] && x.firstInPicture
    ensures Conforms(codec, place, i, au) <==>
            && StartsWithCode(au.0) && x.kind != Some(Switching) && InOrder(place, x)
            && (i == 0 ==> x.idr) && (au.1 <==> x.idr)
            && (x.idr ==> (if codec.H264? then {7, 8} else {32, 33, 34}) <= scan.front)
  {
    hide ScanOf, AnnexB.Split, StartsWithCode, OrderOf, Timed, InOrder;
    OneOrder(place, x);
    assert HasIdr([x]) <==> x.idr by {
      assert [x][0] == x;
    }
    assert Pictures([x]) == 1 by {
      OnePictureOf(x);
    }
  }

  lemma OnePictureOf(x: SliceInfo)
    requires x.firstInPicture
    ensures Pictures([x]) == 1
  {
    assert [x][..0] == [];
  }

  lemma NalFramable(bits: seq<bool>)
    ensures Framable(Writer.Nal(bits))
  {
    hide AnnexB.CleanFrom, BitIO.Rbsp;
    Writer.NalEnds(bits);
    AnnexB.EscapeIsClean(BitIO.Rbsp(bits), 0);
  }

  lemma SliceIsNoSet(codec: Codec, t: Tables, nal: seq<byte>)
    requires IsSlice(codec, nal)
    ensures Record(t, codec, nal) == Some(t)
  {
    hide H264SpsOf, H264PpsOf, HevcSpsOf, HevcPpsOf, BitIO.BitsOf, AnnexB.Rbsp;
  }

  /** The type of a written NAL unit is in its header. */
  lemma TypeOf(header: byte, rest: seq<bool>)
    ensures NalType(H264, Writer.Nal(Writer.PutU(8, header, rest))) == Some(header % 32)
  {
    hide Writer.Nal, Writer.PutU;
    Writer.NalBack(header, rest);
  }

  lemma AddSlice(codec: Codec, scan: Scan, nal: seq<byte>, x: SliceInfo)
    requires IsSlice(codec, nal) && SliceOf(scan.tables, codec, nal) == Some(x)
    ensures Add(scan, codec, nal) == scan.(slices := scan.slices + [x])
  {
    hide Record, SliceOf, IsSlice;
    SliceIsNoSet(codec, scan.tables, nal);
  }

  lemma AddSet(codec: Codec, scan: Scan, nal: seq<byte>, setType: nat, tables: Tables)
    requires if codec.H264? then setType in {7, 8} else codec.Hevc? && setType in {32, 33, 34}
    requires NalType(codec, nal) == Some(setType)
    requires scan.slices == [] && Record(scan.tables, codec, nal) == Some(tables)
    ensures Add(scan, codec, nal) == scan.(tables := tables, front := scan.front + {setType})
  {
    hide Record, NalType;
    assert Pictures([]) == 0;
  }

  /** Nothing read yet. */
  function Unread(t: Tables): Scan {
    Scan(t, true, true, [], {})
  }

  lemma ScanOne(codec: Codec, t: Tables, nal: seq<byte>)
    ensures ScanOf(codec, t, [nal]) == Add(Unread(t), codec, nal)
  {
    hide Add;
    var none: seq<seq<byte>> := [];
    assert none + [nal] == [nal];
    ScanAppend(codec, t, none, nal);
  }

  lemma ScanThree(codec: Codec, t: Tables, a: seq<byte>, b: seq<byte>, c: seq<byte>)
    ensures ScanOf(codec, t, [a, b, c]) == Add(Add(Add(Unread(t), codec, a), codec, b), codec, c)
  {
    hide Add, ScanOf;
    ScanOne(codec, t, a);
    ScanAppend(codec, t, [a], b);
    assert [a] + [b] == [a, b] && [a, b] + [c] == [a, b, c];
    ScanAppend(codec, t, [a, b], c);
  }

  /** A framed unit of one slice, whatever the tables say of it. */
  lemma SliceUnit(codec: Codec, place: Place, i: nat, nal: seq<byte>, x: SliceInfo, pad: nat, flag: bool)
    requires Framable(nal) && IsSlice(codec, nal) && SliceOf(place.tables, codec, nal) == Some(x)
    requires codec != Av1 && x.firstInPicture
    ensures Conforms(codec, place, i, (AnnexB.Frame([nal], [pad]), flag)) <==>
            pad <= 1 && i > 0 && !x.idr && !flag && x.kind != Some(Switching) && InOrder(place, x)
  {
    hide Conforms, AnnexB.Frame, AnnexB.Split, InOrder, StartsWithCode, IsSlice, SliceOf, Add, Framable, ScanOf;
    SplitWhole([nal], [pad]);
    StartCodeRule([nal], [pad]);
    AddSlice(codec, Unread(place.tables), nal, x);
    ScanOne(codec, place.tables, nal);
    OneSliceRules(codec, place, i, (AnnexB.Frame([nal], [pad]), flag), ScanOf(codec, place.tables, [nal]), x);
  }

  /** A framed unit of an SPS, a PPS and a slice. */
  lemma KeyUnit(place: Place, i: nat, a: seq<byte>, b: seq<byte>, c: seq<byte>, t1: Tables, t2: Tables,
                x: SliceInfo, pads: seq<nat>, flag: bool)
    requires Framable(a) && Framable(b) && Framable(c) && |pads| == 3 && x.firstInPicture
    requires NalType(H264, a) == Some(7) && Record(place.tables, H264, a) == Some(t1)
    requires NalType(H264, b) == Some(8) && Record(t1, H264, b) == Some(t2)
    requires IsSlice(H264, c) && SliceOf(t2, H264, c) == Some(x)
    ensures Conforms(H264, place, i, (AnnexB.Frame([a, b, c], pads), flag)) <==>
            pads[0] <= 1 && (i == 0 ==> x.idr) && (flag <==> x.idr) && x.kind != Some(Switching) && InOrder(place, x)
  {
    hide Conforms, AnnexB.Frame, AnnexB.Split, InOrder, StartsWithCode, IsSlice, SliceOf, Add, Framable, ScanOf,
         Record, NalType;
    SplitWhole([a, b, c], pads);
    StartCodeRule([a, b, c], pads);
    var t := place.tables;
    AddSet(H264, Unread(t), a, 7, t1);
    var s1 := Unread(t).(tables := t1, front := Unread(t).front + {7});
    AddSet(H264, s1, b, 8, t2);
    AddSlice(H264, s1.(tables := t2, front := s1.front + {8}), c, x);
    ScanThree(H264, t, a, b, c);
    OneSliceRules(H264, place, i, (AnnexB.Frame([a, b, c], pads), flag), ScanOf(H264, t, [a, b, c]), x);
  }

  // ---- What the header writer sends --------------------------------------

  /**
   * A picture in one slice: the checker accepts it exactly when its start code is right, it does
   * not come first, it is no switching slice, and it is shown after the picture before it.
   */
  lemma SliceUnitConforms(place: Place, i: nat, y: Writer.Slice, sps: H264Sps, tail: seq<bool>, pad: nat)
    requires Writer.SliceNalFits(y, sps) && H264SpsFor(place.tables, y.ppsId) == Some(sps)
    requires y.firstMb == 0 && y.header % 32 == 1
    ensures Conforms(H264, place, i, (AnnexB.Frame([Writer.Nal(Writer.PutSlice(y, sps, tail))], [pad]), false)) <==>
            pad <= 1 && i > 0 && !Writer.Switches(y) && InOrder(place, Writer.Said(y, sps))
  {
    hide Conforms, Writer.SliceFits, Writer.Nal, Writer.PutSlice, AnnexB.Frame, InOrder, IsSlice, SliceOf, Framable;
    var bits := Writer.PutSlice(y, sps, tail);
    NalFramable(bits);
    Writer.ReadSlice(place.tables, y, sps, tail);
    SliceUnit(H264, place, i, Writer.Nal(bits), Writer.Said(y, sps), pad, false);
  }

  /** An SPS, a PPS that names it, and an IDR slice that names the PPS and starts a picture. */
  predicate IdrFits(x: Writer.Sps, ppsHeader: byte, y: Writer.Slice) {
    && Writer.SpsNalFits(x)
    && y.ppsId <= BitIO.MAX_UE && ppsHeader % 32 == 8
    && Writer.SliceNalFits(y, Writer.Kept(x)) && y.header % 32 == 5 && y.firstMb == 0
  }

  /** The three NAL units an encoder sends for its first picture. */
  function IdrNals(x: Writer.Sps, tail: seq<bool>, ppsHeader: byte, ppsTail: seq<bool>, y: Writer.Slice,
        sliceTail: seq<bool>):
    (nals: seq<seq<byte>>)
    requires IdrFits(x, ppsHeader, y)
    ensures |nals| == 3
  {
    [Writer.Nal(Writer.PutSps(x, tail)), Writer.Nal(Writer.PutPps(ppsHeader, y.ppsId, x.id, ppsTail)),
     Writer.Nal(Writer.PutSlice(y, Writer.Kept(x), sliceTail))]
  }

  lemma SetTypesOf(x: Writer.Sps, tail: seq<bool>, ppsHeader: byte, ppsTail: seq<bool>, y: Writer.Slice,
        sliceTail: seq<bool>)
    requires IdrFits(x, ppsHeader, y)
    ensures var nals := IdrNals(x, tail, ppsHeader, ppsTail, y, sliceTail);
            NalType(H264, nals[0]) == Some(7) && NalType(H264, nals[1]) == Some(8)
  {
    hide Writer.Nal, Writer.PutSlice, Writer.PutU, Writer.Kept, NalType, Writer.SpsFits,
         Writer.SliceNalFits, Writer.PutProfile, Writer.PutBehind, Writer.PutIds;
    TypeOf(x.header, Writer.PutProfile(x, Writer.PutBehind(x, tail)));
    TypeOf(ppsHeader, Writer.PutIds(y.ppsId, x.id, ppsTail));
  }

  /** The tables after the two parameter sets. */
  function TablesAfter(t: Tables, x: Writer.Sps, ppsId: nat): Tables
    requires Writer.SpsFits(x) && Writer.InRange(x)
  {
    t.(h264Sps := t.h264Sps[x.id := Writer.Kept(x)], h264Pps := t.h264Pps[ppsId := x.id])
  }

  lemma IdFits(x: Writer.Sps)
    requires Writer.SpsFits(x)
    ensures x.id <= BitIO.MAX_UE
  {
  }

  lemma IdrRead(t: Tables, x: Writer.Sps, tail: seq<bool>, ppsHeader: byte, ppsTail: seq<bool>, y: Writer.Slice,
        sliceTail: seq<bool>)
    requires IdrFits(x, ppsHeader, y)
    ensures var nals := IdrNals(x, tail, ppsHeader, ppsTail, y, sliceTail);
            var t1 := t.(h264Sps := t.h264Sps[x.id := Writer.Kept(x)]);
            && Framable(nals[0]) && Framable(nals[1]) && Framable(nals[2])
            && Record(t, H264, nals[0]) == Some(t1)
            && Record(t1, H264, nals[1]) == Some(TablesAfter(t, x, y.ppsId))
            && IsSlice(H264, nals[2])
            && SliceOf(TablesAfter(t, x, y.ppsId), H264, nals[2]) == Some(Writer.Said(y, Writer.Kept(x)))
  {
    hide Writer.SpsFits, Writer.SliceFits, Writer.Nal, Writer.PutSps, Writer.PutPps, Writer.PutSlice, Writer.Said,
         Writer.Kept, Framable, IsSlice, SliceOf, Record;
    NalFramable(Writer.PutSps(x, tail));
    NalFramable(Writer.PutPps(ppsHeader, y.ppsId, x.id, ppsTail));
    NalFramable(Writer.PutSlice(y, Writer.Kept(x), sliceTail));
    IdFits(x);
    var t1 := t.(h264Sps := t.h264Sps[x.id := Writer.Kept(x)]);
    Writer.RecordSps(t, x, tail);
    Writer.RecordPps(t1, ppsHeader, y.ppsId, x.id, ppsTail);
    Writer.ReadSlice(TablesAfter(t, x, y.ppsId), y, Writer.Kept(x), sliceTail);
  }

  /**
   * Whatever came before, at any place in a stream: an SPS, a PPS and an IDR slice, framed and
   * flagged as a keyframe, obey every rule exactly when the first start code has three or four
   * bytes and the slice is no switching slice.
   */
  lemma IdrUnitConforms(place: Place, i: nat, x: Writer.Sps, tail: seq<bool>, ppsHeader: byte, ppsTail: seq<bool>,
                        y: Writer.Slice, sliceTail: seq<bool>, pads: seq<nat>)
    requires IdrFits(x, ppsHeader, y) && |pads| == 3
    ensures var unit := AnnexB.Frame(IdrNals(x, tail, ppsHeader, ppsTail, y, sliceTail), pads);
            Conforms(H264, place, i, (unit, true)) <==>
            pads[0] <= 1 && !Writer.Switches(y)
  {
    IdrRead(place.tables, x, tail, ppsHeader, ppsTail, y, sliceTail);
    SetTypesOf(x, tail, ppsHeader, ppsTail, y, sliceTail);
    IdrSaid(x, ppsHeader, y);
    hide Conforms, IdrFits, IdrNals, TablesAfter, AnnexB.Frame, Framable, IsSlice, SliceOf, Record, NalType, PocOf,
         Writer.Said, Writer.Kept;
    var nals := IdrNals(x, tail, ppsHeader, ppsTail, y, sliceTail);
    var t1 := place.tables.(h264Sps := place.tables.h264Sps[x.id := Writer.Kept(x)]);
    assert nals == [nals[0], nals[1], nals[2]];
    KeyUnit(place, i, nals[0], nals[1], nals[2], t1, TablesAfter(place.tables, x, y.ppsId),
            Writer.Said(y, Writer.Kept(x)), pads, true);
  }

  lemma IdrSaid(x: Writer.Sps, ppsHeader: byte, y: Writer.Slice)
    requires IdrFits(x, ppsHeader, y)
    ensures var info := Writer.Said(y, Writer.Kept(x));
            info.idr && info.firstInPicture && (info.kind != Some(Switching) <==> !Writer.Switches(y))
  {
    hide Writer.PutSps, Writer.PutPps, Writer.PutSlice, Writer.Kept, Writer.SpsFits, Writer.SliceFits;
  }
}
