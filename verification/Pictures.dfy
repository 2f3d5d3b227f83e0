/** What the encoder's picture shows of a frame, from its bytes (native/crates/codec-openh264/src/encoder.rs). */
module Pictures {
  import opened Common
  import opened Planes
  import opened Convert
  import opened Chroma
  import opened Scale
  import opened Bt709
  import opened Bilinear
  import opened Fill

  /** The picture has the frame's size, but for at most one column and one row. */
  predicate SameSize(frame: Frame, w: nat, h: nat) {
    (frame.width == w || frame.width == w + 1) && (frame.height == h || frame.height == h + 1)
  }

  /** A plane of `rows` rows of `n` bytes, its stride apart. */
  predicate Complete(p: Plane, n: nat, rows: nat) {
    rows > 0 && n > 0 && p.stride >= n && |p.data| >= (rows - 1) * p.stride + n
  }

  lemma CompleteIsEnough(p: Plane, n: nat, rows: nat)
    requires rows > 0 && n > 0
    ensures Enough(p, n, rows) <==> Complete(p, n, rows)
    ensures Complete(p, n, rows) ==> Holds(|p.data|, p.stride, n, rows)
  {
    assert p.stride * (rows - 1) == (rows - 1) * p.stride;
  }

  /** Half of an odd number of pixels, rounded up. */
  function HalfUp(n: nat): nat {
    n / 2 + n % 2
  }

  /** What a frame must be to be shown: in one of the two formats, with all the rows of its planes. */
  predicate Showable(frame: Frame) {
    match frame.data
    case Cpu(Bgra8, p, _) => Complete(p, 4 * frame.width, frame.height)
    case Cpu(Nv12, y, Some(uv)) =>
      Complete(y, frame.width, frame.height) && Complete(uv, 2 * HalfUp(frame.width), HalfUp(frame.height))
    case _ => false
  }

  lemma BgraExact(frame: Frame, w: nat, h: nat)
    requires w >= 2 && h >= 2 && frame.data.Cpu? && frame.data.format == Bgra8
    ensures Shown(frame, w, h).Ok? <==> Showable(frame)
  {
    hide Enough, Rows, BgraYuv, Complete, ScaledRows;
    NoRowsIncomplete(frame.data.plane0, 4 * frame.width, frame.height);
    if frame.width > 0 && frame.height > 0 {
      CompleteIsEnough(frame.data.plane0, frame.width * 4, frame.height);
    }
  }

  lemma Nv12Exact(frame: Frame, w: nat, h: nat)
    requires w >= 2 && h >= 2 && frame.data.Cpu? && frame.data.format == Nv12 && frame.data.plane1.Some?
    ensures Shown(frame, w, h).Ok? <==> Showable(frame)
  {
    hide Enough, Rows, Complete, ScaledRows, PlainRows, EvenRows, OddRows, DivCeil, HalfUp, Crop;
    NoRowsIncomplete(frame.data.plane0, frame.width, frame.height);
    HalfIs(frame.width);
    HalfIs(frame.height);
    if frame.width > 0 && frame.height > 0 {
      CompleteIsEnough(frame.data.plane0, frame.width, frame.height);
      CompleteIsEnough(frame.data.plane1.value, HalfUp(frame.width) * 2, HalfUp(frame.height));
    }
  }

  lemma HalfIs(n: nat)
    ensures DivCeil(n, 2) == HalfUp(n) && HalfUp(n) * 2 == 2 * HalfUp(n) && (n > 0 ==> HalfUp(n) > 0)
  {
  }

  lemma NoRowsIncomplete(p: Plane, n: nat, rows: nat)
    ensures n == 0 || rows == 0 ==> !Complete(p, n, rows)
  {
  }

  lemma ShownExact(frame: Frame, w: nat, h: nat)
    requires w >= 2 && h >= 2
    ensures Shown(frame, w, h).Ok? <==> Showable(frame)
    ensures Shown(frame, w, h) == Err(Unsupported) <==>
            frame.data.Native? || (frame.data.format == Nv12 && frame.data.plane1 == None)
  {
    hide Enough, Rows, BgraYuv, Complete, ScaledRows, PlainRows, EvenRows, OddRows;
    if frame.data.Cpu? && frame.data.format == Bgra8 {
      BgraExact(frame, w, h);
    } else if frame.data.Cpu? && frame.data.plane1.Some? {
      Nv12Exact(frame, w, h);
    }
  }

  /** The bytes of a 4:2:0 picture that a BGRA plane of its size stands for. */
  ghost predicate Stands(src: seq<byte>, stride: nat, w: nat, h: nat, yuv: Yuv) {
    && Holds(|src|, stride, 4 * w, h)
    && (forall r, x :: 0 <= r < h && 0 <= x < w ==> LumaStands(src, stride, w, yuv, r, x))
    && (forall r, x :: 0 <= r < h / 2 && 0 <= x < w / 2 ==> ChromaStands(src, stride, w, yuv, r, x))
  }

  predicate LumaStands(src: seq<byte>, stride: nat, w: nat, yuv: Yuv, r: nat, x: nat) {
    && r * stride + 4 * x + 4 <= |src| && r * w + x < |yuv.y|
    && var exact := 16.0 + 219.0 / 255.0 * Brightness(PixelAt(src, r * stride + 4 * x));
       -1.0 < yuv.y[r * w + x] as real - exact < 1.0
  }

  predicate ChromaStands(src: seq<byte>, stride: nat, w: nat, yuv: Yuv, r: nat, x: nat) {
    var i, a, b := r * (w / 2) + x, 2 * r * stride + 8 * x, (2 * r + 1) * stride + 8 * x;
    && a + 8 <= |src| && b + 8 <= |src| && i < |yuv.u| && i < |yuv.v|
    && var mean := Mean(PixelAt(src, a), PixelAt(src, a + 4), PixelAt(src, b), PixelAt(src, b + 4));
       && -0.6 < yuv.u[i] as real - (128.0 + 224.0 / 255.0 * BlueDifference(mean)) < 0.6
       && -0.6 < yuv.v[i] as real - (128.0 + 224.0 / 255.0 * RedDifference(mean)) < 0.6
  }

  lemma BgraStands(src: seq<byte>, stride: nat, w: nat, h: nat)
    requires Holds(|src|, stride, 4 * w, h) && w % 2 == 0 && h % 2 == 0
    ensures Stands(src, stride, w, h, BgraYuv(src, stride, w, h))
  {
    hide Holds, Rows, LumaStands, ChromaStands;
    var yuv := BgraYuv(src, stride, w, h);
    forall r, x | 0 <= r < h && 0 <= x < w
      ensures LumaStands(src, stride, w, yuv, r, x)
    {
      OneLuma(src, stride, w, h, r, x);
    }
    forall r, x | 0 <= r < h / 2 && 0 <= x < w / 2
      ensures ChromaStands(src, stride, w, yuv, r, x)
    {
      OneChroma(src, stride, w, h, r, x);
    }
  }

  lemma OneLuma(src: seq<byte>, stride: nat, w: nat, h: nat, r: nat, x: nat)
    requires Holds(|src|, stride, 4 * w, h) && r < h && x < w
    ensures LumaStands(src, stride, w, BgraYuv(src, stride, w, h), r, x)
  {
    hide Holds, Rows, LumaRows, CbRows, CrRows, Brightness;
    LumaOfPlane(src, stride, w, h, Rows(LumaRows(src, stride, w), 0, h), r, x);
  }

  lemma OneChroma(src: seq<byte>, stride: nat, w: nat, h: nat, r: nat, x: nat)
    requires Holds(|src|, stride, 4 * w, h) && w % 2 == 0 && h % 2 == 0 && r < h / 2 && x < w / 2
    ensures ChromaStands(src, stride, w, BgraYuv(src, stride, w, h), r, x)
  {
    hide Holds, Rows, LumaRows, CbRows, CrRows, Mean, BlueDifference, RedDifference;
    ChromaOfPlanes(src, stride, w, h, Rows(CbRows(src, stride, w / 2), 0, h / 2),
                   Rows(CrRows(src, stride, w / 2), 0, h / 2), r, x);
  }

  /** `dst` is the plane of `z` resampled: every byte the interpolation of the frame's bytes, rounded. */
  ghost predicate Resampled(z: Scaling, dst: seq<byte>) {
    && Holds(|z.src|, z.stride, z.sw * z.chans, z.sh) && |dst| == z.dh * (z.dw * z.chans)
    && forall r, x, c :: 0 <= r < z.dh && 0 <= x < z.dw && 0 <= c < z.chans ==> ByteStands(z, dst, r, x, c)
  }

  predicate ByteStands(z: Scaling, dst: seq<byte>, r: nat, x: nat, c: nat)
    requires Holds(|z.src|, z.stride, z.sw * z.chans, z.sh) && r < z.dh && x < z.dw && c < z.chans
  {
    var i := r * (z.dw * z.chans) + z.chans * x + c;
    i < |dst| && -0.5 < dst[i] as real - Exact(z, r, x, c) <= 0.5
  }

  lemma RowsResampled(z: Scaling)
    requires Holds(|z.src|, z.stride, z.sw * z.chans, z.sh)
    ensures Resampled(z, Rows(ScaledRows(z), 0, z.dh))
  {
    hide Holds, Rows, Exact, ScaledRows, Wide;
    var dst := Rows(ScaledRows(z), 0, z.dh);
    ScaledWide(z);
    RowsLength(ScaledRows(z), z.dw * z.chans, 0, z.dh);
    forall r, x, c | 0 <= r < z.dh && 0 <= x < z.dw && 0 <= c < z.chans
      ensures ByteStands(z, dst, r, x, c)
    {
      ScaledIsBilinear(z, dst, r, x, c);
    }
  }

  /** A BGRA frame of the picture's size is converted from its top left corner, any other after resampling. */
  lemma BgraShown(frame: Frame, p: Plane, none: Option<Plane>, w: nat, h: nat) returns (scaled: seq<byte>)
    requires w >= 2 && h >= 2 && w % 2 == 0 && h % 2 == 0
    requires frame.data == Cpu(Bgra8, p, none) && Complete(p, 4 * frame.width, frame.height)
    ensures Shown(frame, w, h).Ok?
    ensures SameSize(frame, w, h) ==> Stands(p.data, p.stride, w, h, Shown(frame, w, h).value)
    ensures !SameSize(frame, w, h) ==>
              && Resampled(Sizes(p.data, frame.width, frame.height, p.stride, 4, w, h), scaled)
              && Stands(scaled, 4 * w, w, h, Shown(frame, w, h).value)
  {
    hide Enough, Rows, BgraYuv, Holds, Stands, Resampled, ScaledRows;
    var fw, fh := frame.width, frame.height;
    assert fw > 0 && fh > 0;
    CompleteIsEnough(p, fw * 4, fh);
    var z: Scaling := Sizes(p.data, fw, fh, p.stride, 4, w, h);
    scaled := Rows(ScaledRows(z), 0, h);
    if SameSize(frame, w, h) {
      EnoughHolds(p, fw * 4, fh, 4 * w, h);
      BgraStands(p.data, p.stride, w, h);
    } else {
      RowsResampled(z);
      ResampledLength(z, scaled);
      PackedHolds(|scaled|, 4 * w, h);
      BgraStands(scaled, 4 * w, w, h);
    }
  }

  lemma ResampledLength(z: Scaling, dst: seq<byte>)
    requires Resampled(z, dst)
    ensures |dst| == z.dh * (z.dw * z.chans)
  {
  }

  /** Chroma bytes in turn, from the top left corner of a plane. */
  ghost predicate Deinterleaved(uv: seq<byte>, stride: nat, w: nat, h: nat, yuv: Yuv) {
    forall r, x :: 0 <= r < h / 2 && 0 <= x < w / 2 ==> PairStands(uv, stride, w, yuv, r, x)
  }

  predicate PairStands(uv: seq<byte>, stride: nat, w: nat, yuv: Yuv, r: nat, x: nat) {
    var i, k := r * (w / 2) + x, r * stride + 2 * x;
    i < |yuv.u| && i < |yuv.v| && k + 1 < |uv| && yuv.u[i] == uv[k] && yuv.v[i] == uv[k + 1]
  }

  predicate LumaCopied(y: seq<byte>, stride: nat, w: nat, yuv: Yuv, r: nat, x: nat) {
    r * w + x < |yuv.y| && r * stride + x < |y| && yuv.y[r * w + x] == y[r * stride + x]
  }

  lemma OnePair(uv: seq<byte>, stride: nat, w: nat, h: nat, r: nat, x: nat)
    requires Holds(|uv|, stride, 2 * (w / 2), h / 2) && r < h / 2 && x < w / 2
    ensures var us, vs := Rows(EvenRows(uv, stride, w / 2), 0, h / 2), Rows(OddRows(uv, stride, w / 2), 0, h / 2);
            PairStands(uv, stride, w, Yuv([], us, vs), r, x)
  {
    hide Holds, Rows, Wide, StepRow;
    var cw, ch := w / 2, h / 2;
    ChromaWide(uv, stride, cw);
    RowInside(|uv|, stride, 2 * cw, ch, r);
    RowsAt(EvenRows(uv, stride, cw), cw, 0, ch, r, x);
    RowsAt(OddRows(uv, stride, cw), cw, 0, ch, r, x);
    assert (r - 0) * cw == r * cw;
    StepAt(uv, r * stride, cw, x);
    StepAt(uv, r * stride + 1, cw, x);
  }

  lemma StepAt(src: seq<byte>, at: nat, cw: nat, x: nat)
    requires x < cw && at + 2 * x < |src|
    ensures StepRow(src, at, cw)[x] == src[at + 2 * x]
  {
  }

  lemma OneCopy(y: seq<byte>, stride: nat, w: nat, h: nat, u: seq<byte>, v: seq<byte>, r: nat, x: nat)
    requires Holds(|y|, stride, w, h) && r < h && x < w
    ensures LumaCopied(y, stride, w, Yuv(Rows(PlainRows(y, stride, w), 0, h), u, v), r, x)
  {
    hide Holds, Rows, Wide, PlainRow;
    ChromaWide(y, stride, w);
    RowInside(|y|, stride, w, h, r);
    RowsAt(PlainRows(y, stride, w), w, 0, h, r, x);
    assert (r - 0) * w == r * w;
    PlainAt(y, r * stride, w, x);
  }

  lemma PlainAt(src: seq<byte>, at: nat, w: nat, x: nat)
    requires x < w && at + x < |src|
    ensures PlainRow(src, at, w)[x] == src[at + x]
  {
    assert PlainRow(src, at, w)[x] == At(src, at + x);
  }

  lemma AllPairs(uv: seq<byte>, stride: nat, w: nat, h: nat, y: seq<byte>)
    requires Holds(|uv|, stride, 2 * (w / 2), h / 2)
    ensures Deinterleaved(uv, stride, w, h,
                          Yuv(y, Rows(EvenRows(uv, stride, w / 2), 0, h / 2),
                              Rows(OddRows(uv, stride, w / 2), 0, h / 2)))
  {
    hide Holds, Rows, EvenRows, OddRows;
    forall r, x | 0 <= r < h / 2 && 0 <= x < w / 2
      ensures PairStands(uv, stride, w, Yuv(y, Rows(EvenRows(uv, stride, w / 2), 0, h / 2),
                                            Rows(OddRows(uv, stride, w / 2), 0, h / 2)), r, x)
    {
      OnePair(uv, stride, w, h, r, x);
    }
  }

  predicate WholeNv12(frame: Frame, y: Plane, uv: Plane) {
    && frame.data == Cpu(Nv12, y, Some(uv))
    && Complete(y, frame.width, frame.height) && Complete(uv, 2 * HalfUp(frame.width), HalfUp(frame.height))
  }

  lemma Nv12Copied(frame: Frame, y: Plane, uv: Plane, w: nat, h: nat)
    requires w >= 2 && h >= 2 && w % 2 == 0 && h % 2 == 0 && WholeNv12(frame, y, uv) && SameSize(frame, w, h)
    ensures Shown(frame, w, h).Ok?
    ensures forall r, x :: 0 <= r < h && 0 <= x < w ==> LumaCopied(y.data, y.stride, w, Shown(frame, w, h).value, r, x)
    ensures Deinterleaved(uv.data, uv.stride, w, h, Shown(frame, w, h).value)
  {
    hide Enough, Rows, Holds, Deinterleaved, ScaledRows, PlainRows, EvenRows, OddRows, LumaCopied, Complete;
    var fw, fh := frame.width, frame.height;
    NoRowsIncomplete(y, fw, fh);
    CompleteIsEnough(y, fw, fh);
    CompleteIsEnough(uv, HalfUp(fw) * 2, HalfUp(fh));
    EnoughHolds(y, fw, fh, w, h);
    EnoughHolds(uv, HalfUp(fw) * 2, HalfUp(fh), 2 * (w / 2), h / 2);
    var yuv := Shown(frame, w, h).value;
    forall r, x | 0 <= r < h && 0 <= x < w
      ensures LumaCopied(y.data, y.stride, w, yuv, r, x)
    {
      OneCopy(y.data, y.stride, w, h, yuv.u, yuv.v, r, x);
    }
    AllPairs(uv.data, uv.stride, w, h, yuv.y);
  }

  lemma Nv12Resampled(frame: Frame, y: Plane, uv: Plane, w: nat, h: nat) returns (scaled: seq<byte>)
    requires w >= 2 && h >= 2 && w % 2 == 0 && h % 2 == 0 && WholeNv12(frame, y, uv) && !SameSize(frame, w, h)
    ensures Shown(frame, w, h).Ok?
    ensures Resampled(Sizes(y.data, frame.width, frame.height, y.stride, 1, w, h), Shown(frame, w, h).value.y)
    ensures Resampled(Sizes(uv.data, HalfUp(frame.width), HalfUp(frame.height), uv.stride, 2, w / 2, h / 2), scaled)
    ensures Deinterleaved(scaled, w, w, h, Shown(frame, w, h).value)
  {
    hide Enough, Rows, Holds, Deinterleaved, Resampled, ScaledRows, PlainRows, EvenRows, OddRows, Complete;
    var fw, fh := frame.width, frame.height;
    var cw, ch := HalfUp(fw), HalfUp(fh);
    NoRowsIncomplete(y, fw, fh);
    CompleteIsEnough(y, fw, fh);
    CompleteIsEnough(uv, cw * 2, ch);
    var z: Scaling := Sizes(uv.data, cw, ch, uv.stride, 2, w / 2, h / 2);
    scaled := Rows(ScaledRows(z), 0, h / 2);
    var luma: Scaling := Sizes(y.data, fw, fh, y.stride, 1, w, h);
    RowsResampled(luma);
    RowsResampled(z);
    ResampledLength(z, scaled);
    PackedHolds(|scaled|, w, h / 2);
    AllPairs(scaled, w, w, h, Shown(frame, w, h).value.y);
  }

  /** An NV12 frame of the picture's size is copied, its chroma pairs taken apart; any other is resampled first. */
  lemma Nv12Shown(frame: Frame, y: Plane, uv: Plane, w: nat, h: nat) returns (scaled: seq<byte>)
    requires w >= 2 && h >= 2 && w % 2 == 0 && h % 2 == 0
    requires WholeNv12(frame, y, uv)
    ensures Shown(frame, w, h).Ok?
    ensures SameSize(frame, w, h) ==>
              && (forall r, x :: 0 <= r < h && 0 <= x < w ==>
                    LumaCopied(y.data, y.stride, w, Shown(frame, w, h).value, r, x))
              && Deinterleaved(uv.data, uv.stride, w, h, Shown(frame, w, h).value)
    ensures !SameSize(frame, w, h) ==>
              && Resampled(Sizes(y.data, frame.width, frame.height, y.stride, 1, w, h), Shown(frame, w, h).value.y)
              && Resampled(Sizes(uv.data, HalfUp(frame.width), HalfUp(frame.height), uv.stride, 2, w / 2, h / 2),
                           scaled)
              && Deinterleaved(scaled, w, w, h, Shown(frame, w, h).value)
  {
    hide Shown, Resampled, Deinterleaved, LumaCopied, WholeNv12;
    scaled := [];
    if SameSize(frame, w, h) {
      Nv12Copied(frame, y, uv, w, h);
    } else {
      scaled := Nv12Resampled(frame, y, uv, w, h);
    }
  }

  /** A screen the encoder can take is never resampled: at its own encode size it loses a column and a row at most. */
  lemma OwnSizeIsKept(frame: Frame)
    requires frame.width >= 2 && frame.height >= 2
    requires Max(frame.width, frame.height) <= 3840 && Min(frame.width, frame.height) <= 2160
    ensures var (w, h) := EncodeSize(frame.width, frame.height);
            && SameSize(frame, w, h) && w % 2 == 0 && h % 2 == 0 && w >= 2 && h >= 2
  {
    hide EncodeSize;
    EncodeSizeFits(frame.width, frame.height);
  }
}
