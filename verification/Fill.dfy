/** From a CPU frame to the picture the encoder takes (native/crates/codec-openh264/src/encoder.rs). */
module Fill {
  import opened Common
  import opened Planes
  import opened Convert
  import opened Chroma
  import opened Scale

  const MAX_LONG_SIDE: nat := 3840
  const MAX_SHORT_SIDE: nat := 2160

  // ---- The encode size ---------------------------------------------------

  /** A limit divided by 0 is infinite: like 1, it never shrinks anything. */
  function Ratio(limit: nat, side: nat): real {
    if side == 0 then 1.0 else limit as real / side as real
  }

  /** The factor that brings both sides within the encoder's limits, at most 1. */
  function Shrink(width: nat, height: nat): real {
    var a := Ratio(MAX_LONG_SIDE, Max(width, height));
    var b := Ratio(MAX_SHORT_SIDE, Min(width, height));
    var s := if a <= b then a else b;
    if s <= 1.0 then s else 1.0
  }

  function Scaled(v: nat, scale: real): real {
    v as real * scale
  }

  /** A scaled side, made even and at least 2; Rust's float-to-integer cast floors and saturates at 0. */
  function Fit(x: real): nat {
    var n := if x < 0.0 then 0 else x.Floor;
    Max(n - n % 2, 2)
  }

  function EncodeSize(width: nat, height: nat): (nat, nat) {
    (Fit(Scaled(width, Shrink(width, height))), Fit(Scaled(height, Shrink(width, height))))
  }

  lemma FitWithin(x: real, limit: nat)
    requires 0.0 <= x <= limit as real && limit >= 2
    ensures Fit(x) % 2 == 0 && 2 <= Fit(x) <= limit
  {
    assert x.Floor <= limit;
  }

  /** One side against a limit. */
  lemma SideFits(v: nat, limit: nat, s: real)
    requires 0.0 < s <= Ratio(limit, v) && limit >= 2
    ensures var fit := Fit(Scaled(v, s));
            && fit % 2 == 0 && 2 <= fit <= limit
            && (s == 1.0 ==> fit == Max(v - v % 2, 2))
  {
    hide Fit;
    if v == 0 {
      assert Scaled(v, s) == 0.0;
      FitWithin(0.0, limit);
      FitWhole(0);
    } else {
      Within(v as real, s, limit as real);
      FitWithin(Scaled(v, s), limit);
      if s == 1.0 {
        assert Scaled(v, s) == v as real;
        FitWhole(v);
      }
    }
  }

  lemma FitWhole(v: nat)
    ensures Fit(v as real) == Max(v - v % 2, 2)
  {
    assert (v as real).Floor == v;
  }

  lemma Within(v: real, s: real, limit: real)
    requires v > 0.0 && 0.0 <= s <= limit / v
    ensures 0.0 <= v * s <= limit
  {
    var q := limit / v;
    assert v * q == limit;
    Order(v, s, q);
  }

  lemma Order(v: real, s: real, q: real)
    requires v >= 0.0 && 0.0 <= s <= q
    ensures 0.0 <= v * s <= v * q
  {
    assert v * (q - s) >= 0.0;
  }

  lemma RatioSign(limit: nat, side: nat)
    requires limit > 0
    ensures Ratio(limit, side) > 0.0 && (side <= limit ==> Ratio(limit, side) >= 1.0)
  {
    if side > 0 {
      var q := Ratio(limit, side);
      assert q * side as real == limit as real;
      if q < 1.0 {
        assert (1.0 - q) * side as real > 0.0;
      }
    }
  }

  lemma ShrinkFits(width: nat, height: nat)
    ensures var s := Shrink(width, height);
            && 0.0 < s <= Ratio(MAX_LONG_SIDE, Max(width, height))
            && s <= Ratio(MAX_SHORT_SIDE, Min(width, height))
            && (Max(width, height) <= MAX_LONG_SIDE && Min(width, height) <= MAX_SHORT_SIDE ==> s == 1.0)
  {
    hide Ratio;
    RatioSign(MAX_LONG_SIDE, Max(width, height));
    RatioSign(MAX_SHORT_SIDE, Min(width, height));
  }

  /** The encoder always gets an even, non-empty size within its limits; one it can take is only made even. */
  lemma EncodeSizeFits(width: nat, height: nat)
    ensures var (w, h) := EncodeSize(width, height);
            && w % 2 == 0 && h % 2 == 0 && w >= 2 && h >= 2
            && Max(w, h) <= 3840 && Min(w, h) <= 2160
            && (Max(width, height) <= 3840 && Min(width, height) <= 2160 ==>
                  w == Max(width - width % 2, 2) && h == Max(height - height % 2, 2))
  {
    hide Ratio, Shrink, Fit;
    ShrinkFits(width, height);
    var s := Shrink(width, height);
    SideFits(Max(width, height), MAX_LONG_SIDE, s);
    SideFits(Min(width, height), MAX_SHORT_SIDE, s);
  }

  /** Both sides are shrunk by one factor, up to evenness, and one of them to its limit. */
  lemma EncodeSizeLargest(width: nat, height: nat) returns (s: real)
    requires width >= 2 && height >= 2
    ensures var (w, h) := EncodeSize(width, height);
            && 0.0 < s <= 1.0
            && NearlyEven(w, width as real * s) && NearlyEven(h, height as real * s)
            && (s == 1.0 || Max(w, h) == 3840 || Min(w, h) == 2160)
  {
    hide Ratio, Shrink, Fit, Scaled, NearlyEven;
    s := Shrink(width, height);
    ShrinkFits(width, height);
    ShrinkAtMostOne(width, height);
    SideNearly(width, s);
    SideNearly(height, s);
    if s < 1.0 {
      ShrinkReaches(width, height);
    }
  }

  lemma ShrinkAtMostOne(width: nat, height: nat)
    ensures var s := Shrink(width, height);
            && s <= 1.0
            && (s < 1.0 ==>
                  s == Ratio(MAX_LONG_SIDE, Max(width, height)) || s == Ratio(MAX_SHORT_SIDE, Min(width, height)))
  {
    hide Ratio;
  }

  /** The greatest even number not above `x`, or 2. */
  predicate NearlyEven(n: nat, x: real) {
    n % 2 == 0 && (n == 2 || n as real <= x) && x < n as real + 2.0
  }

  lemma SideNearly(v: nat, s: real)
    requires s > 0.0
    ensures NearlyEven(Fit(Scaled(v, s)), v as real * s)
  {
    Order(v as real, 0.0, s);
  }

  /** A side that decides the factor becomes its limit exactly. */
  lemma Reaches(limit: nat, side: nat)
    requires side > 0 && limit >= 2 && limit % 2 == 0
    ensures Fit(Scaled(side, Ratio(limit, side))) == limit
  {
    assert Scaled(side, Ratio(limit, side)) == limit as real;
    FitWhole(limit);
  }

  lemma FitOrder(a: nat, b: nat, s: real)
    requires a <= b && s > 0.0
    ensures Fit(Scaled(a, s)) <= Fit(Scaled(b, s))
  {
    assert (b - a) as real * s >= 0.0;
    assert Scaled(b, s) == Scaled(a, s) + (b - a) as real * s;
  }

  lemma ShrinkReaches(width: nat, height: nat)
    requires width >= 2 && height >= 2 && Shrink(width, height) < 1.0
    ensures var (w, h) := EncodeSize(width, height); Max(w, h) == 3840 || Min(w, h) == 2160
  {
    hide Ratio, Shrink, Fit, Scaled;
    var long, short := Max(width, height), Min(width, height);
    EncodeSizeFits(width, height);
    ShrinkFits(width, height);
    ShrinkAtMostOne(width, height);
    Reaches(MAX_LONG_SIDE, long);
    Reaches(MAX_SHORT_SIDE, short);
    FitOrder(short, long, Shrink(width, height));
  }

  // ---- Frames ------------------------------------------------------------

  datatype Format = Bgra8 | Nv12

  datatype Plane = Plane(data: seq<byte>, stride: nat)

  datatype Data =
    | Native
    | Cpu(format: Format, plane0: Plane, plane1: Option<Plane>)

  datatype Frame = Frame(width: nat, height: nat, data: Data)

  datatype FillError = TooSmall | Unsupported

  datatype Yuv = Yuv(y: seq<byte>, u: seq<byte>, v: seq<byte>)

  /** Cropped by at most one pixel each way. */
  predicate Crop(frame: Frame, w: nat, h: nat) {
    w <= frame.width <= w + 1 && h <= frame.height <= h + 1
  }

  predicate Enough(p: Plane, n: nat, rows: nat)
    requires rows > 0
  {
    p.stride >= n && |p.data| >= p.stride * (rows - 1) + n
  }

  function BgraYuv(src: seq<byte>, stride: nat, w: nat, h: nat): Yuv {
    Yuv(Rows(LumaRows(src, stride, w), 0, h),
        Rows(CbRows(src, stride, w / 2), 0, h / 2),
        Rows(CrRows(src, stride, w / 2), 0, h / 2))
  }

  /** What the picture shows after a frame: cropped or resampled, then converted. */
  function Shown(frame: Frame, w: nat, h: nat): Result<Yuv, FillError>
    requires w >= 2 && h >= 2
  {
    var fw, fh := frame.width, frame.height;
    match frame.data
    case Cpu(Bgra8, p, _) =>
      if fw == 0 || fh == 0 || !Enough(p, fw * 4, fh) then Err(TooSmall)
      else if Crop(frame, w, h) then Ok(BgraYuv(p.data, p.stride, w, h))
      else
        Ok(BgraYuv(Rows(ScaledRows(Sizes(p.data, fw, fh, p.stride, 4, w, h)), 0, h), w * 4, w, h))
    case Cpu(Nv12, y, Some(uv)) =>
      var cw, ch := DivCeil(fw, 2), DivCeil(fh, 2);
      if fw == 0 || fh == 0 || !Enough(y, fw, fh) || !Enough(uv, cw * 2, ch) then Err(TooSmall)
      else if Crop(frame, w, h) then
        Ok(Yuv(Rows(PlainRows(y.data, y.stride, w), 0, h),
               Rows(EvenRows(uv.data, uv.stride, w / 2), 0, h / 2),
               Rows(OddRows(uv.data, uv.stride, w / 2), 0, h / 2)))
      else
        var scaled := Rows(ScaledRows(Sizes(uv.data, cw, ch, uv.stride, 2, w / 2, h / 2)), 0, h / 2);
        Ok(Yuv(Rows(ScaledRows(Sizes(y.data, fw, fh, y.stride, 1, w, h)), 0, h),
               Rows(EvenRows(scaled, w, w / 2), 0, h / 2),
               Rows(OddRows(scaled, w, w / 2), 0, h / 2)))
    case _ => Err(Unsupported)
  }

  /** The machine as the conversion sees it: cores, if it tells, and threads that do not start. */
  datatype Machine = Machine(cores: Option<nat>, refused: nat -> bool)

  predicate Sane(m: Machine) {
    m.cores.Some? ==> m.cores.value > 0
  }

  lemma EnoughHolds(p: Plane, n: nat, rows: nat, m: nat, fewer: nat)
    requires rows > 0 && Enough(p, n, rows) && m <= n && fewer <= rows
    ensures Holds(|p.data|, p.stride, m, fewer)
  {
    if fewer > 0 {
      MulMono(p.stride, fewer - 1, rows - 1);
      assert (fewer - 1) * p.stride == p.stride * (fewer - 1);
    }
  }

  /** A packed plane holds all its rows. */
  lemma PackedHolds(len: nat, n: nat, rows: nat)
    requires len == rows * n
    ensures Holds(len, n, n, rows)
  {
    if rows > 0 {
      assert (rows - 1) * n + n == rows * n;
    }
  }

  /** `fill`: an error leaves the picture alone; otherwise it shows the frame. */
  method FillPicture(pic: I420, frame: Frame, machine: Machine) returns (error: Option<FillError>)
    requires pic.Valid() && pic.width >= 2 && pic.height >= 2 && Sane(machine)
    modifies pic.y, pic.u, pic.v
    ensures match Shown(frame, pic.width, pic.height)
            case Err(e) => error == Some(e) && pic.y[..] == old(pic.y[..])
                           && pic.u[..] == old(pic.u[..]) && pic.v[..] == old(pic.v[..])
            case Ok(yuv) => error == None && Yuv(pic.y[..], pic.u[..], pic.v[..]) == yuv
  {
    hide Enough, Rows, Holds, LumaRows, CbRows, CrRows, EvenRows, OddRows, PlainRows, ScaledRows;
    match frame.data
    case Cpu(Bgra8, p, _) =>
      error := FillBgra(pic, frame, p, machine);
    case Cpu(Nv12, y, Some(uv)) =>
      error := FillNv12(pic, frame, y, uv);
    case Cpu(Nv12, _, None) =>
      error := Some(Unsupported);
    case Native =>
      error := Some(Unsupported);
  }

  method FillBgra(pic: I420, frame: Frame, p: Plane, machine: Machine) returns (error: Option<FillError>)
    requires pic.Valid() && pic.width >= 2 && pic.height >= 2 && Sane(machine)
    requires frame.data.Cpu? && frame.data.format == Bgra8 && frame.data.plane0 == p
    modifies pic.y, pic.u, pic.v
    ensures match Shown(frame, pic.width, pic.height)
            case Err(e) => error == Some(e) && pic.y[..] == old(pic.y[..])
                           && pic.u[..] == old(pic.u[..]) && pic.v[..] == old(pic.v[..])
            case Ok(yuv) => error == None && Yuv(pic.y[..], pic.u[..], pic.v[..]) == yuv
  {
    hide Enough, Rows, Holds, LumaRows, CbRows, CrRows, EvenRows, OddRows, PlainRows, ScaledRows, Bands;
    var w, h, fw, fh := pic.width, pic.height, frame.width, frame.height;
    if fw == 0 || fh == 0 || !Enough(p, fw * 4, fh) {
      return Some(TooSmall);
    }
    BandsPositive(w, h, machine);
    if Crop(frame, w, h) {
      EnoughHolds(p, fw * 4, fh, 4 * w, h);
      BgraToI420(p.data, p.stride, pic, Bands(w, h, machine.cores), machine.refused);
    } else {
      var z: Scaling := Sizes(p.data, fw, fh, p.stride, 4, w, h);
      var scratch := new byte[h * (w * 4)](_ => 0);
      EnoughHolds(p, fw * 4, fh, fw * 4, fh);
      ScaleBilinear(z, scratch);
      PackedHolds(scratch.Length, 4 * w, h);
      BgraToI420(scratch[..], w * 4, pic, Bands(w, h, machine.cores), machine.refused);
    }
    error := None;
  }

  lemma BandsPositive(w: nat, h: nat, machine: Machine)
    requires Sane(machine)
    ensures Bands(w, h, machine.cores) > 0
  {
  }

  method FillNv12(pic: I420, frame: Frame, y: Plane, uv: Plane) returns (error: Option<FillError>)
    requires pic.Valid() && pic.width >= 2 && pic.height >= 2
    requires frame.data == Cpu(Nv12, y, Some(uv))
    modifies pic.y, pic.u, pic.v
    ensures match Shown(frame, pic.width, pic.height)
            case Err(e) => error == Some(e) && pic.y[..] == old(pic.y[..])
                           && pic.u[..] == old(pic.u[..]) && pic.v[..] == old(pic.v[..])
            case Ok(yuv) => error == None && Yuv(pic.y[..], pic.u[..], pic.v[..]) == yuv
  {
    hide Enough, Rows, Holds, LumaRows, CbRows, CrRows, EvenRows, OddRows, PlainRows, ScaledRows;
    var w, h, fw, fh := pic.width, pic.height, frame.width, frame.height;
    var cw, ch := DivCeil(fw, 2), DivCeil(fh, 2);
    if fw == 0 || fh == 0 || !Enough(y, fw, fh) || !Enough(uv, cw * 2, ch) {
      return Some(TooSmall);
    }
    if Crop(frame, w, h) {
      EnoughHolds(y, fw, fh, w, h);
      EnoughHolds(uv, cw * 2, ch, 2 * (w / 2), h / 2);
      Nv12ToI420(y.data, y.stride, uv.data, uv.stride, pic);
    } else {
      var luma: Scaling := Sizes(y.data, fw, fh, y.stride, 1, w, h);
      EnoughHolds(y, fw, fh, fw, fh);
      ScaleBilinear(luma, pic.y);
      var chroma: Scaling := Sizes(uv.data, cw, ch, uv.stride, 2, w / 2, h / 2);
      var scratch := new byte[(h / 2) * (w / 2 * 2)](_ => 0);
      EnoughHolds(uv, cw * 2, ch, cw * 2, ch);
      ScaleBilinear(chroma, scratch);
      PackedHolds(scratch.Length, w, h / 2);
      SplitUv(scratch[..], w, w / 2, h / 2, pic.u, pic.v);
    }
    error := None;
  }
}
