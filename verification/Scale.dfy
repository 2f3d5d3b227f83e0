/** Bilinear resampling (native/crates/codec-openh264/src/convert.rs). */
module Scale {
  import opened Common
  import opened Planes
  import opened Convert

  /** The two source positions of one destination position, and the weight of the second in 1/256. */
  datatype Tap = Tap(first: nat, second: nat, frac: nat)

  /** Destination position `i` of `d`, in a source of `s` positions. */
  function TapOf(i: nat, d: nat, s: nat): Tap
    requires d > 0 && s > 0
  {
    var pos := SaturatingSub((2 * i + 1) * s * 256 / (2 * d), 128);
    var first := Min(pos / 256, s - 1);
    Tap(first, Min(first + 1, s - 1), pos % 256)
  }

  function SaturatingSub(a: nat, b: nat): nat {
    if a < b then 0 else a - b
  }

  /** Both taps are inside the picture, next to each other or the same. */
  lemma TapInside(i: nat, d: nat, s: nat)
    requires d > 0 && s > 0
    ensures var t := TapOf(i, d, s);
            t.first <= t.second < s && t.second <= t.first + 1 && t.frac < 256
  {
  }

  /** At equal sizes every position is its own tap. */
  lemma TapEqual(i: nat, d: nat)
    requires i < d
    ensures TapOf(i, d, d).first == i && TapOf(i, d, d).frac == 0
  {
    assert (2 * i + 1) * d * 256 == (2 * d) * ((2 * i + 1) * 128);
    DivModOf(2 * d, (2 * i + 1) * 128, 0);
    assert (2 * i + 1) * 128 == 256 * i + 128;
  }

  function Times(a: nat, b: nat): nat {
    MulMono(a, 0, b);
    a * b
  }

  function Wrap32(n: nat): nat {
    n % 0x1_0000_0000
  }

  lemma NoWrap32(n: nat)
    requires n < 0x1_0000_0000
    ensures Wrap32(n) == n
  {
  }

  /** `p` and `q` mixed with weights `256 - f` and `f`. */
  function Mix(p: nat, q: nat, f: nat): nat
    requires f < 256
  {
    Times(p, 256 - f) + Times(q, f)
  }

  /** The same in 32-bit arithmetic, every operation wrapping. */
  function Mix32(p: nat, q: nat, f: nat): nat
    requires f < 256
  {
    Wrap32(Wrap32(Times(p, 256 - f)) + Wrap32(Times(q, f)))
  }

  /** The weighted mean of the four taps as the loop computes it. */
  function Blend(a0: byte, a1: byte, b0: byte, b1: byte, fx: nat, fy: nat): byte
    requires fx < 256 && fy < 256
  {
    Wrap32(Mix32(Mix32(a0, a1, fx), Mix32(b0, b1, fx), fy) + 32768) / 65536 % 256
  }

  lemma MixBetween(p: nat, q: nat, f: nat, low: nat, high: nat)
    requires f < 256 && low <= p <= high && low <= q <= high
    ensures 256 * low <= Mix(p, q, f) <= 256 * high
  {
    MulMono(256 - f, low, p);
    MulMono(256 - f, p, high);
    MulMono(f, low, q);
    MulMono(f, q, high);
    assert low * (256 - f) + low * f == 256 * low;
    assert high * (256 - f) + high * f == 256 * high;
  }

  /** No 32-bit operation wraps, and the result lies between the smallest and the largest tap. */
  lemma BlendBetween(a0: byte, a1: byte, b0: byte, b1: byte, fx: nat, fy: nat)
    requires fx < 256 && fy < 256
    ensures Blend(a0, a1, b0, b1, fx, fy) as int == (Mix(Mix(a0, a1, fx), Mix(b0, b1, fx), fy) + 32768) / 65536
    ensures Min(Min(a0, a1), Min(b0, b1)) <= Blend(a0, a1, b0, b1, fx, fy) <= Max(Max(a0, a1), Max(b0, b1))
  {
    hide Blend, Mix;
    var low, high := Min(Min(a0, a1), Min(b0, b1)), Max(Max(a0, a1), Max(b0, b1));
    var top, bot := Mix(a0, a1, fx), Mix(b0, b1, fx);
    MixBetween(a0, a1, fx, low, high);
    MixBetween(b0, b1, fx, low, high);
    MixBetween(top, bot, fy, 256 * low, 256 * high);
    var n := Mix(top, bot, fy);
    assert 65536 * low <= n <= 65536 * high;
    assert low <= (n + 32768) / 65536 <= high;
    Unwrapped(a0, a1, b0, b1, fx, fy);
  }

  lemma Unwrapped(a0: byte, a1: byte, b0: byte, b1: byte, fx: nat, fy: nat)
    requires fx < 256 && fy < 256
    ensures var n := Mix(Mix(a0, a1, fx), Mix(b0, b1, fx), fy);
            n <= 16711680 && Blend(a0, a1, b0, b1, fx, fy) as int == (n + 32768) / 65536
  {
    hide Wrap32, Mix, Mix32;
    var top, bot := Mix(a0, a1, fx), Mix(b0, b1, fx);
    MixBetween(a0, a1, fx, 0, 255);
    MixBetween(b0, b1, fx, 0, 255);
    MixBetween(top, bot, fy, 0, 65280);
    Parts(a0, a1, fx);
    Parts(b0, b1, fx);
    Parts(top, bot, fy);
    NoWrap32(Mix(top, bot, fy) + 32768);
  }

  /** The two products of a mix, and their sum, fit. */
  lemma Parts(p: nat, q: nat, f: nat)
    requires f < 256 && Mix(p, q, f) <= 16711680
    ensures Mix32(p, q, f) == Mix(p, q, f)
  {
    hide Times, Wrap32;
    NoWrap32(Times(p, 256 - f));
    NoWrap32(Times(q, f));
    NoWrap32(Mix(p, q, f));
  }

  /** One sample untouched when both weights are whole. */
  lemma BlendExact(a0: byte, a1: byte, b0: byte, b1: byte)
    ensures Blend(a0, a1, b0, b1, 0, 0) == a0
  {
    BlendBetween(a0, a1, b0, b1, 0, 0);
    hide Blend;
    assert Mix(a0, a1, 0) == 256 * a0 && Mix(b0, b1, 0) == 256 * b0;
    assert Mix(256 * a0, 256 * b0, 0) == 65536 * a0;
    assert (65536 * a0 + 32768) / 65536 == a0;
  }

  // ---- The loop ----------------------------------------------------------

  datatype Sizes = Sizes(src: seq<byte>, sw: nat, sh: nat, stride: nat, chans: nat, dw: nat, dh: nat)

  /** A resampling between pictures that are not empty. */
  type Scaling = z: Sizes | z.sw > 0 && z.sh > 0 && z.chans > 0 && z.dw > 0 && z.dh > 0
    witness Sizes([0], 1, 1, 1, 1, 1, 1)

  /** Channel `c` of source pixel `x` in row `y`. */
  function Texel(z: Scaling, y: nat, x: nat, c: nat): byte {
    At(z.src, y * z.stride + z.chans * x + c)
  }

  function SampleAt(z: Scaling, row: nat, col: nat, c: nat): byte {
    var ty, tx := TapOf(row, z.dh, z.sh), TapOf(col, z.dw, z.sw);
    Blend(Texel(z, ty.first, tx.first, c), Texel(z, ty.first, tx.second, c),
          Texel(z, ty.second, tx.first, c), Texel(z, ty.second, tx.second, c), tx.frac, ty.frac)
  }

  /** The first `n` bytes of a destination row. */
  function Samples(z: Scaling, row: nat, n: nat): (s: seq<byte>)
    ensures |s| == n
  {
    seq<byte>(n, k requires 0 <= k < n => SampleAt(z, row, k / z.chans, k % z.chans))
  }

  function ScaledRows(z: Scaling): nat -> seq<byte> {
    (r: nat) => Samples(z, r, z.dw * z.chans)
  }

  lemma ScaledWide(z: Scaling)
    ensures Wide(ScaledRows(z), z.dw * z.chans)
  {
    hide Samples;
  }

  lemma SamplesMore(z: Scaling, row: nat, col: nat, c: nat)
    requires c < z.chans
    ensures var k := z.chans * col + c;
            Samples(z, row, k + 1) == Samples(z, row, k) + [SampleAt(z, row, col, c)]
  {
    hide SampleAt;
    var k := z.chans * col + c;
    DivModOf(z.chans, col, c);
    var a, b := Samples(z, row, k + 1), Samples(z, row, k) + [SampleAt(z, row, col, c)];
    forall j | 0 <= j <= k
      ensures a[j] == b[j]
    {
    }
  }

  /** Pixel `x` of a row of `sw` pixels. */
  lemma TexelInside(chans: nat, sw: nat, x: nat)
    requires x < sw
    ensures chans * x + chans <= sw * chans
  {
    MulMono(chans, x + 1, sw);
  }

  method Sample(z: Scaling, ty: Tap, tx: Tap, c: nat, ghost row: nat, ghost col: nat) returns (s: byte)
    requires Holds(|z.src|, z.stride, z.sw * z.chans, z.sh) && c < z.chans
    requires ty == TapOf(row, z.dh, z.sh) && tx == TapOf(col, z.dw, z.sw)
    ensures s == SampleAt(z, row, col, c)
  {
    hide TapOf, Blend, Holds, Texel;
    TapInside(row, z.dh, z.sh);
    TapInside(col, z.dw, z.sw);
    TexelIs(z, ty.first, tx.first, c);
    TexelIs(z, ty.first, tx.second, c);
    TexelIs(z, ty.second, tx.first, c);
    TexelIs(z, ty.second, tx.second, c);
    var a, b := ty.first * z.stride, ty.second * z.stride;
    var p, q := z.chans * tx.first, z.chans * tx.second;
    s := Blend(z.src[a + p + c], z.src[a + q + c], z.src[b + p + c], z.src[b + q + c], tx.frac, ty.frac);
  }

  lemma TexelIs(z: Scaling, y: nat, x: nat, c: nat)
    requires Holds(|z.src|, z.stride, z.sw * z.chans, z.sh) && y < z.sh && x < z.sw && c < z.chans
    ensures 0 <= y * z.stride + z.chans * x + c < |z.src|
    ensures Texel(z, y, x, c) == z.src[y * z.stride + z.chans * x + c]
  {
    RowInside(|z.src|, z.stride, z.sw * z.chans, z.sh, y);
    MulMono(z.stride, 0, y);
    MulMono(z.chans, 0, x);
    TexelInside(z.chans, z.sw, x);
  }

  /** The channels of one pixel, behind the pixels of its row already in the plane `was`. */
  method PixelInto(z: Scaling, ty: Tap, tx: Tap, dst: array<byte>, o: nat, row: nat, col: nat, ghost was: seq<byte>)
    requires Holds(|z.src|, z.stride, z.sw * z.chans, z.sh)
    requires ty == TapOf(row, z.dh, z.sh) && tx == TapOf(col, z.dw, z.sw)
    requires o + z.chans * (col + 1) <= dst.Length
    requires dst[..] == Put(was, o, Samples(z, row, z.chans * col))
    modifies dst
    ensures dst[..] == Put(was, o, Samples(z, row, z.chans * (col + 1)))
  {
    hide TapOf, Put, Samples, Holds, SampleAt;
    assert z.chans * (col + 1) == z.chans * col + z.chans;
    for c := 0 to z.chans
      invariant dst[..] == Put(was, o, Samples(z, row, z.chans * col + c))
    {
      var sample := Sample(z, ty, tx, c, row, col);
      dst[o + (z.chans * col + c)] := sample;
      PutOne(was, o, Samples(z, row, z.chans * col + c), sample);
      SamplesMore(z, row, col, c);
    }
  }

  method ScaleRow(z: Scaling, ty: Tap, xs: seq<Tap>, row: nat, dst: array<byte>, o: nat)
    requires Holds(|z.src|, z.stride, z.sw * z.chans, z.sh) && o + z.dw * z.chans <= dst.Length
    requires ty == TapOf(row, z.dh, z.sh) && row < z.dh
    requires |xs| == z.dw && forall i :: 0 <= i < z.dw ==> xs[i] == TapOf(i, z.dw, z.sw)
    modifies dst
    ensures dst[..] == Put(old(dst[..]), o, ScaledRows(z)(row))
  {
    hide TapOf, Put, Samples, Holds;
    ghost var was := dst[..];
    PutEmpty(was, o, Samples(z, row, 0));
    assert z.chans * 0 == 0 && z.chans * z.dw == z.dw * z.chans;
    for col := 0 to z.dw
      invariant dst[..] == Put(was, o, Samples(z, row, z.chans * col))
    {
      MulMono(z.chans, col + 1, z.dw);
      PixelInto(z, ty, xs[col], dst, o, row, col, was);
    }
  }

  /** `scale_bilinear` into a packed plane. */
  method ScaleBilinear(z: Scaling, dst: array<byte>)
    requires Holds(|z.src|, z.stride, z.sw * z.chans, z.sh) && dst.Length == z.dh * (z.dw * z.chans)
    modifies dst
    ensures dst[..] == Rows(ScaledRows(z), 0, z.dh)
  {
    hide Holds, Put, TapOf, Wide, ScaledRows;
    var w := z.dw * z.chans;
    var xs := seq(z.dw, i requires 0 <= i < z.dw => TapOf(i, z.dw, z.sw));
    var ys := seq(z.dh, i requires 0 <= i < z.dh => TapOf(i, z.dh, z.sh));
    ghost var was := dst[..];
    ghost var rows := ScaledRows(z);
    ScaledWide(z);
    NoRows(rows, was, 0, w);
    for row := 0 to z.dh
      invariant dst[..] == Put(was, 0 * w, Rows(rows, 0, row))
    {
      PlaceInside(z.dh, w, row);
      ScaleRow(z, ys[row], xs, row, dst, row * w);
      RowPut(was, rows, w, 0, row);
    }
    Whole(rows, was, w, z.dh);
  }

  // ---- What the samples are ----------------------------------------------

  /** A sample is never outside the range of its own four taps, all of which are in the picture. */
  lemma SampleBetween(z: Scaling, row: nat, col: nat, c: nat)
    requires row < z.dh && col < z.dw && c < z.chans
    ensures var ty, tx := TapOf(row, z.dh, z.sh), TapOf(col, z.dw, z.sw);
            && ty.first <= ty.second < z.sh && tx.first <= tx.second < z.sw
            && Min(Min(Texel(z, ty.first, tx.first, c), Texel(z, ty.first, tx.second, c)),
                   Min(Texel(z, ty.second, tx.first, c), Texel(z, ty.second, tx.second, c)))
               <= SampleAt(z, row, col, c)
               <= Max(Max(Texel(z, ty.first, tx.first, c), Texel(z, ty.first, tx.second, c)),
                      Max(Texel(z, ty.second, tx.first, c), Texel(z, ty.second, tx.second, c)))
  {
    hide TapOf, Blend, Texel;
    TapInside(row, z.dh, z.sh);
    TapInside(col, z.dw, z.sw);
    var ty, tx := TapOf(row, z.dh, z.sh), TapOf(col, z.dw, z.sw);
    BlendBetween(Texel(z, ty.first, tx.first, c), Texel(z, ty.first, tx.second, c),
                 Texel(z, ty.second, tx.first, c), Texel(z, ty.second, tx.second, c), tx.frac, ty.frac);
  }

  /** At equal sizes resampling is a copy. */
  lemma EqualSizesCopy(z: Scaling, row: nat, col: nat, c: nat)
    requires z.sw == z.dw && z.sh == z.dh && row < z.dh && col < z.dw
    ensures SampleAt(z, row, col, c) == Texel(z, row, col, c)
  {
    hide TapOf, Blend, Texel;
    TapEqual(row, z.dh);
    TapEqual(col, z.dw);
    var ty, tx := TapOf(row, z.dh, z.sh), TapOf(col, z.dw, z.sw);
    BlendExact(Texel(z, ty.first, tx.first, c), Texel(z, ty.first, tx.second, c),
               Texel(z, ty.second, tx.first, c), Texel(z, ty.second, tx.second, c));
  }
}
