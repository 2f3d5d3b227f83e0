/** Resampling against bilinear interpolation of real numbers (native/crates/codec-openh264/src/convert.rs). */
module Bilinear {
  import opened Common
  import opened Planes
  import opened Convert
  import opened Scale

  /** The middle of destination position `i` of `d`, in a source of `s` positions, no further left than the first. */
  function Centre(i: nat, d: nat, s: nat): real
    requires d > 0
  {
    var c := (i as real + 0.5) * s as real / d as real - 0.5;
    if c < 0.0 then 0.0 else c
  }

  /** Where a tap stands. */
  function Place(t: Tap): real {
    t.first as real + t.frac as real / 256.0
  }

  /** A destination position's tap stands less than 1/256 left of its middle, between its two neighbours. */
  lemma TapIsCentre(i: nat, d: nat, s: nat)
    requires i < d && s > 0
    ensures var t := TapOf(i, d, s);
            && Place(t) <= Centre(i, d, s) < Place(t) + 1.0 / 256.0
            && t.frac < 256 && t.second == (if t.first + 1 < s then t.first + 1 else t.first)
  {
    var num := (2 * i + 1) * s * 256;
    var n := num / (2 * d);
    Floored(num, 2 * d);
    CentreIs(i, d, s);
    var pos := SaturatingSub(n, 128);
    NotBeyond(i, d, s);
    var first := pos / 256;
    assert pos == 256 * first + pos % 256;
    assert first <= s - 1;
    assert Place(TapOf(i, d, s)) == pos as real / 256.0;
  }

  lemma LessTimes(x: real, y: real, e: real)
    requires e > 0.0
    ensures x < y <==> x * e < y * e
  {
    assert (y - x) * e == y * e - x * e;
    if x < y {
      assert (y - x) * e > 0.0;
    } else {
      assert (x - y) * e >= 0.0;
    }
  }

  lemma Divided(n: real, e: real, q: real)
    requires e > 0.0 && e * q <= n < e * q + e
    ensures q <= n / e < q + 1.0
  {
    assert n / e * e == n && (q + 1.0) * e == e * q + e;
    LessTimes(n / e, q, e);
    LessTimes(n / e, q + 1.0, e);
  }

  lemma Floored(num: nat, d: nat)
    requires d > 0
    ensures (num / d) as real <= num as real / d as real < (num / d) as real + 1.0
  {
    var q := num / d;
    assert d * q <= num < d * q + d;
    assert (d * q) as real == d as real * q as real;
    Divided(num as real, d as real, q as real);
  }

  lemma CentreIs(i: nat, d: nat, s: nat)
    requires d > 0
    ensures ((2 * i + 1) * s * 256) as real / (2 * d) as real == 256.0 * ((i as real + 0.5) * s as real / d as real)
  {
    var a, e := (2 * i + 1) as real, d as real;
    assert a == 2.0 * (i as real + 0.5);
    assert ((2 * i + 1) * s * 256) as real == a * s as real * 256.0;
    assert (2 * d) as real == 2.0 * e;
    var y := (i as real + 0.5) * s as real / e;
    assert y * e == (i as real + 0.5) * s as real;
    assert a * s as real * 256.0 == 2.0 * 256.0 * (y * e);
    assert 2.0 * 256.0 * (y * e) == (256.0 * y) * (2.0 * e);
  }

  lemma QuotientLess(k: nat, m: nat, e: nat)
    requires k < e && m > 0
    ensures k * m / e < m
  {
    var q := k * m / e;
    assert e * q <= k * m;
    MulMono(m, k + 1, e);
    assert (k + 1) * m == k * m + m;
    if q >= m {
      MulMono(e, m, q);
    }
  }

  /** The clamp to the last position never has to act. */
  lemma NotBeyond(i: nat, d: nat, s: nat)
    requires i < d && s > 0
    ensures (2 * i + 1) * s * 256 / (2 * d) < 256 * s
  {
    QuotientLess(2 * i + 1, 256 * s, 2 * d);
    assert (2 * i + 1) * s * 256 == (2 * i + 1) * (256 * s);
  }

  /** Linear interpolation at `f` between `p` and `q`. */
  function Between(p: real, q: real, f: real): real {
    (1.0 - f) * p + f * q
  }

  lemma MixIsBetween(p: nat, q: nat, f: nat)
    requires f < 256
    ensures Mix(p, q, f) as real == 256.0 * Between(p as real, q as real, f as real / 256.0)
  {
    var g := f as real / 256.0;
    assert f as real == 256.0 * g;
    assert (p * (256 - f)) as real == p as real * (256.0 - f as real);
    assert (q * f) as real == q as real * f as real;
    assert p as real * (256.0 - 256.0 * g) == 256.0 * ((1.0 - g) * p as real);
    assert q as real * (256.0 * g) == 256.0 * (g * q as real);
  }

  lemma Scaled(p: real, q: real, f: real)
    ensures Between(256.0 * p, 256.0 * q, f) == 256.0 * Between(p, q, f)
  {
    assert (1.0 - f) * (256.0 * p) == 256.0 * ((1.0 - f) * p);
    assert f * (256.0 * q) == 256.0 * (f * q);
  }

  /** The loop's arithmetic is bilinear interpolation, rounded. */
  lemma BlendIsBilinear(a0: byte, a1: byte, b0: byte, b1: byte, fx: nat, fy: nat)
    requires fx < 256 && fy < 256
    ensures var u, v := fx as real / 256.0, fy as real / 256.0;
            var exact := Between(Between(a0 as real, a1 as real, u), Between(b0 as real, b1 as real, u), v);
            -0.5 < Blend(a0, a1, b0, b1, fx, fy) as real - exact <= 0.5
  {
    hide Blend, Mix, Between;
    var u, v := fx as real / 256.0, fy as real / 256.0;
    var top, bot := Mix(a0, a1, fx), Mix(b0, b1, fx);
    MixIsBetween(a0, a1, fx);
    MixIsBetween(b0, b1, fx);
    MixIsBetween(top, bot, fy);
    Scaled(Between(a0 as real, a1 as real, u), Between(b0 as real, b1 as real, u), v);
    BlendBetween(a0, a1, b0, b1, fx, fy);
    Rounded(Mix(top, bot, fy));
  }

  lemma Rounded(n: nat)
    ensures -0.5 < ((n + 32768) / 65536) as real - n as real / 65536.0 <= 0.5
  {
    var q := (n + 32768) / 65536;
    assert 65536 * q <= n + 32768 < 65536 * q + 65536;
    assert 65536.0 * q as real <= n as real + 32768.0 < 65536.0 * q as real + 65536.0;
  }

  /** Where a channel of a pixel of the frame stands. */
  function ByteAt(z: Scaling, y: nat, x: nat, c: nat): real
    requires Holds(|z.src|, z.stride, z.sw * z.chans, z.sh) && y < z.sh && x < z.sw && c < z.chans
  {
    TexelIs(z, y, x, c);
    z.src[y * z.stride + z.chans * x + c] as real
  }

  /** The interpolation of the frame's channel `c` at the taps of destination pixel `(row, col)`. */
  function Exact(z: Scaling, row: nat, col: nat, c: nat): real
    requires Holds(|z.src|, z.stride, z.sw * z.chans, z.sh) && row < z.dh && col < z.dw && c < z.chans
  {
    TapInside(row, z.dh, z.sh);
    TapInside(col, z.dw, z.sw);
    var ty, tx := TapOf(row, z.dh, z.sh), TapOf(col, z.dw, z.sw);
    Between(Between(ByteAt(z, ty.first, tx.first, c), ByteAt(z, ty.first, tx.second, c), tx.frac as real / 256.0),
            Between(ByteAt(z, ty.second, tx.first, c), ByteAt(z, ty.second, tx.second, c), tx.frac as real / 256.0),
            ty.frac as real / 256.0)
  }

  lemma SampleIsBilinear(z: Scaling, row: nat, col: nat, c: nat)
    requires Holds(|z.src|, z.stride, z.sw * z.chans, z.sh) && row < z.dh && col < z.dw && c < z.chans
    ensures -0.5 < SampleAt(z, row, col, c) as real - Exact(z, row, col, c) <= 0.5
  {
    hide TapOf, Blend, Holds, Between, Texel;
    TapInside(row, z.dh, z.sh);
    TapInside(col, z.dw, z.sw);
    var ty, tx := TapOf(row, z.dh, z.sh), TapOf(col, z.dw, z.sw);
    TexelIs(z, ty.first, tx.first, c);
    TexelIs(z, ty.first, tx.second, c);
    TexelIs(z, ty.second, tx.first, c);
    TexelIs(z, ty.second, tx.second, c);
    BlendIsBilinear(Texel(z, ty.first, tx.first, c), Texel(z, ty.first, tx.second, c),
                    Texel(z, ty.second, tx.first, c), Texel(z, ty.second, tx.second, c), tx.frac, ty.frac);
  }

  /** In the whole destination plane every byte is the interpolation at its own taps, rounded. */
  lemma ScaledIsBilinear(z: Scaling, dst: seq<byte>, row: nat, col: nat, c: nat)
    requires Holds(|z.src|, z.stride, z.sw * z.chans, z.sh) && row < z.dh && col < z.dw && c < z.chans
    requires dst == Rows(ScaledRows(z), 0, z.dh)
    ensures var i := row * (z.dw * z.chans) + z.chans * col + c;
            i < |dst| && -0.5 < dst[i] as real - Exact(z, row, col, c) <= 0.5
  {
    hide TapOf, Holds, Rows, Wide, SampleAt, Exact;
    ScaledWide(z);
    var k, w := z.chans * col + c, z.dw * z.chans;
    TexelInside(z.chans, z.dw, col);
    RowsLength(ScaledRows(z), w, 0, z.dh);
    PlaceInside(z.dh, w, row);
    RowsAt(ScaledRows(z), w, 0, z.dh, row, k);
    assert (row - 0) * w == row * w;
    DivModOf(z.chans, col, c);
    SampleIsBilinear(z, row, col, c);
  }
}
