/** Converted pictures against ITU-R BT.709, from the frame's bytes (native/crates/codec-openh264/src/convert.rs). */
module Bt709 {
  import opened Common
  import opened Pixels
  import opened Planes
  import opened Convert

  /** A colour as real numbers. */
  datatype Colour = Colour(r: real, g: real, b: real)

  /** The pixel at `i`: its bytes are blue, green, red and one that is not used. */
  function PixelAt(src: seq<byte>, i: nat): Colour
    requires i + 4 <= |src|
  {
    Colour(src[i + 2] as real, src[i + 1] as real, src[i] as real)
  }

  /** Items 3.2 to 3.4 of ITU-R BT.709: brightness, and the two colour differences, 255 being white. */
  function Brightness(c: Colour): real {
    0.2126 * c.r + 0.7152 * c.g + 0.0722 * c.b
  }

  function BlueDifference(c: Colour): real {
    (c.b - Brightness(c)) / 1.8556
  }

  function RedDifference(c: Colour): real {
    (c.r - Brightness(c)) / 1.5748
  }

  /** The average of four colours. */
  function Mean(a: Colour, b: Colour, c: Colour, d: Colour): Colour {
    Colour((a.r + b.r + c.r + d.r) / 4.0, (a.g + b.g + c.g + d.g) / 4.0, (a.b + b.b + c.b + d.b) / 4.0)
  }

  lemma PixelInside(len: nat, stride: nat, w: nat, h: nat, r: nat, x: nat)
    requires Holds(len, stride, 4 * w, h) && r < h && x < w
    ensures r * stride + 4 * x + 4 <= len
  {
    hide Holds;
    RowInside(len, stride, 4 * w, h, r);
  }

  lemma LumaByte(src: seq<byte>, at: nat, w: nat, x: nat)
    requires x < w && at + 4 * x + 4 <= |src|
    ensures LumaRow(src, at, w)[x] == Luma(src[at + 4 * x + 2], src[at + 4 * x + 1], src[at + 4 * x])
  {
    hide Luma;
  }

  /** Every luma byte of a converted plane is less than one step from the brightness of its pixel. */
  lemma LumaOfPlane(src: seq<byte>, stride: nat, w: nat, h: nat, y: seq<byte>, r: nat, x: nat)
    requires y == Rows(LumaRows(src, stride, w), 0, h) && Holds(|src|, stride, 4 * w, h) && r < h && x < w
    ensures r * stride + 4 * x + 4 <= |src| && r * w + x < |y|
    ensures var exact := 16.0 + 219.0 / 255.0 * Brightness(PixelAt(src, r * stride + 4 * x));
            -1.0 < y[r * w + x] as real - exact < 1.0
  {
    hide Holds, Luma, LumaRow, Wide, Rows, CbRows, CrRows;
    PixelInside(|src|, stride, w, h, r, x);
    AllWide(src, stride, w);
    RowsLength(LumaRows(src, stride, w), w, 0, h);
    PlaceInside(h, w, r);
    RowsAt(LumaRows(src, stride, w), w, 0, h, r, x);
    assert (r - 0) * w == r * w;
    LumaByte(src, r * stride, w, x);
    var i := r * stride + 4 * x;
    LumaIsBt709(src[i + 2], src[i + 1], src[i]);
  }

  /** The same in a picture. */
  lemma LumaOfPicture(src: seq<byte>, stride: nat, pic: I420, r: nat, x: nat)
    requires pic.Valid() && Converted(src, stride, pic) && Holds(|src|, stride, 4 * pic.width, pic.height)
    requires r < pic.height && x < pic.width
    ensures r * stride + 4 * x + 4 <= |src| && r * pic.width + x < pic.y.Length
    ensures var exact := 16.0 + 219.0 / 255.0 * Brightness(PixelAt(src, r * stride + 4 * x));
            -1.0 < pic.y[r * pic.width + x] as real - exact < 1.0
  {
    hide Holds, LumaRows, CbRows, CrRows, Rows, Brightness;
    LumaOfPlane(src, stride, pic.width, pic.height, pic.y[..], r, x);
  }

  lemma ChromaBytes(src: seq<byte>, p: nat, q: nat, cw: nat, x: nat)
    requires x < cw && p + 8 * x + 8 <= |src| && q + 8 * x + 8 <= |src|
    ensures var a, b := p + 8 * x, q + 8 * x;
            var mean := Mean(PixelAt(src, a), PixelAt(src, a + 4), PixelAt(src, b), PixelAt(src, b + 4));
            && -0.6 < CbRow(src, p, q, cw)[x] as real - (128.0 + 224.0 / 255.0 * BlueDifference(mean)) < 0.6
            && -0.6 < CrRow(src, p, q, cw)[x] as real - (128.0 + 224.0 / 255.0 * RedDifference(mean)) < 0.6
  {
    hide Cb, Cr;
    BlockSums(src, p, q, x);
    ChromaIsBt709(BlockSum(src, p, q, x, 2), BlockSum(src, p, q, x, 1), BlockSum(src, p, q, x, 0));
  }

  lemma BlockInside(len: nat, stride: nat, w: nat, h: nat, r: nat, x: nat)
    requires Holds(len, stride, 4 * w, h) && w % 2 == 0 && h % 2 == 0 && r < h / 2 && x < w / 2
    ensures 2 * r * stride + 8 * x + 8 <= len && (2 * r + 1) * stride + 8 * x + 8 <= len
  {
    hide Holds;
    PixelInside(len, stride, w, h, 2 * r, 2 * x + 1);
    PixelInside(len, stride, w, h, 2 * r + 1, 2 * x + 1);
  }

  /** Every chroma byte of converted planes is less than 0.6 steps from its four pixels' average colour difference. */
  lemma ChromaOfPlanes(src: seq<byte>, stride: nat, w: nat, h: nat, u: seq<byte>, v: seq<byte>, r: nat, x: nat)
    requires u == Rows(CbRows(src, stride, w / 2), 0, h / 2) && v == Rows(CrRows(src, stride, w / 2), 0, h / 2)
    requires Holds(|src|, stride, 4 * w, h) && w % 2 == 0 && h % 2 == 0 && r < h / 2 && x < w / 2
    ensures 2 * r * stride + 8 * x + 8 <= |src| && (2 * r + 1) * stride + 8 * x + 8 <= |src|
    ensures r * (w / 2) + x < |u| && r * (w / 2) + x < |v|
    ensures var i, a, b := r * (w / 2) + x, 2 * r * stride + 8 * x, (2 * r + 1) * stride + 8 * x;
            var mean := Mean(PixelAt(src, a), PixelAt(src, a + 4), PixelAt(src, b), PixelAt(src, b + 4));
            && -0.6 < u[i] as real - (128.0 + 224.0 / 255.0 * BlueDifference(mean)) < 0.6
            && -0.6 < v[i] as real - (128.0 + 224.0 / 255.0 * RedDifference(mean)) < 0.6
  {
    hide Holds, CbRow, CrRow, Mean, BlueDifference, RedDifference, Wide, Rows, LumaRows;
    var cw := w / 2;
    BlockInside(|src|, stride, w, h, r, x);
    AllWide(src, stride, cw);
    RowsLength(CbRows(src, stride, cw), cw, 0, h / 2);
    RowsLength(CrRows(src, stride, cw), cw, 0, h / 2);
    PlaceInside(h / 2, cw, r);
    RowsAt(CbRows(src, stride, cw), cw, 0, h / 2, r, x);
    RowsAt(CrRows(src, stride, cw), cw, 0, h / 2, r, x);
    assert (r - 0) * cw == r * cw;
    ChromaBytes(src, 2 * r * stride, (2 * r + 1) * stride, cw, x);
  }

  /** The same in a picture. */
  lemma ChromaOfPicture(src: seq<byte>, stride: nat, pic: I420, r: nat, x: nat)
    requires pic.Valid() && Converted(src, stride, pic) && Holds(|src|, stride, 4 * pic.width, pic.height)
    requires r < pic.height / 2 && x < pic.width / 2
    ensures 2 * r * stride + 8 * x + 8 <= |src| && (2 * r + 1) * stride + 8 * x + 8 <= |src|
    ensures r * (pic.width / 2) + x < pic.u.Length == pic.v.Length
    ensures var i, a, b := r * (pic.width / 2) + x, 2 * r * stride + 8 * x, (2 * r + 1) * stride + 8 * x;
            var mean := Mean(PixelAt(src, a), PixelAt(src, a + 4), PixelAt(src, b), PixelAt(src, b + 4));
            && -0.6 < pic.u[i] as real - (128.0 + 224.0 / 255.0 * BlueDifference(mean)) < 0.6
            && -0.6 < pic.v[i] as real - (128.0 + 224.0 / 255.0 * RedDifference(mean)) < 0.6
  {
    hide Holds, Rows, LumaRows, CbRows, CrRows, Mean, BlueDifference, RedDifference;
    ChromaOfPlanes(src, stride, pic.width, pic.height, pic.u[..], pic.v[..], r, x);
  }
}
