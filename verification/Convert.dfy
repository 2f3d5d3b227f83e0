/** The CPU pixel conversions (native/crates/codec-openh264/src/convert.rs). */
module Convert {
  import opened Common
  import opened Pixels
  import opened Planes

  const MIN_PARALLEL_PIXELS: nat := 512 * 1024
  const MAX_BANDS: nat := 4

  // ---- What each row becomes ---------------------------------------------

  function LumaRow(src: seq<byte>, at: nat, w: nat): (row: seq<byte>)
    ensures |row| == w
  {
    seq(w, x requires 0 <= x < w =>
      Luma(At(src, at + 4 * x + 2), At(src, at + 4 * x + 1), At(src, at + 4 * x)))
  }

  /** Channel `c` summed over the 2x2 block at column pair `x` of the rows at `p` and `q`. */
  function BlockSum(src: seq<byte>, p: nat, q: nat, x: nat, c: nat): (n: nat)
    ensures n <= 1020
  {
    At(src, p + 8 * x + c) as int + At(src, p + 8 * x + 4 + c) as int +
    At(src, q + 8 * x + c) as int + At(src, q + 8 * x + 4 + c) as int
  }

  function CbRow(src: seq<byte>, p: nat, q: nat, cw: nat): (row: seq<byte>)
    ensures |row| == cw
  {
    seq(cw, x requires 0 <= x < cw =>
      Cb(BlockSum(src, p, q, x, 2), BlockSum(src, p, q, x, 1), BlockSum(src, p, q, x, 0)))
  }

  function CrRow(src: seq<byte>, p: nat, q: nat, cw: nat): (row: seq<byte>)
    ensures |row| == cw
  {
    seq(cw, x requires 0 <= x < cw =>
      Cr(BlockSum(src, p, q, x, 2), BlockSum(src, p, q, x, 1), BlockSum(src, p, q, x, 0)))
  }

  function LumaRows(src: seq<byte>, stride: nat, w: nat): nat -> seq<byte> {
    (r: nat) => LumaRow(src, r * stride, w)
  }

  function CbRows(src: seq<byte>, stride: nat, cw: nat): nat -> seq<byte> {
    (r: nat) => CbRow(src, 2 * r * stride, (2 * r + 1) * stride, cw)
  }

  function CrRows(src: seq<byte>, stride: nat, cw: nat): nat -> seq<byte> {
    (r: nat) => CrRow(src, 2 * r * stride, (2 * r + 1) * stride, cw)
  }

  /** Every byte a conversion writes is in the limited range. */
  lemma RowsInRange(src: seq<byte>, stride: nat, w: nat, r: nat, x: nat)
    requires x < w
    ensures 16 <= LumaRows(src, stride, w)(r)[x] <= 235
    ensures 16 <= CbRows(src, stride, w)(r)[x] <= 240
    ensures 16 <= CrRows(src, stride, w)(r)[x] <= 240
  {
    hide Luma, Cb, Cr, BlockSum;
    LumaRange(LumaAt(src, r * stride, x).0, LumaAt(src, r * stride, x).1, LumaAt(src, r * stride, x).2);
    var p, q := 2 * r * stride, (2 * r + 1) * stride;
    ChromaRange(BlockSum(src, p, q, x, 2), BlockSum(src, p, q, x, 1), BlockSum(src, p, q, x, 0));
  }

  function LumaAt(src: seq<byte>, at: nat, x: nat): (byte, byte, byte) {
    (At(src, at + 4 * x + 2), At(src, at + 4 * x + 1), At(src, at + 4 * x))
  }

  /** The pixel at `i` is a grey. */
  predicate GreyAt(src: seq<byte>, i: nat) {
    At(src, i) == At(src, i + 1) == At(src, i + 2)
  }

  /** A block of four greys, each of its own brightness, has neutral chroma. */
  lemma GreysAreNeutral(src: seq<byte>, stride: nat, cw: nat, r: nat, x: nat)
    requires x < cw
    requires var p, q := 2 * r * stride + 8 * x, (2 * r + 1) * stride + 8 * x;
             GreyAt(src, p) && GreyAt(src, p + 4) && GreyAt(src, q) && GreyAt(src, q + 4)
    ensures CbRows(src, stride, cw)(r)[x] == 128 && CrRows(src, stride, cw)(r)[x] == 128
  {
    hide Cb, Cr, At;
    GreyIsNeutral(BlockSum(src, 2 * r * stride, (2 * r + 1) * stride, x, 0));
  }

  // ---- Buffers -----------------------------------------------------------

  /** `rows` rows of `n` bytes, `stride` apart, are all inside a buffer of `len` bytes. */
  predicate Holds(len: nat, stride: nat, n: nat, rows: nat) {
    rows > 0 ==> (rows - 1) * stride + n <= len
  }

  lemma RowInside(len: nat, stride: nat, n: nat, rows: nat, r: nat)
    requires Holds(len, stride, n, rows) && r < rows
    ensures r * stride + n <= len
  {
    MulMono(stride, r, rows - 1);
  }

  class I420 {
    const width: nat
    const height: nat
    const y: array<byte>
    const u: array<byte>
    const v: array<byte>

    predicate Valid() {
      && width % 2 == 0 && height % 2 == 0
      && y.Length == height * width
      && u.Length == (height / 2) * (width / 2) && v.Length == (height / 2) * (width / 2)
      && y != u && u != v && y != v
    }

    constructor (width: nat, height: nat)
      requires width % 2 == 0 && height % 2 == 0
      ensures Valid() && this.width == width && this.height == height
      ensures fresh(y) && fresh(u) && fresh(v)
      ensures forall i :: 0 <= i < y.Length ==> y[i] == 16
      ensures forall i :: 0 <= i < u.Length ==> u[i] == 128 && v[i] == 128
    {
      this.width, this.height := width, height;
      y := new byte[height * width](_ => 16);
      u := new byte[(height / 2) * (width / 2)](_ => 128);
      v := new byte[(height / 2) * (width / 2)](_ => 128);
    }
  }

  // ---- BGRA --------------------------------------------------------------

  method LumaInto(src: seq<byte>, at: nat, w: nat, y: array<byte>, o: nat)
    requires at + 4 * w <= |src| && o + w <= y.Length
    modifies y
    ensures y[..] == Put(old(y[..]), o, LumaRow(src, at, w))
  {
    hide Luma, Put;
    PutEmpty(y[..], o, LumaRow(src, at, 0));
    for x := 0 to w
      invariant y[..] == Put(old(y[..]), o, LumaRow(src, at, x))
    {
      var b, g, r := src[at + 4 * x], src[at + 4 * x + 1], src[at + 4 * x + 2];
      y[o + x] := Luma(r, g, b);
      PutOne(old(y[..]), o, LumaRow(src, at, x), Luma(r, g, b));
      assert LumaRow(src, at, x + 1) == LumaRow(src, at, x) + [Luma(r, g, b)];
    }
  }

  method ChromaInto(src: seq<byte>, p: nat, q: nat, cw: nat, u: array<byte>, v: array<byte>, o: nat)
    requires p + 8 * cw <= |src| && q + 8 * cw <= |src|
    requires u != v && o + cw <= u.Length && o + cw <= v.Length
    modifies u, v
    ensures u[..] == Put(old(u[..]), o, CbRow(src, p, q, cw))
    ensures v[..] == Put(old(v[..]), o, CrRow(src, p, q, cw))
  {
    hide Cb, Cr, Put;
    PutEmpty(u[..], o, CbRow(src, p, q, 0));
    PutEmpty(v[..], o, CrRow(src, p, q, 0));
    for x := 0 to cw
      invariant u[..] == Put(old(u[..]), o, CbRow(src, p, q, x))
      invariant v[..] == Put(old(v[..]), o, CrRow(src, p, q, x))
    {
      var a, b := p + 8 * x, q + 8 * x;
      var bs := src[a] as int + src[a + 4] as int + src[b] as int + src[b + 4] as int;
      var gs := src[a + 1] as int + src[a + 5] as int + src[b + 1] as int + src[b + 5] as int;
      var rs := src[a + 2] as int + src[a + 6] as int + src[b + 2] as int + src[b + 6] as int;
      ghost var was := (u[..], v[..]);
      u[o + x] := Cb(rs, gs, bs);
      v[o + x] := Cr(rs, gs, bs);
      assert u[..] == was.0[o + x := Cb(rs, gs, bs)];
      assert v[..] == was.1[o + x := Cr(rs, gs, bs)];
      BlockSums(src, p, q, x);
      PutOne(old(u[..]), o, CbRow(src, p, q, x), Cb(rs, gs, bs));
      PutOne(old(v[..]), o, CrRow(src, p, q, x), Cr(rs, gs, bs));
      assert CbRow(src, p, q, x + 1) == CbRow(src, p, q, x) + [Cb(rs, gs, bs)];
      assert CrRow(src, p, q, x + 1) == CrRow(src, p, q, x) + [Cr(rs, gs, bs)];
    }
  }

  /** One pair of rows: two of luma, one of each chroma plane. */
  method PairInto(src: seq<byte>, stride: nat, pic: I420, k: nat)
    requires pic.Valid() && k < pic.height / 2
    requires Holds(|src|, stride, 4 * pic.width, 2 * k + 2)
    modifies pic.y, pic.u, pic.v
    ensures var w, cw := pic.width, pic.width / 2;
            && pic.y[..] == Put(Put(old(pic.y[..]), 2 * k * w, LumaRows(src, stride, w)(2 * k)),
                                (2 * k + 1) * w, LumaRows(src, stride, w)(2 * k + 1))
            && pic.u[..] == Put(old(pic.u[..]), k * cw, CbRows(src, stride, cw)(k))
            && pic.v[..] == Put(old(pic.v[..]), k * cw, CrRows(src, stride, cw)(k))
  {
    hide Put, LumaRow, CbRow, CrRow, Holds;
    var w := pic.width;
    var cw := w / 2;
    RowInside(|src|, stride, 4 * w, 2 * k + 2, 2 * k);
    RowInside(|src|, stride, 4 * w, 2 * k + 2, 2 * k + 1);
    PlaceInside(pic.height, w, 2 * k);
    PlaceInside(pic.height, w, 2 * k + 1);
    PlaceInside(pic.height / 2, cw, k);
    LumaInto(src, 2 * k * stride, w, pic.y, 2 * k * w);
    LumaInto(src, (2 * k + 1) * stride, w, pic.y, (2 * k + 1) * w);
    ChromaInto(src, 2 * k * stride, (2 * k + 1) * stride, cw, pic.u, pic.v, k * cw);
  }

  /** `bgra_band`: `pairs` row pairs from row pair `first` on. */
  method BgraBand(src: seq<byte>, stride: nat, pic: I420, first: nat, pairs: nat)
    requires pic.Valid() && pic.width > 0 && first + pairs <= pic.height / 2
    requires Holds(|src|, stride, 4 * pic.width, 2 * (first + pairs))
    modifies pic.y, pic.u, pic.v
    ensures var w, cw := pic.width, pic.width / 2;
            && pic.y[..] == Put(old(pic.y[..]), 2 * first * w,
                                Rows(LumaRows(src, stride, w), 2 * first, 2 * (first + pairs)))
            && pic.u[..] == Put(old(pic.u[..]), first * cw, Rows(CbRows(src, stride, cw), first, first + pairs))
            && pic.v[..] == Put(old(pic.v[..]), first * cw, Rows(CrRows(src, stride, cw), first, first + pairs))
  {
    hide Put, LumaRows, CbRows, CrRows, Holds, Wide, Rows, I420.Valid;
    var w := pic.width;
    var cw := w / 2;
    ghost var ys, us, vs := pic.y[..], pic.u[..], pic.v[..];
    ghost var lr, ur, vr := LumaRows(src, stride, w), CbRows(src, stride, cw), CrRows(src, stride, cw);
    NoRows(lr, ys, 2 * first, w);
    NoRows(ur, us, first, cw);
    NoRows(vr, vs, first, cw);
    AllWide(src, stride, w);
    AllWide(src, stride, cw);
    for k := first to first + pairs
      invariant pic.y[..] == Put(ys, 2 * first * w, Rows(lr, 2 * first, 2 * k))
      invariant pic.u[..] == Put(us, first * cw, Rows(ur, first, k))
      invariant pic.v[..] == Put(vs, first * cw, Rows(vr, first, k))
    {
      HoldsFewer(|src|, stride, 4 * w, 2 * (first + pairs), 2 * k + 2);
      PairInto(src, stride, pic, k);
      Places(pic, k);
      RowPut(ys, lr, w, 2 * first, 2 * k);
      RowPut(ys, lr, w, 2 * first, 2 * k + 1);
      RowPut(us, ur, cw, first, k);
      RowPut(vs, vr, cw, first, k);
    }
  }

  lemma AllWide(src: seq<byte>, stride: nat, w: nat)
    ensures Wide(LumaRows(src, stride, w), w)
    ensures Wide(CbRows(src, stride, w), w) && Wide(CrRows(src, stride, w), w)
  {
    hide LumaRow, CbRow, CrRow;
  }

  lemma HoldsFewer(len: nat, stride: nat, n: nat, rows: nat, fewer: nat)
    requires Holds(len, stride, n, rows) && fewer <= rows
    ensures Holds(len, stride, n, fewer)
  {
    if fewer > 0 {
      MulMono(stride, fewer - 1, rows - 1);
    }
  }

  lemma Places(pic: I420, k: nat)
    requires pic.Valid() && k < pic.height / 2
    ensures (2 * k + 1) * pic.width <= (2 * k + 2) * pic.width <= pic.y.Length
    ensures (k + 1) * (pic.width / 2) <= pic.u.Length == pic.v.Length
  {
    PlaceInside(pic.height, pic.width, 2 * k);
    PlaceInside(pic.height, pic.width, 2 * k + 1);
    PlaceInside(pic.height / 2, pic.width / 2, k);
  }

  lemma BlockSums(src: seq<byte>, p: nat, q: nat, x: nat)
    requires p + 8 * x + 8 <= |src| && q + 8 * x + 8 <= |src|
    ensures var a, b := p + 8 * x, q + 8 * x;
            && BlockSum(src, p, q, x, 0) == src[a] as int + src[a + 4] as int + src[b] as int + src[b + 4] as int
            && BlockSum(src, p, q, x, 1) ==
                 src[a + 1] as int + src[a + 5] as int + src[b + 1] as int + src[b + 5] as int
            && BlockSum(src, p, q, x, 2) ==
                 src[a + 2] as int + src[a + 6] as int + src[b + 2] as int + src[b + 6] as int
  {
  }

  // ---- Bands -------------------------------------------------------------

  function DivCeil(n: nat, d: nat): nat
    requires d > 0
  {
    (n + d - 1) / d
  }

  /** Band `j` of the three planes is converted. */
  ghost predicate BandDone(src: seq<byte>, stride: nat, pic: I420, pairRows: nat, j: nat)
    requires pic.Valid()
    reads pic.y, pic.u, pic.v
  {
    var w, cw := pic.width, pic.width / 2;
    && Tile(pic.y[..], LumaRows(src, stride, w), w, 2 * pairRows, pic.height, j)
    && Tile(pic.u[..], CbRows(src, stride, cw), cw, pairRows, pic.height / 2, j)
    && Tile(pic.v[..], CrRows(src, stride, cw), cw, pairRows, pic.height / 2, j)
  }

  /** The three planes hold the conversion of the whole picture. */
  ghost predicate Converted(src: seq<byte>, stride: nat, pic: I420)
    reads pic.y, pic.u, pic.v
  {
    var w, h := pic.width, pic.height;
    && pic.y[..] == Rows(LumaRows(src, stride, w), 0, h)
    && pic.u[..] == Rows(CbRows(src, stride, w / 2), 0, h / 2)
    && pic.v[..] == Rows(CrRows(src, stride, w / 2), 0, h / 2)
  }

  /** Where a pixel's luma lands in a converted picture, and its range. */
  lemma ConvertedLuma(src: seq<byte>, stride: nat, pic: I420, r: nat, x: nat)
    requires pic.Valid() && Converted(src, stride, pic) && r < pic.height && x < pic.width
    ensures r * pic.width + x < pic.y.Length
    ensures pic.y[r * pic.width + x] == LumaRow(src, r * stride, pic.width)[x]
    ensures 16 <= pic.y[r * pic.width + x] <= 235
  {
    hide LumaRow, Wide, Rows, I420.Valid, CbRows, CrRows;
    AllWide(src, stride, pic.width);
    PlaceInside(pic.height, pic.width, r);
    RowsAt(LumaRows(src, stride, pic.width), pic.width, 0, pic.height, r, x);
    assert (r - 0) * pic.width == r * pic.width;
    RowsInRange(src, stride, pic.width, r, x);
  }

  /** The same for the chroma of the block at row pair `r` and column pair `x`. */
  lemma ConvertedChroma(src: seq<byte>, stride: nat, pic: I420, r: nat, x: nat)
    requires pic.Valid() && Converted(src, stride, pic) && r < pic.height / 2 && x < pic.width / 2
    ensures r * (pic.width / 2) + x < pic.u.Length == pic.v.Length
    ensures var i, p, q := r * (pic.width / 2) + x, 2 * r * stride, (2 * r + 1) * stride;
            && pic.u[i] == CbRow(src, p, q, pic.width / 2)[x] && 16 <= pic.u[i] <= 240
            && pic.v[i] == CrRow(src, p, q, pic.width / 2)[x] && 16 <= pic.v[i] <= 240
  {
    hide CbRow, CrRow, Wide, Rows, LumaRows;
    var cw := pic.width / 2;
    AllWide(src, stride, cw);
    PlaceInside(pic.height / 2, cw, r);
    RowsAt(CbRows(src, stride, cw), cw, 0, pic.height / 2, r, x);
    RowsAt(CrRows(src, stride, cw), cw, 0, pic.height / 2, r, x);
    assert (r - 0) * cw == r * cw;
    RowsInRange(src, stride, cw, r, x);
  }

  /** One pass over the whole picture. */
  method SinglePass(src: seq<byte>, stride: nat, pic: I420)
    requires pic.Valid() && pic.width > 0
    requires Holds(|src|, stride, 4 * pic.width, pic.height)
    modifies pic.y, pic.u, pic.v
    ensures Converted(src, stride, pic)
  {
    hide Holds, LumaRows, CbRows, CrRows, Wide;
    var w, h := pic.width, pic.height;
    BgraBand(src, stride, pic, 0, h / 2);
    WholePlane(src, stride, w, h, old(pic.y[..]));
    WholeChroma(src, stride, w / 2, h / 2, old(pic.u[..]), old(pic.v[..]));
  }

  lemma WholePlane(src: seq<byte>, stride: nat, w: nat, h: nat, s: seq<byte>)
    requires |s| == h * w
    ensures Put(s, 2 * 0 * w, Rows(LumaRows(src, stride, w), 0, h)) == Rows(LumaRows(src, stride, w), 0, h)
  {
    hide LumaRows, CbRows, CrRows, Wide;
    AllWide(src, stride, w);
    RowsLength(LumaRows(src, stride, w), w, 0, h);
    assert 2 * 0 * w == 0;
  }

  lemma WholeChroma(src: seq<byte>, stride: nat, cw: nat, ch: nat, s: seq<byte>, t: seq<byte>)
    requires |s| == |t| == ch * cw
    ensures Put(s, 0 * cw, Rows(CbRows(src, stride, cw), 0, ch)) == Rows(CbRows(src, stride, cw), 0, ch)
    ensures Put(t, 0 * cw, Rows(CrRows(src, stride, cw), 0, ch)) == Rows(CrRows(src, stride, cw), 0, ch)
  {
    hide LumaRows, CbRows, CrRows, Wide;
    AllWide(src, stride, cw);
    RowsLength(CbRows(src, stride, cw), cw, 0, ch);
    RowsLength(CrRows(src, stride, cw), cw, 0, ch);
    assert 0 * cw == 0;
  }

  /** Band `j` has a chunk of the planes to itself. */
  predicate Begins(h: nat, pairRows: nat, j: nat) {
    j * (2 * pairRows) < h
  }

  /** Every started band is waiting, refused, or done. */
  ghost predicate Covered(started: nat, pending: set<nat>, failed: seq<nat>, done: set<nat>) {
    && (forall j: nat :: j < started ==> j in pending || j in failed || j in done)
    && (forall j :: j in pending ==> j < started)
    && (forall k :: 0 <= k < |failed| ==> failed[k] < started)
  }

  /** One chunk after the other, until there are no bands or no chunks left. */
  method StartBands(h: nat, pairRows: nat, bands: nat, refused: nat -> bool)
    returns (pending: set<nat>, failed: seq<nat>, started: nat)
    ensures Covered(started, pending, failed, {})
    ensures forall j: nat :: j < started ==> Begins(h, pairRows, j)
    ensures started == bands || !Begins(h, pairRows, started)
  {
    hide Begins;
    pending, failed, started := {}, [], 0;
    while started < bands && Begins(h, pairRows, started)
      invariant started <= bands
      invariant Covered(started, pending, failed, {})
      invariant forall j: nat :: j < started ==> Begins(h, pairRows, j)
      decreases bands - started
    {
      if started > 0 && refused(started) {
        failed := failed + [started];
      } else {
        pending := pending + {started};
      }
      started := started + 1;
    }
  }

  /**
   * `bgra_to_i420` for any number of bands. `refused(i)` says that the thread for band `i`
   * did not start; the bands whose threads did start finish in any order. The planes are those
   * of one single pass.
   */
  method BgraToI420(src: seq<byte>, stride: nat, pic: I420, bands: nat, refused: nat -> bool)
    requires pic.Valid() && pic.width > 0 && pic.height > 0 && bands > 0
    requires Holds(|src|, stride, 4 * pic.width, pic.height)
    modifies pic.y, pic.u, pic.v
    ensures Converted(src, stride, pic)
  {
    hide I420.Valid, Holds, BandDone, Converted, Tile, Begins;
    var h := pic.height;
    assert h % 2 == 0 by {
      EvenHeight(pic);
    }
    var pairRows := DivCeil(h / 2, bands);
    BandsSuffice(h, bands);
    var pending, failed, started := StartBands(h, pairRows, bands, refused);
    ghost var done: set<nat> := {};
    while pending != {}
      invariant Covered(started, pending, failed, done)
      invariant forall j :: j in done ==> BandDone(src, stride, pic, pairRows, j)
      decreases |pending|
    {
      var j: nat :| j in pending;
      ConvertBand(src, stride, pic, pairRows, j, done);
      pending, done := pending - {j}, done + {j};
    }
    for k := 0 to |failed|
      invariant Covered(started, {}, failed[k..], done)
      invariant forall j :: j in done ==> BandDone(src, stride, pic, pairRows, j)
    {
      assert failed[k] in failed[k..];
      ConvertBand(src, stride, pic, pairRows, failed[k], done);
      done := done + {failed[k]};
      assert failed[k..] == [failed[k]] + failed[k + 1..];
    }
    AllBands(src, stride, pic, pairRows, bands, started);
  }

  lemma EvenHeight(pic: I420)
    requires pic.Valid()
    ensures pic.height % 2 == 0
  {
  }

  /** Enough row pairs in each band for all of them together, and a chunk is never empty. */
  lemma BandsSuffice(h: nat, bands: nat)
    requires bands > 0 && h > 0 && h % 2 == 0
    ensures var pairRows := DivCeil(h / 2, bands);
            pairRows > 0 && bands * (2 * pairRows) >= h
  {
    var n := h / 2;
    var q := (n + bands - 1) / bands;
    assert n + bands - 1 == bands * q + (n + bands - 1) % bands;
    assert bands * q >= n;
    assert bands * (2 * q) == 2 * (bands * q);
  }

  /** Band `j`, wherever its thread runs, and whatever bands `done` came before it. */
  method ConvertBand(src: seq<byte>, stride: nat, pic: I420, pairRows: nat, j: nat, ghost done: set<nat>)
    requires pic.Valid() && pic.width > 0 && Begins(pic.height, pairRows, j)
    requires Holds(|src|, stride, 4 * pic.width, pic.height)
    requires forall k :: k in done ==> BandDone(src, stride, pic, pairRows, k)
    modifies pic.y, pic.u, pic.v
    ensures BandDone(src, stride, pic, pairRows, j)
    ensures forall k :: k in done ==> BandDone(src, stride, pic, pairRows, k)
  {
    hide Holds, Put, Tile, LumaRows, CbRows, CrRows, Wide;
    var h := pic.height;
    var first := j * pairRows;
    var pairs := Min((j + 1) * pairRows, h / 2) - first;
    BandEdges(h, pairRows, j);
    HoldsFewer(|src|, stride, 4 * pic.width, h, 2 * (first + pairs));
    BgraBand(src, stride, pic, first, pairs);
    AllWide(src, stride, pic.width);
    AllWide(src, stride, pic.width / 2);
    OneBand(src, stride, pic, pairRows, j, j, old(pic.y[..]), old(pic.u[..]), old(pic.v[..]));
    forall k | k in done
      ensures BandDone(src, stride, pic, pairRows, k)
    {
      assert old(BandDone(src, stride, pic, pairRows, k));
      OneBand(src, stride, pic, pairRows, j, k, old(pic.y[..]), old(pic.u[..]), old(pic.v[..]));
    }
  }

  lemma BandEdges(h: nat, pairRows: nat, j: nat)
    requires h % 2 == 0 && j * (2 * pairRows) < h
    ensures Edge(2 * pairRows, h, j) == 2 * (j * pairRows)
    ensures Edge(pairRows, h / 2, j) == j * pairRows
    ensures Edge(2 * pairRows, h, j + 1) == 2 * Min((j + 1) * pairRows, h / 2)
    ensures Edge(pairRows, h / 2, j + 1) == Min((j + 1) * pairRows, h / 2)
    ensures j * pairRows <= Min((j + 1) * pairRows, h / 2)
  {
    assert j * (2 * pairRows) == 2 * (j * pairRows);
    assert (j + 1) * (2 * pairRows) == 2 * ((j + 1) * pairRows);
    assert (j + 1) * pairRows == j * pairRows + pairRows;
  }

  lemma OneBand(src: seq<byte>, stride: nat, pic: I420, pairRows: nat, j: nat, k: nat,
                ys: seq<byte>, us: seq<byte>, vs: seq<byte>)
    requires pic.Valid() && j * (2 * pairRows) < pic.height
    requires |ys| == pic.height * pic.width && |us| == |vs| == (pic.height / 2) * (pic.width / 2)
    requires var w, cw, a, b := pic.width, pic.width / 2, j * pairRows, Min((j + 1) * pairRows, pic.height / 2);
             && pic.y[..] == Put(ys, 2 * a * w, Rows(LumaRows(src, stride, w), 2 * a, 2 * b))
             && pic.u[..] == Put(us, a * cw, Rows(CbRows(src, stride, cw), a, b))
             && pic.v[..] == Put(vs, a * cw, Rows(CrRows(src, stride, cw), a, b))
    ensures BandDone(src, stride, pic, pairRows, j)
    ensures var w, cw, h := pic.width, pic.width / 2, pic.height;
            && Tile(ys, LumaRows(src, stride, w), w, 2 * pairRows, h, k)
            && Tile(us, CbRows(src, stride, cw), cw, pairRows, h / 2, k)
            && Tile(vs, CrRows(src, stride, cw), cw, pairRows, h / 2, k)
            ==> BandDone(src, stride, pic, pairRows, k)
  {
    hide Put, Tile, LumaRows, CbRows, CrRows, Wide, Rows, Edge;
    var w, cw, h := pic.width, pic.width / 2, pic.height;
    BandEdges(h, pairRows, j);
    AllWide(src, stride, w);
    AllWide(src, stride, cw);
    TileWritten(ys, LumaRows(src, stride, w), w, 2 * pairRows, h, j, k);
    TileWritten(us, CbRows(src, stride, cw), cw, pairRows, h / 2, j, k);
    TileWritten(vs, CrRows(src, stride, cw), cw, pairRows, h / 2, j, k);
  }

  lemma AllBands(src: seq<byte>, stride: nat, pic: I420, pairRows: nat, bands: nat, n: nat)
    requires pic.Valid() && bands * (2 * pairRows) >= pic.height
    requires n == bands || !Begins(pic.height, pairRows, n)
    requires forall j :: 0 <= j < n ==> BandDone(src, stride, pic, pairRows, j)
    ensures Converted(src, stride, pic)
  {
    hide Tile, LumaRows, CbRows, CrRows, Wide, Rows;
    var w, cw, h := pic.width, pic.width / 2, pic.height;
    AllWide(src, stride, w);
    AllWide(src, stride, cw);
    forall j | 0 <= j < n
      ensures Tile(pic.y[..], LumaRows(src, stride, w), w, 2 * pairRows, h, j)
      ensures Tile(pic.u[..], CbRows(src, stride, cw), cw, pairRows, h / 2, j)
      ensures Tile(pic.v[..], CrRows(src, stride, cw), cw, pairRows, h / 2, j)
    {
      assert BandDone(src, stride, pic, pairRows, j);
    }
    assert n * (2 * pairRows) == 2 * (n * pairRows);
    TilesCover(pic.y[..], LumaRows(src, stride, w), w, 2 * pairRows, h, n);
    TilesCover(pic.u[..], CbRows(src, stride, cw), cw, pairRows, h / 2, n);
    TilesCover(pic.v[..], CrRows(src, stride, cw), cw, pairRows, h / 2, n);
  }

  /** How many bands `bgra_to_i420` takes on a machine that reports `cores`, if it does. */
  function Bands(w: nat, h: nat, cores: Option<nat>): (n: nat)
    ensures n <= MAX_BANDS
  {
    if w * h >= MIN_PARALLEL_PIXELS then
      Min(match cores case None => 1 case Some(n) => n, MAX_BANDS)
    else 1
  }
}
