/** NV12 in and out: copies, splitting and interleaving of chroma (native/crates/codec-openh264/src/convert.rs). */
module Chroma {
  import opened Common
  import opened Planes
  import opened Convert

  // ---- What each row becomes ---------------------------------------------

  function PlainRow(src: seq<byte>, at: nat, w: nat): (row: seq<byte>)
    ensures |row| == w
  {
    seq<byte>(w, x requires 0 <= x < w => At(src, at + x))
  }

  /** Every second byte. */
  function StepRow(src: seq<byte>, at: nat, cw: nat): (row: seq<byte>)
    ensures |row| == cw
  {
    seq(cw, x requires 0 <= x < cw => At(src, at + 2 * x))
  }

  /** Bytes from `u` and `v` in turn. */
  function PairRow(u: seq<byte>, p: nat, v: seq<byte>, q: nat, cw: nat): (row: seq<byte>)
    ensures |row| == 2 * cw
  {
    seq(2 * cw, x requires 0 <= x < 2 * cw => if x % 2 == 0 then At(u, p + x / 2) else At(v, q + x / 2))
  }

  function PlainRows(src: seq<byte>, stride: nat, w: nat): nat -> seq<byte> {
    (r: nat) => PlainRow(src, r * stride, w)
  }

  function EvenRows(src: seq<byte>, stride: nat, cw: nat): nat -> seq<byte> {
    (r: nat) => StepRow(src, r * stride, cw)
  }

  function OddRows(src: seq<byte>, stride: nat, cw: nat): nat -> seq<byte> {
    (r: nat) => StepRow(src, r * stride + 1, cw)
  }

  function PairRows(u: seq<byte>, us: nat, v: seq<byte>, vs: nat, cw: nat): nat -> seq<byte> {
    (r: nat) => PairRow(u, r * us, v, r * vs, cw)
  }

  lemma ChromaWide(src: seq<byte>, stride: nat, w: nat)
    ensures Wide(PlainRows(src, stride, w), w)
    ensures Wide(EvenRows(src, stride, w), w) && Wide(OddRows(src, stride, w), w)
  {
    hide PlainRow, StepRow;
  }

  lemma PairsWide(u: seq<byte>, us: nat, v: seq<byte>, vs: nat, cw: nat)
    ensures Wide(PairRows(u, us, v, vs, cw), 2 * cw)
  {
    hide PairRow;
  }

  lemma PairsRow(u: seq<byte>, us: nat, v: seq<byte>, vs: nat, cw: nat, r: nat)
    ensures PairRows(u, us, v, vs, cw)(r) == PairRow(u, r * us, v, r * vs, cw)
  {
  }

  // ---- The loops ---------------------------------------------------------

  method CopyRow(src: seq<byte>, at: nat, w: nat, y: array<byte>, o: nat)
    requires at + w <= |src| && o + w <= y.Length
    modifies y
    ensures y[..] == Put(old(y[..]), o, PlainRow(src, at, w))
  {
    hide Put;
    PutEmpty(y[..], o, PlainRow(src, at, 0));
    for x := 0 to w
      invariant y[..] == Put(old(y[..]), o, PlainRow(src, at, x))
    {
      y[o + x] := src[at + x];
      PutOne(old(y[..]), o, PlainRow(src, at, x), src[at + x]);
      PlainMore(src, at, x);
    }
  }

  lemma PlainMore(src: seq<byte>, at: nat, x: nat)
    requires at + x < |src|
    ensures PlainRow(src, at, x + 1) == PlainRow(src, at, x) + [src[at + x]]
  {
    var a, b := PlainRow(src, at, x + 1), PlainRow(src, at, x) + [src[at + x]];
    forall k | 0 <= k < x + 1
      ensures a[k] == b[k]
    {
    }
  }

  method SplitRow(uv: seq<byte>, at: nat, cw: nat, u: array<byte>, v: array<byte>, o: nat)
    requires at + 2 * cw <= |uv| && u != v && o + cw <= u.Length && o + cw <= v.Length
    modifies u, v
    ensures u[..] == Put(old(u[..]), o, StepRow(uv, at, cw))
    ensures v[..] == Put(old(v[..]), o, StepRow(uv, at + 1, cw))
  {
    hide Put;
    PutEmpty(u[..], o, StepRow(uv, at, 0));
    PutEmpty(v[..], o, StepRow(uv, at + 1, 0));
    for x := 0 to cw
      invariant u[..] == Put(old(u[..]), o, StepRow(uv, at, x))
      invariant v[..] == Put(old(v[..]), o, StepRow(uv, at + 1, x))
    {
      var a, b := uv[at + 2 * x], uv[at + 2 * x + 1];
      ghost var was := (u[..], v[..]);
      u[o + x] := a;
      v[o + x] := b;
      assert u[..] == was.0[o + x := a];
      assert v[..] == was.1[o + x := b];
      PutOne(old(u[..]), o, StepRow(uv, at, x), a);
      PutOne(old(v[..]), o, StepRow(uv, at + 1, x), b);
      assert StepRow(uv, at, x + 1) == StepRow(uv, at, x) + [a];
      assert StepRow(uv, at + 1, x + 1) == StepRow(uv, at + 1, x) + [b];
    }
  }

  /** `split_uv` */
  method SplitUv(uv: seq<byte>, stride: nat, cw: nat, ch: nat, u: array<byte>, v: array<byte>)
    requires Holds(|uv|, stride, 2 * cw, ch)
    requires u != v && u.Length == ch * cw && v.Length == ch * cw
    modifies u, v
    ensures u[..] == Rows(EvenRows(uv, stride, cw), 0, ch)
    ensures v[..] == Rows(OddRows(uv, stride, cw), 0, ch)
  {
    hide Put, StepRow, Rows, Wide, Holds;
    ghost var us, vs := u[..], v[..];
    ghost var er, od := EvenRows(uv, stride, cw), OddRows(uv, stride, cw);
    ChromaWide(uv, stride, cw);
    NoRows(er, us, 0, cw);
    NoRows(od, vs, 0, cw);
    for k := 0 to ch
      invariant u[..] == Put(us, 0 * cw, Rows(er, 0, k))
      invariant v[..] == Put(vs, 0 * cw, Rows(od, 0, k))
    {
      RowInside(|uv|, stride, 2 * cw, ch, k);
      PlaceInside(ch, cw, k);
      SplitRow(uv, k * stride, cw, u, v, k * cw);
      RowPut(us, er, cw, 0, k);
      RowPut(vs, od, cw, 0, k);
    }
    Whole(er, us, cw, ch);
    Whole(od, vs, cw, ch);
  }

  /** `nv12_to_i420` */
  method Nv12ToI420(y: seq<byte>, yStride: nat, uv: seq<byte>, uvStride: nat, pic: I420)
    requires pic.Valid()
    requires Holds(|y|, yStride, pic.width, pic.height)
    requires Holds(|uv|, uvStride, 2 * (pic.width / 2), pic.height / 2)
    modifies pic.y, pic.u, pic.v
    ensures var w, h := pic.width, pic.height;
            && pic.y[..] == Rows(PlainRows(y, yStride, w), 0, h)
            && pic.u[..] == Rows(EvenRows(uv, uvStride, w / 2), 0, h / 2)
            && pic.v[..] == Rows(OddRows(uv, uvStride, w / 2), 0, h / 2)
  {
    hide Put, PlainRow, Rows, Wide, Holds, EvenRows, OddRows;
    var w, h := pic.width, pic.height;
    ghost var ys := pic.y[..];
    ghost var rows := PlainRows(y, yStride, w);
    ChromaWide(y, yStride, w);
    NoRows(rows, ys, 0, w);
    for r := 0 to h
      invariant pic.y[..] == Put(ys, 0 * w, Rows(rows, 0, r))
    {
      RowInside(|y|, yStride, w, h, r);
      PlaceInside(h, w, r);
      CopyRow(y, r * yStride, w, pic.y, r * w);
      RowPut(ys, rows, w, 0, r);
    }
    Whole(rows, ys, w, h);
    SplitUv(uv, uvStride, w / 2, h / 2, pic.u, pic.v);
  }

  method PairInto(u: seq<byte>, p: nat, v: seq<byte>, q: nat, cw: nat, dst: array<byte>, o: nat)
    requires p + cw <= |u| && q + cw <= |v| && o + 2 * cw <= dst.Length
    modifies dst
    ensures dst[..] == Put(old(dst[..]), o, PairRow(u, p, v, q, cw))
  {
    hide Put;
    PutEmpty(dst[..], o, PairRow(u, p, v, q, 0));
    for x := 0 to cw
      invariant dst[..] == Put(old(dst[..]), o, PairRow(u, p, v, q, x))
    {
      var row, a, b := PairRow(u, p, v, q, x), u[p + x], v[q + x];
      ghost var was := dst[..];
      dst[o + 2 * x] := a;
      dst[o + 2 * x + 1] := b;
      assert dst[..] == was[o + 2 * x := a][o + 2 * x + 1 := b];
      PutOne(old(dst[..]), o, row, a);
      PutOne(old(dst[..]), o, row + [a], b);
      PairsMore(u, p, v, q, x);
    }
  }

  lemma PairsMore(u: seq<byte>, p: nat, v: seq<byte>, q: nat, x: nat)
    requires p + x < |u| && q + x < |v|
    ensures PairRow(u, p, v, q, x + 1) == PairRow(u, p, v, q, x) + [u[p + x]] + [v[q + x]]
  {
  }

  /** `interleave_uv` */
  method InterleaveUv(u: seq<byte>, us: nat, v: seq<byte>, vs: nat, cw: nat, ch: nat) returns (dst: array<byte>)
    requires Holds(|u|, us, cw, ch) && Holds(|v|, vs, cw, ch)
    ensures fresh(dst) && dst[..] == Rows(PairRows(u, us, v, vs, cw), 0, ch)
  {
    hide Put, PairRows, Rows, Wide, Holds;
    dst := new byte[ch * (2 * cw)](_ => 128);
    ghost var ds := dst[..];
    ghost var rows := PairRows(u, us, v, vs, cw);
    PairsWide(u, us, v, vs, cw);
    hide PairRow;
    NoRows(rows, ds, 0, 2 * cw);
    for r := 0 to ch
      invariant dst[..] == Put(ds, 0 * (2 * cw), Rows(rows, 0, r))
    {
      RowInside(|u|, us, cw, ch, r);
      RowInside(|v|, vs, cw, ch, r);
      PlaceInside(ch, 2 * cw, r);
      PairInto(u, r * us, v, r * vs, cw, dst, r * (2 * cw));
      PairsRow(u, us, v, vs, cw, r);
      RowPut(ds, rows, 2 * cw, 0, r);
    }
    Whole(rows, ds, 2 * cw, ch);
  }

  // ---- Splitting and interleaving undo each other ------------------------

  lemma {:induction false} RowsAlike(f: nat -> seq<byte>, g: nat -> seq<byte>, a: nat, b: nat)
    requires forall r: nat :: a <= r < b ==> f(r) == g(r)
    ensures Rows(f, a, b) == Rows(g, a, b)
    decreases b
  {
    if a < b {
      RowsAlike(f, g, a, b - 1);
    }
  }

  /** A packed plane has its row's bytes where `At` looks for them. */
  lemma PackedAt(row: nat -> seq<byte>, w: nat, rows: nat, r: nat, x: nat)
    requires Wide(row, w) && r < rows && x < w
    ensures At(Rows(row, 0, rows), r * w + x) == row(r)[x]
  {
    RowsAt(row, w, 0, rows, r, x);
    assert (r - 0) * w + x == r * w + x;
  }

  lemma SplitInterleaved(u: seq<byte>, us: nat, v: seq<byte>, vs: nat, cw: nat, ch: nat)
    ensures var uv := Rows(PairRows(u, us, v, vs, cw), 0, ch);
            && Rows(EvenRows(uv, 2 * cw, cw), 0, ch) == Rows(PlainRows(u, us, cw), 0, ch)
            && Rows(OddRows(uv, 2 * cw, cw), 0, ch) == Rows(PlainRows(v, vs, cw), 0, ch)
  {
    hide Rows, Wide, At;
    var pairs := PairRows(u, us, v, vs, cw);
    var uv := Rows(pairs, 0, ch);
    PairsWide(u, us, v, vs, cw);
    forall r: nat | r < ch
      ensures EvenRows(uv, 2 * cw, cw)(r) == PlainRows(u, us, cw)(r)
      ensures OddRows(uv, 2 * cw, cw)(r) == PlainRows(v, vs, cw)(r)
    {
      forall x | 0 <= x < cw
        ensures At(uv, r * (2 * cw) + 2 * x) == At(u, r * us + x)
        ensures At(uv, r * (2 * cw) + 1 + 2 * x) == At(v, r * vs + x)
      {
        PackedAt(pairs, 2 * cw, ch, r, 2 * x);
        PackedAt(pairs, 2 * cw, ch, r, 2 * x + 1);
      }
    }
    RowsAlike(EvenRows(uv, 2 * cw, cw), PlainRows(u, us, cw), 0, ch);
    RowsAlike(OddRows(uv, 2 * cw, cw), PlainRows(v, vs, cw), 0, ch);
  }

  lemma InterleavedSplit(uv: seq<byte>, stride: nat, cw: nat, ch: nat)
    ensures var u, v := Rows(EvenRows(uv, stride, cw), 0, ch), Rows(OddRows(uv, stride, cw), 0, ch);
            Rows(PairRows(u, cw, v, cw, cw), 0, ch) == Rows(PlainRows(uv, stride, 2 * cw), 0, ch)
  {
    hide Rows, Wide, At;
    var u, v := Rows(EvenRows(uv, stride, cw), 0, ch), Rows(OddRows(uv, stride, cw), 0, ch);
    ChromaWide(uv, stride, cw);
    forall r: nat | r < ch
      ensures PairRows(u, cw, v, cw, cw)(r) == PlainRows(uv, stride, 2 * cw)(r)
    {
      forall x | 0 <= x < 2 * cw
        ensures PairRow(u, r * cw, v, r * cw, cw)[x] == At(uv, r * stride + x)
      {
        PackedAt(EvenRows(uv, stride, cw), cw, ch, r, x / 2);
        PackedAt(OddRows(uv, stride, cw), cw, ch, r, x / 2);
      }
    }
    RowsAlike(PairRows(u, cw, v, cw, cw), PlainRows(uv, stride, 2 * cw), 0, ch);
  }
}
