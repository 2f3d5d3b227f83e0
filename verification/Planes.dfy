/** Byte planes as sequences of rows, and writing a stretch of a plane in place. */
module Planes {
  import opened Common

  /** `s` with `t` written over it from `o` on. */
  function Put(s: seq<byte>, o: nat, t: seq<byte>): (r: seq<byte>)
    ensures |r| == |s|
  {
    if o + |t| <= |s| then s[..o] + t + s[o + |t|..] else s
  }

  lemma PutOne(s: seq<byte>, o: nat, t: seq<byte>, b: byte)
    requires o + |t| < |s|
    ensures Put(s, o, t)[o + |t| := b] == Put(s, o, t + [b])
  {
  }

  lemma PutBehind(s: seq<byte>, o: nat, t: seq<byte>, more: seq<byte>)
    requires o + |t| + |more| <= |s|
    ensures Put(Put(s, o, t), o + |t|, more) == Put(s, o, t + more)
  {
    var a, b := Put(Put(s, o, t), o + |t|, more), Put(s, o, t + more);
    forall k | 0 <= k < |s|
      ensures a[k] == b[k]
    {
    }
  }

  /** What was written is there. */
  lemma PutReads(s: seq<byte>, o: nat, t: seq<byte>)
    requires o + |t| <= |s|
    ensures Put(s, o, t)[o..o + |t|] == t
  {
  }

  /** Everything else is as it was. */
  lemma PutKeeps(s: seq<byte>, o: nat, t: seq<byte>, i: nat, j: nat)
    requires i <= j <= |s| && (j <= o || o + |t| <= i)
    ensures Put(s, o, t)[i..j] == s[i..j]
  {
  }

  // ---- Rows --------------------------------------------------------------

  /** The byte at `i`. (The conversions themselves index only inside their buffers.) */
  function At(s: seq<byte>, i: int): byte {
    if 0 <= i < |s| then s[i] else 0
  }

  /** Row after row of the same width; `row` gives one. */
  function Rows(row: nat -> seq<byte>, a: nat, b: nat): seq<byte>
    decreases b
  {
    if b <= a then [] else Rows(row, a, b - 1) + row(b - 1)
  }

  ghost predicate Wide(row: nat -> seq<byte>, w: nat) {
    forall r :: |row(r)| == w
  }

  lemma {:induction false} RowsLength(row: nat -> seq<byte>, w: nat, a: nat, b: nat)
    requires Wide(row, w) && a <= b
    ensures |Rows(row, a, b)| == (b - a) * w
    decreases b
  {
    if a < b {
      RowsLength(row, w, a, b - 1);
      assert (b - a) * w == (b - 1 - a) * w + w;
    }
  }

  lemma {:induction false} RowsJoin(row: nat -> seq<byte>, a: nat, b: nat, c: nat)
    requires a <= b <= c
    ensures Rows(row, a, b) + Rows(row, b, c) == Rows(row, a, c)
    decreases c
  {
    if b < c {
      RowsJoin(row, a, b, c - 1);
      assert Rows(row, a, b) + (Rows(row, b, c - 1) + row(c - 1)) ==
             (Rows(row, a, b) + Rows(row, b, c - 1)) + row(c - 1);
    }
  }

  /** Byte `x` of row `r` of the plane. */
  lemma {:induction false} RowsAt(row: nat -> seq<byte>, w: nat, a: nat, b: nat, r: nat, x: nat)
    requires Wide(row, w) && a <= r < b && x < w
    ensures (r - a) * w + x < |Rows(row, a, b)|
    ensures Rows(row, a, b)[(r - a) * w + x] == row(r)[x]
    decreases b
  {
    RowsLength(row, w, a, b - 1);
    MulMono(w, r - a, b - 1 - a);
    if r < b - 1 {
      RowsAt(row, w, a, b - 1, r, x);
    }
  }

  /** One more row behind the rows already written. */
  lemma RowPut(s: seq<byte>, row: nat -> seq<byte>, w: nat, a: nat, b: nat)
    requires Wide(row, w) && a <= b && (b + 1) * w <= |s|
    ensures Put(Put(s, a * w, Rows(row, a, b)), b * w, row(b)) == Put(s, a * w, Rows(row, a, b + 1))
  {
    RowsLength(row, w, a, b);
    assert a * w + (b - a) * w == b * w && b * w + w == (b + 1) * w;
    PutBehind(s, a * w, Rows(row, a, b), row(b));
  }

  lemma PutEmpty(s: seq<byte>, o: nat, t: seq<byte>)
    requires |t| == 0
    ensures Put(s, o, t) == s
  {
  }

  lemma NoRows(row: nat -> seq<byte>, s: seq<byte>, a: nat, w: nat)
    ensures Put(s, a * w, Rows(row, a, a)) == s
  {
    PutEmpty(s, a * w, Rows(row, a, a));
  }

  lemma PlaceInside(rows: nat, w: nat, r: nat)
    requires r < rows
    ensures r * w + w == (r + 1) * w <= rows * w
  {
    MulMono(w, r + 1, rows);
  }

  lemma Whole(row: nat -> seq<byte>, s: seq<byte>, w: nat, rows: nat)
    requires Wide(row, w) && |s| == rows * w
    ensures Put(s, 0 * w, Rows(row, 0, rows)) == Rows(row, 0, rows)
  {
    RowsLength(row, w, 0, rows);
    assert 0 * w == 0;
  }

  // ---- Tiles -------------------------------------------------------------

  /** Where tile `j` starts: every tile has `m` rows, the last one what is left. */
  function Edge(m: nat, total: nat, j: nat): (e: nat)
    ensures e <= total
  {
    Min(j * m, total)
  }

  /** Tile `j` holds its rows. */
  ghost predicate Tile(s: seq<byte>, row: nat -> seq<byte>, w: nat, m: nat, total: nat, j: nat)
    requires |s| == total * w
  {
    var a, b := Edge(m, total, j), Edge(m, total, j + 1);
    MulMono(w, a, total);
    MulMono(w, b, total);
    assert j * m <= (j + 1) * m;
    MulMono(w, a, b);
    s[a * w..b * w] == Rows(row, a, b)
  }

  lemma EdgesInOrder(w: nat, m: nat, total: nat, j: nat, k: nat)
    requires j <= k
    ensures Edge(m, total, j) <= Edge(m, total, k)
    ensures Edge(m, total, j) * w <= Edge(m, total, k) * w <= total * w
  {
    MulMono(m, j, k);
    MulMono(w, Edge(m, total, j), Edge(m, total, k));
    MulMono(w, Edge(m, total, k), total);
  }

  /** Writing tile `j` completes it and leaves every other tile `k` alone. */
  lemma TileWritten(s: seq<byte>, row: nat -> seq<byte>, w: nat, m: nat, total: nat, j: nat, k: nat)
    requires Wide(row, w) && |s| == total * w
    ensures var a, b := Edge(m, total, j), Edge(m, total, j + 1);
            var t := Put(s, a * w, Rows(row, a, b));
            && Tile(t, row, w, m, total, j)
            && (Tile(s, row, w, m, total, k) ==> Tile(t, row, w, m, total, k))
  {
    hide Edge, Rows, Put;
    var a, b := Edge(m, total, j), Edge(m, total, j + 1);
    EdgesInOrder(w, m, total, j, j + 1);
    RowsLength(row, w, a, b);
    assert a * w + (b - a) * w == b * w;
    PutReads(s, a * w, Rows(row, a, b));
    if k != j {
      EdgesInOrder(w, m, total, k, k + 1);
      if k < j {
        EdgesInOrder(w, m, total, k + 1, j);
      } else {
        EdgesInOrder(w, m, total, j + 1, k);
      }
      PutKeeps(s, a * w, Rows(row, a, b), Edge(m, total, k) * w, Edge(m, total, k + 1) * w);
    }
  }

  /** The plane `s` begins with its first `n` rows. */
  predicate Leads(s: seq<byte>, row: nat -> seq<byte>, w: nat, n: nat) {
    n * w <= |s| && s[..n * w] == Rows(row, 0, n)
  }

  /** The tiles partition the plane: once all hold their rows, the plane does. */
  lemma {:induction false} TilesCover(s: seq<byte>, row: nat -> seq<byte>, w: nat, m: nat, total: nat, n: nat)
    requires Wide(row, w) && |s| == total * w
    requires forall j :: 0 <= j < n ==> Tile(s, row, w, m, total, j)
    ensures Leads(s, row, w, Edge(m, total, n))
  {
    hide Tile, Edge, Rows, Put, Wide;
    EdgesInOrder(w, m, total, n, n);
    if n > 0 {
      TilesCover(s, row, w, m, total, n - 1);
      assert Tile(s, row, w, m, total, n - 1);
      TileIs(s, row, w, m, total, n - 1);
      var a, b := Edge(m, total, n - 1), Edge(m, total, n);
      RowsJoin(row, 0, a, b);
      Cut(s, a * w, b * w);
    } else {
      NoTiles(row, w, m, total);
      assert s[..0] == [];
    }
  }

  lemma TileIs(s: seq<byte>, row: nat -> seq<byte>, w: nat, m: nat, total: nat, j: nat)
    requires |s| == total * w && Tile(s, row, w, m, total, j)
    ensures var a, b := Edge(m, total, j), Edge(m, total, j + 1);
            a <= b && a * w <= b * w <= |s| && s[a * w..b * w] == Rows(row, a, b)
  {
    hide Rows;
    EdgesInOrder(w, m, total, j, j + 1);
  }

  lemma NoTiles(row: nat -> seq<byte>, w: nat, m: nat, total: nat)
    ensures Edge(m, total, 0) == 0 && Edge(m, total, 0) * w == 0 && Rows(row, 0, 0) == []
  {
    assert 0 * m == 0 && 0 * w == 0;
  }

  lemma Cut(s: seq<byte>, i: nat, j: nat)
    requires i <= j <= |s|
    ensures s[..j] == s[..i] + s[i..j]
  {
  }
}
