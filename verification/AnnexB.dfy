/** Annex-B framing and emulation prevention (native/crates/codec-goldens/src/nal.rs). */
module AnnexB {
  import opened Common

  // ---- Start codes -------------------------------------------------------

  /** A NAL unit starts at `p`: the three bytes before it are `00 00 01`. */
  predicate IsStart(s: seq<byte>, p: nat)
    requires p <= |s|
  {
    3 <= p && s[p - 3] == 0 && s[p - 2] == 0 && s[p - 1] == 1
  }

  /** Every NAL start at or before `n`, ascending. */
  function Starts(s: seq<byte>, n: nat): (r: seq<nat>)
    requires n <= |s|
    ensures Placed(r, |r|, n)
    ensures r != [] ==> IsStart(s, r[|r| - 1])
  {
    if n == 0 then []
    else
      var before := Starts(s, n - 1);
      if IsStart(s, n) then
        PlacedPrefix(before, before + [n], |before|, n - 3);
        before + [n]
      else before
  }

  /** The first `k` starts lie at or before `n`, each at least one start code after the one before. */
  predicate Placed(starts: seq<nat>, k: nat, n: int)
    requires k <= |starts|
  {
    k == 0 || (3 <= starts[k - 1] <= n && Placed(starts, k - 1, starts[k - 1] - 3))
  }

  lemma {:induction false} PlacedPrefix(a: seq<nat>, b: seq<nat>, k: nat, n: int)
    requires k <= |a| && k <= |b| && a[..k] == b[..k]
    requires k > 0 ==> 3 <= a[k - 1] <= n && Placed(a, k - 1, a[k - 1] - 3)
    ensures Placed(b, k, n)
  {
    if k > 0 {
      assert a[k - 1] == a[..k][k - 1] == b[..k][k - 1] == b[k - 1];
      assert a[..k - 1] == a[..k][..k - 1] == b[..k][..k - 1] == b[..k - 1];
      PlacedPrefix(a, b, k - 1, a[k - 1] - 3);
    }
  }

  lemma {:induction false} PlacedAt(starts: seq<nat>, m: nat, n: int, k: nat)
    requires m <= |starts| && Placed(starts, m, n) && k < m
    ensures 3 <= starts[k] <= n && Placed(starts, k, starts[k] - 3)
  {
    if k < m - 1 {
      PlacedAt(starts, m - 1, starts[m - 1] - 3, k);
    }
  }

  /** The last position not after `end` (and not before `lo`) with no zero byte in front of it. */
  function TrimEnd(s: seq<byte>, lo: nat, end: nat): (e: nat)
    requires lo <= end <= |s|
    ensures lo <= e <= end
    ensures e == end <==> end == lo || s[end - 1] != 0
  {
    if end > lo && s[end - 1] == 0 then TrimEnd(s, lo, end - 1) else end
  }

  /** The bytes from `lo` up to `end`. */
  function Sub(s: seq<byte>, lo: nat, end: nat): (r: seq<byte>)
    requires lo <= end <= |s|
    ensures |r| == end - lo
  {
    s[lo..end]
  }

  function Keep(nal: seq<byte>): seq<seq<byte>> {
    if nal == [] then [] else [nal]
  }

  /** The units at the first `k` starts when a start code, or its leading zeros,
      follows at `n`: trailing zeros cut off, empty units left out. */
  function Closed(s: seq<byte>, starts: seq<nat>, k: nat, n: nat): seq<seq<byte>>
    requires n <= |s| && k <= |starts| && Placed(starts, k, n)
  {
    if k == 0 then []
    else
      var start := starts[k - 1];
      Closed(s, starts, k - 1, start - 3) + Keep(Sub(s, start, TrimEnd(s, start, n)))
  }

  /** The NAL units of an Annex-B stream; the last one keeps its trailing zeros. */
  function Split(s: seq<byte>): seq<seq<byte>> {
    Cut(s, Starts(s, |s|))
  }

  function Cut(s: seq<byte>, starts: seq<nat>): seq<seq<byte>>
    requires Placed(starts, |starts|, |s|)
  {
    var m := |starts|;
    if m == 0 then []
    else Closed(s, starts, m - 1, starts[m - 1] - 3) + Keep(Sub(s, starts[m - 1], |s|))
  }

  lemma {:induction false} ClosedNonEmpty(s: seq<byte>, starts: seq<nat>, k: nat, n: nat)
    requires n <= |s| && k <= |starts| && Placed(starts, k, n)
    ensures forall j :: 0 <= j < |Closed(s, starts, k, n)| ==> Closed(s, starts, k, n)[j] != []
    decreases k
  {
    if k > 0 {
      ClosedNonEmpty(s, starts, k - 1, starts[k - 1] - 3);
    }
  }

  /** No unit that comes out is empty. */
  lemma SplitNonEmpty(s: seq<byte>)
    ensures forall j :: 0 <= j < |Split(s)| ==> Split(s)[j] != []
  {
    var starts := Starts(s, |s|);
    if starts != [] {
      ClosedNonEmpty(s, starts, |starts| - 1, starts[|starts| - 1] - 3);
    }
  }

  /** The scan of `nal_units`, which jumps over each start code it finds. */
  method FindStarts(stream: seq<byte>) returns (starts: seq<nat>)
    ensures starts == Starts(stream, |stream|)
  {
    starts := [];
    var i := 0;
    NoneSoFar(stream, Min(2, |stream|));
    while i + 3 <= |stream|
      invariant i <= |stream|
      invariant starts == Starts(stream, Min(i + 2, |stream|))
    {
      StartCode(stream, i);
      if stream[i..i + 3] == [0, 0, 1] {
        starts := starts + [i + 3];
        AfterStart(stream, i + 3);
        i := i + 3;
      } else {
        i := i + 1;
      }
    }
  }

  /** `nal_units`: find the starts, then cut the units out in one pass. */
  method NalUnits(stream: seq<byte>) returns (out: seq<seq<byte>>)
    ensures out == Split(stream)
  {
    hide Before, Starts, TrimEnd, Placed;
    var starts := FindStarts(stream);
    out := [];
    var k := 0;
    FirstUnit(stream, starts);
    while k < |starts|
      invariant k <= |starts|
      invariant out == Before(stream, starts, k)
    {
      var s := starts[k];
      var end := |stream|;
      if k + 1 < |starts| {
        NextUnit(stream, starts, k);
        end := CutBack(stream, s, starts[k + 1] - 3);
      } else {
        LastUnit(stream, starts, k);
      }
      if end > s {
        out := out + [stream[s..end]];
      }
      k := k + 1;
    }
  }

  /** The inner loop of `nal_units`: step back over the zeros in front of a start code. */
  method CutBack(stream: seq<byte>, lo: nat, stop: nat) returns (end: nat)
    requires lo <= stop <= |stream|
    ensures end == TrimEnd(stream, lo, stop)
  {
    end := stop;
    while end > lo && stream[end - 1] == 0
      invariant lo <= end <= stop
      invariant TrimEnd(stream, lo, end) == TrimEnd(stream, lo, stop)
    {
      end := end - 1;
    }
  }

  /** The units cut out before the k-th start. */
  function Before(s: seq<byte>, starts: seq<nat>, k: nat): seq<seq<byte>>
    requires k <= |starts| && Placed(starts, |starts|, |s|)
  {
    if k == |starts| then Cut(s, starts)
    else
      PlacedAt(starts, |starts|, |s|, k);
      Closed(s, starts, k, starts[k] - 3)
  }

  lemma PlacedStep(starts: seq<nat>, k: nat, n: int)
    requires 0 < k <= |starts| && Placed(starts, k, n)
    ensures 3 <= starts[k - 1] <= n && Placed(starts, k - 1, starts[k - 1] - 3)
  {
  }

  lemma FirstUnit(s: seq<byte>, starts: seq<nat>)
    requires Placed(starts, |starts|, |s|)
    ensures Before(s, starts, 0) == []
    ensures Before(s, starts, |starts|) == Cut(s, starts)
  {
  }

  /** What a unit that another one follows adds. */
  lemma NextUnit(s: seq<byte>, starts: seq<nat>, k: nat)
    requires k + 1 < |starts| && Placed(starts, |starts|, |s|)
    ensures starts[k] <= starts[k + 1] - 3 <= |s|
    ensures Before(s, starts, k + 1) ==
            Before(s, starts, k) + Keep(Sub(s, starts[k], TrimEnd(s, starts[k], starts[k + 1] - 3)))
  {
    hide TrimEnd, Keep, Sub, Placed, Cut;
    PlacedAt(starts, |starts|, |s|, k);
    PlacedAt(starts, |starts|, |s|, k + 1);
    PlacedStep(starts, k + 1, starts[k + 1] - 3);
  }

  /** What the last unit adds. */
  lemma LastUnit(s: seq<byte>, starts: seq<nat>, k: nat)
    requires k + 1 == |starts| && Placed(starts, |starts|, |s|)
    ensures starts[k] <= |s|
    ensures Before(s, starts, k + 1) == Before(s, starts, k) + Keep(Sub(s, starts[k], |s|))
  {
    hide TrimEnd, Keep, Sub, Closed, Placed;
    PlacedAt(starts, |starts|, |s|, k);
  }

  lemma NoneSoFar(s: seq<byte>, n: nat)
    requires n <= |s| && n <= 2
    ensures Starts(s, n) == []
  {
  }

  lemma StartCode(s: seq<byte>, i: nat)
    requires i + 3 <= |s|
    ensures s[i..i + 3] == [0, 0, 1] <==> IsStart(s, i + 3)
    ensures Starts(s, i + 3) == Starts(s, i + 2) + if IsStart(s, i + 3) then [i + 3] else []
  {
  }

  /** No start between `from` and `n`. */
  lemma {:induction false} NoStarts(s: seq<byte>, from: nat, n: nat)
    requires from <= n <= |s|
    requires forall p :: from < p <= n ==> !IsStart(s, p)
    ensures Starts(s, n) == Starts(s, from)
  {
    hide Placed;
    if n > from {
      NoStarts(s, from, n - 1);
    }
  }

  /** No start can follow a start by one or two bytes, so the jump skips nothing. */
  lemma AfterStart(s: seq<byte>, p: nat)
    requires p <= |s| && IsStart(s, p)
    ensures Starts(s, Min(p + 2, |s|)) == Starts(s, p)
  {
    NoStarts(s, p, Min(p + 2, |s|));
  }

  // ---- Emulation prevention ----------------------------------------------

  /** The bytes left once emulation-prevention bytes are dropped, `zeros` zero
      bytes having just been read. */
  function UnescapeFrom(s: seq<byte>, zeros: nat): (r: seq<byte>)
    ensures |r| <= |s|
  {
    if s == [] then []
    else if zeros >= 2 && s[0] == 3 then UnescapeFrom(s[1..], 0)
    else [s[0]] + UnescapeFrom(s[1..], if s[0] == 0 then zeros + 1 else 0)
  }

  /** The RBSP of a NAL unit. */
  function Rbsp(nal: seq<byte>): (r: seq<byte>)
    ensures r == [] <==> nal == []
  {
    UnescapeFrom(nal, 0)
  }

  /** `unescape`. */
  method Unescape(nal: seq<byte>) returns (out: seq<byte>)
    ensures out == Rbsp(nal)
  {
    out := [];
    var zeros := 0;
    for i := 0 to |nal|
      invariant zeros >= 0
      invariant out + UnescapeFrom(nal[i..], zeros) == Rbsp(nal)
    {
      var b := nal[i];
      assert nal[i..][1..] == nal[i + 1..];
      if zeros >= 2 && b == 3 {
        zeros := 0;
        continue;
      }
      out := out + [b];
      zeros := if b == 0 then zeros + 1 else 0;
    }
  }

  /** What an encoder sends for the RBSP bytes `r` after `zeros` zero bytes: a 3
      in front of every byte up to 3 that follows two zeros (section 7.4.1 of ITU-T H.264). */
  function EscapeFrom(r: seq<byte>, zeros: nat): (s: seq<byte>)
    requires zeros <= 2
    ensures |s| >= |r|
    ensures r != [] ==> s[|s| - 1] == r[|r| - 1]
  {
    if r == [] then []
    else if zeros == 2 && r[0] <= 3 then [3, r[0]] + EscapeFrom(r[1..], if r[0] == 0 then 1 else 0)
    else [r[0]] + EscapeFrom(r[1..], if r[0] == 0 then zeros + 1 else 0)
  }

  function Escape(r: seq<byte>): (s: seq<byte>)
    ensures s == [] <==> r == []
  {
    EscapeFrom(r, 0)
  }

  lemma UnescapeNothing(zeros: nat)
    ensures UnescapeFrom([], zeros) == []
  {
  }

  lemma UnescapeCons(b: byte, rest: seq<byte>, zeros: nat)
    ensures UnescapeFrom([b] + rest, zeros) ==
            if zeros >= 2 && b == 3 then UnescapeFrom(rest, 0)
            else [b] + UnescapeFrom(rest, if b == 0 then zeros + 1 else 0)
  {
    assert ([b] + rest)[1..] == rest;
  }

  /** Every RBSP is recovered from its escaped bytes. */
  lemma {:induction false} UnescapeEscape(r: seq<byte>, zeros: nat)
    requires zeros <= 2
    ensures UnescapeFrom(EscapeFrom(r, zeros), zeros) == r
  {
    hide UnescapeFrom;
    UnescapeNothing(zeros);
    if r != [] {
      var z := if r[0] == 0 then (if zeros == 2 then 1 else zeros + 1) else 0;
      UnescapeEscape(r[1..], z);
      var rest := EscapeFrom(r[1..], z);
      UnescapeCons(r[0], rest, if zeros == 2 && r[0] <= 3 then 0 else zeros);
      if zeros == 2 && r[0] <= 3 {
        assert [3, r[0]] + rest == [3] + ([r[0]] + rest);
        UnescapeCons(3, [r[0]] + rest, zeros);
      }
    }
  }

  /** Read after `zeros` zero bytes, `s` never shows two zeros followed by a byte below 3. */
  predicate CleanFrom(s: seq<byte>, zeros: nat) {
    s == [] || ((zeros < 2 || s[0] > 2) && CleanFrom(s[1..], if s[0] == 0 then zeros + 1 else 0))
  }

  predicate AllClean(nals: seq<seq<byte>>) {
    forall k :: 0 <= k < |nals| ==> CleanFrom(nals[k], 0)
  }

  /** Escaped bytes never imitate a start code. */
  lemma {:induction false} EscapeIsClean(r: seq<byte>, zeros: nat)
    requires zeros <= 2
    ensures CleanFrom(EscapeFrom(r, zeros), zeros)
  {
    if r != [] {
      var z := if r[0] == 0 then (if zeros == 2 then 1 else zeros + 1) else 0;
      EscapeIsClean(r[1..], z);
      var rest := EscapeFrom(r[1..], z);
      if zeros == 2 && r[0] <= 3 {
        var s := [3, r[0]] + rest;
        assert s[1..] == [r[0]] + rest && s[1..][1..] == rest;
        assert CleanFrom(s[1..], 0);
      } else {
        assert ([r[0]] + rest)[1..] == rest;
      }
    }
  }

  /** A clean unit holds no start. */
  lemma {:induction false} CleanHasNoStart(s: seq<byte>, zeros: nat)
    requires CleanFrom(s, zeros)
    ensures forall p: nat :: p <= |s| ==> !IsStart(s, p)
    ensures zeros >= 1 && |s| >= 2 && s[0] == 0 ==> s[1] > 2
  {
    if s != [] {
      var z := if s[0] == 0 then zeros + 1 else 0;
      CleanHasNoStart(s[1..], z);
      forall p: nat | p <= |s|
        ensures !IsStart(s, p)
      {
        if p > 3 {
          assert !IsStart(s[1..], p - 1);
        }
      }
    }
  }

  // ---- Framing -----------------------------------------------------------

  /** A start code: three bytes, or longer with `pad` leading zero bytes. */
  function StartCodeOf(pad: nat): (code: seq<byte>)
    ensures |code| == pad + 3
  {
    Zeros(pad) + [0, 0, 1]
  }

  /** The byte stream that carries `nals`, the k-th behind a start code of `3 + pads[k]` bytes. */
  function Frame(nals: seq<seq<byte>>, pads: seq<nat>): seq<byte>
    requires |pads| == |nals|
  {
    if nals == [] then []
    else
      var k := |nals| - 1;
      Frame(nals[..k], pads[..k]) + StartCodeOf(pads[k]) + nals[k]
  }

  /** A unit without its trailing zero bytes. */
  function Trim(nal: seq<byte>): (t: seq<byte>)
    ensures |t| <= |nal| && t == nal[..|t|]
    ensures |t| == |nal| <==> nal == [] || nal[|nal| - 1] != 0
  {
    nal[..TrimEnd(nal, 0, |nal|)]
  }

  /** Every unit trimmed, empty ones left out. */
  function TrimAll(nals: seq<seq<byte>>): seq<seq<byte>> {
    if nals == [] then [] else TrimAll(nals[..|nals| - 1]) + Keep(Trim(nals[|nals| - 1]))
  }

  lemma {:induction false} StartsOfPrefix(s: seq<byte>, t: seq<byte>, n: nat)
    requires n <= |s| && n <= |t| && s[..n] == t[..n]
    ensures Starts(s, n) == Starts(t, n)
  {
    if n > 0 {
      assert s[..n - 1] == s[..n][..n - 1] == t[..n][..n - 1] == t[..n - 1];
      StartsOfPrefix(s, t, n - 1);
      assert forall i :: 0 <= i < n ==> s[i] == s[..n][i] == t[..n][i] == t[i];
    }
  }

  /** Where the starts of an appended start code and clean unit can be. */
  lemma AppendedStarts(front: seq<byte>, pad: nat, nal: seq<byte>)
    requires forall q: nat :: q <= |nal| ==> !IsStart(nal, q)
    ensures var s := front + StartCodeOf(pad) + nal;
            var p := |front| + 3 + pad;
            && IsStart(s, p)
            && (forall q :: |front| < q < p ==> !IsStart(s, q))
            && (forall q :: p < q <= |s| ==> !IsStart(s, q))
  {
    var s := front + StartCodeOf(pad) + nal;
    var p := |front| + 3 + pad;
    assert forall i :: |front| <= i < p - 1 ==> s[i] == StartCodeOf(pad)[i - |front|] == 0;
    assert s[p - 1] == StartCodeOf(pad)[pad + 2] == 1;
    assert s[p..] == nal;
    forall q | p < q <= |s|
      ensures !IsStart(s, q)
    {
      assert q >= p + 3 ==> (IsStart(s, q) <==> IsStart(s[p..], q - p));
    }
  }

  /** A start code and a clean unit add exactly one start, whatever was in front. */
  lemma StartsOfAppend(front: seq<byte>, pad: nat, nal: seq<byte>)
    requires CleanFrom(nal, 0)
    ensures var s := front + StartCodeOf(pad) + nal;
            Starts(s, |s|) == Starts(front, |front|) + [|front| + 3 + pad]
  {
    hide Starts, CleanFrom, StartCodeOf, IsStart;
    var s := front + StartCodeOf(pad) + nal;
    var p := |front| + 3 + pad;
    CleanHasNoStart(nal, 0);
    AppendedStarts(front, pad, nal);
    assert s[..|front|] == front[..|front|];
    StartsOfPrefix(s, front, |front|);
    NoStarts(s, |front|, p - 1);
    StartCode(s, p - 3);
    NoStarts(s, p, |s|);
  }

  lemma {:induction false} TrimEndOfPrefix(s: seq<byte>, t: seq<byte>, lo: nat, end: nat)
    requires lo <= end <= |s| && s <= t
    ensures TrimEnd(s, lo, end) == TrimEnd(t, lo, end)
    decreases end
  {
    if end > lo && s[end - 1] == 0 {
      TrimEndOfPrefix(s, t, lo, end - 1);
    }
  }

  /** Closed units do not see what is appended. */
  lemma {:induction false} ClosedOfPrefix(s: seq<byte>, t: seq<byte>, a: seq<nat>, b: seq<nat>, k: nat, n: nat)
    requires s <= t && n <= |s| && k <= |a| && k <= |b| && a <= b
    requires Placed(a, k, n) && Placed(b, k, n)
    ensures Closed(t, b, k, n) == Closed(s, a, k, n)
    decreases k
  {
    hide TrimEnd, Keep, Sub;
    if k > 0 {
      ClosedOfPrefix(s, t, a, b, k - 1, a[k - 1] - 3);
      TrimEndOfPrefix(s, t, a[k - 1], n);
      SliceOfPrefix(s, t, a[k - 1], TrimEnd(s, a[k - 1], n));
    }
  }

  lemma SliceOfPrefix(s: seq<byte>, t: seq<byte>, lo: nat, end: nat)
    requires s <= t && lo <= end <= |s|
    ensures Sub(s, lo, end) == Sub(t, lo, end)
  {
  }

  lemma {:induction false} TrimEndOfSlice(s: seq<byte>, lo: nat, nal: seq<byte>, pad: nat)
    requires lo + |nal| + pad <= |s| && s[lo..lo + |nal|] == nal
    requires forall i :: lo + |nal| <= i < lo + |nal| + pad ==> s[i] == 0
    ensures TrimEnd(s, lo, lo + |nal| + pad) == lo + |Trim(nal)|
    decreases |nal| + pad
  {
    if pad > 0 {
      TrimEndOfSlice(s, lo, nal, pad - 1);
    } else if |nal| > 0 {
      assert s[lo + |nal| - 1] == s[lo..lo + |nal|][|nal| - 1];
      if nal[|nal| - 1] == 0 {
        var shorter := nal[..|nal| - 1];
        assert s[lo..lo + |shorter|] == s[lo..lo + |nal|][..|shorter|];
        TrimEndOfSlice(s, lo, shorter, 0);
        TrimEndOfPrefix(shorter, nal, 0, |shorter|);
      }
    }
  }

  lemma TrimmedSlice(g: seq<byte>, lo: nat, last: seq<byte>, pad: nat)
    requires lo + |last| + pad <= |g| && g[lo..lo + |last|] == last
    requires forall i :: lo + |last| <= i < lo + |last| + pad ==> g[i] == 0
    ensures Sub(g, lo, TrimEnd(g, lo, lo + |last| + pad)) == Trim(last)
  {
    hide TrimEnd;
    TrimEndOfSlice(g, lo, last, pad);
    var t := |Trim(last)|;
    assert g[lo..lo + t] == g[lo..lo + |last|][..t];
  }

  lemma AppendedBytes(f: seq<byte>, last: seq<byte>, pad: nat, nal: seq<byte>)
    requires |last| <= |f| && f[|f| - |last|..] == last
    ensures var g := f + StartCodeOf(pad) + nal;
            && f <= g && |f| + pad <= |g| && g[|f| - |last|..|f|] == last
            && forall i :: |f| <= i < |f| + pad ==> g[i] == 0
  {
    var g := f + StartCodeOf(pad) + nal;
    assert forall i :: |f| <= i < |f| + pad ==> g[i] == StartCodeOf(pad)[i - |f|] == 0;
  }

  /** Once a start code follows, the unit that was last is cut and trimmed. */
  lemma ClosedOfAppend(f: seq<byte>, last: seq<byte>, pad: nat, nal: seq<byte>)
    requires var starts := Starts(f, |f|);
             starts != [] && |last| <= |f| && starts[|starts| - 1] == |f| - |last| && f[|f| - |last|..] == last
    ensures var g := f + StartCodeOf(pad) + nal;
            var a, b := Starts(f, |f|), Starts(f, |f|) + [|f| + 3 + pad];
            var m := |a|;
            && Placed(b, m, |f| + pad)
            && Closed(g, b, m, |f| + pad) == Closed(f, a, m - 1, a[m - 1] - 3) + Keep(Trim(last))
  {
    hide Starts, TrimEnd, StartCodeOf, Trim, Keep, Sub;
    AppendedBytes(f, last, pad, nal);
    var g := f + StartCodeOf(pad) + nal;
    var a, b := Starts(f, |f|), Starts(f, |f|) + [|f| + 3 + pad];
    var m := |a|;
    PlacedPrefix(a, b, m, |f| + pad);
    ClosedOfPrefix(f, g, a, b, m - 1, a[m - 1] - 3);
    TrimmedSlice(g, |f| - |last|, last, pad);
  }

  /** A framed stream ends with its last unit, and its other units are cut as they should be. */
  lemma {:induction false} StartsOfFrame(nals: seq<seq<byte>>, pads: seq<nat>)
    requires |pads| == |nals| > 0 && AllClean(nals)
    ensures var f := Frame(nals, pads);
            var last := nals[|nals| - 1];
            var starts := Starts(f, |f|);
            var m := |starts|;
            && m > 0 && |last| <= |f| && f[|f| - |last|..] == last && starts[m - 1] == |f| - |last|
            && Closed(f, starts, m - 1, starts[m - 1] - 3) == TrimAll(nals[..|nals| - 1])
  {
    hide Starts, Closed, CleanFrom, Placed, StartCodeOf, TrimAll, Frame, Trim, Keep;
    var m := |nals| - 1;
    var f := Frame(nals[..m], pads[..m]);
    FrameStep(nals, pads);
    StartsOfAppend(f, pads[m], nals[m]);
    NoTrimmed(nals);
    if m == 0 {
      NoneSoFar([], 0);
      var g := Frame(nals, pads);
      NothingClosed(g, Starts(g, |g|), pads[m]);
    } else {
      StartsOfFrame(nals[..m], pads[..m]);
      ClosedOfAppend(f, nals[m - 1], pads[m], nals[m]);
    }
  }

  lemma FrameStep(nals: seq<seq<byte>>, pads: seq<nat>)
    requires |pads| == |nals| > 0
    ensures var m := |nals| - 1;
            var f := Frame(nals[..m], pads[..m]);
            var g := Frame(nals, pads);
            && g == f + StartCodeOf(pads[m]) + nals[m]
            && |nals[m]| <= |g| && g[|g| - |nals[m]|..] == nals[m]
            && (m == 0 ==> f == [])
  {
  }

  lemma NoTrimmed(nals: seq<seq<byte>>)
    requires nals != []
    ensures var m := |nals| - 1;
            TrimAll(nals[..m]) == if m == 0 then [] else TrimAll(nals[..m][..m - 1]) + Keep(Trim(nals[m - 1]))
  {
  }

  lemma NothingClosed(s: seq<byte>, starts: seq<nat>, n: nat)
    requires n <= |s|
    ensures Placed(starts, 0, n) && Closed(s, starts, 0, n) == []
  {
  }

  /** What `nal_units` finds in a framed stream: every unit but the last loses its trailing zeros. */
  lemma SplitFrame(nals: seq<seq<byte>>, pads: seq<nat>)
    requires |pads| == |nals| > 0 && AllClean(nals)
    ensures Split(Frame(nals, pads)) == TrimAll(nals[..|nals| - 1]) + Keep(nals[|nals| - 1])
  {
    hide Starts, Closed, CleanFrom, Placed, Frame, TrimAll;
    var f := Frame(nals, pads);
    StartsOfFrame(nals, pads);
    var last := nals[|nals| - 1];
    assert Sub(f, |f| - |last|, |f|) == f[|f| - |last|..];
  }

  // ---- The round trip ----------------------------------------------------

  function EscapeAll(rbsps: seq<seq<byte>>): (e: seq<seq<byte>>)
    ensures |e| == |rbsps|
  {
    seq(|rbsps|, i requires 0 <= i < |rbsps| => Escape(rbsps[i]))
  }

  /** Escape and frame a list of RBSPs. */
  function Send(rbsps: seq<seq<byte>>, pads: seq<nat>): seq<byte>
    requires |pads| == |rbsps|
  {
    Frame(EscapeAll(rbsps), pads)
  }

  function RbspAll(nals: seq<seq<byte>>): (r: seq<seq<byte>>)
    ensures |r| == |nals|
  {
    seq(|nals|, i requires 0 <= i < |nals| => Rbsp(nals[i]))
  }

  /** Split and unescape a stream. */
  function Receive(stream: seq<byte>): seq<seq<byte>> {
    RbspAll(Split(stream))
  }

  /** The RBSP does not end in a zero byte. */
  predicate Full(r: seq<byte>) {
    r == [] || r[|r| - 1] != 0
  }

  /** Every RBSP has bytes, and every one but the last ends in a non-zero byte. */
  predicate Recoverable(rbsps: seq<seq<byte>>) {
    && (forall k :: 0 <= k < |rbsps| ==> rbsps[k] != [])
    && (forall k :: 0 <= k < |rbsps| - 1 ==> Full(rbsps[k]))
  }

  lemma {:induction false} UnescapeTrailingZeros(s: seq<byte>, n: nat, zeros: nat)
    ensures |UnescapeFrom(s + Zeros(n), zeros)| == |UnescapeFrom(s, zeros)| + n
    decreases |s| + n
  {
    hide UnescapeFrom;
    UnescapeNothing(zeros);
    if s == [] {
      assert s + Zeros(n) == Zeros(n);
      if n > 0 {
        assert Zeros(n) == [0] + ([] + Zeros(n - 1));
        UnescapeCons(0, [] + Zeros(n - 1), zeros);
        UnescapeTrailingZeros([], n - 1, zeros + 1);
        UnescapeNothing(zeros + 1);
      }
    } else {
      assert s + Zeros(n) == [s[0]] + (s[1..] + Zeros(n));
      assert s == [s[0]] + s[1..];
      UnescapeCons(s[0], s[1..] + Zeros(n), zeros);
      UnescapeCons(s[0], s[1..], zeros);
      UnescapeTrailingZeros(s[1..], n, 0);
      UnescapeTrailingZeros(s[1..], n, zeros + 1);
    }
  }

  lemma {:induction false} TrimmedZeros(s: seq<byte>, end: nat)
    requires end <= |s|
    ensures forall i :: TrimEnd(s, 0, end) <= i < end ==> s[i] == 0
  {
    if end > 0 && s[end - 1] == 0 {
      TrimmedZeros(s, end - 1);
    }
  }

  /** What comes back of an RBSP that another unit follows. */
  function CutRbsp(r: seq<byte>): seq<byte> {
    Rbsp(Trim(Escape(r)))
  }

  /** Bytes are lost exactly when the RBSP ends in a zero. */
  lemma CutKeeps(r: seq<byte>)
    ensures |CutRbsp(r)| <= |r|
    ensures Full(r) ==> CutRbsp(r) == r
    ensures |CutRbsp(r)| == |r| ==> Full(r)
  {
    var e := Escape(r);
    var t := Trim(e);
    UnescapeEscape(r, 0);
    var n := |e| - |t|;
    assert n == 0 ==> t == e;
    TrimmedZeros(e, |e|);
    assert e == t + Zeros(n);
    UnescapeTrailingZeros(t, n, 0);
  }

  /** What comes back of RBSPs that all have another unit behind them. */
  function CutAll(rbsps: seq<seq<byte>>): seq<seq<byte>> {
    if rbsps == [] then [] else CutAll(rbsps[..|rbsps| - 1]) + Keep(CutRbsp(rbsps[|rbsps| - 1]))
  }

  lemma RbspAllAppend(a: seq<seq<byte>>, b: seq<seq<byte>>)
    ensures RbspAll(a + b) == RbspAll(a) + RbspAll(b)
  {
  }

  lemma {:induction false} CutAllIsTrimAll(rbsps: seq<seq<byte>>)
    ensures RbspAll(TrimAll(EscapeAll(rbsps))) == CutAll(rbsps)
  {
    hide EscapeFrom, UnescapeFrom, Trim;
    if rbsps != [] {
      var m := |rbsps| - 1;
      CutAllIsTrimAll(rbsps[..m]);
      assert EscapeAll(rbsps)[..m] == EscapeAll(rbsps[..m]);
      var front := TrimAll(EscapeAll(rbsps[..m]));
      var kept := Keep(Trim(Escape(rbsps[m])));
      RbspAllAppend(front, kept);
      assert RbspAll(kept) == Keep(CutRbsp(rbsps[m]));
    }
  }

  lemma OnePiece(r: seq<byte>)
    ensures Concat(Keep(r)) == r && Concat([r]) == r
  {
  }

  /** The list comes back with all its bytes only if no RBSP ends in a zero. */
  lemma {:induction false} CutAllBytes(rbsps: seq<seq<byte>>)
    ensures |Concat(CutAll(rbsps))| <= |Concat(rbsps)|
    ensures |Concat(CutAll(rbsps))| == |Concat(rbsps)| ==> forall k :: 0 <= k < |rbsps| ==> Full(rbsps[k])
  {
    hide CutRbsp, Concat;
    if rbsps != [] {
      var m := |rbsps| - 1;
      var last := rbsps[m];
      CutAllBytes(rbsps[..m]);
      CutKeeps(last);
      ConcatAppend(CutAll(rbsps[..m]), Keep(CutRbsp(last)));
      ConcatAppend(rbsps[..m], [last]);
      assert rbsps == rbsps[..m] + [last];
      OnePiece(CutRbsp(last));
      OnePiece(last);
      assert forall k :: 0 <= k < m ==> rbsps[k] == rbsps[..m][k];
    }
  }

  lemma {:induction false} CutAllIdentity(rbsps: seq<seq<byte>>)
    requires forall k :: 0 <= k < |rbsps| ==> rbsps[k] != [] && Full(rbsps[k])
    ensures CutAll(rbsps) == rbsps
  {
    hide CutRbsp, Full;
    if rbsps != [] {
      var m := |rbsps| - 1;
      CutAllIdentity(rbsps[..m]);
      CutKeeps(rbsps[m]);
      assert rbsps == rbsps[..m] + [rbsps[m]];
    }
  }

  lemma ReceiveIs(rbsps: seq<seq<byte>>, pads: seq<nat>)
    requires |pads| == |rbsps| > 0
    ensures var m := |rbsps| - 1;
            Receive(Send(rbsps, pads)) == CutAll(rbsps[..m]) + Keep(rbsps[m])
  {
    hide EscapeFrom, UnescapeFrom, Trim, CleanFrom, TrimAll, Frame, Split;
    var m := |rbsps| - 1;
    var e := EscapeAll(rbsps);
    forall k | 0 <= k < |e|
      ensures CleanFrom(e[k], 0)
    {
      EscapeIsClean(rbsps[k], 0);
    }
    SplitFrame(e, pads);
    assert e[..m] == EscapeAll(rbsps[..m]);
    CutAllIsTrimAll(rbsps[..m]);
    UnescapeEscape(rbsps[m], 0);
    var front := TrimAll(EscapeAll(rbsps[..m]));
    var kept := Keep(Escape(rbsps[m]));
    RbspAllAppend(front, kept);
    assert RbspAll(kept) == Keep(rbsps[m]);
  }

  lemma ReceivedNonEmpty(stream: seq<byte>)
    ensures forall k :: 0 <= k < |Receive(stream)| ==> Receive(stream)[k] != []
  {
    SplitNonEmpty(stream);
  }

  lemma NothingSent()
    ensures Receive(Send([], [])) == []
  {
  }

  /** Splitting and unescaping undo escaping and framing exactly on the
      recoverable lists, for any mix of start-code lengths. */
  lemma ReceiveSend(rbsps: seq<seq<byte>>, pads: seq<nat>)
    requires |pads| == |rbsps|
    ensures Receive(Send(rbsps, pads)) == rbsps <==> Recoverable(rbsps)
  {
    hide Send, Receive, CutRbsp, Concat, CutAll;
    if rbsps == [] {
      NothingSent();
    } else {
      var m := |rbsps| - 1;
      ReceiveIs(rbsps, pads);
      assert rbsps == rbsps[..m] + [rbsps[m]];
      if Recoverable(rbsps) {
        CutAllIdentity(rbsps[..m]);
      }
      if Receive(Send(rbsps, pads)) == rbsps {
        ReceivedNonEmpty(Send(rbsps, pads));
        assert rbsps[m] != [];
        ConcatAppend(CutAll(rbsps[..m]), [rbsps[m]]);
        ConcatAppend(rbsps[..m], [rbsps[m]]);
        CutAllBytes(rbsps[..m]);
        forall k | 0 <= k < m
          ensures Full(rbsps[k])
        {
          assert Full(rbsps[..m][k]);
        }
      }
    }
  }
}
