/** The bit reader of native/crates/codec-goldens/src/nal.rs and the bit writer it undoes. */
module BitIO {
  import opened Common

  // ---- Reading, as functions on the bits that are left --------------------

  /** What a read yields: a value and the bits behind it, or nothing. */
  datatype Read<+T> = Got(value: T, rest: seq<bool>) | Bad {

    predicate IsFailure() {
      Bad?
    }

    function PropagateFailure<V>(): Read<V>
      requires Bad?
    {
      Bad
    }

    function Extract(): (T, seq<bool>)
      requires Got?
    {
      (value, rest)
    }
  }

  function Bit(b: bool): nat {
    if b then 1 else 0
  }

  function GetFlag(s: seq<bool>): Read<bool> {
    if s == [] then Bad else Got(s[0], s[1..])
  }

  function GetSkip(n: nat, s: seq<bool>): Read<()> {
    if |s| < n then Bad else Got((), s[n..])
  }

  /** `u(n)`: an unsigned number of `n` bits, most significant first. */
  function GetU(n: nat, s: seq<bool>): (r: Read<nat>)
    ensures r.Got? ==> r.value < Pow2(n)
  {
    if n == 0 then Got(0, s)
    else
      var (v, s) :- GetU(n - 1, s);
      var (b, s) :- GetFlag(s);
      Got(2 * v + Bit(b), s)
  }

  /** The leading zeros of an Exp-Golomb code, `zeros` of them already read; at most 31. */
  function Lead(s: seq<bool>, zeros: nat): (r: Read<nat>)
    ensures r.Got? ==> r.value <= Max(zeros, 31)
    decreases |s|
  {
    var (b, s) :- GetFlag(s);
    if b then Got(zeros, s)
    else if zeros + 1 > 31 then Bad
    else Lead(s, zeros + 1)
  }

  /** The largest value a code with at most 31 leading zeros can carry. */
  const MAX_UE: nat := 0xFFFF_FFFE

  /** `ue(v)`. */
  function GetUe(s: seq<bool>): (r: Read<nat>)
    ensures r.Got? ==> r.value <= MAX_UE
  {
    var (zeros, s) :- Lead(s, 0);
    var (rest, s) :- GetU(zeros, s);
    UeRange(zeros);
    Got(Pow2(zeros) - 1 + rest, s)
  }

  lemma {:induction false} PowMono(a: nat, b: nat)
    requires a <= b
    ensures Pow2(a) <= Pow2(b)
  {
    if a < b {
      PowMono(a, b - 1);
    }
  }

  lemma UeRange(zeros: nat)
    requires zeros <= 31
    ensures 2 * Pow2(zeros) <= MAX_UE + 2
  {
    PowMono(zeros, 31);
    Pow31();
  }

  lemma Pow31()
    ensures Pow2(31) == 0x8000_0000
  {
    assert Pow2(8) == 256;
    assert Pow2(16) == 256 * 256 by {
      assert Pow2(12) == 4096;
    }
    assert Pow2(20) == 16 * Pow2(16);
    assert Pow2(24) == 16 * Pow2(20);
    assert Pow2(28) == 16 * Pow2(24);
  }

  /** `se(v)`. */
  function GetSe(s: seq<bool>): (r: Read<int>)
    ensures r.Got? ==> -0x7FFF_FFFF <= r.value <= 0x7FFF_FFFF
  {
    var (k, s) :- GetUe(s);
    Got(if k % 2 == 1 then (k + 1) / 2 else -(k / 2), s)
  }

  // ---- Bits of bytes -----------------------------------------------------

  /** The low `n` bits of `v`, most significant first. */
  function UBits(n: nat, v: nat): (s: seq<bool>)
    ensures |s| == n
  {
    if n == 0 then [] else UBits(n - 1, v / 2) + [v % 2 == 1]
  }

  function BitsOf(data: seq<byte>): (s: seq<bool>)
    ensures |s| == 8 * |data|
  {
    if data == [] then [] else UBits(8, data[0]) + BitsOf(data[1..])
  }

  /** The shift-and-mask of `Bits::flag`. */
  function BitAt(b: byte, i: nat): bool
    requires i < 8
  {
    (b / Pow2(7 - i)) % 2 == 1
  }

  lemma DivTwice(v: nat, p: nat)
    requires p > 0
    ensures v / 2 / p == v / (2 * p)
  {
    hide Pow2;
    var q, r := v / (2 * p), v % (2 * p);
    var m := p * q;
    assert v == 2 * m + r by {
      assert v == (2 * p) * q + r;
      assert (2 * p) * q == 2 * (p * q);
    }
    assert v / 2 == m + r / 2;
    DivModOf(p, q, r / 2);
  }

  lemma {:induction false} UBitAt(n: nat, v: nat, i: nat)
    requires i < n
    ensures UBits(n, v)[i] == ((v / Pow2(n - 1 - i)) % 2 == 1)
  {
    if i < n - 1 {
      UBitAt(n - 1, v / 2, i);
      DivTwice(v, Pow2(n - 2 - i));
    }
  }

  lemma {:induction false} BitsOfAt(data: seq<byte>, p: nat)
    requires p < 8 * |data|
    ensures BitsOf(data)[p] == BitAt(data[p / 8], p % 8)
  {
    hide UBits, Pow2;
    if p < 8 {
      UBitAt(8, data[0], p);
      assert p / 8 == 0 && p % 8 == p;
    } else {
      hide BitAt;
      BitsOfAt(data[1..], p - 8);
      assert (p - 8) / 8 == p / 8 - 1 && (p - 8) % 8 == p % 8;
    }
  }

  // ---- The reader --------------------------------------------------------

  /** Whether a reading method did what the function on the bits left says. */
  predicate Agrees<T(==)>(spec: Read<T>, r: Result<T, string>, rest: seq<bool>) {
    match spec
    case Got(v, s) => r == Ok(v) && rest == s
    case Bad => r.Err?
  }

  /** Big-endian bit reader over an RBSP. */
  class Bits {
    const data: seq<byte>
    var pos: nat

    ghost predicate Valid()
      reads this
    {
      pos <= 8 * |data|
    }

    /** The bits not read yet. */
    ghost function Rest(): seq<bool>
      requires Valid()
      reads this
    {
      BitsOf(data)[pos..]
    }

    constructor (data: seq<byte>)
      ensures Valid() && this.data == data && Rest() == BitsOf(data)
    {
      this.data := data;
      pos := 0;
    }

    method Flag() returns (r: Result<bool, string>)
      requires Valid()
      modifies this
      ensures Valid() && Agrees(GetFlag(old(Rest())), r, Rest())
    {
      if pos / 8 >= |data| {
        return Err("header ends early");
      }
      BitsOfAt(data, pos);
      r := Ok((data[pos / 8] / Pow2(7 - pos % 8)) % 2 == 1);
      pos := pos + 1;
    }

    method ReadBits(n: nat) returns (r: Result<nat, string>)
      requires Valid() && n <= 32
      modifies this
      ensures Valid() && Agrees(GetU(n, old(Rest())), r, Rest())
    {
      var v := 0;
      for i := 0 to n
        invariant Valid() && GetU(i, old(Rest())) == Got(v, Rest())
      {
        UStep(i, n, old(Rest()));
        var b :- Flag();
        v := 2 * v + Bit(b);
      }
      r := Ok(v);
    }

    method Skip(n: nat) returns (r: Result<(), string>)
      requires Valid()
      modifies this
      ensures Valid() && Agrees(GetSkip(n, old(Rest())), r, Rest())
    {
      if pos + n > |data| * 8 {
        return Err("header ends early");
      }
      pos := pos + n;
      r := Ok(());
    }

    method Ue() returns (r: Result<nat, string>)
      requires Valid()
      modifies this
      ensures Valid() && Agrees(GetUe(old(Rest())), r, Rest())
    {
      var zeros := 0;
      var b :- Flag();
      while !b
        invariant Valid() && 0 <= zeros <= 31
        invariant Lead(old(Rest()), 0) ==
                  if b then Got(zeros, Rest()) else if zeros + 1 > 31 then Bad else Lead(Rest(), zeros + 1)
        decreases !b, 31 - zeros
      {
        zeros := zeros + 1;
        if zeros > 31 {
          return Err("exp-Golomb code longer than 32 bits");
        }
        b :- Flag();
      }
      var rest :- ReadBits(zeros);
      r := Ok(Pow2(zeros) - 1 + rest);
    }

    method Se() returns (r: Result<int, string>)
      requires Valid()
      modifies this
      ensures Valid() && Agrees(GetSe(old(Rest())), r, Rest())
    {
      var k :- Ue();
      var half: int := k / 2;
      var v: int := if k % 2 == 1 then half + 1 else -half;
      r := Ok(v);
    }
  }

  lemma {:induction false} UStep(i: nat, n: nat, s: seq<bool>)
    requires i < n && GetU(i, s).Got?
    ensures GetFlag(GetU(i, s).rest).Bad? ==> GetU(n, s).Bad?
  {
    if i + 1 < n && GetFlag(GetU(i, s).rest).Bad? {
      UBad(i + 1, n, s);
    }
  }

  lemma {:induction false} UBad(i: nat, n: nat, s: seq<bool>)
    requires i <= n && GetU(i, s).Bad?
    ensures GetU(n, s).Bad?
    decreases n - i
  {
    if i < n {
      UBad(i + 1, n, s);
    }
  }

  // ---- Writing -----------------------------------------------------------

  function Falses(n: nat): (s: seq<bool>)
    ensures |s| == n
  {
    if n == 0 then [] else [false] + Falses(n - 1)
  }

  /** The position of the highest one bit of `x`. */
  function Log2(x: nat): (n: nat)
    requires x > 0
    ensures Pow2(n) <= x < 2 * Pow2(n)
  {
    if x == 1 then 0 else 1 + Log2(x / 2)
  }

  /** The Exp-Golomb code of `v` (section 9.1 of ITU-T H.264). */
  function UeBits(v: nat): seq<bool> {
    var n := Log2(v + 1);
    Falses(n) + UBits(n + 1, v + 1)
  }

  function SeBits(v: int): seq<bool> {
    UeBits(if v > 0 then 2 * v - 1 else -2 * v)
  }

  lemma {:induction false} ReadUBits(n: nat, v: nat, rest: seq<bool>)
    requires v < Pow2(n)
    ensures GetU(n, UBits(n, v) + rest) == Got(v, rest)
  {
    if n > 0 {
      ReadUBits(n - 1, v / 2, [v % 2 == 1] + rest);
      assert UBits(n, v) + rest == UBits(n - 1, v / 2) + ([v % 2 == 1] + rest);
    }
  }

  /** A number's highest bit stands in front of the others. */
  lemma {:induction false} TopBit(n: nat, x: nat)
    requires Pow2(n) <= x < 2 * Pow2(n)
    ensures UBits(n + 1, x) == [true] + UBits(n, x - Pow2(n))
  {
    if n > 0 {
      TopBit(n - 1, x / 2);
      assert (x - Pow2(n)) / 2 == x / 2 - Pow2(n - 1);
    }
  }

  lemma {:induction false} ReadLead(n: nat, zeros: nat, rest: seq<bool>)
    ensures Lead(Falses(n) + [true] + rest, zeros) ==
            if n == 0 || zeros + n <= 31 then Got(zeros + n, rest) else Bad
  {
    var s := Falses(n) + [true] + rest;
    if n == 0 {
      assert s == [true] + rest;
    } else {
      assert s[1..] == Falses(n - 1) + [true] + rest;
      ReadLead(n - 1, zeros + 1, rest);
    }
  }

  /** The reader undoes the Exp-Golomb writer exactly up to 2^32 - 2. */
  lemma ReadUeBits(v: nat, rest: seq<bool>)
    ensures GetUe(UeBits(v) + rest) == if v <= MAX_UE then Got(v, rest) else Bad
  {
    hide GetU, Lead, Falses, UBits, Log2;
    var x := v + 1;
    var n := Log2(x);
    TopBit(n, x);
    var low := UBits(n, x - Pow2(n));
    assert UeBits(v) + rest == Falses(n) + [true] + (low + rest);
    ReadLead(n, 0, low + rest);
    Pow31();
    if n <= 31 {
      UeRange(n);
      ReadUBits(n, x - Pow2(n), rest);
    } else {
      PowMono(32, n);
    }
  }

  lemma ReadSeBits(v: int, rest: seq<bool>)
    ensures GetSe(SeBits(v) + rest) == if -0x7FFF_FFFF <= v <= 0x7FFF_FFFF then Got(v, rest) else Bad
  {
    hide GetUe, UeBits;
    ReadUeBits(if v > 0 then 2 * v - 1 else -2 * v, rest);
  }

  // ---- Packing bits into bytes -------------------------------------------

  function Val(s: seq<bool>): (v: nat)
    ensures v < Pow2(|s|)
  {
    if s == [] then 0 else 2 * Val(s[..|s| - 1]) + Bit(s[|s| - 1])
  }

  function Pack(s: seq<bool>): (data: seq<byte>)
    requires |s| % 8 == 0
    ensures |data| == |s| / 8
  {
    if s == [] then []
    else
      assert Pow2(8) == 256;
      [Val(s[..8])] + Pack(s[8..])
  }

  lemma {:induction false} UBitsVal(s: seq<bool>)
    ensures UBits(|s|, Val(s)) == s
  {
    if s != [] {
      UBitsVal(s[..|s| - 1]);
    }
  }

  lemma {:induction false} BitsOfPack(s: seq<bool>)
    requires |s| % 8 == 0
    ensures BitsOf(Pack(s)) == s
  {
    if s != [] {
      UBitsVal(s[..8]);
      BitsOfPack(s[8..]);
      assert s == s[..8] + s[8..];
      var data := Pack(s);
      assert data[1..] == Pack(s[8..]);
    }
  }

  // ---- The stop bit ------------------------------------------------------

  /** The stop bit and the zero bits that fill the last byte, behind `n` bits. */
  function Stop(n: nat): (t: seq<bool>)
    ensures 0 < |t| <= 8 && (n + |t|) % 8 == 0 && t[0]
  {
    [true] + Falses(7 - n % 8)
  }

  /** The RBSP of a syntax structure: its bits, the stop bit and the padding. */
  function Rbsp(bits: seq<bool>): (data: seq<byte>)
    ensures data != []
  {
    Pack(bits + Stop(|bits|))
  }

  lemma PackStep(s: seq<bool>, n: nat)
    requires |s| == 8 * n + 8
    ensures Pack(s) == [Val(s[..8])] + Pack(s[8..])
  {
    hide Val, Pow2;
  }

  lemma {:induction false} PackLast(s: seq<bool>, n: nat)
    requires |s| == 8 * n + 8
    ensures Pack(s)[n] == Val(s[8 * n..])
  {
    hide Pack, Val, Pow2;
    PackStep(s, n);
    if n > 0 {
      PackLast(s[8..], n - 1);
      assert s[8..][8 * n - 8..] == s[8 * n..];
    } else {
      assert s[..8] == s;
    }
  }

  lemma {:induction false} ValPositive(s: seq<bool>, k: nat)
    requires k < |s| && s[k]
    ensures Val(s) > 0
  {
    if k < |s| - 1 {
      ValPositive(s[..|s| - 1], k);
    }
  }

  /** The stop bit keeps the last byte from being zero. */
  lemma RbspEnds(bits: seq<bool>)
    ensures var data := Rbsp(bits); data[|data| - 1] != 0
  {
    hide Pack, Val;
    var t := Stop(|bits|);
    var s := bits + t;
    PackLast(s, |s| / 8 - 1);
    ValPositive(s[|s| - 8..], 8 - |t|);
  }
}
