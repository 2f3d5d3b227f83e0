/** STUN/TURN messages: the builder and the parser (native/crates/engine/src/turn.rs). */
module Stun {
  import opened Common

  type u16 = n: int | 0 <= n < 0x1_0000

  type Tid = s: seq<byte> | |s| == 12 witness seq(12, _ => 0)

  const MAGIC: seq<byte> := [0x21, 0x12, 0xa4, 0x42]

  datatype Attr = Attr(typ: u16, val: seq<byte>)

  function Be16(v: u16): (b: seq<byte>)
    ensures |b| == 2
  {
    [v / 256, v % 256]
  }

  function U16(hi: byte, lo: byte): (v: u16)
    ensures Be16(v) == [hi, lo]
  {
    hi * 256 + lo
  }

  /** Rust's `as u16`. */
  function Truncated(n: nat): u16 {
    n % 0x1_0000
  }

  /** Bytes that fill `n` bytes up to a multiple of four. */
  function Padding(n: nat): (p: nat)
    ensures p < 4 && (n + p) % 4 == 0
  {
    (4 - n % 4) % 4
  }

  function AttrBytes(a: Attr): (s: seq<byte>)
    ensures |s| == 4 + |a.val| + Padding(|a.val|)
  {
    Be16(a.typ) + Be16(Truncated(|a.val|)) + a.val + Zeros(Padding(|a.val|))
  }

  function Body(attrs: seq<Attr>): seq<byte> {
    if attrs == [] then [] else AttrBytes(attrs[0]) + Body(attrs[1..])
  }

  lemma {:induction false} BodyAppend(attrs: seq<Attr>, a: Attr)
    ensures Body(attrs + [a]) == Body(attrs) + AttrBytes(a)
  {
    hide AttrBytes;
    if attrs == [] {
      assert attrs + [a] == [a];
    } else {
      assert (attrs + [a])[1..] == attrs[1..] + [a];
      BodyAppend(attrs[1..], a);
    }
  }

  lemma {:induction false} BodyAligned(attrs: seq<Attr>)
    ensures |Body(attrs)| % 4 == 0
  {
    hide AttrBytes;
    if attrs != [] {
      BodyAligned(attrs[1..]);
      SumAligned(|AttrBytes(attrs[0])|, |Body(attrs[1..])|);
    }
  }

  lemma SumAligned(m: nat, n: nat)
    requires m % 4 == 0 && n % 4 == 0
    ensures (m + n) % 4 == 0
  {
  }

  function Header(mtype: u16, length: nat, tid: Tid): (h: seq<byte>)
    ensures |h| == 20
  {
    Be16(mtype) + Be16(Truncated(length)) + MAGIC + tid
  }

  /** The message with these attributes. */
  function Message(mtype: u16, tid: Tid, attrs: seq<Attr>): seq<byte> {
    Header(mtype, |Body(attrs)|, tid) + Body(attrs)
  }

  // ---- XOR addresses -----------------------------------------------------

  /** Bitwise exclusive or of two `n`-bit numbers. */
  function Xor(n: nat, a: nat, b: nat): (r: nat)
    ensures r < Pow2(n)
  {
    if n == 0 then 0 else 2 * Xor(n - 1, a / 2, b / 2) + (a + b) % 2
  }

  lemma {:induction false} XorTwice(n: nat, a: nat, b: nat)
    requires a < Pow2(n)
    ensures Xor(n, Xor(n, a, b), b) == a
  {
    if n > 0 {
      var q := Xor(n - 1, a / 2, b / 2);
      XorTwice(n - 1, a / 2, b / 2);
      LowBit(q, a, b);
      assert Xor(n, a, b) == 2 * q + (a + b) % 2;
      assert Xor(n, Xor(n, a, b), b) == 2 * Xor(n - 1, q, b / 2) + a % 2;
    }
  }

  lemma LowBit(q: nat, a: nat, b: nat)
    ensures var r := 2 * q + (a + b) % 2;
            r / 2 == q && (r + b) % 2 == a % 2
  {
  }

  function XorByte(a: byte, b: byte): byte {
    assert Pow2(8) == 256;
    Xor(8, a, b)
  }

  function XorBytes(s: seq<byte>, k: seq<byte>): (r: seq<byte>)
    requires |s| == |k|
    ensures |r| == |s|
  {
    seq(|s|, i requires 0 <= i < |s| => XorByte(s[i], k[i]))
  }

  lemma XorBytesTwice(s: seq<byte>, k: seq<byte>)
    requires |s| == |k|
    ensures XorBytes(XorBytes(s, k), k) == s
  {
    hide Xor;
    assert Pow2(8) == 256;
    forall i | 0 <= i < |s|
      ensures XorBytes(XorBytes(s, k), k)[i] == s[i]
    {
      XorTwice(8, s[i], k[i]);
    }
  }

  type Octets4 = s: seq<byte> | |s| == 4 witness [0, 0, 0, 0]
  type Octets16 = s: seq<byte> | |s| == 16 witness seq(16, _ => 0)

  datatype Ip = V4(o4: Octets4) | V6(o16: Octets16)

  datatype Addr = Addr(ip: Ip, port: u16)

  function XorPort(port: u16): u16 {
    Pow16();
    Xor(16, port, 0x2112)
  }

  lemma Pow16()
    ensures Pow2(16) == 0x1_0000
  {
    assert Pow2(8) == 256;
    assert Pow2(12) == 4096;
  }

  /** The value of an XOR address attribute. */
  function AddrBytes(a: Addr, tid: Tid): seq<byte> {
    match a.ip
    case V4(o) => [0, 1] + Be16(XorPort(a.port)) + XorBytes(o, MAGIC)
    case V6(o) => [0, 2] + Be16(XorPort(a.port)) + XorBytes(o, MAGIC + tid)
  }

  /** `get_xor_addr` on an attribute's value. */
  function AddrOf(val: seq<byte>, tid: Tid): Option<Addr> {
    if |val| < 8 then None
    else
      var port := XorPort(U16(val[2], val[3]));
      if val[1] == 1 then Some(Addr(V4(XorBytes(val[4..8], MAGIC)), port))
      else if val[1] == 2 && |val| >= 20 then Some(Addr(V6(XorBytes(val[4..20], MAGIC + tid)), port))
      else None
  }

  /** Every address, of either family, comes back from its attribute. */
  lemma AddrBack(a: Addr, tid: Tid)
    ensures AddrOf(AddrBytes(a, tid), tid) == Some(a)
  {
    hide Xor, XorBytes;
    Pow16();
    XorTwice(16, a.port, 0x2112);
    var val := AddrBytes(a, tid);
    match a.ip {
      case V4(o) =>
        XorBytesTwice(o, MAGIC);
        assert val[4..8] == XorBytes(o, MAGIC);
      case V6(o) =>
        XorBytesTwice(o, MAGIC + tid);
        assert val[4..20] == XorBytes(o, MAGIC + tid);
    }
  }

  // ---- The builder -------------------------------------------------------

  const ATTR_MESSAGE_INTEGRITY: u16 := 0x0008

  /** HMAC-SHA1 tags are 20 bytes long. */
  type Tag = s: seq<byte> | |s| == 20 witness seq(20, _ => 0)

  /** HMAC-SHA1, uninterpreted: key and message to tag. */
  type Hmac = (seq<byte>, seq<byte>) -> Tag

  /** The message the integrity tag covers: its length field already counts the tag. */
  function Covered(mtype: u16, tid: Tid, attrs: seq<Attr>): seq<byte> {
    Header(mtype, |Body(attrs)| + 24, tid) + Body(attrs)
  }

  class MsgBuilder {
    var buf: seq<byte>
    const mtype: u16
    const tid: Tid
    /** The attributes appended so far. */
    ghost var attrs: seq<Attr>

    ghost predicate Valid()
      reads this
    {
      buf == Header(mtype, 0, tid) + Body(attrs)
    }

    constructor (mtype: u16, tid: Tid)
      ensures Valid() && this.mtype == mtype && this.tid == tid && attrs == []
    {
      this.mtype, this.tid := mtype, tid;
      buf := Be16(mtype) + Be16(0) + MAGIC + tid;
      attrs := [];
    }

    method AppendBytes(typ: u16, val: seq<byte>)
      requires Valid()
      modifies this
      ensures Valid() && attrs == old(attrs) + [Attr(typ, val)]
    {
      hide Body, AttrBytes, Header, Be16;
      ghost var front := buf;
      buf := buf + Be16(typ);
      buf := buf + Be16(Truncated(|val|));
      buf := buf + val;
      BodyAligned(attrs);
      PaddingSum(|front| + 4, |val|);
      Pad();
      Appended(Header(mtype, 0, tid), attrs, Attr(typ, val), buf);
      attrs := attrs + [Attr(typ, val)];
    }

    /** Zero bytes up to a multiple of four. */
    method Pad()
      modifies this`buf
      ensures buf == old(buf) + Zeros(Padding(|old(buf)|))
    {
      ghost var bare := buf;
      while |buf| % 4 != 0
        invariant |bare| <= |buf| <= |bare| + Padding(|bare|)
        invariant buf == bare + Zeros(|buf| - |bare|)
        decreases |bare| + Padding(|bare|) - |buf|
      {
        buf := buf + [0];
      }
      PaddedOnce(|bare|, |buf| - |bare|);
    }

    method AppendAddr(typ: u16, addr: Addr, tid: Tid)
      requires Valid()
      modifies this
      ensures Valid() && attrs == old(attrs) + [Attr(typ, AddrBytes(addr, tid))]
    {
      hide Xor, Pow2, Header, Body, AttrBytes;
      var val := [0];
      var xport := XorPort(addr.port);
      match addr.ip {
        case V4(o) =>
          val := val + [1] + Be16(xport);
          ghost var front := val;
          for i := 0 to 4
            invariant val == front + XorBytes(o, MAGIC)[..i]
          {
            val := val + [XorByte(o[i], MAGIC[i])];
          }
        case V6(o) =>
          val := val + [2] + Be16(xport);
          ghost var front := val;
          ghost var all := XorBytes(o, MAGIC + tid);
          for i := 0 to 4
            invariant val == front + all[..i]
          {
            val := val + [XorByte(o[i], MAGIC[i])];
          }
          for i := 0 to 12
            invariant val == front + all[..4 + i]
          {
            val := val + [XorByte(o[4 + i], tid[i])];
          }
      }
      assert val == AddrBytes(addr, tid);
      AppendBytes(typ, val);
    }

    method PatchLen(extra: nat)
      requires Valid()
      modifies this`buf
      ensures buf == Header(mtype, |Body(attrs)| + extra, tid) + Body(attrs)
    {
      var len := Truncated(|buf| - 20 + extra);
      buf := buf[..2] + Be16(len) + buf[4..];
    }

    method Finish() returns (out: seq<byte>)
      requires Valid()
      modifies this
      ensures out == Message(mtype, tid, old(attrs))
    {
      PatchLen(0);
      out := buf;
    }

    method FinishWithIntegrity(hmac: Hmac, key: seq<byte>) returns (out: seq<byte>)
      requires Valid()
      modifies this
      ensures out == Signed(hmac, key, mtype, tid, old(attrs))
    {
      PatchLen(24);
      var tag := hmac(key, buf);
      buf := buf + Be16(ATTR_MESSAGE_INTEGRITY);
      buf := buf + Be16(20);
      buf := buf + tag;
      out := buf;
    }
  }

  lemma PaddedOnce(n: nat, p: nat)
    requires p <= Padding(n) && (n + p) % 4 == 0
    ensures p == Padding(n)
  {
  }

  lemma PaddingSum(front: nat, n: nat)
    requires front % 4 == 0
    ensures Padding(front + n) == Padding(n)
  {
  }

  lemma Appended(head: seq<byte>, attrs: seq<Attr>, a: Attr, buf: seq<byte>)
    requires buf == head + Body(attrs) + Be16(a.typ) + Be16(Truncated(|a.val|)) + a.val + Zeros(Padding(|a.val|))
    ensures buf == head + Body(attrs + [a])
  {
    hide Body, Be16;
    BodyAppend(attrs, a);
    assert buf == head + (Body(attrs) + AttrBytes(a));
  }

  // ---- The parser --------------------------------------------------------

  /** The attributes in the bytes behind the header, as far as they fit. */
  function AttrsOf(s: seq<byte>): seq<Attr> {
    if |s| < 4 then []
    else
      var n := U16(s[2], s[3]);
      if 4 + n > |s| then []
      else [Attr(U16(s[0], s[1]), s[4..4 + n])] + AttrsOf(s[Min(4 + n + Padding(n), |s|)..])
  }

  datatype Parsed = Parsed(mtype: u16, tid: Tid, attrs: seq<Attr>)

  /** Where the attributes end: the length field, but never past the buffer. */
  function AttrsEnd(buf: seq<byte>): (end: nat)
    requires |buf| >= 20
    ensures 20 <= end <= |buf|
  {
    Min(20 + U16(buf[2], buf[3]), |buf|)
  }

  function Parse(buf: seq<byte>): Option<Parsed> {
    if |buf| < 20 || buf[0] / 64 != 0 || buf[4..8] != MAGIC then None
    else Some(Parsed(U16(buf[0], buf[1]), buf[8..20], AttrsFrom(buf, 20, AttrsEnd(buf))))
  }

  /** `parse_message`: one pass over the buffer; every value is a slice inside it. */
  method ParseMessage(buf: seq<byte>) returns (res: Option<Parsed>)
    ensures res == Parse(buf)
  {
    hide AttrsOf, AttrsFrom, AttrsEnd, U16, Padding, Be16;
    if |buf| < 20 {
      return None;
    }
    if buf[0] / 64 != 0 {
      return None;
    }
    if buf[4..8] != MAGIC {
      return None;
    }
    var mtype := U16(buf[0], buf[1]);
    var end := AttrsEnd(buf);
    var tid: Tid := buf[8..20];
    var list: seq<Attr> := [];
    var i := 20;
    while i + 4 <= end
      invariant 20 <= i
      invariant AttrsFrom(buf, 20, end) == list + AttrsFrom(buf, i, end)
      decreases end - i
    {
      var typ := U16(buf[i], buf[i + 1]);
      var len := U16(buf[i + 2], buf[i + 3]);
      var vstart := i + 4;
      var vend := vstart + len;
      AttrAt(buf, i, end);
      if vend > end {
        break;
      }
      Moved(list, Attr(typ, buf[vstart..vend]), AttrsFrom(buf, vend + Padding(len), end));
      list := list + [Attr(typ, buf[vstart..vend])];
      i := vend + Padding(len);
    }
    if end < i + 4 {
      TooShort(buf, i, end);
    }
    assert list + [] == list;
    res := Some(Parsed(mtype, tid, list));
  }

  /** The attributes between `i` and `end`. */
  function AttrsFrom(buf: seq<byte>, i: nat, end: nat): seq<Attr>
    requires end <= |buf|
  {
    if i <= end then AttrsOf(buf[i..end]) else []
  }

  lemma Moved<T>(list: seq<T>, a: T, rest: seq<T>)
    ensures list + ([a] + rest) == (list + [a]) + rest
  {
  }

  /** The attribute at `i` as the loop reads it. */
  lemma AttrAt(buf: seq<byte>, i: nat, end: nat)
    requires i + 4 <= end <= |buf|
    ensures var n := U16(buf[i + 2], buf[i + 3]);
            AttrsFrom(buf, i, end) ==
            if i + 4 + n > end then []
            else [Attr(U16(buf[i], buf[i + 1]), buf[i + 4..i + 4 + n])] +
                 AttrsFrom(buf, i + 4 + n + Padding(n), end)
  {
    hide U16, Padding, AttrsOf;
    var s := buf[i..end];
    var n := U16(buf[i + 2], buf[i + 3]);
    assert s[0] == buf[i] && s[1] == buf[i + 1] && s[2] == buf[i + 2] && s[3] == buf[i + 3];
    HeadOf(s);
    if i + 4 + n <= end {
      SubSlice(buf, i, end, 4, 4 + n);
      var skip := Min(4 + n + Padding(n), |s|);
      SubSlice(buf, i, end, skip, |s|);
      assert s[skip..] == s[skip..|s|];
      if skip == |s| {
        NoAttrs(s[skip..]);
      }
    }
  }

  lemma NoAttrs(s: seq<byte>)
    requires |s| < 4
    ensures AttrsOf(s) == []
  {
  }

  lemma HeadOf(s: seq<byte>)
    requires |s| >= 4
    ensures var n := U16(s[2], s[3]);
            AttrsOf(s) ==
            if 4 + n > |s| then []
            else [Attr(U16(s[0], s[1]), s[4..4 + n])] + AttrsOf(s[Min(4 + n + Padding(n), |s|)..])
  {
    hide U16, Padding;
  }

  lemma TooShort(buf: seq<byte>, i: nat, end: nat)
    requires end <= |buf| && end < i + 4
    ensures AttrsFrom(buf, i, end) == []
  {
  }

  /** `get_bytes`: of several attributes with one type the first counts. */
  function First(attrs: seq<Attr>, typ: u16): Option<seq<byte>> {
    if attrs == [] then None
    else if attrs[0].typ == typ then Some(attrs[0].val)
    else First(attrs[1..], typ)
  }

  lemma {:induction false} FirstIs(attrs: seq<Attr>, k: nat)
    requires k < |attrs|
    requires forall j :: 0 <= j < k ==> attrs[j].typ != attrs[k].typ
    ensures First(attrs, attrs[k].typ) == Some(attrs[k].val)
  {
    if k > 0 {
      FirstIs(attrs[1..], k - 1);
    }
  }

  // ---- The parser undoes the builder -------------------------------------

  lemma AttrBack(a: Attr, rest: seq<byte>)
    requires |a.val| < 0x1_0000
    ensures AttrsOf(AttrBytes(a) + rest) == [a] + AttrsOf(rest)
  {
    hide Padding, Be16;
    var n := |a.val|;
    var s := AttrBytes(a) + rest;
    var head := Be16(a.typ) + Be16(n);
    Laid(head, a.val, Zeros(Padding(n)), rest);
    assert AttrBytes(a) == head + a.val + Zeros(Padding(n));
    Fields(a.typ, n);
  }

  lemma Laid(head: seq<byte>, val: seq<byte>, pad: seq<byte>, rest: seq<byte>)
    requires |head| == 4
    ensures var s := head + val + pad + rest;
            && s[0] == head[0] && s[1] == head[1] && s[2] == head[2] && s[3] == head[3]
            && s[4..4 + |val|] == val && s[4 + |val| + |pad|..] == rest
  {
  }

  lemma Fields(hi: u16, lo: u16)
    ensures var h := Be16(hi) + Be16(lo);
            U16(h[0], h[1]) == hi && U16(h[2], h[3]) == lo
  {
  }

  lemma {:induction false} BodyBack(attrs: seq<Attr>)
    requires |Body(attrs)| < 0x1_0000
    ensures AttrsOf(Body(attrs)) == attrs
  {
    if attrs != [] {
      hide AttrsOf, AttrBytes;
      BodyBack(attrs[1..]);
      AttrBack(attrs[0], Body(attrs[1..]));
      assert attrs == [attrs[0]] + attrs[1..];
    }
  }

  /** What the parser returns was in the bytes: writing it again takes no more room. */
  lemma {:induction false} ParsedFits(s: seq<byte>)
    ensures |Body(AttrsOf(s))| <= |s| + 3
  {
    hide U16;
    if |s| >= 4 {
      var n := U16(s[2], s[3]);
      if 4 + n <= |s| {
        var a := Attr(U16(s[0], s[1]), s[4..4 + n]);
        var rest := s[Min(4 + n + Padding(n), |s|)..];
        ParsedFits(rest);
        BodyHead(a, AttrsOf(rest));
        if |rest| == 0 {
          assert AttrsOf(rest) == [];
        }
      }
    }
  }

  /** The attribute `a` stands at `at`, whole, and with its own length in its header. */
  predicate StandsAt(s: seq<byte>, a: Attr, at: nat) {
    && at + 4 + |a.val| <= |s|
    && U16(s[at], s[at + 1]) == a.typ && U16(s[at + 2], s[at + 3]) == |a.val|
    && s[at + 4..at + 4 + |a.val|] == a.val
  }

  lemma StandsInTail(s: seq<byte>, skip: nat, a: Attr, i: nat)
    requires skip <= |s| && StandsAt(s[skip..], a, i)
    ensures StandsAt(s, a, skip + i)
  {
    hide U16;
    SubSlice(s, skip, |s|, i + 4, i + 4 + |a.val|);
    assert s[skip..|s|] == s[skip..];
  }

  lemma FirstStands(s: seq<byte>)
    requires AttrsOf(s) != []
    ensures StandsAt(s, AttrsOf(s)[0], 0)
  {
    hide U16, Padding;
  }

  lemma TailAttrs(s: seq<byte>) returns (skip: nat)
    requires AttrsOf(s) != []
    ensures 4 <= skip <= |s| && AttrsOf(s) == [AttrsOf(s)[0]] + AttrsOf(s[skip..])
  {
    hide U16, Padding;
    var n := U16(s[2], s[3]);
    skip := Min(4 + n + Padding(n), |s|);
  }

  /** On any bytes at all, every attribute returned is a stretch of them. */
  lemma {:induction false} AttrIsSlice(s: seq<byte>, k: nat) returns (at: nat)
    requires k < |AttrsOf(s)|
    ensures 4 * k <= at && StandsAt(s, AttrsOf(s)[k], at)
  {
    hide AttrsOf, StandsAt;
    if k == 0 {
      at := 0;
      FirstStands(s);
    } else {
      var skip := TailAttrs(s);
      var i := AttrIsSlice(s[skip..], k - 1);
      at := skip + i;
      StandsInTail(s, skip, AttrsOf(s)[k], i);
    }
  }

  /** In whatever datagram parses, every attribute is a stretch of it behind the header and within its length. */
  lemma ParsedIsSlice(buf: seq<byte>, k: nat) returns (at: nat)
    requires Parse(buf).Some? && k < |Parse(buf).value.attrs|
    ensures var a := Parse(buf).value.attrs[k];
            && 20 + 4 * k <= at && StandsAt(buf, a, at)
            && at + 4 + |a.val| <= 20 + U16(buf[2], buf[3])
  {
    hide U16, AttrsOf, StandsAt;
    var end := AttrsEnd(buf);
    var i := AttrIsSlice(buf[20..end], k);
    at := 20 + i;
    StandsWithin(buf, 20, end, Parse(buf).value.attrs[k], i);
  }

  lemma StandsWithin(buf: seq<byte>, from: nat, end: nat, a: Attr, i: nat)
    requires from <= end <= |buf| && StandsAt(buf[from..end], a, i)
    ensures StandsAt(buf, a, from + i) && from + i + 4 + |a.val| <= end
  {
    hide U16;
    SubSlice(buf, from, end, i + 4, i + 4 + |a.val|);
  }

  lemma BodyHead(a: Attr, rest: seq<Attr>)
    ensures |Body([a] + rest)| == |AttrBytes(a)| + |Body(rest)|
  {
    hide AttrBytes;
    assert ([a] + rest)[1..] == rest;
  }

  lemma HeaderFields(mtype: u16, length: nat, tid: Tid, body: seq<byte>)
    ensures var m := Header(mtype, length, tid) + body;
            && U16(m[0], m[1]) == mtype && m[0] == mtype / 256
            && U16(m[2], m[3]) == Truncated(length)
            && m[4..8] == MAGIC && m[8..20] == tid
  {
    var m := Header(mtype, length, tid) + body;
    assert m == Be16(mtype) + (Be16(Truncated(length)) + (MAGIC + (tid + body)));
    assert [m[0], m[1]] == Be16(mtype) && [m[2], m[3]] == Be16(Truncated(length));
    assert m[4..8] == MAGIC && m[8..20] == tid;
  }

  /**
   * The parser returns exactly what was built if and only if the type has its two
   * top bits clear and the attributes fit the 16-bit length field.
   */
  lemma MessageBack(mtype: u16, tid: Tid, attrs: seq<Attr>)
    ensures Parse(Message(mtype, tid, attrs)) == Some(Parsed(mtype, tid, attrs))
       <==> mtype < 0x4000 && |Body(attrs)| < 0x1_0000
  {
    hide Header, AttrsOf, Body, U16;
    var body := Body(attrs);
    var m := Message(mtype, tid, attrs);
    HeaderFields(mtype, |body|, tid, body);
    TopBits(mtype);
    var end := AttrsEnd(m);
    assert m[20..end] == body[..end - 20];
    if |body| < 0x1_0000 {
      assert body[..|body|] == body;
      BodyBack(attrs);
    } else if AttrsOf(body[..end - 20]) == attrs {
      ParsedFits(body[..end - 20]);
    }
  }

  lemma TopBits(mtype: u16)
    ensures mtype / 256 / 64 == 0 <==> mtype < 0x4000
  {
  }

  /** The finished message with its integrity tag. */
  function Signed(hmac: Hmac, key: seq<byte>, mtype: u16, tid: Tid, attrs: seq<Attr>): seq<byte> {
    var covered := Covered(mtype, tid, attrs);
    covered + Be16(ATTR_MESSAGE_INTEGRITY) + Be16(20) + hmac(key, covered)
  }

  lemma SignedCovers(hmac: Hmac, key: seq<byte>, mtype: u16, tid: Tid, attrs: seq<Attr>)
    ensures var m := Signed(hmac, key, mtype, tid, attrs);
            |m| >= 44 && m[..|m| - 24] == Covered(mtype, tid, attrs)
  {
    hide Body;
  }

  /** The tag is one more attribute, and the covered header already counts it. */
  lemma SignedIsMessage(hmac: Hmac, key: seq<byte>, mtype: u16, tid: Tid, attrs: seq<Attr>)
    ensures var tag := Attr(ATTR_MESSAGE_INTEGRITY, hmac(key, Covered(mtype, tid, attrs)));
            Signed(hmac, key, mtype, tid, attrs) == Message(mtype, tid, attrs + [tag])
  {
    hide Body, Header, Be16;
    var covered := Covered(mtype, tid, attrs);
    var tag := Attr(ATTR_MESSAGE_INTEGRITY, hmac(key, covered));
    BodyAppend(attrs, tag);
    assert Padding(20) == 0 && Truncated(20) == 20;
    assert AttrBytes(tag) == Be16(ATTR_MESSAGE_INTEGRITY) + Be16(20) + tag.val;
    assert |AttrBytes(tag)| == 24;
    var head := Header(mtype, |Body(attrs)| + 24, tid);
    assert Signed(hmac, key, mtype, tid, attrs) == head + (Body(attrs) + AttrBytes(tag));
  }

  /**
   * A signed message parses back with the tag as its last attribute; the tag covers
   * every byte before its own attribute, and the length field in those bytes is the
   * length of the whole message.
   */
  lemma SignedBack(hmac: Hmac, key: seq<byte>, mtype: u16, tid: Tid, attrs: seq<Attr>)
    requires mtype < 0x4000 && |Body(attrs)| + 24 < 0x1_0000
    ensures var m := Signed(hmac, key, mtype, tid, attrs);
            && |m| == 20 + |Body(attrs)| + 24
            && U16(m[2], m[3]) == |m| - 20
            && Parse(m) == Some(Parsed(mtype, tid,
                 attrs + [Attr(ATTR_MESSAGE_INTEGRITY, hmac(key, m[..|m| - 24]))]))
  {
    hide Body, Header, Be16, U16, Parse;
    var covered := Covered(mtype, tid, attrs);
    var m := Signed(hmac, key, mtype, tid, attrs);
    assert m[..|m| - 24] == covered;
    var tag := Attr(ATTR_MESSAGE_INTEGRITY, hmac(key, covered));
    SignedIsMessage(hmac, key, mtype, tid, attrs);
    BodyAppend(attrs, tag);
    assert Padding(20) == 0;
    MessageBack(mtype, tid, attrs + [tag]);
    HeaderFields(mtype, |Body(attrs + [tag])|, tid, Body(attrs + [tag]));
  }
}
