/** The client's datagrams byte by byte, as RFC 5389 and RFC 5766 lay them out, and what it makes of a server's. */
module TurnWire {
  import opened Common
  import opened Stun
  import opened Turn
  import opened TurnRuns

  // ---- Exclusive or, bit by bit ------------------------------------------

  function Bit(x: nat, i: nat): nat {
    x / Pow2(i) % 2
  }

  /** `r` is `a` with the bits of `mask` flipped. */
  predicate Flipped(n: nat, r: nat, a: nat, mask: nat) {
    forall i :: 0 <= i < n ==> Bit(r, i) == (Bit(a, i) + Bit(mask, i)) % 2
  }

  lemma {:induction false} BitNext(x: nat, i: nat)
    ensures Bit(x, i + 1) == Bit(x / 2, i)
  {
    var p := Pow2(i);
    DivDiv(x, p);
  }

  lemma DivDiv(x: nat, p: nat)
    requires p > 0
    ensures x / (2 * p) == x / 2 / p
  {
    var q, r := x / 2 / p, x / 2 % p;
    assert x / 2 == q * p + r;
    assert x == (2 * p) * q + (2 * r + x % 2);
    DivModOf(2 * p, q, 2 * r + x % 2);
  }

  lemma BitZero(x: nat)
    ensures Bit(x, 0) == x % 2
  {
  }

  lemma LastBit(q: nat, a: nat, b: nat)
    ensures (2 * q + (a + b) % 2) % 2 == (a % 2 + b % 2) % 2 && (2 * q + (a + b) % 2) / 2 == q
  {
  }

  lemma {:induction false} XorFlips(n: nat, a: nat, b: nat, i: nat)
    requires i < n
    ensures Bit(Xor(n, a, b), i) == (Bit(a, i) + Bit(b, i)) % 2
  {
    hide Bit;
    var q := Xor(n - 1, a / 2, b / 2);
    LastBit(q, a, b);
    if i == 0 {
      BitZero(Xor(n, a, b));
      BitZero(a);
      BitZero(b);
    } else {
      BitNext(Xor(n, a, b), i - 1);
      BitNext(a, i - 1);
      BitNext(b, i - 1);
      XorFlips(n - 1, a / 2, b / 2, i - 1);
    }
  }

  lemma XorIsFlip(n: nat, a: nat, b: nat)
    ensures Flipped(n, Xor(n, a, b), a, b)
  {
    hide Xor, Bit;
    forall i | 0 <= i < n
      ensures Bit(Xor(n, a, b), i) == (Bit(a, i) + Bit(b, i)) % 2
    {
      XorFlips(n, a, b, i);
    }
  }

  predicate FlippedBytes(r: seq<byte>, s: seq<byte>, mask: seq<byte>) {
    |r| == |s| == |mask| && forall k :: 0 <= k < |s| ==> Flipped(8, r[k], s[k], mask[k])
  }

  lemma XorBytesFlip(s: seq<byte>, mask: seq<byte>)
    requires |s| == |mask|
    ensures FlippedBytes(XorBytes(s, mask), s, mask)
  {
    hide Xor, Flipped;
    forall k | 0 <= k < |s|
      ensures Flipped(8, XorBytes(s, mask)[k], s[k], mask[k])
    {
      XorIsFlip(8, s[k], mask[k]);
    }
  }

  // ---- Layout ------------------------------------------------------------

  function Pair(s: seq<byte>, i: nat): nat
    requires i + 2 <= |s|
  {
    var hi: int := s[i];
    256 * hi + s[i + 1]
  }

  /** Section 15.2 of RFC 5389: a zero, the family, the port and the address with the magic cookie's bits flipped. */
  predicate IsXorAddress(v: seq<byte>, a: Addr, tid: Tid) {
    && |v| >= 4 && v[0] == 0 && Flipped(16, Pair(v, 2), a.port, 0x2112)
    && match a.ip
       case V4(o) => v[1] == 1 && FlippedBytes(v[4..], o, [0x21, 0x12, 0xA4, 0x42])
       case V6(o) => v[1] == 2 && FlippedBytes(v[4..], o, [0x21, 0x12, 0xA4, 0x42] + tid)
  }

  lemma AddressIsFlipped(a: Addr, tid: Tid)
    ensures IsXorAddress(AddrBytes(a, tid), a, tid)
  {
    hide Xor, XorBytes, Flipped, FlippedBytes;
    var v := AddrBytes(a, tid);
    XorIsFlip(16, a.port, 0x2112);
    assert Pair(v, 2) == XorPort(a.port);
    match a.ip
    case V4(o) =>
      XorBytesFlip(o, [0x21, 0x12, 0xA4, 0x42]);
      assert v[4..] == XorBytes(o, MAGIC);
    case V6(o) =>
      XorBytesFlip(o, [0x21, 0x12, 0xA4, 0x42] + tid);
      assert v[4..] == XorBytes(o, MAGIC + tid);
  }

  /** The attributes one after the other: type, length, value, zeros up to the next multiple of four. */
  predicate Laid(s: seq<byte>, attrs: seq<Attr>) {
    if attrs == [] then s == []
    else
      var a := attrs[0];
      var n := |a.val|;
      var next := 4 + (n + 3) / 4 * 4;
      && next <= |s| && Pair(s, 0) == a.typ && Pair(s, 2) == n && s[4..4 + n] == a.val
      && (forall k :: 4 + n <= k < next ==> s[k] == 0)
      && Laid(s[next..], attrs[1..])
  }

  /** Section 6 of RFC 5389. */
  predicate IsStun(m: seq<byte>, mtype: nat, tid: Tid, attrs: seq<Attr>) {
    && |m| >= 20 && Pair(m, 0) == mtype && Pair(m, 2) == |m| - 20
    && m[4..8] == [0x21, 0x12, 0xA4, 0x42] && m[8..20] == tid
    && Laid(m[20..], attrs)
  }

  lemma OneLaid(a: Attr, rest: seq<byte>)
    requires |a.val| < 0x1_0000
    ensures var s, n := AttrBytes(a) + rest, |a.val|;
            var next := 4 + (n + 3) / 4 * 4;
            && next == |AttrBytes(a)| && s[next..] == rest
            && Pair(s, 0) == a.typ && Pair(s, 2) == n && s[4..4 + n] == a.val
            && forall k :: 4 + n <= k < next ==> s[k] == 0
  {
  }

  lemma {:induction false} BodyIsLaid(attrs: seq<Attr>)
    requires |Body(attrs)| < 0x1_0000
    ensures Laid(Body(attrs), attrs)
  {
    hide AttrBytes;
    if attrs != [] {
      BodyIsLaid(attrs[1..]);
      OneLaid(attrs[0], Body(attrs[1..]));
    }
  }

  lemma MessageIsStun(mtype: u16, tid: Tid, attrs: seq<Attr>)
    requires |Body(attrs)| < 0x1_0000
    ensures IsStun(Message(mtype, tid, attrs), mtype, tid, attrs)
  {
    hide Body, Laid;
    BodyIsLaid(attrs);
    var m := Message(mtype, tid, attrs);
    assert m[20..] == Body(attrs);
    assert m[4..8] == MAGIC && m[8..20] == tid;
  }

  // ---- What the client sends ---------------------------------------------

  /** Section 15.4 of RFC 5389: the last attribute is the HMAC of all that stands before it. */
  predicate Sealed(env: Env, m: seq<byte>, key: Key) {
    && |m| >= 24
    && m[|m| - 24..] == [0, 8, 0, 20] + env.hmac(key, m[..|m| - 24])
  }

  /** The attributes of a request or indication by their numbers. */
  predicate Requests(out: Out, mtype: nat, attrs: seq<Attr>) {
    match out
    case SendIndication(tid, peer, data) =>
      && mtype == 0x0016 && |attrs| == 2
      && attrs[0].typ == 0x0012 && IsXorAddress(attrs[0].val, peer, tid) && attrs[1] == Attr(0x0013, data)
    case CreatePermission(tid, peer, username, realm, nonce, _) =>
      && mtype == 0x0008 && |attrs| == 5
      && attrs[0].typ == 0x0012 && IsXorAddress(attrs[0].val, peer, tid) && attrs[1..4] == Named(username, realm, nonce)
    case Refresh(_, username, realm, nonce, _) =>
      && mtype == 0x0004 && |attrs| == 5
      && attrs[0] == Attr(0x000D, [0x00, 0x00, 0x02, 0x58]) && attrs[1..4] == Named(username, realm, nonce)
  }

  function Named(username: seq<byte>, realm: seq<byte>, nonce: seq<byte>): seq<Attr> {
    [Attr(0x0006, username), Attr(0x0014, realm), Attr(0x0015, nonce)]
  }

  /** Every datagram is laid out as the standards say, and a request is sealed with its key. */
  lemma WireIsStun(env: Env, out: Out)
    requires |Body(AttrsIn(out))| + 24 < 0x1_0000
    ensures var m, attrs := Wire(env, out), OnTheWire(env, out);
            && IsStun(m, TypeOf(out), out.tid, attrs) && Requests(out, TypeOf(out), attrs)
            && (!out.SendIndication? ==> Sealed(env, m, out.key))
  {
    hide Body, AddrBytes, IsXorAddress, Message, Covered, Laid;
    assert Requests(out, TypeOf(out), OnTheWire(env, out)) by {
      match out
      case SendIndication(tid, peer, _) => AddressIsFlipped(peer, tid);
      case CreatePermission(tid, peer, _, _, _, _) => AddressIsFlipped(peer, tid);
      case Refresh(_, _, _, _, _) =>
    }
    hide AttrsIn, Requests;
    var attrs := AttrsIn(out);
    if out.SendIndication? {
      MessageIsStun(TypeOf(out), out.tid, attrs);
    } else {
      var m := Wire(env, out);
      SignedIsMessage(env.hmac, out.key, TypeOf(out), out.tid, attrs);
      SignedCovers(env.hmac, out.key, TypeOf(out), out.tid, attrs);
      BodyAppend(attrs, OnTheWire(env, out)[|attrs|]);
      assert |AttrBytes(OnTheWire(env, out)[|attrs|])| == 24;
      MessageIsStun(TypeOf(out), out.tid, OnTheWire(env, out));
    }
  }

  /** In every run every request carries the user's name and the key of section 15.4: MD5 of name:realm:password. */
  lemma RequestsAreKeyed(env: Env, username: seq<byte>, realm: seq<byte>, nonce: seq<byte>, password: seq<byte>,
                         lifetimeSecs: nat, start: int, events: seq<Timed>, k: nat)
    requires Clocked(start, events)
    requires k < |Run(env, Start(env, username, realm, nonce, password, lifetimeSecs, start), events).1|
    ensures var out := Run(env, Start(env, username, realm, nonce, password, lifetimeSecs, start), events).1[k].out;
            !out.SendIndication? ==>
              && out.username == username
              && out.key == env.md5(username + [':' as int] + out.realm + [':' as int] + password)
  {
    RunKeeps(env, username, realm, nonce, password, lifetimeSecs, start, events);
    var a := Start(env, username, realm, nonce, password, lifetimeSecs, start);
    SameUserAsStart(env, a, events);
    var (b, log) := Run(env, a, events);
    assert Authentic(env, b, log[k].out) by {
      hide Run, Permitted, Recorded;
    }
  }

  lemma SameUserAsStart(env: Env, a: Alloc, events: seq<Timed>)
    ensures SameUser(a, Run(env, a, events).0)
  {
    hide Parse, StaleNonce, StringIn, First, LongTermKey, Unwrapped;
  }

  // ---- What it makes of a server's errors --------------------------------

  /** An error response: class and number in the third and fourth byte of ERROR-CODE (section 15.6 of RFC 5389). */
  function ErrorReply(mtype: u16, tid: Tid, hundreds: byte, rest: byte, reason: seq<byte>, realm: seq<byte>,
                      nonce: seq<byte>): seq<byte>
  {
    Message(mtype, tid, [Attr(0x0009, [0, 0, hundreds, rest] + reason), Attr(0x0014, realm), Attr(0x0015, nonce)])
  }

  lemma ErrorParses(mtype: u16, tid: Tid, hundreds: byte, rest: byte, reason: seq<byte>, realm: seq<byte>,
                    nonce: seq<byte>)
    requires mtype in {0x0113, 0x0114, 0x0118}
    requires |ErrorReply(mtype, tid, hundreds, rest, reason, realm, nonce)| < 0x1_0000
    ensures var m := Parse(ErrorReply(mtype, tid, hundreds, rest, reason, realm, nonce));
            && m.Some? && m.value.mtype == mtype && ErrorCode(m.value.attrs) == Some(100 * hundreds as int + rest)
            && First(m.value.attrs, 0x0014) == Some(realm) && First(m.value.attrs, 0x0015) == Some(nonce)
  {
    hide Parse, Body, First, Header;
    var attrs := [Attr(0x0009, [0, 0, hundreds, rest] + reason), Attr(0x0014, realm), Attr(0x0015, nonce)];
    MessageBack(mtype, tid, attrs);
    FirstIs(attrs, 0);
    FirstIs(attrs, 1);
    FirstIs(attrs, 2);
  }

  /** Error 438 with a realm and a nonce: both are adopted with their key, and everything is asked for anew. */
  lemma StaleReplyAdopted(env: Env, a: Alloc, mtype: u16, tid: Tid, reason: seq<byte>, realm: seq<byte>,
                          nonce: seq<byte>, now: int)
    requires mtype in {0x0113, 0x0114, 0x0118} && |ErrorReply(mtype, tid, 4, 38, reason, realm, nonce)| < 0x1_0000
    requires env.utf8(realm)
    ensures Handled(env, a, ErrorReply(mtype, tid, 4, 38, reason, realm, nonce), now) ==
            (a.(realm := realm, nonce := nonce, key := env.md5(a.username + [58] + realm + [58] + a.password),
                permissions := map[], lastRefresh := now - a.lifetime), None)
  {
    hide Parse, First, ErrorReply, ErrorCode, Unwrapped;
    ErrorParses(mtype, tid, 4, 38, reason, realm, nonce);
    var m := Parse(ErrorReply(mtype, tid, 4, 38, reason, realm, nonce)).value;
    NoPayload(m);
  }

  lemma NoPayload(m: Parsed)
    requires m.mtype != 0x0017
    ensures Unwrapped(m) == None
  {
  }

  /** Any other error changes nothing. */
  lemma OtherErrorsIgnored(env: Env, a: Alloc, mtype: u16, tid: Tid, hundreds: byte, rest: byte, reason: seq<byte>,
                           realm: seq<byte>, nonce: seq<byte>, now: int)
    requires mtype in {0x0113, 0x0114, 0x0118} && 100 * hundreds as int + rest != 438
    requires |ErrorReply(mtype, tid, hundreds, rest, reason, realm, nonce)| < 0x1_0000
    ensures Handled(env, a, ErrorReply(mtype, tid, hundreds, rest, reason, realm, nonce), now) == (a, None)
  {
    hide Parse, First, ErrorReply, ErrorCode, Unwrapped;
    ErrorParses(mtype, tid, hundreds, rest, reason, realm, nonce);
    NoPayload(Parse(ErrorReply(mtype, tid, hundreds, rest, reason, realm, nonce)).value);
  }
}
