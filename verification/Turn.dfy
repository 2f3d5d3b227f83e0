/** One TURN allocation bound to the session socket (native/crates/engine/src/turn.rs). */
module Turn {
  import opened Common
  import opened Stun

  const REFRESH_REQ: u16 := 0x0004
  const REFRESH_ERR: u16 := 0x0114
  const CREATE_PERM_REQ: u16 := 0x0008
  const CREATE_PERM_ERR: u16 := 0x0118
  const ALLOCATE_ERR: u16 := 0x0113
  const SEND_INDICATION: u16 := 0x0016
  const DATA_INDICATION: u16 := 0x0017

  const ATTR_USERNAME: u16 := 0x0006
  const ATTR_ERROR_CODE: u16 := 0x0009
  const ATTR_LIFETIME: u16 := 0x000D
  const ATTR_XOR_PEER_ADDRESS: u16 := 0x0012
  const ATTR_DATA: u16 := 0x0013
  const ATTR_REALM: u16 := 0x0014
  const ATTR_NONCE: u16 := 0x0015

  /** Times and durations are whole nanoseconds. */
  const SECOND: nat := 1_000_000_000
  const PERMISSION_REFRESH: nat := 240 * SECOND

  type Key = s: seq<byte> | |s| == 16 witness seq(16, _ => 0)

  /** What the client takes from its libraries: HMAC-SHA1, MD5 and UTF-8 validation. */
  datatype Env = Env(hmac: Hmac, md5: seq<byte> -> Key, utf8: seq<byte> -> bool)

  function LongTermKey(env: Env, username: seq<byte>, realm: seq<byte>, password: seq<byte>): Key {
    env.md5(username + [0x3A] + realm + [0x3A] + password)
  }

  /** `Instant::elapsed`. */
  function Elapsed(now: int, since: int): nat {
    if now < since then 0 else now - since
  }

  /** The fields of an allocation as a value; strings are their UTF-8 bytes. */
  datatype Alloc = Alloc(
    username: seq<byte>, password: seq<byte>, lifetime: nat,
    realm: seq<byte>, nonce: seq<byte>, key: Key,
    lastRefresh: int, permissions: map<Ip, int>)

  // ---- What goes to the server -------------------------------------------

  datatype Out =
    | SendIndication(tid: Tid, peer: Addr, data: seq<byte>)
    | CreatePermission(tid: Tid, peer: Addr, username: seq<byte>, realm: seq<byte>, nonce: seq<byte>, key: Key)
    | Refresh(tid: Tid, username: seq<byte>, realm: seq<byte>, nonce: seq<byte>, key: Key)

  function TypeOf(out: Out): u16 {
    match out
    case SendIndication(_, _, _) => SEND_INDICATION
    case CreatePermission(_, _, _, _, _, _) => CREATE_PERM_REQ
    case Refresh(_, _, _, _, _) => REFRESH_REQ
  }

  function Credentials(username: seq<byte>, realm: seq<byte>, nonce: seq<byte>): seq<Attr> {
    [Attr(ATTR_USERNAME, username), Attr(ATTR_REALM, realm), Attr(ATTR_NONCE, nonce)]
  }

  function AttrsIn(out: Out): seq<Attr> {
    match out
    case SendIndication(tid, peer, data) =>
      [Attr(ATTR_XOR_PEER_ADDRESS, AddrBytes(peer, tid)), Attr(ATTR_DATA, data)]
    case CreatePermission(tid, peer, username, realm, nonce, _) =>
      [Attr(ATTR_XOR_PEER_ADDRESS, AddrBytes(peer, tid))] + Credentials(username, realm, nonce)
    case Refresh(_, username, realm, nonce, _) =>
      [Attr(ATTR_LIFETIME, [0, 0, 2, 88])] + Credentials(username, realm, nonce)
  }

  /** The datagram. */
  function Wire(env: Env, out: Out): seq<byte> {
    if out.SendIndication? then Message(TypeOf(out), out.tid, AttrsIn(out))
    else Signed(env.hmac, out.key, TypeOf(out), out.tid, AttrsIn(out))
  }

  function Wires(env: Env, outs: seq<Out>): seq<seq<byte>> {
    if outs == [] then [] else Wires(env, outs[..|outs| - 1]) + [Wire(env, outs[|outs| - 1])]
  }

  /** The attributes of the datagram, the integrity tag included. */
  function OnTheWire(env: Env, out: Out): seq<Attr> {
    if out.SendIndication? then AttrsIn(out)
    else
      AttrsIn(out) +
      [Attr(ATTR_MESSAGE_INTEGRITY, env.hmac(out.key, Covered(TypeOf(out), out.tid, AttrsIn(out))))]
  }

  /** What a server reads, by the numbers of RFC 5389 and RFC 5766, is what the client meant. */
  predicate Reads(out: Out, m: Parsed) {
    m.tid == out.tid &&
    match out
    case SendIndication(tid, peer, data) =>
      && m.mtype == 0x0016 && PeerIn(m, peer) && First(m.attrs, 0x0013) == Some(data)
    case CreatePermission(tid, peer, username, realm, nonce, _) =>
      && m.mtype == 0x0008 && PeerIn(m, peer) && Known(m.attrs, username, realm, nonce)
    case Refresh(_, username, realm, nonce, _) =>
      && m.mtype == 0x0004 && LifetimeIn(m) == Some(600) && Known(m.attrs, username, realm, nonce)
  }

  predicate PeerIn(m: Parsed, peer: Addr) {
    First(m.attrs, 0x0012).Some? && AddrOf(First(m.attrs, 0x0012).value, m.tid) == Some(peer)
  }

  /** A number with its most significant byte first. */
  function BigEndian(v: seq<byte>): nat {
    if v == [] then 0
    else
      var front: int := BigEndian(v[..|v| - 1]);
      256 * front + v[|v| - 1]
  }

  /** The lifetime asked for, in seconds, as a 32-bit number. */
  function LifetimeIn(m: Parsed): Option<nat> {
    match First(m.attrs, 0x000D)
    case None => None
    case Some(v) => if |v| == 4 then Some(BigEndian(v)) else None
  }

  lemma TenMinutes()
    ensures BigEndian([0, 0, 2, 88]) == 600
  {
    var none: seq<byte> := [];
    assert BigEndian(none) == 0;
    OneByteMore(none, 0);
    OneByteMore([0], 0);
    OneByteMore([0, 0], 2);
    OneByteMore([0, 0, 2], 88);
    assert none + [0] == [0] && [0] + [0] == [0, 0] && [0, 0] + [2] == [0, 0, 2] && [0, 0, 2] + [88] == [0, 0, 2, 88];
  }

  lemma OneByteMore(v: seq<byte>, b: byte)
    ensures BigEndian(v + [b]) == 256 * BigEndian(v) as int + b
  {
    assert (v + [b])[..|v|] == v;
  }

  predicate Known(attrs: seq<Attr>, username: seq<byte>, realm: seq<byte>, nonce: seq<byte>) {
    First(attrs, 0x0006) == Some(username) && First(attrs, 0x0014) == Some(realm) && First(attrs, 0x0015) == Some(nonce)
  }

  /** Every datagram the client sends parses to the request it stands for. */
  lemma WireBack(env: Env, out: Out)
    requires |Body(AttrsIn(out))| + 24 < 0x1_0000
    ensures Parse(Wire(env, out)) == Some(Parsed(TypeOf(out), out.tid, OnTheWire(env, out)))
    ensures Reads(out, Parse(Wire(env, out)).value)
  {
    TenMinutes();
    hide BigEndian, Parse, Wire, Body, AddrBytes, AddrOf, Covered, First, Credentials, Be16;
    WireParses(env, out);
    var attrs := OnTheWire(env, out);
    match out {
      case SendIndication(tid, peer, data) =>
        FirstIs(attrs, 0);
        FirstIs(attrs, 1);
        AddrBack(peer, tid);
      case CreatePermission(tid, peer, username, realm, nonce, _) =>
        CredentialsRead(AttrsIn(out)[0], username, realm, nonce, attrs[|attrs| - 1]);
        AddrBack(peer, tid);
      case Refresh(_, username, realm, nonce, _) =>
        CredentialsRead(AttrsIn(out)[0], username, realm, nonce, attrs[|attrs| - 1]);
    }
  }

  lemma CredentialsRead(head: Attr, username: seq<byte>, realm: seq<byte>, nonce: seq<byte>, tag: Attr)
    requires head.typ !in {ATTR_USERNAME, ATTR_REALM, ATTR_NONCE}
    ensures var attrs := [head] + Credentials(username, realm, nonce) + [tag];
            && First(attrs, head.typ) == Some(head.val)
            && Known(attrs, username, realm, nonce)
  {
    hide First;
    var attrs := [head] + Credentials(username, realm, nonce) + [tag];
    FirstIs(attrs, 0);
    FirstIs(attrs, 1);
    FirstIs(attrs, 2);
    FirstIs(attrs, 3);
  }

  lemma WireParses(env: Env, out: Out)
    requires |Body(AttrsIn(out))| + 24 < 0x1_0000
    ensures Parse(Wire(env, out)) == Some(Parsed(TypeOf(out), out.tid, OnTheWire(env, out)))
  {
    hide Parse, Body, AttrsIn, Message, Signed, Covered;
    if out.SendIndication? {
      MessageBack(TypeOf(out), out.tid, AttrsIn(out));
    } else {
      SignedBack(env.hmac, out.key, TypeOf(out), out.tid, AttrsIn(out));
      var m := Wire(env, out);
      assert m[..|m| - 24] == Covered(TypeOf(out), out.tid, AttrsIn(out)) by {
        SignedCovers(env.hmac, out.key, TypeOf(out), out.tid, AttrsIn(out));
      }
    }
  }

  // ---- The state ---------------------------------------------------------

  function Fresh(a: Alloc, ip: Ip, now: int): bool {
    ip in a.permissions && Elapsed(now, a.permissions[ip]) < PERMISSION_REFRESH
  }

  function Ensured(a: Alloc, peer: Addr, now: int, tid: Tid): (Alloc, seq<Out>) {
    if Fresh(a, peer.ip, now) then (a, [])
    else
      (a.(permissions := a.permissions[peer.ip := now]),
       [CreatePermission(tid, peer, a.username, a.realm, a.nonce, a.key)])
  }

  function Due(a: Alloc, now: int): bool {
    Elapsed(now, a.lastRefresh) >= a.lifetime / 2
  }

  function Ticked(a: Alloc, now: int, tid: Tid): (Alloc, seq<Out>) {
    if Due(a, now) then (a.(lastRefresh := now), [Refresh(tid, a.username, a.realm, a.nonce, a.key)])
    else (a, [])
  }

  /** `get_error_code` */
  function ErrorCode(attrs: seq<Attr>): Option<nat> {
    match First(attrs, ATTR_ERROR_CODE)
    case None => None
    case Some(v) =>
      if |v| < 4 then None
      else
        var hundreds: int, rest: int := v[2], v[3];
        Some(hundreds * 100 + rest)
  }

  /** `get_string` */
  function StringIn(env: Env, attrs: seq<Attr>, typ: u16): Option<seq<byte>> {
    match First(attrs, typ)
    case None => None
    case Some(v) => if env.utf8(v) then Some(v) else None
  }

  /** A stale-nonce reply that names a new nonce. */
  predicate StaleNonce(m: Parsed) {
    && m.mtype in {CREATE_PERM_ERR, REFRESH_ERR, ALLOCATE_ERR}
    && ErrorCode(m.attrs) == Some(438)
    && First(m.attrs, ATTR_NONCE).Some?
  }

  function Renewed(env: Env, a: Alloc, m: Parsed, now: int): Alloc
    requires StaleNonce(m)
  {
    var b := a.(nonce := First(m.attrs, ATTR_NONCE).value, permissions := map[], lastRefresh := now - a.lifetime);
    match StringIn(env, m.attrs, ATTR_REALM)
    case None => b
    case Some(realm) => b.(realm := realm, key := LongTermKey(env, a.username, realm, a.password))
  }

  datatype Relayed = Relayed(peer: Addr, data: seq<byte>)

  /** The payload of a Data Indication. */
  function Unwrapped(m: Parsed): Option<Relayed> {
    if m.mtype != DATA_INDICATION then None
    else
      match First(m.attrs, ATTR_XOR_PEER_ADDRESS)
      case None => None
      case Some(v) =>
        match (AddrOf(v, m.tid), First(m.attrs, ATTR_DATA))
        case (Some(peer), Some(data)) => Some(Relayed(peer, data))
        case _ => None
  }

  function Handled(env: Env, a: Alloc, buf: seq<byte>, now: int): (Alloc, Option<Relayed>) {
    match Parse(buf)
    case None => (a, None)
    case Some(m) => (if StaleNonce(m) then Renewed(env, a, m, now) else a, Unwrapped(m))
  }

  /** A payload the server relays arrives as it was sent, from whom it was sent. */
  lemma DataBack(env: Env, a: Alloc, tid: Tid, peer: Addr, data: seq<byte>, now: int)
    requires var attrs := [Attr(0x0012, AddrBytes(peer, tid)), Attr(0x0013, data)];
             |Body(attrs)| < 0x1_0000
    ensures var attrs := [Attr(0x0012, AddrBytes(peer, tid)), Attr(0x0013, data)];
            Handled(env, a, Message(0x0017, tid, attrs), now) == (a, Some(Relayed(peer, data)))
  {
    hide Parse, Message, Body, First, AddrOf, AddrBytes;
    var attrs := [Attr(0x0012, AddrBytes(peer, tid)), Attr(0x0013, data)];
    MessageBack(0x0017, tid, attrs);
    FirstIs(attrs, 0);
    FirstIs(attrs, 1);
    AddrBack(peer, tid);
  }

  class TurnAllocation {
    const env: Env
    const username: seq<byte>
    const password: seq<byte>
    const lifetime: nat
    var realm: seq<byte>
    var nonce: seq<byte>
    var key: Key
    var lastRefresh: int
    var permissions: map<Ip, int>

    ghost function View(): Alloc
      reads this
    {
      Alloc(username, password, lifetime, realm, nonce, key, lastRefresh, permissions)
    }

    /** `finish_alloc` */
    constructor (env: Env, username: seq<byte>, realm: seq<byte>, nonce: seq<byte>, password: seq<byte>,
                 lifetimeSecs: nat, now: int)
      ensures this.env == env
      ensures View() == Start(env, username, realm, nonce, password, lifetimeSecs, now)
    {
      this.env, this.username, this.realm, this.nonce, this.password := env, username, realm, nonce, password;
      key := LongTermKey(env, username, realm, password);
      lifetime := Max(lifetimeSecs, 60) * SECOND;
      lastRefresh := now;
      permissions := map[];
    }

    /** `send_via_relay`: the datagrams for the server, in order. */
    method SendViaRelay(peer: Addr, data: seq<byte>, now: int, tids: (Tid, Tid)) returns (out: seq<seq<byte>>)
      modifies this
      ensures var (a, asked) := Ensured(old(View()), peer, now, tids.0);
              View() == a && out == Wires(env, asked) + [Wire(env, SendIndication(tids.1, peer, data))]
    {
      hide Message, Signed, Covered, AddrBytes, Body, Header, AttrBytes, Be16, MsgBuilder.Valid;
      out := EnsurePermission(peer, now, tids.0);
      var tid := tids.1;
      var msg := new MsgBuilder(SEND_INDICATION, tid);
      msg.AppendAddr(ATTR_XOR_PEER_ADDRESS, peer, tid);
      msg.AppendBytes(ATTR_DATA, data);
      assert msg.attrs == AttrsIn(SendIndication(tid, peer, data));
      var bytes := msg.Finish();
      out := out + [bytes];
    }

    method EnsurePermission(peer: Addr, now: int, tid: Tid) returns (out: seq<seq<byte>>)
      modifies this`permissions
      ensures var (a, asked) := Ensured(old(View()), peer, now, tid);
              View() == a && out == Wires(env, asked)
    {
      hide Message, Signed, Covered, AddrBytes, Body, Header, AttrBytes, Be16, MsgBuilder.Valid;
      if peer.ip in permissions && Elapsed(now, permissions[peer.ip]) < PERMISSION_REFRESH {
        return [];
      }
      permissions := permissions[peer.ip := now];
      var msg := new MsgBuilder(CREATE_PERM_REQ, tid);
      msg.AppendAddr(ATTR_XOR_PEER_ADDRESS, peer, tid);
      AppendCredentials(msg);
      ghost var request := CreatePermission(tid, peer, username, realm, nonce, key);
      assert msg.attrs == AttrsIn(request);
      var bytes := msg.FinishWithIntegrity(env.hmac, key);
      assert Wires(env, [request]) == [Wire(env, request)];
      out := [bytes];
    }

    method AppendCredentials(msg: MsgBuilder)
      requires msg.Valid()
      modifies msg
      ensures msg.Valid() && msg.attrs == old(msg.attrs) + Credentials(username, realm, nonce)
    {
      msg.AppendBytes(ATTR_USERNAME, username);
      msg.AppendBytes(ATTR_REALM, realm);
      msg.AppendBytes(ATTR_NONCE, nonce);
    }

    /** `tick` */
    method Tick(now: int, tid: Tid) returns (out: seq<seq<byte>>)
      modifies this`lastRefresh
      ensures var (a, asked) := Ticked(old(View()), now, tid);
              View() == a && out == Wires(env, asked)
    {
      hide Message, Signed, Covered, AddrBytes, Body, Header, AttrBytes, Be16, MsgBuilder.Valid;
      if Elapsed(now, lastRefresh) < lifetime / 2 {
        return [];
      }
      lastRefresh := now;
      var msg := new MsgBuilder(REFRESH_REQ, tid);
      msg.AppendBytes(ATTR_LIFETIME, [0, 0, 2, 88]);
      AppendCredentials(msg);
      ghost var request := Refresh(tid, username, realm, nonce, key);
      assert msg.attrs == AttrsIn(request);
      var bytes := msg.FinishWithIntegrity(env.hmac, key);
      assert Wires(env, [request]) == [Wire(env, request)];
      out := [bytes];
    }

    /** `handle_server_packet` */
    method HandleServerPacket(buf: seq<byte>, now: int) returns (res: Option<Relayed>)
      modifies this
      ensures (View(), res) == Handled(env, old(View()), buf, now)
    {
      hide Parse, First, AddrOf;
      var parsed := ParseMessage(buf);
      if parsed.None? {
        return None;
      }
      var m := parsed.value;
      if m.mtype == DATA_INDICATION {
        var val := First(m.attrs, ATTR_XOR_PEER_ADDRESS);
        if val.None? {
          return None;
        }
        var peer := AddrOf(val.value, m.tid);
        var data := First(m.attrs, ATTR_DATA);
        if peer.None? || data.None? {
          return None;
        }
        res := Some(Relayed(peer.value, data.value));
      } else if m.mtype == CREATE_PERM_ERR || m.mtype == REFRESH_ERR || m.mtype == ALLOCATE_ERR {
        var code := ErrorCode(m.attrs);
        if code == Some(438) {
          var given := First(m.attrs, ATTR_NONCE);
          if given.Some? {
            nonce := given.value;
            var named := StringIn(env, m.attrs, ATTR_REALM);
            if named.Some? {
              key := LongTermKey(env, username, named.value, password);
              realm := named.value;
            }
            permissions := map[];
            lastRefresh := now - lifetime;
          }
        }
        res := None;
      } else {
        res := None;
      }
    }
  }

  function Start(env: Env, username: seq<byte>, realm: seq<byte>, nonce: seq<byte>, password: seq<byte>,
                 lifetimeSecs: nat, now: int): Alloc
  {
    Alloc(username, password, Max(lifetimeSecs, 60) * SECOND, realm, nonce,
          LongTermKey(env, username, realm, password), now, map[])
  }
}
