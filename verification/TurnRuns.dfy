/** Whole runs of a TURN allocation: relayed sends, ticks and server packets over time. */
module TurnRuns {
  import opened Common
  import opened Stun
  import opened Turn

  datatype Event =
    | Send(peer: Addr, data: seq<byte>, tids: (Tid, Tid))
    | Tick(tid: Tid)
    | Packet(buf: seq<byte>)

  datatype Timed = Timed(at: int, event: Event)

  /** A datagram that left for the server. */
  datatype Sent = Sent(at: int, out: Out)

  function Stamp(at: int, outs: seq<Out>): (log: seq<Sent>)
    ensures |log| == |outs|
  {
    seq(|outs|, i requires 0 <= i < |outs| => Sent(at, outs[i]))
  }

  /** One call of the client. */
  function Step(env: Env, a: Alloc, e: Timed): (Alloc, seq<Out>) {
    match e.event
    case Send(peer, data, tids) =>
      var (b, asked) := Ensured(a, peer, e.at, tids.0);
      (b, asked + [SendIndication(tids.1, peer, data)])
    case Tick(tid) => Ticked(a, e.at, tid)
    case Packet(buf) => (Handled(env, a, buf, e.at).0, [])
  }

  /** The state after the events and every datagram sent on the way. */
  function Run(env: Env, a: Alloc, events: seq<Timed>): (Alloc, seq<Sent>) {
    if events == [] then (a, [])
    else
      var (b, log) := Run(env, a, events[..|events| - 1]);
      var e := events[|events| - 1];
      var (c, outs) := Step(env, b, e);
      (c, log + Stamp(e.at, outs))
  }

  /** Time never runs backwards and starts no earlier than `from`. */
  predicate Clocked(from: int, events: seq<Timed>) {
    && (events != [] ==> from <= events[0].at)
    && forall i, j :: 0 <= i < j < |events| ==> events[i].at <= events[j].at
  }

  predicate KeyFits(env: Env, a: Alloc) {
    a.key == LongTermKey(env, a.username, a.realm, a.password)
  }

  /** The request carries this user's name and is signed with the key for its own realm. */
  predicate Authentic(env: Env, a: Alloc, out: Out) {
    !out.SendIndication? ==>
      && out.username == a.username
      && out.key == LongTermKey(env, a.username, out.realm, a.password)
  }

  /** `s` asks for a permission for `ip`, at time `t`. */
  predicate Asks(s: Sent, ip: Ip, t: int) {
    s.out.CreatePermission? && s.out.peer.ip == ip && s.at == t
  }

  ghost predicate AskedAt(log: seq<Sent>, ip: Ip, t: int) {
    exists j :: 0 <= j < |log| && Asks(log[j], ip, t)
  }

  /** An earlier datagram asked for the permission entry `k` needs, less than 240 s before it. */
  ghost predicate Permitted(log: seq<Sent>, k: nat)
    requires k < |log|
  {
    log[k].out.SendIndication? ==>
      exists j :: 0 <= j < k
        && Asks(log[j], log[k].out.peer.ip, log[j].at)
        && log[j].at <= log[k].at < log[j].at + 240_000_000_000
  }

  ghost predicate Good(env: Env, a: Alloc, log: seq<Sent>) {
    forall k :: 0 <= k < |log| ==> Permitted(log, k) && Authentic(env, a, log[k].out)
  }

  /** Every recorded permission was really asked for, and not in the future. */
  ghost predicate Recorded(a: Alloc, log: seq<Sent>, now: int) {
    forall ip :: ip in a.permissions ==>
      a.permissions[ip] <= now && AskedAt(log, ip, a.permissions[ip])
  }

  lemma AskedStays(log: seq<Sent>, more: seq<Sent>, ip: Ip, t: int)
    requires AskedAt(log, ip, t)
    ensures AskedAt(log + more, ip, t)
  {
    var j :| 0 <= j < |log| && Asks(log[j], ip, t);
    assert (log + more)[j] == log[j];
  }

  lemma RecordedStays(a: Alloc, log: seq<Sent>, more: seq<Sent>, now: int, later: int)
    requires Recorded(a, log, now) && now <= later
    ensures Recorded(a, log + more, later)
  {
    hide AskedAt;
    forall ip | ip in a.permissions
      ensures a.permissions[ip] <= later && AskedAt(log + more, ip, a.permissions[ip])
    {
      AskedStays(log, more, ip, a.permissions[ip]);
    }
  }

  lemma PermittedStays(log: seq<Sent>, more: seq<Sent>, k: nat)
    requires k < |log| && Permitted(log, k)
    ensures Permitted(log + more, k)
  {
    var all := log + more;
    assert all[k] == log[k];
    if log[k].out.SendIndication? {
      var j :| 0 <= j < k && Asks(log[j], log[k].out.peer.ip, log[j].at)
               && log[j].at <= log[k].at < log[j].at + 240_000_000_000;
      assert all[j] == log[j];
    }
  }

  /** One more datagram. */
  lemma GoodOneMore(env: Env, a: Alloc, log: seq<Sent>, s: Sent)
    requires Good(env, a, log)
    requires Permitted(log + [s], |log|) && Authentic(env, a, s.out)
    ensures Good(env, a, log + [s])
  {
    hide Permitted, Authentic;
    var all := log + [s];
    forall k | 0 <= k < |all|
      ensures Permitted(all, k) && Authentic(env, a, all[k].out)
    {
      if k < |log| {
        assert Permitted(log, k) && Authentic(env, a, log[k].out);
        PermittedStays(log, [s], k);
      }
    }
  }

  predicate SameUser(a: Alloc, b: Alloc) {
    a.username == b.username && a.password == b.password
  }

  ghost predicate Inv(env: Env, a: Alloc, log: seq<Sent>, now: int) {
    KeyFits(env, a) && Recorded(a, log, now) && Good(env, a, log)
  }

  /** Asking when there is no fresh permission: afterwards there is one, and it is on record. */
  lemma EnsuredKeeps(env: Env, a: Alloc, log: seq<Sent>, now: int, peer: Addr, at: int, tid: Tid)
    requires Inv(env, a, log, now) && now <= at
    ensures var (b, asked) := Ensured(a, peer, at, tid);
            && SameUser(a, b)
            && Inv(env, b, log + Stamp(at, asked), at)
            && peer.ip in b.permissions && at - b.permissions[peer.ip] < 240_000_000_000
  {
    hide Good, Permitted, LongTermKey;
    var (b, asked) := Ensured(a, peer, at, tid);
    if Fresh(a, peer.ip, at) {
      assert log + Stamp(at, asked) == log;
      assert log + [] == log;
      RecordedStays(a, log, [], now, at);
    } else {
      var s := Sent(at, asked[0]);
      assert Stamp(at, asked) == [s];
      RequestIsGood(env, a, log, s);
      assert Recorded(b, log + [s], at) by {
        RecordedStays(a, log, [s], now, at);
        assert Asks((log + [s])[|log|], peer.ip, at);
      }
      GoodFor(env, a, b, log + [s]);
    }
  }

  lemma RequestIsGood(env: Env, a: Alloc, log: seq<Sent>, s: Sent)
    requires Good(env, a, log) && !s.out.SendIndication? && Authentic(env, a, s.out)
    ensures Good(env, a, log + [s])
  {
    hide Good, Authentic;
    GoodOneMore(env, a, log, s);
  }

  lemma GoodFor(env: Env, a: Alloc, b: Alloc, log: seq<Sent>)
    requires Good(env, a, log) && SameUser(a, b)
    ensures Good(env, b, log)
  {
    hide Permitted;
    forall k | 0 <= k < |log|
      ensures Permitted(log, k) && Authentic(env, b, log[k].out)
    {
      assert Authentic(env, a, log[k].out);
    }
  }

  /** A send indication under a recorded, fresh permission. */
  lemma SendKeeps(env: Env, b: Alloc, log: seq<Sent>, at: int, s: Sent)
    requires Inv(env, b, log, at) && s.at == at && s.out.SendIndication?
    requires s.out.peer.ip in b.permissions && at - b.permissions[s.out.peer.ip] < 240_000_000_000
    ensures Inv(env, b, log + [s], at)
  {
    hide Good, LongTermKey;
    var ip := s.out.peer.ip;
    var t := b.permissions[ip];
    assert AskedAt(log, ip, t);
    var j :| 0 <= j < |log| && Asks(log[j], ip, t);
    var all := log + [s];
    assert all[j] == log[j] && all[|log|] == s;
    assert Permitted(all, |log|);
    GoodOneMore(env, b, log, s);
    RecordedStays(b, log, [s], at, at);
  }

  lemma StepKeeps(env: Env, a: Alloc, log: seq<Sent>, now: int, e: Timed)
    requires Inv(env, a, log, now) && now <= e.at
    ensures var (b, outs) := Step(env, a, e);
            SameUser(a, b) && Inv(env, b, log + Stamp(e.at, outs), e.at)
  {
    match e.event
    case Send(peer, data, tids) =>
      hide Inv, Ensured, AddrBytes;
      var (b, asked) := Ensured(a, peer, e.at, tids.0);
      EnsuredKeeps(env, a, log, now, peer, e.at, tids.0);
      var s := Sent(e.at, SendIndication(tids.1, peer, data));
      SendKeeps(env, b, log + Stamp(e.at, asked), e.at, s);
      assert Stamp(e.at, asked + [s.out]) == Stamp(e.at, asked) + [s];
      assert log + Stamp(e.at, asked + [s.out]) == log + Stamp(e.at, asked) + [s];
    case Tick(tid) =>
      TickKeeps(env, a, log, now, e.at, tid);
    case Packet(buf) =>
      hide Good, LongTermKey, Parse, StaleNonce, Unwrapped, AskedAt, StringIn;
      assert log + [] == log;
      RecordedStays(a, log, [], now, e.at);
      var b := Handled(env, a, buf, e.at).0;
      GoodFor(env, a, b, log);
  }

  lemma TickKeeps(env: Env, a: Alloc, log: seq<Sent>, now: int, at: int, tid: Tid)
    requires Inv(env, a, log, now) && now <= at
    ensures var (b, outs) := Ticked(a, at, tid);
            SameUser(a, b) && Inv(env, b, log + Stamp(at, outs), at)
  {
    hide Good, LongTermKey, AskedAt;
    var (b, outs) := Ticked(a, at, tid);
    var more := Stamp(at, outs);
    RecordedStays(a, log, more, now, at);
    if outs == [] {
      assert log + more == log;
    } else {
      assert more == [Sent(at, outs[0])];
      RequestIsGood(env, a, log, more[0]);
    }
    GoodFor(env, a, b, log + more);
  }

  /**
   * However the calls interleave, every Send Indication leaves less than 240 s after a
   * CreatePermission for its peer's address; every request is signed with the long-term
   * key of the realm it carries; and the stored key is always that of the stored realm.
   */
  lemma {:induction false} RunKeeps(env: Env, username: seq<byte>, realm: seq<byte>, nonce: seq<byte>,
                                    password: seq<byte>, lifetimeSecs: nat, start: int, events: seq<Timed>)
    requires Clocked(start, events)
    ensures var a := Start(env, username, realm, nonce, password, lifetimeSecs, start);
            var (b, log) := Run(env, a, events);
            && SameUser(a, b)
            && Inv(env, b, log, if events == [] then start else events[|events| - 1].at)
  {
    var a := Start(env, username, realm, nonce, password, lifetimeSecs, start);
    if events != [] {
      hide Inv, Step;
      var front := events[..|events| - 1];
      RunKeeps(env, username, realm, nonce, password, lifetimeSecs, start, front);
      var (b, log) := Run(env, a, front);
      StepKeeps(env, b, log, if front == [] then start else front[|front| - 1].at, events[|events| - 1]);
    }
  }

  // ---- Which credentials are in use --------------------------------------

  /** The realm and nonce of the last stale-nonce reply, or those it started with. */
  function Adopted(env: Env, realm: seq<byte>, nonce: seq<byte>, events: seq<Timed>): (seq<byte>, seq<byte>) {
    if events == [] then (realm, nonce)
    else
      var before := Adopted(env, realm, nonce, events[..|events| - 1]);
      var e := events[|events| - 1].event;
      if !e.Packet? then before
      else
        match Parse(e.buf)
        case None => before
        case Some(m) =>
          if !StaleNonce(m) then before
          else
            (match StringIn(env, m.attrs, ATTR_REALM) case None => before.0 case Some(named) => named,
             First(m.attrs, ATTR_NONCE).value)
  }

  lemma {:induction false} RunAdopts(env: Env, a: Alloc, events: seq<Timed>)
    ensures var b := Run(env, a, events).0;
            (b.realm, b.nonce) == Adopted(env, a.realm, a.nonce, events)
  {
    if events != [] {
      hide Parse, StaleNonce, StringIn, First, LongTermKey, Unwrapped;
      RunAdopts(env, a, events[..|events| - 1]);
    }
  }

  /**
   * A stale-nonce reply makes the very next send and the very next tick ask again, with the
   * nonce of that reply.
   */
  lemma StaleNonceAsksAgain(env: Env, a: Alloc, buf: seq<byte>, at: int, e: Timed)
    requires at <= e.at && !e.event.Packet?
    requires Parse(buf).Some? && StaleNonce(Parse(buf).value)
    ensures var b := Handled(env, a, buf, at).0;
            var outs := Step(env, b, e).1;
            && outs != [] && !outs[0].SendIndication?
            && Some(outs[0].nonce) == First(Parse(buf).value.attrs, ATTR_NONCE)
  {
    hide Parse, StringIn, First, LongTermKey, Unwrapped;
  }

  // ---- How often it asks -------------------------------------------------

  /** By the history alone: when a permission for `ip` was last asked for, no stale-nonce reply having come since. */
  function LastPermission(env: Env, a: Alloc, events: seq<Timed>, ip: Ip): Option<int> {
    if events == [] then None
    else
      var front, e := events[..|events| - 1], events[|events| - 1];
      match e.event
      case Send(peer, _, _) =>
        if peer.ip == ip && Step(env, Run(env, a, front).0, e).1[0].CreatePermission? then Some(e.at)
        else LastPermission(env, a, front, ip)
      case Tick(_) => LastPermission(env, a, front, ip)
      case Packet(buf) =>
        if Parse(buf).Some? && StaleNonce(Parse(buf).value) then None else LastPermission(env, a, front, ip)
  }

  lemma {:induction false} RunPermissions(env: Env, a: Alloc, events: seq<Timed>, ip: Ip)
    requires a.permissions == map[]
    ensures var b, last := Run(env, a, events).0, LastPermission(env, a, events, ip);
            (ip in b.permissions <==> last.Some?) && (last.Some? ==> b.permissions[ip] == last.value)
  {
    hide Parse, StaleNonce, StringIn, First, LongTermKey, Unwrapped, Fresh;
    if events != [] {
      RunPermissions(env, a, events[..|events| - 1], ip);
    }
  }

  /** A send asks for a permission exactly when none was asked for within 240 seconds and since the last stale nonce. */
  lemma AsksExact(env: Env, a: Alloc, events: seq<Timed>, e: Timed)
    requires a.permissions == map[] && e.event.Send?
    ensures var last := LastPermission(env, a, events, e.event.peer.ip);
            var outs := Step(env, Run(env, a, events).0, e).1;
            && (outs[0].CreatePermission? <==> last.None? || e.at - last.value >= 240_000_000_000)
            && outs[|outs| - 1].SendIndication? && |outs| <= 2
  {
    RunPermissions(env, a, events, e.event.peer.ip);
    hide Run, LastPermission;
  }
}
