/** Any number of engines connected through the relay, with lost and delayed messages. */
module Handshake {
  import opened Common
  import opened Engine

  /** A message on its way; the relay filled in the sender. */
  datatype Packet = Packet(from: Id, to: Id, msg: Msg)

  /** What happened in a run. */
  datatype Seen =
    | Asked(viewer: Id, host: Id)
    | Granted(host: Id, viewer: Id, permission: Permission, codec: Codec)
    | Joined(viewer: Id, host: Id)
    | JoinedWith(viewer: Id, host: Id, permission: Permission, codec: Codec)

  datatype World = World(engines: map<Id, State>, net: multiset<Packet>, seen: multiset<Seen>)

  /** What an engine can be handed. */
  datatype Input =
    | ConnectTo(host: Id)
    | Submit(login: Login)
    | EndIt
    | Decide(decision: Option<Permission>)
    | SetPerm(permission: Permission)
    | LinkDied
    | PeerOffline(to: Option<Id>)
    | Deliver(from: Id, msg: Msg, asks: Asks)

  /** The signaling loop is busy while an approval waits for the user; the user is not. */
  predicate Enabled(s: State, input: Input) {
    && (s.deciding.Some? ==> !input.Deliver? && !input.PeerOffline?)
    && (input.Decide? ==> s.deciding.Some?)
  }

  function Acted(env: Env, s: State, input: Input): (State, Option<Send>)
    requires Enabled(s, input)
  {
    match input
    case ConnectTo(host) => Connecting(env, s, host)
    case Submit(login) => Submitted(env, s, login)
    case EndIt => Ended(s)
    case Decide(decision) => Decided(env, s, decision)
    case SetPerm(p) => (Permitted(s, p), None)
    case LinkDied => (s.(role := Idle), None)
    case PeerOffline(to) => (Offline(s, to), None)
    case Deliver(from, msg, asks) => Received(env, s, from, msg, asks)
  }

  /** The answer this engine is waiting for has come and says yes. */
  predicate Answered(s: State, input: Input) {
    && input.Deliver? && input.msg.ConnectResponse? && input.msg.accepted
    && s.outbound == Some(input.from)
  }

  /** A step's entries in the run's record, read off the states around it. */
  function Record(id: Id, s: State, input: Input, t: State): multiset<Seen> {
    if input.ConnectTo? then multiset{Asked(id, input.host)}
    else if Answered(s, input) && t.role.Viewer? then
      multiset{Joined(id, t.role.peer), JoinedWith(id, t.role.peer, t.role.permission, t.negotiated)}
    else if t.role.Host? && !s.role.Host? then
      multiset{Granted(id, t.role.peer, t.role.permission, t.negotiated)}
    else multiset{}
  }

  function Posted(id: Id, sent: Option<Send>): multiset<Packet> {
    match sent
    case None => multiset{}
    case Some(s) => multiset{Packet(id, s.to, s.msg)}
  }

  /** What an input takes off the network. */
  function Taken(id: Id, input: Input): multiset<Packet> {
    if input.Deliver? then multiset{Packet(input.from, id, input.msg)} else multiset{}
  }

  datatype Step =
    | Act(id: Id, input: Input)
    | Lose(packet: Packet)

  ghost predicate Possible(w: World, step: Step) {
    match step
    case Act(id, input) =>
      id in w.engines && Enabled(w.engines[id], input) && Taken(id, input) <= w.net
    case Lose(packet) => packet in w.net
  }

  /** An accepting response never exists twice, is lost for good when lost, and may arrive at any later time. */
  function Next(envs: Id -> Env, w: World, step: Step): World
    requires Possible(w, step)
  {
    match step
    case Lose(packet) => w.(net := w.net - multiset{packet})
    case Act(id, input) =>
      var s := w.engines[id];
      var (t, sent) := Acted(envs(id), s, input);
      World(w.engines[id := t], w.net - Taken(id, input) + Posted(id, sent), w.seen + Record(id, s, input, t))
  }

  ghost predicate Possibles(envs: Id -> Env, w: World, steps: seq<Step>)
    decreases |steps|
  {
    steps == [] ||
    (Possible(w, steps[0]) && Possibles(envs, Next(envs, w, steps[0]), steps[1..]))
  }

  function After(envs: Id -> Env, w: World, steps: seq<Step>): World
    requires Possibles(envs, w, steps)
    decreases |steps|
  {
    if steps == [] then w else After(envs, Next(envs, w, steps[0]), steps[1..])
  }

  /** Any set of engines that have just started. */
  function Start(ids: set<Id>): World {
    World(map id | id in ids :: Fresh(), multiset{}, multiset{})
  }

  // ---- One engine --------------------------------------------------------

  /** The approval handler only ever waits while there is no session. */
  predicate Calm(s: State) {
    s.deciding.Some? ==> s.role.Idle?
  }

  lemma ActedCalm(env: Env, s: State, input: Input)
    requires Enabled(s, input) && Calm(s)
    ensures Calm(Acted(env, s, input).0)
  {
    hide Negotiate, CodecsOf, CapsOf, AsCapsStr, AsStr, CodecOf, PermissionOf, NonceFor, CapsFor;
  }

  /**
   * Becoming Host happens from Idle only, and becoming Viewer only by an accepting answer from
   * the one host this engine asked.
   */
  lemma RolesChange(env: Env, s: State, input: Input)
    requires Enabled(s, input) && Calm(s)
    ensures var t := Acted(env, s, input).0;
            && (t.role.Host? && !s.role.Host? ==> s.role.Idle?)
            && (t.role.Host? && s.role.Host? ==> t.role.peer == s.role.peer)
            && (t.role.Viewer? && t.role != s.role ==>
                  Answered(s, input) && t.role.peer == input.from && t.outbound == None)
  {
    hide Negotiate, CodecsOf, CapsOf, AsCapsStr, AsStr, CodecOf, PermissionOf, NonceFor, CapsFor;
  }

  function Waiting(s: State, host: Id): nat {
    if s.outbound == Some(host) then 1 else 0
  }

  /** The one outstanding request to a host pays for joining it. */
  lemma AskedPays(env: Env, id: Id, s: State, input: Input, viewer: Id, host: Id)
    requires Enabled(s, input)
    ensures var t := Acted(env, s, input).0;
            var r := Record(id, s, input, t);
            && (viewer == id ==>
                  r[Joined(viewer, host)] + Waiting(t, host) <= r[Asked(viewer, host)] + Waiting(s, host))
            && (viewer != id ==> r[Joined(viewer, host)] == 0)
  {
    hide Negotiate, CodecsOf, CapsOf, AsCapsStr, AsStr, CodecOf, PermissionOf, NonceFor, CapsFor;
  }

  function GrantPacket(host: Id, viewer: Id, p: Permission, c: Codec): Packet {
    Packet(host, viewer, Grant(viewer, p, c).msg)
  }

  lemma GrantBack(p: Permission, c: Codec)
    ensures PermissionOf(Some(AsStr(p))) == p && CodecOf(Some(AsCapsStr(c))) == c
  {
  }

  /** Two grants that look alike on the wire are the same grant. */
  lemma GrantInjective(p: Permission, c: Codec, q: Permission, d: Codec)
    requires AsStr(p) == AsStr(q) && AsCapsStr(c) == AsCapsStr(d)
    ensures p == q && c == d
  {
    GrantBack(p, c);
    GrantBack(q, d);
  }

  /** An accepting response is somebody's grant, and for a codec both sides can handle if H.264 is one. */
  ghost predicate Honest(envs: Id -> Env, p: Packet) {
    p.msg.ConnectResponse? && p.msg.accepted ==>
      exists q: Permission, c: Codec :: p == GrantPacket(p.from, p.to, q, c) && Agreed(envs, p.from, p.to, c)
  }

  predicate Agreed(envs: Id -> Env, host: Id, viewer: Id, c: Codec) {
    c == H264 || (c in envs(host).encodes && c in envs(viewer).decodes)
  }

  /** A request's capabilities are its sender's own. */
  predicate Truthful(envs: Id -> Env, p: Packet) {
    p.msg.ConnectRequest? && p.msg.caps.Some? ==> p.msg.caps.value == CapsOf(envs(p.from).decodes)
  }

  ghost predicate CapsKnown(envs: Id -> Env, s: State) {
    forall v :: v in s.pendingCaps ==> s.pendingCaps[v] == CapsOf(envs(v).decodes)
  }

  /** With what was received truthful, what is sent is truthful and honest. */
  lemma ActedHonest(envs: Id -> Env, id: Id, s: State, input: Input)
    requires Enabled(s, input) && CapsKnown(envs, s)
    requires input.Deliver? ==> Truthful(envs, Packet(input.from, id, input.msg))
    ensures var (t, sent) := Acted(envs(id), s, input);
            && CapsKnown(envs, t)
            && (sent.Some? ==> Truthful(envs, Packet(id, sent.value.to, sent.value.msg))
                               && Honest(envs, Packet(id, sent.value.to, sent.value.msg)))
  {
    hide Negotiate, CodecsOf, CapsOf, AsCapsStr, AsStr, CodecOf, PermissionOf, Agreed, Honest, Accepted, CapsKnown;
    match input {
      case Decide(Some(p)) =>
        AcceptedHonest(envs, id, s, s.deciding.value, p);
      case Deliver(from, msg, asks) =>
        if msg.ConnectRequest? {
          RequestedHonest(envs, id, s, from, msg.password, msg.caps, asks);
        } else {
          CapsOnly(envs, s, Acted(envs(id), s, input).0);
          NoGrant(envs, id, Acted(envs(id), s, input).1);
        }
      case _ =>
        CapsOnly(envs, s, Acted(envs(id), s, input).0);
        NoGrant(envs, id, Acted(envs(id), s, input).1);
    }
  }

  lemma CapsOnly(envs: Id -> Env, s: State, t: State)
    requires CapsKnown(envs, s) && t.pendingCaps == s.pendingCaps
    ensures CapsKnown(envs, t)
  {
  }

  lemma NoGrant(envs: Id -> Env, id: Id, sent: Option<Send>)
    requires sent.Some? && sent.value.msg.ConnectResponse? ==> !sent.value.msg.accepted
    ensures sent.Some? ==> Honest(envs, Packet(id, sent.value.to, sent.value.msg))
  {
  }

  lemma AcceptedHonest(envs: Id -> Env, id: Id, s: State, peer: Id, p: Permission)
    requires CapsKnown(envs, s)
    ensures var (t, sent) := Accepted(envs(id), s, peer, p);
            && CapsKnown(envs, t) && sent.Some? && sent.value.to == peer
            && Truthful(envs, Packet(id, peer, sent.value.msg)) && Honest(envs, Packet(id, peer, sent.value.msg))
  {
    hide Negotiate, CodecsOf, CapsOf, AsCapsStr, AsStr;
    var (t, sent) := Accepted(envs(id), s, peer, p);
    var c := t.negotiated;
    var decodes := CodecsOf(CapsFor(s, peer));
    NegotiateCommon(envs(id).encodes, decodes);
    if peer in s.pendingCaps {
      CapsBack(envs(peer).decodes);
    } else {
      assert decodes == [] by {
        NoCaps();
      }
    }
    assert Agreed(envs, id, peer, c);
    assert Packet(id, peer, sent.value.msg) == GrantPacket(id, peer, p, c);
  }

  lemma NoCaps()
    ensures CodecsOf([]) == []
  {
  }

  lemma RequestedHonest(envs: Id -> Env, id: Id, s: State, from: Id, password: Option<string>,
                        caps: Option<seq<string>>, asks: Asks)
    requires CapsKnown(envs, s) && (caps.Some? ==> caps.value == CapsOf(envs(from).decodes))
    ensures var (t, sent) := Requested(envs(id), s, from, password, caps, asks);
            && CapsKnown(envs, t)
            && (sent.Some? ==> Truthful(envs, Packet(id, sent.value.to, sent.value.msg))
                               && Honest(envs, Packet(id, sent.value.to, sent.value.msg)))
  {
    hide CapsOf, Accepted, Honest;
    var (t, sent) := Requested(envs(id), s, from, password, caps, asks);
    var r := if caps.Some? && caps.value != [] then s.(pendingCaps := s.pendingCaps[from := caps.value]) else s;
    assert CapsKnown(envs, r);
    var u := r.(pendingNonce := r.pendingNonce - {from});
    AcceptedHonest(envs, id, u, from, asks.grants);
    if !(sent.Some? && sent.value.msg.ConnectResponse? && sent.value.msg.accepted) {
      NoGrant(envs, id, sent);
    }
  }

  /** Every accepting response sent is a grant on record. */
  lemma GrantsRecorded(env: Env, id: Id, s: State, input: Input, host: Id, viewer: Id, p: Permission, c: Codec)
    requires Enabled(s, input) && Calm(s)
    ensures var (t, sent) := Acted(env, s, input);
            Posted(id, sent)[GrantPacket(host, viewer, p, c)]
            <= Record(id, s, input, t)[Granted(host, viewer, p, c)]
  {
    hide Negotiate, CodecsOf, CapsOf, AsCapsStr, AsStr, CodecOf, PermissionOf, NonceFor, CapsFor;
    var (t, sent) := Acted(env, s, input);
    if sent.Some? && Packet(id, sent.value.to, sent.value.msg) == GrantPacket(host, viewer, p, c) {
      assert t.role.Host? && sent.value == Grant(t.role.peer, t.role.permission, t.negotiated);
      GrantInjective(t.role.permission, t.negotiated, p, c);
    }
  }

  /** Joining a host with a permission and a codec uses up the very response that grants them. */
  lemma JoinTakes(envs: Id -> Env, id: Id, s: State, input: Input, host: Id, viewer: Id, p: Permission, c: Codec)
    requires Enabled(s, input)
    requires input.Deliver? ==> Honest(envs, Packet(input.from, id, input.msg))
    ensures var t := Acted(envs(id), s, input).0;
            && Record(id, s, input, t)[JoinedWith(viewer, host, p, c)] <=
                 Taken(id, input)[GrantPacket(host, viewer, p, c)]
            && (Record(id, s, input, t)[JoinedWith(viewer, host, p, c)] > 0 ==> Agreed(envs, host, viewer, c))
  {
    hide Negotiate, CodecsOf, CapsOf, AsCapsStr, AsStr, CodecOf, PermissionOf, NonceFor, CapsFor, Agreed;
    var t := Acted(envs(id), s, input).0;
    if Record(id, s, input, t)[JoinedWith(viewer, host, p, c)] > 0 {
      var packet := Packet(input.from, id, input.msg);
      var q: Permission, d: Codec :| packet == GrantPacket(packet.from, packet.to, q, d)
                                     && Agreed(envs, packet.from, packet.to, d);
      GrantBack(q, d);
    }
  }

  // ---- The whole world ---------------------------------------------------

  function Outstanding(w: World, viewer: Id, host: Id): nat {
    if viewer in w.engines then Waiting(w.engines[viewer], host) else 0
  }

  ghost predicate EnginesFine(envs: Id -> Env, w: World) {
    forall id :: id in w.engines ==> Calm(w.engines[id]) && CapsKnown(envs, w.engines[id])
  }

  ghost predicate NetFine(envs: Id -> Env, net: multiset<Packet>) {
    forall p :: p in net ==> Truthful(envs, p) && Honest(envs, p)
  }

  predicate AsksPay(w: World, viewer: Id, host: Id) {
    w.seen[Joined(viewer, host)] + Outstanding(w, viewer, host) <= w.seen[Asked(viewer, host)]
  }

  predicate GrantsPay(envs: Id -> Env, w: World, host: Id, viewer: Id, p: Permission, c: Codec) {
    && w.seen[JoinedWith(viewer, host, p, c)] + w.net[GrantPacket(host, viewer, p, c)]
       <= w.seen[Granted(host, viewer, p, c)]
    && (w.seen[JoinedWith(viewer, host, p, c)] > 0 ==> Agreed(envs, host, viewer, c))
  }

  ghost predicate Inv(envs: Id -> Env, w: World) {
    && EnginesFine(envs, w)
    && NetFine(envs, w.net)
    && (forall v, h :: AsksPay(w, v, h))
    && (forall h, v, p, c :: GrantsPay(envs, w, h, v, p, c))
  }

  lemma StartFine(envs: Id -> Env, ids: set<Id>)
    ensures Inv(envs, Start(ids))
  {
  }

  lemma ActFine(envs: Id -> Env, w: World, id: Id, input: Input)
    requires Possible(w, Act(id, input)) && EnginesFine(envs, w) && NetFine(envs, w.net)
    ensures var u := Next(envs, w, Act(id, input)); EnginesFine(envs, u) && NetFine(envs, u.net)
  {
    hide Acted, Record, Calm, CapsKnown, Truthful, Honest, Enabled;
    var s := w.engines[id];
    var (t, sent) := Acted(envs(id), s, input);
    if input.Deliver? {
      assert Packet(input.from, id, input.msg) in Taken(id, input);
      assert Packet(input.from, id, input.msg) in w.net;
    }
    ActedCalm(envs(id), s, input);
    ActedHonest(envs, id, s, input);
  }

  lemma ActPays(envs: Id -> Env, w: World, id: Id, input: Input, viewer: Id, host: Id)
    requires Possible(w, Act(id, input)) && AsksPay(w, viewer, host)
    ensures AsksPay(Next(envs, w, Act(id, input)), viewer, host)
  {
    hide Acted, Record, Enabled, Waiting;
    AskedPays(envs(id), id, w.engines[id], input, viewer, host);
  }

  lemma ActGrants(envs: Id -> Env, w: World, id: Id, input: Input, h: Id, v: Id, p: Permission, c: Codec)
    requires Possible(w, Act(id, input)) && EnginesFine(envs, w) && NetFine(envs, w.net)
    requires GrantsPay(envs, w, h, v, p, c)
    ensures GrantsPay(envs, Next(envs, w, Act(id, input)), h, v, p, c)
  {
    hide Acted, Record, Enabled, Agreed, GrantPacket, Honest, Posted;
    if input.Deliver? {
      assert Packet(input.from, id, input.msg) in Taken(id, input);
      assert Packet(input.from, id, input.msg) in w.net;
    }
    GrantsRecorded(envs(id), id, w.engines[id], input, h, v, p, c);
    JoinTakes(envs, id, w.engines[id], input, h, v, p, c);
  }

  lemma StepFine(envs: Id -> Env, w: World, step: Step)
    requires Possible(w, step) && Inv(envs, w)
    ensures Inv(envs, Next(envs, w, step))
  {
    hide EnginesFine, NetFine, AsksPay, GrantsPay;
    match step
    case Lose(packet) => LoseFine(envs, w, packet);
    case Act(id, input) =>
      var u := Next(envs, w, step);
      hide Next;
      ActFine(envs, w, id, input);
      forall v, h
        ensures AsksPay(u, v, h)
      {
        assert AsksPay(w, v, h);
        ActPays(envs, w, id, input, v, h);
      }
      forall h, v, p, c
        ensures GrantsPay(envs, u, h, v, p, c)
      {
        assert GrantsPay(envs, w, h, v, p, c);
        ActGrants(envs, w, id, input, h, v, p, c);
      }
  }

  lemma LoseFine(envs: Id -> Env, w: World, packet: Packet)
    requires packet in w.net && Inv(envs, w)
    ensures Inv(envs, w.(net := w.net - multiset{packet}))
  {
    hide Calm, CapsKnown, Truthful, Honest, Agreed, GrantPacket;
    var u := w.(net := w.net - multiset{packet});
    forall v, h
      ensures AsksPay(u, v, h)
    {
      assert AsksPay(w, v, h);
    }
    forall h, v, p, c
      ensures GrantsPay(envs, u, h, v, p, c)
    {
      assert GrantsPay(envs, w, h, v, p, c);
    }
  }

  lemma {:induction false} RunFine(envs: Id -> Env, w: World, steps: seq<Step>)
    requires Possibles(envs, w, steps) && Inv(envs, w)
    ensures Inv(envs, After(envs, w, steps))
    decreases |steps|
  {
    hide Inv, Next, Possible;
    if steps != [] {
      StepFine(envs, w, steps[0]);
      RunFine(envs, Next(envs, w, steps[0]), steps[1..]);
    }
  }

  /**
   * In every state of every run, with any engines and whatever is lost or delayed: a peer has
   * joined a host at most as often as it asked that host, and with a given permission and codec
   * at most as often as that host granted exactly these to that peer. The codec is H.264, or one
   * the host encodes and the viewer decodes.
   */
  lemma JoinsAreGranted(envs: Id -> Env, ids: set<Id>, steps: seq<Step>, viewer: Id, host: Id, p: Permission, c: Codec)
    requires Possibles(envs, Start(ids), steps)
    ensures var w := After(envs, Start(ids), steps);
            && w.seen[Joined(viewer, host)] + Outstanding(w, viewer, host) <= w.seen[Asked(viewer, host)]
            && w.seen[JoinedWith(viewer, host, p, c)] <= w.seen[Granted(host, viewer, p, c)]
            && (w.seen[JoinedWith(viewer, host, p, c)] > 0 ==> Agreed(envs, host, viewer, c))
  {
    StartFine(envs, ids);
    RunFine(envs, Start(ids), steps);
    hide After, Possibles, Next, Outstanding;
    var w := After(envs, Start(ids), steps);
    assert AsksPay(w, viewer, host);
    assert GrantsPay(envs, w, host, viewer, p, c);
  }

  /** Roles change only as they may, in every step of every run. */
  lemma RolesInRuns(envs: Id -> Env, ids: set<Id>, steps: seq<Step>, id: Id, input: Input)
    requires Possibles(envs, Start(ids), steps)
    requires Possible(After(envs, Start(ids), steps), Act(id, input))
    ensures var w := After(envs, Start(ids), steps);
            var s, t := w.engines[id], Next(envs, w, Act(id, input)).engines[id];
            && (t.role.Host? && !s.role.Host? ==> s.role.Idle?)
            && (t.role.Viewer? && t.role != s.role ==>
                  Answered(s, input) && t.role.peer == input.from && t.outbound == None)
  {
    StartFine(envs, ids);
    RunFine(envs, Start(ids), steps);
    hide After, Possibles, Acted, Record;
    var w := After(envs, Start(ids), steps);
    assert Calm(w.engines[id]);
    RolesChange(envs(id), w.engines[id], input);
  }

  // ---- When the codec is common ------------------------------------------

  /**
   * One acceptance: the granted codec is one both sides have exactly if H.264 is, or the host
   * still holds the viewer's capabilities and the two have any codec in common.
   */
  lemma GrantCommon(envs: Id -> Env, host: Id, s: State, viewer: Id, p: Permission)
    requires CapsKnown(envs, s)
    ensures var c := Accepted(envs(host), s, viewer, p).0.negotiated;
            var encodes, decodes := envs(host).encodes, envs(viewer).decodes;
            c in encodes && c in decodes <==>
            (H264 in encodes && H264 in decodes)
            || (viewer in s.pendingCaps && exists d: Codec :: d in encodes && d in decodes)
  {
    hide CapsOf, CodecsOf, AsCapsStr, AsStr, Negotiate;
    var known := CodecsOf(CapsFor(s, viewer));
    NegotiateCommon(envs(host).encodes, known);
    if viewer in s.pendingCaps {
      CapsBack(envs(viewer).decodes);
    } else {
      NoCaps();
      NegotiateNothing(envs(host).encodes);
    }
  }

  lemma NegotiateNothing(encodes: seq<Codec>)
    ensures Negotiate(encodes, []) == H264
  {
  }

  /** In every run of any engines, the codec with which `viewer` joins `host` is one both have. */
  ghost predicate AlwaysCommon(envs: Id -> Env, host: Id, viewer: Id) {
    forall ids: set<Id>, steps: seq<Step>, p: Permission, c: Codec ::
      Possibles(envs, Start(ids), steps) && After(envs, Start(ids), steps).seen[JoinedWith(viewer, host, p, c)] > 0 ==>
        c in envs(host).encodes && c in envs(viewer).decodes
  }

  /** A password that overtakes the capabilities, and what the host and the viewer make of it. */
  function HastySteps(envs: Id -> Env, host: Id, viewer: Id): (steps: seq<Step>)
    ensures |steps| == 4
  {
    [Act(viewer, ConnectTo(host)), Act(viewer, Submit(Login(host, "", false))),
     Act(host, Deliver(viewer, HastyRequest(envs, viewer), Trusting())),
     Act(viewer, Deliver(host, Grant(viewer, View, H264).msg, Trusting()))]
  }

  function HastyRequest(envs: Id -> Env, viewer: Id): Msg {
    ConnectRequest(Some(envs(viewer).proof("", "")), None)
  }

  function Trusting(): Asks {
    Asks(Password, View, "", (_, _) => true, None)
  }

  /** The viewer before each of its steps, and at the end. */
  predicate HastyViewer(s: State, host: Id, k: nat) {
    && s.deciding == None && s.pendingNonce == map[]
    && (0 < k < 4 ==> s.outbound == Some(host))
  }

  /** What the world holds before each step, and at the end. */
  ghost predicate Hasty(envs: Id -> Env, host: Id, viewer: Id, k: nat, w: World) {
    && host in w.engines && viewer in w.engines && HastyViewer(w.engines[viewer], host, k)
    && (k < 3 ==> w.engines[host] == Fresh())
    && (k == 2 ==> Packet(viewer, host, HastyRequest(envs, viewer)) in w.net)
    && (k == 3 ==> GrantPacket(host, viewer, View, H264) in w.net)
    && (k == 4 ==> w.seen[JoinedWith(viewer, host, View, H264)] > 0)
  }

  /** The viewer asks, submits a password, and takes the grant. */
  lemma ViewerActs(envs: Id -> Env, host: Id, viewer: Id, k: nat, s: State)
    requires k in {0, 1, 3} && HastyViewer(s, host, k)
    ensures var input := HastySteps(envs, host, viewer)[k].input;
            && Enabled(s, input)
            && var (t, sent) := Acted(envs(viewer), s, input);
            && HastyViewer(t, host, k + 1)
            && (k == 1 ==> sent == Some(Send(host, HastyRequest(envs, viewer))))
            && (k == 3 ==> JoinedWith(viewer, host, View, H264) in Record(viewer, s, input, t))
  {
    hide CapsOf, AsCapsStr, AsStr, PermissionOf, CodecOf;
    GrantBack(View, H264);
    var none: map<Id, string> := map[];
    assert none - {host} == none;
  }

  /** A host without capabilities at hand grants H.264. */
  lemma HostActs(envs: Id -> Env, host: Id, viewer: Id)
    ensures var input := HastySteps(envs, host, viewer)[2].input;
            && Enabled(Fresh(), input)
            && Acted(envs(host), Fresh(), input).1 == Some(Grant(viewer, View, H264))
  {
    hide CapsOf, CodecsOf, AsCapsStr, AsStr, Negotiate;
    NoCaps();
    NegotiateNothing(envs(host).encodes);
  }

  /** One engine's step in the world. */
  lemma ActNext(envs: Id -> Env, w: World, id: Id, input: Input)
    requires Possible(w, Act(id, input))
    ensures var (t, sent) := Acted(envs(id), w.engines[id], input);
            var u := Next(envs, w, Act(id, input));
            && u.engines == w.engines[id := t]
            && (sent.Some? ==> Packet(id, sent.value.to, sent.value.msg) in u.net)
            && forall x :: x in Record(id, w.engines[id], input, t) ==> x in u.seen
  {
    hide Acted, Record, Enabled;
  }

  /** Who acts, and what each step takes off the network. */
  lemma HastyShape(envs: Id -> Env, host: Id, viewer: Id, k: nat)
    requires k < 4
    ensures var step := HastySteps(envs, host, viewer)[k];
            && step.Act? && step.id == (if k == 2 then host else viewer)
            && Taken(step.id, step.input) ==
               (if k == 2 then multiset{Packet(viewer, host, HastyRequest(envs, viewer))}
                else if k == 3 then multiset{GrantPacket(host, viewer, View, H264)}
                else multiset{})
  {
    hide HastyRequest, AsStr, AsCapsStr;
  }

  lemma HastyNext(envs: Id -> Env, host: Id, viewer: Id, k: nat, w: World)
    requires host != viewer && k < 4 && Hasty(envs, host, viewer, k, w)
    ensures Possible(w, HastySteps(envs, host, viewer)[k])
    ensures Hasty(envs, host, viewer, k + 1, Next(envs, w, HastySteps(envs, host, viewer)[k]))
  {
    hide Next, HastySteps, Acted, Record, Enabled, HastyViewer, Fresh, HastyRequest, Taken, AsStr, AsCapsStr;
    var step := HastySteps(envs, host, viewer)[k];
    HastyShape(envs, host, viewer, k);
    if k == 2 {
      HostActs(envs, host, viewer);
      ViewerWaits(w.engines[viewer], host);
    } else {
      ViewerActs(envs, host, viewer, k, w.engines[viewer]);
    }
    ActNext(envs, w, step.id, step.input);
  }

  /** While the host acts the viewer stays as it is. */
  lemma ViewerWaits(s: State, host: Id)
    ensures HastyViewer(s, host, 2) ==> HastyViewer(s, host, 3)
  {
  }

  lemma {:induction false} HastyRun(envs: Id -> Env, host: Id, viewer: Id, k: nat, w: World)
    requires host != viewer && k <= 4 && Hasty(envs, host, viewer, k, w)
    ensures var steps := HastySteps(envs, host, viewer)[k..];
            Possibles(envs, w, steps) && Hasty(envs, host, viewer, 4, After(envs, w, steps))
    decreases 4 - k
  {
    hide Hasty, Next, Possible;
    var steps := HastySteps(envs, host, viewer);
    if k < 4 {
      HastyNext(envs, host, viewer, k, w);
      HastyRun(envs, host, viewer, k + 1, Next(envs, w, steps[k]));
      assert steps[k..][1..] == steps[k + 1..];
    }
  }

  /** Whatever the two platforms have, some run makes them settle on H.264. */
  lemma FallbackReached(envs: Id -> Env, host: Id, viewer: Id)
    requires host != viewer
    ensures var steps := HastySteps(envs, host, viewer);
            && Possibles(envs, Start({host, viewer}), steps)
            && After(envs, Start({host, viewer}), steps).seen[JoinedWith(viewer, host, View, H264)] > 0
  {
    hide Possibles, After;
    var steps := HastySteps(envs, host, viewer);
    HastyRun(envs, host, viewer, 0, Start({host, viewer}));
    assert steps[0..] == steps;
  }

  /**
   * The codec is one the host encodes and the viewer decodes, in every run, if and only if both
   * platforms have H.264.
   */
  lemma CodecAlwaysCommon(envs: Id -> Env, host: Id, viewer: Id)
    requires host != viewer
    ensures AlwaysCommon(envs, host, viewer) <==> H264 in envs(host).encodes && H264 in envs(viewer).decodes
  {
    hide Possibles, After, Start, HastySteps;
    FallbackReached(envs, host, viewer);
    if H264 in envs(host).encodes && H264 in envs(viewer).decodes {
      forall ids: set<Id>, steps: seq<Step>, p: Permission, c: Codec |
        Possibles(envs, Start(ids), steps) && After(envs, Start(ids), steps).seen[JoinedWith(viewer, host, p, c)] > 0
        ensures c in envs(host).encodes && c in envs(viewer).decodes
      {
        JoinsAreGranted(envs, ids, steps, viewer, host, p, c);
      }
    }
  }
}
