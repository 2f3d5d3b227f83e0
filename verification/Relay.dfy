/** The signaling relay: registration, take-over and forwarding (server/src/index.js). */
module Relay {
  import opened Common

  const MAX_MESSAGE: nat := 262144
  const MAX_RELAY: nat := 16384
  const RATE_LIMIT: nat := 30

  const RELAY_TYPES: set<string> :=
    {"connect-request", "connect-response", "password-required", "signal", "end-session"}

  // ---- Values ------------------------------------------------------------

  /** A JSON value, as far as the relay looks at it. */
  datatype Value = Str(s: string) | Num(n: int) | Other(id: nat)

  type Object = map<string, Value>

  predicate Hex(c: char) {
    '0' <= c <= '9' || 'a' <= c <= 'f'
  }

  /** A version-4 UUID in lower case. */
  predicate IsUuid(s: string) {
    && |s| == 36
    && s[8] == s[13] == s[18] == s[23] == '-'
    && s[14] == '4'
    && s[19] in {'8', '9', 'a', 'b'}
    && forall i :: 0 <= i < 36 && i !in {8, 13, 14, 18, 19, 23} ==> Hex(s[i])
  }

  predicate IsValidUuid(o: Object, key: string) {
    key in o && o[key].Str? && IsUuid(o[key].s)
  }

  predicate Has(o: Object, key: string, v: Value) {
    key in o && o[key] == v
  }

  /** `{ ...msg, from }` without `to`. */
  function Outgoing(msg: Object, from: string): Object {
    msg["from" := Str(from)] - {"to"}
  }

  // ---- The state ---------------------------------------------------------

  datatype Out =
    | RegisterError(reason: string)
    | Registered(uuid: string)
    | PeerOffline(to: string)
    | Forwarded(obj: Object)

  /** A socket: the UUID attached to it, whether it is open, and what was sent to it. */
  datatype Socket = Socket(uuid: Option<string>, open: bool, outbox: seq<Out>)

  datatype Rate = Rate(count: nat, windowStart: int)

  /** `findSocket` */
  function Find(sockets: seq<Socket>, uuid: string, k: nat): (r: Option<nat>)
    requires k <= |sockets|
    ensures r.Some? ==> k <= r.value < |sockets|
                        && sockets[r.value].uuid == Some(uuid) && sockets[r.value].open
    decreases |sockets| - k
  {
    if k == |sockets| then None
    else if sockets[k].uuid == Some(uuid) && sockets[k].open then Some(k)
    else Find(sockets, uuid, k + 1)
  }

  lemma {:induction false} FindNone(sockets: seq<Socket>, uuid: string, k: nat, i: nat)
    requires k <= i < |sockets| && Find(sockets, uuid, k) == None
    ensures !(sockets[i].uuid == Some(uuid) && sockets[i].open)
    decreases |sockets| - k
  {
    if k < i {
      FindNone(sockets, uuid, k + 1, i);
    }
  }

  /** Sending to a socket that is no longer open is swallowed. */
  function Sent(sockets: seq<Socket>, ws: nat, out: Out): (r: seq<Socket>)
    requires ws < |sockets|
    ensures |r| == |sockets|
  {
    if sockets[ws].open then sockets[ws := sockets[ws].(outbox := sockets[ws].outbox + [out])] else sockets
  }

  function Closed(sockets: seq<Socket>, ws: nat): (r: seq<Socket>)
    requires ws < |sockets|
    ensures |r| == |sockets|
  {
    sockets[ws := sockets[ws].(open := false)]
  }

  function Register(sockets: seq<Socket>, ws: nat, msg: Object): (r: seq<Socket>)
    requires ws < |sockets|
    ensures |r| == |sockets|
  {
    if sockets[ws].uuid.Some? then sockets
    else if !Has(msg, "v", Num(1)) then Closed(Sent(sockets, ws, RegisterError("bad-version")), ws)
    else if !IsValidUuid(msg, "uuid") then Closed(Sent(sockets, ws, RegisterError("invalid-uuid")), ws)
    else
      var uuid := msg["uuid"].s;
      var freed := match Find(sockets, uuid, 0)
                   case None => sockets
                   case Some(stale) => Closed(Sent(sockets, stale, RegisterError("displaced")), stale);
      Sent(freed[ws := freed[ws].(uuid := Some(uuid))], ws, Registered(uuid))
  }

  function Relayed(sockets: seq<Socket>, ws: nat, msg: Object, length: nat): (r: seq<Socket>)
    requires ws < |sockets|
    ensures |r| == |sockets|
  {
    match sockets[ws].uuid
    case None => Closed(sockets, ws)
    case Some(from) =>
      if !Has(msg, "type", Str("signal")) && length > MAX_RELAY then sockets
      else if !IsValidUuid(msg, "to") then sockets
      else if msg["to"].s == from then sockets
      else
        match Find(sockets, msg["to"].s, 0)
        case None => Sent(sockets, ws, PeerOffline(msg["to"].s))
        case Some(target) => Sent(sockets, target, Forwarded(Outgoing(msg, from)))
  }

  /** One message more in the socket's one-second window; the second result is whether it is let through. */
  function Counted(rate: Option<Rate>, now: int): (Rate, bool) {
    var r := if rate.None? || now - rate.value.windowStart >= 1000 then Rate(0, now) else rate.value;
    (r.(count := r.count + 1), r.count + 1 <= RATE_LIMIT)
  }

  /** A text frame: its length, and its object if it parses to one. */
  datatype Frame = Frame(length: nat, obj: Option<Object>)

  function RateOf(rates: map<nat, Rate>, ws: nat): Option<Rate> {
    if ws in rates then Some(rates[ws]) else None
  }

  /** What a frame that is let through does. */
  function Routed(sockets: seq<Socket>, ws: nat, frame: Frame): (r: seq<Socket>)
    requires ws < |sockets|
    ensures |r| == |sockets|
  {
    if frame.length > MAX_MESSAGE || frame.obj.None? then sockets
    else
      var msg := frame.obj.value;
      if "type" !in msg || !msg["type"].Str? then sockets
      else if msg["type"].s == "register" then Register(sockets, ws, msg)
      else if msg["type"].s in RELAY_TYPES then Relayed(sockets, ws, msg, frame.length)
      else sockets
  }

  class SignalingRoom {
    var sockets: seq<Socket>
    var rates: map<nat, Rate>

    constructor ()
      ensures sockets == [] && rates == map[]
    {
      sockets, rates := [], map[];
    }

    /** `fetch`: one more socket, nobody's yet. */
    method Accept() returns (ws: nat)
      modifies this`sockets
      ensures ws == |old(sockets)| && sockets == old(sockets) + [Socket(None, true, [])]
    {
      ws := |sockets|;
      sockets := sockets + [Socket(None, true, [])];
    }

    method FindSocket(uuid: string) returns (r: Option<nat>)
      ensures r == Find(sockets, uuid, 0)
    {
      var k := 0;
      while k < |sockets|
        invariant k <= |sockets| && Find(sockets, uuid, 0) == Find(sockets, uuid, k)
      {
        if sockets[k].uuid == Some(uuid) && sockets[k].open {
          return Some(k);
        }
        k := k + 1;
      }
      r := None;
    }

    method Send(ws: nat, out: Out)
      requires ws < |sockets|
      modifies this`sockets
      ensures sockets == Sent(old(sockets), ws, out)
    {
      if sockets[ws].open {
        sockets := sockets[ws := sockets[ws].(outbox := sockets[ws].outbox + [out])];
      }
    }

    method Close(ws: nat)
      requires ws < |sockets|
      modifies this`sockets
      ensures sockets == Closed(old(sockets), ws)
    {
      sockets := sockets[ws := sockets[ws].(open := false)];
    }

    method HandleRegister(ws: nat, msg: Object)
      requires ws < |sockets|
      modifies this`sockets
      ensures sockets == Register(old(sockets), ws, msg)
    {
      if sockets[ws].uuid.Some? {
        return;
      }
      if !Has(msg, "v", Num(1)) {
        Send(ws, RegisterError("bad-version"));
        Close(ws);
        return;
      }
      if !IsValidUuid(msg, "uuid") {
        Send(ws, RegisterError("invalid-uuid"));
        Close(ws);
        return;
      }
      var uuid := msg["uuid"].s;
      var existing := FindSocket(uuid);
      if existing.Some? {
        Send(existing.value, RegisterError("displaced"));
        Close(existing.value);
      }
      sockets := sockets[ws := sockets[ws].(uuid := Some(uuid))];
      Send(ws, Registered(uuid));
    }

    method HandleRelay(ws: nat, msg: Object, length: nat)
      requires ws < |sockets|
      modifies this`sockets
      ensures sockets == Relayed(old(sockets), ws, msg, length)
    {
      var from := sockets[ws].uuid;
      if from.None? {
        Close(ws);
        return;
      }
      if !Has(msg, "type", Str("signal")) && length > MAX_RELAY {
        return;
      }
      if !IsValidUuid(msg, "to") || msg["to"].s == from.value {
        return;
      }
      var target := FindSocket(msg["to"].s);
      if target.None? {
        Send(ws, PeerOffline(msg["to"].s));
        return;
      }
      Send(target.value, Forwarded(Outgoing(msg, from.value)));
    }

    method WebSocketMessage(ws: nat, frame: Frame, now: int)
      requires ws < |sockets|
      modifies this
      ensures var (rate, ok) := Counted(RateOf(old(rates), ws), now);
              && rates == old(rates)[ws := rate]
              && sockets == if ok then Routed(old(sockets), ws, frame) else old(sockets)
    {
      var rate := if ws in rates then Some(rates[ws]) else None;
      var r := if rate.None? || now - rate.value.windowStart >= 1000 then Rate(0, now) else rate.value;
      r := r.(count := r.count + 1);
      rates := rates[ws := r];
      if r.count > RATE_LIMIT || frame.length > MAX_MESSAGE || frame.obj.None? {
        return;
      }
      var msg := frame.obj.value;
      if "type" !in msg || !msg["type"].Str? {
        return;
      }
      if msg["type"].s == "register" {
        HandleRegister(ws, msg);
      } else if msg["type"].s in RELAY_TYPES {
        HandleRelay(ws, msg, frame.length);
      }
    }

    /** `webSocketClose` and `webSocketError` */
    method WebSocketGone(ws: nat)
      requires ws < |sockets|
      modifies this
      ensures sockets == Closed(old(sockets), ws) && rates == old(rates) - {ws}
    {
      Close(ws);
      rates := rates - {ws};
    }
  }

  // ---- Runs --------------------------------------------------------------

  datatype Event =
    | Arrive
    | Message(ws: nat, frame: Frame, now: int)
    | Gone(ws: nat)

  datatype Room = Room(sockets: seq<Socket>, rates: map<nat, Rate>)

  function Step(room: Room, e: Event): Room {
    match e
    case Arrive => room.(sockets := room.sockets + [Socket(None, true, [])])
    case Message(ws, frame, now) =>
      if ws >= |room.sockets| then room
      else
        var (rate, ok) := Counted(RateOf(room.rates, ws), now);
        Room(if ok then Routed(room.sockets, ws, frame) else room.sockets, room.rates[ws := rate])
    case Gone(ws) =>
      if ws >= |room.sockets| then room
      else Room(Closed(room.sockets, ws), room.rates - {ws})
  }

  function Run(room: Room, events: seq<Event>): Room {
    if events == [] then room else Step(Run(room, events[..|events| - 1]), events[|events| - 1])
  }

  /** Each UUID has at most one open socket. */
  ghost predicate OneEach(sockets: seq<Socket>) {
    forall i, j :: 0 <= i < j < |sockets| ==> !Rivals(sockets[i], sockets[j])
  }

  predicate Rivals(a: Socket, b: Socket) {
    a.open && b.open && a.uuid.Some? && a.uuid == b.uuid
  }

  /** From one state to a later one: identities stay, and nothing closed opens again. */
  ghost predicate Later(before: seq<Socket>, after: seq<Socket>) {
    && |before| <= |after|
    && forall i :: 0 <= i < |before| ==> Continues(before[i], after[i])
  }

  predicate Continues(a: Socket, b: Socket) {
    (a.uuid.Some? ==> b.uuid == a.uuid) && (b.open ==> a.open) && a.outbox <= b.outbox
  }

  /** Whatever a socket receives as forwarded names as its sender the UUID registered on some socket. */
  ghost predicate Authentic(sockets: seq<Socket>) {
    forall i, k :: 0 <= i < |sockets| && 0 <= k < |sockets[i].outbox| && sockets[i].outbox[k].Forwarded? ==>
      FromRegistered(sockets, sockets[i].outbox[k].obj)
  }

  ghost predicate FromRegistered(sockets: seq<Socket>, obj: Object) {
    && "to" !in obj
    && "from" in obj && obj["from"].Str?
    && exists s :: 0 <= s < |sockets| && sockets[s].uuid == Some(obj["from"].s)
  }

  lemma SentKeeps(sockets: seq<Socket>, ws: nat, out: Out)
    requires ws < |sockets|
    ensures Later(sockets, Sent(sockets, ws, out))
    ensures OneEach(sockets) ==> OneEach(Sent(sockets, ws, out))
    ensures Authentic(sockets) && (out.Forwarded? ==> FromRegistered(sockets, out.obj)) ==>
              Authentic(Sent(sockets, ws, out))
  {
    var after := Sent(sockets, ws, out);
    if OneEach(sockets) {
      forall i, j | 0 <= i < j < |after|
        ensures !Rivals(after[i], after[j])
      {
        assert !Rivals(sockets[i], sockets[j]);
      }
    }
    if Authentic(sockets) && (out.Forwarded? ==> FromRegistered(sockets, out.obj)) {
      forall i, k | 0 <= i < |after| && 0 <= k < |after[i].outbox| && after[i].outbox[k].Forwarded?
        ensures FromRegistered(after, after[i].outbox[k].obj)
      {
        if k < |sockets[i].outbox| {
          assert after[i].outbox[k] == sockets[i].outbox[k];
        }
        StillRegistered(sockets, after, after[i].outbox[k].obj);
      }
    }
  }

  lemma StillRegistered(before: seq<Socket>, after: seq<Socket>, obj: Object)
    requires FromRegistered(before, obj) && Later(before, after)
    ensures FromRegistered(after, obj)
  {
    var s :| 0 <= s < |before| && before[s].uuid == Some(obj["from"].s);
    assert Continues(before[s], after[s]);
  }

  /** The three properties of every state of the room. */
  ghost predicate Good(sockets: seq<Socket>) {
    OneEach(sockets) && Authentic(sockets)
  }

  lemma ClosedKeeps(sockets: seq<Socket>, ws: nat)
    requires ws < |sockets| && Good(sockets)
    ensures Later(sockets, Closed(sockets, ws)) && Good(Closed(sockets, ws))
  {
    hide Authentic;
    var after := Closed(sockets, ws);
    forall i, j | 0 <= i < j < |after|
      ensures !Rivals(after[i], after[j])
    {
      assert !Rivals(sockets[i], sockets[j]);
    }
    SameOutboxes(sockets, after);
  }

  lemma SameOutboxes(sockets: seq<Socket>, after: seq<Socket>)
    requires Authentic(sockets) && Later(sockets, after)
    requires forall i :: 0 <= i < |after| ==>
               if i < |sockets| then after[i].outbox == sockets[i].outbox else after[i].outbox == []
    ensures Authentic(after)
  {
    hide FromRegistered, Continues;
    forall i, k | 0 <= i < |after| && 0 <= k < |after[i].outbox| && after[i].outbox[k].Forwarded?
      ensures FromRegistered(after, after[i].outbox[k].obj)
    {
      assert FromRegistered(sockets, sockets[i].outbox[k].obj);
      StillRegistered(sockets, after, after[i].outbox[k].obj);
    }
  }

  lemma LaterTwice(a: seq<Socket>, b: seq<Socket>, c: seq<Socket>)
    requires Later(a, b) && Later(b, c)
    ensures Later(a, c)
  {
    forall i | 0 <= i < |a|
      ensures Continues(a[i], c[i])
    {
      assert Continues(a[i], b[i]) && Continues(b[i], c[i]);
    }
  }

  /** The stale socket is displaced: afterwards nobody open has the UUID. */
  lemma Displaced(sockets: seq<Socket>, uuid: string, i: nat)
    requires OneEach(sockets) && i < |sockets|
    ensures var freed := match Find(sockets, uuid, 0)
                         case None => sockets
                         case Some(stale) => Closed(Sent(sockets, stale, RegisterError("displaced")), stale);
            !(freed[i].uuid == Some(uuid) && freed[i].open)
  {
    match Find(sockets, uuid, 0)
    case None => FindNone(sockets, uuid, 0, i);
    case Some(stale) =>
      if i < stale {
        assert !Rivals(sockets[i], sockets[stale]);
      } else if stale < i {
        assert !Rivals(sockets[stale], sockets[i]);
      }
  }

  /** Attaching a UUID nobody open has to a socket without one. */
  lemma AttachKeeps(sockets: seq<Socket>, ws: nat, uuid: string)
    requires ws < |sockets| && Good(sockets) && sockets[ws].uuid == None
    requires forall i :: 0 <= i < |sockets| ==> !(sockets[i].uuid == Some(uuid) && sockets[i].open)
    ensures var after := sockets[ws := sockets[ws].(uuid := Some(uuid))];
            Later(sockets, after) && Good(after)
  {
    hide Authentic;
    var after := sockets[ws := sockets[ws].(uuid := Some(uuid))];
    forall i, j | 0 <= i < j < |after|
      ensures !Rivals(after[i], after[j])
    {
      assert !Rivals(sockets[i], sockets[j]);
      assert !(sockets[i].uuid == Some(uuid) && sockets[i].open);
      assert !(sockets[j].uuid == Some(uuid) && sockets[j].open);
    }
    SameOutboxes(sockets, after);
  }

  lemma RegisterKeeps(sockets: seq<Socket>, ws: nat, msg: Object)
    requires ws < |sockets| && Good(sockets)
    ensures Later(sockets, Register(sockets, ws, msg)) && Good(Register(sockets, ws, msg))
  {
    hide Authentic, OneEach, Later, Find, Sent, Closed, IsUuid;
    LaterSelf(sockets);
    if sockets[ws].uuid.Some? {
    } else if !Has(msg, "v", Num(1)) {
      RefusalKeeps(sockets, ws, "bad-version");
    } else if !IsValidUuid(msg, "uuid") {
      RefusalKeeps(sockets, ws, "invalid-uuid");
    } else {
      TakeOverKeeps(sockets, ws, msg["uuid"].s);
    }
  }

  lemma LaterSelf(sockets: seq<Socket>)
    ensures Later(sockets, sockets)
  {
  }

  lemma RefusalKeeps(sockets: seq<Socket>, ws: nat, reason: string)
    requires ws < |sockets| && Good(sockets)
    ensures var after := Closed(Sent(sockets, ws, RegisterError(reason)), ws);
            Later(sockets, after) && Good(after)
  {
    hide Authentic, OneEach, Later, Sent, Closed;
    var told := Sent(sockets, ws, RegisterError(reason));
    SentKeeps(sockets, ws, RegisterError(reason));
    ClosedKeeps(told, ws);
    LaterTwice(sockets, told, Closed(told, ws));
  }

  lemma TakeOverKeeps(sockets: seq<Socket>, ws: nat, uuid: string)
    requires ws < |sockets| && Good(sockets) && sockets[ws].uuid == None
    ensures var freed := match Find(sockets, uuid, 0)
                         case None => sockets
                         case Some(stale) => Closed(Sent(sockets, stale, RegisterError("displaced")), stale);
            var after := Sent(freed[ws := freed[ws].(uuid := Some(uuid))], ws, Registered(uuid));
            Later(sockets, after) && Good(after)
  {
    var freed := match Find(sockets, uuid, 0)
                 case None => sockets
                 case Some(stale) => Closed(Sent(sockets, stale, RegisterError("displaced")), stale);
    forall i | 0 <= i < |freed|
      ensures !(freed[i].uuid == Some(uuid) && freed[i].open)
    {
      Displaced(sockets, uuid, i);
    }
    assert freed[ws].uuid == None;
    hide Authentic, OneEach, Later, Sent, Closed;
    LaterSelf(sockets);
    if Find(sockets, uuid, 0).Some? {
      RefusalKeeps(sockets, Find(sockets, uuid, 0).value, "displaced");
    }
    AttachKeeps(freed, ws, uuid);
    var named := freed[ws := freed[ws].(uuid := Some(uuid))];
    SentKeeps(named, ws, Registered(uuid));
    LaterTwice(sockets, freed, named);
    LaterTwice(sockets, named, Sent(named, ws, Registered(uuid)));
  }

  lemma RelayedKeeps(sockets: seq<Socket>, ws: nat, msg: Object, length: nat)
    requires ws < |sockets| && Good(sockets)
    ensures Later(sockets, Relayed(sockets, ws, msg, length)) && Good(Relayed(sockets, ws, msg, length))
  {
    LaterSelf(sockets);
    match sockets[ws].uuid
    case None =>
      hide Authentic, OneEach, Later, Closed;
      ClosedKeeps(sockets, ws);
    case Some(from) =>
      assert FromRegistered(sockets, Outgoing(msg, from));
      hide Authentic, OneEach, Later, Find, Sent, IsValidUuid, FromRegistered, Outgoing;
      if IsValidUuid(msg, "to") {
        var to := msg["to"].s;
        SentKeeps(sockets, ws, PeerOffline(to));
        if Find(sockets, to, 0).Some? {
          SentKeeps(sockets, Find(sockets, to, 0).value, Forwarded(Outgoing(msg, from)));
        }
      }
  }

  lemma StepKeeps(room: Room, e: Event)
    requires Good(room.sockets)
    ensures Later(room.sockets, Step(room, e).sockets) && Good(Step(room, e).sockets)
  {
    hide Authentic, OneEach, Later, Register, Relayed, Closed;
    var sockets := room.sockets;
    LaterSelf(sockets);
    match e
    case Arrive => ArriveKeeps(sockets);
    case Message(ws, frame, now) =>
      if ws < |sockets| && frame.obj.Some? {
        RegisterKeeps(sockets, ws, frame.obj.value);
        RelayedKeeps(sockets, ws, frame.obj.value, frame.length);
      }
    case Gone(ws) =>
      if ws < |sockets| {
        ClosedKeeps(sockets, ws);
      }
  }

  lemma ArriveKeeps(sockets: seq<Socket>)
    requires Good(sockets)
    ensures Later(sockets, sockets + [Socket(None, true, [])]) && Good(sockets + [Socket(None, true, [])])
  {
    hide Authentic;
    var after := sockets + [Socket(None, true, [])];
    forall i, j | 0 <= i < j < |after|
      ensures !Rivals(after[i], after[j])
    {
      if j < |sockets| {
        assert !Rivals(sockets[i], sockets[j]);
      }
    }
    SameOutboxes(sockets, after);
  }

  /**
   * In every state of every run each UUID has at most one open socket, every forwarded message
   * carries a registered UUID as its sender, and no socket ever changes its UUID or reopens.
   */
  lemma {:induction false} RunKeeps(room: Room, events: seq<Event>)
    requires Good(room.sockets)
    ensures Later(room.sockets, Run(room, events).sockets) && Good(Run(room, events).sockets)
  {
    hide Good, Later, Step;
    if events == [] {
      LaterSelf(room.sockets);
    } else {
      var front := events[..|events| - 1];
      RunKeeps(room, front);
      StepKeeps(Run(room, front), events[|events| - 1]);
      LaterTwice(room.sockets, Run(room, front).sockets, Run(room, events).sockets);
    }
  }

  /** The message `obj` in the outbox of socket `i` is what the event `e` asked to forward to it. */
  predicate Forwards(sockets: seq<Socket>, i: nat, e: Event, obj: Object)
    requires i < |sockets|
  {
    && e.Message? && e.ws < |sockets| && e.ws != i && e.frame.obj.Some?
    && sockets[e.ws].uuid.Some? && obj == Outgoing(e.frame.obj.value, sockets[e.ws].uuid.value)
    && sockets[i].uuid.Some? && Has(e.frame.obj.value, "to", Str(sockets[i].uuid.value))
  }

  /** Some event of the run asked for it. */
  ghost predicate Asked(sockets: seq<Socket>, i: nat, events: seq<Event>, obj: Object)
    requires i < |sockets|
  {
    exists j :: 0 <= j < |events| && Forwards(sockets, i, events[j], obj)
  }

  ghost predicate Traced(sockets: seq<Socket>, events: seq<Event>) {
    forall i, k :: 0 <= i < |sockets| && 0 <= k < |sockets[i].outbox| && sockets[i].outbox[k].Forwarded? ==>
      Asked(sockets, i, events, sockets[i].outbox[k].obj)
  }

  /** What one event adds to the outboxes. */
  ghost predicate Adds(before: seq<Socket>, after: seq<Socket>, e: Event) {
    forall i, k :: 0 <= i < |after| && 0 <= k < |after[i].outbox| && after[i].outbox[k].Forwarded? ==>
      (i < |before| && k < |before[i].outbox|) || Forwards(after, i, e, after[i].outbox[k].obj)
  }

  /** No step but a forward puts a forwarded message into an outbox. */
  lemma SentAdds(sockets: seq<Socket>, ws: nat, out: Out, e: Event)
    requires ws < |sockets| && (out.Forwarded? ==> Forwards(sockets, ws, e, out.obj))
    ensures Adds(sockets, Sent(sockets, ws, out), e)
  {
    hide IsUuid;
  }

  lemma RegisterAdds(sockets: seq<Socket>, ws: nat, msg: Object, e: Event)
    requires ws < |sockets|
    ensures Adds(sockets, Register(sockets, ws, msg), e)
  {
    hide IsValidUuid, Forwards, Find;
  }

  lemma RelayedAdds(sockets: seq<Socket>, ws: nat, msg: Object, length: nat, e: Event)
    requires ws < |sockets| && e.Message? && e.ws == ws && e.frame.obj == Some(msg)
    ensures Adds(sockets, Relayed(sockets, ws, msg, length), e)
  {
    hide IsUuid, Find, Adds, Sent, Outgoing;
    SameAdds(sockets, sockets, e);
    match sockets[ws].uuid
    case None => SameAdds(sockets, Closed(sockets, ws), e);
    case Some(from) =>
      if IsValidUuid(msg, "to") && msg["to"].s != from {
        SentAdds(sockets, ws, PeerOffline(msg["to"].s), e);
        match Find(sockets, msg["to"].s, 0)
        case None =>
        case Some(target) => SentAdds(sockets, target, Forwarded(Outgoing(msg, from)), e);
      }
  }

  lemma SameAdds(before: seq<Socket>, after: seq<Socket>, e: Event)
    requires forall i :: 0 <= i < |after| ==>
               if i < |before| then after[i].outbox == before[i].outbox else after[i].outbox == []
    ensures Adds(before, after, e)
  {
  }

  lemma StepAdds(room: Room, e: Event)
    ensures Adds(room.sockets, Step(room, e).sockets, e)
  {
    hide Adds, Register, Relayed;
    var sockets := room.sockets;
    SameAdds(sockets, Step(room, Arrive).sockets, e);
    SameAdds(sockets, sockets, e);
    match e
    case Arrive =>
    case Message(ws, frame, now) =>
      if ws < |sockets| && frame.obj.Some? {
        RegisterAdds(sockets, ws, frame.obj.value, e);
        RelayedAdds(sockets, ws, frame.obj.value, frame.length, e);
      }
    case Gone(ws) =>
      if ws < |sockets| {
        SameAdds(sockets, Closed(sockets, ws), e);
      }
  }

  lemma StillAsked(before: seq<Socket>, after: seq<Socket>, i: nat, events: seq<Event>, e: Event, obj: Object)
    requires i < |before| && Later(before, after) && Asked(before, i, events, obj)
    ensures Asked(after, i, events + [e], obj)
  {
    var j :| 0 <= j < |events| && Forwards(before, i, events[j], obj);
    assert (events + [e])[j] == events[j];
    assert Continues(before[i], after[i]) && Continues(before[events[j].ws], after[events[j].ws]);
  }

  /**
   * In every run of a room from its start, each forwarded message in a socket's outbox was sent, as it is
   * but for `to` and `from`, by the very socket registered under `from` to the UUID of that socket.
   */
  lemma {:induction false} RunTraced(events: seq<Event>)
    ensures Traced(Run(Room([], map[]), events).sockets, events)
  {
    hide Step, Asked;
    if events != [] {
      var front, e := events[..|events| - 1], events[|events| - 1];
      var before, after := Run(Room([], map[]), front).sockets, Run(Room([], map[]), events).sockets;
      RunTraced(front);
      RunKeeps(Room([], map[]), front);
      StepKeeps(Run(Room([], map[]), front), e);
      StepAdds(Run(Room([], map[]), front), e);
      StepTraced(before, after, front, e);
      assert front + [e] == events;
    }
  }

  lemma StepTraced(before: seq<Socket>, after: seq<Socket>, events: seq<Event>, e: Event)
    requires Traced(before, events) && Later(before, after) && Adds(before, after, e)
    ensures Traced(after, events + [e])
  {
    hide Asked, Forwards;
    forall i, k | 0 <= i < |after| && 0 <= k < |after[i].outbox| && after[i].outbox[k].Forwarded?
      ensures Asked(after, i, events + [e], after[i].outbox[k].obj)
    {
      if i < |before| && k < |before[i].outbox| {
        assert Continues(before[i], after[i]);
        StillAsked(before, after, i, events, e, after[i].outbox[k].obj);
      } else {
        NowAsked(after, i, events, e, after[i].outbox[k].obj);
      }
    }
  }

  lemma NowAsked(sockets: seq<Socket>, i: nat, events: seq<Event>, e: Event, obj: Object)
    requires i < |sockets| && Forwards(sockets, i, e, obj)
    ensures Asked(sockets, i, events + [e], obj)
  {
    assert (events + [e])[|events|] == e;
  }

  /**
   * A message to a registered peer reaches exactly that peer's one open socket, once, with
   * every field as sent except that `to` is gone and `from` is the sender's own UUID.
   */
  lemma RelayDelivers(sockets: seq<Socket>, ws: nat, msg: Object, length: nat, target: nat)
    requires OneEach(sockets) && ws < |sockets| && target < |sockets|
    requires sockets[ws].uuid.Some? && IsValidUuid(msg, "to") && msg["to"].s != sockets[ws].uuid.value
    requires length <= MAX_RELAY || Has(msg, "type", Str("signal"))
    requires sockets[target].open && sockets[target].uuid == Some(msg["to"].s)
    ensures var after, obj := Relayed(sockets, ws, msg, length), Outgoing(msg, sockets[ws].uuid.value);
            && (forall i :: 0 <= i < |sockets| && i != target ==> after[i] == sockets[i])
            && after[target] == sockets[target].(outbox := sockets[target].outbox + [Forwarded(obj)])
            && "to" !in obj && Has(obj, "from", Str(sockets[ws].uuid.value))
            && forall key :: key in msg && key != "to" && key != "from" ==> Has(obj, key, msg[key])
  {
    hide IsUuid, Find;
    var to := msg["to"].s;
    if Find(sockets, to, 0) == None {
      FindNone(sockets, to, 0, target);
    } else {
      OneOnly(sockets, Find(sockets, to, 0).value, target);
    }
  }

  lemma OneOnly(sockets: seq<Socket>, i: nat, j: nat)
    requires OneEach(sockets) && i < |sockets| && j < |sockets|
    requires Rivals(sockets[i], sockets[j])
    ensures i == j
  {
    if i < j {
      Distinct(sockets, i, j);
    } else if j < i {
      Distinct(sockets, j, i);
    }
  }

  lemma Distinct(sockets: seq<Socket>, i: nat, j: nat)
    requires OneEach(sockets) && i < j < |sockets|
    ensures !Rivals(sockets[i], sockets[j])
  {
  }

  // ---- The rate limit ----------------------------------------------------

  /** The rate state after frames at these times, and how many of them were let through. */
  function Admitted(rate: Option<Rate>, times: seq<int>): (Option<Rate>, nat) {
    if times == [] then (rate, 0)
    else
      var (before, n) := Admitted(rate, times[..|times| - 1]);
      var (r, ok) := Counted(before, times[|times| - 1]);
      (Some(r), if ok then n + 1 else n)
  }

  /**
   * However many frames a socket sends, at most 30 of them are let through in its first second
   * and 30 more in each further second begun.
   */
  lemma {:induction false} RateBound(times: seq<int>) returns (windows: nat)
    requires |times| > 0 && forall i, j :: 0 <= i < j < |times| ==> times[i] <= times[j]
    ensures var (rate, n) := Admitted(None, times);
            && rate.Some? && windows > 0 && rate.value.windowStart <= times[|times| - 1]
            && rate.value.windowStart >= times[0] + 1000 * (windows - 1)
            && n <= 30 * (windows - 1) + Min(rate.value.count, 30)
            && n <= 30 * (1 + (times[|times| - 1] - times[0]) / 1000)
  {
    var front := times[..|times| - 1];
    if front == [] {
      windows := 1;
      assert Admitted(None, front) == (None, 0);
    } else {
      windows := RateBound(front);
      var (before, n) := Admitted(None, front);
      if times[|times| - 1] - before.value.windowStart >= 1000 {
        windows := windows + 1;
      }
    }
    assert windows - 1 <= (times[|times| - 1] - times[0]) / 1000;
  }

  /** When the frames of one socket came. */
  function Times(events: seq<Event>, ws: nat): seq<int> {
    if events == [] then []
    else
      var e := events[|events| - 1];
      Times(events[..|events| - 1], ws) + if e.Message? && e.ws == ws then [e.now] else []
  }

  /** The event is a frame of this socket, and the room lets it through. */
  predicate LetThrough(room: Room, e: Event, ws: nat) {
    e.Message? && e.ws == ws < |room.sockets| && Counted(RateOf(room.rates, ws), e.now).1
  }

  function Through(room: Room, events: seq<Event>, ws: nat): nat {
    if events == [] then 0
    else
      var front := events[..|events| - 1];
      Through(room, front, ws) + if LetThrough(Run(room, front), events[|events| - 1], ws) then 1 else 0
  }

  /** A frame that is not let through changes no socket. */
  lemma DroppedDoesNothing(room: Room, e: Event)
    requires e.Message? && !LetThrough(room, e, e.ws)
    ensures Step(room, e).sockets == room.sockets
  {
  }

  lemma StepRate(room: Room, e: Event, ws: nat)
    requires ws < |room.sockets| && e != Gone(ws)
    ensures ws < |Step(room, e).sockets|
    ensures RateOf(Step(room, e).rates, ws) ==
            if e.Message? && e.ws == ws then Some(Counted(RateOf(room.rates, ws), e.now).0)
            else RateOf(room.rates, ws)
  {
    hide Routed, Counted;
  }

  lemma AdmittedMore(rate: Option<Rate>, times: seq<int>, now: int)
    ensures var (before, n) := Admitted(rate, times);
            var (r, ok) := Counted(before, now);
            Admitted(rate, times + [now]) == (Some(r), if ok then n + 1 else n)
  {
    hide Counted;
    assert (times + [now])[..|times|] == times;
  }

  lemma {:induction false} RunAdmits(room: Room, events: seq<Event>, ws: nat)
    requires ws < |room.sockets| && Gone(ws) !in events
    ensures ws < |Run(room, events).sockets|
    ensures Admitted(RateOf(room.rates, ws), Times(events, ws)) ==
            (RateOf(Run(room, events).rates, ws), Through(room, events, ws))
  {
    hide Step, Counted, RateOf;
    if events != [] {
      hide Admitted;
      var front, e := events[..|events| - 1], events[|events| - 1];
      RunAdmits(room, front, ws);
      StepRate(Run(room, front), e, ws);
      if e.Message? && e.ws == ws {
        AdmittedMore(RateOf(room.rates, ws), Times(front, ws), e.now);
      } else {
        assert Times(events, ws) == Times(front, ws);
      }
    }
  }

  /** In a run of the room, as long as a socket is there: 30 frames in its first second, 30 in each further one. */
  lemma RunRateBound(room: Room, events: seq<Event>, ws: nat)
    requires ws < |room.sockets| && ws !in room.rates && Gone(ws) !in events
    requires var times := Times(events, ws);
             times != [] && forall i, j :: 0 <= i < j < |times| ==> times[i] <= times[j]
    ensures var times := Times(events, ws);
            Through(room, events, ws) <= 30 * (1 + (times[|times| - 1] - times[0]) / 1000)
  {
    hide Run, Admitted, Through, Times;
    RunAdmits(room, events, ws);
    var windows := RateBound(Times(events, ws));
  }
}
