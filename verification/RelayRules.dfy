/** Which messages the relay lets through, and what for (server/src/index.js). */
module RelayRules {
  import opened Common
  import opened Relay

  // ---- Identities --------------------------------------------------------

  /** RFC 9562, version 4, in lower case: `x` is a hexadecimal digit, `y` one of the variant, the rest stands. */
  const PATTERN: string := "xxxxxxxx-xxxx-4xxx-yxxx-xxxxxxxxxxxx"

  predicate Fits(c: char, p: char) {
    if p == 'x' then c in "0123456789abcdef"
    else if p == 'y' then c == '8' || c == '9' || c == 'a' || c == 'b'
    else c == p
  }

  lemma HexDigit(c: char)
    ensures Hex(c) <==> c in "0123456789abcdef"
  {
    assert "0123456789abcdef" == ['0', '1', '2', '3', '4', '5', '6', '7', '8', '9', 'a', 'b', 'c', 'd', 'e', 'f'];
  }

  lemma UuidExact(s: string)
    ensures IsUuid(s) <==> |s| == 36 && forall i :: 0 <= i < 36 ==> Fits(s[i], PATTERN[i])
  {
    hide Hex;
    assert |PATTERN| == 36;
    assert PATTERN[8] == PATTERN[13] == PATTERN[18] == PATTERN[23] == '-' && PATTERN[14] == '4' && PATTERN[19] == 'y';
    forall c: char
      ensures Hex(c) <==> c in "0123456789abcdef"
    {
      HexDigit(c);
    }
    assert forall i :: 0 <= i < 36 && i !in {8, 13, 14, 18, 19, 23} ==> PATTERN[i] == 'x';
    if |s| == 36 && forall i :: 0 <= i < 36 ==> Fits(s[i], PATTERN[i]) {
      assert Fits(s[8], PATTERN[8]) && Fits(s[13], PATTERN[13]) && Fits(s[14], PATTERN[14]);
      assert Fits(s[18], PATTERN[18]) && Fits(s[19], PATTERN[19]) && Fits(s[23], PATTERN[23]);
    }
  }

  // ---- Messages ----------------------------------------------------------

  /** The frame's message is of one of the types `types`, and the frame is not too long for any. */
  predicate OfType(frame: Frame, types: set<string>) {
    && frame.length <= 262_144 && frame.obj.Some? && "type" in frame.obj.value
    && frame.obj.value["type"].Str? && frame.obj.value["type"].s in types
  }

  /** The sender `ws` is registered, and the message is for somebody else by a UUID. */
  predicate Addressed(sockets: seq<Socket>, ws: nat, msg: Object, to: string)
    requires ws < |sockets|
  {
    sockets[ws].uuid.Some? && sockets[ws].uuid != Some(to) && Has(msg, "to", Str(to)) && IsUuid(to)
  }

  /** What reaches `target`: the five types, all but signals up to 16 KB, from one registered socket to another. */
  predicate Reaches(room: Room, e: Event, target: nat)
    requires target < |room.sockets|
  {
    && e.Message? && LetThrough(room, e, e.ws)
    && OfType(e.frame, {"connect-request", "connect-response", "password-required", "signal", "end-session"})
    && (e.frame.length <= 16_384 || e.frame.obj.value["type"] == Str("signal"))
    && room.sockets[target].open && room.sockets[target].uuid.Some?
    && Addressed(room.sockets, e.ws, e.frame.obj.value, room.sockets[target].uuid.value)
  }

  /** The event puts a forwarded message into the outbox of `target`. */
  predicate Delivers(room: Room, e: Event, target: nat)
    requires target < |room.sockets|
  {
    var before, after := room.sockets, Step(room, e).sockets;
    && target < |after| && |after[target].outbox| > |before[target].outbox|
    && after[target].outbox[|before[target].outbox|].Forwarded?
  }

  lemma RegisterForwardsNothing(sockets: seq<Socket>, ws: nat, msg: Object, target: nat)
    requires ws < |sockets| && target < |sockets|
    ensures var after := Register(sockets, ws, msg)[target].outbox;
            |after| > |sockets[target].outbox| ==> !after[|sockets[target].outbox|].Forwarded?
  {
    hide IsUuid, Find;
  }

  lemma RelayedExact(sockets: seq<Socket>, ws: nat, msg: Object, length: nat, target: nat)
    requires OneEach(sockets) && ws < |sockets| && target < |sockets|
    ensures var after := Relayed(sockets, ws, msg, length)[target].outbox;
            (|after| > |sockets[target].outbox| && after[|sockets[target].outbox|].Forwarded?) <==>
            && (length <= 16_384 || Has(msg, "type", Str("signal")))
            && sockets[target].open && sockets[target].uuid.Some?
            && Addressed(sockets, ws, msg, sockets[target].uuid.value)
  {
    hide IsUuid, Find;
    if IsValidUuid(msg, "to") {
      match Find(sockets, msg["to"].s, 0)
      case None => FindNone(sockets, msg["to"].s, 0, target);
      case Some(found) =>
        if sockets[target].open && sockets[target].uuid == Some(msg["to"].s) {
          OneOnly(sockets, found, target);
        }
    }
  }

  /** A message is forwarded to a socket exactly when it may be. */
  lemma ForwardExact(room: Room, e: Event, target: nat)
    requires OneEach(room.sockets) && target < |room.sockets|
    ensures Delivers(room, e, target) <==> Reaches(room, e, target)
  {
    hide Register, Relayed, Counted, OneEach, Addressed;
    if e.Message? && e.ws < |room.sockets| && e.frame.obj.Some? {
      RegisterForwardsNothing(room.sockets, e.ws, e.frame.obj.value, target);
      RelayedExact(room.sockets, e.ws, e.frame.obj.value, e.frame.length, target);
    }
  }

  /** Messages of other types, and whatever is too long or no object with a type, change no socket. */
  lemma OthersIgnored(room: Room, e: Event)
    requires e.Message?
    requires !OfType(e.frame, {"register", "connect-request", "connect-response", "password-required", "signal",
                               "end-session"})
    ensures Step(room, e).sockets == room.sockets
  {
    hide Register, Relayed, Counted;
  }

  /** A socket that takes a UUID over: whoever has it is told and closed. */
  function Displaced(s: Socket, uuid: string): Socket {
    if s.open && s.uuid == Some(uuid) then Socket(s.uuid, false, s.outbox + [RegisterError("displaced")]) else s
  }

  /** What a registering socket without a UUID becomes, and what it is told. */
  function Registering(s: Socket, msg: Object): Socket {
    if !Has(msg, "v", Num(1)) then Socket(None, false, s.outbox + [RegisterError("bad-version")])
    else if !IsValidUuid(msg, "uuid") then Socket(None, false, s.outbox + [RegisterError("invalid-uuid")])
    else Socket(Some(msg["uuid"].s), true, s.outbox + [Registered(msg["uuid"].s)])
  }

  lemma TakesOver(sockets: seq<Socket>, ws: nat, msg: Object, i: nat)
    requires OneEach(sockets) && ws < |sockets| && sockets[ws].uuid == None && sockets[ws].open && i < |sockets|
    ensures Register(sockets, ws, msg)[i] ==
            if i == ws then Registering(sockets[ws], msg)
            else if Has(msg, "v", Num(1)) && IsValidUuid(msg, "uuid") then Displaced(sockets[i], msg["uuid"].s)
            else sockets[i]
  {
    hide IsUuid, Find;
    if IsValidUuid(msg, "uuid") {
      match Find(sockets, msg["uuid"].s, 0)
      case None => FindNone(sockets, msg["uuid"].s, 0, i);
      case Some(stale) =>
        if sockets[i].open && sockets[i].uuid == Some(msg["uuid"].s) {
          OneOnly(sockets, stale, i);
        }
    }
  }

  /** Registering, whole: the socket is named or refused, a former holder is displaced, nobody else notices. */
  lemma RegisterExact(room: Room, e: Event, i: nat)
    requires OneEach(room.sockets) && e.Message? && LetThrough(room, e, e.ws) && i < |room.sockets|
    requires OfType(e.frame, {"register"}) && room.sockets[e.ws].uuid == None && room.sockets[e.ws].open
    ensures var msg := e.frame.obj.value;
            Step(room, e).sockets[i] ==
            if i == e.ws then Registering(room.sockets[i], msg)
            else if Has(msg, "v", Num(1)) && IsValidUuid(msg, "uuid") then Displaced(room.sockets[i], msg["uuid"].s)
            else room.sockets[i]
  {
    hide Register, Relayed, Registering, Counted, OneEach;
    TakesOver(room.sockets, e.ws, e.frame.obj.value, i);
  }

  /** Registering again changes nothing. */
  lemma RegisteredStays(room: Room, e: Event)
    requires e.Message? && e.ws < |room.sockets| && OfType(e.frame, {"register"}) && room.sockets[e.ws].uuid.Some?
    ensures Step(room, e).sockets == room.sockets
  {
    hide Relayed, Counted, Find;
  }

  // ---- Two peers ---------------------------------------------------------

  function RegisterFrame(uuid: string, length: nat): Frame {
    Frame(length, Some(map["type" := Str("register"), "v" := Num(1), "uuid" := Str(uuid)]))
  }

  /** From the empty room: two sockets come and register, and what the one sends to the other arrives. */
  lemma Introduced(a: string, b: string, msg: Object, lengths: (nat, nat, nat), times: (int, int, int))
    requires IsUuid(a) && IsUuid(b) && a != b && lengths.0 <= 262_144 && lengths.1 <= 262_144
    requires Has(msg, "to", Str(b)) && OfType(Frame(lengths.2, Some(msg)), {"connect-request", "signal"})
    requires lengths.2 <= 16_384 || msg["type"] == Str("signal")
    ensures var events := [Arrive, Arrive, Message(0, RegisterFrame(a, lengths.0), times.0),
                           Message(1, RegisterFrame(b, lengths.1), times.1),
                           Message(0, Frame(lengths.2, Some(msg)), times.2)];
            Run(Room([], map[]), events).sockets ==
            [Socket(Some(a), true, [Registered(a)]),
             Socket(Some(b), true, [Registered(b), Forwarded(msg["from" := Str(a)] - {"to"})])]
  {
    hide IsUuid, Run, Step, RegisterFrame, OfType;
    TwoArrive();
    var e := [Arrive, Arrive, Message(0, RegisterFrame(a, lengths.0), times.0),
              Message(1, RegisterFrame(b, lengths.1), times.1),
              Message(0, Frame(lengths.2, Some(msg)), times.2)];
    var r0 := Room([], map[]);
    RunEmpty(r0);
    RunStep(r0, [], e[0]);
    RunStep(r0, [e[0]], e[1]);
    RunStep(r0, [e[0], e[1]], e[2]);
    RunStep(r0, [e[0], e[1], e[2]], e[3]);
    RunStep(r0, [e[0], e[1], e[2], e[3]], e[4]);
    var none: seq<Event> := [];
    assert none + [e[0]] == [e[0]] && [e[0]] + [e[1]] == [e[0], e[1]];
    assert [e[0], e[1]] + [e[2]] == [e[0], e[1], e[2]] && [e[0], e[1], e[2]] + [e[3]] == [e[0], e[1], e[2], e[3]];
    assert [e[0], e[1], e[2], e[3]] + [e[4]] == e;
    var fresh0 := Socket(None, true, []);
    var r2 := Run(r0, [e[0], e[1]]);
    assert r2 == Room([fresh0, fresh0], map[]);
    Named(r2, 0, a, lengths.0, times.0);
    var r3 := Run(r0, [e[0], e[1], e[2]]);
    assert r3.sockets == [Socket(Some(a), true, [Registered(a)]), fresh0];
    Named(r3, 1, b, lengths.1, times.1);
    var r4 := Run(r0, [e[0], e[1], e[2], e[3]]);
    assert r4.sockets == [Socket(Some(a), true, [Registered(a)]), Socket(Some(b), true, [Registered(b)])];
    Handed(r4, a, b, msg, lengths.2, times.2);
  }

  lemma TwoArrive()
    ensures Step(Step(Room([], map[]), Arrive), Arrive) == Room([Socket(None, true, []), Socket(None, true, [])], map[])
  {
  }

  lemma RunEmpty(room: Room)
    ensures Run(room, []) == room
  {
  }

  lemma RunStep(room: Room, events: seq<Event>, e: Event)
    ensures Run(room, events + [e]) == Step(Run(room, events), e)
  {
    assert (events + [e])[..|events|] == events;
  }

  lemma Named(room: Room, ws: nat, uuid: string, length: nat, now: int)
    requires ws < |room.sockets| == 2 && length <= 262_144 && IsUuid(uuid) && ws !in room.rates
    requires room.sockets[ws] == Socket(None, true, [])
    requires room.sockets[1 - ws].uuid == None || room.sockets[1 - ws].uuid.value != uuid
    ensures var after := Step(room, Message(ws, RegisterFrame(uuid, length), now));
            && after.sockets == room.sockets[ws := Socket(Some(uuid), true, [Registered(uuid)])]
            && after.rates == room.rates[ws := Rate(1, now)]
  {
    hide IsUuid, Register, Relayed, OneEach;
    var e := Message(ws, RegisterFrame(uuid, length), now);
    OneOfTwo(room.sockets);
    RegisterExact(room, e, 0);
    RegisterExact(room, e, 1);
    var after := Step(room, e).sockets;
    assert |after| == 2 && [] + [Registered(uuid)] == [Registered(uuid)];
    assert after[ws] == Socket(Some(uuid), true, [Registered(uuid)]) && after[1 - ws] == room.sockets[1 - ws];
    assert after == room.sockets[ws := Socket(Some(uuid), true, [Registered(uuid)])];
  }

  lemma OneOfTwo(sockets: seq<Socket>)
    requires |sockets| == 2 && (sockets[0].uuid == None || sockets[0].uuid != sockets[1].uuid)
    ensures OneEach(sockets)
  {
  }

  lemma Handed(room: Room, a: string, b: string, msg: Object, length: nat, now: int)
    requires IsUuid(a) && IsUuid(b) && a != b
    requires room.sockets == [Socket(Some(a), true, [Registered(a)]), Socket(Some(b), true, [Registered(b)])]
    requires 0 in room.rates && room.rates[0].count <= 1
    requires Has(msg, "to", Str(b)) && OfType(Frame(length, Some(msg)), {"connect-request", "signal"})
    requires length <= 16_384 || msg["type"] == Str("signal")
    ensures Step(room, Message(0, Frame(length, Some(msg)), now)).sockets ==
            [room.sockets[0],
             Socket(Some(b), true, [Registered(b), Forwarded(msg["from" := Str(a)] - {"to"})])]
  {
    hide IsUuid, Find, Relayed, OneEach, Register;
    OneOfTwo(room.sockets);
    RelayDelivers(room.sockets, 0, msg, length, 1);
    var after := Step(room, Message(0, Frame(length, Some(msg)), now)).sockets;
    assert after == Relayed(room.sockets, 0, msg, length);
    assert |after| == 2 && after[0] == room.sockets[0];
    var obj := msg["from" := Str(a)] - {"to"};
    assert [Registered(b)] + [Forwarded(obj)] == [Registered(b), Forwarded(obj)];
    assert after[1] == Socket(Some(b), true, [Registered(b), Forwarded(obj)]);
    assert after == [room.sockets[0], after[1]];
  }

  // ---- The rate limit ----------------------------------------------------

  /** Nobody who sends 30 messages or fewer loses any to the limit, however fast. */
  lemma {:induction false} ThirtyPass(times: seq<int>)
    requires |times| <= 30
    ensures var (rate, n) := Admitted(None, times);
            n == |times| && (rate.Some? ==> rate.value.count <= |times|)
  {
    if times != [] {
      ThirtyPass(times[..|times| - 1]);
    }
  }

  /** A pause of a second makes room again, whatever came before. */
  lemma PauseRenews(rate: Rate, now: int)
    requires now - rate.windowStart >= 1000
    ensures Counted(Some(rate), now) == (Rate(1, now), true)
  {
  }
}
