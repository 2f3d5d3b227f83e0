/** The handshake of one engine (native/crates/engine/src/lib.rs, native/crates/platform-api/src/codec.rs). */
module Engine {
  import opened Common

  type Id = string

  // ---- Codecs and permissions --------------------------------------------

  datatype Codec = H264 | Hevc | Av1

  function AsCapsStr(c: Codec): string {
    match c
    case H264 => "H264"
    case Hevc => "HEVC"
    case Av1 => "AV1"
  }

  function FromCapsStr(s: string): Option<Codec> {
    if s == "H264" then Some(H264)
    else if s == "HEVC" then Some(Hevc)
    else if s == "AV1" then Some(Av1)
    else None
  }

  function Negotiate(encodes: seq<Codec>, decodes: seq<Codec>): Codec {
    if Av1 in encodes && Av1 in decodes then Av1
    else if Hevc in encodes && Hevc in decodes then Hevc
    else H264
  }

  /** The chosen codec is one both sides have exactly if they have one in common. */
  lemma NegotiateCommon(encodes: seq<Codec>, decodes: seq<Codec>)
    ensures var c := Negotiate(encodes, decodes);
            && (c in encodes && c in decodes <==> exists d: Codec :: d in encodes && d in decodes)
            && (c != H264 ==> c in encodes && c in decodes)
  {
    forall d: Codec | d in encodes && d in decodes
      ensures Negotiate(encodes, decodes) in encodes && Negotiate(encodes, decodes) in decodes
    {
      assert d == H264 || d == Hevc || d == Av1;
    }
  }

  function CapsOf(codecs: seq<Codec>): seq<string> {
    seq(|codecs|, i requires 0 <= i < |codecs| => AsCapsStr(codecs[i]))
  }

  /** `filter_map(from_caps_str)` */
  function CodecsOf(caps: seq<string>): seq<Codec> {
    if caps == [] then []
    else
      match FromCapsStr(caps[0])
      case None => CodecsOf(caps[1..])
      case Some(c) => [c] + CodecsOf(caps[1..])
  }

  /** Advertised codecs arrive as they were. */
  lemma {:induction false} CapsBack(codecs: seq<Codec>)
    ensures CodecsOf(CapsOf(codecs)) == codecs
  {
    if codecs != [] {
      CapsBack(codecs[1..]);
      assert CapsOf(codecs)[1..] == CapsOf(codecs[1..]);
      assert codecs == [codecs[0]] + codecs[1..];
    }
  }

  datatype Permission = View | Control

  function AsStr(p: Permission): string {
    match p
    case View => "view"
    case Control => "control"
  }

  /** An absent or unknown permission is the lesser one. */
  function PermissionOf(s: Option<string>): Permission {
    if s == Some("control") then Control else View
  }

  function CodecOf(s: Option<string>): Codec {
    match s
    case None => H264
    case Some(name) => (match FromCapsStr(name) case None => H264 case Some(c) => c)
  }

  // ---- State -------------------------------------------------------------

  datatype Role =
    | Idle
    | Host(peer: Id, permission: Permission)
    | Viewer(peer: Id, permission: Permission)

  datatype Login = Login(host: Id, plaintext: string, remember: bool)

  datatype Msg =
    | ConnectRequest(password: Option<string>, caps: Option<seq<string>>)
    | ConnectResponse(accepted: bool, permission: Option<string>, reason: Option<string>, codec: Option<string>)
    | PasswordRequired(nonce: string)
    | EndSession
    | Signal(id: nat)

  datatype Send = Send(to: Id, msg: Msg)

  /** `deciding` is the peer the suspended approval handler waits for the user about. */
  datatype State = State(
    role: Role, outbound: Option<Id>, pendingNonce: map<Id, string>, pendingCaps: map<Id, seq<string>>,
    pendingLogin: Option<Login>, autoAttempted: Option<Id>, negotiated: Codec, deciding: Option<Id>)

  /** The platform's codecs, and the password proof as an uninterpreted function. */
  datatype Env = Env(encodes: seq<Codec>, decodes: seq<Codec>, proof: (string, string) -> string)

  datatype Mode = Password | Approve

  /**
   * What the configuration, the nonce generator and the store of logins say for one message; `fits` is
   * `verify_proof`, of a nonce and a proof.
   */
  datatype Asks = Asks(
    mode: Mode, grants: Permission, nonce: string, fits: (string, string) -> bool, saved: Option<string>)

  function Refusal(to: Id, reason: string): Send {
    Send(to, ConnectResponse(false, None, Some(reason), None))
  }

  function Grant(to: Id, p: Permission, c: Codec): Send {
    Send(to, ConnectResponse(true, Some(AsStr(p)), None, Some(AsCapsStr(c))))
  }

  function NonceFor(s: State, id: Id): string {
    if id in s.pendingNonce then s.pendingNonce[id] else ""
  }

  function CapsFor(s: State, id: Id): seq<string> {
    if id in s.pendingCaps then s.pendingCaps[id] else []
  }

  // ---- Steps -------------------------------------------------------------

  function Accepted(env: Env, s: State, peer: Id, p: Permission): (State, Option<Send>) {
    var c := Negotiate(env.encodes, CodecsOf(CapsFor(s, peer)));
    (s.(role := Host(peer, p), negotiated := c, pendingCaps := s.pendingCaps - {peer}, deciding := None),
     Some(Grant(peer, p, c)))
  }

  /** Without a proof a fresh nonce; with one the nonce is used up, whatever the proof is worth. */
  function PasswordRequested(env: Env, s: State, from: Id, password: Option<string>, asks: Asks):
    (State, Option<Send>)
  {
    if password.None? then
      (s.(pendingNonce := s.pendingNonce[from := asks.nonce]), Some(Send(from, PasswordRequired(asks.nonce))))
    else
      var t := s.(pendingNonce := s.pendingNonce - {from});
      if asks.fits(NonceFor(s, from), password.value) then Accepted(env, t, from, asks.grants)
      else (t, Some(Refusal(from, "bad-password")))
  }

  function Requested(env: Env, s: State, from: Id, password: Option<string>, caps: Option<seq<string>>, asks: Asks):
    (State, Option<Send>)
  {
    if !s.role.Idle? then (s, Some(Refusal(from, "busy")))
    else
      var t := if caps.Some? && caps.value != [] then s.(pendingCaps := s.pendingCaps[from := caps.value]) else s;
      if asks.mode == Approve then (t.(deciding := Some(from)), None)
      else PasswordRequested(env, t, from, password, asks)
  }

  function Decided(env: Env, s: State, decision: Option<Permission>): (State, Option<Send>)
    requires s.deciding.Some?
  {
    match decision
    case None => (s.(deciding := None), Some(Refusal(s.deciding.value, "denied")))
    case Some(p) => Accepted(env, s, s.deciding.value, p)
  }

  function Responded(s: State, from: Id, m: Msg): State
    requires m.ConnectResponse?
  {
    if s.outbound != Some(from) then s
    else
      var t := s.(outbound := None, pendingLogin := None, autoAttempted := None);
      if !m.accepted then t
      else t.(negotiated := CodecOf(m.codec), role := Viewer(from, PermissionOf(m.permission)))
  }

  function Connecting(env: Env, s: State, host: Id): (State, Option<Send>) {
    (s.(outbound := Some(host)), Some(Send(host, ConnectRequest(None, Some(CapsOf(env.decodes))))))
  }

  function Submitted(env: Env, s: State, login: Login): (State, Option<Send>) {
    (s.(pendingNonce := s.pendingNonce - {login.host}, pendingLogin := Some(login)),
     Some(Send(login.host, ConnectRequest(Some(env.proof(login.plaintext, NonceFor(s, login.host))), None))))
  }

  function Challenged(env: Env, s: State, from: Id, nonce: string, saved: Option<string>): (State, Option<Send>) {
    var t := s.(pendingNonce := s.pendingNonce[from := nonce]);
    if s.autoAttempted == Some(from) then (t.(autoAttempted := None), None)
    else
      match saved
      case None => (t, None)
      case Some(plain) => Submitted(env, t.(autoAttempted := Some(from)), Login(from, plain, false))
  }

  /** `end_session_local` */
  function EndedLocally(s: State): State {
    s.(outbound := None, role := Idle)
  }

  function Ended(s: State): (State, Option<Send>) {
    (EndedLocally(s), if s.role.Idle? then None else Some(Send(s.role.peer, EndSession)))
  }

  function RemotelyEnded(s: State, from: Id): State {
    if !s.role.Idle? && s.role.peer == from then EndedLocally(s) else s
  }

  /** `is_session_peer` */
  predicate SessionPeer(s: State, id: Id) {
    (!s.role.Idle? && s.role.peer == id) || s.outbound == Some(id)
  }

  function Offline(s: State, to: Option<Id>): State {
    if to.None? || SessionPeer(s, to.value) then EndedLocally(s) else s
  }

  function Permitted(s: State, p: Permission): State {
    if s.role.Host? then s.(role := Host(s.role.peer, p)) else s
  }

  /** `route` for a message from a peer. */
  function Received(env: Env, s: State, from: Id, m: Msg, asks: Asks): (State, Option<Send>) {
    match m
    case ConnectRequest(password, caps) => Requested(env, s, from, password, caps, asks)
    case ConnectResponse(_, _, _, _) => (Responded(s, from, m), None)
    case PasswordRequired(nonce) => Challenged(env, s, from, nonce, asks.saved)
    case EndSession => (RemotelyEnded(s, from), None)
    case Signal(_) => (s, None)
  }

  function Fresh(): State {
    State(Idle, None, map[], map[], None, None, H264, None)
  }

  // ---- What messages alone can do ----------------------------------------

  datatype Mail = Mail(from: Id, msg: Msg, asks: Asks)

  function Delivered(env: Env, s: State, inbox: seq<Mail>): State
    decreases |inbox|
  {
    if inbox == [] then s
    else Delivered(env, Received(env, s, inbox[0].from, inbox[0].msg, inbox[0].asks).0, inbox[1..])
  }

  /** Once the answer of the host asked is in, nothing anybody sends makes the engine a Viewer. */
  lemma AnsweredOnce(env: Env, s: State, from: Id, m: Msg, inbox: seq<Mail>)
    requires m.ConnectResponse? && s.outbound == Some(from)
    ensures var t := Responded(s, from, m);
            var u := Delivered(env, t, inbox);
            u.outbound.None? && (u.role.Viewer? ==> u.role == t.role)
  {
    UnaskedNeverJoins(env, Responded(s, from, m), inbox);
  }

  lemma {:induction false} UnaskedNeverJoins(env: Env, s: State, inbox: seq<Mail>)
    requires s.outbound.None?
    ensures var t := Delivered(env, s, inbox);
            t.outbound.None? && (t.role.Viewer? ==> t.role == s.role)
    decreases |inbox|
  {
    if inbox != [] {
      UnaskedNeverJoins(env, Received(env, s, inbox[0].from, inbox[0].msg, inbox[0].asks).0, inbox[1..]);
    }
  }

  /** A session with no request out stands as long as its own peer does not end it, whatever is sent. */
  lemma {:induction false} OnlyThePeerEnds(env: Env, s: State, inbox: seq<Mail>)
    requires !s.role.Idle? && s.outbound.None?
    requires forall i: Mail :: i in inbox && i.msg.EndSession? ==> i.from != s.role.peer
    ensures Delivered(env, s, inbox).role == s.role
    decreases |inbox|
  {
    if inbox != [] {
      OnlyThePeerEnds(env, Received(env, s, inbox[0].from, inbox[0].msg, inbox[0].asks).0, inbox[1..]);
    }
  }

  predicate Accepts(sent: Option<Send>) {
    sent.Some? && sent.value.msg.ConnectResponse? && sent.value.msg.accepted
  }

  class Engine {
    const env: Env
    var role: Role
    var outbound: Option<Id>
    var pendingNonce: map<Id, string>
    var pendingCaps: map<Id, seq<string>>
    var pendingLogin: Option<Login>
    var autoAttempted: Option<Id>
    var negotiated: Codec
    var deciding: Option<Id>

    ghost function Now(): State
      reads this
    {
      State(role, outbound, pendingNonce, pendingCaps, pendingLogin, autoAttempted, negotiated, deciding)
    }

    constructor (env: Env)
      ensures this.env == env && Now() == Fresh()
    {
      this.env := env;
      role, outbound, pendingNonce, pendingCaps := Idle, None, map[], map[];
      pendingLogin, autoAttempted, negotiated, deciding := None, None, H264, None;
    }

    method OnConnectRequest(from: Id, password: Option<string>, caps: Option<seq<string>>, asks: Asks)
      returns (sent: Option<Send>)
      modifies this
      ensures (Now(), sent) == Requested(env, old(Now()), from, password, caps, asks)
      ensures role != old(role) ==>
              && old(role).Idle? && asks.mode == Password && password.Some? && role == Host(from, asks.grants)
              && asks.fits(NonceFor(old(Now()), from), password.value)
      ensures Accepts(sent) <==> role != old(role)
    {
      if !role.Idle? {
        return Some(Refusal(from, "busy"));
      }
      var decode := if caps.Some? then caps.value else [];
      if decode != [] {
        pendingCaps := pendingCaps[from := decode];
      }
      match asks.mode {
        case Password => sent := HandlePasswordRequest(from, password, asks);
        case Approve =>
          deciding := Some(from);
          sent := None;
      }
    }

    method HandlePasswordRequest(from: Id, password: Option<string>, asks: Asks) returns (sent: Option<Send>)
      modifies this
      ensures (Now(), sent) == PasswordRequested(env, old(Now()), from, password, asks)
      ensures password.Some? ==> from !in pendingNonce
      ensures Accepts(sent) <==> password.Some? && asks.fits(NonceFor(old(Now()), from), password.value)
      ensures !Accepts(sent) ==> role == old(role)
    {
      if password.None? {
        pendingNonce := pendingNonce[from := asks.nonce];
        return Some(Send(from, PasswordRequired(asks.nonce)));
      }
      var nonce := if from in pendingNonce then pendingNonce[from] else "";
      pendingNonce := pendingNonce - {from};
      if asks.fits(nonce, password.value) {
        sent := Accept(from, asks.grants);
      } else {
        sent := Some(Refusal(from, "bad-password"));
      }
    }

    /** The rest of `handle_approve_request`, once the user has decided. */
    method OnDecision(decision: Option<Permission>) returns (sent: Option<Send>)
      requires deciding.Some?
      modifies this
      ensures (Now(), sent) == Decided(env, old(Now()), decision)
      ensures deciding.None? && sent.Some? && sent.value.to == old(deciding).value
      ensures Accepts(sent) <==> decision.Some?
      ensures !Accepts(sent) ==> role == old(role)
    {
      var from := deciding.value;
      match decision {
        case None =>
          deciding := None;
          sent := Some(Refusal(from, "denied"));
        case Some(p) => sent := Accept(from, p);
      }
    }

    method Accept(peer: Id, permission: Permission) returns (sent: Option<Send>)
      modifies this
      ensures (Now(), sent) == Accepted(env, old(Now()), peer, permission)
      ensures Accepts(sent) && peer !in pendingCaps && outbound == old(outbound)
    {
      var decode := if peer in pendingCaps then pendingCaps[peer] else [];
      pendingCaps := pendingCaps - {peer};
      var chosen := Negotiate(env.encodes, CodecsOf(decode));
      negotiated := chosen;
      sent := Some(Grant(peer, permission, chosen));
      role := Host(peer, permission);
      deciding := None;
    }

    method ConnectTo(host: Id) returns (sent: Option<Send>)
      modifies this`outbound
      ensures (Now(), sent) == Connecting(env, old(Now()), host)
    {
      outbound := Some(host);
      sent := Some(Send(host, ConnectRequest(None, Some(CapsOf(env.decodes)))));
    }

    method SubmitPassword(login: Login) returns (sent: Option<Send>)
      modifies this
      ensures (Now(), sent) == Submitted(env, old(Now()), login)
      ensures login.host !in pendingNonce && role == old(role) && outbound == old(outbound)
    {
      var nonce := if login.host in pendingNonce then pendingNonce[login.host] else "";
      pendingNonce := pendingNonce - {login.host};
      pendingLogin := Some(login);
      sent := Some(Send(login.host, ConnectRequest(Some(env.proof(login.plaintext, nonce)), None)));
    }

    method OnPasswordRequired(from: Id, nonce: string, saved: Option<string>) returns (sent: Option<Send>)
      modifies this
      ensures (Now(), sent) == Challenged(env, old(Now()), from, nonce, saved)
      ensures sent.Some? <==> old(autoAttempted) != Some(from) && saved.Some?
      ensures sent.Some? ==> autoAttempted == Some(from)
      ensures role == old(role) && outbound == old(outbound)
    {
      pendingNonce := pendingNonce[from := nonce];
      if autoAttempted == Some(from) {
        autoAttempted := None;
        return None;
      }
      if saved.Some? {
        autoAttempted := Some(from);
        sent := SubmitPassword(Login(from, saved.value, false));
      } else {
        sent := None;
      }
    }

    method OnConnectResponse(from: Id, m: Msg)
      requires m.ConnectResponse?
      modifies this
      ensures Now() == Responded(old(Now()), from, m)
      ensures Now() != old(Now()) ==> old(outbound) == Some(from) && outbound.None?
      ensures role != old(role) ==> m.accepted && role.Viewer? && role.peer == from
    {
      if outbound != Some(from) {
        return;
      }
      outbound := None;
      if !m.accepted {
        pendingLogin := None;
        autoAttempted := None;
        return;
      }
      autoAttempted := None;
      pendingLogin := None;
      negotiated := CodecOf(m.codec);
      role := Viewer(from, PermissionOf(m.permission));
    }

    method SetPermission(p: Permission)
      modifies this`role
      ensures Now() == Permitted(old(Now()), p)
      ensures old(role).Host? ==> role == Host(old(role).peer, p)
      ensures !old(role).Host? ==> role == old(role)
    {
      if role.Host? {
        role := Host(role.peer, p);
      }
    }

    method End() returns (sent: Option<Send>)
      modifies this
      ensures (Now(), sent) == Ended(old(Now()))
      ensures forall id :: !SessionPeer(Now(), id)
    {
      outbound := None;
      sent := if role.Idle? then None else Some(Send(role.peer, EndSession));
      EndLocal();
    }

    method EndLocal()
      modifies this`outbound, this`role
      ensures Now() == EndedLocally(old(Now()))
    {
      outbound := None;
      role := Idle;
    }

    method OnRemoteEnd(from: Id)
      modifies this
      ensures Now() == RemotelyEnded(old(Now()), from)
      ensures Now() != old(Now()) ==> !old(role).Idle? && old(role).peer == from && role.Idle?
    {
      if !role.Idle? && role.peer == from {
        EndLocal();
      }
    }

    method OnRelayError(to: Option<Id>)
      modifies this
      ensures Now() == Offline(old(Now()), to)
      ensures Now() != old(Now()) ==> to.None? || SessionPeer(old(Now()), to.value)
      ensures to.Some? ==> !SessionPeer(Now(), to.value)
    {
      var ours := to.None? || (!role.Idle? && role.peer == to.value) || outbound == to;
      if ours {
        EndLocal();
      }
    }

    /** `route` */
    method Route(from: Id, m: Msg, asks: Asks) returns (sent: Option<Send>)
      modifies this
      ensures (Now(), sent) == Received(env, old(Now()), from, m, asks)
    {
      sent := None;
      match m {
        case ConnectRequest(password, caps) => sent := OnConnectRequest(from, password, caps, asks);
        case ConnectResponse(_, _, _, _) => OnConnectResponse(from, m);
        case PasswordRequired(nonce) => sent := OnPasswordRequired(from, nonce, asks.saved);
        case EndSession => OnRemoteEnd(from);
        case Signal(_) =>
      }
    }
  }
}
