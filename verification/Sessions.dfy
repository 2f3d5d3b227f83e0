/** Challenges, proofs, and whole handshakes that end in a session (native/crates/engine/src/lib.rs). */
module Sessions {
  import opened Common
  import opened Engine
  import opened Handshake
  import opened CodecChoice

  // ---- Which nonce is in use ---------------------------------------------

  /** A request of `peer` that reaches the password check of an idle host. */
  predicate Knocks(s: State, input: Input, peer: Id) {
    && Enabled(s, input) && s.role.Idle? && input.Deliver? && input.from == peer
    && input.msg.ConnectRequest? && input.asks.mode == Password
  }

  /** By the history alone: the last nonce issued to `peer` or received from it that no proof has used up. */
  function NonceSince(env: Env, inputs: seq<Input>, peer: Id): Option<string> {
    if inputs == [] then None
    else
      var front, input := inputs[..|inputs| - 1], inputs[|inputs| - 1];
      var s := Since(env, front);
      if Knocks(s, input, peer) then
        if input.msg.password.None? then Some(input.asks.nonce) else None
      else if Enabled(s, input) && input.Submit? && input.login.host == peer then None
      else if Enabled(s, input) && input.Deliver? && input.from == peer && input.msg.PasswordRequired? then
        if Did(env, s, input).1.Some? then None else Some(input.msg.nonce)
      else NonceSince(env, front, peer)
  }

  function Pending(s: State, peer: Id): Option<string> {
    if peer in s.pendingNonce then Some(s.pendingNonce[peer]) else None
  }

  lemma DidNonce(env: Env, s: State, input: Input, peer: Id)
    ensures var (t, sent) := Did(env, s, input);
            Pending(t, peer) ==
            if Knocks(s, input, peer) then
              if input.msg.password.None? then Some(input.asks.nonce) else None
            else if Enabled(s, input) && input.Submit? && input.login.host == peer then None
            else if Enabled(s, input) && input.Deliver? && input.from == peer && input.msg.PasswordRequired? then
              if sent.Some? then None else Some(input.msg.nonce)
            else Pending(s, peer)
  {
    hide Negotiate, CodecsOf, CapsOf, AsCapsStr, AsStr, CodecOf, PermissionOf, NonceFor, Grant;
  }

  lemma {:induction false} RemembersNonce(env: Env, inputs: seq<Input>, peer: Id)
    ensures Pending(Since(env, inputs), peer) == NonceSince(env, inputs, peer)
  {
    hide Did, Pending, Knocks, Enabled;
    if inputs == [] {
      NoneYet(peer);
    } else {
      var front := inputs[..|inputs| - 1];
      RemembersNonce(env, front, peer);
      DidNonce(env, Since(env, front), inputs[|inputs| - 1], peer);
    }
  }

  lemma NoneYet(peer: Id)
    ensures Pending(Fresh(), peer) == None
  {
  }

  function OrEmpty(n: Option<string>): string {
    match n case None => "" case Some(nonce) => nonce
  }

  /** In every run: a password is sent as the proof against the host's last challenge, and used up with it. */
  lemma ProofOfLastNonce(env: Env, inputs: seq<Input>, login: Login)
    requires Enabled(Since(env, inputs), Submit(login))
    ensures Did(env, Since(env, inputs), Submit(login)).1 ==
            var nonce := OrEmpty(NonceSince(env, inputs, login.host));
            Some(Send(login.host, ConnectRequest(Some(env.proof(login.plaintext, nonce)), None)))
    ensures NonceSince(env, inputs + [Submit(login)], login.host) == None
  {
    hide Since;
    RemembersNonce(env, inputs, login.host);
    assert (inputs + [Submit(login)])[..|inputs|] == inputs;
  }

  /** In every run: an idle host in password mode accepts a proof exactly if it fits the nonce it last issued. */
  lemma AcceptsFittingProof(env: Env, inputs: seq<Input>, from: Id, proof: string, caps: Option<seq<string>>,
                            asks: Asks)
    requires var s := Since(env, inputs); s.role.Idle? && s.deciding.None? && asks.mode == Password
    ensures var input := Deliver(from, ConnectRequest(Some(proof), caps), asks);
            var (t, sent) := Did(env, Since(env, inputs), input);
            && (Accepts(sent) <==> asks.fits(OrEmpty(NonceSince(env, inputs, from)), proof))
            && (Accepts(sent) ==> t.role == Host(from, asks.grants))
            && (!Accepts(sent) ==>
                  t.role.Idle? && sent == Some(Send(from, ConnectResponse(false, None, Some("bad-password"), None))))
            && NonceSince(env, inputs + [input], from) == None
  {
    hide Since, Negotiate, CodecsOf, AsCapsStr, AsStr;
    RemembersNonce(env, inputs, from);
    var input := Deliver(from, ConnectRequest(Some(proof), caps), asks);
    assert (inputs + [input])[..|inputs|] == inputs;
  }

  // ---- Whole handshakes --------------------------------------------------

  lemma {:induction false} OneMore(envs: Id -> Env, w: World, steps: seq<Step>, step: Step)
    requires Possibles(envs, w, steps) && Possible(After(envs, w, steps), step)
    ensures Possibles(envs, w, steps + [step])
    ensures After(envs, w, steps + [step]) == Next(envs, After(envs, w, steps), step)
    decreases |steps|
  {
    hide Next, Possible;
    var more := steps + [step];
    if steps == [] {
      assert more[1..] == [];
    } else {
      OneMore(envs, Next(envs, w, steps[0]), steps[1..], step);
      assert more[1..] == steps[1..] + [step];
    }
  }

  /** Where a run has got: the two engines, and the last message sent, still on its way. */
  ghost predicate Got(envs: Id -> Env, ids: set<Id>, steps: seq<Step>, host: Id, h: State, viewer: Id, v: State,
                      last: Option<Packet>)
  {
    && Possibles(envs, Start(ids), steps)
    && var w := After(envs, Start(ids), steps);
       && host in w.engines && w.engines[host] == h && viewer in w.engines && w.engines[viewer] == v
       && (last.Some? ==> last.value in w.net)
  }

  /** The host or the viewer acts next, on the last message if it is handed one. */
  lemma Moves(envs: Id -> Env, ids: set<Id>, steps: seq<Step>, host: Id, h: State, viewer: Id, v: State,
              last: Option<Packet>, id: Id, input: Input)
    requires Got(envs, ids, steps, host, h, viewer, v, last) && host != viewer && (id == host || id == viewer)
    requires Enabled(if id == host then h else v, input)
    requires input.Deliver? ==> last == Some(Packet(input.from, id, input.msg))
    ensures var (t, sent) := Acted(envs(id), if id == host then h else v, input);
            Got(envs, ids, steps + [Act(id, input)], host, if id == host then t else h,
                viewer, if id == host then v else t,
                if sent.Some? then Some(Packet(id, sent.value.to, sent.value.msg)) else None)
  {
    hide Acted, Record, Enabled, Possibles, After, Start, Next;
    var w := After(envs, Start(ids), steps);
    OneMore(envs, Start(ids), steps, Act(id, input));
    ActNext(envs, w, id, input);
  }

  /** What the host's configuration says, what the user types, and what comes with the viewer's messages. */
  datatype Plan = Plan(host: Asks, viewer: Asks, login: Login)

  function Request(env: Env): Msg {
    ConnectRequest(None, Some(CapsOf(env.decodes)))
  }

  function Proof(envs: Id -> Env, viewer: Id, plan: Plan): Msg {
    ConnectRequest(Some(envs(viewer).proof(plan.login.plaintext, plan.host.nonce)), None)
  }

  /** The steps of a handshake with a password, up to the host's answer. */
  function PasswordSteps(envs: Id -> Env, host: Id, viewer: Id, plan: Plan): seq<Step> {
    [Act(viewer, ConnectTo(host)), Act(host, Deliver(viewer, Request(envs(viewer)), plan.host)),
     Act(viewer, Deliver(host, PasswordRequired(plan.host.nonce), plan.viewer)), Act(viewer, Submit(plan.login)),
     Act(host, Deliver(viewer, Proof(envs, viewer, plan), plan.host))]
  }

  /** The viewer asks and is challenged. */
  lemma AskedAndChallenged(envs: Id -> Env, host: Id, viewer: Id, plan: Plan)
    requires host != viewer && plan.host.mode == Password && plan.viewer.saved == None
    ensures var caps := CapsOf(envs(viewer).decodes);
            var h := Fresh().(pendingNonce := map[viewer := plan.host.nonce],
                              pendingCaps := if caps != [] then map[viewer := caps] else map[]);
            var v := Fresh().(outbound := Some(host), pendingNonce := map[host := plan.host.nonce]);
            Got(envs, {host, viewer}, PasswordSteps(envs, host, viewer, plan)[..3], host, h, viewer, v, None)
  {
    hide Got, CapsOf;
    var ids, steps := {host, viewer}, PasswordSteps(envs, host, viewer, plan);
    var caps := CapsOf(envs(viewer).decodes);
    var v := Fresh().(outbound := Some(host));
    var h := Fresh().(pendingNonce := map[viewer := plan.host.nonce],
                      pendingCaps := if caps != [] then map[viewer := caps] else map[]);
    Begun(envs, host, viewer);
    var none: seq<Step> := [];
    Moves(envs, ids, none, host, Fresh(), viewer, Fresh(), None, viewer, steps[0].input);
    assert none + [steps[0]] == [steps[0]] && [steps[0]] + [steps[1]] == [steps[0], steps[1]];
    var asked := Packet(viewer, host, Request(envs(viewer)));
    Moves(envs, ids, [steps[0]], host, Fresh(), viewer, v, Some(asked), host, steps[1].input);
    var challenge := Packet(host, viewer, PasswordRequired(plan.host.nonce));
    Moves(envs, ids, [steps[0], steps[1]], host, h, viewer, v, Some(challenge), viewer, steps[2].input);
    assert steps[..3] == [steps[0], steps[1]] + [steps[2]];
  }

  lemma Begun(envs: Id -> Env, host: Id, viewer: Id)
    ensures Got(envs, {host, viewer}, [], host, Fresh(), viewer, Fresh(), None)
  {
  }

  /** Both are in a session with each other, with this permission and the first codec both have. */
  ghost predicate InSession(envs: Id -> Env, ids: set<Id>, steps: seq<Step>, host: Id, viewer: Id, p: Permission) {
    && Possibles(envs, Start(ids), steps)
    && var w := After(envs, Start(ids), steps);
       && host in w.engines && viewer in w.engines
       && w.engines[host].role == Host(viewer, p) && w.engines[viewer].role == Viewer(host, p)
       && w.engines[host].negotiated == w.engines[viewer].negotiated
       && FirstCommon(w.engines[host].negotiated, envs(host).encodes, envs(viewer).decodes)
  }

  /** Neither is in a session, and the viewer may ask again. */
  ghost predicate Turned(envs: Id -> Env, ids: set<Id>, steps: seq<Step>, host: Id, viewer: Id) {
    && Possibles(envs, Start(ids), steps)
    && var w := After(envs, Start(ids), steps);
       && host in w.engines && viewer in w.engines
       && w.engines[host].role == Idle && w.engines[viewer].role == Idle && w.engines[viewer].outbound == None
  }

  /** The last step: the viewer takes the answer. */
  lemma AnswerTaken(envs: Id -> Env, steps: seq<Step>, host: Id, h: State, viewer: Id, v: State, p: Permission,
                    c: Codec, asks: Asks)
    requires Got(envs, {host, viewer}, steps, host, h, viewer, v, Some(Packet(host, viewer, Grant(viewer, p, c).msg)))
    requires host != viewer && v.outbound == Some(host) && v.deciding == None && h.role == Host(viewer, p)
    requires h.negotiated == c && FirstCommon(c, envs(host).encodes, envs(viewer).decodes)
    ensures InSession(envs, {host, viewer}, steps + [Act(viewer, Deliver(host, Grant(viewer, p, c).msg, asks))],
                      host, viewer, p)
  {
    hide Possibles, After, Start, AsStr, AsCapsStr, PermissionOf, CodecOf, FirstCommon;
    GrantBack(p, c);
    Moves(envs, {host, viewer}, steps, host, h, viewer, v, Some(Packet(host, viewer, Grant(viewer, p, c).msg)), viewer,
          Deliver(host, Grant(viewer, p, c).msg, asks));
  }

  lemma RefusalTaken(envs: Id -> Env, steps: seq<Step>, host: Id, h: State, viewer: Id, v: State, reason: string,
                     asks: Asks)
    requires Got(envs, {host, viewer}, steps, host, h, viewer, v,
                 Some(Packet(host, viewer, Refusal(viewer, reason).msg)))
    requires host != viewer && v.outbound == Some(host) && v.deciding == None && v.role == Idle && h.role == Idle
    ensures Turned(envs, {host, viewer}, steps + [Act(viewer, Deliver(host, Refusal(viewer, reason).msg, asks))],
                   host, viewer)
  {
    hide Possibles, After, Start;
    Moves(envs, {host, viewer}, steps, host, h, viewer, v,
          Some(Packet(host, viewer, Refusal(viewer, reason).msg)), viewer,
          Deliver(host, Refusal(viewer, reason).msg, asks));
  }

  /** The codec of an acceptance by a host that has just been told. */
  function Best(envs: Id -> Env, host: Id, viewer: Id): Codec {
    Negotiate(envs(host).encodes, CodecsOf(CapsOf(envs(viewer).decodes)))
  }

  lemma BestIsFirst(envs: Id -> Env, host: Id, viewer: Id)
    ensures FirstCommon(Best(envs, host, viewer), envs(host).encodes, envs(viewer).decodes)
  {
    NegotiatesFirst(envs(host).encodes, CapsOf(envs(viewer).decodes));
    NamedIsDecoded(envs(viewer).decodes, Best(envs, host, viewer), envs(host).encodes);
  }

  /**
   * A handshake with a password from any two engines' start, nothing being lost: it ends in a session with the
   * host's permission and the first codec both have exactly if the proof fits, else neither is in one.
   */
  lemma PasswordSession(envs: Id -> Env, host: Id, viewer: Id, plan: Plan)
    requires host != viewer && plan.host.mode == Password && plan.viewer.saved == None && plan.login.host == host
    ensures var fits := plan.host.fits(plan.host.nonce, envs(viewer).proof(plan.login.plaintext, plan.host.nonce));
            var steps, p, c := PasswordSteps(envs, host, viewer, plan), plan.host.grants, Best(envs, host, viewer);
            var yes := Act(viewer, Deliver(host, Grant(viewer, p, c).msg, plan.viewer));
            var no := Act(viewer, Deliver(host, Refusal(viewer, "bad-password").msg, plan.viewer));
            if fits then InSession(envs, {host, viewer}, steps + [yes], host, viewer, p)
            else Turned(envs, {host, viewer}, steps + [no], host, viewer)
  {
    hide Got, CapsOf, CodecsOf, Negotiate, InSession, Turned, FirstCommon;
    var ids, steps := {host, viewer}, PasswordSteps(envs, host, viewer, plan);
    var caps := CapsOf(envs(viewer).decodes);
    var h := Fresh().(pendingNonce := map[viewer := plan.host.nonce],
                      pendingCaps := if caps != [] then map[viewer := caps] else map[]);
    var v := Fresh().(outbound := Some(host), pendingNonce := map[host := plan.host.nonce]);
    AskedAndChallenged(envs, host, viewer, plan);
    Moves(envs, ids, steps[..3], host, h, viewer, v, None, viewer, steps[3].input);
    var v2 := Submitted(envs(viewer), v, plan.login).0;
    var proof := Packet(viewer, host, Proof(envs, viewer, plan));
    assert steps[..3] + [steps[3]] == steps[..4];
    Moves(envs, ids, steps[..4], host, h, viewer, v2, Some(proof), host, steps[4].input);
    assert steps[..4] + [steps[4]] == steps;
    var h2 := Requested(envs(host), h, viewer, Proof(envs, viewer, plan).password, None, plan.host).0;
    if plan.host.fits(plan.host.nonce, envs(viewer).proof(plan.login.plaintext, plan.host.nonce)) {
      BestIsFirst(envs, host, viewer);
      AnswerTaken(envs, steps, host, h2, viewer, v2, plan.host.grants, Best(envs, host, viewer), plan.viewer);
    } else {
      RefusalTaken(envs, steps, host, h2, viewer, v2, "bad-password", plan.viewer);
    }
  }

  /** The steps of a handshake in which the host's user decides. */
  function ApprovalSteps(envs: Id -> Env, host: Id, viewer: Id, plan: Plan, decision: Option<Permission>): seq<Step> {
    [Act(viewer, ConnectTo(host)), Act(host, Deliver(viewer, Request(envs(viewer)), plan.host)),
     Act(host, Decide(decision))]
  }

  /** The same when the host's user is asked: the user's permission, or no session. */
  lemma ApprovedSession(envs: Id -> Env, host: Id, viewer: Id, plan: Plan, decision: Option<Permission>)
    requires host != viewer && plan.host.mode == Approve
    ensures var steps, c := ApprovalSteps(envs, host, viewer, plan, decision), Best(envs, host, viewer);
            match decision
            case Some(p) =>
              InSession(envs, {host, viewer},
                        steps + [Act(viewer, Deliver(host, Grant(viewer, p, c).msg, plan.viewer))], host, viewer, p)
            case None =>
              Turned(envs, {host, viewer},
                     steps + [Act(viewer, Deliver(host, Refusal(viewer, "denied").msg, plan.viewer))], host, viewer)
  {
    hide Got, CapsOf, CodecsOf, Negotiate, InSession, Turned, FirstCommon;
    var ids, steps := {host, viewer}, ApprovalSteps(envs, host, viewer, plan, decision);
    var caps := CapsOf(envs(viewer).decodes);
    var v := Fresh().(outbound := Some(host));
    var h := Fresh().(deciding := Some(viewer), pendingCaps := if caps != [] then map[viewer := caps] else map[]);
    Begun(envs, host, viewer);
    var none: seq<Step> := [];
    Moves(envs, ids, none, host, Fresh(), viewer, Fresh(), None, viewer, steps[0].input);
    assert none + [steps[0]] == [steps[0]] && [steps[0]] + [steps[1]] == [steps[0], steps[1]];
    var asked := Packet(viewer, host, Request(envs(viewer)));
    Moves(envs, ids, [steps[0]], host, Fresh(), viewer, v, Some(asked), host, steps[1].input);
    Moves(envs, ids, [steps[0], steps[1]], host, h, viewer, v, None, host, steps[2].input);
    assert [steps[0], steps[1]] + [steps[2]] == steps;
    var h2 := Decided(envs(host), h, decision).0;
    match decision
    case Some(p) =>
      BestIsFirst(envs, host, viewer);
      AnswerTaken(envs, steps, host, h2, viewer, v, p, Best(envs, host, viewer), plan.viewer);
    case None => RefusalTaken(envs, steps, host, h2, viewer, v, "denied", plan.viewer);
  }

  // ---- What ends, changes or refuses a session ---------------------------

  /** The session's peer, or the host asked. */
  predicate Concerns(s: State, id: Id) {
    match s.role
    case Idle => s.outbound == Some(id)
    case Host(peer, _) => peer == id || s.outbound == Some(id)
    case Viewer(peer, _) => peer == id || s.outbound == Some(id)
  }

  /** The input ends what there is. */
  predicate Ends(s: State, input: Input) {
    match input
    case EndIt => true
    case PeerOffline(to) => to.None? || Concerns(s, to.value)
    case Deliver(from, EndSession, _) => !s.role.Idle? && s.role.peer == from
    case _ => false
  }

  /**
   * The user, the session's peer, and the relay's word that the peer is not there end session and request
   * alike; the same from anyone else changes nothing. Only the user's end is told to the peer.
   */
  lemma EndsExact(env: Env, s: State, input: Input)
    requires Enabled(s, input)
    requires input.EndIt? || input.PeerOffline? || (input.Deliver? && input.msg.EndSession?)
    ensures var (t, sent) := Acted(env, s, input);
            && t == (if Ends(s, input) then s.(role := Idle, outbound := None) else s)
            && sent == (if input.EndIt? && !s.role.Idle? then Some(Send(s.role.peer, EndSession)) else None)
  {
  }

  /** The user's answer ends the wait for it, whatever it is. */
  lemma DecisionEnds(env: Env, s: State, decision: Option<Permission>)
    requires s.deciding.Some?
    ensures var (t, sent) := Acted(env, s, Decide(decision));
            && t.deciding.None? && sent.Some? && sent.value.to == s.deciding.value
            && (Accepts(sent) <==> decision.Some?) && (decision.None? ==> t.role == s.role)
  {
    hide Negotiate, CodecsOf, AsCapsStr, AsStr;
  }

  /** A host's permission is what was set last; nobody else has one to set. */
  lemma PermissionSet(env: Env, s: State, p: Permission)
    ensures var (t, sent) := Acted(env, s, SetPerm(p));
            && sent == None && t.outbound == s.outbound
            && t.role == (match s.role case Host(peer, _) => Host(peer, p) case other => other)
  {
  }

  /** Whoever knocks during a session is told so, and nothing else happens. */
  lemma BusyRefused(env: Env, s: State, from: Id, password: Option<string>, caps: Option<seq<string>>, asks: Asks)
    requires !s.role.Idle? && s.deciding.None?
    ensures Acted(env, s, Deliver(from, ConnectRequest(password, caps), asks)) ==
            (s, Some(Send(from, ConnectResponse(false, None, Some("busy"), None))))
  {
  }

  // ---- Saved passwords ---------------------------------------------------

  /**
   * By the history alone: the host whose challenge was last answered with a saved password, no second
   * challenge from it and no answer of the host asked having come since.
   */
  function TriedSince(env: Env, inputs: seq<Input>): Option<Id> {
    if inputs == [] then None
    else
      var front, input := inputs[..|inputs| - 1], inputs[|inputs| - 1];
      var s, tried := Since(env, front), TriedSince(env, front);
      if !Enabled(s, input) || !input.Deliver? then tried
      else if input.msg.PasswordRequired? then
        if tried == Some(input.from) then None
        else if input.asks.saved.Some? then Some(input.from)
        else tried
      else if input.msg.ConnectResponse? && s.outbound == Some(input.from) then None
      else tried
  }

  lemma DidTry(env: Env, s: State, input: Input)
    ensures var (t, sent) := Did(env, s, input);
            t.autoAttempted ==
            if !Enabled(s, input) || !input.Deliver? then s.autoAttempted
            else if input.msg.PasswordRequired? then
              if s.autoAttempted == Some(input.from) then None
              else if input.asks.saved.Some? then Some(input.from)
              else s.autoAttempted
            else if input.msg.ConnectResponse? && s.outbound == Some(input.from) then None
            else s.autoAttempted
  {
    hide Negotiate, CodecsOf, CapsOf, AsCapsStr, AsStr, CodecOf, PermissionOf, NonceFor, Grant;
  }

  lemma {:induction false} RemembersTry(env: Env, inputs: seq<Input>)
    ensures Since(env, inputs).autoAttempted == TriedSince(env, inputs)
  {
    hide Did, Enabled;
    if inputs != [] {
      var front := inputs[..|inputs| - 1];
      RemembersTry(env, front);
      DidTry(env, Since(env, front), inputs[|inputs| - 1]);
    }
  }

  /** In every run: a saved password answers a challenge at once, but not a second one of the same host in a row. */
  lemma SavedPasswordOnce(env: Env, inputs: seq<Input>, from: Id, nonce: string, asks: Asks)
    requires Since(env, inputs).deciding.None?
    ensures var input := Deliver(from, PasswordRequired(nonce), asks);
            var sent := Did(env, Since(env, inputs), input).1;
            sent ==
            match asks.saved
            case None => None
            case Some(plain) =>
              if TriedSince(env, inputs) == Some(from) then None
              else Some(Send(from, ConnectRequest(Some(env.proof(plain, nonce)), None)))
  {
    hide Since;
    RemembersTry(env, inputs);
  }

  /**
   * By the history alone: the password last sent and not yet answered, and whether the user wants it saved. One that
   * came from the store is not to be saved again.
   */
  function PasswordOut(env: Env, inputs: seq<Input>): Option<Login> {
    if inputs == [] then None
    else
      var front, input := inputs[..|inputs| - 1], inputs[|inputs| - 1];
      var s, out := Since(env, front), PasswordOut(env, front);
      if !Enabled(s, input) then out
      else if input.Submit? then Some(input.login)
      else if !input.Deliver? then out
      else if input.msg.PasswordRequired? then
        if input.asks.saved.Some? && TriedSince(env, front) != Some(input.from)
        then Some(Login(input.from, input.asks.saved.value, false))
        else out
      else if input.msg.ConnectResponse? && s.outbound == Some(input.from) then None
      else out
  }

  lemma DidLogin(env: Env, s: State, input: Input)
    ensures Did(env, s, input).0.pendingLogin ==
            if !Enabled(s, input) then s.pendingLogin
            else if input.Submit? then Some(input.login)
            else if !input.Deliver? then s.pendingLogin
            else if input.msg.PasswordRequired? then
              if input.asks.saved.Some? && s.autoAttempted != Some(input.from)
              then Some(Login(input.from, input.asks.saved.value, false))
              else s.pendingLogin
            else if input.msg.ConnectResponse? && s.outbound == Some(input.from) then None
            else s.pendingLogin
  {
    hide Negotiate, CodecsOf, CapsOf, AsCapsStr, AsStr, CodecOf, PermissionOf, NonceFor, Grant;
  }

  /** In every run, the password the engine holds until the host answers is the one last sent. */
  lemma {:induction false} RemembersPassword(env: Env, inputs: seq<Input>)
    ensures Since(env, inputs).pendingLogin == PasswordOut(env, inputs)
  {
    hide Did, Enabled;
    if inputs != [] {
      var front := inputs[..|inputs| - 1];
      RemembersPassword(env, front);
      RemembersTry(env, front);
      DidLogin(env, Since(env, front), inputs[|inputs| - 1]);
    }
  }

  /** The names on the wire. */
  lemma WireNames(peer: Id, p: Permission, c: Codec)
    ensures Grant(peer, p, c) ==
            Send(peer, ConnectResponse(true, Some(if p.View? then "view" else "control"), None,
                                       Some(match c case H264 => "H264" case Hevc => "HEVC" case Av1 => "AV1")))
  {
  }
}
