/** Which codec a session gets, from what the host has been told (native/crates/engine/src/lib.rs). */
module CodecChoice {
  import opened Common
  import opened Engine
  import opened Handshake

  // ---- One engine --------------------------------------------------------

  /** One input; one that cannot come now does nothing. */
  function Did(env: Env, s: State, input: Input): (State, Option<Send>) {
    if Enabled(s, input) then Acted(env, s, input) else (s, None)
  }

  /** An engine's state after these inputs from its start. */
  function Since(env: Env, inputs: seq<Input>): State {
    if inputs == [] then Fresh()
    else Did(env, Since(env, inputs[..|inputs| - 1]), inputs[|inputs| - 1]).0
  }

  /** The input tells an idle engine what `viewer` decodes. */
  predicate Tells(s: State, input: Input, viewer: Id) {
    && Enabled(s, input) && s.role.Idle?
    && input.Deliver? && input.from == viewer && input.msg.ConnectRequest?
    && input.msg.caps.Some? && input.msg.caps.value != []
  }

  /** The input makes the engine accept `viewer`. */
  predicate Takes(env: Env, s: State, input: Input, viewer: Id) {
    Accepts(Did(env, s, input).1) && Did(env, s, input).1.value.to == viewer
  }

  /** By the history alone: the last list `viewer` sent that no acceptance of `viewer` has used up. */
  function Told(env: Env, inputs: seq<Input>, viewer: Id): seq<string> {
    if inputs == [] then []
    else
      var front, input := inputs[..|inputs| - 1], inputs[|inputs| - 1];
      var s := Since(env, front);
      if Takes(env, s, input, viewer) then []
      else if Tells(s, input, viewer) then input.msg.caps.value
      else Told(env, front, viewer)
  }

  /** What the engine goes by when `input` makes it accept `viewer`. */
  function Heard(env: Env, inputs: seq<Input>, input: Input, viewer: Id): seq<string> {
    if Tells(Since(env, inputs), input, viewer) then input.msg.caps.value else Told(env, inputs, viewer)
  }

  /** The first of AV1, HEVC and H.264 that is encoded here and named there; H.264 when there is none. */
  predicate FirstOf(c: Codec, encodes: seq<Codec>, caps: seq<string>) {
    var av1, hevc := Av1 in encodes && "AV1" in caps, Hevc in encodes && "HEVC" in caps;
    (c == Av1 <==> av1) && (c == Hevc <==> hevc && !av1)
  }

  lemma {:induction false} CodecsNamed(caps: seq<string>, c: Codec)
    ensures c in CodecsOf(caps) <==> (match c case Av1 => "AV1" case Hevc => "HEVC" case H264 => "H264") in caps
  {
    if caps != [] {
      CodecsNamed(caps[1..], c);
      assert caps == [caps[0]] + caps[1..];
      NamesDiffer(caps[0]);
    }
  }

  lemma NamesDiffer(s: string)
    ensures FromCapsStr(s) == if s == "H264" then Some(H264) else if s == "HEVC" then Some(Hevc)
                              else if s == "AV1" then Some(Av1) else None
    ensures "H264" != "HEVC" && "H264" != "AV1" && "HEVC" != "AV1"
  {
  }

  lemma NegotiatesFirst(encodes: seq<Codec>, caps: seq<string>)
    ensures FirstOf(Negotiate(encodes, CodecsOf(caps)), encodes, caps)
  {
    hide CodecsOf;
    CodecsNamed(caps, Av1);
    CodecsNamed(caps, Hevc);
  }

  /** One input: what is remembered, and with which codec a viewer is accepted. */
  lemma DidTells(env: Env, s: State, input: Input, viewer: Id)
    ensures var (t, sent) := Did(env, s, input);
            var heard := if Tells(s, input, viewer) then input.msg.caps.value else CapsFor(s, viewer);
            && (Takes(env, s, input, viewer) ==>
                  CapsFor(t, viewer) == [] && t.role.Host? && t.role.peer == viewer
                  && sent == Some(Grant(viewer, t.role.permission, t.negotiated))
                  && t.negotiated == Negotiate(env.encodes, CodecsOf(heard)))
            && (!Takes(env, s, input, viewer) ==> CapsFor(t, viewer) == heard)
  {
    hide Negotiate, CodecsOf, CapsOf, AsCapsStr, AsStr, CodecOf, PermissionOf, NonceFor, Requested, Accepted, Grant;
    if Enabled(s, input) && input.Deliver? && input.msg.ConnectRequest? {
      RequestTells(env, s, input.from, input.msg.password, input.msg.caps, input.asks, viewer);
    } else if Enabled(s, input) && input.Decide? && input.decision.Some? {
      AcceptTells(env, s, s.deciding.value, input.decision.value, viewer);
    }
  }

  lemma AcceptTells(env: Env, s: State, peer: Id, p: Permission, viewer: Id)
    ensures var (t, sent) := Accepted(env, s, peer, p);
            && t.role == Host(peer, p) && sent == Some(Grant(peer, p, t.negotiated)) && Accepts(sent)
            && sent.value.to == peer && CapsFor(t, peer) == []
            && t.negotiated == Negotiate(env.encodes, CodecsOf(CapsFor(s, peer)))
            && (viewer != peer ==> CapsFor(t, viewer) == CapsFor(s, viewer))
  {
    hide Negotiate, CodecsOf, AsCapsStr, AsStr;
  }

  lemma RequestTells(env: Env, s: State, from: Id, password: Option<string>, caps: Option<seq<string>>, asks: Asks,
                     viewer: Id)
    ensures var (t, sent) := Requested(env, s, from, password, caps, asks);
            var heard := if s.role.Idle? && from == viewer && caps.Some? && caps.value != [] then caps.value
                         else CapsFor(s, viewer);
            && (Accepts(sent) && sent.value.to == viewer ==>
                  && CapsFor(t, viewer) == [] && t.role.Host? && t.role.peer == viewer
                  && sent == Some(Grant(viewer, t.role.permission, t.negotiated))
                  && t.negotiated == Negotiate(env.encodes, CodecsOf(heard)))
            && (!(Accepts(sent) && sent.value.to == viewer) ==> CapsFor(t, viewer) == heard)
  {
    hide Negotiate, CodecsOf, Accepted, Grant;
    var u := if caps.Some? && caps.value != [] then s.(pendingCaps := s.pendingCaps[from := caps.value]) else s;
    AcceptTells(env, u.(pendingNonce := u.pendingNonce - {from}), from, asks.grants, viewer);
  }

  /** What an engine remembers of a viewer is what the history says, through everything else that happens. */
  lemma {:induction false} RemembersTold(env: Env, inputs: seq<Input>, viewer: Id)
    ensures CapsFor(Since(env, inputs), viewer) == Told(env, inputs, viewer)
  {
    hide Did, CapsFor, Tells, Takes;
    if inputs == [] {
      assert CapsFor(Fresh(), viewer) == [] by {
        NothingYet(viewer);
      }
    } else {
      var front, input := inputs[..|inputs| - 1], inputs[|inputs| - 1];
      RemembersTold(env, front, viewer);
      DidTells(env, Since(env, front), input, viewer);
    }
  }

  lemma NothingYet(viewer: Id)
    ensures CapsFor(Fresh(), viewer) == []
  {
  }

  /** In every run of an engine an accepted viewer gets the first codec encoded here and in the list it sent. */
  lemma TakenWithFirst(env: Env, inputs: seq<Input>, input: Input, viewer: Id)
    requires Takes(env, Since(env, inputs), input, viewer)
    ensures var (t, sent) := Did(env, Since(env, inputs), input);
            && t.role.Host? && t.role.peer == viewer
            && sent == Some(Grant(viewer, t.role.permission, t.negotiated))
            && FirstOf(t.negotiated, env.encodes, Heard(env, inputs, input, viewer))
  {
    hide Did, CapsFor, Tells, Takes, FirstOf, Negotiate, CodecsOf, Grant;
    RemembersTold(env, inputs, viewer);
    DidTells(env, Since(env, inputs), input, viewer);
    NegotiatesFirst(env.encodes, Heard(env, inputs, input, viewer));
  }

  // ---- What counts in a history ------------------------------------------

  /** Input `k` told the engine what `viewer` decodes, and `viewer` has not been accepted since. */
  ghost predicate StillTold(env: Env, inputs: seq<Input>, viewer: Id, k: int) {
    && 0 <= k < |inputs| && Tells(Since(env, inputs[..k]), inputs[k], viewer)
    && forall j :: k <= j < |inputs| ==> !Takes(env, Since(env, inputs[..j]), inputs[j], viewer)
  }

  /** There is something to go by exactly if the viewer told it and has not been accepted since. */
  lemma {:induction false} ToldExact(env: Env, inputs: seq<Input>, viewer: Id)
    ensures Told(env, inputs, viewer) != [] <==> exists k :: StillTold(env, inputs, viewer, k)
  {
    hide Since, Tells, Takes;
    if inputs != [] {
      var n := |inputs| - 1;
      ToldExact(env, inputs[..n], viewer);
      assert forall j :: 0 <= j <= n ==> inputs[..n][..j] == inputs[..j];
      TellsSome(Since(env, inputs[..n]), inputs[n], viewer);
      forall k | StillTold(env, inputs, viewer, k) && k < n
        ensures StillTold(env, inputs[..n], viewer, k)
      {
      }
      forall k | StillTold(env, inputs[..n], viewer, k) && !Takes(env, Since(env, inputs[..n]), inputs[n], viewer)
        ensures StillTold(env, inputs, viewer, k)
      {
      }
      if Tells(Since(env, inputs[..n]), inputs[n], viewer) && !Takes(env, Since(env, inputs[..n]), inputs[n], viewer) {
        assert StillTold(env, inputs, viewer, n);
      }
    }
  }

  lemma TellsSome(s: State, input: Input, viewer: Id)
    ensures Tells(s, input, viewer) ==> input.msg.caps.value != []
  {
  }

  // ---- Any number of engines ---------------------------------------------

  /** The inputs of one engine in a run of the world. */
  function InputsOf(steps: seq<Step>, id: Id): seq<Input> {
    if steps == [] then []
    else
      var step := steps[|steps| - 1];
      InputsOf(steps[..|steps| - 1], id) + if step.Act? && step.id == id then [step.input] else []
  }

  lemma {:induction false} AfterMore(envs: Id -> Env, w: World, steps: seq<Step>)
    requires Possibles(envs, w, steps) && steps != []
    ensures var front := steps[..|steps| - 1];
            && Possibles(envs, w, front) && Possible(After(envs, w, front), steps[|steps| - 1])
            && After(envs, w, steps) == Next(envs, After(envs, w, front), steps[|steps| - 1])
    decreases |steps|
  {
    hide Next, Possible;
    if |steps| > 1 {
      var u := Next(envs, w, steps[0]);
      AfterMore(envs, u, steps[1..]);
      assert steps[1..][..|steps| - 2] == steps[..|steps| - 1][1..];
    }
  }

  /** In a run of the world every engine is where its own inputs have brought it. */
  lemma {:induction false} EngineOfRun(envs: Id -> Env, ids: set<Id>, steps: seq<Step>, id: Id)
    requires Possibles(envs, Start(ids), steps) && id in ids
    ensures var w := After(envs, Start(ids), steps);
            id in w.engines && w.engines[id] == Since(envs(id), InputsOf(steps, id))
    decreases |steps|
  {
    hide Acted, Record, Enabled;
    if steps != [] {
      hide Possibles, After, Start;
      var front, step := steps[..|steps| - 1], steps[|steps| - 1];
      AfterMore(envs, Start(ids), steps);
      EngineOfRun(envs, ids, front, id);
      if step.Act? && step.id == id {
        assert InputsOf(steps, id)[..|InputsOf(front, id)|] == InputsOf(front, id);
      } else {
        assert InputsOf(steps, id) == InputsOf(front, id);
      }
    }
  }

  /** The first of AV1, HEVC and H.264 that both have; H.264 when there is none. */
  predicate FirstCommon(c: Codec, encodes: seq<Codec>, decodes: seq<Codec>) {
    var av1, hevc := Av1 in encodes && Av1 in decodes, Hevc in encodes && Hevc in decodes;
    (c == Av1 <==> av1) && (c == Hevc <==> hevc && !av1)
  }

  lemma NamedIsDecoded(decodes: seq<Codec>, c: Codec, encodes: seq<Codec>)
    requires FirstOf(c, encodes, CapsOf(decodes))
    ensures FirstCommon(c, encodes, decodes)
  {
    CapsBack(decodes);
    CodecsNamed(CapsOf(decodes), Av1);
    CodecsNamed(CapsOf(decodes), Hevc);
  }

  /** The input makes `host` accept `viewer`, which has told it what it decodes and was not accepted since. */
  ghost predicate TakesTold(envs: Id -> Env, w: World, inputs: seq<Input>, host: Id, viewer: Id, input: Input) {
    && Possible(w, Act(host, input))
    && Takes(envs(host), w.engines[host], input, viewer)
    && (Tells(w.engines[host], input, viewer) || exists k :: StillTold(envs(host), inputs, viewer, k))
  }

  /** They get the first codec both have, which is common whenever anything is. */
  ghost predicate GetsFirst(envs: Id -> Env, s: State, host: Id, viewer: Id, input: Input) {
    var (t, sent) := Did(envs(host), s, input);
    var encodes, decodes := envs(host).encodes, envs(viewer).decodes;
    && t.role.Host? && sent == Some(Grant(viewer, t.role.permission, t.negotiated))
    && FirstCommon(t.negotiated, encodes, decodes)
    && ((exists d: Codec :: d in encodes && d in decodes) ==> t.negotiated in encodes && t.negotiated in decodes)
  }

  /**
   * In every run of any engines: when a host accepts a viewer that has told it what it decodes, and that
   * it has not accepted since, they get the first of AV1, HEVC and H.264 both have.
   */
  lemma GrantedIsFirst(envs: Id -> Env, ids: set<Id>, steps: seq<Step>, host: Id, viewer: Id, input: Input)
    requires Possibles(envs, Start(ids), steps) && host in ids
    requires TakesTold(envs, After(envs, Start(ids), steps), InputsOf(steps, host), host, viewer, input)
    ensures GetsFirst(envs, Since(envs(host), InputsOf(steps, host)), host, viewer, input)
    ensures host in After(envs, Start(ids), steps).engines
            && After(envs, Start(ids), steps).engines[host] == Since(envs(host), InputsOf(steps, host))
  {
    hide *;
    StartFine(envs, ids);
    RunFine(envs, Start(ids), steps);
    EngineOfRun(envs, ids, steps, host);
    GrantedInWorld(envs, After(envs, Start(ids), steps), InputsOf(steps, host), host, viewer, input);
  }

  lemma GrantedInWorld(envs: Id -> Env, w: World, inputs: seq<Input>, host: Id, viewer: Id, input: Input)
    requires Inv(envs, w) && host in w.engines && w.engines[host] == Since(envs(host), inputs)
    requires TakesTold(envs, w, inputs, host, viewer, input)
    ensures GetsFirst(envs, w.engines[host], host, viewer, input)
  {
    hide StillTold, Did, Takes, FirstOf, FirstCommon, CapsOf, CapsFor, Grant, Told, Tells, Inv, Since;
    var t := Did(envs(host), w.engines[host], input).0;
    RemembersTold(envs(host), inputs, viewer);
    ToldExact(envs(host), inputs, viewer);
    TakenWithFirst(envs(host), inputs, input, viewer);
    HeardIsTrue(envs, w, host, viewer, input);
    NamedIsDecoded(envs(viewer).decodes, t.negotiated, envs(host).encodes);
    FirstIsCommon(t.negotiated, envs(host).encodes, envs(viewer).decodes);
  }

  lemma HeardIsTrue(envs: Id -> Env, w: World, host: Id, viewer: Id, input: Input)
    requires Inv(envs, w) && Possible(w, Act(host, input))
    ensures Tells(w.engines[host], input, viewer) ==> input.msg.caps.value == CapsOf(envs(viewer).decodes)
    ensures CapsFor(w.engines[host], viewer) != [] ==> CapsFor(w.engines[host], viewer) == CapsOf(envs(viewer).decodes)
  {
    hide Honest, CapsOf;
    assert CapsKnown(envs, w.engines[host]);
    if input.Deliver? {
      assert Packet(input.from, host, input.msg) in Taken(host, input);
      assert Truthful(envs, Packet(input.from, host, input.msg));
    }
  }

  lemma FirstIsCommon(c: Codec, encodes: seq<Codec>, decodes: seq<Codec>)
    requires FirstCommon(c, encodes, decodes)
    ensures (exists d: Codec :: d in encodes && d in decodes) ==> c in encodes && c in decodes
  {
    forall d: Codec | d in encodes && d in decodes
      ensures c in encodes && c in decodes
    {
      assert d == Av1 || d == Hevc || d == H264;
      assert c == Av1 || c == Hevc || c == H264;
    }
  }
}
