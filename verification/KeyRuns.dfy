/** What every run of the key translator keeps. */
module KeyRuns {
  import opened Common
  import opened Keys

  // ---- What the host holds -----------------------------------------------

  function Apply(down: set<Code>, msg: Msg): set<Code> {
    match msg
    case KeyDown(c) => down + {c}
    case KeyUp(c) => down - {c}
  }

  /** The codes the host holds down after some messages. */
  function Host(down: set<Code>, out: seq<Emission>): set<Code> {
    if out == [] then down else Apply(Host(down, out[..|out| - 1]), out[|out| - 1].msg)
  }

  /** The host holds exactly the codes the held keys were sent as. */
  ghost predicate InStep(down: set<Code>, held: seq<Held>) {
    forall c :: c in down <==> Holds(held, c)
  }

  predicate Distinct(held: seq<Held>) {
    forall j, k :: 0 <= j < k < |held| ==> held[j].physical != held[k].physical
  }

  lemma HostAppend(down: set<Code>, out: seq<Emission>, e: Emission)
    ensures Host(down, out + [e]) == Apply(Host(down, out), e.msg)
  {
    assert (out + [e])[..|out|] == out;
  }

  lemma {:induction false} HostConcat(down: set<Code>, a: seq<Emission>, b: seq<Emission>)
    ensures Host(down, a + b) == Host(Host(down, a), b)
  {
    if b == [] {
      assert a + b == a;
    } else {
      assert (a + b)[..|a + b| - 1] == a + b[..|b| - 1];
      HostConcat(down, a, b[..|b| - 1]);
    }
  }

  // ---- Make before break -------------------------------------------------

  /** Just before and just after each message, every held key's code is down on the host. */
  ghost predicate Covered(down: set<Code>, out: seq<Emission>) {
    out == [] ||
    (Covered(down, out[..|out| - 1]) &&
     AllDown(Host(down, out[..|out| - 1]), out[|out| - 1].held) && AllDown(Host(down, out), out[|out| - 1].held))
  }

  predicate AllDown(down: set<Code>, held: seq<Held>) {
    forall k :: 0 <= k < |held| ==> held[k].sent in down
  }

  lemma InStepAllDown(down: set<Code>, held: seq<Held>)
    requires forall c :: Holds(held, c) ==> c in down
    ensures AllDown(down, held)
  {
    forall k | 0 <= k < |held|
      ensures held[k].sent in down
    {
      assert HoldsBut(held, held[k].sent, -1);
      assert Holds(held, held[k].sent);
    }
  }

  lemma CoveredAppend(down: set<Code>, out: seq<Emission>, e: Emission)
    requires Covered(down, out) && InStep(Host(down, out), e.held)
    requires e.msg.KeyUp? ==> !Holds(e.held, e.msg.code)
    ensures Covered(down, out + [e])
  {
    HostAppend(down, out, e);
    assert (out + [e])[..|out|] == out;
    InStepAllDown(Host(down, out), e.held);
    InStepAllDown(Host(down, out + [e]), e.held);
  }

  /** Every release in a press takes up the old code of a key whose chord code is down by then. */
  ghost predicate Replaces(m: Mapping, held: seq<Held>, code: Code, down: set<Code>, out: seq<Emission>) {
    forall k :: 0 <= k < |out| && out[k].msg.KeyUp? ==>
      exists i :: 0 <= i < |held| && ReplacedAt(m, held, code, out[k], i, Host(down, out[..k]))
  }

  predicate ReplacedAt(m: Mapping, held: seq<Held>, code: Code, e: Emission, i: nat, down: set<Code>)
    requires i < |held|
  {
    && held[i].sent == e.msg.code && |e.held| == |held| && e.held[i].physical == held[i].physical
    && Chord(m, held[i].physical, code) == Some(e.held[i].sent) && e.held[i].sent in down
  }

  /** The first `n` keys with a chord rule are sent as their chord code. */
  predicate Chorded(m: Mapping, held: seq<Held>, n: nat, code: Code)
    requires n <= |held|
  {
    forall k :: 0 <= k < n && Chord(m, held[k].physical, code).Some? ==>
      held[k].sent == Chord(m, held[k].physical, code).value
  }

  // ---- One event ---------------------------------------------------------

  lemma HoldsAfterUpdate(held: seq<Held>, i: nat, to: Code, c: Code)
    requires i < |held|
    ensures var after := held[i := held[i].(sent := to)];
            Holds(after, c) <==> c == to || HoldsBut(held, c, i)
  {
    var after := held[i := held[i].(sent := to)];
    if Holds(after, c) {
      var k :| 0 <= k < |after| && k != -1 && after[k].sent == c;
      assert k == i || held[k].sent == c;
    }
    if c == to {
      assert after[i].sent == c;
    }
    if HoldsBut(held, c, i) {
      var k :| 0 <= k < |held| && k != i && held[k].sent == c;
      assert after[k].sent == c;
    }
  }

  lemma HoldsSplit(held: seq<Held>, i: nat, c: Code)
    requires i < |held|
    ensures Holds(held, c) <==> held[i].sent == c || HoldsBut(held, c, i)
  {
    if held[i].sent == c {
      assert Holds(held, c);
    }
  }

  /** The new code goes down: the host then holds it beside everything it held. */
  lemma PressKeeps(m: Mapping, start: seq<Held>, down: set<Code>, held: seq<Held>, i: nat, to: Code, code: Code,
        out: seq<Emission>)
    requires i < |held|
    requires InStep(Host(down, out), held) && Covered(down, out) && Replaces(m, start, code, down, out)
    ensures var pressed := if HoldsBut(held, to, i) then out else out + [Emission(KeyDown(to), held)];
            && Covered(down, pressed) && Replaces(m, start, code, down, pressed)
            && forall c :: c in Host(down, pressed) <==> Holds(held, c) || c == to
  {
    hide Host, Covered, Replaces;
    if HoldsBut(held, to, i) {
      HoldsSplit(held, i, to);
    } else {
      var e := Emission(KeyDown(to), held);
      HostAppend(down, out, e);
      CoveredAppend(down, out, e);
      ReplacesAppend(m, start, code, down, out, e, i);
    }
  }

  /** The old code comes up, unless another key holds it. */
  lemma ReleaseKeeps(m: Mapping, start: seq<Held>, down: set<Code>, held: seq<Held>, i: nat, to: Code, code: Code,
        pressed: seq<Emission>)
    requires i < |held| == |start| && held[i] == start[i] && held[i].sent != to
    requires Chord(m, held[i].physical, code) == Some(to)
    requires Covered(down, pressed) && Replaces(m, start, code, down, pressed)
    requires forall c :: c in Host(down, pressed) <==> Holds(held, c) || c == to
    ensures var after := held[i := held[i].(sent := to)];
            var out := if Holds(after, held[i].sent) then pressed else pressed + [Emission(KeyUp(held[i].sent), after)];
            && InStep(Host(down, out), after) && Covered(down, out) && Replaces(m, start, code, down, out)
  {
    hide Host, Covered, Chord, HoldsBut, Replaces;
    var before := held[i].sent;
    var after := held[i := held[i].(sent := to)];
    forall c
      ensures Holds(after, c) <==> c == to || HoldsBut(held, c, i)
      ensures Holds(held, c) <==> before == c || HoldsBut(held, c, i)
    {
      HoldsAfterUpdate(held, i, to, c);
      HoldsSplit(held, i, c);
    }
    if !Holds(after, before) {
      var e := Emission(KeyUp(before), after);
      HostAppend(down, pressed, e);
      CoveredRelease(down, pressed, e);
      ReplacesAppend(m, start, code, down, pressed, e, i);
    }
  }

  /** A rewrite leaves the host in step, never uncovers a held code and releases only what it replaced. */
  lemma ResendKeeps(m: Mapping, start: seq<Held>, down: set<Code>, held: seq<Held>, i: nat, to: Code, code: Code,
        out: seq<Emission>)
    requires i < |held| == |start| && held[i] == start[i] && held[i].sent != to
    requires Chord(m, held[i].physical, code) == Some(to)
    requires InStep(Host(down, out), held) && Covered(down, out) && Replaces(m, start, code, down, out)
    ensures var (after, more) := Resend(held, i, to);
            && InStep(Host(down, out + more), after) && Covered(down, out + more)
            && Replaces(m, start, code, down, out + more)
  {
    hide Host, Covered, Chord, HoldsBut, Replaces, InStep;
    PressKeeps(m, start, down, held, i, to, code, out);
    var pressed := if HoldsBut(held, to, i) then out else out + [Emission(KeyDown(to), held)];
    ReleaseKeeps(m, start, down, held, i, to, code, pressed);
    var (after, more) := Resend(held, i, to);
    assert out + more ==
             if Holds(after, held[i].sent) then pressed else pressed + [Emission(KeyUp(held[i].sent), after)];
  }

  lemma CoveredRelease(down: set<Code>, out: seq<Emission>, e: Emission)
    requires Covered(down, out) && e.msg.KeyUp? && !Holds(e.held, e.msg.code)
    requires forall c :: Holds(e.held, c) ==> c in Host(down, out)
    ensures Covered(down, out + [e])
  {
    HostAppend(down, out, e);
    assert (out + [e])[..|out|] == out;
    InStepAllDown(Host(down, out), e.held);
    InStepAllDown(Host(down, out + [e]), e.held);
  }

  lemma ReplacesAppend(m: Mapping, start: seq<Held>, code: Code, down: set<Code>, out: seq<Emission>, e: Emission,
        i: nat)
    requires Replaces(m, start, code, down, out)
    requires e.msg.KeyUp? ==> i < |start| && ReplacedAt(m, start, code, e, i, Host(down, out))
    ensures Replaces(m, start, code, down, out + [e])
  {
    hide ReplacedAt, Host;
    var all := out + [e];
    forall k | 0 <= k < |all| && all[k].msg.KeyUp?
      ensures exists i :: 0 <= i < |start| && ReplacedAt(m, start, code, all[k], i, Host(down, all[..k]))
    {
      if k == |out| {
        assert all[..k] == out;
        assert ReplacedAt(m, start, code, all[k], i, Host(down, all[..k]));
      } else {
        assert all[..k] == out[..k];
      }
    }
  }

  /** What the chord rewrites of one press keep. */
  lemma {:induction false} RewritesKeep(m: Mapping, held: seq<Held>, n: nat, code: Code, down: set<Code>)
    requires n <= |held| && InStep(down, held)
    ensures var (after, out) := Rewrites(m, held, n, code);
            && InStep(Host(down, out), after) && Covered(down, out) && Replaces(m, held, code, down, out)
  {
    hide Host, Covered, Chord, HoldsBut, Replaces, InStep, Resend;
    if n == 0 {
      NothingSent(m, held, code, down);
    } else {
      RewritesKeep(m, held, n - 1, code, down);
      RewritesShape(m, held, n - 1, code);
      var front := Rewrites(m, held, n - 1, code);
      var chord := Chord(m, front.0[n - 1].physical, code);
      if chord.Some? && front.0[n - 1].sent != chord.value {
        ResendKeeps(m, held, down, front.0, n - 1, chord.value, code, front.1);
      } else {
        assert front.1 + [] == front.1;
      }
    }
  }

  /** A held key once the chord rule for `code`, if any, has been applied. */
  function Target(m: Mapping, h: Held, code: Code): Held {
    match Chord(m, h.physical, code)
    case Some(to) => Held(h.physical, to)
    case None => h
  }

  lemma RewriteShape(m: Mapping, held: seq<Held>, i: nat, code: Code)
    requires i < |held|
    ensures Rewrite(m, held, i, code).0 == held[i := Target(m, held[i], code)]
  {
    hide Chord, HoldsBut;
  }

  /** Which keys the rewrites change, and to what. */
  lemma {:induction false} RewritesShape(m: Mapping, held: seq<Held>, n: nat, code: Code)
    requires n <= |held|
    ensures forall k :: 0 <= k < |held| ==>
              Rewrites(m, held, n, code).0[k] == if k < n then Target(m, held[k], code) else held[k]
  {
    hide Target, Rewrite;
    if n > 0 {
      RewritesShape(m, held, n - 1, code);
      RewriteShape(m, Rewrites(m, held, n - 1, code).0, n - 1, code);
    }
  }

  predicate SamePhysical(a: seq<Held>, b: seq<Held>) {
    |a| == |b| && forall k :: 0 <= k < |a| ==> a[k].physical == b[k].physical
  }

  lemma NothingSent(m: Mapping, held: seq<Held>, code: Code, down: set<Code>)
    ensures Host(down, []) == down && Covered(down, []) && Replaces(m, held, code, down, [])
  {
  }

  lemma HoldsPush(held: seq<Held>, h: Held, c: Code)
    ensures Holds(held + [h], c) <==> Holds(held, c) || h.sent == c
  {
    if Holds(held, c) {
      var k :| 0 <= k < |held| && k != -1 && held[k].sent == c;
      assert (held + [h])[k].sent == c;
    }
    assert (held + [h])[|held|] == h;
  }

  lemma HoldsRemove(held: seq<Held>, i: nat, c: Code)
    requires i < |held|
    ensures Holds(held[..i] + held[i + 1..], c) <==> HoldsBut(held, c, i)
  {
    var after := held[..i] + held[i + 1..];
    if Holds(after, c) {
      var k :| 0 <= k < |after| && k != -1 && after[k].sent == c;
      assert after[k] == if k < i then held[k] else held[k + 1];
    }
    if HoldsBut(held, c, i) {
      var k :| 0 <= k < |held| && k != i && held[k].sent == c;
      assert after[if k < i then k else k - 1] == held[k];
    }
  }

  /** A repeat sends the held code again. */
  lemma RepeatKeeps(m: Mapping, held: seq<Held>, code: Code, down: set<Code>)
    requires InStep(down, held) && Distinct(held) && Find(held, code) < |held|
    ensures var (after, out) := Down(m, held, code);
            InStep(Host(down, out), after) && after == held && Covered(down, out) && Replaces(m, held, code, down, out)
    ensures IsHeld(held, code)
  {
    hide Host, Covered, Replaces;
    var i := Find(held, code);
    var e := Emission(KeyDown(held[i].sent), held);
    NothingSent(m, held, code, down);
    HostAppend(down, [], e);
    HoldsSplit(held, i, held[i].sent);
    CoveredAppend(down, [], e);
    ReplacesAppend(m, held, code, down, [], e, 0);
    assert [] + [e] == [e];
  }

  /** One press: the host stays in step and covered, a release only follows its replacement,
      and when the key itself goes down every held modifier with a chord rule is its chord code. */
  lemma DownKeeps(m: Mapping, held: seq<Held>, code: Code, down: set<Code>)
    requires InStep(down, held) && Distinct(held)
    ensures var (after, out) := Down(m, held, code);
            && InStep(Host(down, out), after) && Distinct(after)
            && (forall p :: IsHeld(after, p) <==> IsHeld(held, p) || p == code)
            && Covered(down, out) && Replaces(m, held, code, down, out)
    ensures !IsHeld(held, code) ==>
              var (after, out) := Down(m, held, code);
              && |after| == |held| + 1 && Chorded(m, after[..|held|], |held|, code)
              && SamePhysical(held, after[..|held|])
              && (!Holds(after[..|held|], Remap(m, code)) ==>
                    out != [] && out[|out| - 1] == Emission(KeyDown(Remap(m, code)), after[..|held|]))
  {
    hide Host, Covered, Chord, HoldsBut, Replaces, Rewrites, Remap;
    if Find(held, code) < |held| {
      hide Down, InStep, Distinct;
      RepeatKeeps(m, held, code, down);
    } else {
      RewritesKeep(m, held, |held|, code, down);
      RewritesShape(m, held, |held|, code);
      var chords := Rewrites(m, held, |held|, code);
      var sent := Remap(m, code);
      forall c
        ensures Holds(chords.0 + [Held(code, sent)], c) <==> Holds(chords.0, c) || sent == c
      {
        HoldsPush(chords.0, Held(code, sent), c);
      }
      PushPhysical(held, chords.0, code, sent);
      assert (chords.0 + [Held(code, sent)])[..|held|] == chords.0;
      if !Holds(chords.0, sent) {
        var e := Emission(KeyDown(sent), chords.0);
        HostAppend(down, chords.1, e);
        CoveredAppend(down, chords.1, e);
        ReplacesAppend(m, held, code, down, chords.1, e, 0);
      }
    }
  }

  lemma PushPhysical(held: seq<Held>, after: seq<Held>, code: Code, sent: Code)
    requires Distinct(held) && SamePhysical(held, after) && Find(held, code) == |held|
    ensures Distinct(after + [Held(code, sent)])
    ensures forall p :: IsHeld(after + [Held(code, sent)], p) <==> IsHeld(held, p) || p == code
  {
    var all := after + [Held(code, sent)];
    forall p
      ensures IsHeld(all, p) <==> IsHeld(held, p) || p == code
    {
      if IsHeld(held, p) {
        var k :| 0 <= k < |held| && held[k].physical == p;
        assert all[k].physical == p;
      }
      if IsHeld(all, p) {
        var k :| 0 <= k < |all| && all[k].physical == p;
        assert k < |held| ==> held[k].physical == p;
      }
      assert all[|after|].physical == code;
    }
  }

  /** One release. */
  lemma UpKeeps(m: Mapping, held: seq<Held>, code: Code, down: set<Code>)
    requires InStep(down, held) && Distinct(held)
    ensures var (after, out) := Up(m, held, code);
            && InStep(Host(down, out), after) && Distinct(after)
            && (forall p :: IsHeld(after, p) <==> IsHeld(held, p) && p != code)
            && Covered(down, out)
  {
    hide Host, Covered, HoldsBut, Remap;
    var i := Find(held, code);
    var (after, out) := Up(m, held, code);
    NothingSent(m, held, code, down);
    if i < |held| {
      forall c
        ensures Holds(after, c) <==> HoldsBut(held, c, i)
        ensures Holds(held, c) <==> held[i].sent == c || HoldsBut(held, c, i)
      {
        HoldsRemove(held, i, c);
        HoldsSplit(held, i, c);
      }
      RemovePhysical(held, i);
    } else {
      assert !IsHeld(held, code);
    }
    if out != [] {
      HostAppend(down, [], out[0]);
      CoveredRelease(down, [], out[0]);
      assert [] + [out[0]] == out;
    }
  }

  lemma RemovePhysical(held: seq<Held>, i: nat)
    requires Distinct(held) && i < |held|
    ensures var after := held[..i] + held[i + 1..];
            Distinct(after) && forall p :: IsHeld(after, p) <==> IsHeld(held, p) && p != held[i].physical
  {
    var after := held[..i] + held[i + 1..];
    assert forall k :: 0 <= k < |after| ==> after[k] == if k < i then held[k] else held[k + 1];
    forall p
      ensures IsHeld(after, p) <==> IsHeld(held, p) && p != held[i].physical
    {
      if IsHeld(held, p) && p != held[i].physical {
        var k :| 0 <= k < |held| && held[k].physical == p;
        assert after[if k < i then k else k - 1].physical == p;
      }
    }
  }

  // ---- Runs --------------------------------------------------------------

  /** The held keys and everything emitted after a run of events from the start. */
  function Run(viewer: OsFamily, host: OsFamily, events: seq<Event>): (seq<Held>, seq<Emission>) {
    if events == [] then ([], [])
    else
      var e := events[|events| - 1];
      var before := Run(viewer, host, events[..|events| - 1]);
      var step := Key(MappingOf(viewer, host, e.enabled), before.0, e.code, e.down);
      (step.0, before.1 + step.1)
  }

  /** The physical keys pressed and not yet released. */
  function Pressed(events: seq<Event>): set<Code> {
    if events == [] then {}
    else
      var e := events[|events| - 1];
      var before := Pressed(events[..|events| - 1]);
      if e.down then before + {e.code} else before - {e.code}
  }

  lemma {:induction false} CoveredConcat(down: set<Code>, a: seq<Emission>, b: seq<Emission>)
    requires Covered(down, a) && Covered(Host(down, a), b)
    ensures Covered(down, a + b)
  {
    if b == [] {
      assert a + b == a;
    } else {
      var front := b[..|b| - 1];
      CoveredConcat(down, a, front);
      assert (a + b)[..|a + b| - 1] == a + front && (a + b)[|a + b| - 1] == b[|b| - 1];
      HostConcat(down, a, front);
      HostConcat(down, a, b);
    }
  }

  /** In every run, with the setting flipping at any event: the host holds exactly the codes
      sent for the held keys, held keys are distinct and are exactly those pressed and not yet
      released, and every held code stays down across every message. */
  lemma {:induction false} RunKeeps(viewer: OsFamily, host: OsFamily, events: seq<Event>)
    ensures var (held, out) := Run(viewer, host, events);
            && InStep(Host({}, out), held) && Distinct(held)
            && (forall p :: IsHeld(held, p) <==> p in Pressed(events))
            && Covered({}, out)
  {
    hide Host, Covered, HoldsBut, MappingOf, Down, Up, InStep, Distinct, IsHeld;
    if events == [] {
      NothingHeld();
    } else {
      var e := events[|events| - 1];
      var m := MappingOf(viewer, host, e.enabled);
      RunKeeps(viewer, host, events[..|events| - 1]);
      var before := Run(viewer, host, events[..|events| - 1]);
      var step := Key(m, before.0, e.code, e.down);
      if e.down {
        DownKeeps(m, before.0, e.code, Host({}, before.1));
      } else {
        UpKeeps(m, before.0, e.code, Host({}, before.1));
      }
      HostConcat({}, before.1, step.1);
      CoveredConcat({}, before.1, step.1);
    }
  }

  lemma NothingHeld()
    ensures InStep(Host({}, []), []) && Distinct([]) && Covered({}, []) && forall p :: !IsHeld([], p)
  {
  }

  /** Once every key is up the host holds nothing. */
  lemma AllUp(viewer: OsFamily, host: OsFamily, events: seq<Event>)
    requires Pressed(events) == {}
    ensures Run(viewer, host, events).0 == [] && Host({}, Run(viewer, host, events).1) == {}
  {
    hide Run, Host;
    RunKeeps(viewer, host, events);
    var (held, out) := Run(viewer, host, events);
    if held != [] {
      SomeHeld(held);
    }
  }

  lemma SomeHeld(held: seq<Held>)
    requires held != []
    ensures exists p :: IsHeld(held, p)
  {
    assert IsHeld(held, held[0].physical);
  }

  /** Only the switch keys themselves are ever sent as Tab or Backquote. */
  predicate SwitchKeysOwn(held: seq<Held>) {
    forall k :: 0 <= k < |held| && (held[k].sent == Tab || held[k].sent == Backquote) ==>
      held[k].physical == held[k].sent
  }

  lemma {:induction false} RewritesOwn(m: Mapping, held: seq<Held>, n: nat, code: Code)
    requires n <= |held| && SwitchKeysOwn(held)
    ensures SwitchKeysOwn(Rewrites(m, held, n, code).0)
  {
    hide HoldsBut;
    if n > 0 {
      RewritesOwn(m, held, n - 1, code);
    }
  }

  lemma KeyOwn(m: Mapping, held: seq<Held>, code: Code, down: bool)
    requires SwitchKeysOwn(held)
    ensures SwitchKeysOwn(Key(m, held, code, down).0)
  {
    hide HoldsBut, Rewrites, Remap, SwitchKeysOwn;
    if down {
      RewritesOwn(m, held, |held|, code);
      PushOwn(m, Rewrites(m, held, |held|, code).0, code);
    } else if Find(held, code) < |held| {
      RemoveOwn(held, Find(held, code));
    }
  }

  lemma PushOwn(m: Mapping, held: seq<Held>, code: Code)
    requires SwitchKeysOwn(held)
    ensures SwitchKeysOwn(held + [Held(code, Remap(m, code))])
  {
  }

  lemma RemoveOwn(held: seq<Held>, i: nat)
    requires SwitchKeysOwn(held) && i < |held|
    ensures SwitchKeysOwn(held[..i] + held[i + 1..])
  {
  }

  lemma {:induction false} RunOwn(viewer: OsFamily, host: OsFamily, events: seq<Event>)
    ensures SwitchKeysOwn(Run(viewer, host, events).0)
  {
    hide MappingOf, Key;
    if events != [] {
      var e := events[|events| - 1];
      RunOwn(viewer, host, events[..|events| - 1]);
      KeyOwn(MappingOf(viewer, host, e.enabled), Run(viewer, host, events[..|events| - 1]).0, e.code, e.down);
    }
  }

  /** After any run, pressing Tab or Backquote reaches the host as itself, last, when every
      held modifier with a chord rule is down on the host as its chord code and as nothing else. */
  lemma ChordReachesHost(viewer: OsFamily, host: OsFamily, events: seq<Event>, key: Code, enabled: bool)
    requires key == Tab || key == Backquote
    requires !IsHeld(Run(viewer, host, events).0, key)
    ensures var m := MappingOf(viewer, host, enabled);
            var (held, before) := Run(viewer, host, events);
            var (after, out) := Down(m, held, key);
            && out != [] && out[|out| - 1].msg == KeyDown(key)
            && var down := Host(Host({}, before), out[..|out| - 1]);
            && forall k :: 0 <= k < |held| && Chord(m, held[k].physical, key).Some? ==>
                 Chord(m, held[k].physical, key).value in down
  {
    hide Run, Down, Host, Chord, MappingOf;
    var m := MappingOf(viewer, host, enabled);
    var (held, before) := Run(viewer, host, events);
    var (after, out) := Down(m, held, key);
    RunKeeps(viewer, host, events);
    DownKeeps(m, held, key, Host({}, before));
    RunOwn(viewer, host, events + [Event(key, true, enabled)]);
    RunStep(viewer, host, events, Event(key, true, enabled));
    var mods := after[..|held|];
    DownPushes(m, held, key);
    NotHeldAs(after, |held|, key);
    forall k | 0 <= k < |held| && Chord(m, held[k].physical, key).Some?
      ensures Chord(m, held[k].physical, key).value in Host(Host({}, before), out[..|out| - 1])
    {
      assert mods[k].physical == held[k].physical;
      assert mods[k].sent == out[|out| - 1].held[k].sent;
    }
  }

  lemma RunStep(viewer: OsFamily, host: OsFamily, events: seq<Event>, e: Event)
    ensures var before := Run(viewer, host, events);
            var step := Key(MappingOf(viewer, host, e.enabled), before.0, e.code, e.down);
            Run(viewer, host, events + [e]) == (step.0, before.1 + step.1)
  {
    assert (events + [e])[..|events|] == events;
  }

  lemma DownPushes(m: Mapping, held: seq<Held>, key: Code)
    requires (key == Tab || key == Backquote) && !IsHeld(held, key)
    ensures var after := Down(m, held, key).0;
            |after| == |held| + 1 && after[|held|] == Held(key, key)
    ensures Remap(m, key) == key
  {
    hide Rewrites;
  }

  lemma NotHeldAs(after: seq<Held>, n: nat, key: Code)
    requires |after| == n + 1 && Distinct(after) && SwitchKeysOwn(after) && after[n].physical == key
    requires key == Tab || key == Backquote
    ensures !Holds(after[..n], key)
  {
    var mods := after[..n];
    forall k | 0 <= k < |mods|
      ensures mods[k].sent != key
    {
      assert mods[k] == after[k] && after[k].physical != after[n].physical;
    }
    assert !HoldsBut(mods, key, -1);
  }

  // ---- Runs under one mapping --------------------------------------------

  /** The messages emitted. */
  function Messages(out: seq<Emission>): (r: seq<Msg>)
    ensures |r| == |out|
  {
    if out == [] then [] else Messages(out[..|out| - 1]) + [out[|out| - 1].msg]
  }

  lemma {:induction false} MessagesConcat(a: seq<Emission>, b: seq<Emission>)
    ensures Messages(a + b) == Messages(a) + Messages(b)
  {
    if b == [] {
      assert a + b == a;
    } else {
      assert (a + b)[..|a + b| - 1] == a + b[..|b| - 1];
      MessagesConcat(a, b[..|b| - 1]);
    }
  }

  /** The event as a message, its code remapped. */
  function Swapped(m: Mapping, e: Event): Msg {
    if e.down then KeyDown(Remap(m, e.code)) else KeyUp(Remap(m, e.code))
  }

  function AllSwapped(m: Mapping, events: seq<Event>): (r: seq<Msg>)
    ensures |r| == |events|
  {
    if events == [] then [] else AllSwapped(m, events[..|events| - 1]) + [Swapped(m, events[|events| - 1])]
  }

  /** The setting never changes the mapping, and no key can complete a chord. */
  predicate Plain(viewer: OsFamily, host: OsFamily, m: Mapping, events: seq<Event>) {
    forall k :: 0 <= k < |events| ==>
      && MappingOf(viewer, host, events[k].enabled) == m
      && (m == Identity || (events[k].code != Tab && events[k].code != Backquote))
  }

  /** Every held key is sent as its remapped code. */
  predicate SentRemapped(m: Mapping, held: seq<Held>) {
    forall k :: 0 <= k < |held| ==> held[k].sent == Remap(m, held[k].physical)
  }

  lemma RemapInjective(m: Mapping, a: Code, b: Code)
    ensures Remap(m, a) == Remap(m, b) <==> a == b
    ensures Remap(m, Remap(m, a)) == a
  {
  }

  lemma {:induction false} NoChord(m: Mapping, held: seq<Held>, n: nat, code: Code)
    requires n <= |held| && (m == Identity || (code != Tab && code != Backquote))
    ensures Rewrites(m, held, n, code) == (held, [])
  {
    if n > 0 {
      NoChord(m, held, n - 1, code);
      var none: seq<Emission> := [];
      assert Chord(m, held[n - 1].physical, code) == None;
      assert none + none == none;
    }
  }

  lemma HoldsRemapped(m: Mapping, held: seq<Held>, code: Code)
    requires SentRemapped(m, held)
    ensures Holds(held, Remap(m, code)) <==> IsHeld(held, code)
  {
    hide Remap;
    forall k | 0 <= k < |held|
      ensures held[k].sent == Remap(m, code) <==> held[k].physical == code
    {
      RemapInjective(m, held[k].physical, code);
    }
    if IsHeld(held, code) {
      var k :| 0 <= k < |held| && held[k].physical == code;
      assert held[k].sent == Remap(m, code);
    }
  }

  lemma PlainStep(m: Mapping, held: seq<Held>, e: Event)
    requires SentRemapped(m, held) && Distinct(held)
    requires m == Identity || (e.code != Tab && e.code != Backquote)
    ensures var (after, out) := Key(m, held, e.code, e.down);
            SentRemapped(m, after) && Messages(out) == [Swapped(m, e)]
  {
    hide Remap, Holds, Rewrites;
    var i := Find(held, e.code);
    HoldsRemapped(m, held, e.code);
    if e.down {
      NoChord(m, held, |held|, e.code);
      var (after, out) := Down(m, held, e.code);
      assert |out| == 1 && out[..0] == [];
    } else {
      var (after, out) := Up(m, held, e.code);
      HoldsRemapped(m, after, e.code);
      if i < |held| {
        RemovePhysical(held, i);
      }
      assert |out| == 1 && out[..0] == [];
    }
  }

  /** A run without chord keys, or under the identity, is forwarded event for event with
      every code remapped: one message each, repeats and stray releases included. */
  lemma {:induction false} PlainRun(viewer: OsFamily, host: OsFamily, m: Mapping, events: seq<Event>)
    requires Plain(viewer, host, m, events)
    ensures SentRemapped(m, Run(viewer, host, events).0)
    ensures Messages(Run(viewer, host, events).1) == AllSwapped(m, events)
  {
    hide MappingOf, Key, Remap, SentRemapped;
    if events == [] {
      assert SentRemapped(m, []) by { NoneSent(m); }
    } else {
      var e := events[|events| - 1];
      PlainRun(viewer, host, m, events[..|events| - 1]);
      RunKeeps(viewer, host, events[..|events| - 1]);
      var before := Run(viewer, host, events[..|events| - 1]);
      var step := Key(m, before.0, e.code, e.down);
      PlainStep(m, before.0, e);
      MessagesConcat(before.1, step.1);
    }
  }

  lemma NoneSent(m: Mapping)
    ensures SentRemapped(m, [])
  {
  }

  /** The messages as the events of another translator. */
  function AsEvents(msgs: seq<Msg>): (r: seq<Event>)
    ensures |r| == |msgs|
  {
    if msgs == [] then []
    else
      var msg := msgs[|msgs| - 1];
      AsEvents(msgs[..|msgs| - 1]) + [Event(msg.code, msg.KeyDown?, true)]
  }

  /** A viewer's translation and that of its host as a viewer undo each other on such runs. */
  lemma {:induction false} TranslationsUndo(viewer: OsFamily, host: OsFamily, events: seq<Event>)
    requires Plain(viewer, host, MappingOf(viewer, host, true), events)
    ensures var m, back := MappingOf(viewer, host, true), MappingOf(host, viewer, true);
            && Plain(host, viewer, back, AsEvents(AllSwapped(m, events)))
            && AllSwapped(back, AsEvents(AllSwapped(m, events))) == AllSwapped(Identity, events)
  {
    if events != [] {
      hide Plain;
      var m, back := MappingOf(viewer, host, true), MappingOf(host, viewer, true);
      var n := |events| - 1;
      PlainFront(viewer, host, m, events);
      TranslationsUndo(viewer, host, events[..n]);
      var swapped := AllSwapped(m, events);
      assert swapped[..n] == AllSwapped(m, events[..n]);
      var returned := AsEvents(swapped);
      assert returned[..n] == AsEvents(AllSwapped(m, events[..n]));
      assert returned[n] == Event(Remap(m, events[n].code), events[n].down, true);
      RemapBack(viewer, host, events[n].code);
      PlainMore(host, viewer, back, returned);
    }
  }

  lemma PlainFront(viewer: OsFamily, host: OsFamily, m: Mapping, events: seq<Event>)
    requires Plain(viewer, host, m, events) && events != []
    ensures Plain(viewer, host, m, events[..|events| - 1])
    ensures m == Identity || (events[|events| - 1].code != Tab && events[|events| - 1].code != Backquote)
  {
  }

  lemma PlainMore(viewer: OsFamily, host: OsFamily, m: Mapping, events: seq<Event>)
    requires events != [] && Plain(viewer, host, m, events[..|events| - 1])
    requires var e := events[|events| - 1];
             MappingOf(viewer, host, e.enabled) == m && (m == Identity || (e.code != Tab && e.code != Backquote))
    ensures Plain(viewer, host, m, events)
  {
    var front := events[..|events| - 1];
    assert forall k :: 0 <= k < |front| ==> events[k] == front[k];
  }

  /** The reverse mapping restores every code and moves no switch key. */
  lemma RemapBack(viewer: OsFamily, host: OsFamily, code: Code)
    ensures var m, back := MappingOf(viewer, host, true), MappingOf(host, viewer, true);
            && Remap(back, Remap(m, code)) == code
            && (m == Identity <==> back == Identity)
            && (code != Tab && code != Backquote ==> Remap(m, code) != Tab && Remap(m, code) != Backquote)
  {
  }

  /** Translated for the host, and back by the host as a viewer, the events come out as they went in. */
  lemma ThereAndBack(viewer: OsFamily, host: OsFamily, events: seq<Event>)
    requires Plain(viewer, host, MappingOf(viewer, host, true), events)
    ensures var there := Messages(Run(viewer, host, events).1);
            Messages(Run(host, viewer, AsEvents(there)).1) == AllSwapped(Identity, events)
  {
    hide Run, Messages, AllSwapped, AsEvents, Plain, MappingOf;
    var m, back := MappingOf(viewer, host, true), MappingOf(host, viewer, true);
    PlainRun(viewer, host, m, events);
    TranslationsUndo(viewer, host, events);
    PlainRun(host, viewer, back, AsEvents(AllSwapped(m, events)));
  }
}
