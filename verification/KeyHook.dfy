/** The viewer's low-level keyboard hook (native/crates/input/src/keyhook.rs). */
module KeyHook {
  import opened Common
  import opened Keys
  import KeyRuns

  const VK_TAB: nat := 0x09
  const VK_ESCAPE: nat := 0x1b
  const VK_MENU: nat := 0x12
  const VK_LWIN: nat := 0x5b
  const VK_RWIN: nat := 0x5c

  datatype Kind = Press | Release | OtherMessage

  /** One call of the hook: the message, and what the key state and the foreground window read. */
  datatype Call = Call(code: int, kind: Kind, vk: nat, injected: bool, altDown: bool, focused: bool)

  function VkToCode(vk: nat): Option<Code> {
    if vk == VK_LWIN then Some(MetaLeft)
    else if vk == VK_RWIN then Some(MetaRight)
    else if vk == VK_TAB then Some(Tab)
    else if vk == VK_ESCAPE then Some(Escape)
    else None
  }

  predicate ShouldSuppress(e: Call) {
    e.vk == VK_LWIN || e.vk == VK_RWIN || ((e.vk == VK_TAB || e.vk == VK_ESCAPE) && e.altDown)
  }

  /** The call is about a real key of the user's. */
  predicate Real(e: Call) {
    e.code >= 0 && e.kind != OtherMessage && !e.injected
  }

  /** What the hook remembers: `HOOK_HELD` and `SYNTH_ALT`. */
  datatype Memory = Memory(held: seq<Code>, synthAlt: bool)

  datatype Step = Step(memory: Memory, forwarded: seq<Msg>, suppressed: bool)

  function Without(held: seq<Code>, c: Code): (r: seq<Code>)
    ensures |r| <= |held|
  {
    if held == [] then []
    else if held[0] == c then held[1..]
    else [held[0]] + Without(held[1..], c)
  }

  /** A real Alt release while an Alt of ours is down on the host. */
  predicate AltMirrored(s: Memory, e: Call) {
    Real(e) && e.vk == VK_MENU && e.kind == Release && s.synthAlt
  }

  /** The key part of `hook_proc`, the Alt mirror done. */
  function HookKey(s: Memory, e: Call): Step {
    var code := VkToCode(e.vk);
    if e.kind == Release && code.Some? && code.value in s.held then
      Step(Memory(Without(s.held, code.value), s.synthAlt), [KeyUp(code.value)], ShouldSuppress(e) && e.focused)
    else if !ShouldSuppress(e) || !e.focused || code.None? then Step(s, [], false)
    else if e.kind != Press then Step(s, [KeyUp(code.value)], true)
    else
      var alt := (e.vk == VK_TAB || e.vk == VK_ESCAPE) && !s.synthAlt;
      Step(Memory(if code.value in s.held then s.held else s.held + [code.value], s.synthAlt || alt),
           if alt then [KeyDown(AltLeft), KeyDown(code.value)] else [KeyDown(code.value)], true)
  }

  /** One call of `hook_proc`: what it remembers, what it forwards, whether the key is swallowed. */
  function Hook(s: Memory, e: Call): Step {
    if !Real(e) then Step(s, [], false)
    else if AltMirrored(s, e) then
      var step := HookKey(s.(synthAlt := false), e);
      step.(forwarded := [KeyUp(AltLeft)] + step.forwarded)
    else HookKey(s, e)
  }

  /** The hook's statics. */
  class KeyHook {
    var installed: bool
    var held: seq<Code>
    var synthAlt: bool

    function Remembered(): Memory
      reads this
    {
      Memory(held, synthAlt)
    }

    constructor ()
      ensures !installed && Remembered() == Memory([], false)
    {
      installed, held, synthAlt := false, [], false;
    }

    method Install()
      modifies this`installed
      ensures installed
    {
      installed := true;
    }

    /** `uninstall` forgets what is held without forwarding releases. */
    method Uninstall()
      modifies this
      ensures !installed && Remembered() == Memory([], false)
    {
      synthAlt := false;
      held := [];
      installed := false;
    }

    /** `hook_proc` while the hook is installed. */
    method HookProc(e: Call) returns (forwarded: seq<Msg>, suppressed: bool)
      requires installed
      modifies this
      ensures installed
      ensures Step(Remembered(), forwarded, suppressed) == Hook(old(Remembered()), e)
    {
      assert [KeyUp(AltLeft)] + [] == [KeyUp(AltLeft)];
      forwarded := [];
      if e.code < 0 || e.kind == OtherMessage || e.injected {
        return [], false;
      }
      if e.vk == VK_MENU && e.kind == Release {
        var was := synthAlt;
        synthAlt := false;
        if was {
          forwarded := [KeyUp(AltLeft)];
        }
      }
      var code := VkToCode(e.vk);
      if e.kind == Release && code.Some? {
        var owed := HeldRemove(code.value);
        if owed {
          forwarded := forwarded + [KeyUp(code.value)];
          return forwarded, ShouldSuppress(e) && e.focused;
        }
      }
      if !ShouldSuppress(e) || !e.focused {
        return forwarded, false;
      }
      if code.Some? {
        if (e.vk == VK_TAB || e.vk == VK_ESCAPE) && e.kind == Press {
          var was := synthAlt;
          synthAlt := true;
          if !was {
            forwarded := forwarded + [KeyDown(AltLeft)];
          }
        }
        if e.kind == Press {
          HeldInsert(code.value);
        }
        forwarded := forwarded + [if e.kind == Press then KeyDown(code.value) else KeyUp(code.value)];
      }
      suppressed := true;
    }

    method HeldInsert(c: Code)
      modifies this`held
      ensures held == if c in old(held) then old(held) else old(held) + [c]
    {
      if c !in held {
        held := held + [c];
      }
    }

    method HeldRemove(c: Code) returns (removed: bool)
      modifies this`held
      ensures removed == (c in old(held)) && held == (if removed then Without(old(held), c) else old(held))
    {
      var i := 0;
      while i < |held| && held[i] != c
        invariant i <= |held| && c !in held[..i]
        invariant Without(held, c) == held[..i] + Without(held[i..], c)
      {
        i := i + 1;
      }
      removed := i < |held|;
      if removed {
        held := held[..i] + held[i + 1..];
      }
    }
  }

  // ---- Runs --------------------------------------------------------------

  /** The keys left down by forwarded messages. */
  function Left(down: set<Code>, msgs: seq<Msg>): set<Code> {
    if msgs == [] then down else KeyRuns.Apply(Left(down, msgs[..|msgs| - 1]), msgs[|msgs| - 1])
  }

  /** What the hook remembers and has forwarded since it was installed. */
  function Since(calls: seq<Call>): (Memory, seq<Msg>) {
    if calls == [] then (Memory([], false), [])
    else
      var before := Since(calls[..|calls| - 1]);
      var step := Hook(before.0, calls[|calls| - 1]);
      (step.memory, before.1 + step.forwarded)
  }

  predicate Owes(s: Memory, c: Code) {
    c in s.held || (s.synthAlt && c == AltLeft)
  }

  /** `HOOK_HELD` never holds a key twice, and never Alt. */
  predicate Sound(s: Memory) {
    AltLeft !in s.held && forall j, k :: 0 <= j < k < |s.held| ==> s.held[j] != s.held[k]
  }

  lemma {:induction false} WithoutMembers(held: seq<Code>, c: Code)
    requires forall j, k :: 0 <= j < k < |held| ==> held[j] != held[k]
    ensures forall x :: x in Without(held, c) <==> x in held && x != c
    ensures forall j, k :: 0 <= j < k < |Without(held, c)| ==> Without(held, c)[j] != Without(held, c)[k]
  {
    if held != [] {
      WithoutMembers(held[1..], c);
      assert held == [held[0]] + held[1..];
      var rest := Without(held[1..], c);
      assert forall k :: 0 <= k < |rest| ==> rest[k] in held[1..];
    }
  }

  lemma OneMessage(down: set<Code>, a: Msg)
    ensures Left(down, [a]) == KeyRuns.Apply(down, a)
  {
    assert [a][..0] == [];
  }

  lemma TwoMessages(down: set<Code>, a: Msg, b: Msg)
    ensures Left(down, [a, b]) == KeyRuns.Apply(KeyRuns.Apply(down, a), b)
  {
    assert [a, b][..1] == [a];
    OneMessage(down, a);
  }

  lemma {:induction false} LeftConcat(down: set<Code>, a: seq<Msg>, b: seq<Msg>)
    ensures Left(down, a + b) == Left(Left(down, a), b)
  {
    if b == [] {
      assert a + b == a;
    } else {
      assert (a + b)[..|a + b| - 1] == a + b[..|b| - 1];
      LeftConcat(down, a, b[..|b| - 1]);
    }
  }

  lemma HookKeyKeeps(s: Memory, e: Call, down: set<Code>)
    requires Real(e) && Sound(s) && forall c :: c in down <==> Owes(s, c)
    ensures var step := HookKey(s, e);
            Sound(step.memory) && forall c :: c in Left(down, step.forwarded) <==> Owes(step.memory, c)
  {
    hide Left, VkToCode;
    var step := HookKey(s, e);
    Nothing(down);
    if VkToCode(e.vk).Some? {
      var code := VkToCode(e.vk).value;
      CodeIsNotAlt(e.vk);
      WithoutMembers(s.held, code);
      OneMessage(down, KeyUp(code));
      OneMessage(down, KeyDown(code));
      TwoMessages(down, KeyDown(AltLeft), KeyDown(code));
      assert forall c :: c in s.held + [code] <==> c in s.held || c == code;
    }
  }

  lemma CodeIsNotAlt(vk: nat)
    ensures VkToCode(vk) != Some(AltLeft)
  {
  }

  lemma Nothing(down: set<Code>)
    ensures Left(down, []) == down
  {
  }

  lemma HookKeeps(s: Memory, e: Call, down: set<Code>)
    requires Sound(s) && forall c :: c in down <==> Owes(s, c)
    ensures var step := Hook(s, e);
            Sound(step.memory) && forall c :: c in Left(down, step.forwarded) <==> Owes(step.memory, c)
  {
    hide Left, HookKey;
    assert Left(down, []) == down by { Nothing(down); }
    if Real(e) {
      if AltMirrored(s, e) {
        var t := s.(synthAlt := false);
        OneMessage(down, KeyUp(AltLeft));
        HookKeyKeeps(t, e, down - {AltLeft});
        LeftConcat(down, [KeyUp(AltLeft)], HookKey(t, e).forwarded);
      } else {
        HookKeyKeeps(s, e, down);
      }
    }
  }

  /** Since installation, whatever focus and Alt do: the keys left down by forwarded events
      are exactly `HOOK_HELD`, plus AltLeft while `SYNTH_ALT` is set. */
  lemma {:induction false} LeftDownIsOwed(calls: seq<Call>)
    ensures var (s, msgs) := Since(calls);
            Sound(s) && forall c :: c in Left({}, msgs) <==> Owes(s, c)
  {
    hide Hook, Left;
    if calls == [] {
      Nothing({});
    } else {
      LeftDownIsOwed(calls[..|calls| - 1]);
      var before := Since(calls[..|calls| - 1]);
      HookKeeps(before.0, calls[|calls| - 1], Left({}, before.1));
      LeftConcat({}, before.1, Hook(before.0, calls[|calls| - 1]).forwarded);
    }
  }

  /** A forwarded press of a key gets its release at the key's next real release,
      wherever focus is and whether or not Alt is still down. */
  lemma ReleaseAlwaysFollows(calls: seq<Call>, e: Call)
    requires Real(e) && e.kind == Release && VkToCode(e.vk).Some?
    requires VkToCode(e.vk).value in Since(calls).0.held
    ensures var c := VkToCode(e.vk).value;
            && c !in Left({}, Since(calls + [e]).1)
            && KeyUp(c) in Hook(Since(calls).0, e).forwarded
  {
    hide Since, Left;
    SinceStep(calls, e);
    LeftDownIsOwed(calls);
    LeftDownIsOwed(calls + [e]);
    WithoutMembers(Since(calls).0.held, VkToCode(e.vk).value);
  }

  /** A key of the user's own, by the key codes of Windows. */
  predicate Own(e: Call, kind: Kind, vk: nat) {
    e.code >= 0 && !e.injected && e.kind == kind && e.vk == vk
  }

  /** A captured press of `c`: a Windows key, or Tab or Escape with Alt, which presses Alt as well. */
  predicate PutsDown(e: Call, c: Code) {
    e.focused &&
    match c
    case MetaLeft => Own(e, Press, 0x5b)
    case MetaRight => Own(e, Press, 0x5c)
    case Tab => Own(e, Press, 0x09) && e.altDown
    case Escape => Own(e, Press, 0x1b) && e.altDown
    case AltLeft => (Own(e, Press, 0x09) || Own(e, Press, 0x1b)) && e.altDown
    case _ => false
  }

  /** The real release of `c`; for Alt that is one of the key code 0x12. */
  predicate LetsGo(e: Call, c: Code) {
    match c
    case MetaLeft => Own(e, Release, 0x5b)
    case MetaRight => Own(e, Release, 0x5c)
    case Tab => Own(e, Release, 0x09)
    case Escape => Own(e, Release, 0x1b)
    case AltLeft => Own(e, Release, 0x12)
    case _ => false
  }

  /** A key is kept from the viewer's own system exactly if it is one of these, and the window has the focus. */
  lemma SwallowedExact(s: Memory, e: Call)
    ensures Hook(s, e).suppressed <==>
            && e.code >= 0 && !e.injected && e.kind != OtherMessage && e.focused
            && (e.vk == 0x5b || e.vk == 0x5c || ((e.vk == 0x09 || e.vk == 0x1b) && e.altDown))
  {
    hide Without;
  }

  predicate LastPut(calls: seq<Call>, c: Code, j: int) {
    0 <= j < |calls| && PutsDown(calls[j], c) && forall k :: j < k < |calls| ==> !LetsGo(calls[k], c)
  }

  lemma OwesKey(s: Memory, e: Call, c: Code)
    requires Sound(s) && Real(e)
    ensures Owes(HookKey(s, e).memory, c) <==>
            PutsDown(e, c) || (Owes(s, c) && !(e.kind == Release && VkToCode(e.vk) == Some(c)))
  {
    hide Without;
    if VkToCode(e.vk).Some? {
      CodeIsNotAlt(e.vk);
      WithoutMembers(s.held, VkToCode(e.vk).value);
    }
  }

  lemma OwesStep(s: Memory, e: Call, c: Code)
    requires Sound(s)
    ensures Owes(Hook(s, e).memory, c) <==> PutsDown(e, c) || (Owes(s, c) && !LetsGo(e, c))
  {
    hide HookKey;
    if Real(e) {
      OwesKey(s, e, c);
      OwesKey(s.(synthAlt := false), e, c);
    }
  }

  /** A key is left down on the host exactly if a captured press of it has had no real release since. */
  lemma {:induction false} LeftDownExact(calls: seq<Call>, c: Code)
    ensures c in Left({}, Since(calls).1) <==> exists j :: LastPut(calls, c, j)
  {
    hide Left, Hook, PutsDown, LetsGo, LastPut, Owes;
    LeftDownIsOwed(calls);
    if calls == [] {
      NonePut(c);
    } else {
      var front, e := calls[..|calls| - 1], calls[|calls| - 1];
      LeftDownIsOwed(front);
      LeftDownExact(front, c);
      OwesStep(Since(front).0, e, c);
      LastPutMore(front, e, c);
      assert front + [e] == calls;
    }
  }

  lemma NonePut(c: Code)
    ensures !Owes(Since([]).0, c) && !exists j :: LastPut([], c, j)
  {
  }

  lemma LastPutMore(calls: seq<Call>, e: Call, c: Code)
    ensures (exists j :: LastPut(calls + [e], c, j)) <==>
            PutsDown(e, c) || ((exists j :: LastPut(calls, c, j)) && !LetsGo(e, c))
  {
    PutAndGo(e, c);
    hide PutsDown, LetsGo;
    var more := calls + [e];
    assert more[|calls|] == e && forall j :: 0 <= j < |calls| ==> more[j] == calls[j];
    if PutsDown(e, c) {
      assert LastPut(more, c, |calls|);
    }
    forall j | LastPut(calls, c, j) && !LetsGo(e, c)
      ensures LastPut(more, c, j)
    {
    }
    forall j | LastPut(more, c, j) && j < |calls|
      ensures LastPut(calls, c, j) && !LetsGo(e, c)
    {
    }
  }

  lemma PutAndGo(e: Call, c: Code)
    ensures !(PutsDown(e, c) && LetsGo(e, c))
  {
  }

  lemma SinceStep(calls: seq<Call>, e: Call)
    ensures var before := Since(calls);
            var step := Hook(before.0, e);
            Since(calls + [e]) == (step.memory, before.1 + step.forwarded)
  {
    assert (calls + [e])[..|calls|] == calls;
  }

  /** The Alt pressed on the user's behalf is let go exactly by a real release of the key
      code VK_MENU. */
  lemma AltLetGoOnlyByMenu(s: Memory, e: Call)
    requires s.synthAlt
    ensures !Hook(s, e).memory.synthAlt <==> AltMirrored(s, e)
    ensures AltMirrored(s, e) <==> KeyUp(AltLeft) in Hook(s, e).forwarded
  {
  }

  /** A release reported under another key code, 0xa4 say, leaves AltLeft down on the host. */
  lemma SidedAltReleaseIsNotMirrored()
    ensures var tab := Call(0, Press, VK_TAB, false, true, true);
            var altUp := Call(0, Release, 0xa4, false, false, true);
            var tabUp := Call(0, Release, VK_TAB, false, false, true);
            Left({}, Since([tab, tabUp, altUp]).1) == {AltLeft}
  {
    var tab := Call(0, Press, VK_TAB, false, true, true);
    var tabUp := Call(0, Release, VK_TAB, false, false, true);
    var altUp := Call(0, Release, 0xa4, false, false, true);
    assert [tab, tabUp, altUp] == [] + [tab] + [tabUp] + [altUp];
    SinceStep([], tab);
    SinceStep([] + [tab], tabUp);
    SinceStep([] + [tab] + [tabUp], altUp);
    assert Since([] + [tab]).0 == Memory([Tab], true);
    assert Since([] + [tab] + [tabUp]).0 == Memory([], true);
    assert Since([tab, tabUp, altUp]).0 == Memory([], true);
    LeftDownIsOwed([tab, tabUp, altUp]);
  }
}
