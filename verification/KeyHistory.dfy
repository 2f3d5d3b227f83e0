/** What the host holds, read off the history of each key alone, and chords when a switch key repeats. */
module KeyHistory {
  import opened Common
  import opened Keys
  import opened KeyRuns

  /** The mapping the last of some events is translated under. */
  function MappingAt(viewer: OsFamily, host: OsFamily, e: Event): Mapping {
    MappingOf(viewer, host, e.enabled)
  }

  /** The event is a press of a key that is up. */
  predicate FirstPress(before: seq<Event>, e: Event) {
    e.down && e.code !in Pressed(before)
  }

  /**
   * The code the host has for a key, from the events alone: the key's own press decides it, and
   * after that every first press of a key with a chord rule for it.
   */
  function SentOf(viewer: OsFamily, host: OsFamily, events: seq<Event>, key: Code): Option<Code> {
    if events == [] then None
    else
      var before, e := events[..|events| - 1], events[|events| - 1];
      var m := MappingAt(viewer, host, e);
      var sent := SentOf(viewer, host, before, key);
      if e.code == key then
        if !e.down then None else if sent.Some? then sent else Some(Remap(m, key))
      else if sent.Some? && FirstPress(before, e) && Chord(m, key, e.code).Some? then Chord(m, key, e.code)
      else sent
  }

  /** Every held key is sent as its history says. */
  predicate AsHistory(viewer: OsFamily, host: OsFamily, events: seq<Event>, held: seq<Held>) {
    forall k :: 0 <= k < |held| ==> SentOf(viewer, host, events, held[k].physical) == Some(held[k].sent)
  }

  lemma HistoryMore(viewer: OsFamily, host: OsFamily, before: seq<Event>, e: Event, key: Code)
    ensures var m := MappingAt(viewer, host, e);
            var sent := SentOf(viewer, host, before, key);
            SentOf(viewer, host, before + [e], key) ==
            if e.code == key then (if !e.down then None else if sent.Some? then sent else Some(Remap(m, key)))
            else if sent.Some? && FirstPress(before, e) && Chord(m, key, e.code).Some? then Chord(m, key, e.code)
            else sent
  {
    hide Remap, Chord, FirstPress;
    assert (before + [e])[..|before|] == before;
  }

  lemma FindHeld(held: seq<Held>, code: Code)
    ensures IsHeld(held, code) <==> Find(held, code) < |held|
  {
    if Find(held, code) < |held| {
      assert held[Find(held, code)].physical == code;
    }
  }

  /** A press of a key that is up: the others change as their chord rules say. */
  lemma PressHistory(viewer: OsFamily, host: OsFamily, before: seq<Event>, e: Event, held: seq<Held>)
    requires AsHistory(viewer, host, before, held) && FirstPress(before, e) && !IsHeld(held, e.code)
    requires SentOf(viewer, host, before, e.code) == None
    ensures AsHistory(viewer, host, before + [e], Down(MappingAt(viewer, host, e), held, e.code).0)
  {
    hide Chord, Remap, Rewrites, HoldsBut, MappingAt, SentOf;
    var m := MappingAt(viewer, host, e);
    var after := Down(m, held, e.code).0;
    RewritesShape(m, held, |held|, e.code);
    FindHeld(held, e.code);
    forall k | 0 <= k < |after|
      ensures SentOf(viewer, host, before + [e], after[k].physical) == Some(after[k].sent)
    {
      HistoryMore(viewer, host, before, e, after[k].physical);
      if k < |held| {
        assert held[k].physical != e.code;
        assert SentOf(viewer, host, before, held[k].physical) == Some(held[k].sent);
      }
    }
  }

  /** A repeat or a release changes no other key's code. */
  lemma OtherHistory(viewer: OsFamily, host: OsFamily, before: seq<Event>, e: Event, held: seq<Held>)
    requires AsHistory(viewer, host, before, held) && !FirstPress(before, e) && Distinct(held)
    requires e.down ==> IsHeld(held, e.code)
    ensures AsHistory(viewer, host, before + [e], Key(MappingAt(viewer, host, e), held, e.code, e.down).0)
  {
    hide Chord, Remap, Rewrites, HoldsBut, MappingAt, FirstPress, SentOf;
    var m := MappingAt(viewer, host, e);
    var after := Key(m, held, e.code, e.down).0;
    var i := Find(held, e.code);
    forall k | 0 <= k < |after|
      ensures SentOf(viewer, host, before + [e], after[k].physical) == Some(after[k].sent)
    {
      var j := if e.down || i == |held| || k < i then k else k + 1;
      assert after[k] == held[j];
      HistoryMore(viewer, host, before, e, held[j].physical);
      assert SentOf(viewer, host, before, held[j].physical) == Some(held[j].sent);
    }
  }

  /** A key has a history exactly while it is pressed. */
  lemma {:induction false} HistoryPressed(viewer: OsFamily, host: OsFamily, events: seq<Event>, key: Code)
    ensures SentOf(viewer, host, events, key).Some? <==> key in Pressed(events)
  {
    hide Remap, Chord, MappingAt;
    if events != [] {
      HistoryPressed(viewer, host, events[..|events| - 1], key);
    }
  }

  /** The translator's list agrees with the history of every key. */
  lemma {:induction false} RunHistory(viewer: OsFamily, host: OsFamily, events: seq<Event>)
    ensures AsHistory(viewer, host, events, Run(viewer, host, events).0)
  {
    hide SentOf, Host, Covered, InStep, Key, Chord, Remap;
    if events != [] {
      var before, e := events[..|events| - 1], events[|events| - 1];
      assert events == before + [e];
      RunHistory(viewer, host, before);
      RunKeeps(viewer, host, before);
      HistoryPressed(viewer, host, before, e.code);
      var held := Run(viewer, host, before).0;
      if FirstPress(before, e) {
        PressHistory(viewer, host, before, e, held);
        DownIsKey(MappingAt(viewer, host, e), held, e.code);
      } else {
        OtherHistory(viewer, host, before, e, held);
      }
    }
  }

  lemma DownIsKey(m: Mapping, held: seq<Held>, code: Code)
    ensures Key(m, held, code, true) == Down(m, held, code)
  {
    hide Down;
  }

  lemma HeldSent(viewer: OsFamily, host: OsFamily, events: seq<Event>, code: Code) returns (key: Code)
    requires Holds(Run(viewer, host, events).0, code)
    ensures key in Pressed(events) && SentOf(viewer, host, events, key) == Some(code)
  {
    hide SentOf, Run, Host, Covered, Pressed, InStep;
    var held := Run(viewer, host, events).0;
    var k :| 0 <= k < |held| && k != -1 && held[k].sent == code;
    key := held[k].physical;
    RunKeeps(viewer, host, events);
    RunHistory(viewer, host, events);
    assert IsHeld(held, key);
  }

  lemma SentHeld(viewer: OsFamily, host: OsFamily, events: seq<Event>, key: Code)
    requires key in Pressed(events)
    ensures var sent := SentOf(viewer, host, events, key); sent.Some? && Holds(Run(viewer, host, events).0, sent.value)
  {
    hide SentOf, Run, Host, Covered, Pressed, InStep;
    var held := Run(viewer, host, events).0;
    RunKeeps(viewer, host, events);
    RunHistory(viewer, host, events);
    assert IsHeld(held, key);
    var k :| 0 <= k < |held| && held[k].physical == key;
    assert SentOf(viewer, host, events, held[k].physical) == Some(held[k].sent);
    assert HoldsBut(held, held[k].sent, -1);
  }

  /** The host holds exactly the codes that the histories of the pressed keys give. */
  lemma HostIsHistory(viewer: OsFamily, host: OsFamily, events: seq<Event>, code: Code)
    ensures code in Host({}, Run(viewer, host, events).1) <==>
            exists key :: key in Pressed(events) && SentOf(viewer, host, events, key) == Some(code)
  {
    hide SentOf, Run, Host, Covered, HoldsBut, Pressed, Holds;
    RunKeeps(viewer, host, events);
    if Holds(Run(viewer, host, events).0, code) {
      var key := HeldSent(viewer, host, events, code);
    }
    forall key | key in Pressed(events) && SentOf(viewer, host, events, key) == Some(code)
      ensures Holds(Run(viewer, host, events).0, code)
    {
      SentHeld(viewer, host, events, key);
    }
  }

  // ---- A switch key reaches the host -------------------------------------

  predicate SwitchKey(key: Code) {
    key == Tab || key == Backquote
  }

  /** Every held key with a chord rule for `key` has its chord code down on the host. */
  ghost predicate ChordDown(viewer: OsFamily, host: OsFamily, events: seq<Event>, m: Mapping, key: Code) {
    forall h :: h in Pressed(events) && Chord(m, h, key).Some? ==>
      Chord(m, h, key).value in Host({}, Run(viewer, host, events).1)
  }

  /** By the histories alone: some pressed key is sent as the chord code. */
  ghost predicate ChordSent(viewer: OsFamily, host: OsFamily, events: seq<Event>, m: Mapping, key: Code) {
    forall h :: h in Pressed(events) && Chord(m, h, key).Some? ==>
      exists g :: g in Pressed(events) && SentOf(viewer, host, events, g) == Chord(m, h, key)
  }

  /**
   * A repeat of a switch key is one message, the key itself, and it meets every chord modifier
   * down as its chord code exactly when the histories of the pressed keys say so.
   */
  lemma RepeatExact(viewer: OsFamily, host: OsFamily, events: seq<Event>, key: Code, enabled: bool)
    requires SwitchKey(key) && key in Pressed(events)
    ensures var m := MappingOf(viewer, host, enabled);
            var (after, out) := Down(m, Run(viewer, host, events).0, key);
            && |out| == 1 && out[0].msg == KeyDown(key)
            && (ChordDown(viewer, host, events, m, key) <==> ChordSent(viewer, host, events, m, key))
  {
    hide SentOf, Run, Host, Covered, Chord, MappingOf, InStep;
    var m := MappingOf(viewer, host, enabled);
    RepeatSends(viewer, host, events, m, key);
    forall h | h in Pressed(events) && Chord(m, h, key).Some?
      ensures Chord(m, h, key).value in Host({}, Run(viewer, host, events).1) <==>
              exists g :: g in Pressed(events) && SentOf(viewer, host, events, g) == Chord(m, h, key)
    {
      HostIsHistory(viewer, host, events, Chord(m, h, key).value);
    }
  }

  lemma RepeatSends(viewer: OsFamily, host: OsFamily, events: seq<Event>, m: Mapping, key: Code)
    requires SwitchKey(key) && key in Pressed(events)
    ensures var out := Down(m, Run(viewer, host, events).0, key).1;
            |out| == 1 && out[0].msg == KeyDown(key)
  {
    hide Run, Host, Covered, InStep;
    RunKeeps(viewer, host, events);
    var held := Run(viewer, host, events).0;
    FindHeld(held, key);
    RunHistory(viewer, host, events);
    OwnHistory(viewer, host, events, key);
    assert SentOf(viewer, host, events, held[Find(held, key)].physical) == Some(held[Find(held, key)].sent);
  }

  /** Chord rewrites never press a switch key. */
  lemma {:induction false} RewritesPressNoSwitch(m: Mapping, held: seq<Held>, n: nat, code: Code, k: nat)
    requires n <= |held| && k < |Rewrites(m, held, n, code).1|
    ensures var msg := Rewrites(m, held, n, code).1[k].msg; msg.KeyDown? ==> !SwitchKey(msg.code)
  {
    hide HoldsBut;
    var front := Rewrites(m, held, n - 1, code);
    if k < |front.1| {
      RewritesPressNoSwitch(m, held, n - 1, code, k);
    }
  }

  /** Whenever the host gets a press of Tab or Backquote, that key itself was pressed, for the first time or again. */
  lemma SwitchKeyIsPressed(viewer: OsFamily, host: OsFamily, events: seq<Event>, e: Event, k: nat)
    requires var out := Key(MappingAt(viewer, host, e), Run(viewer, host, events).0, e.code, e.down).1;
             k < |out| && out[k].msg.KeyDown? && SwitchKey(out[k].msg.code)
    ensures var out := Key(MappingAt(viewer, host, e), Run(viewer, host, events).0, e.code, e.down).1;
            e.down && e.code == out[k].msg.code
  {
    hide Run, HoldsBut, Rewrites, MappingAt;
    var m, held := MappingAt(viewer, host, e), Run(viewer, host, events).0;
    RunOwn(viewer, host, events);
    if e.down && Find(held, e.code) == |held| && k < |Rewrites(m, held, |held|, e.code).1| {
      RewritesPressNoSwitch(m, held, |held|, e.code, k);
    }
  }

  /** A switch key is only ever sent as itself. */
  lemma {:induction false} OwnHistory(viewer: OsFamily, host: OsFamily, events: seq<Event>, key: Code)
    requires SwitchKey(key)
    ensures key in Pressed(events) ==> SentOf(viewer, host, events, key) == Some(key)
  {
    HistoryPressed(viewer, host, events, key);
    if events != [] {
      hide MappingAt, Pressed;
      OwnHistory(viewer, host, events[..|events| - 1], key);
      HistoryPressed(viewer, host, events[..|events| - 1], key);
    }
  }

  // ---- Repeats under an unchanged setting --------------------------------

  /**
   * Since the key went down the mapping has stayed `m`, the key has stayed down, and no key with
   * a chord rule for it has gone down.
   */
  ghost predicate Undisturbed(viewer: OsFamily, host: OsFamily, m: Mapping, key: Code, before: seq<Event>,
        since: seq<Event>)
  {
    forall i :: 0 <= i < |since| ==> Harmless(viewer, host, m, key, before + since[..i], since[i])
  }

  predicate Harmless(viewer: OsFamily, host: OsFamily, m: Mapping, key: Code, before: seq<Event>, e: Event) {
    && MappingAt(viewer, host, e) == m
    && (e.code == key ==> e.down)
    && (FirstPress(before, e) ==> Chord(m, e.code, key).None?)
  }

  /** Every pressed key with a chord rule is itself sent as its chord code. */
  ghost predicate OwnChord(viewer: OsFamily, host: OsFamily, events: seq<Event>, m: Mapping, key: Code) {
    forall h :: h in Pressed(events) && Chord(m, h, key).Some? ==> SentOf(viewer, host, events, h) == Chord(m, h, key)
  }

  /** The chord codes of one modifier do not depend on the switch key. */
  lemma ChordsAgree(m: Mapping, h: Code, a: Code, b: Code)
    ensures Chord(m, h, a).Some? && Chord(m, h, b).Some? ==> Chord(m, h, a) == Chord(m, h, b)
    ensures Chord(m, a, a).None?
  {
  }

  /** The first press of the key rewrites them all. */
  lemma FirstPressChords(viewer: OsFamily, host: OsFamily, before: seq<Event>, e: Event)
    requires FirstPress(before, e)
    ensures OwnChord(viewer, host, before + [e], MappingAt(viewer, host, e), e.code)
  {
    hide MappingAt, SentOf, Remap, Chord;
    var m := MappingAt(viewer, host, e);
    assert (before + [e])[..|before|] == before;
    forall h | h in Pressed(before + [e]) && Chord(m, h, e.code).Some?
      ensures SentOf(viewer, host, before + [e], h) == Chord(m, h, e.code)
    {
      ChordsAgree(m, e.code, e.code, e.code);
      HistoryMore(viewer, host, before, e, h);
      HistoryPressed(viewer, host, before, h);
    }
  }

  lemma HarmlessKeeps(viewer: OsFamily, host: OsFamily, m: Mapping, key: Code, before: seq<Event>, e: Event)
    requires OwnChord(viewer, host, before, m, key) && Harmless(viewer, host, m, key, before, e)
    ensures OwnChord(viewer, host, before + [e], m, key)
  {
    hide MappingAt, SentOf, Remap, Chord;
    assert (before + [e])[..|before|] == before;
    forall h | h in Pressed(before + [e]) && Chord(m, h, key).Some?
      ensures SentOf(viewer, host, before + [e], h) == Chord(m, h, key)
    {
      HistoryMore(viewer, host, before, e, h);
      HistoryPressed(viewer, host, before, h);
      ChordsAgree(m, h, key, e.code);
    }
  }

  lemma {:induction false} UndisturbedKeeps(viewer: OsFamily, host: OsFamily, m: Mapping, key: Code,
                                            before: seq<Event>, since: seq<Event>)
    requires OwnChord(viewer, host, before, m, key) && Undisturbed(viewer, host, m, key, before, since)
    ensures OwnChord(viewer, host, before + since, m, key)
    decreases |since|
  {
    hide OwnChord, Harmless;
    if since == [] {
      assert before + since == before;
    } else {
      var n := |since| - 1;
      forall i | 0 <= i < n
        ensures Harmless(viewer, host, m, key, before + since[..n][..i], since[..n][i])
      {
        assert since[..n][..i] == since[..i];
      }
      UndisturbedKeeps(viewer, host, m, key, before, since[..n]);
      HarmlessKeeps(viewer, host, m, key, before + since[..n], since[n]);
      assert before + since == before + since[..n] + [since[n]];
    }
  }

  /**
   * A repeat of Tab or Backquote reaches the host with every held chord modifier down as its chord
   * code, as long as nothing has disturbed the chord since the key's press.
   */
  lemma UndisturbedRepeat(viewer: OsFamily, host: OsFamily, before: seq<Event>, press: Event, since: seq<Event>,
        enabled: bool)
    requires SwitchKey(press.code) && FirstPress(before, press)
    requires MappingOf(viewer, host, enabled) == MappingAt(viewer, host, press)
    requires Undisturbed(viewer, host, MappingAt(viewer, host, press), press.code, before + [press], since)
    requires press.code in Pressed(before + [press] + since)
    ensures var m, events := MappingOf(viewer, host, enabled), before + [press] + since;
            var out := Down(m, Run(viewer, host, events).0, press.code).1;
            && |out| == 1 && out[0].msg == KeyDown(press.code)
            && ChordDown(viewer, host, events, m, press.code)
  {
    hide SentOf, Run, Host, Chord, MappingOf, MappingAt, Undisturbed, FirstPress, Pressed, Down;
    var m, events := MappingOf(viewer, host, enabled), before + [press] + since;
    FirstPressChords(viewer, host, before, press);
    UndisturbedKeeps(viewer, host, m, press.code, before + [press], since);
    RepeatExact(viewer, host, events, press.code, enabled);
  }

  /** Cmd and Tab pressed with the setting off, Tab repeating with it on: Tab arrives without Alt. */
  lemma RepeatAfterFlip()
    ensures var events := [Event(MetaLeft, true, false), Event(Tab, true, false)];
            var m := MappingOf(Mac, Windows, true);
            var out := Down(m, Run(Mac, Windows, events).0, Tab).1;
            && |out| == 1 && out[0].msg == KeyDown(Tab)
            && MetaLeft in Pressed(events) && Chord(m, MetaLeft, Tab) == Some(AltLeft)
            && AltLeft !in Host({}, Run(Mac, Windows, events).1)
  {
    var a, b := Event(MetaLeft, true, false), Event(Tab, true, false);
    var events := [a, b];
    var none: seq<Event> := [];
    assert events[..1] == [a] && [a][..0] == none;
    assert Pressed([a]) == {MetaLeft} && Pressed(events) == {MetaLeft, Tab};
    RepeatSends(Mac, Windows, events, MappingOf(Mac, Windows, true), Tab);
    assert SentOf(Mac, Windows, [a], MetaLeft) == Some(MetaLeft);
    assert SentOf(Mac, Windows, events, MetaLeft) == Some(MetaLeft);
    OwnHistory(Mac, Windows, events, Tab);
    HostIsHistory(Mac, Windows, events, AltLeft);
  }
}
