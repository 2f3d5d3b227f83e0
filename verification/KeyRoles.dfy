/** What a shortcut means on the viewer's system and on the host's (native/crates/engine/src/modifiers.rs). */
module KeyRoles {
  import opened Common
  import opened Keys
  import opened KeyRuns
  import opened KeyHistory

  /** A Mac and a PC, either way round, and the setting is on. */
  predicate Translated(viewer: OsFamily, host: OsFamily, enabled: bool) {
    enabled && ((viewer.Mac? && Pc(host)) || (Pc(viewer) && host.Mac?))
  }

  predicate Pc(os: OsFamily) {
    os.Windows? || os.Linux?
  }

  datatype Side = Left | Right

  function Meta(s: Side): Code {
    if s.Left? then MetaLeft else MetaRight
  }

  function Control(s: Side): Code {
    if s.Left? then ControlLeft else ControlRight
  }

  function Alt(s: Side): Code {
    if s.Left? then AltLeft else AltRight
  }

  /** The modifier of Copy, Paste and the like. */
  function CopyKey(os: OsFamily, s: Side): Code {
    if os.Mac? then Meta(s) else Control(s)
  }

  /** The modifier that switches applications with Tab. */
  function SwitchModifier(os: OsFamily, s: Side): Code {
    if os.Mac? then Meta(s) else Alt(s)
  }

  /** What the host holds after the two keys have gone down, one after the other, on the viewer. */
  function HostAfter(viewer: OsFamily, host: OsFamily, enabled: bool, first: Code, second: Code): set<Code> {
    Host({}, Run(viewer, host, [Event(first, true, enabled), Event(second, true, enabled)]).1)
  }

  lemma TwoKeys(viewer: OsFamily, host: OsFamily, enabled: bool, first: Code, second: Code)
    requires first != second
    ensures var m := MappingOf(viewer, host, enabled);
            HostAfter(viewer, host, enabled, first, second) ==
            {if Chord(m, first, second).Some? then Chord(m, first, second).value else Remap(m, first), Remap(m, second)}
  {
    hide Run, Host, Remap, Chord, MappingOf;
    var m := MappingOf(viewer, host, enabled);
    var none: seq<Event> := [];
    var a, b := Event(first, true, enabled), Event(second, true, enabled);
    assert none + [a] == [a] && [a] + [b] == [a, b];
    HistoryMore(viewer, host, none, a, first);
    HistoryMore(viewer, host, none, a, second);
    HistoryMore(viewer, host, [a], b, first);
    HistoryMore(viewer, host, [a], b, second);
    PressedPair(a, b);
    forall code
      ensures code in HostAfter(viewer, host, enabled, first, second) <==>
              SentOf(viewer, host, [a, b], first) == Some(code) || SentOf(viewer, host, [a, b], second) == Some(code)
    {
      HostIsHistory(viewer, host, [a, b], code);
    }
  }

  lemma PressedPair(a: Event, b: Event)
    requires a.down && b.down && a.code != b.code
    ensures Pressed([a, b]) == {a.code, b.code} && Pressed([a]) == {a.code}
  {
    assert [a, b][..1] == [a] && [a][..0] == [];
    assert Pressed([]) == {};
  }

  /** A key with no part in a shortcut of its own. */
  predicate Plain(c: Code) {
    c.Other? || c.Escape?
  }

  /** The viewer's Copy is the host's Copy, on either side of the keyboard, and so for every plain key. */
  lemma CopyArrives(viewer: OsFamily, host: OsFamily, s: Side, key: Code)
    requires Translated(viewer, host, true) && Plain(key)
    ensures HostAfter(viewer, host, true, CopyKey(viewer, s), key) == {CopyKey(host, s), key}
  {
    hide HostAfter;
    TwoKeys(viewer, host, true, CopyKey(viewer, s), key);
  }

  /** The other key of the two takes its place; Alt stays Alt. */
  lemma OthersArrive(viewer: OsFamily, host: OsFamily, s: Side, key: Code)
    requires Translated(viewer, host, true) && Plain(key)
    ensures HostAfter(viewer, host, true, CopyKey(host, s), key) == {CopyKey(viewer, s), key}
    ensures HostAfter(viewer, host, true, Alt(s), key) == {Alt(s), key}
  {
    hide HostAfter;
    TwoKeys(viewer, host, true, CopyKey(host, s), key);
    TwoKeys(viewer, host, true, Alt(s), key);
  }

  /** The viewer's application switcher is the host's, with the host's left key for both of the viewer's. */
  lemma SwitcherArrives(viewer: OsFamily, host: OsFamily, s: Side)
    requires Translated(viewer, host, true)
    ensures HostAfter(viewer, host, true, SwitchModifier(viewer, s), Tab) == {SwitchModifier(host, Left), Tab}
  {
    hide HostAfter;
    TwoKeys(viewer, host, true, SwitchModifier(viewer, s), Tab);
  }

  /** Control and Tab switch tabs on both, and arrive as they are. */
  lemma TabsArrive(viewer: OsFamily, host: OsFamily, s: Side, enabled: bool)
    ensures HostAfter(viewer, host, enabled, Control(s), Tab) == {Control(s), Tab}
  {
    hide HostAfter;
    TwoKeys(viewer, host, enabled, Control(s), Tab);
  }

  /**
   * The rest of Tab and Backquote: Command and Backquote, the next window on a Mac, arrive with the
   * left Alt; Option and Tab, and anything else with Backquote, as they do with a plain key.
   */
  lemma BackquoteArrives(viewer: OsFamily, host: OsFamily, s: Side, key: Code)
    requires Translated(viewer, host, true) && Plain(key)
    ensures HostAfter(viewer, host, true, Meta(s), Backquote) ==
            {if viewer.Mac? then AltLeft else Control(s), Backquote}
    ensures HostAfter(viewer, host, true, Control(s), Backquote) == {Meta(s), Backquote}
    ensures HostAfter(viewer, host, true, Alt(s), Backquote) == {Alt(s), Backquote}
    ensures viewer.Mac? ==> HostAfter(viewer, host, true, Alt(s), Tab) == {Alt(s), Tab}
    ensures !viewer.Mac? ==> HostAfter(viewer, host, true, Meta(s), Tab) == {Control(s), Tab}
    ensures HostAfter(viewer, host, true, key, Tab) == {key, Tab}
    ensures HostAfter(viewer, host, true, key, Backquote) == {key, Backquote}
  {
    hide HostAfter;
    TwoKeys(viewer, host, true, Meta(s), Backquote);
    TwoKeys(viewer, host, true, Control(s), Backquote);
    TwoKeys(viewer, host, true, Alt(s), Backquote);
    TwoKeys(viewer, host, true, Alt(s), Tab);
    TwoKeys(viewer, host, true, Meta(s), Tab);
    TwoKeys(viewer, host, true, key, Tab);
    TwoKeys(viewer, host, true, key, Backquote);
  }

  /** Between systems of one family, with an unknown one, or with the setting off, any two keys arrive as they are. */
  lemma UntouchedOtherwise(viewer: OsFamily, host: OsFamily, enabled: bool, first: Code, second: Code)
    requires !Translated(viewer, host, enabled) && first != second
    ensures HostAfter(viewer, host, enabled, first, second) == {first, second}
  {
    hide HostAfter;
    TwoKeys(viewer, host, enabled, first, second);
  }
}
