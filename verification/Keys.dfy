/** Modifier translation for the host's OS (native/crates/engine/src/modifiers.rs). */
module Keys {
  import opened Common

  /** A DOM key code: the ones the translator names, and all others. */
  datatype Code =
    | MetaLeft | MetaRight | ControlLeft | ControlRight | AltLeft | AltRight | Tab | Backquote | Escape
    | Other(id: nat)

  datatype OsFamily = Windows | Mac | Linux | Unknown

  datatype Mapping = Identity | MacToPc | PcToMac

  function MappingOf(viewer: OsFamily, host: OsFamily, enabled: bool): Mapping {
    if !enabled then Identity
    else match (viewer, host)
      case (Mac, Windows) => MacToPc
      case (Mac, Linux) => MacToPc
      case (Windows, Mac) => PcToMac
      case (Linux, Mac) => PcToMac
      case _ => Identity
  }

  function Remap(m: Mapping, code: Code): Code {
    if m == Identity then code
    else match code
      case MetaLeft => ControlLeft
      case MetaRight => ControlRight
      case ControlLeft => MetaLeft
      case ControlRight => MetaRight
      case other => other
  }

  /** The code a held modifier must be sent as when `key` goes down. */
  function Chord(m: Mapping, modifier: Code, key: Code): Option<Code> {
    match (m, modifier, key)
    case (MacToPc, MetaLeft, Tab) => Some(AltLeft)
    case (MacToPc, MetaLeft, Backquote) => Some(AltLeft)
    case (MacToPc, MetaRight, Tab) => Some(AltLeft)
    case (MacToPc, MetaRight, Backquote) => Some(AltLeft)
    case (PcToMac, AltLeft, Tab) => Some(MetaLeft)
    case (PcToMac, AltRight, Tab) => Some(MetaLeft)
    case (MacToPc, ControlLeft, Tab) => Some(ControlLeft)
    case (PcToMac, ControlLeft, Tab) => Some(ControlLeft)
    case (MacToPc, ControlRight, Tab) => Some(ControlRight)
    case (PcToMac, ControlRight, Tab) => Some(ControlRight)
    case _ => None
  }

  datatype Held = Held(physical: Code, sent: Code)

  datatype Msg = KeyDown(code: Code) | KeyUp(code: Code)

  /** A message, with the held keys as they are while `emit` runs. */
  datatype Emission = Emission(msg: Msg, held: seq<Held>)

  datatype Event = Event(code: Code, down: bool, enabled: bool)

  // ---- The translation as a function of the held keys ---------------------

  predicate IsHeld(held: seq<Held>, code: Code) {
    exists k :: 0 <= k < |held| && held[k].physical == code
  }

  /** Some held key but the `except`-th is down on the host as `code`. */
  predicate HoldsBut(held: seq<Held>, code: Code, except: int) {
    exists k :: 0 <= k < |held| && k != except && held[k].sent == code
  }

  predicate Holds(held: seq<Held>, code: Code) {
    HoldsBut(held, code, -1)
  }

  /** The position of the held key `code`; the number of held keys when there is none. */
  function Find(held: seq<Held>, code: Code): (i: nat)
    ensures i <= |held|
    ensures i < |held| ==> held[i].physical == code
    ensures forall k :: 0 <= k < i ==> held[k].physical != code
  {
    if held == [] then 0
    else if held[0].physical == code then 0
    else 1 + Find(held[1..], code)
  }

  /** Rewrite the `i`-th held key to `to`: the new code goes down before the old one comes up. */
  function Resend(held: seq<Held>, i: nat, to: Code): (seq<Held>, seq<Emission>)
    requires i < |held|
  {
    var before := held[i].sent;
    var after := held[i := held[i].(sent := to)];
    var press := if HoldsBut(held, to, i) then [] else [Emission(KeyDown(to), held)];
    (after, if Holds(after, before) then press else press + [Emission(KeyUp(before), after)])
  }

  /** What becomes of the `i`-th held key when `code` goes down. */
  function Rewrite(m: Mapping, held: seq<Held>, i: nat, code: Code): (r: (seq<Held>, seq<Emission>))
    requires i < |held|
    ensures |r.0| == |held|
  {
    match Chord(m, held[i].physical, code)
    case Some(to) => if held[i].sent != to then Resend(held, i, to) else (held, [])
    case None => (held, [])
  }

  /** The chord rewrites of the first `n` held keys. */
  function Rewrites(m: Mapping, held: seq<Held>, n: nat, code: Code): (r: (seq<Held>, seq<Emission>))
    requires n <= |held|
    ensures |r.0| == |held|
  {
    if n == 0 then (held, [])
    else
      var front := Rewrites(m, held, n - 1, code);
      var next := Rewrite(m, front.0, n - 1, code);
      (next.0, front.1 + next.1)
  }

  function Down(m: Mapping, held: seq<Held>, code: Code): (seq<Held>, seq<Emission>) {
    var i := Find(held, code);
    if i < |held| then (held, [Emission(KeyDown(held[i].sent), held)])
    else
      var chords := Rewrites(m, held, |held|, code);
      var sent := Remap(m, code);
      (chords.0 + [Held(code, sent)],
       if Holds(chords.0, sent) then chords.1 else chords.1 + [Emission(KeyDown(sent), chords.0)])
  }

  function Up(m: Mapping, held: seq<Held>, code: Code): (seq<Held>, seq<Emission>) {
    var i := Find(held, code);
    var after := if i < |held| then held[..i] + held[i + 1..] else held;
    var sent := if i < |held| then held[i].sent else Remap(m, code);
    (after, if Holds(after, sent) then [] else [Emission(KeyUp(sent), after)])
  }

  function Key(m: Mapping, held: seq<Held>, code: Code, down: bool): (seq<Held>, seq<Emission>) {
    if down then Down(m, held, code) else Up(m, held, code)
  }

  // ---- The translator ----------------------------------------------------

  class KeyTranslator {
    const viewer: OsFamily
    const host: OsFamily
    var held: seq<Held>

    constructor (viewer: OsFamily, host: OsFamily)
      ensures this.viewer == viewer && this.host == host && held == []
    {
      this.viewer, this.host := viewer, host;
      held := [];
    }

    /** Translate one physical key event; `out` is what is emitted, in order. `enabled` is
        the live setting as this event reads it. */
    method Translate(code: Code, down: bool, enabled: bool) returns (out: seq<Emission>)
      modifies this
      ensures (held, out) == Key(MappingOf(viewer, host, enabled), old(held), code, down)
    {
      hide Down, Up;
      if down {
        out := Press(code, enabled);
      } else {
        out := Release(code, enabled);
      }
    }

    method Press(code: Code, enabled: bool) returns (out: seq<Emission>)
      modifies this
      ensures (held, out) == Down(MappingOf(viewer, host, enabled), old(held), code)
    {
      hide Rewrite, MappingOf, Remap;
      var at := Position(code);
      if at < |held| {
        return [Emission(KeyDown(held[at].sent), held)];
      }
      var m := MappingOf(viewer, host, enabled);
      out := [];
      for i := 0 to |held|
        invariant |held| == |old(held)|
        invariant (held, out) == Rewrites(m, old(held), i, code)
      {
        var chord := RewriteAt(m, i, code);
        out := out + chord;
      }
      var sent := Remap(m, code);
      if !Holds(held, sent) {
        out := out + [Emission(KeyDown(sent), held)];
      }
      held := held + [Held(code, sent)];
    }

    method RewriteAt(m: Mapping, i: nat, code: Code) returns (out: seq<Emission>)
      requires i < |held|
      modifies this
      ensures (held, out) == Rewrite(m, old(held), i, code)
    {
      hide Chord, HoldsBut;
      out := [];
      var to := Chord(m, held[i].physical, code);
      if to.Some? && held[i].sent != to.value {
        if !HoldsBut(held, to.value, i) {
          out := [Emission(KeyDown(to.value), held)];
        }
        var before := held[i].sent;
        held := held[i := held[i].(sent := to.value)];
        if !Holds(held, before) {
          out := out + [Emission(KeyUp(before), held)];
        }
      }
    }

    method Release(code: Code, enabled: bool) returns (out: seq<Emission>)
      modifies this
      ensures (held, out) == Up(MappingOf(viewer, host, enabled), old(held), code)
    {
      hide MappingOf, Remap, Holds;
      var at := Position(code);
      var sent;
      if at < |held| {
        sent := held[at].sent;
        held := held[..at] + held[at + 1..];
      } else {
        sent := Remap(MappingOf(viewer, host, enabled), code);
      }
      out := [];
      if !Holds(held, sent) {
        out := [Emission(KeyUp(sent), held)];
      }
    }

    method Position(code: Code) returns (i: nat)
      ensures i == Find(held, code)
    {
      i := 0;
      while i < |held| && held[i].physical != code
        invariant i <= |held|
        invariant forall k :: 0 <= k < i ==> held[k].physical != code
      {
        i := i + 1;
      }
      FindIs(held, code, i);
    }
  }

  lemma {:induction false} FindIs(held: seq<Held>, code: Code, i: nat)
    requires i <= |held| && (i < |held| ==> held[i].physical == code)
    requires forall k :: 0 <= k < i ==> held[k].physical != code
    ensures Find(held, code) == i
  {
    if i > 0 {
      assert forall k :: 0 <= k < i - 1 ==> held[1..][k] == held[k + 1];
      FindIs(held[1..], code, i - 1);
    }
  }
}
