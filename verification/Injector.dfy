/** The host's injector (native/crates/input/src/lib.rs): what it holds down, and what the OS does. */
module Injector {
  import opened Common
  import opened Keys
  import opened KeyRuns

  /** A Windows Set-1 scancode. */
  datatype Set1 = Set1(code: nat, extended: bool)

  /** One event handed to the OS. */
  datatype OsEvent = Scan(hit: Set1, down: bool) | ButtonEvent(button: nat, down: bool)

  /** The generated keymap: DOM code to key, key to scancode. */
  datatype Keymap = Keymap(fromDom: Code -> Option<nat>, toSet1: nat -> Option<Set1>)

  /** The key a code injects, when the keymap and the OS have one for it. */
  function KeyOf(k: Keymap, code: Code): (key: Option<nat>)
    ensures key.Some? ==> (k.toSet1)(key.value).Some?
  {
    match (k.fromDom)(code)
    case None => None
    case Some(key) => if (k.toSet1)(key).Some? then Some(key) else None
  }

  class Injector {
    const keymap: Keymap
    var downKeys: set<nat>
    var downButtons: set<nat>

    constructor (keymap: Keymap)
      ensures this.keymap == keymap && downKeys == {} && downButtons == {}
    {
      this.keymap := keymap;
      downKeys, downButtons := {}, {};
    }

    /** `key`: unknown and unsupported codes do nothing. */
    method Key(code: Code, isDown: bool) returns (sent: seq<OsEvent>)
      modifies this
      ensures downButtons == old(downButtons)
      ensures match KeyOf(keymap, code)
              case None => downKeys == old(downKeys) && sent == []
              case Some(key) =>
                && downKeys == (if isDown then old(downKeys) + {key} else old(downKeys) - {key})
                && sent == [Scan((keymap.toSet1)(key).value, isDown)]
    {
      sent := [];
      var key := (keymap.fromDom)(code);
      if key.None? {
        return;
      }
      var hit := (keymap.toSet1)(key.value);
      if hit.None? {
        return;
      }
      downKeys := if isDown then downKeys + {key.value} else downKeys - {key.value};
      sent := [Scan(hit.value, isDown)];
    }

    method MouseButton(button: nat, isDown: bool) returns (sent: seq<OsEvent>)
      modifies this
      ensures downKeys == old(downKeys)
      ensures downButtons == if isDown then old(downButtons) + {button} else old(downButtons) - {button}
      ensures sent == [ButtonEvent(button, isDown)]
    {
      downButtons := if isDown then downButtons + {button} else downButtons - {button};
      sent := [ButtonEvent(button, isDown)];
    }

    /** `release_all`: drain both sets in any order; buttons other than 0 to 2 have no up event. */
    method ReleaseAll() returns (sent: seq<OsEvent>)
      modifies this
      ensures downKeys == {} && downButtons == {}
      ensures forall e :: e in sent <==>
                || (exists key :: key in old(downKeys) && (keymap.toSet1)(key).Some?
                                  && e == Scan((keymap.toSet1)(key).value, false))
                || (exists b :: b in old(downButtons) && b <= 2 && e == ButtonEvent(b, false))
      ensures |sent| <= |old(downKeys)| + |old(downButtons)|
    {
      sent := [];
      ghost var keys, buttons := downKeys, downButtons;
      while downKeys != {}
        invariant downKeys <= keys && downButtons == buttons && |sent| + |downKeys| <= |keys|
        invariant forall e :: e in sent <==>
                    exists key :: key in keys - downKeys && (keymap.toSet1)(key).Some?
                                  && e == Scan((keymap.toSet1)(key).value, false)
        decreases |downKeys|
      {
        var key :| key in downKeys;
        downKeys := downKeys - {key};
        if (keymap.toSet1)(key).Some? {
          sent := sent + [Scan((keymap.toSet1)(key).value, false)];
        }
      }
      while downButtons != {}
        invariant downKeys == {} && downButtons <= buttons && |sent| + |downButtons| <= |keys| + |buttons|
        invariant forall e :: e in sent <==>
                    || (exists key :: key in keys && (keymap.toSet1)(key).Some?
                                      && e == Scan((keymap.toSet1)(key).value, false))
                    || (exists b :: b in buttons - downButtons && b <= 2 && e == ButtonEvent(b, false))
        decreases |downButtons|
      {
        var b :| b in downButtons;
        downButtons := downButtons - {b};
        if b <= 2 {
          sent := sent + [ButtonEvent(b, false)];
        }
      }
    }
  }

  // ---- What the OS sees --------------------------------------------------

  /** The scancodes down after these events. */
  function OsKeys(down: set<Set1>, events: seq<OsEvent>): set<Set1> {
    if events == [] then down
    else
      var before := OsKeys(down, events[..|events| - 1]);
      match events[|events| - 1]
      case Scan(hit, true) => before + {hit}
      case Scan(hit, false) => before - {hit}
      case ButtonEvent(_, _) => before
  }

  /** The buttons down after these events. */
  function OsButtons(down: set<nat>, events: seq<OsEvent>): set<nat> {
    if events == [] then down
    else
      var before := OsButtons(down, events[..|events| - 1]);
      match events[|events| - 1]
      case ButtonEvent(b, true) => before + {b}
      case ButtonEvent(b, false) => before - {b}
      case Scan(_, _) => before
  }

  /** Up events alone leave down exactly what has none. */
  lemma {:induction false} UpsLeave(keys: set<Set1>, buttons: set<nat>, events: seq<OsEvent>)
    requires forall e :: e in events ==> !e.down
    ensures forall hit :: hit in OsKeys(keys, events) <==> hit in keys && Scan(hit, false) !in events
    ensures forall b :: b in OsButtons(buttons, events) <==> b in buttons && ButtonEvent(b, false) !in events
  {
    if events != [] {
      var front := events[..|events| - 1];
      UpsLeave(keys, buttons, front);
      assert events == front + [events[|events| - 1]];
    }
  }

  /** What `release_all` sends for these keys and buttons, in some order. */
  ghost predicate Releases(k: Keymap, keys: set<nat>, buttons: set<nat>, sent: seq<OsEvent>) {
    forall e :: e in sent <==>
      || (exists key :: key in keys && (k.toSet1)(key).Some? && e == Scan((k.toSet1)(key).value, false))
      || (exists b :: b in buttons && b <= 2 && e == ButtonEvent(b, false))
  }

  /** After it the OS holds none of the keys the injector had down, and none of the three buttons. */
  lemma NothingStaysDown(k: Keymap, keys: set<nat>, buttons: set<nat>, down: set<Set1>, sent: seq<OsEvent>)
    requires Releases(k, keys, buttons, sent)
    requires forall hit :: hit in down ==> exists key :: key in keys && (k.toSet1)(key) == Some(hit)
    ensures OsKeys(down, sent) == {} && forall b :: b in OsButtons(buttons, sent) ==> b > 2
  {
    UpsLeave(down, buttons, sent);
    forall hit | hit in down
      ensures Scan(hit, false) in sent
    {
      var key :| key in keys && (k.toSet1)(key) == Some(hit);
    }
    forall b | b in buttons && b <= 2
      ensures ButtonEvent(b, false) in sent
    {
    }
  }

  // ---- Runs --------------------------------------------------------------

  /** The injector's key set after the messages of a translator run. */
  function KeysDown(k: Keymap, out: seq<Emission>): set<nat> {
    if out == [] then {}
    else
      var before := KeysDown(k, out[..|out| - 1]);
      var msg := out[|out| - 1].msg;
      match KeyOf(k, msg.code)
      case None => before
      case Some(key) => if msg.KeyDown? then before + {key} else before - {key}
  }

  /** The scancodes the OS sees down after the same messages. */
  function ScansDown(k: Keymap, out: seq<Emission>): set<Set1> {
    if out == [] then {}
    else
      var before := ScansDown(k, out[..|out| - 1]);
      var msg := out[|out| - 1].msg;
      match KeyOf(k, msg.code)
      case None => before
      case Some(key) =>
        var hit := (k.toSet1)(key).value;
        if msg.KeyDown? then before + {hit} else before - {hit}
  }

  /** The keymap gives every code its own key and every key its own scancode. */
  ghost predicate Injective(k: Keymap) {
    && (forall a, b :: KeyOf(k, a).Some? && KeyOf(k, a) == KeyOf(k, b) ==> a == b)
    && (forall x, y :: (k.toSet1)(x).Some? && (k.toSet1)(x) == (k.toSet1)(y) ==> x == y)
  }

  /** The injector holds exactly the keys of the codes that are down, and the OS their scancodes. */
  lemma {:induction false} KeysAreCodes(k: Keymap, out: seq<Emission>)
    requires Injective(k)
    ensures forall key :: key in KeysDown(k, out) <==> exists c :: c in Host({}, out) && KeyOf(k, c) == Some(key)
    ensures forall hit :: hit in ScansDown(k, out) <==>
              exists c :: c in Host({}, out) && KeyOf(k, c).Some? && (k.toSet1)(KeyOf(k, c).value) == Some(hit)
  {
    hide KeyOf;
    if out != [] {
      var front := out[..|out| - 1];
      var msg := out[|out| - 1].msg;
      KeysAreCodes(k, front);
      assert Host({}, out) == Apply(Host({}, front), msg);
      KeyStep(k, Host({}, front), KeysDown(k, front), msg);
      ScanStep(k, Host({}, front), ScansDown(k, front), msg);
    }
  }

  lemma KeyStep(k: Keymap, codes: set<Code>, keys: set<nat>, msg: Msg)
    requires Injective(k)
    requires forall key :: key in keys <==> exists c :: c in codes && KeyOf(k, c) == Some(key)
    ensures var own := KeyOf(k, msg.code);
            var after := if own.None? then keys else if msg.KeyDown? then keys + {own.value} else keys - {own.value};
            forall key :: key in after <==> exists c :: c in Apply(codes, msg) && KeyOf(k, c) == Some(key)
  {
    hide KeyOf;
    var own := KeyOf(k, msg.code);
    var after := if own.None? then keys else if msg.KeyDown? then keys + {own.value} else keys - {own.value};
    forall key
      ensures key in after <==> exists c :: c in Apply(codes, msg) && KeyOf(k, c) == Some(key)
    {
      if key in after {
        var c :| (c in codes || (c == msg.code && msg.KeyDown?)) && KeyOf(k, c) == Some(key);
        assert c in Apply(codes, msg);
      }
    }
  }

  lemma ScanStep(k: Keymap, codes: set<Code>, hits: set<Set1>, msg: Msg)
    requires Injective(k)
    requires forall hit :: hit in hits <==>
               exists c :: c in codes && KeyOf(k, c).Some? && (k.toSet1)(KeyOf(k, c).value) == Some(hit)
    ensures var own := KeyOf(k, msg.code);
            var hit := if own.Some? then (k.toSet1)(own.value) else None;
            var after := if hit.None? then hits else if msg.KeyDown? then hits + {hit.value} else hits - {hit.value};
            forall hit :: hit in after <==>
              exists c :: c in Apply(codes, msg) && KeyOf(k, c).Some? && (k.toSet1)(KeyOf(k, c).value) == Some(hit)
  {
    hide KeyOf;
    var own := KeyOf(k, msg.code);
    var mine := if own.Some? then (k.toSet1)(own.value) else None;
    var after := if mine.None? then hits else if msg.KeyDown? then hits + {mine.value} else hits - {mine.value};
    forall hit
      ensures hit in after <==>
              exists c :: c in Apply(codes, msg) && KeyOf(k, c).Some? && (k.toSet1)(KeyOf(k, c).value) == Some(hit)
    {
      if hit in after {
        var c :| (c in codes || (c == msg.code && msg.KeyDown?)) && KeyOf(k, c).Some? &&
                 (k.toSet1)(KeyOf(k, c).value) == Some(hit);
        assert c in Apply(codes, msg);
      }
    }
  }

  /** End to end: after any run of key events on the viewer, the host's OS has down exactly
      the scancodes of the codes sent for the keys still held, and none once all are up. */
  lemma ViewerToOs(k: Keymap, viewer: OsFamily, host: OsFamily, events: seq<Event>)
    requires Injective(k)
    ensures var (held, out) := Run(viewer, host, events);
            && (forall hit :: hit in ScansDown(k, out) <==>
                  exists c :: Holds(held, c) && KeyOf(k, c).Some? && (k.toSet1)(KeyOf(k, c).value) == Some(hit))
            && (Pressed(events) == {} ==> ScansDown(k, out) == {} && KeysDown(k, out) == {})
  {
    hide Run, Host, KeyOf, ScansDown, KeysDown, HoldsBut, Pressed;
    RunKeeps(viewer, host, events);
    KeysAreCodes(k, Run(viewer, host, events).1);
    if Pressed(events) == {} {
      AllUp(viewer, host, events);
    }
  }
}
