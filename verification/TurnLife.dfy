/** When refreshes leave, against what the server granted (native/crates/engine/src/turn.rs). */
module TurnLife {
  import opened Common
  import opened Stun
  import opened Turn
  import opened TurnRuns

  /** When the client last asked for a refresh. */
  function LastAsked(log: seq<Sent>): Option<int> {
    if log == [] then None
    else if log[|log| - 1].out.Refresh? then Some(log[|log| - 1].at)
    else LastAsked(log[..|log| - 1])
  }

  /**
   * When the allocation ends at a server that grants what it is asked for: first `granted` seconds,
   * then the 600 of a refresh.
   */
  function Deadline(start: int, granted: nat, log: seq<Sent>): int {
    match LastAsked(log)
    case None => start + granted * 1_000_000_000
    case Some(at) => at + 600 * 1_000_000_000
  }

  /** The last tick, or the start. */
  function LastTick(start: int, events: seq<Timed>): int {
    if events == [] then start
    else if events[|events| - 1].event.Tick? then events[|events| - 1].at
    else LastTick(start, events[..|events| - 1])
  }

  /** Nothing happens more than `gap` after the tick before it. */
  ghost predicate Ticking(start: int, events: seq<Timed>, gap: nat) {
    forall n :: 0 <= n < |events| ==> events[n].at - LastTick(start, events[..n]) <= gap
  }

  /** At every event the allocation is still alive. */
  ghost predicate Alive(env: Env, a: Alloc, start: int, granted: nat, events: seq<Timed>) {
    forall n :: 0 <= n < |events| ==> events[n].at < Deadline(start, granted, Run(env, a, events[..n]).1)
  }

  /** Half of the lifetime the client goes by, in nanoseconds; it never goes by less than a minute. */
  function Half(granted: nat): nat {
    (if granted < 60 then 60 else granted) * 500_000_000
  }

  /** The last time the client is known to have been granted something, as the server sees it. */
  function Since(start: int, log: seq<Sent>): int {
    match LastAsked(log) case None => start case Some(at) => at
  }

  lemma {:induction false} AskedAppend(log: seq<Sent>, more: seq<Sent>)
    ensures LastAsked(log + more) == if LastAsked(more).Some? then LastAsked(more) else LastAsked(log)
  {
    if more == [] {
      assert log + more == log;
    } else {
      assert (log + more)[..|log + more| - 1] == log + more[..|more| - 1];
      AskedAppend(log, more[..|more| - 1]);
    }
  }

  /** One event: what it asks for, and how the client's clock stands to the server's. */
  lemma StepLife(env: Env, a: Alloc, e: Timed)
    ensures var (b, outs) := Step(env, a, e);
            && b.lifetime == a.lifetime
            && (LastAsked(Stamp(e.at, outs)).Some? <==> e.event.Tick? && Due(a, e.at))
            && (LastAsked(Stamp(e.at, outs)).Some? ==>
                  LastAsked(Stamp(e.at, outs)) == Some(e.at) && b.lastRefresh == e.at)
            && (LastAsked(Stamp(e.at, outs)).None? ==>
                  b.lastRefresh == a.lastRefresh || b.lastRefresh == e.at - a.lifetime)
  {
    hide Parse, StaleNonce, StringIn, First, LongTermKey, Unwrapped, LastAsked;
    var (b, outs) := Step(env, a, e);
    if e.event.Send? {
      var asked := Ensured(a, e.event.peer, e.at, e.event.tids.0).1;
      OneAsked(e.at, SendIndication(e.event.tids.1, e.event.peer, e.event.data));
      NoneAsked(e.at);
      if asked == [] {
        assert outs == [SendIndication(e.event.tids.1, e.event.peer, e.event.data)];
      } else {
        OneAsked(e.at, asked[0]);
        assert Stamp(e.at, outs) == Stamp(e.at, [asked[0]]) + Stamp(e.at, [outs[1]]);
        AskedAppend(Stamp(e.at, [asked[0]]), Stamp(e.at, [outs[1]]));
      }
    } else {
      NoneAsked(e.at);
      if outs != [] {
        OneAsked(e.at, outs[0]);
      }
    }
  }

  lemma NoneAsked(at: int)
    ensures LastAsked(Stamp(at, [])) == None
  {
  }

  lemma OneAsked(at: int, out: Out)
    ensures LastAsked(Stamp(at, [out])) == if out.Refresh? then Some(at) else None
  {
    assert Stamp(at, [out])[..0] == [];
  }

  /** After every event: the client's clock is not behind the server's, and a tick came in time. */
  lemma {:induction false} RunLife(env: Env, a: Alloc, start: int, granted: nat, events: seq<Timed>)
    requires Clocked(start, events)
    requires a.lifetime == 2 * Half(granted) && a.lastRefresh == start
    ensures var (b, log) := Run(env, a, events);
            && b.lifetime == a.lifetime
            && (b.lastRefresh <= Since(start, log)
                || (events != [] && b.lastRefresh + b.lifetime <= events[|events| - 1].at))
            && LastTick(start, events) < Since(start, log) + Half(granted)
            && start <= Since(start, log) <= LastTick(start, events)
            && (events != [] ==> LastTick(start, events) <= events[|events| - 1].at)
  {
    if events != [] {
      hide Step, LastAsked;
      var front, e := events[..|events| - 1], events[|events| - 1];
      RunLife(env, a, start, granted, front);
      var (b, log) := Run(env, a, front);
      StepLife(env, b, e);
      AskedAppend(log, Stamp(e.at, Step(env, b, e).1));
    } else {
      assert LastAsked([]) == None;
    }
  }

  /** What a caller can check: half the lifetime and the longest gap between ticks fit what is granted, twice. */
  predicate InTime(granted: nat, gap: nat) {
    Half(granted) + gap <= granted * 1_000_000_000 && Half(granted) + gap <= 600 * 1_000_000_000
  }

  /** Then every refresh, and everything else, leaves before what was granted has run out. */
  lemma RefreshesInTime(env: Env, a: Alloc, start: int, granted: nat, events: seq<Timed>, gap: nat)
    requires a.lifetime == 2 * Half(granted) && a.lastRefresh == start
    requires Clocked(start, events) && Ticking(start, events, gap) && InTime(granted, gap)
    ensures Alive(env, a, start, granted, events)
  {
    hide Run, LastTick, LastAsked;
    forall n | 0 <= n < |events|
      ensures events[n].at < Deadline(start, granted, Run(env, a, events[..n]).1)
    {
      RunLife(env, a, start, granted, events[..n]);
    }
  }

  // ---- Otherwise some run comes too late ---------------------------------

  function At(t: int): Timed {
    Timed(t, Tick(seq(12, _ => 0)))
  }

  /** Ticks after `from`, `gap` apart, the last one after `span`. */
  function Ticks(from: int, span: nat, gap: nat): seq<Timed>
    requires gap > 0
    decreases span
  {
    if span == 0 then []
    else if span <= gap then [At(from + span)]
    else Ticks(from, span - gap, gap) + [At(from + span)]
  }

  /** A run as the theorem allows it whose last event is its last tick, at `at`. */
  ghost predicate Paced(start: int, events: seq<Timed>, gap: nat, at: int) {
    && Clocked(start, events) && Ticking(start, events, gap) && LastTick(start, events) == at && start <= at
    && (events != [] ==> events[|events| - 1].at == at)
  }

  lemma PacedMore(start: int, events: seq<Timed>, gap: nat, at: int, to: int)
    requires Paced(start, events, gap, at) && at <= to <= at + gap
    ensures Paced(start, events + [At(to)], gap, to)
  {
    hide LastTick, At;
    var more := events + [At(to)];
    TickLast(start, events, to);
    forall n | 0 <= n < |more|
      ensures more[n].at - LastTick(start, more[..n]) <= gap
    {
      if n < |events| {
        assert more[..n] == events[..n];
        assert more[n] == events[n];
      } else {
        assert more[..n] == events;
      }
    }
  }

  lemma TickLast(start: int, events: seq<Timed>, to: int)
    ensures LastTick(start, events + [At(to)]) == to && At(to).at == to
  {
  }

  lemma RunMore(env: Env, a: Alloc, events: seq<Timed>, e: Timed)
    ensures var (b, log) := Run(env, a, events);
            var (c, outs) := Step(env, b, e);
            Run(env, a, events + [e]) == (c, log + Stamp(e.at, outs))
  {
    assert (events + [e])[..|events|] == events;
  }

  /** As long as no refresh is due, ticks do nothing. */
  lemma {:induction false} QuietTicks(env: Env, a: Alloc, start: int, events: seq<Timed>, gap: nat, at: int, span: nat)
    requires Paced(start, events, gap, at) && gap > 0
    requires !Due(Run(env, a, events).0, at + span)
    ensures Paced(start, events + Ticks(at, span, gap), gap, at + span)
    ensures Run(env, a, events + Ticks(at, span, gap)) == Run(env, a, events)
    decreases span
  {
    hide Paced, Run;
    var to := at + span;
    if span == 0 {
      assert events + Ticks(at, span, gap) == events;
    } else if span <= gap {
      PacedMore(start, events, gap, at, to);
      RunMore(env, a, events, At(to));
      assert Run(env, a, events).1 + Stamp(to, []) == Run(env, a, events).1;
    } else {
      var front := events + Ticks(at, span - gap, gap);
      QuietTicks(env, a, start, events, gap, at, span - gap);
      PacedMore(start, front, gap, to - gap, to);
      RunMore(env, a, front, At(to));
      assert Run(env, a, front).1 + Stamp(to, []) == Run(env, a, front).1;
      assert events + Ticks(at, span, gap) == front + [At(to)];
    }
  }

  /** The last moment before the first refresh is due, and that refresh and the last moment before the next. */
  function Lazy(start: int, h: nat, gap: nat, again: bool): seq<Timed>
    requires gap > 0 && h > 0
  {
    if !again then Ticks(start, h - 1, gap)
    else Ticks(start, h - 1, gap) + [At(start + h)] + Ticks(start + h, h - 1, gap)
  }

  lemma LazyOnce(env: Env, a: Alloc, start: int, h: nat, gap: nat)
    requires a.lifetime == 2 * h && a.lastRefresh == start && gap > 0 && h > 0
    ensures Paced(start, Lazy(start, h, gap, false), gap, start + h - 1)
    ensures Run(env, a, Lazy(start, h, gap, false)) == (a, [])
  {
    hide Run, Paced, Ticks;
    var none: seq<Timed> := [];
    RunNone(env, a, start, gap);
    QuietTicks(env, a, start, none, gap, start, h - 1);
    assert none + Ticks(start, h - 1, gap) == Ticks(start, h - 1, gap);
  }

  lemma LazyTwice(env: Env, a: Alloc, start: int, h: nat, gap: nat)
    requires a.lifetime == 2 * h && a.lastRefresh == start && gap > 0 && h > 0
    ensures Paced(start, Lazy(start, h, gap, true), gap, start + 2 * h - 1)
    ensures LastAsked(Run(env, a, Lazy(start, h, gap, true)).1) == Some(start + h)
  {
    hide Run, Paced, Ticks, LastAsked;
    var first := Lazy(start, h, gap, false);
    LazyOnce(env, a, start, h, gap);
    PacedMore(start, first, gap, start + h - 1, start + h);
    RunMore(env, a, first, At(start + h));
    StepLife(env, a, At(start + h));
    var outs := Step(env, a, At(start + h)).1;
    assert [] + Stamp(start + h, outs) == Stamp(start + h, outs);
    QuietTicks(env, a, start, first + [At(start + h)], gap, start + h, h - 1);
  }

  /** A run whose last tick comes too late: the refresh just missed, then the longest gap. */
  function Late(start: int, granted: nat, gap: nat): seq<Timed>
    requires gap > 0
  {
    var h := Half(granted);
    if h + gap > granted * 1_000_000_000 then Lazy(start, h, gap, false) + [At(start + h - 1 + gap)]
    else Lazy(start, h, gap, true) + [At(start + 2 * h - 1 + gap)]
  }

  lemma LateIsLate(env: Env, a: Alloc, start: int, granted: nat, gap: nat)
    requires a.lifetime == 2 * Half(granted) && a.lastRefresh == start && gap > 0 && !InTime(granted, gap)
    ensures var events := Late(start, granted, gap);
            Clocked(start, events) && Ticking(start, events, gap) && !Alive(env, a, start, granted, events)
  {
    hide Run, Alive, Lazy, LastAsked, Clocked, Ticking, LastTick;
    var h := Half(granted);
    RunNone(env, a, start, gap);
    if h + gap > granted * 1_000_000_000 {
      LazyOnce(env, a, start, h, gap);
      PacedMore(start, Lazy(start, h, gap, false), gap, start + h - 1, start + h - 1 + gap);
      TooLate(env, a, start, granted, Lazy(start, h, gap, false), At(start + h - 1 + gap));
    } else {
      LazyTwice(env, a, start, h, gap);
      PacedMore(start, Lazy(start, h, gap, true), gap, start + 2 * h - 1, start + 2 * h - 1 + gap);
      TooLate(env, a, start, granted, Lazy(start, h, gap, true), At(start + 2 * h - 1 + gap));
    }
  }

  lemma RunNone(env: Env, a: Alloc, start: int, gap: nat)
    ensures Run(env, a, []) == (a, []) && Paced(start, [], gap, start) && LastAsked([]) == None
  {
  }

  lemma TooLate(env: Env, a: Alloc, start: int, granted: nat, events: seq<Timed>, e: Timed)
    requires e.at >= Deadline(start, granted, Run(env, a, events).1)
    ensures !Alive(env, a, start, granted, events + [e])
  {
    var more := events + [e];
    assert more[..|events|] == events && more[|events|] == e;
  }

  /**
   * The allocation stays alive in every run whose ticks are at most `gap` apart if and only if half
   * the lifetime plus the gap fits both the first grant and the 600 seconds of a refresh.
   */
  lemma AliveExact(env: Env, username: seq<byte>, realm: seq<byte>, nonce: seq<byte>, password: seq<byte>,
                   granted: nat, start: int, gap: nat)
    requires gap > 0
    ensures var a := Start(env, username, realm, nonce, password, granted, start);
            InTime(granted, gap) <==>
            forall events :: Clocked(start, events) && Ticking(start, events, gap) ==>
              Alive(env, a, start, granted, events)
  {
    hide Clocked, Ticking, Alive, Late;
    var a := Start(env, username, realm, nonce, password, granted, start);
    if InTime(granted, gap) {
      forall events | Clocked(start, events) && Ticking(start, events, gap)
        ensures Alive(env, a, start, granted, events)
      {
        RefreshesInTime(env, a, start, granted, events, gap);
      }
    } else {
      LateIsLate(env, a, start, granted, gap);
    }
  }
}
