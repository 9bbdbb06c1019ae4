/**
 The stopwatch's state and its four transitions: the start/pause toggle, the
 interval tick, lap recording and reset. Each event handler is one atomic step
 over the current state, as the single-threaded UI event loop runs it, and the
 host's timers are part of the state so that leaked or duplicate intervals are
 visible to the proofs.
 */
module Stopwatch {
  import opened Optional
  import opened Timers

  /** `seconds`, `isRunning`, `intervalId` and `laps`, plus the host's timers. */
  datatype State = State(
    seconds: nat,
    isRunning: bool,
    intervalId: Option<IntervalId>,
    laps: seq<nat>,
    timers: Registry)

  /** The widget as first rendered: 0 seconds, paused, no interval, no laps. */
  function Init(): (w: State)
    ensures w.seconds == 0 && !w.isRunning && w.intervalId == None && w.laps == []
    ensures w.timers.active == {}
  {
    State(0, false, None, [], Empty())
  }

  /** The stopwatch owns exactly the live interval it remembers, and it is
      running exactly when it remembers one: never a leaked or second interval. */
  predicate Inv(w: State) {
    && w.timers.Valid()
    && (w.isRunning <==> w.intervalId.Some?)
    && w.timers.active == (if w.intervalId.Some? then {w.intervalId.value} else {})
  }

  /** `toggleTimer`: pausing clears the remembered interval and forgets it;
      starting registers one new interval and remembers its id. */
  function ToggleTimer(w: State): (r: State)
    ensures r.isRunning == !w.isRunning
    ensures r.seconds == w.seconds && r.laps == w.laps
    ensures r.timers.nextId >= w.timers.nextId
    ensures w.isRunning ==> r.intervalId == None
    ensures w.isRunning && w.intervalId.Some? ==> r.timers.active == w.timers.active - {w.intervalId.value}
    ensures !w.isRunning ==> r.intervalId.Some? && r.timers.active == w.timers.active + {r.intervalId.value}
    ensures !w.isRunning && w.timers.Valid() ==> r.intervalId.value !in w.timers.active
    ensures !w.isRunning ==> w.timers.nextId <= r.intervalId.value < r.timers.nextId
  {
    if w.isRunning then
      w.(timers := ClearInterval(w.timers, w.intervalId), intervalId := None, isRunning := false)
    else
      var (timers, id) := SetInterval(w.timers);
      w.(timers := timers, intervalId := Some(id), isRunning := true)
  }

  /** One firing of interval `id`'s callback `setSeconds(prev => prev + 1)`.
      An interval that is not live never fires, so it changes nothing. */
  function Tick(w: State, id: IntervalId): (r: State)
    ensures r.seconds == w.seconds + 1 <==> id in w.timers.active
    ensures id !in w.timers.active ==> r == w
    ensures r.(seconds := w.seconds) == w
  {
    if id in w.timers.active then w.(seconds := w.seconds + 1) else w
  }

  /** `recordLap`: appends the current elapsed seconds, whether or not running. */
  function RecordLap(w: State): (r: State)
    ensures |r.laps| == |w.laps| + 1
    ensures r.laps[..|w.laps|] == w.laps && r.laps[|w.laps|] == w.seconds
    ensures r.seconds == w.seconds && r.isRunning == w.isRunning
    ensures r.intervalId == w.intervalId && r.timers == w.timers
  {
    w.(laps := w.laps + [w.seconds])
  }

  /** `resetTimer`: clears the remembered interval (a no-op for `null`), zeroes
      the counter, pauses and drops every lap. */
  function ResetTimer(w: State): (r: State)
    ensures r.seconds == 0 && !r.isRunning && r.intervalId == None && r.laps == []
    ensures r.timers.nextId == w.timers.nextId
    ensures w.intervalId.Some? ==> r.timers.active == w.timers.active - {w.intervalId.value}
    ensures Inv(w) ==> r.timers.active == {} && Inv(r)
  {
    State(0, false, None, [], ClearInterval(w.timers, w.intervalId))
  }

  /** The events the widget reacts to: three buttons and interval firings. */
  datatype Event = ToggleClicked | LapClicked | ResetClicked | IntervalFired(id: IntervalId)

  /** The handler an event runs. No handler ever hands an interval id out twice:
      the registry's next id only grows. */
  function Step(w: State, e: Event): (r: State)
    ensures r.timers.nextId >= w.timers.nextId
  {
    match e
    case ToggleClicked => ToggleTimer(w)
    case LapClicked => RecordLap(w)
    case ResetClicked => ResetTimer(w)
    case IntervalFired(id) => Tick(w, id)
  }

  /** The state after handling `events` in order, one at a time. */
  function Run(w: State, events: seq<Event>): (r: State)
    ensures r.timers.nextId >= w.timers.nextId
    decreases |events|
  {
    if |events| == 0 then w else Step(Run(w, events[..|events| - 1]), events[|events| - 1])
  }

  /** `n` consecutive firings of interval `id`. */
  function Fires(id: IntervalId, n: nat): (es: seq<Event>)
    ensures |es| == n && forall k :: 0 <= k < n ==> es[k] == IntervalFired(id)
  {
    seq(n, _ => IntervalFired(id))
  }

  /** `n` consecutive clicks on the start/pause button. */
  function Toggles(n: nat): (es: seq<Event>)
    ensures |es| == n && forall k :: 0 <= k < n ==> es[k] == ToggleClicked
  {
    seq(n, _ => ToggleClicked)
  }

  /** Handling events one after another composes. */
  lemma {:induction false} RunAppend(w: State, a: seq<Event>, b: seq<Event>)
    ensures Run(w, a + b) == Run(Run(w, a), b)
    decreases |b|
  {
    if |b| == 0 {
      assert a + b == a;
    } else {
      assert (a + b)[..|a + b| - 1] == a + b[..|b| - 1];
      RunAppend(w, a, b[..|b| - 1]);
    }
  }

  /** Starting from a consistent state, starting the stopwatch leaves exactly one
      live interval, the remembered one; pausing leaves none. */
  lemma ToggleKeepsOneInterval(w: State)
    requires Inv(w)
    ensures Inv(ToggleTimer(w))
    ensures !w.isRunning ==> ToggleTimer(w).timers.active == {ToggleTimer(w).intervalId.value}
    ensures w.isRunning ==> ToggleTimer(w).timers.active == {}
  {
  }

  /** Every handler keeps the interval invariant. */
  lemma StepPreservesInv(w: State, e: Event)
    requires Inv(w)
    ensures Inv(Step(w, e))
  {
  }

  lemma {:induction false} RunPreservesInv(w: State, events: seq<Event>)
    requires Inv(w)
    ensures Inv(Run(w, events))
    decreases |events|
  {
    if |events| > 0 {
      RunPreservesInv(w, events[..|events| - 1]);
      StepPreservesInv(Run(w, events[..|events| - 1]), events[|events| - 1]);
    }
  }

  /** Every state reachable from the first render keeps the invariant, so at
      most one interval is ever live. */
  lemma ReachableInv(events: seq<Event>)
    ensures Inv(Run(Init(), events))
    ensures |Run(Init(), events).timers.active| <= 1
    ensures Run(Init(), events).isRunning <==> Run(Init(), events).timers.active != {}
  {
    RunPreservesInv(Init(), events);
  }

  /** Under the invariant, a firing advances the counter by one exactly when it
      is the running stopwatch's own interval, and touches nothing else. */
  lemma TickUnderInv(w: State, id: IntervalId)
    requires Inv(w)
    ensures Tick(w, id).seconds == w.seconds + 1 <==> w.isRunning && w.intervalId == Some(id)
    ensures Tick(w, id).seconds == w.seconds || Tick(w, id).seconds == w.seconds + 1
    ensures Tick(w, id).(seconds := w.seconds) == w
  {
  }

  /** While running, `n` firings of the stopwatch's interval add exactly `n`. */
  lemma {:induction false} TicksWhileRunning(w: State, n: nat)
    requires Inv(w) && w.isRunning
    ensures Run(w, Fires(w.intervalId.value, n)) == w.(seconds := w.seconds + n)
  {
    if n > 0 {
      var id := w.intervalId.value;
      assert Fires(id, n)[..n - 1] == Fires(id, n - 1);
      TicksWhileRunning(w, n - 1);
    }
  }

  /** While paused no interval is live, so no firing of any id is counted. */
  lemma {:induction false} TicksWhilePaused(w: State, events: seq<Event>)
    requires Inv(w) && !w.isRunning
    requires forall k :: 0 <= k < |events| ==> events[k].IntervalFired?
    ensures Run(w, events) == w
    decreases |events|
  {
    if |events| > 0 {
      TicksWhilePaused(w, events[..|events| - 1]);
    }
  }

  /** From the first render, `n` clicks on start/pause leave it running exactly
      when `n` is odd, with the interval invariant intact. */
  lemma {:induction false} ToggleAlternates(n: nat)
    ensures Run(Init(), Toggles(n)).isRunning <==> n % 2 == 1
    ensures Inv(Run(Init(), Toggles(n)))
  {
    RunPreservesInv(Init(), Toggles(n));
    if n > 0 {
      assert Toggles(n)[..n - 1] == Toggles(n - 1);
      ToggleAlternates(n - 1);
    }
  }

  /** A second reset changes nothing more. */
  lemma ResetIdempotent(w: State)
    ensures ResetTimer(ResetTimer(w)) == ResetTimer(w)
  {
  }

  /** The number of lap clicks after the last reset click. */
  function LapsSinceReset(events: seq<Event>): nat
    decreases |events|
  {
    if |events| == 0 then 0
    else
      match events[|events| - 1]
      case ResetClicked => 0
      case LapClicked => LapsSinceReset(events[..|events| - 1]) + 1
      case _ => LapsSinceReset(events[..|events| - 1])
  }

  /** The lap list holds one entry per lap click since the last reset. */
  lemma {:induction false} LapCount(events: seq<Event>)
    ensures |Run(Init(), events).laps| == LapsSinceReset(events)
    decreases |events|
  {
    if |events| > 0 {
      LapCount(events[..|events| - 1]);
    }
  }

  /** Laps are snapshots of a counter that only grows between resets: they are
      in non-decreasing order and none exceeds the current count. */
  predicate LapsOrdered(w: State) {
    && (forall i, j :: 0 <= i < j < |w.laps| ==> w.laps[i] <= w.laps[j])
    && (forall i :: 0 <= i < |w.laps| ==> w.laps[i] <= w.seconds)
  }

  lemma {:induction false} ReachableLapsOrdered(events: seq<Event>)
    ensures LapsOrdered(Run(Init(), events))
    decreases |events|
  {
    if |events| > 0 {
      ReachableLapsOrdered(events[..|events| - 1]);
    }
  }

  /** Start, five ticks, lap, three ticks, pause, lap, reset. */
  lemma EndToEndScenario()
    ensures var started := Run(Init(), [ToggleClicked]);
      started.isRunning && started.intervalId == Some(1)
    ensures Run(Init(), [ToggleClicked] + Fires(1, 5) + [LapClicked]).laps == [5]
    ensures var paused := Run(Init(), [ToggleClicked] + Fires(1, 5) + [LapClicked] + Fires(1, 3) + [ToggleClicked]);
      paused.seconds == 8 && !paused.isRunning
    ensures Run(Init(), [ToggleClicked] + Fires(1, 5) + [LapClicked] + Fires(1, 3) + [ToggleClicked, LapClicked]).laps == [5, 8]
    ensures var done := Run(Init(), [ToggleClicked] + Fires(1, 5) + [LapClicked] + Fires(1, 3) + [ToggleClicked, LapClicked, ResetClicked]);
      done.seconds == 0 && done.laps == [] && !done.isRunning && done.timers.active == {}
  {
    var e1 := [ToggleClicked];
    var e2 := e1 + Fires(1, 5);
    var e3 := e2 + [LapClicked];
    var e4 := e3 + Fires(1, 3);
    var e5 := e4 + [ToggleClicked];
    var e6 := e5 + [LapClicked];
    var e7 := e6 + [ResetClicked];
    var s1 := Run(Init(), e1);
    assert s1 == ToggleTimer(Init());
    RunAppend(Init(), e1, Fires(1, 5));
    TicksWhileRunning(s1, 5);
    var s2 := Run(Init(), e2);
    assert s2.seconds == 5;
    RunAppend(Init(), e2, [LapClicked]);
    var s3 := Run(Init(), e3);
    assert s3.laps == [5];
    RunAppend(Init(), e3, Fires(1, 3));
    TicksWhileRunning(s3, 3);
    var s4 := Run(Init(), e4);
    RunAppend(Init(), e4, [ToggleClicked]);
    RunAppend(Init(), e5, [LapClicked]);
    RunAppend(Init(), e6, [ResetClicked]);
    assert e5 + [LapClicked] == e4 + [ToggleClicked, LapClicked];
    assert e6 + [ResetClicked] == e4 + [ToggleClicked, LapClicked, ResetClicked];
    ReachableInv(e6);
  }
}
