/** Whole runs of one breaker shared by any number of calls, reporting in any order. */
module BreakerRuns {
  import opened Basics
  import opened FiniteSets
  import opened CircuitBreaker

  /** `trial` is the call whose admission last set the half-open flag. */
  datatype World = World(b: State, inFlight: set<nat>, trial: Option<nat>, clock: real)

  ghost predicate Enabled(w: World, e: Event) {
    && e.at >= w.clock
    && match e
       case Ask(call, _) => call !in w.inFlight
       case Tell(call, _, _) => call in w.inFlight
       case Vanish(call, _) => call in w.inFlight
  }

  ghost function Next(c: Config, w: World, e: Event): World {
    match e
    case Ask(call, at) =>
      World(Asked(c, w.b, at),
            if Admits(c, w.b, at) then w.inFlight + {call} else w.inFlight,
            if IsOpen(c, w.b) && Admits(c, w.b, at) then Some(call) else w.trial,
            at)
    case Tell(call, r, at) => World(Reported(w.b, r, at), w.inFlight - {call}, w.trial, at)
    case Vanish(call, at) => w.(inFlight := w.inFlight - {call}, clock := at)
  }

  ghost predicate Run(c: Config, worlds: seq<World>, events: seq<Event>) {
    && |worlds| == |events| + 1
    && worlds[0].b == Closed && worlds[0].inFlight == {} && worlds[0].trial == None
    && forall i :: 0 <= i < |events| ==> Enabled(worlds[i], events[i]) && worlds[i + 1] == Next(c, worlds[i], events[i])
  }

  /** A request admitted although the breaker is open: a half-open trial. */
  ghost predicate TrialAt(c: Config, w: World, e: Event) {
    e.Ask? && IsOpen(c, w.b) && Admits(c, w.b, e.at)
  }

  ghost predicate ClosingAt(w: World, e: Event) { e.Tell? && Closes(w.b, e.report) }

  ghost predicate NoClosing(worlds: seq<World>, events: seq<Event>, i: nat, j: nat)
    requires i <= j <= |events| && |worlds| == |events| + 1
  {
    forall k :: i <= k < j ==> !ClosingAt(worlds[k], events[k])
  }

  lemma {:induction false} ClockOrder(c: Config, worlds: seq<World>, events: seq<Event>, i: nat, j: nat)
    requires Run(c, worlds, events) && i < j <= |events|
    ensures events[i].at <= worlds[j].clock
  {
    if i + 1 < j { ClockOrder(c, worlds, events, i, j - 1); }
  }

  // ----- Timing -----

  /** Something re-armed the timer at event `i`: a failure, a throttle or a new trial. */
  ghost predicate Rearms(c: Config, w: World, e: Event) {
    TrialAt(c, w, e) || (e.Tell? && (e.report == Failure || e.report == Throttled))
  }

  lemma {:induction false} TimerHolds(c: Config, worlds: seq<World>, events: seq<Event>, i: nat, j: nat)
    requires Run(c, worlds, events) && i < j <= |events|
    requires Rearms(c, worlds[i], events[i]) && NoClosing(worlds, events, i + 1, j)
    ensures worlds[j].b.halfOpen || worlds[j].b.openedAt >= events[i].at
  {
    if i + 1 < j {
      TimerHolds(c, worlds, events, i, j - 1);
      ClockOrder(c, worlds, events, i, j - 1);
      assert !ClosingAt(worlds[j - 1], events[j - 1]);
    }
  }

  /** After a failure, a throttle or a trial, and until something closes the breaker, no
      trial is admitted for `recovery` seconds. So two trials are that far apart, and the
      first comes that long after the failure that opened the breaker. */
  lemma TrialsAreSpaced(c: Config, worlds: seq<World>, events: seq<Event>, i: nat, j: nat)
    requires Run(c, worlds, events) && i < j < |events|
    requires Rearms(c, worlds[i], events[i]) && TrialAt(c, worlds[j], events[j])
    requires NoClosing(worlds, events, i, j)
    ensures events[j].at - events[i].at >= c.recovery
  {
    TimerHolds(c, worlds, events, i, j);
  }

  /** While the breaker is open and inside its timer, nothing at all is sent. */
  lemma NothingSentWhileTimed(c: Config, worlds: seq<World>, events: seq<Event>, i: nat, j: nat)
    requires Run(c, worlds, events) && i < j < |events|
    requires Rearms(c, worlds[i], events[i]) && NoClosing(worlds, events, i, j)
    requires IsOpen(c, worlds[j].b) && events[j].Ask? && events[j].at - events[i].at < c.recovery
    ensures worlds[j + 1].inFlight == worlds[j].inFlight && worlds[j + 1].b == worlds[j].b
  {
    TimerHolds(c, worlds, events, i, j);
  }

  // ----- The failure count -----

  ghost function FailuresIn(events: seq<Event>, i: nat, j: nat): nat
    requires i <= j <= |events|
  {
    if i == j then 0
    else FailuresIn(events, i, j - 1) + if events[j - 1].Tell? && events[j - 1].report == Failure then 1 else 0
  }

  /** The counter is the number of failures since the last success or closing 4xx. */
  lemma {:induction false} FailuresAreCounted(c: Config, worlds: seq<World>, events: seq<Event>, j: nat) returns (i: nat)
    requires Run(c, worlds, events) && j <= |events|
    ensures i <= j && NoClosing(worlds, events, i, j)
    ensures i > 0 ==> ClosingAt(worlds[i - 1], events[i - 1])
    ensures worlds[j].b.failures == FailuresIn(events, i, j)
  {
    if j == 0 {
      i := 0;
    } else if ClosingAt(worlds[j - 1], events[j - 1]) {
      i := j;
    } else {
      i := FailuresAreCounted(c, worlds, events, j - 1);
    }
  }

  // ----- The half-open flag and the trial behind it -----

  ghost predicate AllClassified(events: seq<Event>) {
    forall i :: 0 <= i < |events| ==> !events[i].Vanish?
  }

  /** When every call reports, a half-open breaker has its trial still in flight. */
  lemma {:induction false} HalfOpenHasItsTrial(c: Config, worlds: seq<World>, events: seq<Event>, j: nat)
    requires Run(c, worlds, events) && AllClassified(events) && j <= |events|
    ensures worlds[j].b.halfOpen ==> worlds[j].trial.Some? && worlds[j].trial.value in worlds[j].inFlight
  {
    if j > 0 { HalfOpenHasItsTrial(c, worlds, events, j - 1); }
  }

  /** A second trial while the first is still out needs a failure or a throttle reported
      by some other call in between. */
  lemma {:induction false} SecondTrialNeedsAStaleReport(c: Config, worlds: seq<World>, events: seq<Event>, i: nat, j: nat)
    returns (k: nat)
    requires Run(c, worlds, events) && i < j < |events|
    requires TrialAt(c, worlds[i], events[i]) && TrialAt(c, worlds[j], events[j])
    requires NoClosing(worlds, events, i, j)
    requires forall m :: i < m <= j ==> events[i].call in worlds[m].inFlight
    ensures i < k < j && events[k].Tell? && events[k].call != events[i].call
    ensures events[k].report == Failure || events[k].report == Throttled
  {
    k := FlagCleared(c, worlds, events, i, j);
  }

  lemma {:induction false} FlagCleared(c: Config, worlds: seq<World>, events: seq<Event>, i: nat, j: nat)
    returns (k: nat)
    requires Run(c, worlds, events) && i < j <= |events|
    requires worlds[i + 1].b.halfOpen && !worlds[j].b.halfOpen
    requires events[i].Ask? && NoClosing(worlds, events, i, j)
    requires forall m :: i < m <= j ==> events[i].call in worlds[m].inFlight
    ensures i < k < j && events[k].Tell? && events[k].call != events[i].call
    ensures events[k].report == Failure || events[k].report == Throttled
  {
    k := j - 1;
    assert i + 1 < j;
    assert events[i].call in worlds[k].inFlight && events[i].call in worlds[k + 1].inFlight;
    if !worlds[k].b.halfOpen {
      k := FlagCleared(c, worlds, events, i, k);
    } else {
      assert !ClosingAt(worlds[k], events[k]);
    }
  }

  /** `call` stays out and nothing closes the breaker. */
  ghost predicate KeepsOut(c: Config, w: World, events: seq<Event>, call: nat)
    decreases |events|
  {
    && call in w.inFlight
    && (events != [] ==> !ClosingAt(w, events[0]) && KeepsOut(c, Next(c, w, events[0]), events[1..], call))
  }

  /** A second trial goes out while `call` is still out and the breaker was never closed. */
  ghost predicate SecondTrialCanGo(c: Config, w: World, call: nat) {
    exists events, e ::
      && Continues(c, w, events) && KeepsOut(c, w, events, call)
      && Enabled(EndOf(c, w, events), e) && TrialAt(c, EndOf(c, w, events), e)
  }

  lemma {:induction false} AloneStaysAlone(c: Config, w: World, events: seq<Event>, call: nat)
    requires IsOpen(c, w.b) && w.b.halfOpen && w.inFlight == {call}
    requires Continues(c, w, events) && KeepsOut(c, w, events, call)
    ensures IsOpen(c, EndOf(c, w, events).b) && EndOf(c, w, events).b.halfOpen
    decreases |events|
  {
    if events != [] {
      var w' := Next(c, w, events[0]);
      assert call in w'.inFlight;
      AloneStaysAlone(c, w', events[1..], call);
    }
  }

  lemma StaleFailureFreesATrial(c: Config, w: World, call: nat, other: nat)
    requires IsOpen(c, w.b) && call in w.inFlight && other in w.inFlight && other != call
    ensures SecondTrialCanGo(c, w, call)
  {
    var e := Tell(other, Failure, w.clock);
    var w' := Next(c, w, e);
    assert [e][1..] == [];
    assert Continues(c, w', []) && EndOf(c, w', []) == w' && KeepsOut(c, w', [], call);
    assert Continues(c, w, [e]) && EndOf(c, w, [e]) == w' && KeepsOut(c, w, [e], call);
    var ask := Ask(Unused(w'.inFlight), Later(w'.clock, w'.b.openedAt + c.recovery));
    assert Enabled(w', ask) && TrialAt(c, w', ask);
  }

  /** When a trial is admitted, a second one can go out beside it, with nothing closing the
      breaker in between, exactly when some other call is still in flight at that moment. */
  lemma SecondTrialExactly(c: Config, w: World, call: nat, at: real)
    requires Enabled(w, Ask(call, at)) && TrialAt(c, w, Ask(call, at))
    ensures SecondTrialCanGo(c, Next(c, w, Ask(call, at)), call) <==> w.inFlight != {}
  {
    var w' := Next(c, w, Ask(call, at));
    if w.inFlight == {} {
      forall events | Continues(c, w', events) && KeepsOut(c, w', events, call)
        ensures EndOf(c, w', events).b.halfOpen && IsOpen(c, EndOf(c, w', events).b)
      {
        AloneStaysAlone(c, w', events, call);
      }
    } else {
      StaleFailureFreesATrial(c, w', call, Pick(w.inFlight));
    }
  }

  /** And it can happen: the breaker admits "a single half-open trial" only as long as no
      call from before the outage is still to report. */
  lemma TwoTrialsAtOnce(recovery: real) returns (c: Config, worlds: seq<World>, events: seq<Event>)
    requires recovery > 0.0
    ensures c == Config(1, recovery) && Run(c, worlds, events) && AllClassified(events)
    ensures |events| == 6 && TrialAt(c, worlds[3], events[3]) && TrialAt(c, worlds[5], events[5])
    ensures events[3].call in worlds[6].inFlight && events[5].call in worlds[6].inFlight && events[3].call != events[5].call
  {
    c := Config(1, recovery);
    events := [Ask(0, 0.0), Ask(1, 0.0), Tell(0, Failure, 0.0), Ask(2, recovery), Tell(1, Failure, recovery), Ask(3, 2.0 * recovery)];
    var w0 := World(Closed, {}, None, 0.0);
    var w1 := Next(c, w0, events[0]);
    var w2 := Next(c, w1, events[1]);
    var w3 := Next(c, w2, events[2]);
    var w4 := Next(c, w3, events[3]);
    var w5 := Next(c, w4, events[4]);
    var w6 := Next(c, w5, events[5]);
    worlds := [w0, w1, w2, w3, w4, w5, w6];
  }

  // ----- Lock-out -----

  /** No call of this breaker can ever be let through again. */
  ghost predicate LockedOut(c: Config, w: World) {
    IsOpen(c, w.b) && w.b.halfOpen && w.inFlight == {}
  }

  ghost predicate Continues(c: Config, w: World, events: seq<Event>)
    decreases |events|
  {
    events == [] || (Enabled(w, events[0]) && Continues(c, Next(c, w, events[0]), events[1..]))
  }

  ghost function EndOf(c: Config, w: World, events: seq<Event>): World
    decreases |events|
  {
    if events == [] then w else EndOf(c, Next(c, w, events[0]), events[1..])
  }

  lemma {:induction false} LockedOutStays(c: Config, w: World, events: seq<Event>)
    requires LockedOut(c, w) && Continues(c, w, events)
    ensures LockedOut(c, EndOf(c, w, events))
    decreases |events|
  {
    if events != [] { LockedOutStays(c, Next(c, w, events[0]), events[1..]); }
  }

  function Later(a: real, b: real): real { if a < b then b else a }

  /** From any state that is not locked out, letting one call in flight succeed is enough. */
  lemma WayOut(c: Config, w: World) returns (events: seq<Event>)
    requires !LockedOut(c, w)
    ensures Continues(c, w, events)
    ensures !IsOpen(c, EndOf(c, w, events).b) || !EndOf(c, w, events).b.halfOpen
  {
    events := [];
    if IsOpen(c, w.b) && w.b.halfOpen {
      var e := Tell(Pick(w.inFlight), Success, w.clock);
      events := [e];
      assert events[1..] == [];
      assert Continues(c, Next(c, w, e), []) && EndOf(c, Next(c, w, e), []) == Next(c, w, e);
    }
  }

  /** Lock-out is exactly an open, half-open breaker with nothing in flight: from there
      every run refuses every request, and from anywhere else some run admits one. */
  lemma LockedOutExactly(c: Config, w: World)
    ensures LockedOut(c, w) <==>
            forall events, call, at ::
              Continues(c, w, events) && Enabled(EndOf(c, w, events), Ask(call, at)) ==> !Admits(c, EndOf(c, w, events).b, at)
  {
    if LockedOut(c, w) {
      forall events, call, at | Continues(c, w, events) && Enabled(EndOf(c, w, events), Ask(call, at))
        ensures !Admits(c, EndOf(c, w, events).b, at)
      {
        LockedOutStays(c, w, events);
      }
    } else {
      var events := WayOut(c, w);
      var end := EndOf(c, w, events);
      var at := Later(end.clock, end.b.openedAt + c.recovery);
      var call := Unused(end.inFlight);
      assert Enabled(end, Ask(call, at)) && Admits(c, end.b, at);
    }
  }

  ghost function Unused(calls: set<nat>): (call: nat)
    ensures call !in calls
  {
    Above(calls) + 1
  }

  ghost function Above(calls: set<nat>): (bound: nat)
    ensures forall call :: call in calls ==> call <= bound
  {
    if calls == {} then 0
    else
      var x := Pick(calls);
      var rest := Above(calls - {x});
      assert calls == calls - {x} + {x};
      if x > rest then x else rest
  }

  /** With classified outcomes only, the breaker never locks out: whatever has happened,
      some continuation admits a call again. */
  lemma NeverLockedOut(c: Config, worlds: seq<World>, events: seq<Event>, j: nat)
    requires Run(c, worlds, events) && AllClassified(events) && j <= |events|
    ensures !LockedOut(c, worlds[j])
    ensures worlds[j].inFlight == {} && IsOpen(c, worlds[j].b) ==>
              forall at :: at >= worlds[j].b.openedAt + c.recovery ==> Admits(c, worlds[j].b, at)
  {
    HalfOpenHasItsTrial(c, worlds, events, j);
  }

  /** One trial that ends in an unclassified exception is enough to lock it out. */
  lemma VanishedTrialLocksOut(recovery: real) returns (c: Config, worlds: seq<World>, events: seq<Event>)
    requires recovery >= 0.0
    ensures Run(c, worlds, events) && c == Config(1, recovery) && LockedOut(c, worlds[|events|])
  {
    c := Config(1, recovery);
    events := [Ask(0, 0.0), Tell(0, Failure, 0.0), Ask(1, recovery), Vanish(1, recovery)];
    var w0 := World(Closed, {}, None, 0.0);
    var w1 := Next(c, w0, events[0]);
    var w2 := Next(c, w1, events[1]);
    var w3 := Next(c, w2, events[2]);
    var w4 := Next(c, w3, events[3]);
    worlds := [w0, w1, w2, w3, w4];
  }

  // ----- One call among the others -----

  /** The events of `n` attempts of the call `me` and of everything done meanwhile. */
  ghost function Trace(script: Script, me: nat, n: nat): seq<Event>
    decreases n, 0
  {
    if n == 0 then []
    else
      var report := Classify(script.replies(n - 1));
      var end := if report.Some? then Tell(me, report.value, script.doneAt(n - 1)) else Vanish(me, script.doneAt(n - 1));
      TraceReady(script, me, n - 1) + [Ask(me, script.askAt(n - 1))] + script.others(n - 1) + [end]
  }

  ghost function TraceReady(script: Script, me: nat, n: nat): seq<Event>
    decreases n, 1
  {
    if n == 0 then [] else Trace(script, me, n) + script.slept(n - 1)
  }

  lemma {:induction false} HappenedAppend(c: Config, s: State, a: seq<Event>, b: seq<Event>)
    ensures AllHappened(c, s, a + b) == AllHappened(c, AllHappened(c, s, a), b)
  {
    if b == [] {
      assert a + b == a;
    } else {
      var n := |b| - 1;
      var whole := a + b;
      assert whole[..|whole| - 1] == a + b[..n] && whole[|whole| - 1] == b[n];
      HappenedAppend(c, s, a, b[..n]);
    }
  }

  lemma OneHappened(c: Config, s: State, e: Event)
    ensures AllHappened(c, s, [e]) == Happened(c, s, e)
  {
    assert [e][..0] == [];
  }

  /** The breaker's part of a run is what the events do to it one by one. */
  lemma {:induction false} EndState(c: Config, w: World, events: seq<Event>)
    ensures EndOf(c, w, events).b == AllHappened(c, w.b, events)
    decreases |events|
  {
    if events != [] {
      EndState(c, Next(c, w, events[0]), events[1..]);
      OneHappened(c, w.b, events[0]);
      HappenedAppend(c, w.b, [events[0]], events[1..]);
      assert [events[0]] + events[1..] == events;
    }
  }

  lemma SleepDrives(c: Config, s: State, script: Script, me: nat, n: nat)
    requires AllHappened(c, s, Trace(script, me, n)) == Driven(c, s, script, n)
    ensures AllHappened(c, s, TraceReady(script, me, n)) == Ready(c, s, script, n)
  {
    if n > 0 { HappenedAppend(c, s, Trace(script, me, n), script.slept(n - 1)); }
  }

  lemma {:induction false} Climb(holds: nat -> bool, n: nat)
    requires holds(0) && forall k: nat :: holds(k) ==> holds(k + 1)
    ensures holds(n)
  {
    if n > 0 { Climb(holds, n - 1); }
  }

  lemma TraceDrives(c: Config, s: State, script: Script, me: nat, n: nat)
    ensures AllHappened(c, s, Trace(script, me, n)) == Driven(c, s, script, n)
  {
    var holds := (k: nat) => AllHappened(c, s, Trace(script, me, k)) == Driven(c, s, script, k);
    forall k: nat | holds(k) ensures holds(k + 1) {
      SleepDrives(c, s, script, me, k);
      AttemptDrives(c, s, script, me, k);
    }
    Climb(holds, n);
  }

  lemma AttemptDrives(c: Config, s: State, script: Script, me: nat, k: nat)
    requires AllHappened(c, s, TraceReady(script, me, k)) == Ready(c, s, script, k)
    ensures AllHappened(c, s, Trace(script, me, k + 1)) == Driven(c, s, script, k + 1)
  {
    var ask, lead, others := Ask(me, script.askAt(k)), TraceReady(script, me, k), script.others(k);
    var report := Classify(script.replies(k));
    var end := if report.Some? then Tell(me, report.value, script.doneAt(k)) else Vanish(me, script.doneAt(k));
    HappenedAppend(c, s, lead, [ask]);
    OneHappened(c, Ready(c, s, script, k), ask);
    HappenedAppend(c, s, lead + [ask], others);
    HappenedAppend(c, s, lead + [ask] + others, [end]);
    OneHappened(c, AllHappened(c, s, lead + [ask] + others), end);
  }

  lemma {:induction false} RunAlong(c: Config, w: World, events: seq<Event>) returns (worlds: seq<World>)
    requires Continues(c, w, events)
    ensures |worlds| == |events| + 1 && worlds[0] == w && worlds[|events|] == EndOf(c, w, events)
    ensures forall i :: 0 <= i < |events| ==> Enabled(worlds[i], events[i]) && worlds[i + 1] == Next(c, worlds[i], events[i])
    decreases |events|
  {
    if events == [] {
      worlds := [w];
    } else {
      var rest := RunAlong(c, Next(c, w, events[0]), events[1..]);
      worlds := [w] + rest;
      forall i | 0 <= i < |events| ensures Enabled(worlds[i], events[i]) && worlds[i + 1] == Next(c, worlds[i], events[i]) {
        if i > 0 { assert events[i] == events[1..][i - 1] && worlds[i] == rest[i - 1] && worlds[i + 1] == rest[i]; }
      }
    }
  }

  const Fresh := World(Closed, {}, None, 0.0)

  /** The retry loop is a run: after any legal history, the attempts of a call and what the
      other calls do meanwhile leave the breaker where the loop leaves it. So every result
      about runs holds of calls made of `ApiCall`. */
  lemma CallsFormARun(c: Config, history: seq<Event>, script: Script, me: nat, n: nat) returns (worlds: seq<World>)
    requires Continues(c, Fresh, history + Trace(script, me, n))
    ensures Run(c, worlds, history + Trace(script, me, n))
    ensures worlds[|history| + |Trace(script, me, n)|].b == Driven(c, AllHappened(c, Closed, history), script, n)
  {
    var events := history + Trace(script, me, n);
    worlds := RunAlong(c, Fresh, events);
    EndState(c, Fresh, events);
    HappenedAppend(c, Closed, history, Trace(script, me, n));
    TraceDrives(c, AllHappened(c, Closed, history), script, me, n);
  }

  /** With no foreign reply and no vanishing call the run is one of classified outcomes. */
  lemma {:induction false} ClassifiedTrace(script: Script, me: nat, n: nat)
    requires forall k: nat :: k < n ==> script.replies(k) != Foreign && AllClassified(script.others(k)) && AllClassified(script.slept(k))
    ensures AllClassified(Trace(script, me, n)) && AllClassified(TraceReady(script, me, n))
  {
    if n > 0 { ClassifiedTrace(script, me, n - 1); }
  }
}
