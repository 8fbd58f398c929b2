/**
 The rate limiter under interleaved callers: each stretch of code between two awaits is one
 step, and the clock moves between steps.
 */
module RateLimiting {

  datatype Limits = Limits(minIntervalMs: nat, maxConcurrency: nat)

  datatype Phase = Waiting | Sleeping(until: int) | Operating | Done

  /** The two fields of the limiter, the clock, the callers, and the history of operation starts. */
  datatype State = State(now: int, nextAllowedAt: int, inFlight: int, callers: seq<Phase>, starts: seq<int>)

  function Fresh(now: int): (r: State) {
    State(now, 0, 0, [], [])
  }

  /**
   A caller arrives; finds a free place (`late` ms pass between its two clock readings); wakes
   from its sleep; ends its operation, with a result or an error; or time passes.
   */
  datatype Event = Arrive | Admit(c: nat, late: nat) | Wake(c: nat) | End(c: nat) | Tick(ms: nat)

  predicate InFlight(p: Phase) {
    p.Sleeping? || p.Operating?
  }

  function Start(lim: Limits, st: State, c: nat, at: int): (r: State)
    requires c < |st.callers|
  {
    State(at, at + lim.minIntervalMs, st.inFlight, st.callers[c := Operating], st.starts + [at])
  }

  function Step(lim: Limits, st: State, e: Event): (r: State) {
    match e
    case Arrive => st.(callers := st.callers + [Waiting])
    case Admit(c, late) =>
      if c < |st.callers| && st.callers[c].Waiting? && st.inFlight < lim.maxConcurrency then
        var entered := st.(inFlight := st.inFlight + 1);
        if st.nextAllowedAt - st.now > 0 then entered.(callers := st.callers[c := Sleeping(st.nextAllowedAt)])
        else Start(lim, entered, c, st.now + late)
      else st
    case Wake(c) =>
      if c < |st.callers| && st.callers[c].Sleeping? && st.now >= st.callers[c].until
      then Start(lim, st, c, st.now) else st
    case End(c) =>
      if c < |st.callers| && st.callers[c].Operating? then
        st.(inFlight := st.inFlight - 1, callers := st.callers[c := Done])
      else st
    case Tick(ms) => st.(now := st.now + ms)
  }

  function Run(lim: Limits, now: int, events: seq<Event>): (r: State)
    decreases |events|
  {
    if events == [] then Fresh(now) else Step(lim, Run(lim, now, events[..|events| - 1]), events[|events| - 1])
  }

  // ----- Concurrency -----

  function Flying(callers: seq<Phase>): (r: nat)
    decreases |callers|
  {
    if callers == [] then 0
    else Flying(callers[..|callers| - 1]) + if InFlight(callers[|callers| - 1]) then 1 else 0
  }

  lemma {:induction false} FlyingUpdate(callers: seq<Phase>, c: nat, p: Phase)
    requires c < |callers|
    ensures Flying(callers[c := p]) ==
            Flying(callers) - (if InFlight(callers[c]) then 1 else 0) + if InFlight(p) then 1 else 0
    decreases |callers|
  {
    var last := |callers| - 1;
    if c < last {
      FlyingUpdate(callers[..last], c, p);
      assert callers[c := p][..last] == callers[..last][c := p];
    } else {
      assert callers[c := p][..last] == callers[..last];
    }
  }

  lemma {:induction false} FlyingAt(callers: seq<Phase>, c: nat)
    requires c < |callers| && InFlight(callers[c])
    ensures Flying(callers) >= 1
    ensures Flying(callers) == 1 ==> forall d :: 0 <= d < |callers| && d != c ==> !InFlight(callers[d])
    decreases |callers|
  {
    var last := |callers| - 1;
    if c < last {
      FlyingAt(callers[..last], c);
    }
    forall d | 0 <= d < last && Flying(callers) == 1 && d != c
      ensures !InFlight(callers[d])
    {
      if InFlight(callers[..last][d]) {
        FlyingAt(callers[..last], d);
      }
    }
  }

  predicate CountOk(lim: Limits, st: State) {
    st.inFlight == Flying(st.callers) && st.inFlight <= lim.maxConcurrency
  }

  lemma StepKeepsCount(lim: Limits, st: State, e: Event)
    requires CountOk(lim, st)
    ensures CountOk(lim, Step(lim, st, e))
  {
    match e {
      case Arrive => assert (st.callers + [Waiting])[..|st.callers|] == st.callers;
      case Admit(c, _) =>
        if c < |st.callers| {
          FlyingUpdate(st.callers, c, Sleeping(st.nextAllowedAt));
          FlyingUpdate(st.callers, c, Operating);
        }
      case Wake(c) =>
        if c < |st.callers| {
          FlyingUpdate(st.callers, c, Operating);
        }
      case End(c) =>
        if c < |st.callers| {
          FlyingUpdate(st.callers, c, Done);
        }
      case Tick(_) =>
    }
  }

  /** In every interleaving, at most `maxConcurrency` callers are admitted and not ended. */
  lemma {:induction false} NeverTooMany(lim: Limits, now: int, events: seq<Event>)
    ensures var st := Run(lim, now, events);
            st.inFlight == Flying(st.callers) && Flying(st.callers) <= lim.maxConcurrency
    decreases |events|
  {
    if events != [] {
      NeverTooMany(lim, now, events[..|events| - 1]);
      StepKeepsCount(lim, Run(lim, now, events[..|events| - 1]), events[|events| - 1]);
    }
  }

  // ----- Spacing -----

  predicate Spaced(starts: seq<int>, gap: int) {
    forall i, j :: 0 <= i < j < |starts| ==> starts[i] + gap <= starts[j]
  }

  /** Every start lies a full interval before the next one allowed, and no sleeper wakes earlier. */
  predicate SpacingOk(lim: Limits, st: State) {
    Spaced(st.starts, lim.minIntervalMs) &&
    (forall i :: 0 <= i < |st.starts| ==> st.starts[i] + lim.minIntervalMs <= st.nextAllowedAt) &&
    forall c :: 0 <= c < |st.callers| && st.callers[c].Sleeping? ==> st.callers[c].until >= st.nextAllowedAt
  }

  lemma StepKeepsSpacing(lim: Limits, st: State, e: Event)
    requires lim.maxConcurrency == 1 && CountOk(lim, st) && SpacingOk(lim, st)
    ensures SpacingOk(lim, Step(lim, st, e))
  {
    match e {
      case Admit(c, _) =>
        forall d | 0 <= d < |st.callers| && st.inFlight < 1
          ensures !InFlight(st.callers[d])
        {
          if InFlight(st.callers[d]) {
            FlyingAt(st.callers, d);
          }
        }
      case Wake(c) =>
        if c < |st.callers| && st.callers[c].Sleeping? {
          FlyingAt(st.callers, c);
        }
      case _ =>
    }
  }

  lemma {:induction false} OneAtATimeSpaced(lim: Limits, now: int, events: seq<Event>)
    requires lim.maxConcurrency == 1
    ensures SpacingOk(lim, Run(lim, now, events))
    decreases |events|
  {
    if events != [] {
      OneAtATimeSpaced(lim, now, events[..|events| - 1]);
      NeverTooMany(lim, now, events[..|events| - 1]);
      StepKeepsSpacing(lim, Run(lim, now, events[..|events| - 1]), events[|events| - 1]);
    }
  }

  lemma RunSnoc(lim: Limits, now: int, events: seq<Event>, e: Event)
    ensures Run(lim, now, events + [e]) == Step(lim, Run(lim, now, events), e)
  {
    assert (events + [e])[..|events|] == events;
  }

  /** Appends an event to a run. */
  lemma Extend(lim: Limits, now: int, events: seq<Event>, e: Event) returns (longer: seq<Event>)
    ensures Run(lim, now, longer) == Step(lim, Run(lim, now, events), e)
  {
    RunSnoc(lim, now, events, e);
    longer := events + [e];
  }

  /** Three callers have come. */
  lemma ThreeWaiting(lim: Limits, now: nat) returns (events: seq<Event>)
    ensures Run(lim, now, events) == State(now, 0, 0, [Waiting, Waiting, Waiting], [])
  {
    events := Extend(lim, now, [], Arrive);
    assert Run(lim, now, events) == State(now, 0, 0, [Waiting], []);
    events := Extend(lim, now, events, Arrive);
    assert Run(lim, now, events) == State(now, 0, 0, [Waiting, Waiting], []);
    events := Extend(lim, now, events, Arrive);
  }

  /** One caller has come and gone; two wait. */
  lemma OneDoneTwoWaiting(lim: Limits, now: nat) returns (events: seq<Event>)
    requires lim.maxConcurrency >= 2
    ensures Run(lim, now, events) == State(now, now + lim.minIntervalMs, 0, [Done, Waiting, Waiting], [now])
  {
    events := ThreeWaiting(lim, now);
    events := Extend(lim, now, events, Admit(0, 0));
    assert Run(lim, now, events) == State(now, now + lim.minIntervalMs, 1, [Operating, Waiting, Waiting], [now]);
    events := Extend(lim, now, events, End(0));
  }

  /** With two places, two callers that sleep until the same moment start together. */
  lemma TwoStartTogether(lim: Limits, now: nat) returns (events: seq<Event>)
    requires lim.maxConcurrency >= 2 && lim.minIntervalMs > 0
    ensures var m := lim.minIntervalMs; Run(lim, now, events).starts == [now, now + m, now + m]
  {
    var at := now + lim.minIntervalMs;
    events := BothAwake(lim, now, at);
    events := Extend(lim, now, events, Wake(1));
    assert Run(lim, now, events) == State(at, at + lim.minIntervalMs, 2, [Done, Operating, Sleeping(at)], [now, at]);
    events := Extend(lim, now, events, Wake(2));
    assert Run(lim, now, events).starts == [now, at] + [at];
  }

  /** Two callers that sleep until the same moment, when it has come. */
  lemma BothAwake(lim: Limits, now: nat, at: nat) returns (events: seq<Event>)
    requires lim.maxConcurrency >= 2 && lim.minIntervalMs > 0 && at == now + lim.minIntervalMs
    ensures Run(lim, now, events) == State(at, at, 2, [Done, Sleeping(at), Sleeping(at)], [now])
  {
    var both := [Done, Sleeping(at), Sleeping(at)];
    events := OneDoneTwoWaiting(lim, now);
    events := Extend(lim, now, events, Admit(1, 0));
    assert Run(lim, now, events) == State(now, at, 1, [Done, Sleeping(at), Waiting], [now]);
    events := Extend(lim, now, events, Admit(2, 0));
    assert Run(lim, now, events) == State(now, at, 2, both, [now]);
    events := Extend(lim, now, events, Tick(lim.minIntervalMs));
    assert Run(lim, now, events) == State(at, at, 2, both, [now]);
  }

  /** The history of starts is in time order. */
  lemma {:induction false} StartsInOrder(lim: Limits, now: int, events: seq<Event>)
    ensures var st := Run(lim, now, events);
            Spaced(st.starts, 0) && forall i :: 0 <= i < |st.starts| ==> st.starts[i] <= st.now
    decreases |events|
  {
    if events != [] {
      StartsInOrder(lim, now, events[..|events| - 1]);
    }
  }

  /** Starts are always a full interval apart. */
  ghost predicate AlwaysSpaced(lim: Limits) {
    forall now: nat, events :: Spaced(Run(lim, now, events).starts, lim.minIntervalMs)
  }

  /**
   Starts are always a full interval apart exactly when the limiter admits one caller at a
   time, or has no interval to keep.
   */
  lemma SpacingExactlyWhenSerial(lim: Limits)
    requires lim.maxConcurrency >= 1
    ensures AlwaysSpaced(lim) <==> lim.maxConcurrency == 1 || lim.minIntervalMs == 0
  {
    if lim.maxConcurrency == 1 || lim.minIntervalMs == 0 {
      forall now: nat, events
        ensures Spaced(Run(lim, now, events).starts, lim.minIntervalMs)
      {
        StartsInOrder(lim, now, events);
        if lim.maxConcurrency == 1 {
          OneAtATimeSpaced(lim, now, events);
        }
      }
    } else {
      var events := TwoStartTogether(lim, 0);
      var starts := Run(lim, 0, events).starts;
      assert starts[1] + lim.minIntervalMs > starts[2];
      assert !Spaced(starts, lim.minIntervalMs);
    }
  }
}
