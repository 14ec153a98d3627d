/** The countdown wheel shows the same times, timers and firings as the plain
    clock that compares every timer on every tick. */
module TimerRefinement {
  import opened Words
  import opened TimerModel

  ghost predicate TimerOk(t: Timer, horizon: nat) {
    t.active ==> MIN_PERIOD <= t.period && horizon <= t.timeToFire <= MAX_64
  }

  /** The countdown ends no later than any deadline, and the null timer keeps it
      within 32 bits. */
  ghost predicate Inv(s: Wheel) {
    && SizedWheel(s)
    && 1 <= s.currCountdown <= s.currCountdownPeriod <= NULL_INTERVAL
    && s.timers[0].inUse && s.timers[0].active && s.timers[0].continuous
    && s.timers[0].period == NULL_INTERVAL
    && s.timers[0].timeToFire <= s.ticksTotal + NULL_INTERVAL
    && forall i | 0 <= i < s.numTimers :: TimerOk(s.timers[i], s.ticksTotal + s.currCountdownPeriod)
  }

  /** No active timer is ever overdue. */
  lemma {:induction false} NeverOverdue(s: Wheel, i: nat)
    requires Inv(s) && i < s.numTimers && s.timers[i].active
    ensures TimeTicks(s) < s.timers[i].timeToFire
    ensures s.ticksTotal + s.currCountdownPeriod <= s.timers[i].timeToFire
  {
  }

  /** Calls do not move time, and the wheel's calls are the clock's. */
  lemma {:induction false} CallRefines(s: Wheel, call: Call)
    requires Inv(s)
    ensures Sized(Abs(s)) && SizedWheel(ApplyWheel(s, call))
    ensures Abs(ApplyWheel(s, call)) == Apply(Abs(s), call)
    ensures TimeTicks(ApplyWheel(s, call)) == TimeTicks(s)
    ensures !ApplyWheel(s, call).halted ==> Inv(ApplyWheel(s, call))
  {
    ApplySized(Abs(s), call);
    var r := ApplyWheel(s, call);
    if !r.halted && !s.halted {
      var slot := Slot(Abs(s), call);
      FirstFreeBound(s.timers, s.numTimers, 1);
      var horizon := s.ticksTotal + s.currCountdownPeriod;
      var horizon' := r.ticksTotal + r.currCountdownPeriod;
      assert horizon' <= horizon;
      forall i | 0 <= i < r.numTimers ensures TimerOk(r.timers[i], horizon') {
        if i < s.numTimers { assert TimerOk(s.timers[i], horizon); }
      }
    }
  }

  /** The fates that the checks of the countdown guard against. */
  predicate Broken(f: Fate) {
    f == Overdue || f == CountdownLost
  }

  /** The wheel shows the clock `c`, and is in order unless halted; it never is halted
      for a timer overdue or a countdown lost. */
  ghost predicate Shows(s: Wheel, c: Clock) {
    SizedWheel(s) && Abs(s) == c && (s.halted || Inv(s)) && !Broken(s.fate)
  }

  lemma {:induction false} CallsRefine(s: Wheel, c: Clock, calls: seq<Call>)
    requires Shows(s, c)
    ensures Sized(c) && Shows(ApplyAllWheel(s, calls), ApplyAll(c, calls))
    decreases |calls|
  {
    if calls != [] {
      ApplySized(c, calls[0]);
      if !s.halted {
        CallRefines(s, calls[0]);
      }
      assert Shows(ApplyWheel(s, calls[0]), Apply(c, calls[0]));
      CallsRefine(ApplyWheel(s, calls[0]), Apply(c, calls[0]), calls[1..]);
    }
  }

  lemma {:induction false} CallbacksRefine(h: Handler, s: Wheel, c: Clock, triggered: seq<bool>, i: nat)
    requires Shows(s, c) && i <= |triggered|
    ensures Sized(c) && Shows(CallbacksWheel(h, s, triggered, i), Callbacks(h, c, triggered, i))
    decreases |triggered| - i
  {
    if s.halted || i == |triggered| || i >= s.numTimers {
    } else if !triggered[i] {
      CallbacksRefine(h, s, c, triggered, i + 1);
    } else if s.timers[i].inUse {
      var s1 := s.(log := s.log + [Fired(TimeTicks(s), i)]);
      var c1 := c.(log := c.log + [Fired(c.now, i)]);
      assert Shows(s1, c1);
      CallsRefine(s1, c1, h(i, c));
      var s', c' := ApplyAllWheel(s1, h(i, c)), ApplyAll(c1, h(i, c));
      if s'.numTimers <= |triggered| {
        CallbacksRefine(h, s', c', triggered, i + 1);
      }
    }
  }

  /** The state just before an event. */
  ghost predicate AtEvent(s: Wheel) {
    s.currCountdown == 0 && Inv(s.(currCountdown := 1))
  }

  /** The service loop after the first `i` timers `ts`: what it has done to them, whom it
      has flagged, and the earliest deadline found. */
  ghost predicate Servicing(ts: seq<Timer>, i: nat, now: nat, timers: seq<Timer>, triggered: seq<bool>, min: nat) {
    && i <= |ts|
    && timers == AdvanceAll(ts, i, now)
    && triggered == Triggered(ts, i, now)
    && min == MinDeadline(timers, i)
    && ServiceFate(ts, i, now) == Running
  }

  lemma {:induction false} MinDeadlineLocal(a: seq<Timer>, b: seq<Timer>, n: nat)
    requires n <= |a| && n <= |b| && forall i | 0 <= i < n :: a[i] == b[i]
    ensures MinDeadline(a, n) == MinDeadline(b, n)
  {
    if n > 0 { MinDeadlineLocal(a, b, n - 1); }
  }

  lemma {:induction false} ServicingStep(
    ts: seq<Timer>, i: nat, now: nat, timers: seq<Timer>, triggered: seq<bool>, min: nat, min': nat)
    requires Servicing(ts, i, now, timers, triggered, min) && i < |ts| && TimerFate(ts[i], now) == Running
    requires var t := Advance(ts[i], now); min' == if t.active && t.timeToFire < min then t.timeToFire else min
    ensures Servicing(ts, i + 1, now, timers[i := Advance(ts[i], now)], triggered + [Due(ts[i], now)], min')
  {
    var after := timers[i := Advance(ts[i], now)];
    MinDeadlineLocal(timers, after, i);
    assert after == AdvanceAll(ts, i + 1, now);
    assert triggered + [Due(ts[i], now)] == Triggered(ts, i + 1, now);
  }

  lemma {:induction false} ServicedIs(s: Wheel, timers: seq<Timer>, triggered: seq<bool>, min: nat)
    requires SizedWheel(s)
    requires Servicing(s.timers, s.numTimers, s.ticksTotal + s.currCountdownPeriod, timers, triggered, min)
    ensures var total := s.ticksTotal + s.currCountdownPeriod;
            var next := U32(min - total);
            Serviced(s) == Wheel(timers, s.numTimers, next, next, total, s.log, s.fate)
  {
  }

  /** The earliest deadline after servicing lies within the next null interval. */
  lemma {:induction false} DeadlineInReach(timers: seq<Timer>, n: nat, total: nat)
    requires 1 <= n <= |timers| && timers[0].active && timers[0].timeToFire <= total + NULL_INTERVAL
    requires forall i | 0 <= i < n :: TimerOk(timers[i], total + 1)
    ensures total < MinDeadline(timers, n) <= total + NULL_INTERVAL
    ensures forall i | 0 <= i < n :: TimerOk(timers[i], MinDeadline(timers, n))
  {
    var m := MinDeadline(timers, n);
    MinDeadlineIs(timers, n);
    assert TimerOk(timers[0], total + 1);
    forall i | 0 <= i < n ensures TimerOk(timers[i], m) {
      assert TimerOk(timers[i], total + 1);
    }
  }

  lemma {:induction false} AdvancedAllOk(s: Wheel, total: nat)
    requires AtEvent(s) && total == s.ticksTotal + s.currCountdownPeriod
    requires ServiceFate(s.timers, s.numTimers, total) == Running
    ensures forall i | 0 <= i < s.numTimers :: TimerOk(Advance(s.timers[i], total), total + 1)
    ensures var t := Advance(s.timers[0], total);
            t.active && t.continuous && t.period == NULL_INTERVAL && t.timeToFire <= total + NULL_INTERVAL
  {
    ServiceFateOf(s.timers, s.numTimers, total);
  }

  /** The new countdown reaches exactly to the earliest deadline: the cast to 32
      bits loses nothing, and the result is never 0. */
  lemma {:induction false} CastExact(s: Wheel)
    requires AtEvent(s) && ServiceFate(s.timers, s.numTimers, s.ticksTotal + s.currCountdownPeriod) == Running
    ensures var total := s.ticksTotal + s.currCountdownPeriod;
            var deadline := MinDeadline(AdvanceAll(s.timers, s.numTimers, total), s.numTimers);
            && total + Serviced(s).currCountdown == deadline
            && 1 <= Serviced(s).currCountdown <= NULL_INTERVAL
            && forall i | 0 <= i < s.numTimers :: TimerOk(Serviced(s).timers[i], deadline)
  {
    var total := s.ticksTotal + s.currCountdownPeriod;
    AdvancedAllOk(s, total);
    DeadlineInReach(AdvanceAll(s.timers, s.numTimers, total), s.numTimers, total);
  }

  /** Servicing an event restores the invariant: nobody is overdue afterwards. */
  lemma {:induction false} NextCountdown(s: Wheel)
    requires AtEvent(s) && ServiceFate(s.timers, s.numTimers, s.ticksTotal + s.currCountdownPeriod) == Running
    ensures Inv(Serviced(s))
  {
    CastExact(s);
    AdvancedAllOk(s, s.ticksTotal + s.currCountdownPeriod);
  }

  /** The only trouble at an event is a deadline beyond 64 bits. */
  lemma {:induction false} NobodyOverdue(s: Wheel)
    requires AtEvent(s)
    ensures !Broken(ServiceFate(s.timers, s.numTimers, s.ticksTotal + s.currCountdownPeriod))
  {
    var total := s.ticksTotal + s.currCountdownPeriod;
    ServiceFateOf(s.timers, s.numTimers, total);
    forall i | 0 <= i < s.numTimers ensures !Broken(TimerFate(s.timers[i], total)) {
      assert TimerOk(s.timers[i], total);
    }
  }

  /** What the plain clock does at the time of an event. */
  lemma {:induction false} ClockAtEvent(h: Handler, s: Wheel, c: Clock, triggered: seq<bool>)
    requires AtEvent(s) && !s.halted && Inv(Serviced(s)) && c == Abs(s.(currCountdown := 1))
    requires ServiceFate(s.timers, s.numTimers, s.ticksTotal + s.currCountdownPeriod) == Running
    requires triggered == Triggered(s.timers, s.numTimers, s.ticksTotal + s.currCountdownPeriod)
    ensures Tick(h, c) == Callbacks(h, Abs(Serviced(s)), triggered, 0)
  {
  }

  lemma {:induction false} TroubleRefines(h: Handler, s: Wheel)
    requires AtEvent(s) && !s.halted
    requires ServiceFate(s.timers, s.numTimers, s.ticksTotal + s.currCountdownPeriod) != Running
    ensures Shows(CountdownEvent(h, s), Tick(h, Abs(s.(currCountdown := 1))))
  {
    NobodyOverdue(s);
  }

  lemma {:induction false} EventRefines(h: Handler, s: Wheel)
    requires AtEvent(s) && !s.halted
    ensures Shows(CountdownEvent(h, s), Tick(h, Abs(s.(currCountdown := 1))))
  {
    var total := s.ticksTotal + s.currCountdownPeriod;
    if ServiceFate(s.timers, s.numTimers, total) != Running {
      TroubleRefines(h, s);
    } else {
      var c := Abs(s.(currCountdown := 1));
      var triggered := Triggered(s.timers, s.numTimers, total);
      assert Inv(Serviced(s)) by { NextCountdown(s); }
      assert Tick(h, c) == Callbacks(h, Abs(Serviced(s)), triggered, 0) by { ClockAtEvent(h, s, c, triggered); }
      CallbacksRefine(h, Serviced(s), Abs(Serviced(s)), triggered, 0);
    }
  }

  /** Between events the plain clock finds nothing to do. */
  lemma {:induction false} QuietTickRefines(h: Handler, s: Wheel)
    requires Inv(s) && !s.halted && s.currCountdown > 1
    ensures Shows(Tick1(h, s), Tick(h, Abs(s)))
  {
    var now := TimeTicks(s) + 1;
    forall i | 0 <= i < s.numTimers
      ensures !Due(s.timers[i], now) && TimerFate(s.timers[i], now) == Running
    {
      assert TimerOk(s.timers[i], s.ticksTotal + s.currCountdownPeriod);
    }
    ServiceFateOf(s.timers, s.numTimers, now);
    assert AdvanceAll(s.timers, s.numTimers, now) == s.timers;
    NothingTriggered(h, Abs(s).(now := now), Triggered(s.timers, s.numTimers, now), 0);
  }

  lemma {:induction false} NothingTriggered(h: Handler, c: Clock, triggered: seq<bool>, i: nat)
    requires Sized(c) && i <= |triggered| && forall k | 0 <= k < |triggered| :: !triggered[k]
    ensures Callbacks(h, c, triggered, i) == c
    decreases |triggered| - i
  {
    if i < |triggered| { NothingTriggered(h, c, triggered, i + 1); }
  }

  /** One tick of the wheel is one tick of the plain clock. */
  lemma {:induction false} TickRefines(h: Handler, s: Wheel)
    requires Inv(s) && !s.halted
    ensures Shows(Tick1(h, s), Tick(h, Abs(s)))
  {
    if s.currCountdown == 1 {
      var s0 := s.(currCountdown := 0);
      assert s0.(currCountdown := 1) == s;
      EventRefines(h, s0);
    } else { QuietTickRefines(h, s); }
  }

  lemma {:induction false} TicksRefine(h: Handler, s: Wheel, n: nat)
    requires SizedWheel(s) && Shows(s, Abs(s))
    ensures Shows(Tick1s(h, s, n), Ticks(h, Abs(s), n))
    ensures !Tick1s(h, s, n).halted ==> TimeTicks(Tick1s(h, s, n)) == TimeTicks(s) + n
    decreases n
  {
    if s.halted {
      HaltedStays(h, s, n);
    } else if n > 0 {
      TickRefines(h, s);
      TicksRefine(h, Tick1(h, s), n - 1);
      if Tick1(h, s).halted { HaltedStays(h, Tick1(h, s), n - 1); }
    }
  }

  lemma {:induction false} HaltedStays(h: Handler, s: Wheel, n: nat)
    requires SizedWheel(s) && s.halted
    ensures Tick1s(h, s, n) == s && Ticks(h, Abs(s), n) == Abs(s)
    decreases n
  {
    if n > 0 { HaltedStays(h, s, n - 1); }
  }

  /** A run of the emulator: ticks and calls from outside, in any order. */
  datatype Step = DoTicks(n: nat) | DoCall(call: Call)

  function RunWheel(h: Handler, s: Wheel, steps: seq<Step>): (r: Wheel)
    requires SizedWheel(s)
    ensures SizedWheel(r)
    decreases |steps|
  {
    if steps == [] then s
    else
      match steps[0]
      case DoTicks(n) => RunWheel(h, Tick1s(h, s, n), steps[1..])
      case DoCall(call) =>
        ApplySized(Abs(s), call);
        RunWheel(h, ApplyWheel(s, call), steps[1..])
  }

  function RunClock(h: Handler, c: Clock, steps: seq<Step>): (r: Clock)
    requires Sized(c)
    decreases |steps|
  {
    if steps == [] then c
    else
      match steps[0]
      case DoTicks(n) => RunClock(h, Ticks(h, c, n), steps[1..])
      case DoCall(call) =>
        ApplySized(c, call);
        RunClock(h, Apply(c, call), steps[1..])
  }

  /** The state after start-up: only the null timer. */
  predicate Initial(s: Wheel) {
    && |s.timers| == MAX_TIMERS && s.numTimers == 1
    && s.timers[0] == Timer(true, NULL_INTERVAL, NULL_INTERVAL, true, true)
    && s.currCountdown == s.currCountdownPeriod == NULL_INTERVAL
    && s.ticksTotal == 0 && s.log == [] && !s.halted
  }

  /** Over every run from start-up the wheel and the plain clock agree on the time,
      on every timer, on the whole sequence of firings and on their fate, and the
      invariant holds unless the run has halted. */
  lemma {:induction false} RunsRefine(h: Handler, s: Wheel, steps: seq<Step>)
    requires Initial(s)
    ensures Sized(Abs(s)) && Shows(RunWheel(h, s, steps), RunClock(h, Abs(s), steps))
  {
    RunsRefineFrom(h, s, steps);
  }

  lemma {:induction false} RunsRefineFrom(h: Handler, s: Wheel, steps: seq<Step>)
    requires SizedWheel(s) && Shows(s, Abs(s))
    ensures Sized(Abs(s)) && Shows(RunWheel(h, s, steps), RunClock(h, Abs(s), steps))
    decreases |steps|
  {
    if steps != [] {
      match steps[0]
      case DoTicks(n) =>
        TicksRefine(h, s, n);
        RunsRefineFrom(h, Tick1s(h, s, n), steps[1..]);
      case DoCall(call) =>
        if s.halted {
          assert ApplyWheel(s, call) == s;
        } else {
          CallRefines(s, call);
        }
        RunsRefineFrom(h, ApplyWheel(s, call), steps[1..]);
    }
  }

  /** No run ever finds a timer overdue or loses its countdown, whatever callbacks do:
      neither the emulator nor the plain clock. */
  lemma {:induction false} PanicUnreachable(h: Handler, s: Wheel, steps: seq<Step>)
    requires Initial(s)
    ensures RunWheel(h, s, steps).fate != Overdue && RunWheel(h, s, steps).fate != CountdownLost
    ensures Sized(Abs(s)) && RunClock(h, Abs(s), steps).fate != Overdue
  {
    RunsRefine(h, s, steps);
  }

  /** In every reachable state the current countdown, a positive 32-bit number, ends no
      later than any active deadline. */
  lemma {:induction false} ReachableInOrder(h: Handler, s: Wheel, steps: seq<Step>, i: nat)
    requires Initial(s)
    ensures var r := RunWheel(h, s, steps);
            !r.halted ==>
              && 1 <= r.currCountdown <= r.currCountdownPeriod < TWO_32
              && (i < r.numTimers && r.timers[i].active ==>
                    TimeTicks(r) < r.ticksTotal + r.currCountdownPeriod <= r.timers[i].timeToFire <= MAX_64)
  {
    RunsRefine(h, s, steps);
    var r := RunWheel(h, s, steps);
    if !r.halted && i < r.numTimers && r.timers[i].active {
      NeverOverdue(r, i);
      assert TimerOk(r.timers[i], r.ticksTotal + r.currCountdownPeriod);
    }
  }
}
