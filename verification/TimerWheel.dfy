/** The emulator's clock object: the timer table, the countdown and the methods
    that update them in place. */
module TimerWheel {
  import opened Words
  import opened TimerModel
  import opened TimerRefinement

  /** Halted for the same reason, or equal. */
  ghost predicate SameUnlessHalted(a: Wheel, b: Wheel) {
    a.fate == b.fate && (a.fate == Running ==> a == b)
  }

  /** The first trouble decides. */
  lemma {:induction false} ServiceStops(ts: seq<Timer>, i: nat, n: nat, now: nat)
    requires i < n <= |ts| && ServiceFate(ts, i, now) == Running && TimerFate(ts[i], now) != Running
    ensures ServiceFate(ts, n, now) == TimerFate(ts[i], now)
    decreases n
  {
    if i + 1 < n { ServiceStops(ts, i, n - 1, now); }
  }

  class PcSystem {
    const handler: Handler
    const timer: array<Timer>
    var numTimers: nat
    var currCountdown: nat
    var currCountdownPeriod: nat
    var ticksTotal: nat
    var lastTimeUsec: nat
    var usecSinceLast: nat
    /** What devices have seen so far; callbacks may depend on it. */
    var log: seq<Entry>
    var fate: Fate

    function State(): Wheel
      reads this, timer
    {
      Wheel(timer[..], numTimers, currCountdown, currCountdownPeriod, ticksTotal, log, fate)
    }

    ghost predicate Valid()
      reads this, timer
    {
      Inv(State()) && fate == Running
    }

    /** Construction followed by `initialize`. */
    constructor (handler: Handler)
      ensures Initial(State()) && Valid() && fresh(timer)
      ensures this.handler == handler && lastTimeUsec == 0 && usecSinceLast == 0
    {
      this.handler := handler;
      timer := new Timer[MAX_TIMERS](_ => Timer(false, 0, 0, false, false));
      numTimers, ticksTotal, currCountdown, currCountdownPeriod := 1, 0, NULL_INTERVAL, NULL_INTERVAL;
      lastTimeUsec, usecSinceLast, log, fate := 0, 0, [], Running;
      new;
      timer[0] := Timer(true, NULL_INTERVAL, NULL_INTERVAL, true, true);
    }

    method TimeTicksNow() returns (t: nat)
      requires SizedWheel(State())
      ensures t == TimeTicks(State())
    {
      t := ticksTotal + (currCountdownPeriod - currCountdown);
    }

    method RegisterTimerTicks(ticks0: nat, continuous: bool, active: bool) returns (id: nat)
      requires SizedWheel(State()) && fate == Running
      modifies this`numTimers, this`currCountdown, this`currCountdownPeriod, this`log, this`fate, timer
      ensures State() == ApplyWheel(old(State()), Register(ticks0, continuous, active))
      ensures fate == Running ==> id == Slot(old(Abs(State())), Register(ticks0, continuous, active))
    {
      var ticks := if ticks0 < MIN_PERIOD then MIN_PERIOD else ticks0;
      id := 1;
      while id < numTimers && timer[id].inUse
        invariant 1 <= id <= numTimers
        invariant FirstFree(timer[..], numTimers, 1) == FirstFree(timer[..], numTimers, id)
      {
        id := id + 1;
      }
      var now := ticksTotal + (currCountdownPeriod - currCountdown);
      if numTimers >= MAX_TIMERS {
        fate := Refused;
        return;
      }
      if now + ticks > MAX_64 {
        fate := DeadlineTooLarge;
        return;
      }
      timer[id] := Timer(true, ticks, now + ticks, active, continuous);
      if active {
        if ticks < currCountdown {
          currCountdownPeriod := currCountdownPeriod - (currCountdown - ticks);
          currCountdown := ticks;
        }
      }
      if id == numTimers {
        numTimers := numTimers + 1;
      }
      log := log + [Called(Register(ticks0, continuous, active), id)];
    }

    method ActivateTimerTicks(i: nat, ticks0: nat, continuous: bool)
      requires SizedWheel(State()) && fate == Running
      modifies this`currCountdown, this`currCountdownPeriod, this`log, this`fate, timer
      ensures State() == ApplyWheel(old(State()), Activate(i, ticks0, continuous))
    {
      var ticks := if ticks0 < MIN_PERIOD then MIN_PERIOD else ticks0;
      var now := ticksTotal + (currCountdownPeriod - currCountdown);
      if i >= numTimers || i == 0 || timer[i].period < MIN_PERIOD {
        fate := Refused;
        return;
      }
      if now + ticks > MAX_64 {
        fate := DeadlineTooLarge;
        return;
      }
      timer[i] := timer[i].(period := ticks, timeToFire := now + ticks, active := true, continuous := continuous);
      if ticks < currCountdown {
        currCountdownPeriod := currCountdownPeriod - (currCountdown - ticks);
        currCountdown := ticks;
      }
      log := log + [Called(Activate(i, ticks0, continuous), i)];
    }

    method DeactivateTimer(i: nat)
      requires SizedWheel(State()) && fate == Running
      modifies this`log, this`fate, timer
      ensures State() == ApplyWheel(old(State()), Deactivate(i))
    {
      if i >= numTimers || i == 0 {
        fate := Refused;
        return;
      }
      timer[i] := timer[i].(active := false);
      log := log + [Called(Deactivate(i), i)];
    }

    method UnregisterTimer(i: nat)
      requires SizedWheel(State()) && fate == Running
      modifies this`numTimers, this`log, this`fate, timer
      ensures State() == ApplyWheel(old(State()), Unregister(i))
    {
      if i >= numTimers || i == 0 || !timer[i].inUse || timer[i].active {
        fate := Refused;
        return;
      }
      timer[i] := Timer(false, MAX_SIGNED_64, MAX_SIGNED_64, false, false);
      if i == numTimers - 1 {
        numTimers := numTimers - 1;
      }
      log := log + [Called(Unregister(i), i)];
    }

    method Perform(call: Call)
      requires SizedWheel(State()) && fate == Running
      modifies this`numTimers, this`currCountdown, this`currCountdownPeriod, this`log, this`fate, timer
      ensures State() == ApplyWheel(old(State()), call)
      ensures SizedWheel(State())
    {
      ApplySized(Abs(State()), call);
      match call
      case Register(ticks, continuous, active) =>
        var _ := RegisterTimerTicks(ticks, continuous, active);
      case Activate(id, ticks, continuous) => ActivateTimerTicks(id, ticks, continuous);
      case Deactivate(id) => DeactivateTimer(id);
      case Unregister(id) => UnregisterTimer(id);
    }

    /** One timer callback. */
    method Invoke(calls: seq<Call>)
      requires SizedWheel(State()) && fate == Running
      modifies this`numTimers, this`currCountdown, this`currCountdownPeriod, this`log, this`fate, timer
      ensures State() == ApplyAllWheel(old(State()), calls)
    {
      var k := 0;
      while k < |calls| && fate == Running
        invariant k <= |calls| && SizedWheel(State())
        invariant ApplyAllWheel(State(), calls[k..]) == ApplyAllWheel(old(State()), calls)
      {
        assert calls[k..][1..] == calls[k + 1..];
        Perform(calls[k]);
        k := k + 1;
      }
      if fate != Running {
        HaltedCalls(State(), calls[k..]);
      }
    }

    lemma {:induction false} HaltedCalls(s: Wheel, calls: seq<Call>)
      requires SizedWheel(s) && s.halted
      ensures ApplyAllWheel(s, calls) == s
      decreases |calls|
    {
      if calls != [] { HaltedCalls(s, calls[1..]); }
    }

    /** The countdown has reached 0. */
    method CountdownEvent()
      requires AtEvent(State()) && fate == Running
      modifies this, timer
      ensures SameUnlessHalted(State(), TimerModel.CountdownEvent(handler, old(State())))
      ensures unchanged(`lastTimeUsec) && unchanged(`usecSinceLast)
    {
      var triggered := ServiceTimers();
      if fate == Running {
        CallTriggered(triggered);
      }
    }

    /** Handles one timer of an event at time `ticksTotal`. */
    method ServiceOne(i: nat, min: nat) returns (fires: bool, min': nat)
      requires i < timer.Length && fate == Running
      modifies this`fate, timer
      ensures fate == TimerFate(old(timer[i]), ticksTotal)
      ensures fate == Running ==>
                && timer[..] == old(timer[..])[i := Advance(old(timer[i]), ticksTotal)]
                && fires == Due(old(timer[i]), ticksTotal)
                && min' == if timer[i].active && timer[i].timeToFire < min then timer[i].timeToFire else min
    {
      fires, min' := false, min;
      if timer[i].active {
        if ticksTotal > timer[i].timeToFire {
          fate := Overdue;
          return;
        }
        if ticksTotal == timer[i].timeToFire {
          fires := true;
          if !timer[i].continuous {
            timer[i] := timer[i].(active := false);
          } else {
            if timer[i].timeToFire + timer[i].period > MAX_64 {
              fate := DeadlineTooLarge;
              return;
            }
            timer[i] := timer[i].(timeToFire := timer[i].timeToFire + timer[i].period);
            if timer[i].timeToFire < min' {
              min' := timer[i].timeToFire;
            }
          }
        } else {
          if timer[i].timeToFire < min' {
            min' := timer[i].timeToFire;
          }
        }
      }
    }

    /** The loop that moves every due timer on and finds the next deadline. */
    method ServiceAll() returns (triggered: seq<bool>, minTimeToFire: nat)
      requires numTimers <= timer.Length && fate == Running
      modifies this`fate, timer
      ensures fate == ServiceFate(old(timer[..]), numTimers, ticksTotal)
      ensures fate == Running ==>
                Servicing(old(timer[..]), numTimers, ticksTotal, timer[..], triggered, minTimeToFire)
    {
      ghost var ts := timer[..];
      minTimeToFire := MAX_64;
      triggered := [];
      for i := 0 to numTimers
        invariant fate == Running
        invariant Servicing(ts, i, ticksTotal, timer[..], triggered, minTimeToFire)
      {
        ghost var before, min := timer[..], minTimeToFire;
        assert before[i] == ts[i];
        var fires;
        fires, minTimeToFire := ServiceOne(i, minTimeToFire);
        if fate != Running {
          ServiceStops(ts, i, numTimers, ticksTotal);
          return;
        }
        ServicingStep(ts, i, ticksTotal, before, triggered, min, minTimeToFire);
        triggered := triggered + [fires];
      }
    }

    /** Services the timers and starts the next countdown. */
    method ServiceTimers() returns (triggered: seq<bool>)
      requires SizedWheel(State()) && fate == Running
      modifies this`ticksTotal, this`currCountdown, this`currCountdownPeriod, this`fate, timer
      ensures fate == ServiceFate(old(timer[..]), numTimers, old(ticksTotal + currCountdownPeriod))
      ensures fate == Running ==>
                && State() == Serviced(old(State()))
                && triggered == Triggered(old(timer[..]), numTimers, old(ticksTotal + currCountdownPeriod))
    {
      ghost var s := State();
      ticksTotal := ticksTotal + currCountdownPeriod;
      var minTimeToFire;
      triggered, minTimeToFire := ServiceAll();
      if fate != Running {
        return;
      }
      ServicedIs(s, timer[..], triggered, minTimeToFire);
      currCountdownPeriod := U32(minTimeToFire - ticksTotal);
      currCountdown := currCountdownPeriod;
    }

    /** Invokes the callback of timer `i` if it was triggered. */
    method CallOne(triggered: seq<bool>, i: nat)
      requires SizedWheel(State()) && fate == Running && i < numTimers <= |triggered|
      modifies this`numTimers, this`currCountdown, this`currCountdownPeriod, this`log, this`fate, timer
      ensures SizedWheel(State()) && (fate == Running ==> numTimers <= |triggered|)
      ensures CallbacksWheel(handler, State(), triggered, i + 1) == CallbacksWheel(handler, old(State()), triggered, i)
    {
      if triggered[i] {
        if !timer[i].inUse {
          fate := CallbackGone;
          return;
        }
        var calls := handler(i, Abs(State()));
        log := log + [Fired(ticksTotal + (currCountdownPeriod - currCountdown), i)];
        Invoke(calls);
        if fate == Running && numTimers > |triggered| {
          fate := FlagUnwritten;
        }
      }
    }

    /** Invokes the callbacks of the triggered timers in slot order. */
    method CallTriggered(triggered: seq<bool>)
      requires SizedWheel(State()) && fate == Running && numTimers == |triggered|
      modifies this`numTimers, this`currCountdown, this`currCountdownPeriod, this`log, this`fate, timer
      ensures State() == CallbacksWheel(handler, old(State()), triggered, 0)
    {
      var i := 0;
      while i < numTimers && fate == Running
        invariant i <= |triggered| && SizedWheel(State()) && (fate == Running ==> numTimers <= |triggered|)
        invariant CallbacksWheel(handler, State(), triggered, i) == CallbacksWheel(handler, old(State()), triggered, 0)
        decreases |triggered| - i
      {
        CallOne(triggered, i);
        i := i + 1;
      }
    }

    method Tick1()
      requires Valid()
      modifies this, timer
      ensures SameUnlessHalted(State(), TimerModel.Tick1(handler, old(State())))
      ensures fate == Running ==> Valid() && TimeTicks(State()) == TimeTicks(old(State())) + 1
      ensures unchanged(`lastTimeUsec) && unchanged(`usecSinceLast)
    {
      TickRefines(handler, State());
      ghost var s := State();
      currCountdown := currCountdown - 1;
      if currCountdown == 0 {
        assert State().(currCountdown := 1) == s;
        CountdownEvent();
      }
    }

    /** Runs to the end of the countdown, leaving `n'` of `n` ticks. */
    method TickToEvent(n: nat) returns (n': nat)
      requires Valid() && currCountdown <= n
      modifies this, timer
      ensures n' == n - old(currCountdown) < n
      ensures fate != Running ==> Tick1s(handler, old(State()), n).fate == fate
      ensures fate == Running ==> Valid() && Tick1s(handler, State(), n') == Tick1s(handler, old(State()), n)
      ensures unchanged(`lastTimeUsec) && unchanged(`usecSinceLast)
    {
      ghost var s := State();
      SkipToEvent(handler, s, n);
      n' := n - currCountdown;
      currCountdown := 0;
      assert State() == s.(currCountdown := 0);
      EventRefines(handler, State());
      CountdownEvent();
      ghost var r := TimerModel.CountdownEvent(handler, s.(currCountdown := 0));
      if r.halted {
        HaltedStays(handler, r, n');
      }
    }

    /** Skipping `n` ticks at once is the same as `n` single ticks. */
    method TickN(n0: nat)
      requires Valid() && n0 < TWO_32
      modifies this, timer
      ensures SameUnlessHalted(State(), Tick1s(handler, old(State()), n0))
      ensures fate == Running ==> Valid() && TimeTicks(State()) == TimeTicks(old(State())) + n0
      ensures unchanged(`lastTimeUsec) && unchanged(`usecSinceLast)
    {
      var n: nat := n0;
      TicksRefine(handler, State(), n0);
      while n >= currCountdown && fate == Running
        invariant fate == Running ==> Valid() && Tick1s(handler, State(), n) == Tick1s(handler, old(State()), n0)
        invariant fate != Running ==> Tick1s(handler, old(State()), n0).fate == fate
        invariant unchanged(`lastTimeUsec) && unchanged(`usecSinceLast)
        decreases n
      {
        n := TickToEvent(n);
      }
      if fate == Running {
        QuietTicks(handler, State(), n);
        currCountdown := currCountdown - n;
      }
    }

    /** Each reading is one more than the larger of the previous reading and the
        current time. */
    method TimeUsecSequential(thisTimeUsec: nat) returns (r: nat)
      requires lastTimeUsec <= thisTimeUsec
      modifies this`lastTimeUsec, this`usecSinceLast
      ensures r == Reading(old(lastTimeUsec + usecSinceLast), thisTimeUsec)
      ensures lastTimeUsec == thisTimeUsec && lastTimeUsec + usecSinceLast == r
    {
      if thisTimeUsec != lastTimeUsec {
        var diffUsec := thisTimeUsec - lastTimeUsec;
        lastTimeUsec := thisTimeUsec;
        if diffUsec >= usecSinceLast {
          usecSinceLast := 0;
        } else {
          usecSinceLast := usecSinceLast - diffUsec;
        }
      }
      usecSinceLast := usecSinceLast + 1;
      r := thisTimeUsec + usecSinceLast;
    }
  }

  function Reading(previous: nat, now: nat): nat {
    (if now > previous then now else previous) + 1
  }

  /** The readings taken at these times, the last one before them being `previous`. */
  function Readings(previous: nat, times: seq<nat>): seq<nat>
    decreases |times|
  {
    if times == [] then []
    else
      var r := Reading(previous, times[0]);
      [r] + Readings(r, times[1..])
  }

  /** Over any sequence of calls the readings strictly increase, even while the time
      stands still, and never lag behind the time; none is later than that demands. */
  lemma {:induction false} ReadingsIncrease(previous: nat, times: seq<nat>)
    ensures var rs := Readings(previous, times);
            && |rs| == |times|
            && (forall i | 0 <= i < |rs| :: previous < rs[i] && times[i] < rs[i])
            && (forall i, j | 0 <= i < j < |rs| :: rs[i] < rs[j])
            && (forall i | 0 <= i < |rs| ::
                  rs[i] == times[i] + 1 || rs[i] == (if i == 0 then previous else rs[i - 1]) + 1)
    decreases |times|
  {
    if times != [] {
      var r := Reading(previous, times[0]);
      ReadingsIncrease(r, times[1..]);
      var rs, rest := Readings(previous, times), Readings(r, times[1..]);
      forall i | 0 < i < |rs| ensures rs[i] == times[i] + 1 || rs[i] == rs[i - 1] + 1 {
        assert rs[i] == rest[i - 1] && times[i] == times[1..][i - 1] && rs[i - 1] == ([r] + rest)[i - 1];
      }
    }
  }

  /** Ticks that do not reach the end of the countdown only decrement it. */
  lemma {:induction false} QuietTicks(h: Handler, s: Wheel, n: nat)
    requires SizedWheel(s) && !s.halted && n < s.currCountdown
    ensures Tick1s(h, s, n) == s.(currCountdown := s.currCountdown - n)
    decreases n
  {
    if n > 0 { QuietTicks(h, TimerModel.Tick1(h, s), n - 1); }
  }

  /** Ticks that reach the end of the countdown: a quiet stretch, then the event. */
  lemma {:induction false} SkipToEvent(h: Handler, s: Wheel, n: nat)
    requires SizedWheel(s) && !s.halted && 1 <= s.currCountdown <= n
    ensures Tick1s(h, s, n) ==
            Tick1s(h, TimerModel.CountdownEvent(h, s.(currCountdown := 0)), n - s.currCountdown)
    decreases s.currCountdown
  {
    if s.currCountdown > 1 {
      var s' := s.(currCountdown := s.currCountdown - 1);
      assert TimerModel.Tick1(h, s) == s';
      SkipToEvent(h, s', n - 1);
      assert s'.(currCountdown := 0) == s.(currCountdown := 0);
    }
  }
}
