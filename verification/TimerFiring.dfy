/** When a timer fires: a timer nobody touches fires at its deadline, and if it is
    continuous at every further multiple of its period, and at no other time. */
module TimerFiring {
  import opened TimerModel
  import opened TimerRefinement

  /** The times at which timer `id` fired, in order. */
  function FiredTimes(log: seq<Entry>, id: nat): seq<nat> {
    if log == [] then []
    else
      var e := log[|log| - 1];
      FiredTimes(log[..|log| - 1], id) + if e.Fired? && e.id == id then [e.time] else []
  }

  lemma {:induction false} FiredTimesAppend(a: seq<Entry>, b: seq<Entry>, id: nat)
    ensures FiredTimes(a + b, id) == FiredTimes(a, id) + FiredTimes(b, id)
    decreases |b|
  {
    if b == [] {
      assert a + b == a;
    } else {
      var b' := b[..|b| - 1];
      FiredTimesAppend(a, b', id);
      assert (a + b)[..|a + b| - 1] == a + b';
    }
  }

  /** No call was made on slot `id`. */
  predicate Untouched(log: seq<Entry>, id: nat) {
    forall i | 0 <= i < |log| :: log[i].Called? ==> log[i].slot != id
  }

  /** The times a timer with first deadline `t` and period `p` is due up to `until`. */
  function Multiples(t: nat, p: nat, until: nat): seq<nat>
    requires p >= 1
    decreases until + 1 - t
  {
    if t > until then [] else [t] + Multiples(t + p, p, until)
  }

  lemma {:induction false} MultiplesAt(t: nat, p: nat, until: nat, k: nat)
    requires p >= 1 && k < |Multiples(t, p, until)|
    ensures Multiples(t, p, until)[k] == t + k * p <= until
    decreases k
  {
    if k > 0 {
      MultiplesAt(t + p, p, until, k - 1);
      assert Multiples(t, p, until)[k] == Multiples(t + p, p, until)[k - 1];
      assert (t + p) + (k - 1) * p == t + k * p;
    }
  }

  /** The multiples stop only because the next one lies beyond `until`. */
  lemma {:induction false} MultiplesComplete(t: nat, p: nat, until: nat)
    requires p >= 1
    ensures t + |Multiples(t, p, until)| * p > until
    decreases until + 1 - t
  {
    if t <= until {
      MultiplesComplete(t + p, p, until);
      var n := |Multiples(t + p, p, until)|;
      assert (t + p) + n * p == t + (n + 1) * p;
    }
  }

  /** The firing times expected of a timer within the next `n` ticks. */
  function Expected(t: Timer, now: nat, n: nat): seq<nat>
    requires t.active ==> t.period >= 1
  {
    if !t.active then []
    else if t.continuous then Multiples(t.timeToFire, t.period, now + n)
    else if t.timeToFire <= now + n then [t.timeToFire]
    else []
  }

  ghost predicate Pending(t: Timer, now: nat) {
    t.active ==> t.period >= 1 && now < t.timeToFire
  }

  lemma {:induction false} ExpectedStep(t: Timer, now: nat, n: nat)
    requires Pending(t, now) && n >= 1
    ensures Pending(Advance(t, now + 1), now + 1)
    ensures Expected(t, now, n) ==
            (if Due(t, now + 1) then [now + 1] else []) + Expected(Advance(t, now + 1), now + 1, n - 1)
  {
  }

  /** How a stretch of execution may change timer `id`: the log only grows, and
      unless it records a call on `id` the timer is as given. */
  ghost predicate Keeps(c: Clock, r: Clock, id: nat, fired: seq<nat>)
    requires id < |c.timers|
  {
    && c.log <= r.log
    && (!r.halted && Untouched(r.log[|c.log|..], id) ==>
          && id < r.numTimers <= |r.timers|
          && r.timers[id] == c.timers[id]
          && FiredTimes(r.log[|c.log|..], id) == fired)
  }

  lemma {:induction false} KeepsTrans(a: Clock, b: Clock, c: Clock, id: nat, f: seq<nat>, g: seq<nat>)
    requires id < a.numTimers <= |a.timers| && id < |b.timers|
    requires Keeps(a, b, id, f)
    requires b.halted ==> c.halted
    requires b.log <= c.log
    requires id < b.numTimers <= |b.timers| ==> Keeps(b, c, id, g)
    ensures Keeps(a, c, id, f + g)
  {
    var x, y := b.log[|a.log|..], c.log[|b.log|..];
    assert c.log[|a.log|..] == x + y;
    FiredTimesAppend(x, y, id);
    if Untouched(x + y, id) {
      assert forall i | 0 <= i < |x| :: x[i] == (x + y)[i];
      assert forall i | 0 <= i < |y| :: y[i] == (x + y)[|x| + i];
      assert Untouched(x, id) && Untouched(y, id);
    }
  }

  lemma {:induction false} ApplyKeeps(c: Clock, call: Call, id: nat)
    requires Sized(c) && id < c.numTimers
    ensures Keeps(c, Apply(c, call), id, [])
    ensures c.halted ==> Apply(c, call) == c
  {
    var r := Apply(c, call);
    FirstFreeBound(c.timers, c.numTimers, 1);
    if !r.halted {
      var i := Slot(c, call);
      var added := r.log[|c.log|..];
      assert added == [Called(call, i)];
      assert FiredTimes(added[..0], id) == [];
      if Untouched(added, id) {
        assert added[0].slot != id;
      }
    }
  }

  lemma {:induction false} ApplyAllKeeps(c: Clock, calls: seq<Call>, id: nat)
    requires Sized(c)
    ensures c.log <= ApplyAll(c, calls).log
    ensures c.halted ==> ApplyAll(c, calls).halted
    ensures id < c.numTimers ==> Keeps(c, ApplyAll(c, calls), id, [])
    decreases |calls|
  {
    if calls == [] {
      assert c.log[|c.log|..] == [];
    } else {
      var b := Apply(c, calls[0]);
      ApplySized(c, calls[0]);
      ApplyAllKeeps(b, calls[1..], id);
      assert c.log <= b.log;
      if id < c.numTimers {
        ApplyKeeps(c, calls[0], id);
        KeepsTrans(c, b, ApplyAll(b, calls[1..]), id, [], []);
      }
    }
  }

  /** Within one event timer `id` is called back exactly if it was triggered. */
  lemma {:induction false} CallbacksKeep(h: Handler, c: Clock, triggered: seq<bool>, i: nat, id: nat)
    requires Sized(c) && i <= |triggered|
    ensures c.log <= Callbacks(h, c, triggered, i).log
    ensures c.halted ==> Callbacks(h, c, triggered, i).halted
    ensures id < c.numTimers && id < |triggered| ==>
              Keeps(c, Callbacks(h, c, triggered, i), id, if i <= id && triggered[id] then [c.now] else [])
    decreases |triggered| - i
  {
    if c.halted || i == |triggered| || i >= c.numTimers {
      assert c.log[|c.log|..] == [];
    } else if !triggered[i] {
      CallbacksKeep(h, c, triggered, i + 1, id);
    } else if c.timers[i].inUse {
      var c1 := c.(log := c.log + [Fired(c.now, i)]);
      var c2 := ApplyAll(c1, h(i, c));
      ApplyAllKeeps(c1, h(i, c), id);
      if c2.numTimers <= |triggered| {
        CallbacksKeep(h, c2, triggered, i + 1, id);
        if id < c.numTimers && id < |triggered| {
          FiredKeeps(c, i, id);
          var mine: seq<nat> := if i == id then [c.now] else [];
          KeepsTrans(c, c1, c2, id, mine, []);
          var rest: seq<nat> := if i + 1 <= id && triggered[id] then [c.now] else [];
          KeepsTrans(c, c2, Callbacks(h, c2, triggered, i + 1), id, mine + [], rest);
        }
      }
    }
  }

  lemma {:induction false} FiredKeeps(c: Clock, i: nat, id: nat)
    requires Sized(c) && id < c.numTimers
    ensures Keeps(c, c.(log := c.log + [Fired(c.now, i)]), id, if i == id then [c.now] else [])
  {
  }

  /** One tick: timer `id` moves past the new time, and fires if it was due. */
  lemma {:induction false} TickKeeps(h: Handler, c: Clock, id: nat)
    requires Sized(c) && id < c.numTimers && !c.halted
    ensures var moved := c.(timers := AdvanceAll(c.timers, c.numTimers, c.now + 1));
            Keeps(moved, Tick(h, c), id, if Due(c.timers[id], c.now + 1) then [c.now + 1] else [])
  {
    var now := c.now + 1;
    var moved := c.(now := now, timers := AdvanceAll(c.timers, c.numTimers, now));
    if ServiceFate(c.timers, c.numTimers, now) != Running {
      assert c.log <= Tick(h, c).log;
    } else {
      CallbacksKeep(h, moved, Triggered(c.timers, c.numTimers, now), 0, id);
    }
  }

  lemma {:induction false} TickGrows(h: Handler, c: Clock)
    requires Sized(c)
    ensures c.log <= Tick(h, c).log
    ensures c.halted ==> Tick(h, c) == c
  {
    var now := c.now + 1;
    if !c.halted && ServiceFate(c.timers, c.numTimers, now) == Running {
      CallbacksKeep(h, c.(now := now, timers := AdvanceAll(c.timers, c.numTimers, now)),
                    Triggered(c.timers, c.numTimers, now), 0, 0);
    }
  }

  /** Splitting what was logged since `a` at an earlier point `b`. */
  lemma {:induction false} SplitLog(a: seq<Entry>, b: seq<Entry>, c: seq<Entry>, id: nat)
    requires a <= b <= c
    ensures FiredTimes(c[|a|..], id) == FiredTimes(b[|a|..], id) + FiredTimes(c[|b|..], id)
    ensures Untouched(c[|a|..], id) ==> Untouched(b[|a|..], id) && Untouched(c[|b|..], id)
  {
    var x, y := b[|a|..], c[|b|..];
    assert c[|a|..] == x + y;
    assert forall i | 0 <= i < |x| :: x[i] == (x + y)[i];
    assert forall i | 0 <= i < |y| :: y[i] == (x + y)[|x| + i];
    FiredTimesAppend(x, y, id);
  }

  /** `b` is one tick after `c` as far as timer `id` is concerned. */
  ghost predicate TickedTo(c: Clock, b: Clock, id: nat)
    requires id < |c.timers|
  {
    && c.log <= b.log
    && b.now == c.now + 1
    && (Untouched(b.log[|c.log|..], id) ==>
          && id < b.numTimers <= |b.timers|
          && b.timers[id] == Advance(c.timers[id], c.now + 1)
          && FiredTimes(b.log[|c.log|..], id) == if Due(c.timers[id], c.now + 1) then [c.now + 1] else [])
  }

  lemma {:induction false} OneTick(h: Handler, c: Clock, id: nat)
    requires Sized(c) && id < c.numTimers && !c.halted && !Tick(h, c).halted
    ensures TickedTo(c, Tick(h, c), id)
  {
    TickKeeps(h, c, id);
  }

  // ---------------------------------------------------------------------
  // Whole runs
  // ---------------------------------------------------------------------

  function TotalTicks(steps: seq<Step>): nat {
    if steps == [] then 0
    else (if steps[0].DoTicks? then steps[0].n else 0) + TotalTicks(steps[1..])
  }

  /** What is left of a run after its first tick, or after its first step if that is a
      call or no ticks. */
  function Rest(steps: seq<Step>): seq<Step>
    requires steps != []
  {
    if steps[0].DoTicks? && steps[0].n > 0 then [DoTicks(steps[0].n - 1)] + steps[1..] else steps[1..]
  }

  /** The clock after that first tick or step. */
  function FirstStep(h: Handler, c: Clock, steps: seq<Step>): Clock
    requires Sized(c) && steps != []
  {
    match steps[0]
    case DoTicks(n) => if n == 0 then c else Tick(h, c)
    case DoCall(call) => Apply(c, call)
  }

  lemma {:induction false} RunByTicks(h: Handler, c: Clock, steps: seq<Step>)
    requires Sized(c) && steps != []
    ensures var b := FirstStep(h, c, steps);
            && Sized(b) && c.log <= b.log && (c.halted ==> b == c)
            && RunClock(h, c, steps) == RunClock(h, b, Rest(steps))
    ensures TotalTicks(steps) == TotalTicks(Rest(steps)) + if steps[0].DoTicks? && steps[0].n > 0 then 1 else 0
  {
    match steps[0]
    case DoTicks(n) =>
      TickGrows(h, c);
      if n > 0 {
        assert Rest(steps)[1..] == steps[1..];
      }
    case DoCall(call) =>
      ApplySized(c, call);
  }

  lemma {:induction false} RunGrows(h: Handler, c: Clock, steps: seq<Step>)
    requires Sized(c)
    ensures c.log <= RunClock(h, c, steps).log
    ensures c.halted ==> RunClock(h, c, steps) == c
    decreases |steps|, if steps != [] && steps[0].DoTicks? then steps[0].n else 0
  {
    if steps != [] {
      RunByTicks(h, c, steps);
      RunGrows(h, FirstStep(h, c, steps), Rest(steps));
    }
  }

  /** A run that is not halted advances the time by its ticks. */
  lemma {:induction false} RunTime(h: Handler, c: Clock, steps: seq<Step>)
    requires Sized(c) && !RunClock(h, c, steps).halted
    ensures RunClock(h, c, steps).now == c.now + TotalTicks(steps)
    decreases |steps|, if steps != [] && steps[0].DoTicks? then steps[0].n else 0
  {
    if steps != [] {
      var b := FirstStep(h, c, steps);
      RunByTicks(h, c, steps);
      RunGrows(h, b, Rest(steps));
      RunTime(h, b, Rest(steps));
      if steps[0].DoCall? { ApplySized(c, steps[0].call); }
    }
  }

  /** Between `c` and `r`, `n` ticks later, timer `id` fired as expected unless it
      was touched. */
  ghost predicate FiredAsExpected(c: Clock, r: Clock, id: nat, n: nat)
    requires id < |c.timers| && Pending(c.timers[id], c.now)
  {
    && c.log <= r.log
    && (!r.halted && Untouched(r.log[|c.log|..], id) ==>
          FiredTimes(r.log[|c.log|..], id) == Expected(c.timers[id], c.now, n))
  }

  /** Timer `id` is as it was in `c`. */
  ghost predicate Left(c: Clock, b: Clock, id: nat)
    requires id < |c.timers|
  {
    b.now == c.now && id < b.numTimers <= |b.timers| && b.timers[id] == c.timers[id]
  }

  lemma {:induction false} PrependTick(h: Handler, c: Clock, r: Clock, id: nat, n: nat)
    requires Sized(c) && id < c.numTimers && Pending(c.timers[id], c.now) && n >= 1 && !c.halted
    requires var b := Tick(h, c);
             && b.log <= r.log && (b.halted ==> r.halted)
             && (!b.halted && id < b.numTimers && Pending(b.timers[id], b.now) ==> FiredAsExpected(b, r, id, n - 1))
    ensures FiredAsExpected(c, r, id, n)
  {
    var b := Tick(h, c);
    TickGrows(h, c);
    SplitLog(c.log, b.log, r.log, id);
    ExpectedStep(c.timers[id], c.now, n);
    if !b.halted { OneTick(h, c, id); }
  }

  lemma {:induction false} PrependCall(c: Clock, call: Call, r: Clock, id: nat, n: nat)
    requires Sized(c) && id < c.numTimers && Pending(c.timers[id], c.now) && !c.halted
    requires var b := Apply(c, call);
             && b.log <= r.log && (b.halted ==> r.halted)
             && (Left(c, b, id) ==> FiredAsExpected(b, r, id, n))
    ensures FiredAsExpected(c, r, id, n)
  {
    var b := Apply(c, call);
    ApplySized(c, call);
    ApplyKeeps(c, call, id);
    SplitLog(c.log, b.log, r.log, id);
  }

  /** On the plain clock, in every run in which no call is made on a timer, whatever is
      called on others, it fires exactly at the expected times. */
  lemma {:induction false} ClockFiresExactly(h: Handler, c: Clock, steps: seq<Step>, id: nat)
    requires Sized(c) && id < c.numTimers && Pending(c.timers[id], c.now)
    ensures FiredAsExpected(c, RunClock(h, c, steps), id, TotalTicks(steps))
    decreases |steps|, if steps != [] && steps[0].DoTicks? then steps[0].n else 0
  {
    RunGrows(h, c, steps);
    if steps == [] {
      assert c.log[|c.log|..] == [];
    } else if !c.halted {
      var b, r := FirstStep(h, c, steps), RunClock(h, c, steps);
      RunByTicks(h, c, steps);
      RunGrows(h, b, Rest(steps));
      if id < b.numTimers && Pending(b.timers[id], b.now) {
        ClockFiresExactly(h, b, Rest(steps), id);
      }
      match steps[0]
      case DoTicks(n) =>
        if n > 0 { PrependTick(h, c, r, id, TotalTicks(steps)); }
      case DoCall(call) =>
        PrependCall(c, call, r, id, TotalTicks(steps));
    }
  }

  /** The log of a run only grows, so "since then" is well defined. */
  lemma {:induction false} LogGrows(h: Handler, s: Wheel, steps: seq<Step>)
    requires Inv(s) && !s.halted
    ensures s.log <= RunWheel(h, s, steps).log
  {
    RunsRefineFrom(h, s, steps);
    RunGrows(h, Abs(s), steps);
  }

  /** What was logged within a run. */
  function LoggedSince(h: Handler, s: Wheel, steps: seq<Step>): seq<Entry>
    requires Inv(s) && !s.halted
  {
    LogGrows(h, s, steps);
    RunWheel(h, s, steps).log[|s.log|..]
  }

  /** The same for the wheel: from every good state, in every run of ticks and calls that
      leaves a timer alone, the timer fires at its deadline, if continuous at every later
      multiple of its period, and at no other time. */
  lemma {:induction false} FiresExactly(h: Handler, s: Wheel, steps: seq<Step>, id: nat)
    requires Inv(s) && id < s.numTimers && !s.halted && !RunWheel(h, s, steps).halted
    requires Untouched(LoggedSince(h, s, steps), id)
    ensures s.timers[id].active ==> s.timers[id].period >= 1
    ensures FiredTimes(LoggedSince(h, s, steps), id) == Expected(s.timers[id], TimeTicks(s), TotalTicks(steps))
    ensures TimeTicks(RunWheel(h, s, steps)) == TimeTicks(s) + TotalTicks(steps)
  {
    if s.timers[id].active {
      NeverOverdue(s, id);
      assert TimerOk(s.timers[id], s.ticksTotal + s.currCountdownPeriod);
    }
    RunsRefineFrom(h, s, steps);
    RunTime(h, Abs(s), steps);
    ClockFiresExactly(h, Abs(s), steps, id);
    assert FiredAsExpected(Abs(s), Abs(RunWheel(h, s, steps)), id, TotalTicks(steps));
  }

  /** In particular within `n` ticks. */
  lemma {:induction false} FiresWithin(h: Handler, s: Wheel, n: nat, id: nat)
    requires Inv(s) && id < s.numTimers && !s.halted
    requires !Tick1s(h, s, n).halted && Untouched(LoggedSince(h, s, [DoTicks(n)]), id)
    ensures RunWheel(h, s, [DoTicks(n)]) == Tick1s(h, s, n)
    ensures s.timers[id].active ==> s.timers[id].period >= 1
    ensures FiredTimes(LoggedSince(h, s, [DoTicks(n)]), id) == Expected(s.timers[id], TimeTicks(s), n)
  {
    assert [DoTicks(n)][1..] == [];
    FiresExactly(h, s, [DoTicks(n)], id);
  }

  /** From start-up: after any run, over any further one. */
  lemma {:induction false} FiresExactlyAfter(h: Handler, s: Wheel, before: seq<Step>, steps: seq<Step>, id: nat)
    requires Initial(s)
    ensures var now := RunWheel(h, s, before);
            !now.halted && id < now.numTimers ==>
              && Inv(now) && (now.timers[id].active ==> now.timers[id].period >= 1)
              && (!RunWheel(h, now, steps).halted && Untouched(LoggedSince(h, now, steps), id) ==>
                    FiredTimes(LoggedSince(h, now, steps), id) ==
                      Expected(now.timers[id], TimeTicks(now), TotalTicks(steps)))
  {
    RunsRefine(h, s, before);
    var now := RunWheel(h, s, before);
    if !now.halted && id < now.numTimers {
      assert now.timers[id].active ==> TimerOk(now.timers[id], now.ticksTotal + now.currCountdownPeriod);
      if !RunWheel(h, now, steps).halted && Untouched(LoggedSince(h, now, steps), id) {
        FiresExactly(h, now, steps, id);
      }
    }
  }
}
