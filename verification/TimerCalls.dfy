/** What the calls promise about firing, from their arguments and the time they are made:
    the laws hold over every run of ticks and calls that leaves the slot alone. */
module TimerCalls {
  import opened TimerModel
  import opened TimerRefinement
  import opened TimerFiring

  // ---------------------------------------------------------------------
  // Slots beyond the bound
  // ---------------------------------------------------------------------

  /** Slot `id` lies beyond the bound, does so afterwards unless a call was made on it, and
      did not fire. */
  ghost predicate Silent(c: Clock, r: Clock, id: nat) {
    && c.log <= r.log
    && (Untouched(r.log[|c.log|..], id) ==> r.numTimers <= id && FiredTimes(r.log[|c.log|..], id) == [])
  }

  lemma {:induction false} SilentSame(c: Clock, r: Clock, id: nat)
    requires r.log == c.log && r.numTimers == c.numTimers <= id
    ensures Silent(c, r, id)
  {
    assert r.log[|c.log|..] == [];
  }

  lemma {:induction false} SilentTrans(a: Clock, b: Clock, c: Clock, id: nat)
    requires Silent(a, b, id) && b.log <= c.log && (b.numTimers <= id ==> Silent(b, c, id))
    ensures Silent(a, c, id)
  {
    SplitLog(a.log, b.log, c.log, id);
  }

  lemma {:induction false} ApplySilent(c: Clock, call: Call, id: nat)
    requires Sized(c) && c.numTimers <= id
    ensures Silent(c, Apply(c, call), id)
  {
    var r := Apply(c, call);
    FirstFreeBound(c.timers, c.numTimers, 1);
    if c.halted || CallFate(c, call) != Running {
      SilentSame(c, r, id);
    } else {
      var added := r.log[|c.log|..];
      assert added == [Called(call, Slot(c, call))];
      assert FiredTimes(added[..0], id) == [];
      if Untouched(added, id) { assert added[0].slot != id; }
    }
  }

  lemma {:induction false} ApplyAllSilent(c: Clock, calls: seq<Call>, id: nat)
    requires Sized(c) && c.numTimers <= id
    ensures Silent(c, ApplyAll(c, calls), id)
    decreases |calls|
  {
    if calls == [] {
      SilentSame(c, c, id);
    } else {
      var b := Apply(c, calls[0]);
      ApplySized(c, calls[0]);
      ApplySilent(c, calls[0], id);
      ApplyAllKeeps(b, calls[1..], id);
      if b.numTimers <= id { ApplyAllSilent(b, calls[1..], id); }
      SilentTrans(c, b, ApplyAll(b, calls[1..]), id);
    }
  }

  lemma {:induction false} FiredSilent(c: Clock, i: nat, id: nat)
    requires i < c.numTimers <= id
    ensures Silent(c, c.(log := c.log + [Fired(c.now, i)]), id)
  {
    var added := (c.log + [Fired(c.now, i)])[|c.log|..];
    assert added == [Fired(c.now, i)];
    assert FiredTimes(added[..0], id) == [];
  }

  lemma {:induction false} CallbacksSilent(h: Handler, c: Clock, triggered: seq<bool>, i: nat, id: nat)
    requires Sized(c) && i <= |triggered| && c.numTimers <= id
    ensures Silent(c, Callbacks(h, c, triggered, i), id)
    decreases |triggered| - i
  {
    if c.halted || i == |triggered| || i >= c.numTimers {
      SilentSame(c, c, id);
    } else if !triggered[i] {
      CallbacksSilent(h, c, triggered, i + 1, id);
    } else if !c.timers[i].inUse {
      SilentSame(c, c.(fate := CallbackGone), id);
    } else {
      CallbackSilent(h, c, triggered, i, id);
    }
  }

  lemma {:induction false} CallbackSilent(h: Handler, c: Clock, triggered: seq<bool>, i: nat, id: nat)
    requires Sized(c) && i < |triggered| && i < c.numTimers <= id
    requires !c.halted && triggered[i] && c.timers[i].inUse
    ensures Silent(c, Callbacks(h, c, triggered, i), id)
    decreases |triggered| - i, 0
  {
    var c1 := c.(log := c.log + [Fired(c.now, i)]);
    var c2 := ApplyAll(c1, h(i, c));
    FiredSilent(c, i, id);
    ApplyAllSilent(c1, h(i, c), id);
    SilentTrans(c, c1, c2, id);
    var r := Callbacks(h, c, triggered, i);
    CallbacksKeep(h, c2, triggered, i + 1, id);
    if !c2.halted && c2.numTimers > |triggered| {
      if c2.numTimers <= id { SilentSame(c2, r, id); }
    } else if c2.numTimers <= id {
      CallbacksSilent(h, c2, triggered, i + 1, id);
    }
    SilentTrans(c, c2, r, id);
  }

  lemma {:induction false} TickSilent(h: Handler, c: Clock, id: nat)
    requires Sized(c) && c.numTimers <= id
    ensures Silent(c, Tick(h, c), id)
  {
    var now := c.now + 1;
    if c.halted || ServiceFate(c.timers, c.numTimers, now) != Running {
      SilentSame(c, Tick(h, c), id);
    } else {
      var moved := c.(now := now, timers := AdvanceAll(c.timers, c.numTimers, now));
      SilentSame(c, moved, id);
      CallbacksSilent(h, moved, Triggered(c.timers, c.numTimers, now), 0, id);
      SilentTrans(c, moved, Tick(h, c), id);
    }
  }

  /** A slot beyond the bound does not fire in any run without a call on it. */
  lemma {:induction false} RunSilent(h: Handler, c: Clock, steps: seq<Step>, id: nat)
    requires Sized(c) && c.numTimers <= id
    ensures Silent(c, RunClock(h, c, steps), id)
    decreases |steps|, if steps != [] && steps[0].DoTicks? then steps[0].n else 0
  {
    if steps == [] {
      SilentSame(c, c, id);
    } else {
      var b := FirstStep(h, c, steps);
      RunByTicks(h, c, steps);
      RunGrows(h, b, Rest(steps));
      match steps[0] {
        case DoTicks(n) => if n == 0 { SilentSame(c, b, id); } else { TickSilent(h, c, id); }
        case DoCall(call) => ApplySilent(c, call, id);
      }
      if b.numTimers <= id { RunSilent(h, b, Rest(steps), id); }
      SilentTrans(c, b, RunClock(h, c, steps), id);
    }
  }

  // ---------------------------------------------------------------------
  // Slots within the bound
  // ---------------------------------------------------------------------

  /** Unless a call was made on it, slot `id` is registered afterwards if it was before. */
  ghost predicate UseKept(c: Clock, r: Clock, id: nat)
    requires id < |c.timers|
  {
    && c.log <= r.log
    && (!r.halted && Untouched(r.log[|c.log|..], id) ==>
          id < r.numTimers <= |r.timers| && r.timers[id].inUse == c.timers[id].inUse)
  }

  lemma {:induction false} UseKeptTrans(a: Clock, b: Clock, c: Clock, id: nat)
    requires id < |a.timers| && UseKept(a, b, id) && b.log <= c.log && (b.halted ==> c.halted)
    requires !b.halted && id < b.numTimers <= |b.timers| ==> UseKept(b, c, id)
    ensures UseKept(a, c, id)
  {
    SplitLog(a.log, b.log, c.log, id);
  }

  lemma {:induction false} RunKeepsUse(h: Handler, c: Clock, steps: seq<Step>, id: nat)
    requires Sized(c) && id < c.numTimers
    ensures UseKept(c, RunClock(h, c, steps), id)
    decreases |steps|, if steps != [] && steps[0].DoTicks? then steps[0].n else 0
  {
    if steps != [] && !c.halted {
      var b := FirstStep(h, c, steps);
      RunByTicks(h, c, steps);
      RunGrows(h, b, Rest(steps));
      match steps[0] {
        case DoTicks(n) => if n > 0 && !b.halted { OneTick(h, c, id); }
        case DoCall(call) => ApplyKeeps(c, call, id);
      }
      if id < b.numTimers { RunKeepsUse(h, b, Rest(steps), id); }
      UseKeptTrans(c, b, RunClock(h, c, steps), id);
    } else {
      RunGrows(h, c, steps);
    }
  }

  // ---------------------------------------------------------------------
  // The laws
  // ---------------------------------------------------------------------

  /** The firing times of a timer started at `now` with `ticks`, up to `until`: after that
      many ticks, at least one, and if continuous again and again. */
  function StartedAt(now: nat, ticks: nat, continuous: bool, until: nat): seq<nat> {
    var p := if ticks == 0 then 1 else ticks;
    if continuous then Multiples(now + p, p, until)
    else if now + p <= until then [now + p]
    else []
  }

  /** The firing times a call promises for its slot. */
  function Promised(call: Call, now: nat, until: nat): seq<nat> {
    match call
    case Register(ticks, continuous, active) => if active then StartedAt(now, ticks, continuous, until) else []
    case Activate(_, ticks, continuous) => StartedAt(now, ticks, continuous, until)
    case Deactivate(_) => []
    case Unregister(_) => []
  }

  lemma {:induction false} ClockKeepsPromise(h: Handler, c: Clock, call: Call, steps: seq<Step>)
    requires Sized(c) && !c.halted
    requires var b := Apply(c, call);
             !b.halted && Sized(b) && !RunClock(h, b, steps).halted
    ensures var b, id := Apply(c, call), Slot(c, call);
            var r := RunClock(h, b, steps);
            && b.log <= r.log
            && (Untouched(r.log[|b.log|..], id) ==>
                  FiredTimes(r.log[|b.log|..], id) == Promised(call, c.now, c.now + TotalTicks(steps)))
  {
    var b, id := Apply(c, call), Slot(c, call);
    FirstFreeBound(c.timers, c.numTimers, 1);
    if id < b.numTimers {
      ClockFiresExactly(h, b, steps, id);
    } else {
      RunSilent(h, b, steps, id);
    }
  }

  /** On the wheel, after any call in a good state and in every run that leaves its slot
      alone, the slot fires exactly when the call promises. */
  lemma {:induction false} CallsKeepPromise(h: Handler, s: Wheel, call: Call, steps: seq<Step>)
    requires Inv(s) && !s.halted && !ApplyWheel(s, call).halted
    ensures Inv(ApplyWheel(s, call))
    ensures var b := ApplyWheel(s, call);
            !RunWheel(h, b, steps).halted && Untouched(LoggedSince(h, b, steps), Slot(Abs(s), call)) ==>
              FiredTimes(LoggedSince(h, b, steps), Slot(Abs(s), call)) ==
                Promised(call, TimeTicks(s), TimeTicks(s) + TotalTicks(steps))
  {
    CallRefines(s, call);
    var b := ApplyWheel(s, call);
    RunsRefineFrom(h, b, steps);
    if !RunWheel(h, b, steps).halted {
      ClockKeepsPromise(h, Abs(s), call, steps);
    }
  }

  /** A registered slot is not given away while it is left alone; an unregistered one is
      free: the next registration takes it, or a free slot below it. */
  lemma {:induction false} SlotsAreHeld(h: Handler, c: Clock, call: Call, steps: seq<Step>, next: Call)
    requires Sized(c) && !c.halted && (call.Register? || call.Unregister?) && next.Register?
    requires var b := Apply(c, call);
             !b.halted && Sized(b) && !RunClock(h, b, steps).halted
    ensures var b, id := Apply(c, call), Slot(c, call);
            var r := RunClock(h, b, steps);
            && b.log <= r.log && 1 <= r.numTimers <= |r.timers|
            && (Untouched(r.log[|b.log|..], id) ==>
                  if call.Register? then Slot(r, next) != id
                  else Slot(r, next) <= id && ((forall k | 1 <= k < id && k < r.numTimers :: r.timers[k].inUse) ==>
                                                 Slot(r, next) == id || Slot(r, next) == r.numTimers))
  {
    var b, id := Apply(c, call), Slot(c, call);
    var r := RunClock(h, b, steps);
    FirstFreeBound(c.timers, c.numTimers, 1);
    RunSized(h, b, steps);
    RunGrows(h, b, steps);
    FirstFreeBound(r.timers, r.numTimers, 1);
    if id < b.numTimers {
      RunKeepsUse(h, b, steps, id);
    } else {
      RunSilent(h, b, steps, id);
    }
  }

  lemma {:induction false} RunSized(h: Handler, c: Clock, steps: seq<Step>)
    requires Sized(c)
    ensures Sized(RunClock(h, c, steps))
    decreases |steps|, if steps != [] && steps[0].DoTicks? then steps[0].n else 0
  {
    if steps != [] {
      RunByTicks(h, c, steps);
      RunSized(h, FirstStep(h, c, steps), Rest(steps));
    }
  }

  /** A registration never takes a slot in use, and no call changes another slot. */
  lemma {:induction false} OtherSlotsKept(c: Clock, call: Call, id: nat)
    requires Sized(c) && !c.halted && !Apply(c, call).halted && 1 <= id < c.numTimers && id != Slot(c, call)
    ensures Sized(Apply(c, call)) && id < Apply(c, call).numTimers
    ensures Apply(c, call).timers[id] == c.timers[id]
    ensures call.Register? && Slot(c, call) < c.numTimers ==> !c.timers[Slot(c, call)].inUse
  {
    ApplySized(c, call);
    FirstFreeBound(c.timers, c.numTimers, 1);
  }

  /** Registering, deactivating and unregistering a timer leaves every other slot and the
      time as they were and the slot free; the bound is as before, except that a free slot
      right below it no longer counts. */
  lemma {:induction false} RegisterUndone(c: Clock, call: Call)
    requires Sized(c) && !c.halted && call.Register? && !Apply(c, call).halted
    ensures Sized(Apply(c, call)) && Sized(Apply(Apply(c, call), Deactivate(Slot(c, call))))
    ensures var id := Slot(c, call);
            var r := Apply(Apply(Apply(c, call), Deactivate(id)), Unregister(id));
            && Sized(r) && !r.halted && r.now == c.now 
            && r.numTimers == (if id + 1 == c.numTimers then id else c.numTimers) && !r.timers[id].inUse
            && forall k | 0 <= k < c.numTimers && k != id :: r.timers[k] == c.timers[k]
  {
    var id := Slot(c, call);
    FirstFreeBound(c.timers, c.numTimers, 1);
    ApplySized(c, call);
    ApplySized(Apply(c, call), Deactivate(id));
    ApplySized(Apply(Apply(c, call), Deactivate(id)), Unregister(id));
  }

  // ---------------------------------------------------------------------
  // When a run stops
  // ---------------------------------------------------------------------

  /** A call goes through exactly if the emulator's checks pass and the deadline fits into
      64 bits: the bound is below 64 for a registration, other calls are about a slot below
      the bound other than the null timer's, a timer to be activated has a period, and one
      to be unregistered is in use and not active. */
  lemma {:induction false} GoesThroughIff(c: Clock, call: Call)
    requires Sized(c) && !c.halted
    ensures !Apply(c, call).halted <==>
            && (call.Register? ==> c.numTimers < 64)
            && (!call.Register? ==> 1 <= call.id < c.numTimers)
            && (call.Activate? ==> c.timers[call.id].period > 0)
            && (call.Unregister? ==> c.timers[call.id].inUse && !c.timers[call.id].active)
            && (call.Register? || call.Activate? ==>
                  c.now + (if call.ticks == 0 then 1 else call.ticks) < 0x1_0000_0000_0000_0000)
    ensures Apply(c, call).halted ==> Apply(c, call).fate == Refused || Apply(c, call).fate == DeadlineTooLarge
  {
  }

  /** Between the two logs, slot `k` was unregistered. */
  ghost predicate UnregisteredIn(a: seq<Entry>, b: seq<Entry>, k: nat) {
    exists j | |a| <= j < |b| :: b[j].Called? && b[j].call.Unregister? && b[j].slot == k
  }

  /** Between the two logs, a timer was registered in slot `n` or beyond. */
  ghost predicate RegisteredBeyond(a: seq<Entry>, b: seq<Entry>, n: nat) {
    exists j | |a| <= j < |b| :: b[j].Called? && b[j].call.Register? && b[j].slot >= n
  }

  /** Why a slot is no longer in use, or the bound has grown beyond `n`. */
  ghost predicate Explained(c: Clock, r: Clock, k: nat, n: nat)
    requires Sized(c) && Sized(r) && k < MAX_TIMERS
  {
    && c.log <= r.log
    && (c.timers[k].inUse && !r.timers[k].inUse ==> UnregisteredIn(c.log, r.log, k))
    && (c.numTimers <= n < r.numTimers ==> RegisteredBeyond(c.log, r.log, n))
  }

  lemma {:induction false} LaterExplained(a: seq<Entry>, b: seq<Entry>, c: seq<Entry>, k: nat, n: nat)
    requires a <= b <= c
    ensures UnregisteredIn(a, b, k) || UnregisteredIn(b, c, k) ==> UnregisteredIn(a, c, k)
    ensures RegisteredBeyond(a, b, n) || RegisteredBeyond(b, c, n) ==> RegisteredBeyond(a, c, n)
  {
    if UnregisteredIn(a, b, k) {
      var j :| |a| <= j < |b| && b[j].Called? && b[j].call.Unregister? && b[j].slot == k;
      assert c[j] == b[j];
    }
    if RegisteredBeyond(a, b, n) {
      var j :| |a| <= j < |b| && b[j].Called? && b[j].call.Register? && b[j].slot >= n;
      assert c[j] == b[j];
    }
  }

  lemma {:induction false} ApplyExplained(c: Clock, call: Call, k: nat, n: nat)
    requires Sized(c) && k < MAX_TIMERS
    ensures Sized(Apply(c, call)) && Explained(c, Apply(c, call), k, n)
  {
    var r := Apply(c, call);
    ApplySized(c, call);
    FirstFreeBound(c.timers, c.numTimers, 1);
    if r.log != c.log { assert r.log[|c.log|] == Called(call, Slot(c, call)); }
  }

  lemma {:induction false} ApplyAllExplained(c: Clock, calls: seq<Call>, k: nat, n: nat)
    requires Sized(c) && k < MAX_TIMERS
    ensures Explained(c, ApplyAll(c, calls), k, n)
    decreases |calls|
  {
    if calls != [] {
      var b := Apply(c, calls[0]);
      ApplyExplained(c, calls[0], k, n);
      ApplyAllExplained(b, calls[1..], k, n);
      LaterExplained(c.log, b.log, ApplyAll(b, calls[1..]).log, k, n);
    }
  }

  /** The callbacks of an event stop the run for reasons of their own only: a callback is
      gone if its timer was not in use at the event or has been unregistered since, and an
      unwritten flag is read only after a registration beyond the slots examined. */
  lemma {:induction false} CallbacksStopOnlyIf(h: Handler, c: Clock, triggered: seq<bool>, i: nat)
    requires Sized(c) && !c.halted && i <= |triggered| && c.numTimers <= |triggered|
    ensures var r := Callbacks(h, c, triggered, i);
            && c.log <= r.log
            && (r.fate == CallbackGone ==>
                  exists k | i <= k < |triggered| && k < MAX_TIMERS && triggered[k] ::
                    !c.timers[k].inUse || UnregisteredIn(c.log, r.log, k))
            && (r.fate == FlagUnwritten ==> RegisteredBeyond(c.log, r.log, |triggered|))
    decreases |triggered| - i
  {
    CallbacksKeep(h, c, triggered, i, 0);
    if i < |triggered| && i < c.numTimers {
      if !triggered[i] {
        CallbacksStopOnlyIf(h, c, triggered, i + 1);
      } else if c.timers[i].inUse {
        CallbackStopsOnlyIf(h, c, triggered, i);
      }
    }
  }

  lemma {:induction false} CallsOwnFate(c: Clock, calls: seq<Call>)
    requires Sized(c) && !c.halted
    ensures var f := ApplyAll(c, calls).fate; f == Running || f == Refused || f == DeadlineTooLarge
    decreases |calls|
  {
    if calls != [] {
      ApplySized(c, calls[0]);
      GoesThroughIff(c, calls[0]);
      if Apply(c, calls[0]).halted {
        HaltedApplyAll(Apply(c, calls[0]), calls[1..]);
      } else {
        CallsOwnFate(Apply(c, calls[0]), calls[1..]);
      }
    }
  }

  lemma {:induction false} HaltedApplyAll(c: Clock, calls: seq<Call>)
    requires Sized(c) && c.halted
    ensures ApplyAll(c, calls) == c
    decreases |calls|
  {
    if calls != [] { HaltedApplyAll(c, calls[1..]); }
  }

  lemma {:induction false} CallbackStopsOnlyIf(h: Handler, c: Clock, triggered: seq<bool>, i: nat)
    requires Sized(c) && !c.halted && i < |triggered| && i < c.numTimers <= |triggered|
    requires triggered[i] && c.timers[i].inUse
    ensures var r := Callbacks(h, c, triggered, i);
            && c.log <= r.log
            && (r.fate == CallbackGone ==>
                  exists k | i <= k < |triggered| && k < MAX_TIMERS && triggered[k] ::
                    !c.timers[k].inUse || UnregisteredIn(c.log, r.log, k))
            && (r.fate == FlagUnwritten ==> RegisteredBeyond(c.log, r.log, |triggered|))
    decreases |triggered| - i, 0
  {
    var c1 := c.(log := c.log + [Fired(c.now, i)]);
    var c2, r := ApplyAll(c1, h(i, c)), Callbacks(h, c, triggered, i);
    CallsOwnFate(c1, h(i, c));
    ApplyAllExplained(c1, h(i, c), 0, |triggered|);
    CallbacksKeep(h, c2, triggered, i + 1, 0);
    LaterExplained(c.log, c1.log, c2.log, 0, |triggered|);
    LaterExplained(c.log, c2.log, r.log, 0, |triggered|);
    if !c2.halted && c2.numTimers <= |triggered| {
      CallbacksStopOnlyIf(h, c2, triggered, i + 1);
      if r.fate == CallbackGone {
        var k :| i + 1 <= k < |triggered| && k < MAX_TIMERS && triggered[k]
                 && (!c2.timers[k].inUse || UnregisteredIn(c2.log, r.log, k));
        ApplyAllExplained(c1, h(i, c), k, |triggered|);
        LaterExplained(c.log, c1.log, c2.log, k, |triggered|);
        LaterExplained(c.log, c2.log, r.log, k, |triggered|);
        assert !c.timers[k].inUse || UnregisteredIn(c.log, r.log, k);
      }
    }
  }
}
