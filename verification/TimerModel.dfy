/** The emulator's timers on values: the countdown wheel the emulator runs, and
    the plain clock it stands for, which looks at every timer on every tick. */
module TimerModel {
  import opened Words

  const MAX_TIMERS: nat := 64
  const MIN_PERIOD: nat := 1
  const NULL_INTERVAL: nat := 0xffff_ffff
  const MAX_64: nat := 0xffff_ffff_ffff_ffff
  const MAX_SIGNED_64: nat := 0x7fff_ffff_ffff_ffff

  datatype Timer = Timer(inUse: bool, period: nat, timeToFire: nat, active: bool, continuous: bool)

  /** The calls a device may make, from outside or from a timer callback. */
  datatype Call =
    | Register(ticks: nat, continuous: bool, active: bool)
    | Activate(id: nat, ticks: nat, continuous: bool)
    | Deactivate(id: nat)
    | Unregister(id: nat)

  /** What happened so far: callbacks invoked, and calls made on a timer slot. */
  datatype Entry = Fired(time: nat, id: nat) | Called(call: Call, slot: nat)

  /** Why nothing is said about what happens next: the emulator refused a call, called
      a callback that is gone, read a flag it never wrote, needed a deadline beyond 64
      bits, found a timer overdue, or decremented a countdown of 0. */
  datatype Fate = Running | Refused | CallbackGone | FlagUnwritten | DeadlineTooLarge | Overdue | CountdownLost

  /** The plain clock. */
  datatype Clock = Clock(now: nat, timers: seq<Timer>, numTimers: nat, log: seq<Entry>, fate: Fate) {
    const halted := fate != Running
  }

  /** The wheel: `currCountdown` counts down to the next event, `ticksTotal` is the
      time at which the current countdown began. */
  datatype Wheel = Wheel(
    timers: seq<Timer>, numTimers: nat,
    currCountdown: nat, currCountdownPeriod: nat, ticksTotal: nat,
    log: seq<Entry>, fate: Fate)
  {
    const halted := fate != Running
  }

  /** A callback is given by the calls it makes; it may depend on everything a
      device can observe. */
  type Handler = (nat, Clock) -> seq<Call>

  function TimeTicks(s: Wheel): int {
    s.ticksTotal + (s.currCountdownPeriod - s.currCountdown)
  }

  /** What the outside sees of a wheel. */
  function Abs(s: Wheel): Clock
    requires s.currCountdown <= s.currCountdownPeriod
  {
    Clock(TimeTicks(s), s.timers, s.numTimers, s.log, s.fate)
  }

  // ---------------------------------------------------------------------
  // Calls
  // ---------------------------------------------------------------------

  function FirstFree(timers: seq<Timer>, n: nat, i: nat): nat
    requires i <= n <= |timers|
    decreases n - i
  {
    if i == n || !timers[i].inUse then i else FirstFree(timers, n, i + 1)
  }

  function AtLeastMin(ticks: nat): nat {
    if ticks < MIN_PERIOD then MIN_PERIOD else ticks
  }

  predicate Sized(c: Clock) {
    |c.timers| == MAX_TIMERS && 1 <= c.numTimers <= MAX_TIMERS
  }

  /** The checks that the emulator makes on a call. */
  predicate Legal(c: Clock, call: Call)
    requires Sized(c)
  {
    match call
    case Register(_, _, _) => c.numTimers < MAX_TIMERS
    case Activate(id, _, _) => 0 < id < c.numTimers && MIN_PERIOD <= c.timers[id].period
    case Deactivate(id) => 0 < id < c.numTimers
    case Unregister(id) => 0 < id < c.numTimers && c.timers[id].inUse && !c.timers[id].active
  }

  /** The fate of a call that does not go through. */
  function CallFate(c: Clock, call: Call): Fate
    requires Sized(c)
  {
    if !Legal(c, call) then Refused
    else if (call.Register? || call.Activate?) && c.now + AtLeastMin(call.ticks) > MAX_64 then DeadlineTooLarge
    else Running
  }

  /** The slot a call is about. */
  function Slot(c: Clock, call: Call): nat
    requires 1 <= c.numTimers <= |c.timers|
  {
    match call
    case Register(_, _, _) => FirstFree(c.timers, c.numTimers, 1)
    case Activate(id, _, _) => id
    case Deactivate(id) => id
    case Unregister(id) => id
  }

  /** The slot's contents after the call. */
  function Changed(now: nat, t: Timer, call: Call): Timer {
    match call
    case Register(ticks, continuous, active) =>
      Timer(true, AtLeastMin(ticks), now + AtLeastMin(ticks), active, continuous)
    case Activate(_, ticks, continuous) =>
      t.(period := AtLeastMin(ticks), timeToFire := now + AtLeastMin(ticks), active := true, continuous := continuous)
    case Deactivate(_) => t.(active := false)
    case Unregister(_) => Timer(false, MAX_SIGNED_64, MAX_SIGNED_64, false, false)
  }

  function NewCount(n: nat, call: Call, slot: nat): nat {
    if call.Register? && slot == n then n + 1
    else if call.Unregister? && slot + 1 == n then slot
    else n
  }

  /** One call on the plain clock. */
  function Apply(c: Clock, call: Call): (r: Clock)
    requires Sized(c)
  {
    if c.halted then c
    else if CallFate(c, call) != Running then c.(fate := CallFate(c, call))
    else
      var i := Slot(c, call);
      FirstFreeBound(c.timers, c.numTimers, 1);
      c.(timers := c.timers[i := Changed(c.now, c.timers[i], call)],
         numTimers := NewCount(c.numTimers, call, i),
         log := c.log + [Called(call, i)])
  }

  lemma {:induction false} FirstFreeBound(timers: seq<Timer>, n: nat, i: nat)
    requires i <= n <= |timers|
    ensures i <= FirstFree(timers, n, i) <= n
    ensures forall k | i <= k < FirstFree(timers, n, i) :: timers[k].inUse
    ensures FirstFree(timers, n, i) < n ==> !timers[FirstFree(timers, n, i)].inUse
    decreases n - i
  {
    if i < n && timers[i].inUse { FirstFreeBound(timers, n, i + 1); }
  }

  /** Whether a call leaves a timer running towards a new deadline. */
  predicate Arms(call: Call) {
    (call.Register? && call.active) || call.Activate?
  }

  /** An armed timer that is due before the current countdown ends shortens it. */
  function Skew(s: Wheel, ticks: nat): Wheel
    requires s.currCountdown <= s.currCountdownPeriod
  {
    if ticks < s.currCountdown then
      s.(currCountdownPeriod := s.currCountdownPeriod - (s.currCountdown - ticks), currCountdown := ticks)
    else s
  }

  /** One call on the wheel. */
  function ApplyWheel(s: Wheel, call: Call): Wheel
    requires s.currCountdown <= s.currCountdownPeriod && Sized(Abs(s))
  {
    var c := Apply(Abs(s), call);
    var s' := s.(timers := c.timers, numTimers := c.numTimers, log := c.log, fate := c.fate);
    if !c.halted && Arms(call) then Skew(s', AtLeastMin(call.ticks)) else s'
  }

  // ---------------------------------------------------------------------
  // Firing
  // ---------------------------------------------------------------------

  predicate Due(t: Timer, now: nat) {
    t.active && t.timeToFire == now
  }

  /** A due one-shot timer goes off, a due continuous one moves on by its period. */
  function Advance(t: Timer, now: nat): Timer {
    if !Due(t, now) then t
    else if t.continuous then t.(timeToFire := t.timeToFire + t.period)
    else t.(active := false)
  }

  /** The first `n` timers moved past `now`. */
  function AdvanceAll(timers: seq<Timer>, n: nat, now: nat): (r: seq<Timer>)
    requires n <= |timers|
    ensures |r| == |timers|
    ensures forall i | 0 <= i < |r| :: r[i] == if i < n then Advance(timers[i], now) else timers[i]
  {
    seq(|timers|, i requires 0 <= i < |timers| => if i < n then Advance(timers[i], now) else timers[i])
  }

  function Triggered(timers: seq<Timer>, n: nat, now: nat): (r: seq<bool>)
    requires n <= |timers|
    ensures |r| == n && forall i | 0 <= i < n :: r[i] == Due(timers[i], now)
  {
    seq(n, i requires 0 <= i < n => Due(timers[i], now))
  }

  /** What servicing a timer leads to. */
  function TimerFate(t: Timer, now: nat): Fate {
    if !t.active then Running
    else if t.timeToFire < now then Overdue
    else if t.timeToFire == now && t.continuous && now + t.period > MAX_64 then DeadlineTooLarge
    else Running
  }

  /** What servicing the first `n` timers in order leads to. */
  function ServiceFate(timers: seq<Timer>, n: nat, now: nat): Fate
    requires n <= |timers|
  {
    if n == 0 then Running
    else
      var f := ServiceFate(timers, n - 1, now);
      if f != Running then f else TimerFate(timers[n - 1], now)
  }

  /** Servicing goes wrong exactly if a timer does, and in the way of some timer. */
  lemma {:induction false} ServiceFateOf(timers: seq<Timer>, n: nat, now: nat)
    requires n <= |timers|
    ensures var f := ServiceFate(timers, n, now);
            && (f == Running <==> forall i | 0 <= i < n :: TimerFate(timers[i], now) == Running)
            && (f == Running || exists i | 0 <= i < n :: f == TimerFate(timers[i], now))
    ensures ServiceFate(timers, n, now) == Running <==>
            forall i | 0 <= i < n && timers[i].active ::
              && now <= timers[i].timeToFire
              && (timers[i].timeToFire == now && timers[i].continuous ==>
                    now + timers[i].period < 0x1_0000_0000_0000_0000)
  {
    if n > 0 { ServiceFateOf(timers, n - 1, now); }
  }

  /** The calls of one callback, in order. */
  function ApplyAll(c: Clock, calls: seq<Call>): (r: Clock)
    requires Sized(c)
    ensures Sized(r) && r.now == c.now
    decreases |calls|
  {
    if calls == [] then c
    else
      ApplySized(c, calls[0]);
      ApplyAll(Apply(c, calls[0]), calls[1..])
  }

  lemma {:induction false} ApplySized(c: Clock, call: Call)
    requires Sized(c)
    ensures Sized(Apply(c, call)) && Apply(c, call).now == c.now
  {
    FirstFreeBound(c.timers, c.numTimers, 1);
  }

  /** Invoke the callbacks of the triggered timers from slot `i` on.  A callback
      must not unregister a timer whose own callback is still to come, except in the
      last slot, where the loop then ends, nor make the emulator look beyond the slots
      it examined. */
  function Callbacks(h: Handler, c: Clock, triggered: seq<bool>, i: nat): (r: Clock)
    requires Sized(c) && i <= |triggered|
    ensures Sized(r) && r.now == c.now
    decreases |triggered| - i
  {
    if c.halted || i == |triggered| || i >= c.numTimers then c
    else if !triggered[i] then Callbacks(h, c, triggered, i + 1)
    else if !c.timers[i].inUse then c.(fate := CallbackGone)
    else
      var c' := ApplyAll(c.(log := c.log + [Fired(c.now, i)]), h(i, c));
      if !c'.halted && c'.numTimers > |triggered| then c'.(fate := FlagUnwritten)
      else Callbacks(h, c', triggered, i + 1)
  }

  /** One tick of the plain clock: compare every timer with the new time. */
  function Tick(h: Handler, c: Clock): (r: Clock)
    requires Sized(c)
    ensures Sized(r) && (!r.halted ==> r.now == c.now + 1)
  {
    if c.halted then c
    else
      var now := c.now + 1;
      var fate := ServiceFate(c.timers, c.numTimers, now);
      if fate != Running then c.(now := now, fate := fate)
      else
        Callbacks(h, c.(now := now, timers := AdvanceAll(c.timers, c.numTimers, now)),
                  Triggered(c.timers, c.numTimers, now), 0)
  }

  function Ticks(h: Handler, c: Clock, n: nat): (r: Clock)
    requires Sized(c)
    ensures Sized(r)
    decreases n
  {
    if n == 0 then c else Ticks(h, Tick(h, c), n - 1)
  }

  // ---------------------------------------------------------------------
  // The wheel
  // ---------------------------------------------------------------------

  predicate SizedWheel(s: Wheel) {
    && |s.timers| == MAX_TIMERS && 1 <= s.numTimers <= MAX_TIMERS
    && s.currCountdown <= s.currCountdownPeriod
  }

  /** The earliest deadline among the first `n` timers, as the service loop finds
      it when it starts from the largest 64-bit value. */
  function MinDeadline(timers: seq<Timer>, n: nat): nat
    requires n <= |timers|
  {
    if n == 0 then MAX_64
    else
      var m := MinDeadline(timers, n - 1);
      if timers[n - 1].active && timers[n - 1].timeToFire < m then timers[n - 1].timeToFire else m
  }

  /** The minimum is at most every active deadline, and one of them unless it is the
      value the loop starts from. */
  lemma {:induction false} MinDeadlineIs(timers: seq<Timer>, n: nat)
    requires n <= |timers|
    ensures var m := MinDeadline(timers, n);
            && m <= MAX_64
            && (forall i | 0 <= i < n && timers[i].active :: m <= timers[i].timeToFire)
            && (m == MAX_64 || exists i | 0 <= i < n :: timers[i].active && timers[i].timeToFire == m)
  {
    if n > 0 { MinDeadlineIs(timers, n - 1); }
  }

  function ApplyAllWheel(s: Wheel, calls: seq<Call>): (r: Wheel)
    requires SizedWheel(s)
    ensures SizedWheel(r)
    decreases |calls|
  {
    if calls == [] then s
    else
      ApplySized(Abs(s), calls[0]);
      ApplyAllWheel(ApplyWheel(s, calls[0]), calls[1..])
  }

  function CallbacksWheel(h: Handler, s: Wheel, triggered: seq<bool>, i: nat): (r: Wheel)
    requires SizedWheel(s) && i <= |triggered|
    ensures SizedWheel(r)
    decreases |triggered| - i
  {
    if s.halted || i == |triggered| || i >= s.numTimers then s
    else if !triggered[i] then CallbacksWheel(h, s, triggered, i + 1)
    else if !s.timers[i].inUse then s.(fate := CallbackGone)
    else
      var s' := ApplyAllWheel(s.(log := s.log + [Fired(TimeTicks(s), i)]), h(i, Abs(s)));
      if !s'.halted && s'.numTimers > |triggered| then s'.(fate := FlagUnwritten)
      else CallbacksWheel(h, s', triggered, i + 1)
  }

  /** The timers serviced and the next countdown started, but no callback invoked
      yet. */
  function Serviced(s: Wheel): (r: Wheel)
    requires SizedWheel(s)
    ensures SizedWheel(r)
  {
    var total := s.ticksTotal + s.currCountdownPeriod;
    var timers := AdvanceAll(s.timers, s.numTimers, total);
    var next := U32(MinDeadline(timers, s.numTimers) - total);
    s.(ticksTotal := total, timers := timers, currCountdown := next, currCountdownPeriod := next)
  }

  /** The countdown reached 0: service the timers, start the next countdown, then
      invoke the callbacks. */
  function CountdownEvent(h: Handler, s: Wheel): (r: Wheel)
    requires SizedWheel(s)
    ensures SizedWheel(r)
  {
    var total := s.ticksTotal + s.currCountdownPeriod;
    var fate := ServiceFate(s.timers, s.numTimers, total);
    if fate != Running then
      s.(ticksTotal := total, currCountdown := s.currCountdownPeriod, fate := fate)
    else
      CallbacksWheel(h, Serviced(s), Triggered(s.timers, s.numTimers, total), 0)
  }

  /** One tick of the wheel.  A countdown of 0 never survives to the next tick. */
  function Tick1(h: Handler, s: Wheel): (r: Wheel)
    requires SizedWheel(s)
    ensures SizedWheel(r)
  {
    if s.halted then s
    else if s.currCountdown == 1 then CountdownEvent(h, s.(currCountdown := 0))
    else if s.currCountdown == 0 then s.(fate := CountdownLost)
    else s.(currCountdown := s.currCountdown - 1)
  }

  function Tick1s(h: Handler, s: Wheel, n: nat): (r: Wheel)
    requires SizedWheel(s)
    ensures SizedWheel(r)
    decreases n
  {
    if n == 0 then s else Tick1s(h, Tick1(h, s), n - 1)
  }
}
