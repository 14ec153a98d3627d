/** Smart-Hopping as a function of the trace: the state after each position. */
module SmartRun {
  import opened Options
  import opened HopModel
  import opened HopOptimality

  /** The command-line switches. */
  datatype Config = Config(
    useWeights: bool, useWatchpoints: bool, useCheckpoints: bool,
    cpThresh: nat, costCp: nat, rollbackThresh: nat)

  /** The checks made before the algorithm is started. */
  predicate ValidConfig(cfg: Config) {
    cfg.useCheckpoints ==>
      && cfg.cpThresh > cfg.costCp
      && cfg.rollbackThresh < (cfg.cpThresh - cfg.costCp) / 2
  }

  /** What comparing a hop beyond the chain kept with a checkpoint would yield, at a
      position and for a checkpoint: nothing is known about it. */
  type Beyond = (nat, nat) -> bool

  /** A checkpoint keeps the costs and the chain from before its creation. */
  datatype Saved = Saved(costs: int, chain: Chain)

  datatype Emission = Emission(chain: Chain, costs: int)

  /** The bookkeeping between two positions; `chain` leads to the last one. */
  datatype State = State(
    latest: map<Event, nat>, saved: seq<Saved>, cps: seq<nat>,
    chain: Chain, costs: int, results: seq<Emission>)

  predicate Enabled(cfg: Config, e: Event) {
    cfg.useWatchpoints || e.access.Execute?
  }

  /** Only breakpoints and no checkpoints: the mode with an optimality claim. */
  predicate BreakpointsOnly(cfg: Config) {
    !cfg.useWatchpoints && !cfg.useCheckpoints
  }

  // ---------------------------------------------------------------------
  // Selecting an event
  // ---------------------------------------------------------------------

  /** The first usable event that was not seen before. */
  function NewEvent(cfg: Config, latest: map<Event, nat>, es: seq<Event>): (r: Option<Event>)
    ensures r.Some? ==> r.value in es && Enabled(cfg, r.value) && r.value !in latest
    ensures r.None? ==> forall e | e in es && Enabled(cfg, e) :: e in latest
  {
    if es == [] then None
    else
      var n, e := NewEvent(cfg, latest, es[..|es| - 1]), es[|es| - 1];
      if n.None? && Enabled(cfg, e) && e !in latest then Some(e) else n
  }

  /** The first usable known event among those seen longest ago. */
  function Oldest(cfg: Config, latest: map<Event, nat>, es: seq<Event>): (r: Option<Event>)
    ensures r.Some? ==>
              && r.value in es && Enabled(cfg, r.value) && r.value in latest
              && forall e | e in es && Enabled(cfg, e) && e in latest :: latest[r.value] <= latest[e]
    ensures r.None? ==> forall e | e in es && Enabled(cfg, e) :: e !in latest
  {
    if es == [] then None
    else
      var o, e := Oldest(cfg, latest, es[..|es| - 1]), es[|es| - 1];
      if Enabled(cfg, e) && e in latest && (o.None? || latest[e] < latest[o.value]) then Some(e) else o
  }

  function Recorded(cfg: Config, latest: map<Event, nat>, es: seq<Event>, pos: nat): map<Event, nat> {
    latest + map e | e in es && Enabled(cfg, e) :: pos
  }

  /** What is known after looking at the events `es` of position `pos`; `best` and
      `lastPos` count only once something was found. */
  ghost predicate Scanned(
    cfg: Config, before: map<Event, nat>, es: seq<Event>, pos: nat, latest: map<Event, nat>,
    first: Option<Event>, found: bool, best: Event, lastPos: nat)
  {
    && latest == Recorded(cfg, before, es, pos)
    && first == NewEvent(cfg, before, es)
    && (first.None? ==>
          && Oldest(cfg, before, es) == (if found then Some(best) else None)
          && (found ==> best in before && lastPos == before[best]))
  }

  lemma {:induction false} RecordedOne(cfg: Config, latest: map<Event, nat>, es: seq<Event>, pos: nat, e: Event)
    ensures Recorded(cfg, latest, es + [e], pos) ==
            if Enabled(cfg, e) then Recorded(cfg, latest, es, pos)[e := pos] else Recorded(cfg, latest, es, pos)
  {
  }

  /** An event not seen before was either seen at this position or is the first new one. */
  lemma {:induction false} NewOne(cfg: Config, before: map<Event, nat>, es: seq<Event>, pos: nat, e: Event)
    requires Enabled(cfg, e)
    ensures var n := NewEvent(cfg, before, es);
            NewEvent(cfg, before, es + [e]) ==
            if e !in Recorded(cfg, before, es, pos) && n.None? then Some(e) else n
  {
    assert (es + [e])[..|es|] == es;
  }

  lemma {:induction false} OldestOne(cfg: Config, before: map<Event, nat>, es: seq<Event>, pos: nat, e: Event)
    requires Enabled(cfg, e) && e in before && forall d | d in before :: before[d] < pos
    ensures var o, p := Oldest(cfg, before, es), if e in es then pos else before[e];
            Oldest(cfg, before, es + [e]) == if o.None? || p < before[o.value] then Some(e) else o
    ensures Recorded(cfg, before, es, pos)[e] == if e in es then pos else before[e]
    ensures e in es ==> Oldest(cfg, before, es).Some?
  {
    assert (es + [e])[..|es|] == es;
  }

  /** A known event replaces the one found so far only if it is older; an event already
      seen at this position counts as seen just now. */
  lemma {:induction false} ScannedOne(
    cfg: Config, before: map<Event, nat>, es: seq<Event>, pos: nat, latest: map<Event, nat>,
    first: Option<Event>, found: bool, best: Event, lastPos: nat, e: Event)
    requires Scanned(cfg, before, es, pos, latest, first, found, best, lastPos)
    requires Enabled(cfg, e) && forall d | d in before :: before[d] < pos
    ensures var better := e in latest && (!found || latest[e] < lastPos);
            Scanned(cfg, before, es + [e], pos, latest[e := pos],
                    if e !in latest && first.None? then Some(e) else first, found || better,
                    if better then e else best, if better then latest[e] else lastPos)
  {
    RecordedOne(cfg, before, es, pos, e);
    NewOne(cfg, before, es, pos, e);
    if e in before { OldestOne(cfg, before, es, pos, e); }
  }

  lemma {:induction false} ScannedNone(
    cfg: Config, before: map<Event, nat>, es: seq<Event>, pos: nat, latest: map<Event, nat>,
    first: Option<Event>, found: bool, best: Event, lastPos: nat, e: Event)
    requires Scanned(cfg, before, es, pos, latest, first, found, best, lastPos) && !Enabled(cfg, e)
    ensures Scanned(cfg, before, es + [e], pos, latest, first, found, best, lastPos)
  {
    RecordedOne(cfg, before, es, pos, e);
    assert (es + [e])[..|es|] == es;
  }

  // ---------------------------------------------------------------------
  // Truncation
  // ---------------------------------------------------------------------

  /** The guard that lets truncation drop the chain's last hop. */
  predicate MayDrop(cfg: Config, left: Hop, best: Event, lastPos: nat) {
    && Over(cfg.useWeights, lastPos, left.pos)
    && !(lastPos == left.pos && left.event != best)
  }

  /** The id of the checkpoint a chain restores, counted from 1; 0 if none. */
  function LeadingCheckpoint(c: Chain): nat {
    if StartsAtCheckpoint(c) then c[0].event.address + 1 else 0
  }

  /** The chain kept with a checkpoint restores, if at all, an older one. */
  predicate Older(saved: seq<Saved>) {
    forall k | 0 <= k < |saved| :: saved[k].chain != [] && LeadingCheckpoint(saved[k].chain) <= k
  }

  predicate Restorable(saved: seq<Saved>, c: Chain) {
    Older(saved) && c != [] && LeadingCheckpoint(c) <= |saved|
  }

  /** Whether too few hops of the chain kept with a checkpoint would be deleted. */
  predicate Forbids(cfg: Config, beyond: Beyond, kept: Chain, id: nat, lastPos: nat, pos: nat) {
    if cfg.rollbackThresh < |kept| then kept[|kept| - 1 - cfg.rollbackThresh].pos < lastPos else beyond(pos, id)
  }

  datatype Move = Stop(forbidden: bool) | Drop | Undo(id: nat)

  /** What truncation does next: the last hop goes if the new event can still be reached
      from the hop before it; before a leading checkpoint that is the end of the chain
      kept with it. */
  function MoveAt(cfg: Config, beyond: Beyond, saved: seq<Saved>, c: Chain, best: Event, lastPos: nat, pos: nat): Move
    requires Restorable(saved, c)
  {
    if |c| > 1 then
      if MayDrop(cfg, c[|c| - 2], best, lastPos) then Drop else Stop(false)
    else if !StartsAtCheckpoint(c) then Stop(false)
    else
      var id := c[0].event.address;
      if Forbids(cfg, beyond, saved[id].chain, id, lastPos, pos) then Stop(true)
      else if MayDrop(cfg, Last(saved[id].chain), best, lastPos) then Undo(id)
      else Stop(false)
  }

  datatype Cut = Cut(chain: Chain, costs: int, forbidden: bool)

  function CutBack(
    cfg: Config, beyond: Beyond, saved: seq<Saved>, c: Chain, costs: int, best: Event, lastPos: nat, pos: nat): (r: Cut)
    requires Restorable(saved, c)
    ensures r.chain != [] && LeadingCheckpoint(r.chain) <= LeadingCheckpoint(c)
    decreases LeadingCheckpoint(c), |c|
  {
    match MoveAt(cfg, beyond, saved, c, best, lastPos, pos)
    case Stop(forbidden) => Cut(c, costs, forbidden)
    case Drop =>
      CutBack(cfg, beyond, saved, c[..|c| - 1], costs - HopCost(c[|c| - 2].event, Last(c).event), best, lastPos, pos)
    case Undo(id) => CutBack(cfg, beyond, saved, saved[id].chain, saved[id].costs, best, lastPos, pos)
  }

  // ---------------------------------------------------------------------
  // Positions
  // ---------------------------------------------------------------------

  predicate ValidState(s: State) {
    && Older(s.saved) && LeadingCheckpoint(s.chain) <= |s.saved|
    && (s.chain == [] ==> s.latest == map[])
  }

  /** What the collector records; a cost of 0 leaves the computation to it. */
  function Reported(c: Chain, costs: int): Emission
    requires c != []
  {
    Emission(c, if costs == 0 then Cost(c) else costs)
  }

  /** A position with an event seen for the first time. */
  function Started(s: State, e: Event, pos: nat): State {
    s.(chain := [Hop(e, pos)], costs := COST_CHANGE, results := s.results + [Reported([Hop(e, pos)], COST_CHANGE)])
  }

  function Total(cut: Cut, best: Event): int
    requires cut.chain != []
  {
    cut.costs + HopCost(Last(cut.chain).event, best)
  }

  /** Whether a checkpoint is taken instead of the hop to `best`. */
  predicate TakesCheckpoint(cfg: Config, cut: Cut, best: Event)
    requires cut.chain != []
  {
    cfg.useCheckpoints && Total(cut, best) > cfg.cpThresh && !cut.forbidden
  }

  /** Takes a checkpoint or appends the hop. */
  function Continued(cfg: Config, s: State, best: Event, pos: nat, cut: Cut): State
    requires cut.chain != []
  {
    if TakesCheckpoint(cfg, cut, best) then
      var c := [Hop(Event(|s.saved|, Checkpoint), pos)];
      s.(saved := s.saved + [Saved(Total(cut, best), cut.chain)], cps := s.cps + [pos],
         chain := c, costs := cfg.costCp, results := s.results + [Reported(c, cfg.costCp)])
    else
      var c := cut.chain + [Hop(best, pos)];
      s.(chain := c, costs := Total(cut, best), results := s.results + [Reported(c, Total(cut, best))])
  }

  function Next(cfg: Config, beyond: Beyond, s: State, es: seq<Event>, pos: nat): (r: State)
    requires ValidState(s) && ValidPosition(es)
    ensures ValidState(r) && r.chain != []
  {
    var s' := s.(latest := Recorded(cfg, s.latest, es, pos));
    var first, oldest := NewEvent(cfg, s.latest, es), Oldest(cfg, s.latest, es);
    assert es[0] in es && Enabled(cfg, es[0]);
    if first.Some? then Started(s', first.value, pos)
    else
      Continued(cfg, s', oldest.value, pos,
                CutBack(cfg, beyond, s.saved, s.chain, s.costs, oldest.value, s.latest[oldest.value], pos))
  }

  /** The state after the positions of `t`. */
  function Run(cfg: Config, beyond: Beyond, t: Trace): (r: State)
    requires ValidTrace(t)
    ensures ValidState(r)
  {
    if t == [] then State(map[], [], [], [], 0, [])
    else Next(cfg, beyond, Run(cfg, beyond, t[..|t| - 1]), t[|t| - 1], |t|)
  }

  lemma {:induction false} RunNext(cfg: Config, beyond: Beyond, t: Trace, n: nat)
    requires ValidTrace(t) && n < |t|
    ensures Run(cfg, beyond, t[..n + 1]) == Next(cfg, beyond, Run(cfg, beyond, t[..n]), t[n], n + 1)
  {
    assert t[..n + 1][..n] == t[..n];
  }
}
