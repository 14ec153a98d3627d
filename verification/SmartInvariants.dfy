/** The history of a Smart-Hopping run and the invariant of its states. */
module SmartInvariants {
  import opened Options
  import opened HopModel
  import opened HopOptimality
  import opened SmartRun
  import opened SmartChains
  import opened SmartAccounts

  // ---------------------------------------------------------------------
  // What happened so far
  // ---------------------------------------------------------------------

  /** How the checkpoints, the results and the working chain came about. */
  datatype Past = Past(taken: seq<Taken>, accounts: seq<Account>, undone: Option<nat>)

  /** The last checkpoint undone when truncation, entered with `undone`, is over. */
  function LastUndone(
    cfg: Config, beyond: Beyond, saved: seq<Saved>, c: Chain, best: Event, lastPos: nat, pos: nat,
    undone: Option<nat>): Option<nat>
    requires Restorable(saved, c)
    decreases LeadingCheckpoint(c), |c|
  {
    match MoveAt(cfg, beyond, saved, c, best, lastPos, pos)
    case Stop(_) => undone
    case Drop => LastUndone(cfg, beyond, saved, c[..|c| - 1], best, lastPos, pos, undone)
    case Undo(id) => LastUndone(cfg, beyond, saved, saved[id].chain, best, lastPos, pos, Some(id))
  }

  function ContinuedPast(cfg: Config, h: Past, best: Event, cut: Cut, undone: Option<nat>): Past
    requires cut.chain != []
  {
    if TakesCheckpoint(cfg, cut, best)
    then Past(h.taken + [Taken(best, HopCost(Last(cut.chain).event, best), undone)],
              h.accounts + [Account(None, false)], None)
    else Past(h.taken, h.accounts + [Account(undone, cut.forbidden)], undone)
  }

  function NextPast(cfg: Config, beyond: Beyond, s: State, h: Past, es: seq<Event>, pos: nat): Past
    requires ValidState(s) && ValidPosition(es)
  {
    assert es[0] in es && Enabled(cfg, es[0]);
    if NewEvent(cfg, s.latest, es).Some? then Past(h.taken, h.accounts + [Account(None, false)], None)
    else
      var best := Oldest(cfg, s.latest, es).value;
      ContinuedPast(
        cfg, h, best,
        CutBack(cfg, beyond, s.saved, s.chain, s.costs, best, s.latest[best], pos),
        LastUndone(cfg, beyond, s.saved, s.chain, best, s.latest[best], pos, h.undone))
  }

  function PastOf(cfg: Config, beyond: Beyond, t: Trace): Past
    requires ValidTrace(t)
  {
    if t == [] then Past([], [], None)
    else
      var before := t[..|t| - 1];
      NextPast(cfg, beyond, Run(cfg, beyond, before), PastOf(cfg, beyond, before), t[|t| - 1], |t|)
  }

  predicate IsTrace(u: Trace, t: Trace) {
    ValidTrace(u) && u == t
  }

  /** The positions of `t` lead to state `s` with past `h`.  (Said of whatever trace is
      known to be `t`, so that the run is unfolded only where a proof asks for it.) */
  ghost predicate LeadsTo(cfg: Config, beyond: Beyond, t: Trace, s: State, h: Past) {
    forall u {:trigger IsTrace(u, t)} | IsTrace(u, t) ::
      Run(cfg, beyond, u) == s && PastOf(cfg, beyond, u) == h
  }

  // ---------------------------------------------------------------------
  // The invariant
  // ---------------------------------------------------------------------

  ghost predicate CheckpointsOk(t: Trace, cfg: Config, s: State, h: Past) {
    && (!cfg.useCheckpoints ==> s.saved == [])
    && AllSaved(t, cfg, s.saved, h.taken, s.cps)
    && Known(h.taken, h.undone)
  }

  ghost predicate ResultsOk(t: Trace, cfg: Config, beyond: Beyond, s: State, h: Past) {
    && AllOk(t, cfg, s.results, s.cps)
    && AllAccounted(t, cfg, beyond, s.results, s.saved, h.taken, h.accounts)
    && AllTaken(s.results, s.saved, h.taken, s.cps)
  }

  /** The working cost is that of the chain and the surplus. */
  ghost predicate CostRight(cfg: Config, taken: seq<Taken>, undone: Option<nat>, c: Chain, costs: int) {
    c != [] && Ordered(taken) && Known(taken, undone) && costs == ChainCost(cfg, c) + Surplus(taken, undone)
  }

  /** The working chain leads to position `n` and is the one emitted last. */
  ghost predicate CurrentOk(t: Trace, cfg: Config, n: nat, s: State, h: Past) {
    && ChainOk(t, s.chain, s.cps, |s.saved|)
    && Last(s.chain).pos == n
    && CostRight(cfg, h.taken, h.undone, s.chain, s.costs)
    && (BreakpointsOnly(cfg) ==> PlainChain(t, false, s.chain) && Tight(t, ModeOf(cfg), s.chain))
    && 0 < n == |s.results| && s.chain == s.results[n - 1].chain
    && UndoneOk(s.results, n - 1, h.undone)
  }

  /** The invariant, apart from what is known about latest positions. */
  ghost predicate Good(t: Trace, cfg: Config, beyond: Beyond, n: nat, s: State, h: Past) {
    && n <= |t| && |s.results| == n
    && CheckpointsOk(t, cfg, s, h)
    && ResultsOk(t, cfg, beyond, s, h)
    && (n > 0 ==> CurrentOk(t, cfg, n, s, h))
  }

  ghost predicate Inv(t: Trace, cfg: Config, beyond: Beyond, n: nat, s: State, h: Past) {
    KnowsLatest(t, cfg, s.latest, n) && Good(t, cfg, beyond, n, s, h)
  }

  // ---------------------------------------------------------------------
  // During truncation
  // ---------------------------------------------------------------------

  /** What truncation keeps: the chain navigates, the new event can be reached from
      its end, its cost is right, and it starts at the root unless a checkpoint was
      undone. */
  ghost predicate Truncating(
    t: Trace, cfg: Config, s: State, taken: seq<Taken>, root: Hop, c: Chain, costs: int, undone: Option<nat>,
    best: Event, lastPos: nat)
    requires s.chain != []
  {
    && ChainOk(t, c, s.cps, |s.saved|)
    && lastPos <= Last(c).pos <= Last(s.chain).pos
    && (Last(c).pos == Last(s.chain).pos ==> c == s.chain)
    && (Last(c).pos == lastPos && Last(c).event != best ==> c == s.chain)
    && CostRight(cfg, taken, undone, c, costs)
    && Rooted(root, c, undone)
    && (!cfg.useCheckpoints ==>
          && c <= s.chain
          && (|c| == |s.chain| || MayDrop(cfg, Last(c), best, lastPos)))
  }

  /** Truncation has ended with a chain that keeps all this and from which nothing more
      can be dropped. */
  ghost predicate CutEnds(
    t: Trace, cfg: Config, beyond: Beyond, s: State, taken: seq<Taken>, root: Hop, cut: Cut, undone: Option<nat>,
    best: Event, lastPos: nat, pos: nat)
    requires s.chain != []
  {
    && Truncating(t, cfg, s, taken, root, cut.chain, cut.costs, undone, best, lastPos)
    && Restorable(s.saved, cut.chain)
    && MoveAt(cfg, beyond, s.saved, cut.chain, best, lastPos, pos) == Stop(cut.forbidden)
  }

  /** The selected event after position `n`, and where it occurred last. */
  ghost predicate Selected(t: Trace, cfg: Config, n: nat, best: Event, lastPos: nat) {
    0 < n < |t| && Enabled(cfg, best) && Occurs(t, best, n + 1) && LatestUpTo(t, best, lastPos, n)
  }

  /** The first hop of the latest result that set the cost anew. */
  function Root(rs: seq<Emission>): Hop
    requires rs != [] && rs[Reset(rs, |rs| - 1)].chain != []
  {
    rs[Reset(rs, |rs| - 1)].chain[0]
  }

  /** `c` is a chain for the position after the results, made by appending a hop. */
  ghost predicate Appends(
    t: Trace, cfg: Config, s: State, h: Past, c: Chain, costs: int, undone: Option<nat>, pos: nat)
  {
    && 0 < pos && s.results != [] && s.results[Reset(s.results, |s.results| - 1)].chain != []
    && ChainOk(t, c, s.cps, |s.saved|)
    && CostRight(cfg, h.taken, undone, c, costs)
    && s.chain == s.results[|s.results| - 1].chain && LastHopOk(t, s.chain, c, pos - 1)
    && Rooted(Root(s.results), c, undone)
    && (BreakpointsOnly(cfg) ==>
          PlainChain(t, false, c) && Tight(t, ModeOf(cfg), c) && Cheapest(t, ModeOf(cfg), c))
  }
}
