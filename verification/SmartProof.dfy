/** What holds after every position of every Smart-Hopping run. */
module SmartProof {
  import opened Options
  import opened HopModel
  import opened HopOptimality
  import opened SmartRun
  import opened SmartChains
  import opened SmartAccounts
  import opened SmartInvariants

  // ---------------------------------------------------------------------
  // Truncation
  // ---------------------------------------------------------------------

  lemma {:induction false} DropLast(t: Trace, c: Chain, cps: seq<nat>, bound: nat)
    requires ChainOk(t, c, cps, bound) && |c| > 1
    ensures ChainOk(t, c[..|c| - 1], cps, bound)
    ensures Last(c[..|c| - 1]) == c[|c| - 2] && c[|c| - 2].pos < Last(c).pos
    ensures Cost(c) == Cost(c[..|c| - 1]) + HopCost(c[|c| - 2].event, Last(c).event)
  {
    PrefixNavigates(t, c, |c| - 1);
    AmbiguousPrefix(t, c, |c| - 1);
    PositionsIncrease(t, c, |c| - 2, |c| - 1);
  }

  /** Dropping the last hop takes back exactly what it costs, which the working cost
      still contains. */
  lemma {:induction false} DropKeeps(
    t: Trace, cfg: Config, s: State, taken: seq<Taken>, root: Hop, c: Chain, costs: int, undone: Option<nat>,
    best: Event, lastPos: nat)
    requires s.chain != [] && Truncating(t, cfg, s, taken, root, c, costs, undone, best, lastPos)
    requires |c| > 1 && MayDrop(cfg, c[|c| - 2], best, lastPos)
    ensures HopCost(c[|c| - 2].event, Last(c).event) <= costs
    ensures Truncating(t, cfg, s, taken, root, c[..|c| - 1],
                       costs - HopCost(c[|c| - 2].event, Last(c).event), undone, best, lastPos)
  {
    DropLast(t, c, s.cps, |s.saved|);
    CostBounds(c[..|c| - 1]);
  }

  /** Undoing a checkpoint goes back to the kept cost, which includes a hop that the
      kept chain does not. */
  lemma {:induction false} UndoKeeps(
    t: Trace, cfg: Config, s: State, h: Past, root: Hop, c: Chain, costs: int, undone: Option<nat>,
    best: Event, lastPos: nat)
    requires s.chain != [] && CheckpointsOk(t, cfg, s, h)
    requires Truncating(t, cfg, s, h.taken, root, c, costs, undone, best, lastPos)
    requires |c| == 1 && StartsAtCheckpoint(c) && Restorable(s.saved, c)
    requires MayDrop(cfg, Last(s.saved[c[0].event.address].chain), best, lastPos)
    ensures var id := c[0].event.address;
            Truncating(t, cfg, s, h.taken, root, s.saved[id].chain, s.saved[id].costs, Some(id), best, lastPos)
  {
    var id := c[0].event.address;
    assert SavedOk(t, s.saved[id], s.cps, id) && SavedCost(t, cfg, s.saved[id], h.taken, s.cps, id);
    ChainOkMonotone(t, s.saved[id].chain, s.cps, s.cps, id, |s.saved|);
  }

  /** Truncation keeps all this to its end. */
  lemma {:induction false} CutKeeps(
    t: Trace, cfg: Config, beyond: Beyond, s: State, h: Past, root: Hop, c: Chain, costs: int, undone: Option<nat>,
    best: Event, lastPos: nat, pos: nat)
    requires s.chain != [] && CheckpointsOk(t, cfg, s, h) && Restorable(s.saved, c)
    requires Truncating(t, cfg, s, h.taken, root, c, costs, undone, best, lastPos)
    ensures CutEnds(t, cfg, beyond, s, h.taken, root,
                    CutBack(cfg, beyond, s.saved, c, costs, best, lastPos, pos),
                    LastUndone(cfg, beyond, s.saved, c, best, lastPos, pos, undone), best, lastPos, pos)
    decreases LeadingCheckpoint(c), |c|
  {
    match MoveAt(cfg, beyond, s.saved, c, best, lastPos, pos)
    case Stop(_) =>
    case Drop =>
      DropKeeps(t, cfg, s, h.taken, root, c, costs, undone, best, lastPos);
      CutKeeps(t, cfg, beyond, s, h, root, c[..|c| - 1], costs - HopCost(c[|c| - 2].event, Last(c).event), undone,
               best, lastPos, pos);
    case Undo(id) =>
      UndoKeeps(t, cfg, s, h, root, c, costs, undone, best, lastPos);
      CutKeeps(t, cfg, beyond, s, h, root, s.saved[id].chain, s.saved[id].costs, Some(id), best, lastPos, pos);
  }

  // ---------------------------------------------------------------------
  // Appending a hop
  // ---------------------------------------------------------------------

  /** In the breakpoint-only mode truncation follows the stack policy, so the
      extended chain stays tight. */
  lemma {:induction false} ExtendTight(t: Trace, cfg: Config, chain0: Chain, chain: Chain, best: Event, lastPos: nat)
    requires ValidTrace(t) && BreakpointsOnly(cfg)
    requires PlainChain(t, false, chain0) && Tight(t, ModeOf(cfg), chain0)
    requires Enabled(cfg, best) && Occurs(t, best, Last(chain0).pos + 1)
    requires LatestUpTo(t, best, lastPos, Last(chain0).pos)
    requires chain != [] && chain <= chain0 && lastPos <= Last(chain).pos
    requires |chain| == |chain0| || MayDrop(cfg, Last(chain), best, lastPos)
    requires |chain| == 1 || !MayDrop(cfg, chain[|chain| - 2], best, lastPos)
    ensures var n := chain + [Hop(best, Last(chain0).pos + 1)];
            PlainChain(t, false, n) && Tight(t, ModeOf(cfg), n) && Cheapest(t, ModeOf(cfg), n)
  {
    var m := |chain|;
    if m > 1 {
      assert HopLands(t, chain0, m - 2);
      if chain[m - 2].pos == lastPos {
        ExecuteUnique(t, lastPos, chain[m - 2].event, best);
      }
    }
    assert chain == chain0[..m];
    BreakpointSeenSince(t, best, lastPos, Last(chain0).pos);
    TightStep(t, ModeOf(cfg), chain0, m, best, lastPos);
    TightIsCheapest(t, ModeOf(cfg), chain + [Hop(best, Last(chain0).pos + 1)]);
  }

  /** Appending the selected event to the truncated chain. */
  lemma {:induction false} ExtendedOk(
    t: Trace, cfg: Config, s: State, h: Past, root: Hop, c: Chain, costs: int, undone: Option<nat>,
    best: Event, lastPos: nat, pos: nat)
    requires ValidTrace(t) && 1 < pos && Selected(t, cfg, pos - 1, best, lastPos)
    requires CheckpointsOk(t, cfg, s, h) && CurrentOk(t, cfg, pos - 1, s, h)
    requires Truncating(t, cfg, s, h.taken, root, c, costs, undone, best, lastPos)
    requires |c| == 1 || !MayDrop(cfg, c[|c| - 2], best, lastPos)
    requires root == Root(s.results)
    ensures Appends(t, cfg, s, h, c + [Hop(best, pos)], costs + HopCost(Last(c).event, best), undone, pos)
  {
    AppendNavigates(t, c, Hop(best, pos));
    CostAppend(c, Hop(best, pos));
    AmbiguousAppend(t, s.chain, c, best, lastPos, pos);
    if BreakpointsOnly(cfg) {
      ExtendTight(t, cfg, s.chain, c, best, lastPos);
    }
  }

  lemma {:induction false} StopsThere(
    cfg: Config, beyond: Beyond, saved: seq<Saved>, cut: Cut, best: Event, lastPos: nat, pos: nat)
    requires Restorable(saved, cut.chain)
    requires MoveAt(cfg, beyond, saved, cut.chain, best, lastPos, pos) == Stop(cut.forbidden)
    ensures |cut.chain| == 1 || !MayDrop(cfg, cut.chain[|cut.chain| - 2], best, lastPos)
  {
  }

  /** Why undoing was forbidden. */
  lemma {:induction false} ForbiddenBy(
    t: Trace, cfg: Config, beyond: Beyond, saved: seq<Saved>, c: Chain, best: Event, lastPos: nat, pos: nat,
    forbidden: bool)
    requires 1 <= pos && Restorable(saved, c) && LatestUpTo(t, best, lastPos, pos - 1)
    requires MoveAt(cfg, beyond, saved, c, best, lastPos, pos) == Stop(forbidden)
    ensures ForbiddenOk(t, cfg, beyond, saved, c + [Hop(best, pos)], pos - 1, forbidden)
    ensures forbidden ==> |c| == 1 && StartsAtCheckpoint(c)
  {
  }

  /** The threshold is only exceeded after a forbidden undoing. */
  lemma {:induction false} AppendedCost(
    t: Trace, cfg: Config, taken: seq<Taken>, undone: Option<nat>, c: Chain, costs: int, best: Event, pos: nat,
    forbidden: bool)
    requires ValidTrace(t) && Occurs(t, best, pos) && CostRight(cfg, taken, undone, c, costs)
    requires forbidden ==> |c| == 1 && StartsAtCheckpoint(c)
    requires forbidden || !cfg.useCheckpoints || costs + HopCost(Last(c).event, best) <= cfg.cpThresh
    ensures var n := c + [Hop(best, pos)];
            var total := costs + HopCost(Last(c).event, best);
            total > 0 && CostOk(cfg, Reported(n, total), taken, Account(undone, forbidden))
  {
    CostAppend(c, Hop(best, pos));
    CostBounds(c + [Hop(best, pos)]);
    assert ValidPosition(t[pos - 1]);
  }

  /** Appending is a way the next result can come about. */
  lemma {:induction false} AppendComesAbout(
    t: Trace, cfg: Config, beyond: Beyond, n: nat, s: State, h: Past, cut: Cut, undone: Option<nat>,
    best: Event, lastPos: nat)
    requires ValidTrace(t) && Selected(t, cfg, n, best, lastPos) && |s.results| == n
    requires Restorable(s.saved, cut.chain) && CostRight(cfg, h.taken, undone, cut.chain, cut.costs)
    requires MoveAt(cfg, beyond, s.saved, cut.chain, best, lastPos, n + 1) == Stop(cut.forbidden)
    requires !TakesCheckpoint(cfg, cut, best)
    requires Appends(t, cfg, s, h, cut.chain + [Hop(best, n + 1)], Total(cut, best), undone, n + 1)
    ensures ComesAbout(t, cfg, beyond, s.results, s.saved, h.taken, cut.chain + [Hop(best, n + 1)], Total(cut, best),
                       Account(undone, cut.forbidden))
  {
    ForbiddenBy(t, cfg, beyond, s.saved, cut.chain, best, lastPos, n + 1, cut.forbidden);
    AppendedCost(t, cfg, h.taken, undone, cut.chain, cut.costs, best, n + 1, cut.forbidden);
  }

  /** A chain with the right cost is a good result for its position. */
  lemma {:induction false} IsResult(
    t: Trace, cfg: Config, s: State, h: Past, c: Chain, costs: int, undone: Option<nat>)
    requires CheckpointsOk(t, cfg, s, h) && ChainOk(t, c, s.cps, |s.saved|)
    requires CostRight(cfg, h.taken, undone, c, costs)
    requires BreakpointsOnly(cfg) ==> Cheapest(t, ModeOf(cfg), c)
    ensures ResultOk(t, cfg, Reported(c, costs), s.cps, Last(c).pos)
  {
    CostBounds(c);
  }

  lemma {:induction false} AppendEmitted(
    t: Trace, cfg: Config, beyond: Beyond, n: nat, s: State, h: Past, c: Chain, costs: int, a: Account)
    requires n < |t| && |s.results| == n && CheckpointsOk(t, cfg, s, h) && ResultsOk(t, cfg, beyond, s, h)
    requires Appends(t, cfg, s, h, c, costs, a.undone, n + 1) && Last(c).pos == n + 1
    requires ComesAbout(t, cfg, beyond, s.results, s.saved, h.taken, c, costs, a)
    ensures Good(t, cfg, beyond, n + 1,
                 s.(chain := c, costs := costs, results := s.results + [Reported(c, costs)]),
                 Past(h.taken, h.accounts + [a], a.undone))
  {
    IsResult(t, cfg, s, h, c, costs, a.undone);
    Emitted(t, cfg, beyond, s, h, c, costs, a);
  }

  lemma {:induction false} AppendKeeps(
    t: Trace, cfg: Config, beyond: Beyond, n: nat, s: State, h: Past, cut: Cut, undone: Option<nat>,
    best: Event, lastPos: nat)
    requires ValidTrace(t) && Selected(t, cfg, n, best, lastPos) && Good(t, cfg, beyond, n, s, h)
    requires CutEnds(t, cfg, beyond, s, h.taken, Root(s.results), cut, undone, best, lastPos, n + 1)
    requires !TakesCheckpoint(cfg, cut, best)
    ensures Good(t, cfg, beyond, n + 1, Continued(cfg, s, best, n + 1, cut), ContinuedPast(cfg, h, best, cut, undone))
  {
    var c, total := cut.chain + [Hop(best, n + 1)], Total(cut, best);
    StopsThere(cfg, beyond, s.saved, cut, best, lastPos, n + 1);
    ExtendedOk(t, cfg, s, h, Root(s.results), cut.chain, cut.costs, undone, best, lastPos, n + 1);
    AppendComesAbout(t, cfg, beyond, n, s, h, cut, undone, best, lastPos);
    AppendEmitted(t, cfg, beyond, n, s, h, c, total, Account(undone, cut.forbidden));
  }

  /** Emitting a chain that comes about from the results. */
  lemma {:induction false} Emitted(
    t: Trace, cfg: Config, beyond: Beyond, s: State, h: Past, c: Chain, costs: int, a: Account)
    requires ResultsOk(t, cfg, beyond, s, h)
    requires ComesAbout(t, cfg, beyond, s.results, s.saved, h.taken, c, costs, a)
    requires ResultOk(t, cfg, Reported(c, costs), s.cps, |s.results| + 1)
    ensures ResultsOk(t, cfg, beyond, s.(chain := c, costs := costs, results := s.results + [Reported(c, costs)]),
                      Past(h.taken, h.accounts + [a], a.undone))
    ensures UndoneOk(s.results + [Reported(c, costs)], |s.results|, a.undone)
  {
    AppendOk(t, cfg, s.results, Reported(c, costs), s.cps);
    AppendAccounted(t, cfg, beyond, s.results, s.saved, h.taken, h.accounts, c, costs, a);
    AppendTaken(s.results, Reported(c, costs), s.saved, h.taken, s.cps);
  }

  // ---------------------------------------------------------------------
  // Taking a checkpoint
  // ---------------------------------------------------------------------

  /** With sane thresholds a checkpoint taken without a surplus keeps a chain longer than
      the look-ahead that may later be made into it. */
  lemma {:induction false} LookAheadInRange(cfg: Config, c: Chain, best: Event)
    requires ValidConfig(cfg) && cfg.useCheckpoints && c != []
    requires ChainCost(cfg, c) + HopCost(Last(c).event, best) > cfg.cpThresh
    ensures cfg.rollbackThresh < |c|
  {
    CostBounds(c);
  }

  lemma {:induction false} SavedNow(
    t: Trace, cfg: Config, s: State, h: Past, cut: Cut, undone: Option<nat>, best: Event, pos: nat)
    requires CheckpointsOk(t, cfg, s, h) && Known(h.taken, undone)
    requires ChainOk(t, cut.chain, s.cps, |s.saved|) && Last(cut.chain).pos < pos && Occurs(t, best, pos)
    requires CostRight(cfg, h.taken, undone, cut.chain, cut.costs) && TakesCheckpoint(cfg, cut, best)
    ensures var tk := Taken(best, HopCost(Last(cut.chain).event, best), undone);
            AllSaved(t, cfg, s.saved + [Saved(Total(cut, best), cut.chain)], h.taken + [tk], s.cps + [pos])
  {
    var tk := Taken(best, HopCost(Last(cut.chain).event, best), undone);
    var saved := Saved(Total(cut, best), cut.chain);
    if ValidConfig(cfg) && undone.None? { LookAheadInRange(cfg, cut.chain, best); }
    SurplusPrefix(h.taken, h.taken + [tk], undone);
    ChainOkMonotone(t, cut.chain, s.cps, s.cps + [pos], |s.saved|, |s.saved|);
    CheckpointSaved(t, cfg, s.saved, saved, h.taken, tk, s.cps, pos);
  }

  lemma {:induction false} TakenNow(rs: seq<Emission>, saved: Saved, tk: Taken)
    requires rs != [] && rs[Reset(rs, |rs| - 1)].chain != [] && Rooted(Root(rs), saved.chain, tk.undone)
    ensures TakenOk(rs, saved, tk, |rs| + 1)
  {
  }

  /** The results so far stay right when a checkpoint is taken. */
  lemma {:induction false} CheckpointRecorded(
    t: Trace, cfg: Config, beyond: Beyond, s: State, h: Past, saved: Saved, tk: Taken, pos: nat)
    requires ResultsOk(t, cfg, beyond, s, h) && Ordered(h.taken + [tk]) && TakenOk(s.results, saved, tk, pos)
    ensures ResultsOk(t, cfg, beyond, s.(saved := s.saved + [saved], cps := s.cps + [pos]),
                      h.(taken := h.taken + [tk]))
  {
    CheckpointAccounted(t, cfg, beyond, s.results, s.saved, saved, h.taken, tk, h.accounts);
    CheckpointTaken(s.results, s.saved, saved, h.taken, tk, s.cps, pos);
    AllOkMonotone(t, cfg, s.results, s.cps, s.cps + [pos]);
  }

  /** A state right after a checkpoint was taken. */
  lemma {:induction false} CheckpointEmitted(
    t: Trace, cfg: Config, beyond: Beyond, n: nat, s: State, h: Past, c: Chain)
    requires 0 < n < |t| && |s.results| == n && cfg.useCheckpoints
    requires AllSaved(t, cfg, s.saved, h.taken, s.cps) && ResultsOk(t, cfg, beyond, s, h)
    requires s.results[n - 1].chain != []
    requires s.saved != [] && s.cps[|s.saved| - 1] == n + 1
    requires c == [Hop(Event(|s.saved| - 1, Checkpoint), n + 1)]
    ensures Good(t, cfg, beyond, n + 1,
                 s.(chain := c, costs := cfg.costCp, results := s.results + [Reported(c, cfg.costCp)]),
                 Past(h.taken, h.accounts + [Account(None, false)], None))
  {
    BareCheckpoint(t, cfg, beyond, s.results, s.saved, h.taken, c);
    Emitted(t, cfg, beyond, s, h, c, cfg.costCp, Account(None, false));
  }

  lemma {:induction false} CheckpointKeeps(
    t: Trace, cfg: Config, beyond: Beyond, n: nat, s: State, h: Past, cut: Cut, undone: Option<nat>,
    best: Event, lastPos: nat)
    requires ValidTrace(t) && Selected(t, cfg, n, best, lastPos) && Good(t, cfg, beyond, n, s, h)
    requires CutEnds(t, cfg, beyond, s, h.taken, Root(s.results), cut, undone, best, lastPos, n + 1)
    requires TakesCheckpoint(cfg, cut, best)
    ensures Good(t, cfg, beyond, n + 1, Continued(cfg, s, best, n + 1, cut), ContinuedPast(cfg, h, best, cut, undone))
  {
    var tk := Taken(best, HopCost(Last(cut.chain).event, best), undone);
    var saved := Saved(Total(cut, best), cut.chain);
    var c := [Hop(Event(|s.saved|, Checkpoint), n + 1)];
    SavedNow(t, cfg, s, h, cut, undone, best, n + 1);
    TakenNow(s.results, saved, tk);
    CheckpointRecorded(t, cfg, beyond, s, h, saved, tk, n + 1);
    CheckpointEmitted(t, cfg, beyond, n, s.(saved := s.saved + [saved], cps := s.cps + [n + 1]),
                      h.(taken := h.taken + [tk]), c);
  }

  // ---------------------------------------------------------------------
  // The theorem
  // ---------------------------------------------------------------------

  lemma {:induction false} StartKeeps(
    t: Trace, cfg: Config, beyond: Beyond, n: nat, s: State, h: Past, e: Event)
    requires ValidTrace(t) && n < |t| && Good(t, cfg, beyond, n, s, h)
    requires Enabled(cfg, e) && Lands(t, e, 0, n + 1)
    ensures Good(t, cfg, beyond, n + 1, Started(s, e, n + 1),
                 Past(h.taken, h.accounts + [Account(None, false)], None))
  {
    var c := [Hop(e, n + 1)];
    assert ValidPosition(t[n]);
    assert HopLands(t, c, 0);
    if BreakpointsOnly(cfg) {
      TightSingle(t, ModeOf(cfg), e, n + 1);
      TightIsCheapest(t, ModeOf(cfg), c);
    }
    Emitted(t, cfg, beyond, s, h, c, COST_CHANGE, Account(None, false));
  }

  lemma {:induction false} ContinueKeeps(
    t: Trace, cfg: Config, beyond: Beyond, n: nat, s: State, h: Past, best: Event, lastPos: nat)
    requires ValidTrace(t) && Selected(t, cfg, n, best, lastPos) && Good(t, cfg, beyond, n, s, h)
    requires Restorable(s.saved, s.chain)
    ensures var cut := CutBack(cfg, beyond, s.saved, s.chain, s.costs, best, lastPos, n + 1);
            var u := LastUndone(cfg, beyond, s.saved, s.chain, best, lastPos, n + 1, h.undone);
            Good(t, cfg, beyond, n + 1, Continued(cfg, s, best, n + 1, cut), ContinuedPast(cfg, h, best, cut, u))
  {
    var cut := CutBack(cfg, beyond, s.saved, s.chain, s.costs, best, lastPos, n + 1);
    var u := LastUndone(cfg, beyond, s.saved, s.chain, best, lastPos, n + 1, h.undone);
    CutKeeps(t, cfg, beyond, s, h, Root(s.results), s.chain, s.costs, h.undone, best, lastPos, n + 1);
    if TakesCheckpoint(cfg, cut, best) {
      CheckpointKeeps(t, cfg, beyond, n, s, h, cut, u, best, lastPos);
    } else {
      AppendKeeps(t, cfg, beyond, n, s, h, cut, u, best, lastPos);
    }
  }

  lemma {:induction false} RecordedLatest(t: Trace, cfg: Config, latest: map<Event, nat>, n: nat)
    requires n < |t| && KnowsLatest(t, cfg, latest, n)
    ensures KnowsLatest(t, cfg, Recorded(cfg, latest, t[n], n + 1), n + 1)
  {
    LatestStep(t, cfg, latest, Recorded(cfg, latest, t[n], n + 1), n);
  }

  lemma {:induction false} LatestIrrelevant(
    t: Trace, cfg: Config, beyond: Beyond, n: nat, s: State, h: Past, latest: map<Event, nat>)
    requires Good(t, cfg, beyond, n, s, h)
    ensures Good(t, cfg, beyond, n, s.(latest := latest), h)
  {
  }

  /** The event selected at the next position. */
  lemma {:induction false} EventSelected(t: Trace, cfg: Config, latest: map<Event, nat>, n: nat)
    requires ValidTrace(t) && n < |t| && KnowsLatest(t, cfg, latest, n)
    ensures var first := NewEvent(cfg, latest, t[n]);
            var oldest := Oldest(cfg, latest, t[n]);
            if first.Some? then Enabled(cfg, first.value) && Lands(t, first.value, 0, n + 1)
            else oldest.Some? && Selected(t, cfg, n, oldest.value, latest[oldest.value])
  {
    assert t[n][0] in t[n] && Enabled(cfg, t[n][0]);
  }

  lemma {:induction false} NextKeeps(t: Trace, cfg: Config, beyond: Beyond, n: nat, s: State, h: Past)
    requires ValidTrace(t) && n < |t| && Inv(t, cfg, beyond, n, s, h) && ValidState(s)
    ensures Inv(t, cfg, beyond, n + 1, Next(cfg, beyond, s, t[n], n + 1), NextPast(cfg, beyond, s, h, t[n], n + 1))
  {
    var first, oldest := NewEvent(cfg, s.latest, t[n]), Oldest(cfg, s.latest, t[n]);
    var s' := s.(latest := Recorded(cfg, s.latest, t[n], n + 1));
    RecordedLatest(t, cfg, s.latest, n);
    LatestIrrelevant(t, cfg, beyond, n, s, h, s'.latest);
    EventSelected(t, cfg, s.latest, n);
    if first.Some? {
      StartKeeps(t, cfg, beyond, n, s', h, first.value);
    } else {
      ContinueKeeps(t, cfg, beyond, n, s', h, oldest.value, s.latest[oldest.value]);
    }
  }

  /** Every trace leads somewhere, namely to the end of its run. */
  lemma {:induction false} LeadsToRun(t: Trace, cfg: Config, beyond: Beyond)
    requires ValidTrace(t)
    ensures LeadsTo(cfg, beyond, t, Run(cfg, beyond, t), PastOf(cfg, beyond, t))
  {
  }

  lemma {:induction false} LeadsToNext(
    t: Trace, cfg: Config, beyond: Beyond, n: nat, s: State, h: Past, s': State, h': Past)
    requires ValidTrace(t) && n < |t|
    requires LeadsTo(cfg, beyond, t[..n], s, h) && LeadsTo(cfg, beyond, t[..n + 1], s', h')
    ensures ValidState(s)
    ensures s' == Next(cfg, beyond, s, t[n], n + 1) && h' == NextPast(cfg, beyond, s, h, t[n], n + 1)
  {
    assert IsTrace(t[..n], t[..n]) && IsTrace(t[..n + 1], t[..n + 1]);
    assert t[..n + 1][..n] == t[..n];
  }

  /** Where a trace led before its last position. */
  lemma {:induction false} LedFrom(t: Trace, cfg: Config, beyond: Beyond, n: nat, s: State, h: Past)
    returns (s0: State, h0: Past)
    requires ValidTrace(t) && 0 < n <= |t| && LeadsTo(cfg, beyond, t[..n], s, h)
    ensures LeadsTo(cfg, beyond, t[..n - 1], s0, h0) && ValidState(s0)
    ensures s == Next(cfg, beyond, s0, t[n - 1], n) && h == NextPast(cfg, beyond, s0, h0, t[n - 1], n)
  {
    s0, h0 := Run(cfg, beyond, t[..n - 1]), PastOf(cfg, beyond, t[..n - 1]);
    LeadsToRun(t[..n - 1], cfg, beyond);
    LeadsToNext(t, cfg, beyond, n - 1, s0, h0, s, h);
  }

  lemma {:induction false} NothingKeeps(t: Trace, cfg: Config, beyond: Beyond, s: State, h: Past)
    requires LeadsTo(cfg, beyond, [], s, h)
    ensures Inv(t, cfg, beyond, 0, s, h)
  {
    assert IsTrace([], []);
  }

  /** The invariant holds after every position of every run. */
  lemma {:induction false} PrefixKeeps(t: Trace, cfg: Config, beyond: Beyond, n: nat, s: State, h: Past)
    requires ValidTrace(t) && n <= |t| && LeadsTo(cfg, beyond, t[..n], s, h)
    ensures Inv(t, cfg, beyond, n, s, h)
    decreases n
  {
    if n == 0 {
      assert t[..n] == [];
      NothingKeeps(t, cfg, beyond, s, h);
    } else {
      var s0, h0 := LedFrom(t, cfg, beyond, n, s, h);
      PrefixKeeps(t, cfg, beyond, n - 1, s0, h0);
      NextKeeps(t, cfg, beyond, n - 1, s0, h0);
    }
  }

  /** Wherever a trace leads. */
  lemma {:induction false} RunKeeps(t: Trace, cfg: Config, beyond: Beyond, s: State, h: Past)
    requires ValidTrace(t) && LeadsTo(cfg, beyond, t, s, h)
    ensures Inv(t, cfg, beyond, |t|, s, h)
  {
    assert t[..|t|] == t;
    PrefixKeeps(t, cfg, beyond, |t|, s, h);
  }

  lemma {:induction false} LatestBefore(t: Trace, cfg: Config, beyond: Beyond, n: nat)
    requires ValidTrace(t) && n <= |t|
    ensures var latest := Run(cfg, beyond, t[..n]).latest; forall e | e in latest :: latest[e] <= n
  {
    LeadsToRun(t[..n], cfg, beyond);
    PrefixKeeps(t, cfg, beyond, n, Run(cfg, beyond, t[..n]), PastOf(cfg, beyond, t[..n]));
  }
}
