/** What Smart-Hopping does at a position, said by where events occur in the trace: which
    event is taken, how far the chain is cut back, why no further, and when a checkpoint is
    taken instead of a hop. */
module SmartLaws {
  import opened Options
  import opened HopModel
  import opened HopOptimality
  import opened SmartRun
  import opened SmartChains
  import opened SmartAccounts
  import opened SmartInvariants

  // ---------------------------------------------------------------------
  // How far a chain is cut back
  // ---------------------------------------------------------------------

  /** After hop `left`, waiting for `e` would stop before position `i + 1`; or `e` occurs at
      `left` itself, where with weights repeating it is not wanted, and where waiting for
      another event than `left` did would be ambiguous. */
  ghost predicate Stuck(t: Trace, cfg: Config, left: Hop, e: Event, i: nat) {
    OccursWithin(t, e, if cfg.useWeights || left.event != e then left.pos - 1 else left.pos, i)
  }

  /** Too few hops of the chain kept with checkpoint `id` would go. */
  ghost predicate TooFew(t: Trace, cfg: Config, beyond: Beyond, kept: Chain, id: nat, e: Event, i: nat) {
    if cfg.rollbackThresh < |kept|
    then OccursWithin(t, e, kept[|kept| - 1 - cfg.rollbackThresh].pos, i)
    else beyond(i + 1, id)
  }

  /** `c` can be cut back to `kept` for the sake of event `e`: hops go from its end, and if
      all do, a leading checkpoint is undone, which leaves the chain kept with it. */
  ghost predicate CutTo(
    t: Trace, cfg: Config, beyond: Beyond, saved: seq<Saved>, c: Chain, undone: Option<nat>,
    kept: Chain, undone': Option<nat>, e: Event, i: nat)
    decreases LeadingCheckpoint(c)
  {
    || (&& kept != [] && kept <= c && undone' == undone
        && (kept == c || !Stuck(t, cfg, Last(kept), e, i)))
    || (&& StartsAtCheckpoint(c) && c[0].event.address < |saved|
        && var id := c[0].event.address;
           && saved[id].chain != [] && LeadingCheckpoint(saved[id].chain) <= id
           && !TooFew(t, cfg, beyond, saved[id].chain, id, e, i)
           && !Stuck(t, cfg, Last(saved[id].chain), e, i)
           && CutTo(t, cfg, beyond, saved, saved[id].chain, Some(id), kept, undone', e, i))
  }

  /** Nothing more can go from `c`. */
  ghost predicate Ends(
    t: Trace, cfg: Config, beyond: Beyond, saved: seq<Saved>, c: Chain, e: Event, i: nat, forbidden: bool)
  {
    if |c| > 1 then !forbidden && Stuck(t, cfg, c[|c| - 2], e, i)
    else if !StartsAtCheckpoint(c) then !forbidden
    else
      && c[0].event.address < |saved| && saved[c[0].event.address].chain != []
      && var id := c[0].event.address;
         && forbidden == TooFew(t, cfg, beyond, saved[id].chain, id, e, i)
         && (forbidden || Stuck(t, cfg, Last(saved[id].chain), e, i))
  }

  /** `cut` is what the occurrences of `e` make of `c`. */
  ghost predicate CutAsDue(
    t: Trace, cfg: Config, beyond: Beyond, saved: seq<Saved>, c: Chain, undone: Option<nat>,
    cut: Cut, undone': Option<nat>, e: Event, i: nat)
  {
    && CutTo(t, cfg, beyond, saved, c, undone, cut.chain, undone', e, i)
    && Ends(t, cfg, beyond, saved, cut.chain, e, i, cut.forbidden)
  }

  lemma {:induction false} WithinIsLater(t: Trace, e: Event, last: int, i: nat, lo: int)
    requires LatestUpTo(t, e, last, i)
    ensures OccursWithin(t, e, lo, i) <==> lo < last
  {
  }

  lemma {:induction false} StuckIff(t: Trace, cfg: Config, left: Hop, e: Event, last: nat, i: nat)
    requires LatestUpTo(t, e, last, i)
    ensures Stuck(t, cfg, left, e, i) <==> !MayDrop(cfg, left, e, last)
  {
    WithinIsLater(t, e, last, i, if cfg.useWeights || left.event != e then left.pos - 1 else left.pos);
  }

  lemma {:induction false} TooFewIff(
    t: Trace, cfg: Config, beyond: Beyond, kept: Chain, id: nat, e: Event, last: nat, i: nat)
    requires LatestUpTo(t, e, last, i)
    ensures TooFew(t, cfg, beyond, kept, id, e, i) <==> Forbids(cfg, beyond, kept, id, last, i + 1)
  {
    if cfg.rollbackThresh < |kept| {
      WithinIsLater(t, e, last, i, kept[|kept| - 1 - cfg.rollbackThresh].pos);
    }
  }

  /** Dropping the last hop first. */
  lemma {:induction false} DropFirst(
    t: Trace, cfg: Config, beyond: Beyond, saved: seq<Saved>, c: Chain, undone: Option<nat>,
    cut: Cut, undone': Option<nat>, e: Event, last: nat, i: nat)
    requires LatestUpTo(t, e, last, i) && |c| > 1 && MayDrop(cfg, c[|c| - 2], e, last)
    requires CutAsDue(t, cfg, beyond, saved, c[..|c| - 1], undone, cut, undone', e, i)
    ensures CutAsDue(t, cfg, beyond, saved, c, undone, cut, undone', e, i)
  {
    var d := c[..|c| - 1];
    StuckIff(t, cfg, c[|c| - 2], e, last, i);
    assert Last(d) == c[|c| - 2] && LeadingCheckpoint(d) == LeadingCheckpoint(c);
  }

  /** Undoing the leading checkpoint first. */
  lemma {:induction false} UndoFirst(
    t: Trace, cfg: Config, beyond: Beyond, saved: seq<Saved>, c: Chain, id: nat, undone: Option<nat>,
    cut: Cut, undone': Option<nat>, e: Event, last: nat, i: nat)
    requires Restorable(saved, c) && LatestUpTo(t, e, last, i)
    requires MoveAt(cfg, beyond, saved, c, e, last, i + 1) == Undo(id)
    requires id < |saved| && CutAsDue(t, cfg, beyond, saved, saved[id].chain, Some(id), cut, undone', e, i)
    ensures CutAsDue(t, cfg, beyond, saved, c, undone, cut, undone', e, i)
  {
    StuckIff(t, cfg, Last(saved[id].chain), e, last, i);
    TooFewIff(t, cfg, beyond, saved[id].chain, id, e, last, i);
  }

  /** Stopping at once. */
  lemma {:induction false} StopFirst(
    t: Trace, cfg: Config, beyond: Beyond, saved: seq<Saved>, c: Chain, undone: Option<nat>,
    cut: Cut, e: Event, last: nat, i: nat)
    requires Restorable(saved, c) && LatestUpTo(t, e, last, i)
    requires MoveAt(cfg, beyond, saved, c, e, last, i + 1) == Stop(cut.forbidden) && cut.chain == c
    ensures CutAsDue(t, cfg, beyond, saved, c, undone, cut, undone, e, i)
  {
    if |c| > 1 {
      StuckIff(t, cfg, c[|c| - 2], e, last, i);
    } else if StartsAtCheckpoint(c) {
      var id := c[0].event.address;
      StuckIff(t, cfg, Last(saved[id].chain), e, last, i);
      TooFewIff(t, cfg, beyond, saved[id].chain, id, e, last, i);
    }
  }

  lemma {:induction false} CutToMonotone(
    t: Trace, cfg: Config, beyond: Beyond, saved: seq<Saved>, more: seq<Saved>, c: Chain, undone: Option<nat>,
    kept: Chain, undone': Option<nat>, e: Event, i: nat)
    requires CutTo(t, cfg, beyond, saved, c, undone, kept, undone', e, i) && saved <= more
    ensures CutTo(t, cfg, beyond, more, c, undone, kept, undone', e, i)
    decreases LeadingCheckpoint(c)
  {
    if !(kept != [] && kept <= c && undone' == undone && (kept == c || !Stuck(t, cfg, Last(kept), e, i))) {
      var id := c[0].event.address;
      CutToMonotone(t, cfg, beyond, saved, more, saved[id].chain, Some(id), kept, undone', e, i);
    }
  }

  // ---------------------------------------------------------------------
  // One position
  // ---------------------------------------------------------------------

  /** `e` is usable and occurs at position `i + 1` for the first time. */
  ghost predicate FirstSeen(t: Trace, cfg: Config, e: Event, i: nat) {
    Enabled(cfg, e) && Lands(t, e, 0, i + 1)
  }

  /** `e` is the usable event of position `i + 1` that occurred longest ago. */
  ghost predicate LongestAgo(t: Trace, cfg: Config, e: Event, i: nat) {
    && Enabled(cfg, e) && Occurs(t, e, i + 1)
    && exists last :: LatestUpTo(t, e, last, i) && SeenSince(t, cfg.useWatchpoints, last, i)
  }

  /** What the run has recorded. */
  datatype Record = Record(
    rs: seq<Emission>, saved: seq<Saved>, cps: seq<nat>, taken: seq<Taken>, accounts: seq<Account>)

  function RecordOf(s: State, h: Past): Record {
    Record(s.results, s.saved, s.cps, h.taken, h.accounts)
  }

  ghost predicate Extends(a: Record, b: Record) {
    && a.rs <= b.rs && a.saved <= b.saved && a.cps <= b.cps && a.taken <= b.taken && a.accounts <= b.accounts
    && Ordered(b.taken)
  }

  /** The cost of a hop to `e` after `kept`, with the surplus. */
  function HopTotal(cfg: Config, taken: seq<Taken>, kept: Chain, undone: Option<nat>, e: Event): int
    requires kept != [] && Ordered(taken) && Known(taken, undone)
  {
    ChainCost(cfg, kept) + Surplus(taken, undone) + HopCost(Last(kept).event, e)
  }

  /** Result `i` was made from the previous one by cutting back to `kept` for `e`.  It is a
      new checkpoint if and only if checkpoints are used, the hop would exceed the
      threshold, and no undoing was forbidden; otherwise it is `kept` and the hop. */
  ghost predicate MadeFrom(
    t: Trace, cfg: Config, beyond: Beyond, o: Record, i: nat, e: Event, kept: Chain, undone: Option<nat>,
    forbidden: bool)
  {
    && 0 < i < |o.rs| == |o.accounts|
    && LongestAgo(t, cfg, e, i)
    && CutTo(t, cfg, beyond, o.saved, o.rs[i - 1].chain, o.accounts[i - 1].undone, kept, undone, e, i)
    && Ends(t, cfg, beyond, o.saved, kept, e, i, forbidden)
    && kept != [] && Ordered(o.taken) && Known(o.taken, undone)
    && var total := HopTotal(cfg, o.taken, kept, undone, e);
       if cfg.useCheckpoints && total > cfg.cpThresh && !forbidden
       then CheckpointTakenAt(cfg, o, i, e, Saved(total, kept), undone)
       else o.rs[i] == Reported(kept + [Hop(e, i + 1)], total) && o.accounts[i] == Account(undone, forbidden)
  }

  /** Result `i` is a new checkpoint, with which `kept` was saved. */
  ghost predicate CheckpointTakenAt(cfg: Config, o: Record, i: nat, e: Event, kept: Saved, undone: Option<nat>) {
    && i < |o.rs| == |o.accounts| && kept.chain != []
    && exists k | 0 <= k < |o.saved| :: CheckpointIs(cfg, o, i, e, kept, undone, k)
  }

  ghost predicate CheckpointIs(
    cfg: Config, o: Record, i: nat, e: Event, kept: Saved, undone: Option<nat>, k: nat)
    requires kept.chain != []
  {
    && i < |o.rs| == |o.accounts| && k < |o.saved| && k < |o.cps| && k < |o.taken|
    && o.rs[i] == Reported([Hop(Event(k, Checkpoint), i + 1)], cfg.costCp)
    && o.saved[k] == kept && o.cps[k] == i + 1
    && o.taken[k] == Taken(e, HopCost(Last(kept.chain).event, e), undone)
    && o.accounts[i] == Account(None, false)
  }

  /** The law of position `i + 1`: an event seen for the first time starts a new chain;
      without one, the chain is continued. */
  ghost predicate StepLaw(t: Trace, cfg: Config, beyond: Beyond, o: Record, i: nat) {
    && i < |o.rs| == |o.accounts|
    && if exists e :: FirstSeen(t, cfg, e, i)
       then exists e | FirstSeen(t, cfg, e, i) :: StartedWith(o, i, e)
       else exists e, kept, undone, forbidden :: MadeFrom(t, cfg, beyond, o, i, e, kept, undone, forbidden)
  }

  ghost predicate StartedWith(o: Record, i: nat, e: Event)
    requires i < |o.rs| == |o.accounts|
  {
    o.rs[i] == Emission([Hop(e, i + 1)], COST_CHANGE) && o.accounts[i] == Account(None, false)
  }

  // ---------------------------------------------------------------------
  // Later positions
  // ---------------------------------------------------------------------

  lemma {:induction false} MadeFromMonotone(
    t: Trace, cfg: Config, beyond: Beyond, a: Record, b: Record, i: nat, e: Event, kept: Chain, undone: Option<nat>,
    forbidden: bool)
    requires MadeFrom(t, cfg, beyond, a, i, e, kept, undone, forbidden) && Extends(a, b) && |b.rs| == |b.accounts|
    ensures MadeFrom(t, cfg, beyond, b, i, e, kept, undone, forbidden)
  {
    CutToMonotone(t, cfg, beyond, a.saved, b.saved, a.rs[i - 1].chain, a.accounts[i - 1].undone, kept, undone, e, i);
    SurplusPrefix(a.taken, b.taken, undone);
    var total := HopTotal(cfg, a.taken, kept, undone, e);
    if cfg.useCheckpoints && total > cfg.cpThresh && !forbidden {
      var k :| 0 <= k < |a.saved| && CheckpointIs(cfg, a, i, e, Saved(total, kept), undone, k);
      assert CheckpointIs(cfg, b, i, e, Saved(total, kept), undone, k);
    }
  }

  lemma {:induction false} StepLawMonotone(t: Trace, cfg: Config, beyond: Beyond, a: Record, b: Record, i: nat)
    requires StepLaw(t, cfg, beyond, a, i) && Extends(a, b) && |b.rs| == |b.accounts|
    ensures StepLaw(t, cfg, beyond, b, i)
  {
    if exists e :: FirstSeen(t, cfg, e, i) {
      var e :| FirstSeen(t, cfg, e, i) && StartedWith(a, i, e);
      assert StartedWith(b, i, e);
    } else {
      var e, kept, undone, forbidden :| MadeFrom(t, cfg, beyond, a, i, e, kept, undone, forbidden);
      MadeFromMonotone(t, cfg, beyond, a, b, i, e, kept, undone, forbidden);
    }
  }

  ghost predicate Laws(t: Trace, cfg: Config, beyond: Beyond, o: Record) {
    && |o.rs| == |o.accounts|
    && forall i {:trigger StepLaw(t, cfg, beyond, o, i)} | 0 <= i < |o.rs| :: StepLaw(t, cfg, beyond, o, i)
  }

  lemma {:induction false} LawsStep(t: Trace, cfg: Config, beyond: Beyond, a: Record, b: Record)
    requires Laws(t, cfg, beyond, a) && Extends(a, b)
    requires |b.rs| == |b.accounts| == |a.rs| + 1 && StepLaw(t, cfg, beyond, b, |a.rs|)
    ensures Laws(t, cfg, beyond, b)
  {
    forall i | 0 <= i < |b.rs| ensures StepLaw(t, cfg, beyond, b, i) {
      if i < |a.rs| { StepLawMonotone(t, cfg, beyond, a, b, i); }
    }
  }
}
