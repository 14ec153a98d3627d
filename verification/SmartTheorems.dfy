/** Smart-Hopping's promises about the results of a whole run. */
module SmartTheorems {
  import opened Options
  import opened HopModel
  import opened SmartRun
  import opened SmartChains
  import opened SmartAccounts
  import opened SmartInvariants
  import opened SmartProof

  /** The chain starts where the latest chain of one element did: no checkpoint was
      undone since. */
  predicate StillRooted(rs: seq<Emission>, i: nat, c: Chain)
    requires i < |rs|
  {
    c != [] && rs[Reset(rs, i)].chain != [] && c[0] == rs[Reset(rs, i)].chain[0]
  }

  lemma {:induction false} SurplusPositive(t: Trace, cfg: Config, s: State, h: Past, undone: Option<nat>)
    requires CheckpointsOk(t, cfg, s, h) && Known(h.taken, undone)
    ensures Surplus(h.taken, undone) == 0 <==> undone.None?
  {
    if undone.Some? {
      assert SavedCost(t, cfg, s.saved[undone.value], h.taken, s.cps, undone.value);
    }
  }

  predicate FreeCheckpoint(cfg: Config, c: Chain) {
    |c| == 1 && StartsAtCheckpoint(c) && cfg.costCp == 0
  }

  lemma {:induction false} ChainCostBounds(cfg: Config, c: Chain)
    requires c != []
    ensures ChainCost(cfg, c) >= 0
    ensures ChainCost(cfg, c) == 0 <==> FreeCheckpoint(cfg, c)
  {
    CostBounds(c);
  }

  /** The cost reported as result `i`: that of the chain and the surplus, which is 0
      exactly if no checkpoint was undone. */
  ghost predicate CostLaw(cfg: Config, s: State, h: Past, i: nat) {
    && i < |s.results| == |h.accounts| && s.results[i].chain != []
    && Ordered(h.taken) && Known(h.taken, h.accounts[i].undone)
    && var c, surplus := s.results[i].chain, Surplus(h.taken, h.accounts[i].undone);
       && s.results[i] == Reported(c, ChainCost(cfg, c) + surplus)
       && (surplus == 0 <==> StillRooted(s.results, i, c))
       && (s.results[i].costs == ChainCost(cfg, c) <==> StillRooted(s.results, i, c) && !FreeCheckpoint(cfg, c))
  }

  lemma {:induction false} CostLawHolds(t: Trace, cfg: Config, beyond: Beyond, n: nat, s: State, h: Past, i: nat)
    requires Inv(t, cfg, beyond, n, s, h) && i < n
    ensures CostLaw(cfg, s, h, i)
  {
    assert Accounted(t, cfg, beyond, s.results, s.saved, h.taken, h.accounts[i], i);
    SurplusPositive(t, cfg, s, h, h.accounts[i].undone);
    ChainCostBounds(cfg, s.results[i].chain);
  }

  /** In every run the cost reported is the chain's exactly if the chain starts where the
      latest chain of one element did, and is not just a checkpoint that costs nothing. */
  lemma {:induction false} CostExactIff(t: Trace, cfg: Config, beyond: Beyond, s: State, h: Past, i: nat)
    requires ValidTrace(t) && i < |t| && LeadsTo(cfg, beyond, t, s, h)
    ensures CostLaw(cfg, s, h, i)
  {
    RunKeeps(t, cfg, beyond, s, h);
    CostLawHolds(t, cfg, beyond, |t|, s, h, i);
  }

  /** When result `i` exceeds the threshold. */
  ghost predicate ThresholdLaw(t: Trace, cfg: Config, beyond: Beyond, s: State, h: Past, i: nat) {
    && i < |s.results| == |h.accounts| && s.results[i].chain != []
    && Ordered(h.taken) && Known(h.taken, h.accounts[i].undone)
    && var r, a := s.results[i], h.accounts[i];
       && ForbiddenOk(t, cfg, beyond, s.saved, r.chain, i, a.forbidden)
       && (r.costs > cfg.cpThresh <==>
             a.forbidden && cfg.costCp + Surplus(h.taken, a.undone) + COST_CHANGE > cfg.cpThresh)
       && (StillRooted(s.results, i, r.chain) ==> r.costs <= cfg.cpThresh)
  }

  lemma {:induction false} ThresholdLawHolds(t: Trace, cfg: Config, beyond: Beyond, n: nat, s: State, h: Past, i: nat)
    requires Inv(t, cfg, beyond, n, s, h) && i < n && cfg.useCheckpoints && ValidConfig(cfg)
    ensures ThresholdLaw(t, cfg, beyond, s, h, i)
  {
    CostLawHolds(t, cfg, beyond, n, s, h, i);
    assert Accounted(t, cfg, beyond, s.results, s.saved, h.taken, h.accounts[i], i);
  }

  /** With checkpoints and sane thresholds a reported cost exceeds the threshold exactly
      if undoing was forbidden and the checkpoint, the surplus and a hop cost more than
      that; never if no checkpoint was undone since the latest chain of one element. */
  lemma {:induction false} OverThresholdIff(t: Trace, cfg: Config, beyond: Beyond, s: State, h: Past, i: nat)
    requires ValidTrace(t) && i < |t| && cfg.useCheckpoints && ValidConfig(cfg) && LeadsTo(cfg, beyond, t, s, h)
    ensures ThresholdLaw(t, cfg, beyond, s, h, i)
  {
    RunKeeps(t, cfg, beyond, s, h);
    ThresholdLawHolds(t, cfg, beyond, |t|, s, h, i);
  }

  /** The look-ahead into the chain kept with checkpoint `k`. */
  ghost predicate LookAheadLaw(cfg: Config, s: State, k: nat) {
    && k < |s.saved| && k < |s.cps| && 2 <= s.cps[k] <= |s.results| + 1
    && (StillRooted(s.results, s.cps[k] - 2, s.saved[k].chain) ==> cfg.rollbackThresh < |s.saved[k].chain|)
  }

  lemma {:induction false} LookAheadLawHolds(t: Trace, cfg: Config, beyond: Beyond, n: nat, s: State, h: Past, k: nat)
    requires Inv(t, cfg, beyond, n, s, h) && ValidConfig(cfg) && k < |s.saved|
    ensures LookAheadLaw(cfg, s, k)
  {
    assert TakenOk(s.results, s.saved[k], h.taken[k], s.cps[k]);
    assert SavedCost(t, cfg, s.saved[k], h.taken, s.cps, k);
  }

  /** With sane thresholds the look-ahead stays within the chain kept with a checkpoint if
      no checkpoint was undone between the latest chain of one element and its taking. */
  lemma {:induction false} LookAheadStays(t: Trace, cfg: Config, beyond: Beyond, s: State, h: Past, k: nat)
    requires ValidTrace(t) && ValidConfig(cfg) && LeadsTo(cfg, beyond, t, s, h) && k < |s.saved|
    ensures LookAheadLaw(cfg, s, k)
  {
    RunKeeps(t, cfg, beyond, s, h);
    LookAheadLawHolds(t, cfg, beyond, |t|, s, h, k);
  }

  /** When the last hop of result `i` is ambiguous. */
  ghost predicate AmbiguityLaw(t: Trace, rs: seq<Emission>, i: nat) {
    && 0 < i < |rs| && AmbiguousOnlyAdjacent(t, rs[i].chain)
    && LastHopOk(t, rs[i - 1].chain, rs[i].chain, i)
  }

  lemma {:induction false} AmbiguityLawHolds(t: Trace, cfg: Config, beyond: Beyond, n: nat, s: State, h: Past, i: nat)
    requires Inv(t, cfg, beyond, n, s, h) && 0 < i < n
    ensures AmbiguityLaw(t, s.results, i)
  {
    assert Accounted(t, cfg, beyond, s.results, s.saved, h.taken, h.accounts[i], i);
    assert ResultAt(t, cfg, s.results, s.cps, i);
  }

  /** In every run the last hop of a result is ambiguous exactly if its event also occurs
      at the previous position and the previous result does not end with it; other hops
      are ambiguous only between neighbouring positions. */
  lemma {:induction false} LastHopAmbiguousIff(t: Trace, cfg: Config, beyond: Beyond, s: State, h: Past, i: nat)
    requires ValidTrace(t) && 0 < i < |t| && LeadsTo(cfg, beyond, t, s, h)
    ensures AmbiguityLaw(t, s.results, i)
  {
    RunKeeps(t, cfg, beyond, s, h);
    AmbiguityLawHolds(t, cfg, beyond, |t|, s, h, i);
  }
}
