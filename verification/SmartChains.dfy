/** What the chains and results of Smart-Hopping promise. */
module SmartChains {
  import opened HopModel
  import opened HopOptimality
  import opened SmartRun

  function ModeOf(cfg: Config): Mode {
    Mode(cfg.useWeights, cfg.useWatchpoints)
  }

  /** `m` maps every usable event seen up to `p` to its latest position. */
  ghost predicate KnowsLatest(t: Trace, cfg: Config, m: map<Event, nat>, p: nat) {
    && (forall e | e in m :: Enabled(cfg, e) && LatestUpTo(t, e, m[e], p))
    && (forall e, r | 1 <= r <= p && Occurs(t, e, r) && Enabled(cfg, e) :: e in m)
  }

  /** The cost of a chain, counting a leading checkpoint with its own cost. */
  function ChainCost(cfg: Config, c: Chain): int
    requires c != []
  {
    Cost(c) + if StartsAtCheckpoint(c) then cfg.costCp - COST_CHANGE else 0
  }

  /** A hop that arms a different event although that event also occurs where the
      previous hop stopped; a debugger could report it without moving. */
  ghost predicate Ambiguous(t: Trace, c: Chain, i: nat)
    requires 0 < i < |c|
  {
    c[i].event != c[i - 1].event && Occurs(t, c[i].event, c[i - 1].pos)
  }

  ghost predicate AdjacentIfAmbiguous(t: Trace, c: Chain, i: nat)
    requires 0 < i < |c|
  {
    Ambiguous(t, c, i) ==> c[i].pos == c[i - 1].pos + 1
  }

  /** Ambiguous hops only lead from one position to the very next. */
  ghost predicate AmbiguousOnlyAdjacent(t: Trace, c: Chain) {
    forall i | 0 < i < |c| :: AdjacentIfAmbiguous(t, c, i)
  }

  /** A chain navigates, and if it restores a checkpoint it is one with an id
      below `bound`, restored where it was taken. */
  ghost predicate ChainOk(t: Trace, c: Chain, cps: seq<nat>, bound: nat) {
    && Navigates(t, c)
    && AmbiguousOnlyAdjacent(t, c)
    && (StartsAtCheckpoint(c) ==>
          && c[0].event.address < bound <= |cps|
          && cps[c[0].event.address] == c[0].pos)
  }

  /** The chain kept with checkpoint `k` only uses older checkpoints. */
  ghost predicate SavedOk(t: Trace, s: Saved, cps: seq<nat>, k: nat) {
    && ChainOk(t, s.chain, cps, k)
    && k < |cps|
    && Last(s.chain).pos < cps[k]
  }

  /** What is promised about the result for position `p`. */
  ghost predicate ResultOk(t: Trace, cfg: Config, r: Emission, cps: seq<nat>, p: nat) {
    && ChainOk(t, r.chain, cps, |cps|)
    && Last(r.chain).pos == p
    && (!cfg.useCheckpoints ==> !StartsAtCheckpoint(r.chain) && r.costs == Cost(r.chain))
    && (BreakpointsOnly(cfg) ==> Cheapest(t, ModeOf(cfg), r.chain))
  }

  ghost predicate ResultAt(t: Trace, cfg: Config, rs: seq<Emission>, cps: seq<nat>, i: nat) {
    i < |rs| && ResultOk(t, cfg, rs[i], cps, i + 1)
  }

  /** Every result so far is good for its own position. */
  ghost predicate AllOk(t: Trace, cfg: Config, rs: seq<Emission>, cps: seq<nat>) {
    forall i | 0 <= i < |rs| :: ResultAt(t, cfg, rs, cps, i)
  }

  lemma {:induction false} AmbiguousPrefix(t: Trace, c: Chain, n: nat)
    requires AmbiguousOnlyAdjacent(t, c) && n <= |c|
    ensures AmbiguousOnlyAdjacent(t, c[..n])
  {
    forall i | 0 < i < n ensures AdjacentIfAmbiguous(t, c[..n], i) {
      assert AdjacentIfAmbiguous(t, c, i);
    }
  }

  /** The appended hop is ambiguous exactly if its event also occurred at the
      previous position and the previous chain did not end with it. */
  lemma {:induction false} AmbiguousAppend(
    t: Trace, chain0: Chain, chain: Chain, best: Event, lastPos: nat, pos: nat)
    requires chain0 != [] && Last(chain0).pos + 1 == pos && chain != []
    requires LatestUpTo(t, best, lastPos, pos - 1)
    requires lastPos <= Last(chain).pos <= Last(chain0).pos
    requires Last(chain).pos == lastPos && Last(chain).event != best ==> chain == chain0
    requires Last(chain).pos == Last(chain0).pos ==> chain == chain0
    requires AmbiguousOnlyAdjacent(t, chain)
    ensures AmbiguousOnlyAdjacent(t, chain + [Hop(best, pos)])
    ensures Ambiguous(t, chain + [Hop(best, pos)], |chain|) <==>
              lastPos == pos - 1 && Last(chain0).event != best
  {
    var n := chain + [Hop(best, pos)];
    forall i | 0 < i < |n| ensures AdjacentIfAmbiguous(t, n, i) {
      if i < |chain| { assert AdjacentIfAmbiguous(t, chain, i); }
    }
  }

  lemma {:induction false} ChainOkMonotone(t: Trace, c: Chain, cps: seq<nat>, more: seq<nat>, bound: nat, bound': nat)
    requires ChainOk(t, c, cps, bound) && cps <= more && bound <= bound' <= |more|
    ensures ChainOk(t, c, more, bound')
  {
  }

  lemma {:induction false} AllOkMonotone(t: Trace, cfg: Config, rs: seq<Emission>, cps: seq<nat>, more: seq<nat>)
    requires AllOk(t, cfg, rs, cps) && cps <= more
    ensures AllOk(t, cfg, rs, more)
  {
    forall i | 0 <= i < |rs| ensures ResultAt(t, cfg, rs, more, i) {
      assert ResultAt(t, cfg, rs, cps, i);
    }
  }

  lemma {:induction false} AppendOk(t: Trace, cfg: Config, rs: seq<Emission>, r: Emission, cps: seq<nat>)
    requires AllOk(t, cfg, rs, cps) && ResultOk(t, cfg, r, cps, |rs| + 1)
    ensures AllOk(t, cfg, rs + [r], cps)
  {
    forall i | 0 <= i <= |rs| ensures ResultAt(t, cfg, rs + [r], cps, i) {
      if i < |rs| { assert ResultAt(t, cfg, rs, cps, i); }
    }
  }

  /** How `KnowsLatest` moves to the next position. */
  lemma {:induction false} LatestStep(t: Trace, cfg: Config, m: map<Event, nat>, m': map<Event, nat>, p: nat)
    requires p < |t| && KnowsLatest(t, cfg, m, p)
    requires forall e :: e in m' <==> e in m || (e in t[p] && Enabled(cfg, e))
    requires forall e | e in m' :: m'[e] == if e in t[p] && Enabled(cfg, e) then p + 1 else m[e]
    ensures KnowsLatest(t, cfg, m', p + 1)
  {
  }
}
