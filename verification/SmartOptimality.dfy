/** Smart-Hopping without weights and checkpoints, but with watchpoints: results have the
    fewest hops until the rule against ambiguous hops stops a truncation. */
module SmartOptimality {
  import opened HopModel
  import opened HopOptimality
  import opened SmartRun
  import opened SmartChains
  import opened SmartAccounts
  import opened SmartInvariants
  import opened SmartProof

  /** The mode in which hops are counted. */
  predicate CountsHops(cfg: Config) {
    !cfg.useWeights && !cfg.useCheckpoints
  }

  /** The last event of the chain occurred last where the hop before the previous one
      stopped, for another event: the previous hop could be left out, but the rule against
      ambiguous hops keeps it. */
  ghost predicate Hindered(t: Trace, c: Chain) {
    && |c| >= 3 && c[|c| - 3].event != Last(c).event
    && LatestUpTo(t, Last(c).event, c[|c| - 3].pos, Last(c).pos - 1)
  }

  /** No result since the latest chain of one hop is hindered. */
  ghost predicate Unhindered(t: Trace, rs: seq<Emission>, i: nat)
    requires i < |rs|
  {
    forall k | Reset(rs, i) <= k <= i :: !Hindered(t, rs[k].chain)
  }

  ghost predicate Fewest(t: Trace, cfg: Config, rs: seq<Emission>, i: nat) {
    && i < |rs| && rs[i].chain != []
    && (Unhindered(t, rs, i) ==>
          PlainChain(t, cfg.useWatchpoints, rs[i].chain) && Tight(t, ModeOf(cfg), rs[i].chain))
  }

  ghost predicate AllFewest(t: Trace, cfg: Config, rs: seq<Emission>) {
    forall i {:trigger Fewest(t, cfg, rs, i)} | 0 <= i < |rs| :: Fewest(t, cfg, rs, i)
  }

  lemma {:induction false} UnhinderedPrefix(t: Trace, rs: seq<Emission>, more: seq<Emission>, i: nat)
    requires i < |rs| && rs <= more
    ensures Unhindered(t, more, i) <==> Unhindered(t, rs, i)
  {
    ResetPrefix(rs, more, i);
  }

  lemma {:induction false} UnhinderedBefore(t: Trace, rs: seq<Emission>, r: Emission)
    requires rs != [] && |r.chain| > 1 && Unhindered(t, rs + [r], |rs|)
    ensures Unhindered(t, rs, |rs| - 1) && !Hindered(t, r.chain)
  {
    assert (rs + [r])[|rs|] == r;
    UnhinderedPrefix(t, rs, rs + [r], |rs| - 1);
  }

  lemma {:induction false} FewestAppend(t: Trace, cfg: Config, rs: seq<Emission>, r: Emission)
    requires AllFewest(t, cfg, rs) && Fewest(t, cfg, rs + [r], |rs|)
    ensures AllFewest(t, cfg, rs + [r])
  {
    forall i | 0 <= i <= |rs| ensures Fewest(t, cfg, rs + [r], i) {
      if i < |rs| {
        assert Fewest(t, cfg, rs, i);
        UnhinderedPrefix(t, rs, rs + [r], i);
      }
    }
  }

  /** The selected event is the one seen longest ago. */
  lemma {:induction false} OldestSeenSince(t: Trace, cfg: Config, latest: map<Event, nat>, n: nat)
    requires ValidTrace(t) && n < |t| && KnowsLatest(t, cfg, latest, n)
    requires NewEvent(cfg, latest, t[n]).None? && Oldest(cfg, latest, t[n]).Some?
    ensures SeenSince(t, cfg.useWatchpoints, latest[Oldest(cfg, latest, t[n]).value], n)
  {
    var last := latest[Oldest(cfg, latest, t[n]).value];
    forall f | Usable(cfg.useWatchpoints, f) && Occurs(t, f, n + 1)
      ensures exists r | last <= r <= n :: Occurs(t, f, r)
    {
      assert Occurs(t, f, latest[f]) && last <= latest[f] <= n;
    }
  }

  /** A hop appended to a truncated chain, unless the truncation was hindered. */
  lemma {:induction false} ExtendFewest(
    t: Trace, cfg: Config, chain0: Chain, chain: Chain, best: Event, lastPos: nat)
    requires ValidTrace(t) && CountsHops(cfg)
    requires PlainChain(t, cfg.useWatchpoints, chain0) && Tight(t, ModeOf(cfg), chain0)
    requires Usable(cfg.useWatchpoints, best) && Occurs(t, best, Last(chain0).pos + 1)
    requires LatestUpTo(t, best, lastPos, Last(chain0).pos)
    requires SeenSince(t, cfg.useWatchpoints, lastPos, Last(chain0).pos)
    requires chain != [] && chain <= chain0 && lastPos <= Last(chain).pos
    requires |chain| == |chain0| || MayDrop(cfg, Last(chain), best, lastPos)
    requires |chain| == 1 || !MayDrop(cfg, chain[|chain| - 2], best, lastPos)
    requires !Hindered(t, chain + [Hop(best, Last(chain0).pos + 1)])
    ensures var n := chain + [Hop(best, Last(chain0).pos + 1)];
            PlainChain(t, cfg.useWatchpoints, n) && Tight(t, ModeOf(cfg), n)
  {
    var m, n := |chain|, chain + [Hop(best, Last(chain0).pos + 1)];
    assert chain == chain0[..m];
    if m > 1 { assert n[|n| - 3] == chain[m - 2]; }
    TightStep(t, ModeOf(cfg), chain0, m, best, lastPos);
  }

  lemma {:induction false} UsableIfOccurs(t: Trace, cfg: Config, e: Event, p: int)
    requires ValidTrace(t) && Occurs(t, e, p) && Enabled(cfg, e)
    ensures Usable(cfg.useWatchpoints, e)
  {
    assert ValidPosition(t[p - 1]);
  }

  /** A position with a new event. */
  lemma {:induction false} StartFewest(t: Trace, cfg: Config, rs: seq<Emission>, e: Event)
    requires ValidTrace(t) && AllFewest(t, cfg, rs) && Enabled(cfg, e) && Lands(t, e, 0, |rs| + 1)
    ensures AllFewest(t, cfg, rs + [Reported([Hop(e, |rs| + 1)], COST_CHANGE)])
  {
    UsableIfOccurs(t, cfg, e, |rs| + 1);
    TightSingle(t, ModeOf(cfg), e, |rs| + 1);
    FewestAppend(t, cfg, rs, Reported([Hop(e, |rs| + 1)], COST_CHANGE));
  }

  /** What truncation leaves if there are no checkpoints. */
  lemma {:induction false} CutPlain(
    t: Trace, cfg: Config, beyond: Beyond, n: nat, s: State, h: Past, best: Event, lastPos: nat)
    requires ValidTrace(t) && !cfg.useCheckpoints && Selected(t, cfg, n, best, lastPos)
    requires Good(t, cfg, beyond, n, s, h) && Restorable(s.saved, s.chain)
    ensures var c := CutBack(cfg, beyond, s.saved, s.chain, s.costs, best, lastPos, n + 1).chain;
            && c != [] && c <= s.chain && lastPos <= Last(c).pos
            && (|c| == |s.chain| || MayDrop(cfg, Last(c), best, lastPos))
            && (|c| == 1 || !MayDrop(cfg, c[|c| - 2], best, lastPos))
  {
    var cut := CutBack(cfg, beyond, s.saved, s.chain, s.costs, best, lastPos, n + 1);
    CutKeeps(t, cfg, beyond, s, h, Root(s.results), s.chain, s.costs, h.undone, best, lastPos, n + 1);
    StopsThere(cfg, beyond, s.saved, cut, best, lastPos, n + 1);
  }

  /** A position without one. */
  lemma {:induction false} AppendFewest(
    t: Trace, cfg: Config, rs: seq<Emission>, chain: Chain, best: Event, lastPos: nat, r: Emission)
    requires ValidTrace(t) && CountsHops(cfg) && AllFewest(t, cfg, rs) && rs != []
    requires rs[|rs| - 1].chain != [] && Last(rs[|rs| - 1].chain).pos == |rs|
    requires Selected(t, cfg, |rs|, best, lastPos) && SeenSince(t, cfg.useWatchpoints, lastPos, |rs|)
    requires chain != [] && chain <= rs[|rs| - 1].chain && lastPos <= Last(chain).pos
    requires |chain| == |rs[|rs| - 1].chain| || MayDrop(cfg, Last(chain), best, lastPos)
    requires |chain| == 1 || !MayDrop(cfg, chain[|chain| - 2], best, lastPos)
    requires r.chain == chain + [Hop(best, |rs| + 1)]
    ensures AllFewest(t, cfg, rs + [r])
  {
    UsableIfOccurs(t, cfg, best, |rs| + 1);
    if Unhindered(t, rs + [r], |rs|) {
      UnhinderedBefore(t, rs, r);
      assert Fewest(t, cfg, rs, |rs| - 1);
      ExtendFewest(t, cfg, rs[|rs| - 1].chain, chain, best, lastPos);
    }
    FewestAppend(t, cfg, rs, r);
  }

  lemma {:induction false} ContinueFewest(
    t: Trace, cfg: Config, beyond: Beyond, n: nat, s: State, h: Past, best: Event, lastPos: nat)
    requires ValidTrace(t) && CountsHops(cfg) && Selected(t, cfg, n, best, lastPos)
    requires SeenSince(t, cfg.useWatchpoints, lastPos, n)
    requires Good(t, cfg, beyond, n, s, h) && Restorable(s.saved, s.chain) && AllFewest(t, cfg, s.results)
    ensures var cut := CutBack(cfg, beyond, s.saved, s.chain, s.costs, best, lastPos, n + 1);
            AllFewest(t, cfg, Continued(cfg, s, best, n + 1, cut).results)
  {
    var cut := CutBack(cfg, beyond, s.saved, s.chain, s.costs, best, lastPos, n + 1);
    CutPlain(t, cfg, beyond, n, s, h, best, lastPos);
    AppendFewest(t, cfg, s.results, cut.chain, best, lastPos,
                 Reported(cut.chain + [Hop(best, n + 1)], Total(cut, best)));
  }

  lemma {:induction false} NextFewest(t: Trace, cfg: Config, beyond: Beyond, n: nat, s: State, h: Past)
    requires ValidTrace(t) && n < |t| && Inv(t, cfg, beyond, n, s, h) && ValidState(s)
    requires CountsHops(cfg) && AllFewest(t, cfg, s.results)
    ensures AllFewest(t, cfg, Next(cfg, beyond, s, t[n], n + 1).results)
  {
    var first, oldest := NewEvent(cfg, s.latest, t[n]), Oldest(cfg, s.latest, t[n]);
    var s' := s.(latest := Recorded(cfg, s.latest, t[n], n + 1));
    LatestIrrelevant(t, cfg, beyond, n, s, h, s'.latest);
    EventSelected(t, cfg, s.latest, n);
    if first.Some? {
      StartFewest(t, cfg, s.results, first.value);
    } else {
      OldestSeenSince(t, cfg, s.latest, n);
      ContinueFewest(t, cfg, beyond, n, s', h, oldest.value, s.latest[oldest.value]);
    }
  }

  lemma {:induction false} PrefixFewest(t: Trace, cfg: Config, beyond: Beyond, n: nat, s: State, h: Past)
    requires ValidTrace(t) && n <= |t| && CountsHops(cfg) && LeadsTo(cfg, beyond, t[..n], s, h)
    ensures AllFewest(t, cfg, s.results)
    decreases n
  {
    if n == 0 {
      assert IsTrace(t[..n], t[..n]);
    } else {
      var s0, h0 := LedFrom(t, cfg, beyond, n, s, h);
      PrefixFewest(t, cfg, beyond, n - 1, s0, h0);
      PrefixKeeps(t, cfg, beyond, n - 1, s0, h0);
      NextFewest(t, cfg, beyond, n - 1, s0, h0);
    }
  }

  // ---------------------------------------------------------------------
  // What the rule costs
  // ---------------------------------------------------------------------

  lemma {:induction false} ChainUsable(t: Trace, cfg: Config, c: Chain)
    requires ValidTrace(t) && cfg.useWatchpoints && Navigates(t, c) && !StartsAtCheckpoint(c)
    ensures PlainChain(t, true, c)
  {
    forall i | 0 <= i < |c| ensures Usable(true, c[i].event) {
      if i > 0 { CheckpointOnlyFirst(t, c, i); }
    }
  }

  /** A hindered chain has a hop too many. */
  lemma {:induction false} HinderedNotFewest(t: Trace, watch: bool, c: Chain)
    requires PlainChain(t, watch, c) && Hindered(t, c)
    ensures !Cheapest(t, Mode(false, watch), c)
  {
    var n := |c|;
    var kept, d := c[..n - 2], c[..n - 2] + [Last(c)];
    PrefixNavigates(t, c, n - 2);
    assert HopLands(t, c, n - 1);
    PositionsIncrease(t, c, n - 3, n - 1);
    AppendNavigates(t, kept, Last(c));
    assert PlainChain(t, watch, d) && Last(d) == Last(c) && |d| < |c|;
  }

  /** In every run each result since whose latest chain of one hop no truncation was
      hindered has the fewest hops of all chains to its position, and a hindered one has
      not. */
  lemma {:induction false} FewestHops(t: Trace, cfg: Config, beyond: Beyond, s: State, h: Past, i: nat)
    requires ValidTrace(t) && CountsHops(cfg) && LeadsTo(cfg, beyond, t, s, h) && i < |t|
    ensures |s.results| == |t| && s.results[i].chain != []
    ensures Unhindered(t, s.results, i) ==> Cheapest(t, ModeOf(cfg), s.results[i].chain)
    ensures Hindered(t, s.results[i].chain) ==> !Cheapest(t, ModeOf(cfg), s.results[i].chain)
  {
    assert t[..|t|] == t;
    PrefixFewest(t, cfg, beyond, |t|, s, h);
    RunKeeps(t, cfg, beyond, s, h);
    assert Fewest(t, cfg, s.results, i) && ResultAt(t, cfg, s.results, s.cps, i);
    var c := s.results[i].chain;
    if Unhindered(t, s.results, i) { TightIsCheapest(t, ModeOf(cfg), c); }
    if Hindered(t, c) && cfg.useWatchpoints {
      ChainUsable(t, cfg, c);
      HinderedNotFewest(t, true, c);
    } else if Hindered(t, c) {
      HinderedNotFewest(t, false, c);
    }
  }

  /** So all results of a run have the fewest hops if and only if no truncation is
      hindered. */
  lemma {:induction false} FewestHopsIff(t: Trace, cfg: Config, beyond: Beyond, s: State, h: Past)
    requires ValidTrace(t) && CountsHops(cfg) && LeadsTo(cfg, beyond, t, s, h)
    ensures |s.results| == |t|
    ensures (forall i | 0 <= i < |t| :: Cheapest(t, ModeOf(cfg), s.results[i].chain)) <==>
            (forall i | 0 <= i < |t| :: !Hindered(t, s.results[i].chain))
  {
    RunKeeps(t, cfg, beyond, s, h);
    forall i | 0 <= i < |t|
      ensures Unhindered(t, s.results, i) ==> Cheapest(t, ModeOf(cfg), s.results[i].chain)
      ensures Hindered(t, s.results[i].chain) ==> !Cheapest(t, ModeOf(cfg), s.results[i].chain)
    {
      FewestHops(t, cfg, beyond, s, h, i);
    }
    if forall i | 0 <= i < |t| :: !Hindered(t, s.results[i].chain) {
      assert forall i | 0 <= i < |t| :: Unhindered(t, s.results, i);
    }
  }
}
