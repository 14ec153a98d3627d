/** The baseline: reach a position by waiting for one event as often as it has
    occurred so far.  Smart-Hopping never loses to it when only breakpoints are
    used. */
module SimpleHopping {
  import opened HopModel
  import opened HopOptimality
  import opened SmartRun
  import opened SmartChains

  /** How often `e` occurs at the positions `lo + 1 .. hi`, counting every
      access of an instruction that accesses the same byte repeatedly. */
  function Count(t: Trace, e: Event, lo: nat, hi: nat): nat
    requires lo <= hi <= |t|
    decreases hi
  {
    if lo == hi then 0 else Count(t, e, lo, hi - 1) + multiset(t[hi - 1])[e]
  }

  /** The rarest usable event of position `p`, counted before `p`. */
  ghost predicate Rarest(t: Trace, cfg: Config, e: Event, p: nat)
    requires 1 <= p <= |t|
  {
    && e in t[p - 1] && Enabled(cfg, e)
    && forall d | d in t[p - 1] && Enabled(cfg, d) :: Count(t, e, 0, p - 1) <= Count(t, d, 0, p - 1)
  }

  function RepeatCost(hops: nat): int {
    1 + 2 * (hops - 1)
  }

  /** The cost reported for position `p`: hop on the rarest event from program
      start; if that is too expensive, from the latest checkpoint `cp`; if that
      is too expensive as well, take a new checkpoint.  No chain is handed over, so the
      collector replaces a cost of 0 by that of one hop. */
  ghost predicate SimpleCost(t: Trace, cfg: Config, cp: nat, p: nat, costs: int, cp': nat)
    requires cp < p <= |t|
  {
    exists e | Rarest(t, cfg, e, p) ::
      var direct := RepeatCost(Count(t, e, 0, p - 1) + 1);
      var viaCp := RepeatCost(Count(t, e, cp, p)) + cfg.costCp;
      if !cfg.useCheckpoints || direct <= cfg.cpThresh then costs == direct && cp' == cp
      else if viaCp <= cfg.cpThresh then costs == viaCp && cp' == cp
      else costs == (if cfg.costCp == 0 then COST_CHANGE else cfg.costCp) && cp' == p
  }

  /** The latest checkpoint after each position. */
  ghost predicate SimpleCosts(t: Trace, cfg: Config, costs: seq<int>, cps: seq<nat>) {
    && |costs| + 1 == |cps| && |costs| <= |t|
    && cps[0] == 0
    && forall i | 0 <= i < |costs| :: cps[i] <= i && SimpleCost(t, cfg, cps[i], i + 1, costs[i], cps[i + 1])
  }

  /** `m` counts every usable event at the positions `lo + 1 .. hi`. */
  ghost predicate Counts(t: Trace, cfg: Config, m: map<Event, nat>, lo: nat, hi: nat)
    requires lo <= hi <= |t|
  {
    forall e :: CountsOne(t, cfg, m, lo, hi, e)
  }

  ghost predicate CountsOne(t: Trace, cfg: Config, m: map<Event, nat>, lo: nat, hi: nat, e: Event)
    requires lo <= hi <= |t|
  {
    if Enabled(cfg, e) then Seen(m, e) == Count(t, e, lo, hi) && (e in m <==> Seen(m, e) > 0) else e !in m
  }

  function Seen(m: map<Event, nat>, e: Event): nat {
    if e in m then m[e] else 0
  }

  function Bump(m: map<Event, nat>, e: Event): map<Event, nat> {
    m[e := Seen(m, e) + 1]
  }

  /** `m` with the usable events of `es` counted once more each. */
  function BumpAll(cfg: Config, m: map<Event, nat>, es: seq<Event>): map<Event, nat> {
    if es == [] then m
    else
      var m' := BumpAll(cfg, m, es[..|es| - 1]);
      var e := es[|es| - 1];
      if Enabled(cfg, e) then Bump(m', e) else m'
  }

  lemma {:induction false} BumpAllStep(cfg: Config, m: map<Event, nat>, es: seq<Event>, i: nat)
    requires i < |es|
    ensures BumpAll(cfg, m, es[..i + 1]) ==
            if Enabled(cfg, es[i]) then Bump(BumpAll(cfg, m, es[..i]), es[i]) else BumpAll(cfg, m, es[..i])
  {
    assert es[..i + 1][..i] == es[..i];
  }

  lemma {:induction false} BumpAllCounts(cfg: Config, m: map<Event, nat>, es: seq<Event>, e: Event)
    requires Enabled(cfg, e)
    ensures Seen(BumpAll(cfg, m, es), e) == Seen(m, e) + multiset(es)[e]
    ensures e in BumpAll(cfg, m, es) <==> e in m || e in es
  {
    if es != [] {
      var es', d := es[..|es| - 1], es[|es| - 1];
      BumpAllCounts(cfg, m, es', e);
      assert es == es' + [d];
      assert multiset(es) == multiset(es') + multiset{d};
    }
  }

  lemma {:induction false} BumpAllEnabled(cfg: Config, m: map<Event, nat>, es: seq<Event>, e: Event)
    requires !Enabled(cfg, e)
    ensures e in BumpAll(cfg, m, es) <==> e in m
  {
    if es != [] { BumpAllEnabled(cfg, m, es[..|es| - 1], e); }
  }

  lemma {:induction false} CountsStep(t: Trace, cfg: Config, m: map<Event, nat>, lo: nat, p: nat)
    requires lo <= p < |t| && Counts(t, cfg, m, lo, p)
    ensures Counts(t, cfg, BumpAll(cfg, m, t[p]), lo, p + 1)
  {
    var m', next := BumpAll(cfg, m, t[p]), p + 1;
    forall e ensures CountsOne(t, cfg, m', lo, next, e) {
      assert CountsOne(t, cfg, m, lo, p, e);
      if Enabled(cfg, e) {
        BumpAllCounts(cfg, m, t[p], e);
        assert e in t[p] <==> multiset(t[p])[e] > 0;
      } else {
        BumpAllEnabled(cfg, m, t[p], e);
      }
    }
  }

  class SimpleAlgorithm {
    const cfg: Config
    var occurrences: map<Event, nat>
    var occurrencesSinceCp: map<Event, nat>
    var costs: seq<int>
    var checkpointPositions: seq<nat>

    constructor (cfg: Config)
      ensures this.cfg == cfg && occurrences == map[] && occurrencesSinceCp == map[]
      ensures costs == [] && checkpointPositions == []
    {
      this.cfg := cfg;
      occurrences, occurrencesSinceCp, costs, checkpointPositions := map[], map[], [], [];
    }

    method CountOne(e: Event) returns (isNew: bool, n: nat)
      modifies `occurrences, `occurrencesSinceCp
      ensures occurrences == Bump(old(occurrences), e)
      ensures occurrencesSinceCp == Bump(old(occurrencesSinceCp), e)
      ensures isNew == (e !in old(occurrences)) && n == Seen(old(occurrences), e) + 1
    {
      isNew := e !in occurrences;
      if isNew {
        occurrences := occurrences[e := 1];
      } else {
        occurrences := occurrences[e := occurrences[e] + 1];
      }
      n := occurrences[e];
      if e !in occurrencesSinceCp {
        occurrencesSinceCp := occurrencesSinceCp[e := 1];
      } else {
        occurrencesSinceCp := occurrencesSinceCp[e := occurrencesSinceCp[e] + 1];
      }
    }

    /** Counts the usable events of one position and picks one that was rarest
        before. */
    method Tally(events: seq<Event>) returns (candidate: Event, hops: nat)
      requires ValidPosition(events)
      modifies `occurrences, `occurrencesSinceCp
      ensures occurrences == BumpAll(cfg, old(occurrences), events)
      ensures occurrencesSinceCp == BumpAll(cfg, old(occurrencesSinceCp), events)
      ensures candidate in events && Enabled(cfg, candidate) && hops == Seen(old(occurrences), candidate) + 1
      ensures forall d | d in events && Enabled(cfg, d) :: hops <= Seen(old(occurrences), d) + 1
    {
      ghost var m, mcp := occurrences, occurrencesSinceCp;
      ghost var counted: set<Event> := {};
      candidate, hops := events[0], 0;
      var found := false;
      for i := 0 to |events|
        invariant occurrences == BumpAll(cfg, m, events[..i])
        invariant occurrencesSinceCp == BumpAll(cfg, mcp, events[..i])
        invariant found ==> candidate in events && Enabled(cfg, candidate) && hops == Seen(m, candidate) + 1
        invariant forall k | 0 <= k < i && Enabled(cfg, events[k]) :: events[k] in counted
        invariant forall e | e in counted :: found && hops <= Seen(m, e) + 1
      {
        var e := events[i];
        BumpAllStep(cfg, m, events, i);
        BumpAllStep(cfg, mcp, events, i);
        if !cfg.useWatchpoints && !e.access.Execute? {
          continue;
        }
        FirstOrCounted(m, events, i);
        var isNew, n := CountOne(e);
        if isNew {
          found, hops, candidate := true, 1, e;
        } else if !found || n < hops {
          found, candidate, hops := true, e, n;
        }
        counted := counted + {e};
      }
      assert events[..|events|] == events;
      assert Enabled(cfg, events[0]);
    }

    /** The count of an event is that before the position, unless the event was
        counted at this position already. */
    lemma {:induction false} FirstOrCounted(m: map<Event, nat>, events: seq<Event>, i: nat)
      requires i < |events| && Enabled(cfg, events[i])
      ensures var now := BumpAll(cfg, m, events[..i]);
              && Seen(m, events[i]) <= Seen(now, events[i])
              && (events[i] in m ==> events[i] in now)
              && ((exists k :: 0 <= k < i && events[k] == events[i]) || Seen(m, events[i]) == Seen(now, events[i]))
    {
      BumpAllCounts(cfg, m, events[..i], events[i]);
      SeenBefore(events, i);
    }

    lemma {:induction false} SeenBefore(events: seq<Event>, i: nat)
      requires i < |events|
      ensures multiset(events[..i])[events[i]] > 0 ==> exists k :: 0 <= k < i && events[k] == events[i]
    {
    }

    /** Reports the cost of one position; `cp` is the latest checkpoint. */
    method Step(t: Trace, p: nat, ghost cp: nat) returns (c: int, ghost cp': nat)
      requires ValidTrace(t) && cp < p <= |t|
      requires Counts(t, cfg, occurrences, 0, p - 1) && Counts(t, cfg, occurrencesSinceCp, cp, p - 1)
      modifies `occurrences, `occurrencesSinceCp, `checkpointPositions
      ensures SimpleCost(t, cfg, cp, p, c, cp') && cp' <= p
      ensures Counts(t, cfg, occurrences, 0, p) && Counts(t, cfg, occurrencesSinceCp, cp', p)
      ensures checkpointPositions == old(checkpointPositions) + if cp' == cp then [] else [cp']
    {
      var candidate, hops := Choose(t, p, cp);
      c, cp' := Charge(t, p, cp, candidate, hops);
    }

    /** Counts the position's events and picks a rarest one. */
    method Choose(t: Trace, p: nat, ghost cp: nat) returns (candidate: Event, hops: nat)
      requires ValidTrace(t) && cp < p <= |t|
      requires Counts(t, cfg, occurrences, 0, p - 1) && Counts(t, cfg, occurrencesSinceCp, cp, p - 1)
      modifies `occurrences, `occurrencesSinceCp
      ensures Counts(t, cfg, occurrences, 0, p) && Counts(t, cfg, occurrencesSinceCp, cp, p)
      ensures Rarest(t, cfg, candidate, p) && hops == Count(t, candidate, 0, p - 1) + 1
      ensures candidate in occurrencesSinceCp && occurrencesSinceCp[candidate] == Count(t, candidate, cp, p)
    {
      ghost var m, mcp := occurrences, occurrencesSinceCp;
      CountsStep(t, cfg, m, 0, p - 1);
      CountsStep(t, cfg, mcp, cp, p - 1);
      candidate, hops := Tally(t[p - 1]);
      RarestBySeen(t, m, candidate, hops, p);
      CountedOf(t, occurrencesSinceCp, candidate, cp, p);
    }

    lemma {:induction false} CountedOf(t: Trace, m: map<Event, nat>, e: Event, lo: nat, p: nat)
      requires lo < p <= |t| && Counts(t, cfg, m, lo, p) && e in t[p - 1] && Enabled(cfg, e)
      ensures e in m && m[e] == Count(t, e, lo, p)
    {
      assert multiset(t[p - 1])[e] > 0;
      assert CountsOne(t, cfg, m, lo, p, e);
    }

    /** The cost of reaching the candidate, possibly with a new checkpoint. */
    method Charge(t: Trace, p: nat, ghost cp: nat, candidate: Event, hops: nat) returns (c: int, ghost cp': nat)
      requires cp < p <= |t| && Counts(t, cfg, occurrencesSinceCp, cp, p)
      requires Rarest(t, cfg, candidate, p) && hops == Count(t, candidate, 0, p - 1) + 1
      requires candidate in occurrencesSinceCp && occurrencesSinceCp[candidate] == Count(t, candidate, cp, p)
      modifies `occurrencesSinceCp, `checkpointPositions
      ensures SimpleCost(t, cfg, cp, p, c, cp') && cp' <= p
      ensures Counts(t, cfg, occurrencesSinceCp, cp', p)
      ensures checkpointPositions == old(checkpointPositions) + if cp' == cp then [] else [cp']
    {
      cp' := cp;
      c := 1 + 2 * (hops - 1);
      if cfg.useCheckpoints && c > cfg.cpThresh {
        c := 1 + 2 * (occurrencesSinceCp[candidate] - 1) + cfg.costCp;
        if c > cfg.cpThresh {
          checkpointPositions := checkpointPositions + [p];
          occurrencesSinceCp := map[];
          c, cp' := cfg.costCp, p;
        }
      }
      c := ReportedCost(c);
    }

    /** The collector's cost of a result without a chain. */
    method ReportedCost(c: int) returns (r: int)
      ensures r == if c == 0 then COST_CHANGE else c
    {
      r := c;
      if r == 0 {
        r := COST_CHANGE;
      }
    }

    lemma {:induction false} RarestBySeen(t: Trace, m: map<Event, nat>, candidate: Event, hops: nat, p: nat)
      requires 1 <= p <= |t| && Counts(t, cfg, m, 0, p - 1)
      requires candidate in t[p - 1] && Enabled(cfg, candidate) && hops == Seen(m, candidate) + 1
      requires forall d | d in t[p - 1] && Enabled(cfg, d) :: hops <= Seen(m, d) + 1
      ensures Rarest(t, cfg, candidate, p) && hops == Count(t, candidate, 0, p - 1) + 1
    {
      assert CountsOne(t, cfg, m, 0, p - 1, candidate);
      forall d | d in t[p - 1] && Enabled(cfg, d) ensures Count(t, candidate, 0, p - 1) <= Count(t, d, 0, p - 1) {
        assert CountsOne(t, cfg, m, 0, p - 1, d);
      }
    }

    method CalculateAllHops(t: Trace) returns (ghost cps: seq<nat>)
      requires ValidTrace(t)
      requires occurrences == map[] && occurrencesSinceCp == map[] && costs == [] && checkpointPositions == []
      modifies this
      ensures |costs| == |t| && SimpleCosts(t, cfg, costs, cps)
      ensures checkpointPositions == Taken(cps)
    {
      cps := [0];
      for p := 1 to |t| + 1
        invariant |costs| == p - 1 && SimpleCosts(t, cfg, costs, cps) && cps[p - 1] <= p - 1
        invariant Counts(t, cfg, occurrences, 0, p - 1)
        invariant Counts(t, cfg, occurrencesSinceCp, cps[p - 1], p - 1)
        invariant checkpointPositions == Taken(cps)
      {
        var c;
        ghost var cp;
        c, cp := Step(t, p, cps[p - 1]);
        TakenStep(cps, cp);
        SimpleCostsStep(t, cfg, costs, cps, c, cp);
        costs, cps := costs + [c], cps + [cp];
      }
    }
  }

  lemma {:induction false} SimpleCostsStep(t: Trace, cfg: Config, costs: seq<int>, cps: seq<nat>, c: int, cp: nat)
    requires SimpleCosts(t, cfg, costs, cps) && |costs| < |t| && cps[|costs|] <= |costs|
    requires SimpleCost(t, cfg, cps[|costs|], |costs| + 1, c, cp)
    ensures SimpleCosts(t, cfg, costs + [c], cps + [cp])
  {
  }

  /** The checkpoints taken, from the list of latest checkpoints. */
  function Taken(cps: seq<nat>): seq<nat> {
    if |cps| <= 1 then []
    else Taken(cps[..|cps| - 1]) + if cps[|cps| - 1] == cps[|cps| - 2] then [] else [cps[|cps| - 1]]
  }

  lemma {:induction false} TakenStep(cps: seq<nat>, cp: nat)
    requires cps != []
    ensures Taken(cps + [cp]) == Taken(cps) + if cp == cps[|cps| - 1] then [] else [cp]
  {
  }

  /** With the thresholds the program insists on, no reported cost exceeds the
      checkpoint threshold. */
  lemma {:induction false} SimpleCostBounded(t: Trace, cfg: Config, costs: seq<int>, cps: seq<nat>, i: nat)
    requires SimpleCosts(t, cfg, costs, cps) && i < |costs|
    requires cfg.useCheckpoints && ValidConfig(cfg)
    ensures costs[i] <= cfg.cpThresh
  {
    assert SimpleCost(t, cfg, cps[i], i + 1, costs[i], cps[i + 1]);
  }

  // ---------------------------------------------------------------------
  // Comparison with Smart-Hopping
  // ---------------------------------------------------------------------

  /** Waiting for `e` again and again: one hop per occurrence up to `p`. */
  function RepeatChain(t: Trace, e: Event, p: nat): Chain
    requires p <= |t|
  {
    if p == 0 then []
    else if Occurs(t, e, p) then RepeatChain(t, e, p - 1) + [Hop(e, p)]
    else RepeatChain(t, e, p - 1)
  }

  lemma {:induction false} RepeatChainShape(t: Trace, e: Event, p: nat)
    requires p <= |t|
    ensures forall h | h in RepeatChain(t, e, p) :: h.event == e && h.pos <= p
    ensures var c := RepeatChain(t, e, p);
            if c == [] then forall r | 0 < r <= p :: !Occurs(t, e, r)
            else LatestUpTo(t, e, Last(c).pos, p)
  {
    if p > 0 { RepeatChainShape(t, e, p - 1); }
  }

  lemma {:induction false} RepeatChainNavigates(t: Trace, e: Event, p: nat)
    requires ValidTrace(t) && p <= |t| && e.access.Execute?
    ensures RepeatChain(t, e, p) != [] ==> PlainChain(t, false, RepeatChain(t, e, p))
  {
    if p > 0 {
      RepeatChainNavigates(t, e, p - 1);
      RepeatChainShape(t, e, p - 1);
      if Occurs(t, e, p) {
        var c := RepeatChain(t, e, p - 1);
        if c == [] {
          assert HopLands(t, [Hop(e, p)], 0);
        } else {
          AppendNavigates(t, c, Hop(e, p));
        }
      }
    }
  }

  /** Breakpoint events occur at most once per position, so the chain has as many
      hops as the counter says, and repeating an event costs 2 per hop. */
  lemma {:induction false} RepeatChainCost(t: Trace, e: Event, p: nat)
    requires ValidTrace(t) && p <= |t| && e.access.Execute?
    ensures |RepeatChain(t, e, p)| == Count(t, e, 0, p)
    ensures RepeatChain(t, e, p) != [] ==> Cost(RepeatChain(t, e, p)) == RepeatCost(Count(t, e, 0, p))
  {
    if p > 0 {
      RepeatChainCost(t, e, p - 1);
      RepeatChainShape(t, e, p - 1);
      var es := t[p - 1];
      assert ValidPosition(es);
      assert es == [es[0]] + es[1..];
      assert multiset(es) == multiset{es[0]} + multiset(es[1..]);
      assert e !in es[1..];
      assert multiset(es[1..])[e] == 0;
      var c := RepeatChain(t, e, p - 1);
      if Occurs(t, e, p) && c != [] {
        assert Last(c) in c;
        CostAppend(c, Hop(e, p));
      }
    }
  }

  /** Whatever Simple-Hopping reports with breakpoints only and no checkpoints,
      a cheapest chain to the same position costs no more and has no more hops. */
  lemma {:induction false} SmartNeverLoses(t: Trace, cfg: Config, c: Chain, p: nat, costs: int, cp: nat)
    requires ValidTrace(t) && 1 <= p <= |t| && BreakpointsOnly(cfg)
    requires Cheapest(t, ModeOf(cfg), c) && Last(c).pos == p
    requires SimpleCost(t, cfg, 0, p, costs, cp)
    ensures cfg.useWeights ==> Cost(c) <= costs
    ensures !cfg.useWeights ==> RepeatCost(|c|) <= costs
  {
    var e :| Rarest(t, cfg, e, p) && costs == RepeatCost(Count(t, e, 0, p - 1) + 1);
    RepeatChainNavigates(t, e, p);
    RepeatChainCost(t, e, p);
    RepeatChainCost(t, e, p - 1);
    var d := RepeatChain(t, e, p);
    assert Last(d) == Hop(e, p);
    assert Measure(cfg.useWeights, c) <= Measure(cfg.useWeights, d);
  }

  /** The two algorithms on the same trace: position by position, Smart-Hopping
      reports at most Simple-Hopping's cost. */
  lemma {:induction false} SmartNeverLosesAnywhere(
    t: Trace, cfg: Config, smart: seq<Emission>, simple: seq<int>, cps: seq<nat>, i: nat)
    requires ValidTrace(t) && BreakpointsOnly(cfg)
    requires AllOk(t, cfg, smart, []) && |smart| == |t|
    requires SimpleCosts(t, cfg, simple, cps) && |simple| == |t|
    requires i < |t|
    ensures smart[i].costs <= simple[i]
  {
    NoCheckpoints(t, cfg, simple, cps, i);
    assert ResultAt(t, cfg, smart, [], i);
    assert SimpleCost(t, cfg, cps[i], i + 1, simple[i], cps[i + 1]);
    SmartNeverLoses(t, cfg, smart[i].chain, i + 1, simple[i], cps[i + 1]);
    CostBounds(smart[i].chain);
  }

  lemma {:induction false} NoCheckpoints(t: Trace, cfg: Config, costs: seq<int>, cps: seq<nat>, i: nat)
    requires SimpleCosts(t, cfg, costs, cps) && i < |cps| && !cfg.useCheckpoints
    ensures cps[i] == 0
  {
    if i > 0 {
      NoCheckpoints(t, cfg, costs, cps, i - 1);
      assert SimpleCost(t, cfg, cps[i - 1], i, costs[i - 1], cps[i]);
    }
  }
}
