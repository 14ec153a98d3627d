/** Why Smart-Hopping's greedy truncation is optimal when only breakpoints are
    used, and when hops are counted without weights: the chain behaves like a
    monotone stack.  Every position after the chain's j-th hop is at least as
    expensive to reach as the chain's first j + 1 hops. */
module HopOptimality {
  import opened HopModel

  /** What chains are compared by, and whether they may use watchpoints. */
  datatype Mode = Mode(weighted: bool, watch: bool)

  /** Breakpoints, and memory accesses if watchpoints may be used. */
  predicate Usable(watch: bool, e: Event) {
    e.access.Execute? || (watch && !e.access.Checkpoint?)
  }

  /** A chain of usable events that starts at the beginning of the program. */
  ghost predicate PlainChain(t: Trace, watch: bool, c: Chain) {
    && Navigates(t, c)
    && forall i | 0 <= i < |c| :: Usable(watch, c[i].event)
  }

  /** With weights a chain counts by its cost, without by its hops. */
  function Measure(weighted: bool, c: Chain): nat
    requires c != []
  {
    if weighted then Cost(c) else |c|
  }

  /** No chain reaches position `p` for less than `k`. */
  ghost predicate AtLeast(t: Trace, mode: Mode, p: int, k: nat) {
    forall c {:trigger PlainChain(t, mode.watch, c)} | PlainChain(t, mode.watch, c) && Last(c).pos == p ::
      k <= Measure(mode.weighted, c)
  }

  /** `c` is a cheapest chain to its last position. */
  ghost predicate Cheapest(t: Trace, mode: Mode, c: Chain) {
    && PlainChain(t, mode.watch, c)
    && forall d {:trigger PlainChain(t, mode.watch, d)} | PlainChain(t, mode.watch, d) && Last(d).pos == Last(c).pos ::
         Measure(mode.weighted, c) <= Measure(mode.weighted, d)
  }

  ghost predicate TightFrom(t: Trace, mode: Mode, c: Chain, j: nat)
    requires j < |c|
  {
    var k := Measure(mode.weighted, c[..j + 1]);
    forall p | PosBefore(c, j) < p <= Last(c).pos :: AtLeast(t, mode, p, k)
  }

  /** The monotone-stack invariant. */
  ghost predicate Tight(t: Trace, mode: Mode, c: Chain) {
    forall j | 0 <= j < |c| :: TightFrom(t, mode, c, j)
  }

  lemma {:induction false} TightAt(t: Trace, mode: Mode, c: Chain, j: nat, p: int)
    requires Tight(t, mode, c) && j < |c| && PosBefore(c, j) < p <= Last(c).pos
    ensures AtLeast(t, mode, p, Measure(mode.weighted, c[..j + 1]))
  {
    assert TightFrom(t, mode, c, j);
  }

  /** The truncation policy: a hop goes when the one before it still lies at or
      after (with weights: strictly after) the last occurrence. */
  predicate Over(weighted: bool, lastPos: int, leftPos: int) {
    if weighted then lastPos < leftPos else lastPos <= leftPos
  }

  /** `last` is the latest occurrence of `e` up to `q`. */
  ghost predicate LatestUpTo(t: Trace, e: Event, last: int, q: int) {
    && 1 <= last <= q
    && Occurs(t, e, last)
    && forall r | last < r <= q :: !Occurs(t, e, r)
  }

  lemma {:induction false} ExecuteUnique(t: Trace, p: int, a: Event, b: Event)
    requires ValidTrace(t) && Occurs(t, a, p) && Occurs(t, b, p)
    requires a.access.Execute? && b.access.Execute?
    ensures a == b
  {
  }

  lemma {:induction false} TightIsCheapest(t: Trace, mode: Mode, c: Chain)
    requires PlainChain(t, mode.watch, c) && Tight(t, mode, c)
    ensures Cheapest(t, mode, c)
  {
    var j := |c| - 1;
    assert TightFrom(t, mode, c, j);
    assert c[..j + 1] == c;
    assert HopLands(t, c, j);
    assert AtLeast(t, mode, Last(c).pos, Measure(mode.weighted, c));
  }

  /** Every usable event of position `q + 1` occurred at or after `last` before. */
  ghost predicate SeenSince(t: Trace, watch: bool, last: int, q: int) {
    forall f | Usable(watch, f) && Occurs(t, f, q + 1) :: exists r | last <= r <= q :: Occurs(t, f, r)
  }

  /** With breakpoints only, that is one event. */
  lemma {:induction false} BreakpointSeenSince(t: Trace, e: Event, last: int, q: int)
    requires ValidTrace(t) && e.access.Execute? && Occurs(t, e, q + 1) && LatestUpTo(t, e, last, q)
    ensures SeenSince(t, false, last, q)
  {
    forall f | Usable(false, f) && Occurs(t, f, q + 1) ensures exists r | last <= r <= q :: Occurs(t, f, r) {
      ExecuteUnique(t, q + 1, f, e);
      assert Occurs(t, f, last);
    }
  }

  /** A chain that reaches a position all of whose events were seen since `last` comes
      from a chain ending at or after `last`. */
  lemma {:induction false} Predecessor(t: Trace, watch: bool, d: Chain, last: int, q: int)
    requires 1 <= last && SeenSince(t, watch, last, q)
    requires PlainChain(t, watch, d) && Last(d).pos == q + 1
    ensures |d| >= 2 && PlainChain(t, watch, d[..|d| - 1])
    ensures last <= Last(d[..|d| - 1]).pos <= q
    ensures Cost(d) == Cost(d[..|d| - 1]) + HopCost(Last(d[..|d| - 1]).event, Last(d).event)
  {
    var i := |d| - 1;
    assert HopLands(t, d, i);
    var r :| last <= r <= q && Occurs(t, d[i].event, r);
    assert r <= PosBefore(d, i);
    assert |d| >= 2;
    PrefixNavigates(t, d, i);
  }

  /** The chain kept after truncation: `m` hops, the last of which was not
      deletable any more. */
  ghost predicate Truncated(t: Trace, mode: Mode, c: Chain, m: nat, last: int) {
    && 1 <= m <= |c|
    && (m == |c| || Over(mode.weighted, last, c[m - 1].pos))
    && (m == 1 || !Over(mode.weighted, last, c[m - 2].pos))
  }

  lemma {:induction false} HopsNotEqualAfterLast(t: Trace, c: Chain, i: nat, e: Event, last: int, q: int)
    requires Navigates(t, c) && !StartsAtCheckpoint(c) && i < |c| && LatestUpTo(t, e, last, q)
    requires last < c[i].pos <= q
    ensures c[i].event != e
  {
    assert HopLands(t, c, i);
  }

  const WEIGHTED: Mode := Mode(true, false)

  /** Weighted lower bound: no breakpoint chain to `q + 1` beats the truncated chain plus
      the new hop. */
  lemma {:induction false} WeightedBound(t: Trace, c: Chain, m: nat, e: Event, last: int, d: Chain)
    requires ValidTrace(t) && PlainChain(t, false, c) && Tight(t, WEIGHTED, c)
    requires e.access.Execute? && Occurs(t, e, Last(c).pos + 1)
    requires LatestUpTo(t, e, last, Last(c).pos) && Truncated(t, WEIGHTED, c, m, last)
    requires PlainChain(t, false, d) && Last(d).pos == Last(c).pos + 1
    ensures Cost(c[..m]) + HopCost(c[m - 1].event, e) <= Cost(d)
  {
    var q := Last(c).pos;
    BreakpointSeenSince(t, e, last, q);
    Predecessor(t, false, d, last, q);
    assert HopLands(t, d, |d| - 1);
    ExecuteUnique(t, q + 1, Last(d).event, e);
    var d' := d[..|d| - 1];
    var p := Last(d').pos;
    if m < |c| { PositionsIncrease(t, c, m - 1, |c| - 1); }
    if last < c[m - 1].pos { HopsNotEqualAfterLast(t, c, m - 1, e, last, q); }
    if PosBefore(c, m - 1) < p {
      TightAt(t, WEIGHTED, c, m - 1, p);
      assert AtLeast(t, WEIGHTED, p, Measure(true, c[..m]));
      if p == last {
        assert HopLands(t, d', |d'| - 1);
        ExecuteUnique(t, last, Last(d').event, e);
      }
    } else {
      SameEventTwice(t, c, m, e, last, d');
    }
  }

  /** The remaining case of the weighted bound: the competing chain repeats `e`
      from a position that is itself a hop of the chain. */
  lemma {:induction false} SameEventTwice(t: Trace, c: Chain, m: nat, e: Event, last: int, d: Chain)
    requires ValidTrace(t) && PlainChain(t, false, c) && Tight(t, WEIGHTED, c)
    requires e.access.Execute? && LatestUpTo(t, e, last, Last(c).pos)
    requires Truncated(t, WEIGHTED, c, m, last)
    requires PlainChain(t, false, d) && last <= Last(d).pos <= PosBefore(c, m - 1)
    ensures Cost(c[..m]) + HopCost(c[m - 1].event, e) <= Cost(d) + HopCost(Last(d).event, e)
  {
    var q := Last(c).pos;
    var p := Last(d).pos;
    assert m >= 2 && p == last == c[m - 2].pos;
    assert HopLands(t, d, |d| - 1);
    ExecuteUnique(t, last, Last(d).event, e);
    assert HopLands(t, c, m - 2);
    ExecuteUnique(t, last, c[m - 2].event, e);
    PositionsIncrease(t, c, m - 2, m - 1);
    if m < |c| { PositionsIncrease(t, c, m - 1, |c| - 1); }
    HopsNotEqualAfterLast(t, c, m - 1, e, last, q);
    TightAt(t, WEIGHTED, c, m - 2, p);
    assert AtLeast(t, WEIGHTED, p, Measure(true, c[..m - 1]));
    assert c[..m][..m - 1] == c[..m - 1];
  }

  /** Unweighted lower bound, for chains with or without watchpoints. */
  lemma {:induction false} UnweightedBound(t: Trace, watch: bool, c: Chain, m: nat, last: int, d: Chain)
    requires PlainChain(t, watch, c) && Tight(t, Mode(false, watch), c)
    requires 1 <= last <= Last(c).pos && SeenSince(t, watch, last, Last(c).pos)
    requires Truncated(t, Mode(false, watch), c, m, last)
    requires PlainChain(t, watch, d) && Last(d).pos == Last(c).pos + 1
    ensures m + 1 <= |d|
  {
    Predecessor(t, watch, d, last, Last(c).pos);
    var d' := d[..|d| - 1];
    TightAt(t, Mode(false, watch), c, m - 1, Last(d').pos);
    assert AtLeast(t, Mode(false, watch), Last(d').pos, Measure(false, c[..m]));
  }

  /** Truncating and appending keeps the monotone-stack invariant. */
  lemma {:induction false} TightStep(t: Trace, mode: Mode, c: Chain, m: nat, e: Event, last: int)
    requires ValidTrace(t) && PlainChain(t, mode.watch, c) && Tight(t, mode, c)
    requires Usable(mode.watch, e) && Occurs(t, e, Last(c).pos + 1)
    requires LatestUpTo(t, e, last, Last(c).pos) && Truncated(t, mode, c, m, last)
    requires last <= c[m - 1].pos
    requires if mode.weighted then !mode.watch else SeenSince(t, mode.watch, last, Last(c).pos)
    ensures PlainChain(t, mode.watch, c[..m] + [Hop(e, Last(c).pos + 1)])
    ensures Tight(t, mode, c[..m] + [Hop(e, Last(c).pos + 1)])
  {
    var q := Last(c).pos;
    var kept := c[..m];
    var n := kept + [Hop(e, q + 1)];
    PrefixNavigates(t, c, m);
    if m < |c| { PositionsIncrease(t, c, m - 1, |c| - 1); }
    AppendNavigates(t, kept, Hop(e, q + 1));
    CostAppend(kept, Hop(e, q + 1));
    assert AtLeast(t, mode, q + 1, Measure(mode.weighted, n)) by {
      forall d | PlainChain(t, mode.watch, d) && Last(d).pos == q + 1
        ensures Measure(mode.weighted, n) <= Measure(mode.weighted, d)
      {
        if mode.weighted {
          assert mode == WEIGHTED;
          WeightedBound(t, c, m, e, last, d);
        } else {
          assert mode == Mode(false, mode.watch);
          UnweightedBound(t, mode.watch, c, m, last, d);
        }
      }
    }
    forall j | 0 <= j < |n| ensures TightFrom(t, mode, n, j) {
      TightStepAt(t, mode, c, m, e, last, j);
    }
  }

  lemma {:induction false} TightStepAt(t: Trace, mode: Mode, c: Chain, m: nat, e: Event, last: int, j: nat)
    requires ValidTrace(t) && PlainChain(t, mode.watch, c) && Tight(t, mode, c)
    requires LatestUpTo(t, e, last, Last(c).pos) && Truncated(t, mode, c, m, last)
    requires AtLeast(t, mode, Last(c).pos + 1,
                     Measure(mode.weighted, c[..m] + [Hop(e, Last(c).pos + 1)]))
    requires j <= m
    ensures TightFrom(t, mode, c[..m] + [Hop(e, Last(c).pos + 1)], j)
  {
    var q := Last(c).pos;
    var n := c[..m] + [Hop(e, q + 1)];
    MeasureMonotone(mode.weighted, n, j + 1);
    var k := Measure(mode.weighted, n[..j + 1]);
    forall p | PosBefore(n, j) < p <= q + 1 ensures AtLeast(t, mode, p, k) {
      if p <= q && j < m {
        TightAt(t, mode, c, j, p);
        assert n[..j + 1] == c[..j + 1];
      } else if p <= q {
        assert n[..j + 1] == n;
        BetweenKeptAndNew(t, mode, c, m, e, last, p);
      }
    }
  }

  /** Positions after the kept hops already needed one more hop. */
  lemma {:induction false} BetweenKeptAndNew(t: Trace, mode: Mode, c: Chain, m: nat, e: Event, last: int, p: int)
    requires ValidTrace(t) && PlainChain(t, mode.watch, c) && Tight(t, mode, c)
    requires LatestUpTo(t, e, last, Last(c).pos) && Truncated(t, mode, c, m, last)
    requires c[m - 1].pos < p <= Last(c).pos
    ensures AtLeast(t, mode, p, Measure(mode.weighted, c[..m] + [Hop(e, Last(c).pos + 1)]))
  {
    var h := Hop(e, Last(c).pos + 1);
    TightAt(t, mode, c, m, p);
    assert c[..m + 1] == c[..m] + [c[m]];
    CostAppend(c[..m], c[m]);
    CostAppend(c[..m], h);
    HopsNotEqualBeforeNew(t, mode, c, m, e, last);
    assert Measure(mode.weighted, c[..m] + [h]) <= Measure(mode.weighted, c[..m + 1]);
  }

  lemma {:induction false} HopsNotEqualBeforeNew(t: Trace, mode: Mode, c: Chain, m: nat, e: Event, last: int)
    requires Navigates(t, c) && !StartsAtCheckpoint(c)
    requires LatestUpTo(t, e, last, Last(c).pos) && Truncated(t, mode, c, m, last)
    requires m < |c|
    ensures mode.weighted ==> HopCost(c[m - 1].event, e) == COST_CHANGE
  {
    if mode.weighted {
      PositionsIncrease(t, c, m - 1, |c| - 1);
      HopsNotEqualAfterLast(t, c, m - 1, e, last, Last(c).pos);
    }
  }

  lemma {:induction false} MeasureMonotone(weighted: bool, c: Chain, n: nat)
    requires 1 <= n <= |c|
    ensures Measure(weighted, c[..n]) <= Measure(weighted, c)
    decreases |c|
  {
    if n == |c| {
      assert c[..n] == c;
    } else {
      MeasureMonotone(weighted, c[..|c| - 1], n);
      assert c[..|c| - 1][..n] == c[..n];
    }
  }

  /** A first occurrence is reached by a single hop, and nothing is cheaper. */
  lemma {:induction false} TightSingle(t: Trace, mode: Mode, e: Event, p: int)
    requires Usable(mode.watch, e) && Lands(t, e, 0, p)
    ensures PlainChain(t, mode.watch, [Hop(e, p)]) && Tight(t, mode, [Hop(e, p)])
  {
  }
}
