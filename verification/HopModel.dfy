/** Execution traces, hop chains and what it means to navigate along a chain.

    A trace position holds the events of one dynamic instruction: first its
    execution (a breakpoint event), then one event per byte it reads or writes
    (watchpoint events).  Positions are numbered from 1, as the trace reader
    numbers them; position 0 is the start of the program. */
module HopModel {

  import opened Options

  /** `Execute` is the source's ACCESS_NONE. */
  datatype Access = Execute | Read | Write | Checkpoint

  datatype Event = Event(address: nat, access: Access)

  datatype Hop = Hop(event: Event, pos: nat)

  type Chain = seq<Hop>

  type Trace = seq<seq<Event>>

  /** What the trace reader delivers for one dynamic instruction; the same byte
      may be accessed more than once. */
  predicate ValidPosition(es: seq<Event>) {
    && es != []
    && es[0].access.Execute?
    && forall i | 0 < i < |es| :: es[i].access.Read? || es[i].access.Write?
  }

  predicate ValidTrace(t: Trace) {
    forall i | 0 <= i < |t| :: ValidPosition(t[i])
  }

  predicate Occurs(t: Trace, e: Event, p: int) {
    1 <= p <= |t| && e in t[p - 1]
  }

  /** Waiting for `e` at position `from` stops at `to`. */
  ghost predicate Lands(t: Trace, e: Event, from: int, to: int) {
    && from < to
    && Occurs(t, e, to)
    && forall r | from < r < to :: !Occurs(t, e, r)
  }

  function Last(c: Chain): (h: Hop)
    requires c != []
  {
    c[|c| - 1]
  }

  function PosBefore(c: Chain, i: nat): int
    requires i <= |c|
  {
    if i == 0 then 0 else c[i - 1].pos
  }

  predicate StartsAtCheckpoint(c: Chain) {
    c != [] && c[0].event.access.Checkpoint?
  }

  /** Hop `i` stops at its recorded position when armed where hop `i - 1`
      stopped. */
  ghost predicate HopLands(t: Trace, c: Chain, i: nat)
    requires i < |c|
  {
    Lands(t, c[i].event, PosBefore(c, i), c[i].pos)
  }

  /** Every hop waits for an event whose next occurrence is the hop's position.
      A chain may begin by restoring a checkpoint instead of at position 0. */
  ghost predicate Navigates(t: Trace, c: Chain) {
    && c != []
    && (StartsAtCheckpoint(c) ==> 1 <= c[0].pos <= |t|)
    && forall i | 0 <= i < |c| && (0 < i || !StartsAtCheckpoint(c)) :: HopLands(t, c, i)
  }

  // ---------------------------------------------------------------------
  // Replay: an operational reading of a chain
  // ---------------------------------------------------------------------

  /** Run the target from `from` until `e` triggers. */
  function RunTo(t: Trace, e: Event, from: nat): Option<nat>
    decreases |t| - from
  {
    if from >= |t| then None
    else if Occurs(t, e, from + 1) then Some(from + 1)
    else RunTo(t, e, from + 1)
  }

  /** Arm one hop after the other, starting at `from`; yields every stop. */
  function Replay(t: Trace, events: seq<Event>, from: nat): Option<seq<nat>> {
    if events == [] then Some([])
    else
      match RunTo(t, events[0], from)
      case None => None
      case Some(p) =>
        match Replay(t, events[1..], p)
        case None => None
        case Some(stops) => Some([p] + stops)
  }

  function Events(c: Chain): (es: seq<Event>)
    ensures |es| == |c|
    ensures forall i | 0 <= i < |c| :: es[i] == c[i].event
  {
    seq(|c|, i requires 0 <= i < |c| => c[i].event)
  }

  function Positions(c: Chain): (ps: seq<nat>)
    ensures |ps| == |c|
    ensures forall i | 0 <= i < |c| :: ps[i] == c[i].pos
  {
    seq(|c|, i requires 0 <= i < |c| => c[i].pos)
  }

  lemma {:induction false} RunToIsLands(t: Trace, e: Event, from: nat, to: nat)
    ensures RunTo(t, e, from) == Some(to) <==> Lands(t, e, from, to)
    decreases |t| - from
  {
    if from < |t| {
      if !Occurs(t, e, from + 1) {
        RunToIsLands(t, e, from + 1, to);
        if Lands(t, e, from + 1, to) {
          forall r | from < r < to ensures !Occurs(t, e, r) {
            if r != from + 1 { assert from + 1 < r; }
          }
        }
      }
    }
  }

  /** Hop `i` of `c` stops at its recorded position when the chain is entered
      at `from`. */
  ghost predicate StepLands(t: Trace, c: Chain, from: nat, i: nat)
    requires i < |c|
  {
    Lands(t, c[i].event, if i == 0 then from else c[i - 1].pos, c[i].pos)
  }

  /** Hops armed one after the other stop exactly at their recorded positions. */
  lemma {:induction false} StepsReplay(t: Trace, c: Chain, from: nat)
    requires forall i | 0 <= i < |c| :: StepLands(t, c, from, i)
    ensures Replay(t, Events(c), from) == Some(Positions(c))
    decreases |c|
  {
    if c != [] {
      var rest := c[1..];
      assert StepLands(t, c, from, 0);
      RunToIsLands(t, c[0].event, from, c[0].pos);
      forall i | 0 <= i < |rest| ensures StepLands(t, rest, c[0].pos, i) {
        assert StepLands(t, c, from, i + 1);
      }
      StepsReplay(t, rest, c[0].pos);
      assert Events(c)[0] == c[0].event && Events(c)[1..] == Events(rest);
      assert Positions(c) == [c[0].pos] + Positions(rest);
    } else {
      assert Events(c) == [] && Positions(c) == [];
    }
  }

  /** A navigating chain without a checkpoint replays from program start to its
      last position; one with a checkpoint replays from the restored position. */
  lemma {:induction false} NavigationReplays(t: Trace, c: Chain)
    requires Navigates(t, c)
    ensures !StartsAtCheckpoint(c) ==> Replay(t, Events(c), 0) == Some(Positions(c))
    ensures StartsAtCheckpoint(c) ==>
              Replay(t, Events(c[1..]), c[0].pos) == Some(Positions(c[1..]))
  {
    if StartsAtCheckpoint(c) {
      forall i | 0 <= i < |c| - 1 ensures StepLands(t, c[1..], c[0].pos, i) {
        assert HopLands(t, c, i + 1);
      }
      StepsReplay(t, c[1..], c[0].pos);
    } else {
      forall i | 0 <= i < |c| ensures StepLands(t, c, 0, i) {
        assert HopLands(t, c, i);
      }
      StepsReplay(t, c, 0);
    }
  }

  // ---------------------------------------------------------------------
  // Shape of navigating chains
  // ---------------------------------------------------------------------

  lemma {:induction false} PositionsIncrease(t: Trace, c: Chain, i: nat, j: nat)
    requires Navigates(t, c) && i < j < |c|
    ensures 0 < c[i].pos < c[j].pos <= |t|
    decreases j
  {
    assert HopLands(t, c, j);
    if i + 1 == j {
      if 0 < i || !StartsAtCheckpoint(c) {
        assert HopLands(t, c, i);
      }
    } else {
      PositionsIncrease(t, c, i, j - 1);
    }
  }

  /** A checkpoint can only be the first element of a navigating chain. */
  lemma {:induction false} CheckpointOnlyFirst(t: Trace, c: Chain, i: nat)
    requires ValidTrace(t) && Navigates(t, c) && 0 < i < |c|
    ensures !c[i].event.access.Checkpoint?
  {
    assert HopLands(t, c, i);
    assert ValidPosition(t[c[i].pos - 1]);
  }

  lemma {:induction false} PrefixNavigates(t: Trace, c: Chain, n: nat)
    requires Navigates(t, c) && 0 < n <= |c|
    ensures Navigates(t, c[..n])
  {
    var d := c[..n];
    forall i | 0 <= i < |d| && (0 < i || !StartsAtCheckpoint(d))
      ensures HopLands(t, d, i)
    {
      assert HopLands(t, c, i);
    }
  }

  lemma {:induction false} AppendNavigates(t: Trace, c: Chain, h: Hop)
    requires Navigates(t, c)
    requires Lands(t, h.event, Last(c).pos, h.pos)
    ensures Navigates(t, c + [h])
  {
    var d := c + [h];
    forall i | 0 <= i < |d| && (0 < i || !StartsAtCheckpoint(d))
      ensures HopLands(t, d, i)
    {
      if i < |c| {
        assert HopLands(t, c, i);
      }
    }
  }

  // ---------------------------------------------------------------------
  // Costs
  // ---------------------------------------------------------------------

  const COST_CHANGE: nat := 1
  const COST_NO_CHANGE: nat := 2

  function HopCost(before: Event, next: Event): nat {
    if before == next then COST_NO_CHANGE else COST_CHANGE
  }

  /** The first hop costs COST_CHANGE; each later hop depends on whether the
      armed event has to be changed. */
  function Cost(c: Chain): nat
    requires c != []
  {
    if |c| == 1 then COST_CHANGE
    else Cost(c[..|c| - 1]) + HopCost(c[|c| - 2].event, c[|c| - 1].event)
  }

  lemma {:induction false} CostAppend(c: Chain, h: Hop)
    requires c != []
    ensures Cost(c + [h]) == Cost(c) + HopCost(Last(c).event, h.event)
  {
  }

  lemma {:induction false} CostBounds(c: Chain)
    requires c != []
    ensures |c| <= Cost(c) <= 2 * |c| - 1
  {
    if |c| > 1 { CostBounds(c[..|c| - 1]); }
  }

  /** The collector's own cost computation, used when no cost is supplied. */
  method CalculateCosts(c: Chain) returns (costs: nat)
    requires c != []
    ensures costs == Cost(c)
  {
    costs := COST_CHANGE;
    assert c[..1] == [c[0]];
    for i := 1 to |c|
      invariant costs == Cost(c[..i])
    {
      costs := costs + (if c[i - 1].event == c[i].event then COST_NO_CHANGE else COST_CHANGE);
      assert c[..i + 1] == c[..i] + [c[i]];
      CostAppend(c[..i], c[i]);
    }
    assert c[..|c|] == c;
  }
}
