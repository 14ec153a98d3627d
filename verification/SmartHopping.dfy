/** The Smart-Hopping algorithm: one pass over the trace keeps a chain of hops
    to the current position, reusing the chain of the previous position. */
module SmartHopping {
  import opened Options
  import opened HopModel
  import opened SmartRun
  import opened SmartChains
  import opened SmartAccounts
  import opened SmartInvariants
  import opened SmartProof

  // ---------------------------------------------------------------------
  // Results
  // ---------------------------------------------------------------------

  class ResultCollector {
    var results: seq<Emission>
    var checkpointPositions: seq<nat>

    constructor ()
      ensures results == [] && checkpointPositions == []
    {
      results, checkpointPositions := [], [];
    }

    /** A cost of 0 means that the caller left the computation to the collector. */
    method AddResult(chain: Chain, costs: int)
      requires chain != []
      modifies `results
      ensures results == old(results) + [Reported(chain, costs)]
    {
      var c := costs;
      if c == 0 {
        c := CalculateCosts(chain);
      }
      results := results + [Emission(chain, c)];
    }

    method AddCheckpoint(pos: nat)
      modifies `checkpointPositions
      ensures checkpointPositions == old(checkpointPositions) + [pos]
    {
      checkpointPositions := checkpointPositions + [pos];
    }
  }

  /** The message written for one result; `None` is the collector's fatal exit. */
  datatype Message = Message(costs: int, target: nat, checkpoint: Option<nat>, hops: seq<Event>)

  function HopEvents(c: Chain): Option<seq<Event>> {
    if c == [] then Some([])
    else if c[0].event.access.Checkpoint? then None
    else
      match HopEvents(c[1..])
      case None => None
      case Some(es) => Some([c[0].event] + es)
  }

  function ToMessage(e: Emission): Option<Message>
    requires e.chain != []
  {
    var cp := StartsAtCheckpoint(e.chain);
    match HopEvents(if cp then e.chain[1..] else e.chain)
    case None => None
    case Some(hops) =>
      Some(Message(e.costs, Last(e.chain).pos, if cp then Some(e.chain[0].event.address) else None, hops))
  }

  lemma {:induction false} HopEventsOk(c: Chain)
    requires forall i | 0 <= i < |c| :: !c[i].event.access.Checkpoint?
    ensures HopEvents(c) == Some(Events(c))
  {
    if c == [] {
      assert Events(c) == [];
    } else {
      HopEventsOk(c[1..]);
      assert Events(c) == [c[0].event] + Events(c[1..]);
    }
  }

  /** Arming `hops` from `from` ends at `target`. */
  ghost predicate Reaches(t: Trace, hops: seq<Event>, from: nat, target: nat) {
    match Replay(t, hops, from)
    case None => false
    case Some(stops) => (if stops == [] then from else stops[|stops| - 1]) == target
  }

  /** The hops of a chain after a leading checkpoint. */
  function HopsOf(c: Chain): Chain {
    if StartsAtCheckpoint(c) then c[1..] else c
  }

  lemma {:induction false} MessageWritten(t: Trace, e: Emission)
    requires ValidTrace(t) && Navigates(t, e.chain)
    ensures ToMessage(e) ==
            Some(Message(e.costs, Last(e.chain).pos,
                         if StartsAtCheckpoint(e.chain) then Some(e.chain[0].event.address) else None,
                         Events(HopsOf(e.chain))))
  {
    var c, hops := e.chain, HopsOf(e.chain);
    forall i | 0 <= i < |hops| ensures !hops[i].event.access.Checkpoint? {
      var k := if StartsAtCheckpoint(c) then i + 1 else i;
      if k > 0 { CheckpointOnlyFirst(t, c, k); }
    }
    HopEventsOk(hops);
  }

  lemma {:induction false} HopsReach(t: Trace, c: Chain)
    requires Navigates(t, c)
    ensures Reaches(t, Events(HopsOf(c)), if StartsAtCheckpoint(c) then c[0].pos else 0, Last(c).pos)
  {
    NavigationReplays(t, c);
    var hops := HopsOf(c);
    assert hops != [] ==> Positions(hops)[|hops| - 1] == Last(c).pos;
  }

  /** A line of the checkpoint file. */
  datatype CheckpointLine = CheckpointLine(number: nat, pos: nat)

  /** The checkpoint file: lines are numbered from 1. */
  function CheckpointFile(cps: seq<nat>): (lines: seq<CheckpointLine>)
    ensures |lines| == |cps|
    ensures forall k | 0 <= k < |cps| :: lines[k] == CheckpointLine(k + 1, cps[k])
  {
    seq(|cps|, k requires 0 <= k < |cps| => CheckpointLine(k + 1, cps[k]))
  }

  /** Where the checkpoint with this id was taken: its file line is numbered one higher. */
  ghost predicate TakenAt(lines: seq<CheckpointLine>, id: nat, pos: nat) {
    CheckpointLine(id + 1, pos) in lines && forall l | l in lines && l.number == id + 1 :: l.pos == pos
  }

  /** The message of an emitted chain is written without a fatal exit, and arming its
      hops, from where the checkpoint it names was taken or from the start, ends
      exactly at its target. */
  lemma {:induction false} MessageReplays(t: Trace, e: Emission, cps: seq<nat>)
    requires ValidTrace(t) && ChainOk(t, e.chain, cps, |cps|)
    ensures ToMessage(e).Some?
    ensures var m := ToMessage(e).value;
            && m.target == Last(e.chain).pos
            && (m.checkpoint.None? ==> Reaches(t, m.hops, 0, m.target))
            && (m.checkpoint.Some? ==>
                  && m.checkpoint.value < |cps|
                  && TakenAt(CheckpointFile(cps), m.checkpoint.value, cps[m.checkpoint.value])
                  && Reaches(t, m.hops, cps[m.checkpoint.value], m.target))
  {
    MessageWritten(t, e);
    HopsReach(t, e.chain);
    if StartsAtCheckpoint(e.chain) {
      var lines, id := CheckpointFile(cps), e.chain[0].event.address;
      assert lines[id] in lines;
    }
  }

  // ---------------------------------------------------------------------
  // The algorithm
  // ---------------------------------------------------------------------

  class SmartAlgorithm {
    const cfg: Config
    const beyond: Beyond
    const collector: ResultCollector
    var lastPositions: map<Event, nat>
    var checkpoints: seq<Saved>
    var nextCpId: nat

    constructor (cfg: Config, beyond: Beyond, collector: ResultCollector)
      requires collector.results == [] && collector.checkpointPositions == []
      ensures this.cfg == cfg && this.beyond == beyond && this.collector == collector
      ensures nextCpId == 0 && Now([], 0) == State(map[], [], [], [], 0, [])
    {
      this.cfg, this.beyond, this.collector := cfg, beyond, collector;
      lastPositions, checkpoints, nextCpId := map[], [], 0;
    }

    /** The state of the run, given the local variables of its loop. */
    ghost function Now(chain: Chain, costs: int): State
      reads this, collector
    {
      State(lastPositions, checkpoints, collector.checkpointPositions, chain, costs, collector.results)
    }

    /** The loop over the events of one position: records all usable ones as seen at
        `pos`.  An event seen for the first time wins; otherwise the one seen longest
        ago. */
    method SelectEvent(events: seq<Event>, pos: nat) returns (first: Option<Event>, best: Event, lastPos: nat)
      requires ValidPosition(events) && forall e | e in lastPositions :: lastPositions[e] < pos
      modifies `lastPositions
      ensures lastPositions == Recorded(cfg, old(lastPositions), events, pos)
      ensures first == NewEvent(cfg, old(lastPositions), events)
      ensures first.None? ==>
                && Oldest(cfg, old(lastPositions), events) == Some(best)
                && best in old(lastPositions) && lastPos == old(lastPositions)[best]
    {
      ghost var before := lastPositions;
      first, best, lastPos := None, events[0], 0;
      var found := false;
      for i := 0 to |events|
        invariant Scanned(cfg, before, events[..i], pos, lastPositions, first, found, best, lastPos)
      {
        var e := events[i];
        assert events[..i + 1] == events[..i] + [e];
        if !cfg.useWatchpoints && !e.access.Execute? {
          ScannedNone(cfg, before, events[..i], pos, lastPositions, first, found, best, lastPos, e);
          continue;
        }
        ScannedOne(cfg, before, events[..i], pos, lastPositions, first, found, best, lastPos, e);
        if e !in lastPositions {
          lastPositions := lastPositions[e := pos];
          if first.None? {
            first := Some(e);
          }
        } else {
          if !found || lastPositions[e] < lastPos {
            found, lastPos, best := true, lastPositions[e], e;
          }
          lastPositions := lastPositions[e := pos];
        }
      }
      assert events[..|events|] == events && events[0] in events && Enabled(cfg, events[0]);
    }

    /** The hop before the chain's last one; before a leading checkpoint that is the end
        of the chain kept with it, unless too few hops of that chain would be deleted. */
    method HopBefore(chain: Chain, lastPos: nat, pos: nat) returns (left: Option<Hop>, forbidden: bool)
      requires Restorable(checkpoints, chain)
      ensures forbidden ==> left.None?
      ensures forall best ::
                MoveAt(cfg, beyond, checkpoints, chain, best, lastPos, pos) ==
                if left.None? || !MayDrop(cfg, left.value, best, lastPos) then Stop(forbidden)
                else if |chain| > 1 then Drop else Undo(chain[0].event.address)
      ensures |chain| > 1 ==> left == Some(chain[|chain| - 2])
      ensures left.Some? && |chain| == 1 ==> StartsAtCheckpoint(chain)
    {
      forbidden := false;
      if |chain| > 1 {
        return Some(chain[|chain| - 2]), false;
      }
      if !chain[0].event.access.Checkpoint? {
        return None, false;
      }
      var id := chain[0].event.address;
      var kept := checkpoints[id].chain;
      if cfg.rollbackThresh < |kept| {
        forbidden := kept[|kept| - 1 - cfg.rollbackThresh].pos < lastPos;
      } else {
        forbidden := beyond(pos, id);
      }
      left := if forbidden then None else Some(kept[|kept| - 1]);
    }

    /** Drops hops from the end of the chain as long as the new event can still
        be reached from the hop before; a leading checkpoint is undone by
        restoring the costs and the chain kept with it. */
    method Truncate(chain0: Chain, costs0: int, best: Event, lastPos: nat, pos: nat)
      returns (chain: Chain, costs: int, checkpointForbidden: bool)
      requires Restorable(checkpoints, chain0)
      ensures Cut(chain, costs, checkpointForbidden) ==
              CutBack(cfg, beyond, checkpoints, chain0, costs0, best, lastPos, pos)
    {
      chain, costs, checkpointForbidden := chain0, costs0, false;
      while true
        invariant !checkpointForbidden && Restorable(checkpoints, chain)
        invariant CutBack(cfg, beyond, checkpoints, chain, costs, best, lastPos, pos) ==
                  CutBack(cfg, beyond, checkpoints, chain0, costs0, best, lastPos, pos)
        decreases LeadingCheckpoint(chain), |chain|
      {
        var left;
        left, checkpointForbidden := HopBefore(chain, lastPos, pos);
        if left.None? {
          break;
        }
        if (!cfg.useWeights && !(lastPos <= left.value.pos)) || (cfg.useWeights && !(lastPos < left.value.pos)) {
          break;
        }
        if lastPos == left.value.pos && left.value.event != best {
          break;
        }
        if |chain| == 1 {
          costs := checkpoints[chain[0].event.address].costs;
          chain := checkpoints[chain[0].event.address].chain;
          continue;
        }
        costs := costs - (if left.value.event == chain[|chain| - 1].event then COST_NO_CHANGE else COST_CHANGE);
        chain := chain[..|chain| - 1];
      }
    }

    /** A position whose usable events were all seen before. */
    method Extend(chain0: Chain, costs0: int, best: Event, lastPos: nat, pos: nat)
      returns (chain: Chain, costs: int)
      requires Restorable(checkpoints, chain0) && nextCpId == |checkpoints|
      modifies `checkpoints, `nextCpId, collector
      ensures nextCpId == |checkpoints| && chain != []
      ensures Now(chain, costs) ==
              Continued(cfg, old(Now(chain0, costs0)), best, pos,
                        CutBack(cfg, beyond, old(checkpoints), chain0, costs0, best, lastPos, pos))
    {
      var checkpointForbidden;
      chain, costs, checkpointForbidden := Truncate(chain0, costs0, best, lastPos, pos);
      ghost var cut := Cut(chain, costs, checkpointForbidden);
      costs := costs + (if best == chain[|chain| - 1].event then COST_NO_CHANGE else COST_CHANGE);
      assert costs == Total(cut, best);
      if cfg.useCheckpoints && costs > cfg.cpThresh && !checkpointForbidden {
        checkpoints := checkpoints + [Saved(costs, chain)];
        chain := [Hop(Event(nextCpId, Checkpoint), pos)];
        nextCpId := nextCpId + 1;
        costs := cfg.costCp;
        collector.AddCheckpoint(pos);
      } else {
        chain := chain + [Hop(best, pos)];
      }
      collector.AddResult(chain, costs);
    }

    /** One position of the trace. */
    method Step(events: seq<Event>, pos: nat, chain0: Chain, costs0: int) returns (chain: Chain, costs: int)
      requires ValidPosition(events) && ValidState(Now(chain0, costs0)) && nextCpId == |checkpoints|
      requires forall e | e in lastPositions :: lastPositions[e] < pos
      modifies this, collector
      ensures nextCpId == |checkpoints|
      ensures Now(chain, costs) == Next(cfg, beyond, old(Now(chain0, costs0)), events, pos)
    {
      ghost var s := Now(chain0, costs0);
      var first, best, lastPos := SelectEvent(events, pos);
      if first.Some? {
        chain, costs := [Hop(first.value, pos)], COST_CHANGE;
        collector.AddResult(chain, costs);
      } else {
        chain, costs := Extend(chain0, costs0, best, lastPos, pos);
      }
    }

    /** The results, the checkpoints and the chains kept with them are those of the run;
        so for every position a chain that navigates to it is emitted, with
        breakpoints only a cheapest one, and every cost is accounted for. */
    method CalculateAllHops(t: Trace)
      requires ValidTrace(t) && nextCpId == 0 && Now([], 0) == State(map[], [], [], [], 0, [])
      modifies this, collector
      ensures var s := Run(cfg, beyond, t);
              && collector.results == s.results && collector.checkpointPositions == s.cps && checkpoints == s.saved
              && LeadsTo(cfg, beyond, t, s, PastOf(cfg, beyond, t))
      ensures var h := PastOf(cfg, beyond, t);
              && |collector.results| == |t|
              && AllOk(t, cfg, collector.results, collector.checkpointPositions)
              && AllAccounted(t, cfg, beyond, collector.results, checkpoints, h.taken, h.accounts)
              && AllSaved(t, cfg, checkpoints, h.taken, collector.checkpointPositions)
              && AllTaken(collector.results, checkpoints, h.taken, collector.checkpointPositions)
      ensures !cfg.useCheckpoints ==> collector.checkpointPositions == []
    {
      var chain: Chain, costs := [], 0;
      for pos := 1 to |t| + 1
        invariant nextCpId == |checkpoints|
        invariant Now(chain, costs) == Run(cfg, beyond, t[..pos - 1])
      {
        LatestBefore(t, cfg, beyond, pos - 1);
        RunNext(cfg, beyond, t, pos - 1);
        chain, costs := Step(t[pos - 1], pos, chain, costs);
      }
      LeadsToRun(t, cfg, beyond);
      RunKeeps(t, cfg, beyond, Run(cfg, beyond, t), PastOf(cfg, beyond, t));
      assert t[..|t|] == t;
    }
  }
}
