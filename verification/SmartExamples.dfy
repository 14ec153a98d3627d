/** Runs of Smart-Hopping on small inputs: costs above those of the chain, above the
    threshold, a look-ahead beyond the kept chain, and an ambiguous hop. */
module SmartExamples {
  import opened Options
  import opened HopModel
  import opened HopOptimality
  import opened SmartRun
  import opened SmartChains
  import opened SmartInvariants
  import opened SmartProof
  import opened SmartOptimality
  import opened SmartHopping

  function Instruction(a: nat): Event {
    Event(a, Execute)
  }

  /** The hop to instruction `a` at a position, and that to a restored checkpoint. */
  function HopTo(a: nat, pos: nat): Hop { Hop(Instruction(a), pos) }

  function Restore(id: nat, pos: nat): Hop { Hop(Event(id, Checkpoint), pos) }

  /** A trace of instructions without memory accesses. */
  function Code(addresses: seq<nat>): (t: Trace)
    ensures |t| == |addresses| && ValidTrace(t)
    ensures forall i | 0 <= i < |t| :: t[i] == [Instruction(addresses[i])]
  {
    seq(|addresses|, i requires 0 <= i < |addresses| => [Instruction(addresses[i])])
  }

  // ---------------------------------------------------------------------
  // Steps
  // ---------------------------------------------------------------------

  predicate IsState(u: State, s: State) {
    ValidState(u) && u == s
  }

  /** One position leads from `s` to `s'`.  (Said of whatever state is known to be `s`, so
      that the step is unfolded only where a proof asks for it.) */
  ghost predicate StepTo(cfg: Config, beyond: Beyond, s: State, es: seq<Event>, pos: nat, s': State) {
    && ValidState(s) && ValidPosition(es)
    && forall u {:trigger IsState(u, s)} | IsState(u, s) :: Next(cfg, beyond, u, es, pos) == s'
  }

  /** The positions of `t` lead to `s`, step by step. */
  ghost predicate Path(cfg: Config, beyond: Beyond, t: Trace, s: State) {
    if t == [] then s == State(map[], [], [], [], 0, [])
    else
      var n := |t| - 1;
      exists s0 :: Path(cfg, beyond, t[..n], s0) && StepTo(cfg, beyond, s0, t[n], n + 1, s)
  }

  lemma {:induction false} OneMore(cfg: Config, beyond: Beyond, t: Trace, s: State, es: seq<Event>, s': State)
    requires Path(cfg, beyond, t, s) && StepTo(cfg, beyond, s, es, |t| + 1, s')
    ensures Path(cfg, beyond, t + [es], s')
  {
    assert (t + [es])[..|t|] == t;
  }

  /** The run on that trace ends in `s`. */
  lemma {:induction false} PathRuns(cfg: Config, beyond: Beyond, t: Trace, s: State)
    requires Path(cfg, beyond, t, s) && ValidTrace(t)
    ensures Run(cfg, beyond, t) == s
  {
    if t != [] {
      var n := |t| - 1;
      var s0 :| Path(cfg, beyond, t[..n], s0) && StepTo(cfg, beyond, s0, t[n], n + 1, s);
      PathRuns(cfg, beyond, t[..n], s0);
      RunNext(cfg, beyond, t, n);
      assert t[..n + 1] == t && IsState(s0, s0);
    }
  }

  lemma {:induction false} OneInstruction(cfg: Config, latest: map<Event, nat>, a: nat, pos: nat)
    ensures var e := Instruction(a);
            && NewEvent(cfg, latest, [e]) == (if e in latest then None else Some(e))
            && Oldest(cfg, latest, [e]) == (if e in latest then Some(e) else None)
            && Recorded(cfg, latest, [e], pos) == latest[e := pos]
  {
    var e := Instruction(a);
    assert [e][..0] == [];
  }

  /** An instruction executed for the first time. */
  lemma {:induction false} First(cfg: Config, beyond: Beyond, s: State, a: nat, pos: nat)
    requires ValidState(s) && Instruction(a) !in s.latest
    ensures StepTo(cfg, beyond, s, [Instruction(a)], pos,
                   State(s.latest[Instruction(a) := pos], s.saved, s.cps, [HopTo(a, pos)], 1,
                         s.results + [Emission([HopTo(a, pos)], 1)]))
  {
    OneInstruction(cfg, s.latest, a, pos);
  }

  /** An instruction executed again. */
  lemma {:induction false} Again(
    cfg: Config, beyond: Beyond, s: State, a: nat, lastPos: nat, pos: nat, cut: Cut)
    requires ValidState(s) && s.chain != [] && cut.chain != []
    requires Instruction(a) in s.latest && s.latest[Instruction(a)] == lastPos
    requires CutBack(cfg, beyond, s.saved, s.chain, s.costs, Instruction(a), lastPos, pos) == cut
    ensures StepTo(cfg, beyond, s, [Instruction(a)], pos,
                   Continued(cfg, s.(latest := s.latest[Instruction(a) := pos]), Instruction(a), pos, cut))
  {
    OneInstruction(cfg, s.latest, a, pos);
  }

  /** The latest positions of the instructions 0, 1 and 2; 0 if not executed yet. */
  ghost predicate Latest(s: State, p0: nat, p1: nat, p2: nat) {
    && LatestIs(s, 0, p0) && LatestIs(s, 1, p1) && LatestIs(s, 2, p2)
  }

  ghost predicate LatestIs(s: State, a: nat, p: nat) {
    if p == 0 then Instruction(a) !in s.latest else Instruction(a) in s.latest && s.latest[Instruction(a)] == p
  }

  /** A state of an example: where the instructions were executed last, what is kept with
      checkpoints, and the working chain and cost. */
  ghost predicate Shows(
    cfg: Config, beyond: Beyond, addresses: seq<nat>, s: State, saved: seq<Saved>, c: Chain, costs: int)
  {
    Path(cfg, beyond, Code(addresses), s) && ValidState(s)
    && s.saved == saved && s.chain == c && s.costs == costs
    && |s.results| == |addresses| && (c != [] && addresses != [] ==> s.results[|addresses| - 1] == Reported(c, costs))
  }

  lemma {:induction false} OneMoreInstruction(
    cfg: Config, beyond: Beyond, addresses: seq<nat>, s: State, a: nat, s': State)
    requires Path(cfg, beyond, Code(addresses), s)
    requires StepTo(cfg, beyond, s, [Instruction(a)], |addresses| + 1, s')
    ensures Path(cfg, beyond, Code(addresses + [a]), s')
  {
    OneMore(cfg, beyond, Code(addresses), s, [Instruction(a)], s');
    assert Code(addresses + [a]) == Code(addresses) + [[Instruction(a)]];
  }

  lemma {:induction false} FirstOne(cfg: Config, beyond: Beyond, addresses: seq<nat>, s: State, a: nat,
                                    saved: seq<Saved>, c: Chain, costs: int) returns (s': State)
    requires Shows(cfg, beyond, addresses, s, saved, c, costs) && LatestIs(s, a, 0)
    ensures Shows(cfg, beyond, addresses + [a], s', saved, [HopTo(a, |addresses| + 1)], 1)
    ensures s'.latest == s.latest[Instruction(a) := |addresses| + 1]
  {
    var pos := |addresses| + 1;
    First(cfg, beyond, s, a, pos);
    s' := Next(cfg, beyond, s, [Instruction(a)], pos);
    OneMoreInstruction(cfg, beyond, addresses, s, a, s');
  }

  /** An instruction executed again: its hop is appended to `cut`, giving `c'`. */
  lemma {:induction false} AppendOne(cfg: Config, beyond: Beyond, addresses: seq<nat>, s: State, a: nat, lastPos: nat,
                                     saved: seq<Saved>, c: Chain, costs: int, cut: Cut, c': Chain) returns (s': State)
    requires Shows(cfg, beyond, addresses, s, saved, c, costs) && 0 < lastPos && LatestIs(s, a, lastPos)
    requires Restorable(saved, c) && cut.chain != []
    requires CutBack(cfg, beyond, saved, c, costs, Instruction(a), lastPos, |addresses| + 1) == cut
    requires !TakesCheckpoint(cfg, cut, Instruction(a)) && c' == cut.chain + [HopTo(a, |addresses| + 1)]
    ensures Shows(cfg, beyond, addresses + [a], s', saved, c', Total(cut, Instruction(a)))
    ensures s'.latest == s.latest[Instruction(a) := |addresses| + 1]
  {
    var pos := |addresses| + 1;
    Again(cfg, beyond, s, a, lastPos, pos, cut);
    s' := Next(cfg, beyond, s, [Instruction(a)], pos);
    OneMoreInstruction(cfg, beyond, addresses, s, a, s');
  }

  /** An instruction executed again: a checkpoint is taken and `kept` with it. */
  lemma {:induction false} TakeOne(cfg: Config, beyond: Beyond, addresses: seq<nat>, s: State, a: nat, lastPos: nat,
                                   saved: seq<Saved>, c: Chain, costs: int, cut: Cut, kept: Saved) returns (s': State)
    requires Shows(cfg, beyond, addresses, s, saved, c, costs) && 0 < lastPos && LatestIs(s, a, lastPos)
    requires Restorable(saved, c) && cut.chain != []
    requires CutBack(cfg, beyond, saved, c, costs, Instruction(a), lastPos, |addresses| + 1) == cut
    requires TakesCheckpoint(cfg, cut, Instruction(a)) && kept == Saved(Total(cut, Instruction(a)), cut.chain)
    ensures Shows(cfg, beyond, addresses + [a], s', saved + [kept], [Restore(|saved|, |addresses| + 1)], cfg.costCp)
    ensures s'.latest == s.latest[Instruction(a) := |addresses| + 1]
  {
    var pos := |addresses| + 1;
    Again(cfg, beyond, s, a, lastPos, pos, cut);
    s' := Next(cfg, beyond, s, [Instruction(a)], pos);
    OneMoreInstruction(cfg, beyond, addresses, s, a, s');
  }

  lemma {:induction false} Start2(cfg: Config, beyond: Beyond, ads: seq<nat>) returns (s: State)
    requires |ads| == 2 && ads[0] == 0 && ads[1] == 1
    ensures Shows(cfg, beyond, ads, s, [], [HopTo(1, 2)], 1) && Latest(s, 1, 2, 0)
  {
    s := State(map[], [], [], [], 0, []);
    s := FirstOne(cfg, beyond, ads[..0], s, 0, [], [], 0);
    assert ads[..0] + [0] == ads[..1];
    s := FirstOne(cfg, beyond, ads[..1], s, 1, [], [HopTo(0, 1)], 1);
    assert ads[..1] + [1] == ads;
  }

  /** Both examples start with the instructions 0, 1 and 0. */
  lemma {:induction false} Start3(cfg: Config, beyond: Beyond, ads: seq<nat>) returns (s: State)
    requires !cfg.useWeights && 2 <= cfg.cpThresh && |ads| == 3 && ads[0] == 0 && ads[1] == 1 && ads[2] == 0
    ensures Shows(cfg, beyond, ads, s, [], [HopTo(1, 2), HopTo(0, 3)], 2) && Latest(s, 3, 2, 0)
  {
    s := Start2(cfg, beyond, ads[..2]);
    s := AppendOne(cfg, beyond, ads[..2], s, 0, 1, [], [HopTo(1, 2)], 1,
                   Cut([HopTo(1, 2)], 1, false), [HopTo(1, 2), HopTo(0, 3)]);
    assert ads[..2] + [0] == ads;
  }

  // ---------------------------------------------------------------------
  // A surplus, and a cost above the threshold
  // ---------------------------------------------------------------------

  const OVER: Config := Config(false, false, true, 2, 0, 0)

  /** The chains kept with the two checkpoints. */
  const OVER_FIRST: Saved := Saved(3, [HopTo(1, 2)])

  const OVER_SECOND: Saved := Saved(3, [Restore(0, 4), HopTo(1, 5)])

  const OVER_CODE: seq<nat> := [0, 1, 0, 1, 1, 1, 0]

  lemma {:induction false} OverCut4(beyond: Beyond)
    ensures CutBack(OVER, beyond, [], [HopTo(1, 2), HopTo(0, 3)], 2, Instruction(1), 2, 4) ==
            Cut([HopTo(1, 2)], 1, false)
  {
    assert [HopTo(1, 2), HopTo(0, 3)][..1] == [HopTo(1, 2)];
  }

  lemma {:induction false} Over4(beyond: Beyond, ads: seq<nat>) returns (s: State)
    requires |ads| == 4 && ads <= OVER_CODE
    ensures Shows(OVER, beyond, ads, s, [OVER_FIRST], [Restore(0, 4)], 0) && Latest(s, 3, 4, 0)
  {
    s := Start3(OVER, beyond, ads[..3]);
    OverCut4(beyond);
    s := TakeOne(OVER, beyond, ads[..3], s, 1, 2, [], [HopTo(1, 2), HopTo(0, 3)], 2,
                 Cut([HopTo(1, 2)], 1, false), OVER_FIRST);
    assert ads[..3] + [1] == ads;
  }

  lemma {:induction false} OverCut5(beyond: Beyond)
    ensures CutBack(OVER, beyond, [OVER_FIRST], [Restore(0, 4)], 0, Instruction(1), 4, 5) ==
            Cut([Restore(0, 4)], 0, true)
  {
  }

  lemma {:induction false} Over5(beyond: Beyond, ads: seq<nat>) returns (s: State)
    requires |ads| == 5 && ads <= OVER_CODE
    ensures Shows(OVER, beyond, ads, s, [OVER_FIRST], [Restore(0, 4), HopTo(1, 5)], 1) && Latest(s, 3, 5, 0)
  {
    s := Over4(beyond, ads[..4]);
    OverCut5(beyond);
    s := AppendOne(OVER, beyond, ads[..4], s, 1, 4, [OVER_FIRST], [Restore(0, 4)], 0,
                   Cut([Restore(0, 4)], 0, true), [Restore(0, 4), HopTo(1, 5)]);
    assert ads[..4] + [1] == ads;
  }

  lemma {:induction false} OverCut6(beyond: Beyond)
    ensures CutBack(OVER, beyond, [OVER_FIRST], [Restore(0, 4), HopTo(1, 5)], 1, Instruction(1), 5, 6) ==
            Cut([Restore(0, 4), HopTo(1, 5)], 1, false)
  {
  }

  lemma {:induction false} Over6(beyond: Beyond, ads: seq<nat>) returns (s: State)
    requires |ads| == 6 && ads <= OVER_CODE
    ensures Shows(OVER, beyond, ads, s, [OVER_FIRST, OVER_SECOND], [Restore(1, 6)], 0) && Latest(s, 3, 6, 0)
  {
    s := Over5(beyond, ads[..5]);
    OverCut6(beyond);
    s := TakeOne(OVER, beyond, ads[..5], s, 1, 5, [OVER_FIRST], [Restore(0, 4), HopTo(1, 5)], 1,
                 Cut([Restore(0, 4), HopTo(1, 5)], 1, false), OVER_SECOND);
    assert ads[..5] + [1] == ads;
  }

  lemma {:induction false} OverCut7(beyond: Beyond)
    ensures CutBack(OVER, beyond, [OVER_FIRST, OVER_SECOND], [Restore(1, 6)], 0, Instruction(0), 3, 7) ==
            Cut([Restore(0, 4)], 2, true)
  {
    assert [Restore(0, 4), HopTo(1, 5)][..1] == [Restore(0, 4)];
  }

  lemma {:induction false} Over7(beyond: Beyond, ads: seq<nat>) returns (s: State)
    requires |ads| == 7 && ads <= OVER_CODE
    ensures Shows(OVER, beyond, ads, s, [OVER_FIRST, OVER_SECOND], [Restore(0, 4), HopTo(0, 7)], 3)
    ensures Latest(s, 7, 6, 0)
  {
    s := Over6(beyond, ads[..6]);
    OverCut7(beyond);
    s := AppendOne(OVER, beyond, ads[..6], s, 0, 3, [OVER_FIRST, OVER_SECOND], [Restore(1, 6)], 0,
                   Cut([Restore(0, 4)], 2, true), [Restore(0, 4), HopTo(0, 7)]);
    assert ads[..6] + [0] == ads;
  }

  lemma {:induction false} OverCost()
    ensures ChainCost(OVER, [Restore(0, 4), HopTo(0, 7)]) == 1
  {
    CostAppend([Restore(0, 4)], HopTo(0, 7));
    assert [Restore(0, 4)] + [HopTo(0, 7)] == [Restore(0, 4), HopTo(0, 7)];
  }

  /** The last result of this run costs 1, but 3 is reported, which is more than the
      threshold of 2. */
  lemma {:induction false} OverRun(beyond: Beyond)
    ensures ValidConfig(OVER)
    ensures var rs := Run(OVER, beyond, Code(OVER_CODE)).results;
            && |rs| == 7 && rs[6] == Emission([Restore(0, 4), HopTo(0, 7)], 3)
            && ChainCost(OVER, rs[6].chain) == 1 && rs[6].costs > OVER.cpThresh
  {
    var s := Over7(beyond, OVER_CODE);
    PathRuns(OVER, beyond, Code(OVER_CODE), s);
    OverCost();
  }

  // ---------------------------------------------------------------------
  // A kept chain shorter than the look-ahead
  // ---------------------------------------------------------------------

  const SHORT: Config := Config(false, false, true, 4, 0, 1)

  const SHORT_FIRST: Saved := Saved(6, [HopTo(1, 2), HopTo(0, 3), HopTo(0, 4)])

  const SHORT_SECOND: Saved := Saved(5, [HopTo(1, 2)])

  const SHORT_CODE: seq<nat> := [0, 1, 0, 0, 0, 1]

  lemma {:induction false} ShortCut4(beyond: Beyond)
    ensures CutBack(SHORT, beyond, [], [HopTo(1, 2), HopTo(0, 3)], 2, Instruction(0), 3, 4) ==
            Cut([HopTo(1, 2), HopTo(0, 3)], 2, false)
  {
  }

  lemma {:induction false} Short4(beyond: Beyond, ads: seq<nat>) returns (s: State)
    requires |ads| == 4 && ads <= SHORT_CODE
    ensures Shows(SHORT, beyond, ads, s, [], [HopTo(1, 2), HopTo(0, 3), HopTo(0, 4)], 4) && Latest(s, 4, 2, 0)
  {
    s := Start3(SHORT, beyond, ads[..3]);
    ShortCut4(beyond);
    s := AppendOne(SHORT, beyond, ads[..3], s, 0, 3, [], [HopTo(1, 2), HopTo(0, 3)], 2,
                   Cut([HopTo(1, 2), HopTo(0, 3)], 2, false), [HopTo(1, 2), HopTo(0, 3), HopTo(0, 4)]);
    assert ads[..3] + [0] == ads;
  }

  lemma {:induction false} ShortCut5(beyond: Beyond)
    ensures CutBack(SHORT, beyond, [], [HopTo(1, 2), HopTo(0, 3), HopTo(0, 4)], 4, Instruction(0), 4, 5) ==
            Cut([HopTo(1, 2), HopTo(0, 3), HopTo(0, 4)], 4, false)
  {
  }

  lemma {:induction false} Short5(beyond: Beyond, ads: seq<nat>) returns (s: State)
    requires |ads| == 5 && ads <= SHORT_CODE
    ensures Shows(SHORT, beyond, ads, s, [SHORT_FIRST], [Restore(0, 5)], 0) && Latest(s, 5, 2, 0)
  {
    s := Short4(beyond, ads[..4]);
    ShortCut5(beyond);
    s := TakeOne(SHORT, beyond, ads[..4], s, 0, 4, [], [HopTo(1, 2), HopTo(0, 3), HopTo(0, 4)], 4,
                 Cut([HopTo(1, 2), HopTo(0, 3), HopTo(0, 4)], 4, false), SHORT_FIRST);
    assert ads[..4] + [0] == ads;
  }

  lemma {:induction false} ShortCut6(beyond: Beyond)
    ensures CutBack(SHORT, beyond, [SHORT_FIRST], [Restore(0, 5)], 0, Instruction(1), 2, 6) ==
            Cut([HopTo(1, 2)], 3, false)
  {
    assert [HopTo(1, 2), HopTo(0, 3), HopTo(0, 4)][..2] == [HopTo(1, 2), HopTo(0, 3)];
    assert [HopTo(1, 2), HopTo(0, 3)][..1] == [HopTo(1, 2)];
  }

  lemma {:induction false} Short6(beyond: Beyond, ads: seq<nat>) returns (s: State)
    requires |ads| == 6 && ads <= SHORT_CODE
    ensures Shows(SHORT, beyond, ads, s, [SHORT_FIRST, SHORT_SECOND], [Restore(1, 6)], 0) && Latest(s, 5, 6, 0)
  {
    s := Short5(beyond, ads[..5]);
    ShortCut6(beyond);
    s := TakeOne(SHORT, beyond, ads[..5], s, 1, 2, [SHORT_FIRST], [Restore(0, 5)], 0,
                 Cut([HopTo(1, 2)], 3, false), SHORT_SECOND);
    assert ads[..5] + [1] == ads;
  }

  /** The second checkpoint of this run keeps a chain of one hop.  If instruction 1 comes
      next, truncation looks beyond that chain. */
  lemma {:induction false} ShortRun(beyond: Beyond)
    ensures ValidConfig(SHORT)
    ensures var s := Run(SHORT, beyond, Code(SHORT_CODE));
            && |s.saved| == 2 && s.saved[1].chain == [HopTo(1, 2)] && |s.saved[1].chain| <= SHORT.rollbackThresh
            && LatestIs(s, 1, 6) && Restorable(s.saved, s.chain)
            && MoveAt(SHORT, beyond, s.saved, s.chain, Instruction(1), 6, 7) == Stop(beyond(7, 1))
  {
    var s := Short6(beyond, SHORT_CODE);
    PathRuns(SHORT, beyond, Code(SHORT_CODE), s);
  }

  // ---------------------------------------------------------------------
  // An ambiguous hop
  // ---------------------------------------------------------------------

  const BYTE: Event := Event(0, Write)

  /** An instruction executed three times that writes a new byte the second time. */
  const WRITES_ONCE: Trace := [[Instruction(0)], [Instruction(0), BYTE], [Instruction(0)]]

  lemma {:induction false} TwoEvents(cfg: Config, latest: map<Event, nat>, pos: nat)
    requires cfg.useWatchpoints && Instruction(0) in latest && BYTE !in latest
    ensures NewEvent(cfg, latest, [Instruction(0), BYTE]) == Some(BYTE)
    ensures Recorded(cfg, latest, [Instruction(0), BYTE], pos) == latest[Instruction(0) := pos][BYTE := pos]
  {
    OneInstruction(cfg, latest, 0, pos);
    assert [Instruction(0), BYTE][..1] == [Instruction(0)];
  }

  /** After `t` the chain is `c`, emitted with its cost, and nothing is kept. */
  ghost predicate After(cfg: Config, beyond: Beyond, t: Trace, s: State, c: Chain, costs: int) {
    && Path(cfg, beyond, t, s) && ValidState(s) && s.saved == []
    && c != [] && s.chain == c && s.costs == costs > 0
    && |s.results| == |t| > 0 && s.results[|t| - 1] == Emission(c, costs)
  }

  lemma {:induction false} BeginsWith(cfg: Config, beyond: Beyond, a: nat) returns (s: State)
    ensures After(cfg, beyond, [[Instruction(a)]], s, [HopTo(a, 1)], 1) && s.latest == map[Instruction(a) := 1]
  {
    var s0 := State(map[], [], [], [], 0, []);
    First(cfg, beyond, s0, a, 1);
    s := Next(cfg, beyond, s0, [Instruction(a)], 1);
    assert IsState(s0, s0);
    OneMore(cfg, beyond, [], s0, [Instruction(a)], s);
    assert [] + [[Instruction(a)]] == [[Instruction(a)]];
  }

  lemma {:induction false} ThenNew(cfg: Config, beyond: Beyond, t: Trace, s: State, c: Chain, costs: int, a: nat)
    returns (s': State)
    requires After(cfg, beyond, t, s, c, costs) && Instruction(a) !in s.latest
    ensures After(cfg, beyond, t + [[Instruction(a)]], s', [HopTo(a, |t| + 1)], 1)
    ensures s'.latest == s.latest[Instruction(a) := |t| + 1]
  {
    First(cfg, beyond, s, a, |t| + 1);
    s' := Next(cfg, beyond, s, [Instruction(a)], |t| + 1);
    assert IsState(s, s);
    OneMore(cfg, beyond, t, s, [Instruction(a)], s');
  }

  /** A known instruction that writes the byte for the first time starts a chain with the
      byte. */
  lemma {:induction false} ThenByte(cfg: Config, beyond: Beyond, t: Trace, s: State, c: Chain, costs: int)
    returns (s': State)
    requires After(cfg, beyond, t, s, c, costs) && cfg.useWatchpoints
    requires Instruction(0) in s.latest && BYTE !in s.latest
    ensures After(cfg, beyond, t + [[Instruction(0), BYTE]], s', [Hop(BYTE, |t| + 1)], 1)
    ensures s'.latest == s.latest[Instruction(0) := |t| + 1][BYTE := |t| + 1]
  {
    TwoEvents(cfg, s.latest, |t| + 1);
    s' := Next(cfg, beyond, s, [Instruction(0), BYTE], |t| + 1);
    assert StepTo(cfg, beyond, s, [Instruction(0), BYTE], |t| + 1, s');
    OneMore(cfg, beyond, t, s, [Instruction(0), BYTE], s');
  }

  /** An instruction executed again, with the whole chain kept. */
  lemma {:induction false} ThenAgain(
    cfg: Config, beyond: Beyond, t: Trace, s: State, c: Chain, costs: int, a: nat, lastPos: nat) returns (s': State)
    requires After(cfg, beyond, t, s, c, costs) && !cfg.useCheckpoints && !StartsAtCheckpoint(c)
    requires 0 < lastPos && LatestIs(s, a, lastPos)
    requires |c| == 1 || !MayDrop(cfg, c[|c| - 2], Instruction(a), lastPos)
    ensures After(cfg, beyond, t + [[Instruction(a)]], s', c + [HopTo(a, |t| + 1)],
                  costs + HopCost(Last(c).event, Instruction(a)))
    ensures s'.latest == s.latest[Instruction(a) := |t| + 1]
  {
    Again(cfg, beyond, s, a, lastPos, |t| + 1, Cut(c, costs, false));
    s' := Next(cfg, beyond, s, [Instruction(a)], |t| + 1);
    assert IsState(s, s);
    OneMore(cfg, beyond, t, s, [Instruction(a)], s');
  }

  lemma {:induction false} AmbiguousEnd(cfg: Config, beyond: Beyond) returns (s: State)
    requires cfg.useWatchpoints && !cfg.useCheckpoints
    ensures After(cfg, beyond, WRITES_ONCE, s, [Hop(BYTE, 2), HopTo(0, 3)], 2)
  {
    var t1 := [[Instruction(0)]];
    var t2 := t1 + [[Instruction(0), BYTE]];
    s := BeginsWith(cfg, beyond, 0);
    s := ThenByte(cfg, beyond, t1, s, [HopTo(0, 1)], 1);
    s := ThenAgain(cfg, beyond, t2, s, [Hop(BYTE, 2)], 1, 0, 2);
    assert t2 + [[Instruction(0)]] == WRITES_ONCE;
    assert [Hop(BYTE, 2)] + [HopTo(0, 3)] == [Hop(BYTE, 2), HopTo(0, 3)];
  }

  /** With watchpoints the chain for the third position waits for the instruction although
      that also occurs where the watchpoint stopped. */
  lemma {:induction false} AmbiguousRun(cfg: Config, beyond: Beyond)
    requires cfg.useWatchpoints && !cfg.useCheckpoints
    ensures ValidTrace(WRITES_ONCE)
    ensures var rs := Run(cfg, beyond, WRITES_ONCE).results;
            && |rs| == 3 && rs[2] == Emission([Hop(BYTE, 2), HopTo(0, 3)], 2)
            && Ambiguous(WRITES_ONCE, rs[2].chain, 1)
  {
    assert ValidPosition([Instruction(0)]) && ValidPosition([Instruction(0), BYTE]);
    var s := AmbiguousEnd(cfg, beyond);
    PathRuns(cfg, beyond, WRITES_ONCE, s);
  }

  // ---------------------------------------------------------------------
  // A hop too many
  // ---------------------------------------------------------------------

  /** The second instruction executed writes a new byte the next time; then both are
      executed again. */
  const WRITES_LATE: Trace :=
    [[Instruction(1)], [Instruction(0)], [Instruction(0), BYTE], [Instruction(1)], [Instruction(0)]]

  lemma {:induction false} HinderedSteps(cfg: Config, beyond: Beyond) returns (s: State)
    requires cfg.useWatchpoints
    ensures After(cfg, beyond, WRITES_LATE[..3], s, [Hop(BYTE, 3)], 1) && LatestIs(s, 1, 1) && LatestIs(s, 0, 3)
  {
    var t1 := [[Instruction(1)]];
    var t2 := t1 + [[Instruction(0)]];
    s := BeginsWith(cfg, beyond, 1);
    s := ThenNew(cfg, beyond, t1, s, [HopTo(1, 1)], 1, 0);
    s := ThenByte(cfg, beyond, t2, s, [HopTo(0, 2)], 1);
    assert t2 + [[Instruction(0), BYTE]] == WRITES_LATE[..3];
  }

  lemma {:induction false} HinderedEnd(cfg: Config, beyond: Beyond) returns (s: State)
    requires cfg.useWatchpoints && CountsHops(cfg)
    ensures After(cfg, beyond, WRITES_LATE, s, [Hop(BYTE, 3), HopTo(1, 4), HopTo(0, 5)], 3)
  {
    var t3 := WRITES_LATE[..3];
    var t4, c := t3 + [[Instruction(1)]], [Hop(BYTE, 3)] + [HopTo(1, 4)];
    s := HinderedSteps(cfg, beyond);
    s := ThenAgain(cfg, beyond, t3, s, [Hop(BYTE, 3)], 1, 1, 1);
    s := ThenAgain(cfg, beyond, t4, s, c, 2, 0, 3);
    assert t4 + [[Instruction(0)]] == WRITES_LATE;
    assert c + [HopTo(0, 5)] == [Hop(BYTE, 3), HopTo(1, 4), HopTo(0, 5)];
  }

  /** The last result has three hops, but two are enough: the byte, then instruction 0. */
  lemma {:induction false} HinderedRun(cfg: Config, beyond: Beyond)
    requires cfg.useWatchpoints && CountsHops(cfg)
    ensures ValidTrace(WRITES_LATE)
    ensures var rs := Run(cfg, beyond, WRITES_LATE).results;
            && |rs| == 5 && rs[4].chain == [Hop(BYTE, 3), HopTo(1, 4), HopTo(0, 5)]
            && Hindered(WRITES_LATE, rs[4].chain) && !Cheapest(WRITES_LATE, ModeOf(cfg), rs[4].chain)
  {
    var t := WRITES_LATE;
    assert ValidPosition([Instruction(0)]) && ValidPosition([Instruction(1)]) && ValidPosition([Instruction(0), BYTE]);
    var s := HinderedEnd(cfg, beyond);
    PathRuns(cfg, beyond, t, s);
    HinderedHere(s.results[4].chain);
    LeadsToRun(t, cfg, beyond);
    FewestHops(t, cfg, beyond, s, PastOf(cfg, beyond, t), 4);
  }

  lemma {:induction false} HinderedHere(c: Chain)
    requires c == [Hop(BYTE, 3), HopTo(1, 4), HopTo(0, 5)]
    ensures Hindered(WRITES_LATE, c)
  {
    assert Occurs(WRITES_LATE, Instruction(0), 3) && !Occurs(WRITES_LATE, Instruction(0), 4);
  }

  // ---------------------------------------------------------------------
  // The algorithm itself
  // ---------------------------------------------------------------------

  /** The algorithm object emits an ambiguous hop. */
  method EmitsAmbiguousHop(cfg: Config, beyond: Beyond) returns (rs: seq<Emission>)
    requires cfg.useWatchpoints && !cfg.useCheckpoints
    ensures |rs| == 3 && rs[2] == Emission([Hop(BYTE, 2), HopTo(0, 3)], 2) && Ambiguous(WRITES_ONCE, rs[2].chain, 1)
  {
    AmbiguousRun(cfg, beyond);
    var collector := new ResultCollector();
    var algorithm := new SmartAlgorithm(cfg, beyond, collector);
    algorithm.CalculateAllHops(WRITES_ONCE);
    rs := collector.results;
  }

  /** The algorithm object exceeds its threshold. */
  method ExceedsThreshold(beyond: Beyond) returns (rs: seq<Emission>)
    ensures |rs| == 7 && rs[6] == Emission([Restore(0, 4), HopTo(0, 7)], 3) && rs[6].costs > OVER.cpThresh
  {
    OverRun(beyond);
    var collector := new ResultCollector();
    var algorithm := new SmartAlgorithm(OVER, beyond, collector);
    algorithm.CalculateAllHops(Code(OVER_CODE));
    rs := collector.results;
  }
}
