/** Every position of every run obeys the laws, in every mode; and what follows. */
module SmartSteps {
  import opened Options
  import opened HopModel
  import opened HopOptimality
  import opened SmartRun
  import opened SmartChains
  import opened SmartAccounts
  import opened SmartInvariants
  import opened SmartProof
  import opened SmartOptimality
  import opened SmartLaws

  /** The truncation loop cuts back as the occurrences demand, and no further. */
  lemma {:induction false} CutsBack(
    t: Trace, cfg: Config, beyond: Beyond, saved: seq<Saved>, c: Chain, costs: int, undone: Option<nat>,
    e: Event, last: nat, i: nat)
    requires Restorable(saved, c) && LatestUpTo(t, e, last, i)
    ensures CutAsDue(t, cfg, beyond, saved, c, undone, CutBack(cfg, beyond, saved, c, costs, e, last, i + 1),
                     LastUndone(cfg, beyond, saved, c, e, last, i + 1, undone), e, i)
    decreases LeadingCheckpoint(c), |c|
  {
    var cut := CutBack(cfg, beyond, saved, c, costs, e, last, i + 1);
    var u := LastUndone(cfg, beyond, saved, c, e, last, i + 1, undone);
    match MoveAt(cfg, beyond, saved, c, e, last, i + 1)
    case Stop(_) =>
      StopFirst(t, cfg, beyond, saved, c, undone, cut, e, last, i);
    case Drop =>
      CutsBack(t, cfg, beyond, saved, c[..|c| - 1], costs - HopCost(c[|c| - 2].event, Last(c).event), undone,
               e, last, i);
      DropFirst(t, cfg, beyond, saved, c, undone, cut, u, e, last, i);
    case Undo(id) =>
      CutsBack(t, cfg, beyond, saved, saved[id].chain, saved[id].costs, Some(id), e, last, i);
      UndoFirst(t, cfg, beyond, saved, c, id, undone, cut, u, e, last, i);
  }

  // ---------------------------------------------------------------------
  // The run obeys the laws
  // ---------------------------------------------------------------------

  /** The working account is that of the last result. */
  predicate Linked(h: Past) {
    h.accounts != [] ==> h.accounts[|h.accounts| - 1].undone == h.undone
  }

  /** A continued position. */
  lemma {:induction false} ContinueLaw(
    t: Trace, cfg: Config, beyond: Beyond, n: nat, s: State, h: Past, e: Event, last: nat)
    requires ValidTrace(t) && Good(t, cfg, beyond, n, s, h) && Linked(h) && Restorable(s.saved, s.chain)
    requires Selected(t, cfg, n, e, last) && SeenSince(t, cfg.useWatchpoints, last, n)
    ensures var cut := CutBack(cfg, beyond, s.saved, s.chain, s.costs, e, last, n + 1);
            var u := LastUndone(cfg, beyond, s.saved, s.chain, e, last, n + 1, h.undone);
            var o := RecordOf(Continued(cfg, s, e, n + 1, cut), ContinuedPast(cfg, h, e, cut, u));
            MadeFrom(t, cfg, beyond, o, n, e, cut.chain, u, cut.forbidden) && Extends(RecordOf(s, h), o)
  {
    var cut := CutBack(cfg, beyond, s.saved, s.chain, s.costs, e, last, n + 1);
    var u := LastUndone(cfg, beyond, s.saved, s.chain, e, last, n + 1, h.undone);
    CutKeeps(t, cfg, beyond, s, h, Root(s.results), s.chain, s.costs, h.undone, e, last, n + 1);
    CutsBack(t, cfg, beyond, s.saved, s.chain, s.costs, h.undone, e, last, n);
    assert LongestAgo(t, cfg, e, n);
    if TakesCheckpoint(cfg, cut, e) {
      CheckpointLaw(t, cfg, beyond, n, s, h, e, cut, u);
    } else {
      AppendLaw(t, cfg, beyond, n, s, h, e, cut, u);
    }
  }

  lemma {:induction false} AppendLaw(
    t: Trace, cfg: Config, beyond: Beyond, n: nat, s: State, h: Past, e: Event, cut: Cut, u: Option<nat>)
    requires 0 < n == |s.results| == |h.accounts| && s.chain == s.results[n - 1].chain && Linked(h)
    requires CostRight(cfg, h.taken, u, cut.chain, cut.costs)
    requires CutAsDue(t, cfg, beyond, s.saved, s.chain, h.undone, cut, u, e, n)
    requires LongestAgo(t, cfg, e, n) && !TakesCheckpoint(cfg, cut, e)
    ensures var o := RecordOf(Continued(cfg, s, e, n + 1, cut), ContinuedPast(cfg, h, e, cut, u));
            MadeFrom(t, cfg, beyond, o, n, e, cut.chain, u, cut.forbidden) && Extends(RecordOf(s, h), o)
  {
  }

  lemma {:induction false} CheckpointLaw(
    t: Trace, cfg: Config, beyond: Beyond, n: nat, s: State, h: Past, e: Event, cut: Cut, u: Option<nat>)
    requires 0 < n == |s.results| == |h.accounts| && s.chain == s.results[n - 1].chain && Linked(h)
    requires |s.saved| == |s.cps| == |h.taken| && CostRight(cfg, h.taken, u, cut.chain, cut.costs)
    requires CutAsDue(t, cfg, beyond, s.saved, s.chain, h.undone, cut, u, e, n)
    requires LongestAgo(t, cfg, e, n) && TakesCheckpoint(cfg, cut, e)
    ensures var o := RecordOf(Continued(cfg, s, e, n + 1, cut), ContinuedPast(cfg, h, e, cut, u));
            MadeFrom(t, cfg, beyond, o, n, e, cut.chain, u, cut.forbidden) && Extends(RecordOf(s, h), o)
  {
    var o := RecordOf(Continued(cfg, s, e, n + 1, cut), ContinuedPast(cfg, h, e, cut, u));
    CutToMonotone(t, cfg, beyond, s.saved, o.saved, s.chain, h.undone, cut.chain, u, e, n);
    assert Ordered(o.taken);
    SurplusPrefix(h.taken, o.taken, u);
    assert CheckpointIs(cfg, o, n, e, Saved(Total(cut, e), cut.chain), u, |s.saved|);
  }

  lemma {:induction false} NoFirstSeen(t: Trace, cfg: Config, latest: map<Event, nat>, n: nat)
    requires n < |t| && KnowsLatest(t, cfg, latest, n) && NewEvent(cfg, latest, t[n]).None?
    ensures !exists e :: FirstSeen(t, cfg, e, n)
  {
    forall e | e in t[n] && Enabled(cfg, e) ensures !Lands(t, e, 0, n + 1) {
      assert Occurs(t, e, latest[e]);
    }
  }

  lemma {:induction false} StartLaw(t: Trace, cfg: Config, beyond: Beyond, s: State, h: Past, e: Event)
    requires |s.results| == |h.accounts| && Ordered(h.taken) && FirstSeen(t, cfg, e, |s.results|)
    ensures var o := RecordOf(Started(s, e, |s.results| + 1), Past(h.taken, h.accounts + [Account(None, false)], None));
            StepLaw(t, cfg, beyond, o, |s.results|) && Extends(RecordOf(s, h), o)
  {
    var o := RecordOf(Started(s, e, |s.results| + 1), Past(h.taken, h.accounts + [Account(None, false)], None));
    assert StartedWith(o, |s.results|, e);
  }

  lemma {:induction false} NextLaw(t: Trace, cfg: Config, beyond: Beyond, n: nat, s: State, h: Past)
    requires ValidTrace(t) && n < |t| && Inv(t, cfg, beyond, n, s, h) && ValidState(s)
    requires Linked(h) && Laws(t, cfg, beyond, RecordOf(s, h))
    ensures var s', h' := Next(cfg, beyond, s, t[n], n + 1), NextPast(cfg, beyond, s, h, t[n], n + 1);
            Linked(h') && Laws(t, cfg, beyond, RecordOf(s', h'))
  {
    var first, oldest := NewEvent(cfg, s.latest, t[n]), Oldest(cfg, s.latest, t[n]);
    var s0 := s.(latest := Recorded(cfg, s.latest, t[n], n + 1));
    var o := RecordOf(Next(cfg, beyond, s, t[n], n + 1), NextPast(cfg, beyond, s, h, t[n], n + 1));
    LatestIrrelevant(t, cfg, beyond, n, s, h, s0.latest);
    EventSelected(t, cfg, s.latest, n);
    if first.Some? {
      StartLaw(t, cfg, beyond, s0, h, first.value);
    } else {
      NoFirstSeen(t, cfg, s.latest, n);
      OldestSeenSince(t, cfg, s.latest, n);
      ContinueLaw(t, cfg, beyond, n, s0, h, oldest.value, s.latest[oldest.value]);
    }
    LawsStep(t, cfg, beyond, RecordOf(s, h), o);
  }

  lemma {:induction false} PrefixLaws(t: Trace, cfg: Config, beyond: Beyond, n: nat, s: State, h: Past)
    requires ValidTrace(t) && n <= |t| && LeadsTo(cfg, beyond, t[..n], s, h)
    ensures Linked(h) && Laws(t, cfg, beyond, RecordOf(s, h))
    decreases n
  {
    if n == 0 {
      assert IsTrace(t[..n], t[..n]);
    } else {
      var s0, h0 := LedFrom(t, cfg, beyond, n, s, h);
      PrefixLaws(t, cfg, beyond, n - 1, s0, h0);
      PrefixKeeps(t, cfg, beyond, n - 1, s0, h0);
      NextLaw(t, cfg, beyond, n - 1, s0, h0);
    }
  }

  /** In every run every position obeys the law. */
  lemma {:induction false} EveryStep(t: Trace, cfg: Config, beyond: Beyond, s: State, h: Past, i: nat)
    requires ValidTrace(t) && LeadsTo(cfg, beyond, t, s, h) && i < |t|
    ensures |s.results| == |t| && StepLaw(t, cfg, beyond, RecordOf(s, h), i)
  {
    assert t[..|t|] == t;
    PrefixLaws(t, cfg, beyond, |t|, s, h);
    RunKeeps(t, cfg, beyond, s, h);
  }

  // ---------------------------------------------------------------------
  // Consequences
  // ---------------------------------------------------------------------

  lemma {:induction false} HowContinued(t: Trace, cfg: Config, beyond: Beyond, s: State, h: Past, i: nat)
    returns (e: Event, kept: Chain, undone: Option<nat>, forbidden: bool)
    requires ValidTrace(t) && LeadsTo(cfg, beyond, t, s, h) && i < |t|
    requires !exists e :: FirstSeen(t, cfg, e, i)
    ensures MadeFrom(t, cfg, beyond, RecordOf(s, h), i, e, kept, undone, forbidden)
  {
    EveryStep(t, cfg, beyond, s, h, i);
    e, kept, undone, forbidden :| MadeFrom(t, cfg, beyond, RecordOf(s, h), i, e, kept, undone, forbidden);
  }

  /** In every run and every mode an emitted chain cannot be shortened: from the hop before
      the last but one, waiting for the last event would stop too early, or repeat the event
      although weights are used, or be ambiguous.  After a leading checkpoint the same holds
      of the end of the chain kept with it, unless undoing was forbidden. */
  lemma {:induction false} CannotShorten(t: Trace, cfg: Config, beyond: Beyond, s: State, h: Past, i: nat)
    requires ValidTrace(t) && LeadsTo(cfg, beyond, t, s, h) && i < |t|
    ensures |s.results| == |t| == |h.accounts| && s.results[i].chain != []
    ensures var c := s.results[i].chain;
            && (|c| >= 3 ==> Stuck(t, cfg, c[|c| - 3], Last(c).event, i))
            && (|c| == 2 && StartsAtCheckpoint(c) ==>
                  && c[0].event.address < |s.saved| && s.saved[c[0].event.address].chain != []
                  && (h.accounts[i].forbidden || Stuck(t, cfg, Last(s.saved[c[0].event.address].chain), c[1].event, i)))
  {
    EveryStep(t, cfg, beyond, s, h, i);
    if !exists e :: FirstSeen(t, cfg, e, i) {
      var e, kept, undone, forbidden := HowContinued(t, cfg, beyond, s, h, i);
    }
  }

  /** In every run, at a position without an event seen for the first time, the result is a
      new checkpoint if and only if checkpoints are used, the hop to the event would exceed
      the threshold together with the chain it is appended to and the surplus, and no
      undoing was forbidden.  At other positions it never is. */
  lemma {:induction false} CheckpointIff(t: Trace, cfg: Config, beyond: Beyond, s: State, h: Past, i: nat)
    returns (e: Event, kept: Chain, undone: Option<nat>, forbidden: bool)
    requires ValidTrace(t) && LeadsTo(cfg, beyond, t, s, h) && i < |t|
    ensures |s.results| == |t| && s.results[i].chain != []
    ensures (exists f :: FirstSeen(t, cfg, f, i)) ==>
              |s.results[i].chain| == 1 && !StartsAtCheckpoint(s.results[i].chain)
    ensures (!exists f :: FirstSeen(t, cfg, f, i)) ==>
              && MadeFrom(t, cfg, beyond, RecordOf(s, h), i, e, kept, undone, forbidden)
              && (|s.results[i].chain| == 1 <==>
                    && cfg.useCheckpoints && !forbidden
                    && HopTotal(cfg, h.taken, kept, undone, e) > cfg.cpThresh)
  {
    EveryStep(t, cfg, beyond, s, h, i);
    if exists f :: FirstSeen(t, cfg, f, i) {
      var f :| FirstSeen(t, cfg, f, i) && StartedWith(RecordOf(s, h), i, f);
      assert ValidPosition(t[i]);
      e, kept, undone, forbidden := f, [], None, false;
    } else {
      e, kept, undone, forbidden := HowContinued(t, cfg, beyond, s, h, i);
    }
  }
}
