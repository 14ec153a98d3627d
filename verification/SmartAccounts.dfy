/** How the costs reported by Smart-Hopping come about: a surplus is reported for hops
    that were paid for and then replaced by a checkpoint which was undone later. */
module SmartAccounts {
  import opened Options
  import opened HopModel
  import opened SmartRun
  import opened SmartChains

  /** How a checkpoint was taken instead of a hop: the selected event, the cost of the
      hop that was not made, and the last checkpoint undone by then, if any, since the
      cost was last set anew. */
  datatype Taken = Taken(event: Event, added: nat, undone: Option<nat>)

  /** How a result came about: the last checkpoint undone since the cost was last set
      anew, and whether undoing one more was forbidden. */
  datatype Account = Account(undone: Option<nat>, forbidden: bool)

  predicate Known(taken: seq<Taken>, undone: Option<nat>) {
    undone.Some? ==> undone.value < |taken|
  }

  predicate Ordered(taken: seq<Taken>) {
    forall k | 0 <= k < |taken| :: taken[k].undone.Some? ==> taken[k].undone.value < k
  }

  /** The surplus: the hops that were paid for but replaced by checkpoints which have
      been undone. */
  function Surplus(taken: seq<Taken>, undone: Option<nat>): (n: nat)
    requires Ordered(taken) && Known(taken, undone)
    ensures undone.None? ==> n == 0
    decreases if undone.None? then 0 else undone.value + 1
  {
    if undone.None? then 0
    else taken[undone.value].added + Surplus(taken, taken[undone.value].undone)
  }

  lemma {:induction false} SurplusPrefix(taken: seq<Taken>, more: seq<Taken>, undone: Option<nat>)
    requires taken <= more && Ordered(more) && Known(taken, undone)
    ensures Ordered(taken) && Surplus(more, undone) == Surplus(taken, undone)
    decreases if undone.None? then 0 else undone.value + 1
  {
    if undone.Some? { SurplusPrefix(taken, more, taken[undone.value].undone); }
  }

  /** The chain kept with checkpoint `k`: its cost also counts the hop that was not made
      and the surplus at that time, and exceeds the threshold.  Without a surplus it is
      longer than the look-ahead into it. */
  ghost predicate SavedCost(t: Trace, cfg: Config, s: Saved, taken: seq<Taken>, cps: seq<nat>, k: nat) {
    && Ordered(taken) && k < |taken| && k < |cps| && s.chain != []
    && Occurs(t, taken[k].event, cps[k])
    && taken[k].added == HopCost(Last(s.chain).event, taken[k].event)
    && s.costs == ChainCost(cfg, s.chain) + taken[k].added + Surplus(taken, taken[k].undone)
    && cfg.useCheckpoints && s.costs > cfg.cpThresh
    && (ValidConfig(cfg) && taken[k].undone.None? ==> cfg.rollbackThresh < |s.chain|)
  }

  lemma {:induction false} SavedCostMonotone(
    t: Trace, cfg: Config, s: Saved, taken: seq<Taken>, taken': seq<Taken>, cps: seq<nat>, cps': seq<nat>, k: nat)
    requires SavedCost(t, cfg, s, taken, cps, k) && taken <= taken' && Ordered(taken') && cps <= cps'
    ensures SavedCost(t, cfg, s, taken', cps', k)
  {
    SurplusPrefix(taken, taken', taken[k].undone);
  }

  /** The latest result that set the cost anew: those are the chains of one element. */
  function Reset(rs: seq<Emission>, i: nat): (r: nat)
    requires i < |rs|
    ensures r <= i
  {
    if i == 0 || |rs[i].chain| == 1 then i else Reset(rs, i - 1)
  }

  lemma {:induction false} ResetPrefix(rs: seq<Emission>, more: seq<Emission>, i: nat)
    requires i < |rs| && rs <= more
    ensures Reset(more, i) == Reset(rs, i)
  {
    if i > 0 { ResetPrefix(rs, more, i - 1); }
  }

  /** How a chain relates to the first hop of the latest reset: it still starts there
      unless a checkpoint was undone. */
  predicate Rooted(root: Hop, c: Chain, undone: Option<nat>) {
    && c != []
    && (if undone.None? then c[0] == root else LeadingCheckpoint(c) < LeadingCheckpoint([root]))
  }

  /** A checkpoint was undone since the latest reset exactly if the chain starts
      elsewhere. */
  ghost predicate UndoneOk(rs: seq<Emission>, i: nat, undone: Option<nat>) {
    && i < |rs| && rs[i].chain != [] && rs[Reset(rs, i)].chain != []
    && Rooted(rs[Reset(rs, i)].chain[0], rs[i].chain, undone)
  }

  /** The reported cost, and when it exceeds the threshold. */
  ghost predicate CostOk(cfg: Config, r: Emission, taken: seq<Taken>, a: Account) {
    && r.chain != [] && Ordered(taken) && Known(taken, a.undone)
    && r == Reported(r.chain, ChainCost(cfg, r.chain) + Surplus(taken, a.undone))
    && (cfg.useCheckpoints && ValidConfig(cfg) ==>
          (r.costs > cfg.cpThresh <==>
             a.forbidden && cfg.costCp + Surplus(taken, a.undone) + COST_CHANGE > cfg.cpThresh))
  }

  ghost predicate OccursWithin(t: Trace, e: Event, lo: int, hi: int) {
    exists r :: lo < r <= hi && Occurs(t, e, r)
  }

  /** Undoing a checkpoint is forbidden exactly if there is nothing else in front of the
      new hop, and the event occurs after the hop that the look-ahead finds in the chain
      kept with the checkpoint. */
  ghost predicate ForbiddenOk(
    t: Trace, cfg: Config, beyond: Beyond, saved: seq<Saved>, c: Chain, i: nat, forbidden: bool)
  {
    forbidden <==>
      && |c| == 2 && StartsAtCheckpoint(c) && c[0].event.address < |saved|
      && var kept := saved[c[0].event.address].chain;
         if cfg.rollbackThresh < |kept|
         then OccursWithin(t, c[1].event, kept[|kept| - 1 - cfg.rollbackThresh].pos, i)
         else beyond(i + 1, c[0].event.address)
  }

  /** The last hop is ambiguous exactly if its event also occurs at the previous
      position and the previous result does not end with it. */
  ghost predicate LastHopOk(t: Trace, before: Chain, c: Chain, i: nat) {
    && before != []
    && (|c| >= 2 ==>
          (Ambiguous(t, c, |c| - 1) <==> Occurs(t, Last(c).event, i) && Last(before).event != Last(c).event))
  }

  /** How result `i` came about. */
  ghost predicate Accounted(
    t: Trace, cfg: Config, beyond: Beyond, rs: seq<Emission>, saved: seq<Saved>, taken: seq<Taken>,
    a: Account, i: nat)
  {
    && UndoneOk(rs, i, a.undone)
    && LeadingCheckpoint(rs[i].chain) <= |saved|
    && CostOk(cfg, rs[i], taken, a)
    && ForbiddenOk(t, cfg, beyond, saved, rs[i].chain, i, a.forbidden)
    && (i > 0 ==> LastHopOk(t, rs[i - 1].chain, rs[i].chain, i))
  }

  lemma {:induction false} AccountedMonotone(
    t: Trace, cfg: Config, beyond: Beyond, rs: seq<Emission>, rs': seq<Emission>,
    saved: seq<Saved>, saved': seq<Saved>, taken: seq<Taken>, taken': seq<Taken>, a: Account, i: nat)
    requires Accounted(t, cfg, beyond, rs, saved, taken, a, i)
    requires rs <= rs' && saved <= saved' && taken <= taken' && Ordered(taken')
    ensures Accounted(t, cfg, beyond, rs', saved', taken', a, i)
  {
    SurplusPrefix(taken, taken', a.undone);
    ResetPrefix(rs, rs', i);
  }

  /** The chain kept with checkpoint `k` comes from the result before the checkpoint. */
  ghost predicate TakenOk(rs: seq<Emission>, saved: Saved, taken: Taken, cp: nat) {
    && 2 <= cp <= |rs| + 1
    && rs[Reset(rs, cp - 2)].chain != []
    && Rooted(rs[Reset(rs, cp - 2)].chain[0], saved.chain, taken.undone)
  }

  ghost predicate AllAccounted(
    t: Trace, cfg: Config, beyond: Beyond, rs: seq<Emission>, saved: seq<Saved>, taken: seq<Taken>,
    accounts: seq<Account>)
  {
    && |rs| == |accounts|
    && forall i {:trigger Accounted(t, cfg, beyond, rs, saved, taken, accounts[i], i)} | 0 <= i < |rs| ::
         Accounted(t, cfg, beyond, rs, saved, taken, accounts[i], i)
  }

  ghost predicate AllTaken(rs: seq<Emission>, saved: seq<Saved>, taken: seq<Taken>, cps: seq<nat>) {
    && |saved| == |taken| == |cps|
    && forall k {:trigger TakenOk(rs, saved[k], taken[k], cps[k])} | 0 <= k < |saved| ::
         TakenOk(rs, saved[k], taken[k], cps[k])
  }

  ghost predicate AllSaved(t: Trace, cfg: Config, saved: seq<Saved>, taken: seq<Taken>, cps: seq<nat>) {
    && |saved| == |taken| == |cps| && Ordered(taken)
    && (forall k {:trigger SavedOk(t, saved[k], cps, k)} | 0 <= k < |saved| :: SavedOk(t, saved[k], cps, k))
    && (forall k {:trigger SavedCost(t, cfg, saved[k], taken, cps, k)} | 0 <= k < |saved| ::
          SavedCost(t, cfg, saved[k], taken, cps, k))
  }

  /** How the chain for the position after the results relates to them. */
  ghost predicate ComesAbout(
    t: Trace, cfg: Config, beyond: Beyond, rs: seq<Emission>, saved: seq<Saved>, taken: seq<Taken>,
    chain: Chain, costs: int, a: Account)
  {
    var p := |rs|;
    && chain != [] && LeadingCheckpoint(chain) <= |saved|
    && CostOk(cfg, Reported(chain, costs), taken, a)
    && ForbiddenOk(t, cfg, beyond, saved, chain, p, a.forbidden)
    && (p > 0 ==> LastHopOk(t, rs[p - 1].chain, chain, p))
    && (if |chain| == 1 then a.undone.None?
        else p > 0 && rs[Reset(rs, p - 1)].chain != [] && Rooted(rs[Reset(rs, p - 1)].chain[0], chain, a.undone))
  }

  lemma {:induction false} AppendAccounted(
    t: Trace, cfg: Config, beyond: Beyond, rs: seq<Emission>, saved: seq<Saved>, taken: seq<Taken>,
    accounts: seq<Account>,
    chain: Chain, costs: int, a: Account)
    requires AllAccounted(t, cfg, beyond, rs, saved, taken, accounts)
    requires ComesAbout(t, cfg, beyond, rs, saved, taken, chain, costs, a)
    ensures AllAccounted(t, cfg, beyond, rs + [Reported(chain, costs)], saved, taken, accounts + [a])
    ensures UndoneOk(rs + [Reported(chain, costs)], |rs|, a.undone)
  {
    var rs', as' := rs + [Reported(chain, costs)], accounts + [a];
    if |rs| > 0 { ResetPrefix(rs, rs', |rs| - 1); }
    assert Accounted(t, cfg, beyond, rs', saved, taken, a, |rs|);
    forall i | 0 <= i < |rs'| ensures Accounted(t, cfg, beyond, rs', saved, taken, as'[i], i) {
      if i < |rs| { AccountedMonotone(t, cfg, beyond, rs, rs', saved, saved, taken, taken, accounts[i], i); }
    }
  }

  lemma {:induction false} AppendTaken(
    rs: seq<Emission>, r: Emission, saved: seq<Saved>, taken: seq<Taken>, cps: seq<nat>)
    requires AllTaken(rs, saved, taken, cps)
    ensures AllTaken(rs + [r], saved, taken, cps)
  {
    forall k | 0 <= k < |saved| ensures TakenOk(rs + [r], saved[k], taken[k], cps[k]) {
      assert TakenOk(rs, saved[k], taken[k], cps[k]);
      ResetPrefix(rs, rs + [r], cps[k] - 2);
    }
  }

  lemma {:induction false} CheckpointAccounted(
    t: Trace, cfg: Config, beyond: Beyond, rs: seq<Emission>, saved: seq<Saved>, s: Saved, taken: seq<Taken>, k: Taken,
    accounts: seq<Account>)
    requires AllAccounted(t, cfg, beyond, rs, saved, taken, accounts) && Ordered(taken + [k])
    ensures AllAccounted(t, cfg, beyond, rs, saved + [s], taken + [k], accounts)
  {
    forall i | 0 <= i < |rs| ensures Accounted(t, cfg, beyond, rs, saved + [s], taken + [k], accounts[i], i) {
      AccountedMonotone(t, cfg, beyond, rs, rs, saved, saved + [s], taken, taken + [k], accounts[i], i);
    }
  }

  /** A checkpoint of its own is a way the next result can come about. */
  lemma {:induction false} BareCheckpoint(
    t: Trace, cfg: Config, beyond: Beyond, rs: seq<Emission>, saved: seq<Saved>, taken: seq<Taken>, c: Chain)
    requires |c| == 1 && StartsAtCheckpoint(c) && cfg.useCheckpoints && Ordered(taken)
    requires |rs| > 0 && rs[|rs| - 1].chain != [] && LeadingCheckpoint(c) <= |saved|
    ensures ComesAbout(t, cfg, beyond, rs, saved, taken, c, cfg.costCp, Account(None, false))
  {
  }

  lemma {:induction false} CheckpointTaken(
    rs: seq<Emission>, saved: seq<Saved>, s: Saved, taken: seq<Taken>, k: Taken, cps: seq<nat>, cp: nat)
    requires AllTaken(rs, saved, taken, cps) && TakenOk(rs, s, k, cp)
    ensures AllTaken(rs, saved + [s], taken + [k], cps + [cp])
  {
  }

  lemma {:induction false} CheckpointSaved(
    t: Trace, cfg: Config, saved: seq<Saved>, s: Saved, taken: seq<Taken>, k: Taken, cps: seq<nat>, cp: nat)
    requires AllSaved(t, cfg, saved, taken, cps) && Ordered(taken + [k])
    requires SavedOk(t, s, cps + [cp], |saved|) && SavedCost(t, cfg, s, taken + [k], cps + [cp], |saved|)
    ensures AllSaved(t, cfg, saved + [s], taken + [k], cps + [cp])
  {
    var saved', taken', cps' := saved + [s], taken + [k], cps + [cp];
    forall i | 0 <= i < |saved'|
      ensures SavedOk(t, saved'[i], cps', i) && SavedCost(t, cfg, saved'[i], taken', cps', i)
    {
      if i < |saved| {
        assert SavedOk(t, saved[i], cps, i);
        SavedCostMonotone(t, cfg, saved[i], taken, taken', cps, cps', i);
        ChainOkMonotone(t, saved[i].chain, cps, cps', i, i);
      }
    }
  }
}
