/** The streaming importer with branch history: memory events wait in a queue until
    enough later branch decisions are known, then they are passed on together with
    a 32-bit mask of the decisions around them.  The result is that of a second
    pass over the complete branch history. */
module AdvancedImporter {
  import opened Options
  import opened Words
  import opened FaultSpace
  import opened MemoryImport

  const WINDOW: nat := 16
  const UINT_MAX: nat := 0xffff_ffff

  datatype Instr = Instr(length: nat, conditional: bool)

  /** The disassembled program. */
  type Disassembly = nat -> Instr

  // ---------------------------------------------------------------------
  // What the trace says
  // ---------------------------------------------------------------------

  /** After `t`: where the latest instruction leads if it is a conditional branch
      that is not taken. */
  function PendingBranch(d: Disassembly, t: Trace): Option<nat> {
    if t == [] then None
    else
      var e := t[|t| - 1];
      if e.Mem? then PendingBranch(d, t[..|t| - 1])
      else if d(e.ip).conditional then Some(e.ip + d(e.ip).length)
      else None
  }

  /** The branch decisions known after `t`: taken or not, in order. */
  function Branches(d: Disassembly, t: Trace): seq<bool> {
    if t == [] then []
    else
      var p, e := t[..|t| - 1], t[|t| - 1];
      Branches(d, p) +
      if e.Ip? && PendingBranch(d, p).Some? then [e.ip != PendingBranch(d, p).value] else []
  }

  /** The addresses of the executed instructions. */
  function Executed(t: Trace): seq<nat> {
    if t == [] then []
    else Executed(t[..|t| - 1]) + if t[|t| - 1].Ip? then [t[|t| - 1].ip] else []
  }

  /** What an instruction at `ip` followed by one at `next` decides: a conditional branch is
      taken unless it falls through. */
  function Decision(d: Disassembly, ip: nat, next: nat): seq<bool> {
    if d(ip).conditional then [next != ip + d(ip).length] else []
  }

  /** The decisions of an instruction stream, read from its beginning. */
  function Decisions(d: Disassembly, ips: seq<nat>): seq<bool> {
    if |ips| < 2 then [] else Decision(d, ips[0], ips[1]) + Decisions(d, ips[1..])
  }

  lemma {:induction false} DecisionsAppend(d: Disassembly, ips: seq<nat>, ip: nat)
    ensures Decisions(d, ips + [ip]) ==
            Decisions(d, ips) + if ips == [] then [] else Decision(d, ips[|ips| - 1], ip)
  {
    if |ips| >= 2 {
      DecisionsAppend(d, ips[1..], ip);
      assert (ips + [ip])[1..] == ips[1..] + [ip];
    } else if |ips| == 1 {
      assert (ips + [ip])[1..] == [ip];
    }
  }

  lemma {:induction false} PendingIsLast(d: Disassembly, t: Trace)
    ensures var ips := Executed(t);
            PendingBranch(d, t) ==
            if ips != [] && d(ips[|ips| - 1]).conditional
            then Some(ips[|ips| - 1] + d(ips[|ips| - 1]).length)
            else None
  {
    if t != [] { PendingIsLast(d, t[..|t| - 1]); }
  }

  /** The known decisions are those of the executed conditional branches, in order, each
      decided by the instruction executed next, whatever memory events lie between. */
  lemma {:induction false} BranchesAreDecisions(d: Disassembly, t: Trace)
    ensures Branches(d, t) == Decisions(d, Executed(t))
  {
    if t != [] {
      var p, e := t[..|t| - 1], t[|t| - 1];
      BranchesAreDecisions(d, p);
      PendingIsLast(d, p);
      if e.Ip? {
        DecisionsAppend(d, Executed(p), e.ip);
      } else {
        assert Executed(t) == Executed(p) && Branches(d, t) == Branches(d, p);
      }
    }
  }

  function Time(t: Trace): nat {
    if t == [] then 0 else Time(t[..|t| - 1]) + t[|t| - 1].delta
  }

  /** A memory event with its time, its instruction, and the number of branch
      decisions before it. */
  datatype Entry = Entry(time: nat, instr: nat, event: Event, before: nat)

  function MemEvents(d: Disassembly, t: Trace): seq<Entry> {
    if t == [] then []
    else
      var p, e := t[..|t| - 1], t[|t| - 1];
      MemEvents(d, p) + if e.Ip? then [] else [Entry(Time(t), MemInstr(p), e, |Branches(d, p)|)]
  }

  /** Bit 15 is the first decision after the event, bit 0 the 16th; bit 16 is the
      last decision before it, bit 31 the 16th last.  Unknown decisions are 0. */
  function Mask(history: seq<bool>, before: nat): (w: Word)
    ensures forall k | 0 <= k < 32 ::
              w[k] == (0 <= before + 15 - k < |history| && history[before + 15 - k])
  {
    seq(32, k requires 0 <= k < 32 => 0 <= before + 15 - k < |history| && history[before + 15 - k])
  }

  datatype Forwarded = Forwarded(entry: Entry, mask: Word)

  /** The two-pass result: every memory event with the mask computed from the
      complete history. */
  function WithMasks(history: seq<bool>, es: seq<Entry>): (r: seq<Forwarded>)
    ensures |r| == |es| && forall i | 0 <= i < |es| :: r[i] == Forwarded(es[i], Mask(history, es[i].before))
  {
    seq(|es|, i requires 0 <= i < |es| => Forwarded(es[i], Mask(history, es[i].before)))
  }

  function TwoPass(d: Disassembly, t: Trace): seq<Forwarded> {
    WithMasks(Branches(d, t), MemEvents(d, t))
  }

  // ---------------------------------------------------------------------
  // Facts about history and entries
  // ---------------------------------------------------------------------

  /** Once 16 later decisions are known, further history does not change a mask. */
  lemma {:induction false} MaskStable(h: seq<bool>, h': seq<bool>, before: nat)
    requires h <= h' && before + WINDOW <= |h|
    ensures Mask(h, before) == Mask(h', before)
  {
  }

  /** Fewer decisions than instructions. */
  lemma {:induction false} BranchesBound(d: Disassembly, t: Trace)
    ensures |Branches(d, t)| + (if PendingBranch(d, t).Some? then 1 else 0) <= InstrCount(t)
    ensures |Branches(d, t)| <= MemInstr(t)
  {
    if t != [] { BranchesBound(d, t[..|t| - 1]); }
  }

  /** Entries come with non-decreasing decision counts, at most those known. */
  lemma {:induction false} EntriesOrdered(d: Disassembly, t: Trace)
    ensures forall i, j | 0 <= i <= j < |MemEvents(d, t)| ::
              MemEvents(d, t)[i].before <= MemEvents(d, t)[j].before <= |Branches(d, t)|
    ensures forall i | 0 <= i < |MemEvents(d, t)| :: MemEvents(d, t)[i].event.Mem?
  {
    if t != [] { EntriesOrdered(d, t[..|t| - 1]); }
  }

  // ---------------------------------------------------------------------
  // The stream invariant
  // ---------------------------------------------------------------------

  /** Forwarded and waiting entries together are the trace's memory events, in
      order; forwarded masks are already final. */
  ghost predicate Streamed(es: seq<Entry>, h: seq<bool>, fwd: seq<Forwarded>, queue: seq<Entry>) {
    && |fwd| + |queue| == |es|
    && queue == es[|fwd|..]
    && forall i | 0 <= i < |fwd| ::
         fwd[i] == Forwarded(es[i], Mask(h, es[i].before)) && es[i].before + WINDOW <= |h|
  }

  /** Every waiting entry still lacks some of its 16 later decisions. */
  ghost predicate StillWaiting(queue: seq<Entry>, h: seq<bool>) {
    forall i | 0 <= i < |queue| :: queue[i].before + WINDOW > |h|
  }

  lemma {:induction false} StreamedGrows(
    es: seq<Entry>, h: seq<bool>, h': seq<bool>, fwd: seq<Forwarded>, queue: seq<Entry>)
    requires Streamed(es, h, fwd, queue) && h <= h'
    ensures Streamed(es, h', fwd, queue)
  {
    forall i | 0 <= i < |fwd| ensures fwd[i] == Forwarded(es[i], Mask(h', es[i].before)) {
      MaskStable(h, h', es[i].before);
    }
  }

  /** Passing the memory events on one after the other gives the direct import. */
  function Fold(cfg: Config, es: seq<Entry>): State
    requires forall i | 0 <= i < |es| :: es[i].event.Mem?
  {
    if es == [] then State(map[], [])
    else HandleMem(cfg, Fold(cfg, es[..|es| - 1]), es[|es| - 1].instr, es[|es| - 1].event)
  }

  lemma {:induction false} FoldIsImport(cfg: Config, d: Disassembly, t: Trace)
    ensures forall i | 0 <= i < |MemEvents(d, t)| :: MemEvents(d, t)[i].event.Mem?
    ensures Fold(cfg, MemEvents(d, t)) == Import(cfg, t)
  {
    EntriesOrdered(d, t);
    if t != [] {
      var p := t[..|t| - 1];
      FoldIsImport(cfg, d, p);
      var es := MemEvents(d, t);
      if t[|t| - 1].Ip? {
        assert es == MemEvents(d, p);
      } else {
        assert es[..|es| - 1] == MemEvents(d, p);
      }
    }
  }

  /** The mask stored with a row: NULL for a synthetic one, otherwise that of a forwarded
      event which ends the row. */
  ghost predicate Carries(fwd: seq<Forwarded>, r: Row, mask: Option<Word>) {
    if r.fake then mask == None
    else exists k :: 0 <= k < |fwd| && EndsRow(fwd[k], r) && mask == Some(fwd[k].mask)
  }

  predicate EndsRow(f: Forwarded, r: Row) {
    EndedBy(r, f.entry.instr, f.entry.event)
  }

  ghost predicate ColumnOk(fwd: seq<Forwarded>, rows: seq<Row>, column: seq<Option<Word>>) {
    |rows| == |column| && forall i | 0 <= i < |rows| :: Carries(fwd, rows[i], column[i])
  }

  function Repeat(n: nat, mask: Option<Word>): (r: seq<Option<Word>>)
    ensures |r| == n && forall i | 0 <= i < n :: r[i] == mask
  {
    seq(n, _ => mask)
  }

  lemma {:induction false} ColumnGrows(
    fwd: seq<Forwarded>, f: Forwarded, rows: seq<Row>, rows': seq<Row>, column: seq<Option<Word>>)
    requires ColumnOk(fwd, rows, column) && rows <= rows'
    requires forall i | |rows| <= i < |rows'| :: EndsRow(f, rows'[i])
    ensures ColumnOk(fwd + [f], rows', column + Repeat(|rows'| - |rows|, Some(f.mask)))
  {
    var fwd', column' := fwd + [f], column + Repeat(|rows'| - |rows|, Some(f.mask));
    forall i | 0 <= i < |rows'| ensures Carries(fwd', rows'[i], column'[i]) {
      if i < |rows| {
        assert Carries(fwd, rows[i], column[i]);
        if !rows[i].fake {
          var k :| 0 <= k < |fwd| && EndsRow(fwd[k], rows[i]) && column[i] == Some(fwd[k].mask);
          assert EndsRow(fwd'[k], rows'[i]);
        }
      } else {
        assert EndsRow(fwd'[|fwd|], rows'[i]);
      }
    }
  }

  lemma {:induction false} ColumnClosed(
    fwd: seq<Forwarded>, rows: seq<Row>, rows': seq<Row>, column: seq<Option<Word>>)
    requires ColumnOk(fwd, rows, column) && rows <= rows'
    requires forall i | |rows| <= i < |rows'| :: rows'[i].fake
    ensures ColumnOk(fwd, rows', column + Repeat(|rows'| - |rows|, None))
  {
    var column' := column + Repeat(|rows'| - |rows|, None);
    forall i | 0 <= i < |rows'| ensures Carries(fwd, rows'[i], column'[i]) {
      if i < |rows| { assert Carries(fwd, rows[i], column[i]); }
    }
  }

  class AdvancedMemoryImporter {
    const disassembly: Disassembly
    const base: MemoryImporter
    var lastWasConditionalBranch: bool
    var ipJumpNotTaken: nat
    var branchesTaken: seq<bool>
    var delayedEntries: seq<Entry>
    var curBranchmask: Word
    /** The events passed on to the base importer, with their masks. */
    var forwarded: seq<Forwarded>
    /** The additional column of the base importer's rows. */
    var jumpHistory: seq<Option<Word>>

    constructor (disassembly: Disassembly, base: MemoryImporter)
      ensures this.disassembly == disassembly && this.base == base
      ensures !lastWasConditionalBranch && branchesTaken == [] && delayedEntries == []
      ensures forwarded == [] && jumpHistory == []
    {
      this.disassembly, this.base := disassembly, base;
      lastWasConditionalBranch, ipJumpNotTaken := false, 0;
      branchesTaken, delayedEntries, forwarded, jumpHistory := [], [], [], [];
      curBranchmask := seq(32, _ => false);
    }

    /** The history recorded so far is that of the events `t`. */
    ghost predicate Recorded(t: Trace)
      reads this
    {
      && branchesTaken == Branches(disassembly, t)
      && PendingBranch(disassembly, t) == if lastWasConditionalBranch then Some(ipJumpNotTaken) else None
    }

    /** The base importer has seen exactly the forwarded events. */
    ghost predicate BaseOk(es: seq<Entry>)
      reads this, base
    {
      && base.Valid()
      && |forwarded| <= |es| && (forall i | 0 <= i < |es| :: es[i].event.Mem?)
      && base.Current() == Fold(base.cfg, es[..|forwarded|])
      && ColumnOk(forwarded, base.rows, jumpHistory)
    }

    /** The memory events are forwarded or waiting. */
    ghost predicate StreamOk(es: seq<Entry>)
      reads this, base
    {
      && Streamed(es, branchesTaken, forwarded, delayedEntries)
      && StillWaiting(delayedEntries, branchesTaken)
      && BaseOk(es)
    }

    /** The state between two events. */
    ghost predicate Inv(t: Trace)
      reads this, base
    {
      Recorded(t) && StreamOk(MemEvents(disassembly, t))
    }

    /** The mask loop: positions from at most 16 before to at most 16 after. */
    method BuildMask(before: nat) returns (w: Word)
      requires before <= |branchesTaken|
      ensures w == Mask(branchesTaken, before)
    {
      w := seq(32, _ => false);
      var pos: int := if before < WINDOW then 0 - before else 0 - WINDOW;
      var maxpos := if |branchesTaken| - before < WINDOW then |branchesTaken| - before else WINDOW;
      while pos < maxpos
        invariant 0 - WINDOW <= pos <= maxpos
        invariant forall k | 0 <= k < 32 ::
                    w[k] == (15 - k < pos && 0 <= before + 15 - k < |branchesTaken| && branchesTaken[before + 15 - k])
      {
        var bit := 16 - pos - 1;
        w := w[bit := w[bit] || branchesTaken[before + pos]];
        pos := pos + 1;
      }
      assert forall k | 0 <= k < 32 :: w[k] == Mask(branchesTaken, before)[k];
    }

    /** Passes on the entry at the front of the queue. */
    method ForwardFront(ghost es: seq<Entry>)
      requires BaseOk(es) && delayedEntries != [] && delayedEntries == es[|forwarded|..]
      requires delayedEntries[0].before <= |branchesTaken| < UINT_MAX
      modifies this`delayedEntries, this`forwarded, this`curBranchmask, this`jumpHistory, base
      ensures BaseOk(es) && delayedEntries == old(delayedEntries)[1..]
      ensures var it := old(delayedEntries)[0];
              forwarded == old(forwarded) + [Forwarded(it, Mask(branchesTaken, it.before))]
    {
      // Never updated by the source, so the mask is computed anew for every entry.
      var lastBranchesBefore := UINT_MAX;
      var it := delayedEntries[0];
      ghost var n := |forwarded|;
      assert it == es[n] && es[..n + 1][..n] == es[..n];
      if it.before != lastBranchesBefore {
        curBranchmask := BuildMask(it.before);
      }
      ghost var rows := base.rows;
      base.HandleMemEvent(it.instr, it.event);
      ColumnGrows(forwarded, Forwarded(it, curBranchmask), rows, base.rows, jumpHistory);
      jumpHistory := jumpHistory + Repeat(|base.rows| - |jumpHistory|, Some(curBranchmask));
      forwarded := forwarded + [Forwarded(it, curBranchmask)];
      delayedEntries := delayedEntries[1..];
    }

    /** Passes on every entry at the front of the queue whose future is known; at the
        end of the trace all of them. */
    method InsertDelayedEntries(finalizing: bool, ghost es: seq<Entry>)
      requires Streamed(es, branchesTaken, forwarded, delayedEntries) && BaseOk(es)
      requires forall i, j | 0 <= i <= j < |es| :: es[i].before <= es[j].before <= |branchesTaken|
      requires |branchesTaken| < UINT_MAX
      modifies this`delayedEntries, this`forwarded, this`curBranchmask, this`jumpHistory, base
      ensures BaseOk(es)
      ensures !finalizing ==>
                && Streamed(es, branchesTaken, forwarded, delayedEntries)
                && StillWaiting(delayedEntries, branchesTaken)
      ensures finalizing ==> delayedEntries == [] && forwarded == WithMasks(branchesTaken, es)
    {
      while delayedEntries != [] && (delayedEntries[0].before + WINDOW <= |branchesTaken| || finalizing)
        invariant |forwarded| + |delayedEntries| == |es| && delayedEntries == es[|forwarded|..]
        invariant BaseOk(es)
        invariant forall i | 0 <= i < |forwarded| :: forwarded[i] == Forwarded(es[i], Mask(branchesTaken, es[i].before))
        invariant !finalizing ==> forall i | 0 <= i < |forwarded| :: es[i].before + WINDOW <= |branchesTaken|
        decreases |delayedEntries|
      {
        ghost var n := |forwarded|;
        assert delayedEntries[0] == es[n] && es[n].before <= es[n].before;
        ForwardFront(es);
      }
      if !finalizing {
        forall i | 0 <= i < |delayedEntries| ensures delayedEntries[i].before + WINDOW > |branchesTaken| {
          assert delayedEntries[0] == es[|forwarded|] && delayedEntries[i] == es[|forwarded| + i];
        }
      }
    }

    /** The first instruction after a conditional branch shows whether it was taken. */
    method RecordDecision(e: Event, ghost t: Trace)
      requires Recorded(t) && e.Ip?
      modifies `lastWasConditionalBranch, `branchesTaken
      ensures !lastWasConditionalBranch && branchesTaken == Branches(disassembly, t + [e])
      ensures old(branchesTaken) <= branchesTaken
    {
      assert (t + [e])[..|t|] == t;
      if lastWasConditionalBranch {
        lastWasConditionalBranch := false;
        branchesTaken := branchesTaken + [e.ip != ipJumpNotTaken];
      }
    }

    lemma {:induction false} SameMemEvents(e: Event, t: Trace)
      requires e.Ip?
      ensures MemEvents(disassembly, t + [e]) == MemEvents(disassembly, t)
      ensures PendingBranch(disassembly, t + [e]) ==
              if disassembly(e.ip).conditional then Some(e.ip + disassembly(e.ip).length) else None
    {
      assert (t + [e])[..|t|] == t;
    }

    /** Passes on what the new decision completes. */
    method Learn(e: Event, ghost t: Trace)
      requires Inv(t) && e.Ip? && |Branches(disassembly, t + [e])| < UINT_MAX
      modifies this, base
      ensures !lastWasConditionalBranch && branchesTaken == Branches(disassembly, t + [e])
      ensures StreamOk(MemEvents(disassembly, t + [e]))
    {
      ghost var h, es := branchesTaken, MemEvents(disassembly, t);
      SameMemEvents(e, t);
      RecordDecision(e, t);
      EntriesOrdered(disassembly, t + [e]);
      StreamedGrows(es, h, branchesTaken, forwarded, delayedEntries);
      InsertDelayedEntries(false, es);
    }

    method HandleIpEvent(e: Event, ghost t: Trace)
      requires Inv(t) && e.Ip? && |Branches(disassembly, t + [e])| < UINT_MAX
      modifies this, base
      ensures Inv(t + [e])
    {
      Learn(e, t);
      SameMemEvents(e, t);
      var opcode := disassembly(e.ip);
      if opcode.conditional {
        lastWasConditionalBranch := true;
        ipJumpNotTaken := e.ip + opcode.length;
      }
      assert Recorded(t + [e]);
    }

    method HandleMemEvent(time: nat, instr: nat, e: Event, ghost t: Trace)
      requires Inv(t) && e.Mem? && time == Time(t + [e]) && instr == MemInstr(t)
      modifies this`delayedEntries
      ensures Inv(t + [e])
    {
      ghost var t' := t + [e];
      assert t'[..|t|] == t;
      ghost var es, es' := MemEvents(disassembly, t), MemEvents(disassembly, t');
      var entry := Entry(time, instr, e, |branchesTaken|);
      assert es' == es + [entry];
      assert es'[..|forwarded|] == es[..|forwarded|];
      delayedEntries := delayedEntries + [entry];
      assert delayedEntries == es'[|forwarded|..];
    }

    /** Passes on everything that waits. */
    method InsertRemaining(ghost es: seq<Entry>)
      requires StreamOk(es) && |branchesTaken| < UINT_MAX
      requires forall i, j | 0 <= i <= j < |es| :: es[i].before <= es[j].before <= |branchesTaken|
      modifies this, base
      ensures branchesTaken == old(branchesTaken)
      ensures forwarded == WithMasks(branchesTaken, es) && delayedEntries == []
      ensures forall i | 0 <= i < |es| :: es[i].event.Mem?
      ensures base.Valid() && base.Current() == Fold(base.cfg, es)
      ensures ColumnOk(forwarded, base.rows, jumpHistory)
    {
      InsertDelayedEntries(true, es);
      assert es[..|es|] == es;
    }

    /** The end of the trace: the remaining entries go out with what is known. */
    method TraceEndReached(ghost t: Trace)
      requires Inv(t) && |branchesTaken| < UINT_MAX
      modifies this, base
      ensures forwarded == TwoPass(disassembly, t) && delayedEntries == []
      ensures base.Valid() && base.Current() == Import(base.cfg, t)
      ensures ColumnOk(forwarded, base.rows, jumpHistory)
    {
      ghost var es := MemEvents(disassembly, t);
      EntriesOrdered(disassembly, t);
      FoldIsImport(base.cfg, disassembly, t);
      InsertRemaining(es);
    }

    /** After the last event: the remaining entries, then the open intervals. */
    method Complete(instr: nat, ghost t: Trace)
      requires Inv(t) && |branchesTaken| < UINT_MAX && instr == InstrCount(t)
      modifies this, base
      ensures forwarded == TwoPass(disassembly, t) && delayedEntries == [] && base.Done(t)
      ensures ColumnOk(forwarded, base.rows, jumpHistory)
    {
      TraceEndReached(t);
      ghost var rows := base.rows;
      base.Finish(instr, t);
      ColumnClosed(forwarded, rows, base.rows, jumpHistory);
      jumpHistory := jumpHistory + Repeat(|base.rows| - |jumpHistory|, None);
    }

    /** One event of the event loop. */
    method Process(e: Event, curtime: nat, instr: nat, instrMemaccess: nat, ghost t: Trace)
      returns (ok: bool, curtime': nat, instr': nat, instrMemaccess': nat)
      requires Inv(t) && curtime == Time(t) && instr == InstrCount(t) <= MAX_INSTR && instrMemaccess == MemInstr(t)
      modifies this, base
      ensures ok <==> InstrCount(t + [e]) <= MAX_INSTR
      ensures ok ==>
                && Inv(t + [e]) && curtime' == Time(t + [e])
                && instr' == InstrCount(t + [e]) && instrMemaccess' == MemInstr(t + [e])
    {
      ghost var t' := t + [e];
      assert t'[..|t|] == t;
      ok, curtime', instr', instrMemaccess' := true, curtime + e.delta, instr, instrMemaccess;
      if e.Ip? {
        if instr == MAX_INSTR {
          ok := false;
          return;
        }
        BranchesBound(disassembly, t');
        HandleIpEvent(e, t);
        instrMemaccess', instr' := instr, instr + 1;
      } else {
        HandleMemEvent(curtime', instrMemaccess, e, t);
      }
    }

    /** The event loop. */
    method ProcessAll(t: Trace) returns (ok: bool, instr: nat)
      requires Inv([])
      modifies this, base
      ensures ok <==> InstrCount(t) <= MAX_INSTR
      ensures ok ==> Inv(t) && instr == InstrCount(t)
    {
      var curtime, instrMemaccess := 0, 0;
      instr := 0;
      assert t[..0] == [];
      for k := 0 to |t|
        invariant Inv(t[..k]) && curtime == Time(t[..k])
        invariant instr == InstrCount(t[..k]) <= MAX_INSTR && instrMemaccess == MemInstr(t[..k])
      {
        assert t[..k + 1] == t[..k] + [t[k]];
        InstrCountMonotone(t, k + 1);
        ok, curtime, instr, instrMemaccess := Process(t[k], curtime, instr, instrMemaccess, t[..k]);
        if !ok {
          return;
        }
      }
      assert t[..|t|] == t;
      ok := true;
    }

    /** The whole import: the same rows as the direct importer, every memory event passed
        on once, in order, with the mask of the complete history, and every row stored
        with the mask of an event that ends it. */
    method CopyToDatabase(t: Trace) returns (ok: bool)
      requires base.Valid() && base.Current() == State(map[], [])
      requires !lastWasConditionalBranch && branchesTaken == [] && delayedEntries == []
      requires forwarded == [] && jumpHistory == [] && base.rows == []
      modifies this, base
      ensures ok <==> InstrCount(t) <= MAX_INSTR
      ensures ok ==> forwarded == TwoPass(disassembly, t) && delayedEntries == [] && base.Done(t)
      ensures ok ==> ColumnOk(TwoPass(disassembly, t), base.rows, jumpHistory)
    {
      var instr;
      ok, instr := ProcessAll(t);
      if ok {
        BranchesBound(disassembly, t);
        Complete(instr, t);
      }
    }
  }
}
