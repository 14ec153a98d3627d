/** The def/use fault space: for every byte of memory, the dynamic instructions of
    a trace are divided into intervals that end with the next access. */
module FaultSpace {

  import opened Options
  import opened Words

  datatype Access = Read | Write

  /** One trace event: an executed instruction, or a memory access belonging to the
      latest instruction.  `delta` is the time since the previous event. */
  datatype Event =
    | Ip(ip: nat, delta: nat)
    | Mem(ip: nat, delta: nat, address: nat, width: nat, access: Access)

  type Trace = seq<Event>

  /** One row of the result: instructions `instr1 .. instr2` of one byte. */
  datatype Row = Row(address: nat, instr1: nat, instr2: nat, access: Access, fake: bool)

  /** The importer's options. */
  datatype Config = Config(memoryMap: Option<set<nat>>, rightMargin: Access, importWrites: bool)

  predicate Relevant(cfg: Config, a: nat) {
    cfg.memoryMap.Some? ==> a in cfg.memoryMap.value
  }

  // ---------------------------------------------------------------------
  // What the trace says
  // ---------------------------------------------------------------------

  function InstrCount(t: Trace): nat {
    if t == [] then 0 else InstrCount(t[..|t| - 1]) + if t[|t| - 1].Ip? then 1 else 0
  }

  /** The dynamic instruction that a memory access right after `t` belongs to. */
  function MemInstr(t: Trace): nat {
    if InstrCount(t) == 0 then 0 else InstrCount(t) - 1
  }

  predicate Touches(e: Event, a: nat) {
    e.Mem? && e.address <= a < e.address + e.width
  }

  /** The kind of the first access to byte `a` at or after instruction `i`. */
  function NextAccess(t: Trace, a: nat, i: nat): Option<Access> {
    if t == [] then None
    else
      var p := t[..|t| - 1];
      var e := t[|t| - 1];
      match NextAccess(p, a, i)
      case Some(x) => Some(x)
      case None => if Touches(e, a) && i <= MemInstr(p) then Some(e.access) else None
  }

  /** The `k`-th event is an access to `a` at or after instruction `i`. */
  ghost predicate AccessAt(t: Trace, a: nat, i: nat, k: nat) {
    k < |t| && Touches(t[k], a) && i <= MemInstr(t[..k])
  }

  /** `NextAccess` is indeed about the first such event of the trace. */
  lemma {:induction false} NextAccessIsFirst(t: Trace, a: nat, i: nat)
    ensures NextAccess(t, a, i).None? ==> forall k: nat :: !AccessAt(t, a, i, k)
    ensures NextAccess(t, a, i).Some? ==>
              exists k: nat :: AccessAt(t, a, i, k) && t[k].access == NextAccess(t, a, i).value
                          && forall k': nat | k' < k :: !AccessAt(t, a, i, k')
  {
    if t != [] {
      var n := |t| - 1;
      var p := t[..n];
      NextAccessIsFirst(p, a, i);
      forall k: nat | k < n ensures AccessAt(t, a, i, k) <==> AccessAt(p, a, i, k) {
        assert p[..k] == t[..k];
      }
      if NextAccess(p, a, i).Some? {
        var k: nat :| AccessAt(p, a, i, k) && p[k].access == NextAccess(p, a, i).value
                 && forall k': nat | k' < k :: !AccessAt(p, a, i, k');
        assert AccessAt(t, a, i, k) && t[k].access == NextAccess(t, a, i).value;
      } else if NextAccess(t, a, i).Some? {
        assert AccessAt(t, a, i, n) && t[n].access == NextAccess(t, a, i).value;
      }
    }
  }

  // ---------------------------------------------------------------------
  // The importer on values
  // ---------------------------------------------------------------------

  /** `open` maps a byte to the first instruction not yet covered by a row. */
  datatype State = State(open: map<nat, nat>, rows: seq<Row>)

  function Margin(s: State, a: nat): nat {
    if a in s.open then s.open[a] else 0
  }

  /** One accessed byte.  A second access by the same instruction adds nothing. */
  function AddByte(cfg: Config, s: State, a: nat, instr: nat, access: Access): State {
    if !Relevant(cfg, a) then s
    else if Margin(s, a) > instr then s.(open := s.open[a := Margin(s, a)])
    else State(s.open[a := instr + 1], s.rows + [Row(a, Margin(s, a), instr, access, false)])
  }

  /** The bytes `lo .. hi - 1` of one access. */
  function AddBytes(cfg: Config, s: State, lo: nat, hi: nat, instr: nat, access: Access): State
    requires lo <= hi
    decreases hi
  {
    if lo == hi then s
    else AddByte(cfg, AddBytes(cfg, s, lo, hi - 1, instr, access), hi - 1, instr, access)
  }

  function HandleMem(cfg: Config, s: State, instr: nat, e: Event): State
    requires e.Mem?
  {
    AddBytes(cfg, s, e.address, e.address + e.width, instr, e.access)
  }

  function Import(cfg: Config, t: Trace): State {
    if t == [] then State(map[], [])
    else
      var s := Import(cfg, t[..|t| - 1]);
      var e := t[|t| - 1];
      if e.Ip? then s else HandleMem(cfg, s, MemInstr(t[..|t| - 1]), e)
  }

  /** The rows of one byte, in order. */
  function RowsOf(rows: seq<Row>, a: nat): seq<Row> {
    if rows == [] then []
    else
      var r := rows[|rows| - 1];
      RowsOf(rows[..|rows| - 1], a) + if r.address == a then [r] else []
  }

  lemma {:induction false} RowsOfAppend(rows: seq<Row>, r: Row, a: nat)
    ensures RowsOf(rows + [r], a) == RowsOf(rows, a) + if r.address == a then [r] else []
  {
  }

  // ---------------------------------------------------------------------
  // Soundness
  // ---------------------------------------------------------------------

  /** The intervals of `rs` follow each other without gap from 0 up to `n`. */
  predicate Tiled(rs: seq<Row>, n: nat) {
    if rs == [] then n == 0
    else
      var r := rs[|rs| - 1];
      r.instr1 <= r.instr2 && n == r.instr2 + 1 && Tiled(rs[..|rs| - 1], r.instr1)
  }

  /** Each instruction has exactly one row. */
  lemma {:induction false} TiledPartitions(rs: seq<Row>, n: nat, i: nat)
    requires Tiled(rs, n)
    ensures i < n <==> exists j :: 0 <= j < |rs| && rs[j].instr1 <= i <= rs[j].instr2
    ensures forall j, k | 0 <= j < k < |rs| :: rs[j].instr2 < rs[k].instr1
    ensures forall j | 0 <= j < |rs| :: rs[j].instr1 <= rs[j].instr2 < n
  {
    if rs != [] {
      var m := |rs| - 1;
      var r := rs[m];
      var init := rs[..m];
      TiledPartitions(init, r.instr1, i);
      assert forall j | 0 <= j < m :: init[j] == rs[j];
      if i < n {
        if i < r.instr1 {
          var j :| 0 <= j < |init| && init[j].instr1 <= i <= init[j].instr2;
          assert rs[j].instr1 <= i <= rs[j].instr2;
        } else {
          assert rs[m].instr1 <= i <= rs[m].instr2;
        }
      }
    }
  }

  /** Row `r` of byte `a` tells the truth about every instruction it covers. */
  ghost predicate Labelled(t: Trace, a: nat, r: Row) {
    forall i | r.instr1 <= i <= r.instr2 :: NextAccess(t, a, i) == Some(r.access)
  }

  /** What holds of byte `a` after the events `t`. */
  ghost predicate ByteOk(t: Trace, a: nat, rs: seq<Row>, n: nat) {
    && Tiled(rs, n)
    && n <= MemInstr(t) + 1
    && (forall j | 0 <= j < |rs| :: !rs[j].fake && Labelled(t, a, rs[j]))
    && (forall i | n <= i :: NextAccess(t, a, i) == None)
  }

  lemma {:induction false} NextAccessStep(t: Trace, e: Event, a: nat, i: nat)
    ensures NextAccess(t + [e], a, i) ==
            if NextAccess(t, a, i).Some? then NextAccess(t, a, i)
            else if Touches(e, a) && i <= MemInstr(t) then Some(e.access) else None
  {
  }

  lemma {:induction false} MemInstrStep(t: Trace, e: Event)
    ensures MemInstr(t) <= MemInstr(t + [e]) && (e.Mem? ==> MemInstr(t + [e]) == MemInstr(t))
  {
  }

  /** An event that does not touch the byte changes nothing about it. */
  lemma {:induction false} ByteUntouched(t: Trace, e: Event, a: nat, rs: seq<Row>, n: nat)
    requires ByteOk(t, a, rs, n)
    requires !Touches(e, a) || MemInstr(t) < n
    ensures ByteOk(t + [e], a, rs, n)
  {
    MemInstrStep(t, e);
    forall j | 0 <= j < |rs| ensures Labelled(t + [e], a, rs[j]) {
      assert Labelled(t, a, rs[j]);
      forall i | rs[j].instr1 <= i <= rs[j].instr2 ensures NextAccess(t + [e], a, i) == Some(rs[j].access) {
        NextAccessStep(t, e, a, i);
      }
    }
    forall i | n <= i ensures NextAccess(t + [e], a, i) == None {
      NextAccessStep(t, e, a, i);
    }
  }

  /** A fresh access closes the open interval. */
  lemma {:induction false} ByteAccessed(t: Trace, e: Event, a: nat, rs: seq<Row>, n: nat)
    requires ByteOk(t, a, rs, n) && Touches(e, a) && n <= MemInstr(t)
    ensures ByteOk(t + [e], a, rs + [Row(a, n, MemInstr(t), e.access, false)], MemInstr(t) + 1)
  {
    var r := Row(a, n, MemInstr(t), e.access, false);
    var rs' := rs + [r];
    MemInstrStep(t, e);
    assert rs'[..|rs|] == rs;
    forall j | 0 <= j < |rs'| ensures !rs'[j].fake && Labelled(t + [e], a, rs'[j]) {
      if j < |rs| { assert Labelled(t, a, rs[j]); }
      forall i | rs'[j].instr1 <= i <= rs'[j].instr2 ensures NextAccess(t + [e], a, i) == Some(rs'[j].access) {
        NextAccessStep(t, e, a, i);
      }
    }
    forall i | MemInstr(t) + 1 <= i ensures NextAccess(t + [e], a, i) == None {
      NextAccessStep(t, e, a, i);
    }
  }

  /** What one access does to byte `a`, whose rows were `rs` and margin `n`. */
  ghost predicate ByteEffect(cfg: Config, s: State, s': State, a: nat, touched: bool, instr: nat, access: Access) {
    if touched && Relevant(cfg, a) then
      && a in s'.open
      && (if Margin(s, a) > instr then
            RowsOf(s'.rows, a) == RowsOf(s.rows, a) && Margin(s', a) == Margin(s, a)
          else
            && RowsOf(s'.rows, a) == RowsOf(s.rows, a) + [Row(a, Margin(s, a), instr, access, false)]
            && Margin(s', a) == instr + 1)
    else
      && (a in s'.open <==> a in s.open)
      && RowsOf(s'.rows, a) == RowsOf(s.rows, a) && Margin(s', a) == Margin(s, a)
  }

  /** One byte does nothing to other bytes. */
  lemma {:induction false} AddByteEffect(cfg: Config, s: State, b: nat, instr: nat, access: Access, a: nat)
    ensures ByteEffect(cfg, s, AddByte(cfg, s, b, instr, access), a, a == b, instr, access)
  {
    RowsOfAppend(s.rows, Row(b, Margin(s, b), instr, access, false), a);
  }

  lemma {:induction false} AddBytesEffect(
    cfg: Config, s: State, lo: nat, hi: nat, instr: nat, access: Access, a: nat)
    requires lo <= hi
    ensures ByteEffect(cfg, s, AddBytes(cfg, s, lo, hi, instr, access), a, lo <= a < hi, instr, access)
    decreases hi
  {
    if lo < hi {
      var s1 := AddBytes(cfg, s, lo, hi - 1, instr, access);
      AddBytesEffect(cfg, s, lo, hi - 1, instr, access, a);
      AddByteEffect(cfg, s1, hi - 1, instr, access, a);
    }
  }

  /** The importer's invariant for every byte. */
  ghost predicate ImportOk(cfg: Config, t: Trace, s: State, a: nat) {
    if Relevant(cfg, a) then
      && ByteOk(t, a, RowsOf(s.rows, a), Margin(s, a))
      && (a in s.open <==> exists k :: 0 <= k < |t| && Touches(t[k], a))
    else
      a !in s.open && RowsOf(s.rows, a) == []
  }

  lemma {:induction false} TouchedStep(t: Trace, e: Event, a: nat)
    ensures (exists k :: 0 <= k < |t + [e]| && Touches((t + [e])[k], a)) <==>
            (exists k :: 0 <= k < |t| && Touches(t[k], a)) || Touches(e, a)
  {
    var t' := t + [e];
    if k :| 0 <= k < |t| && Touches(t[k], a) { assert Touches(t'[k], a); }
    if Touches(e, a) { assert Touches(t'[|t|], a); }
    if k :| 0 <= k < |t'| && Touches(t'[k], a) {
      if k < |t| { assert Touches(t[k], a); }
    }
  }

  /** After any trace, every byte's rows tile the instructions up to its margin and
      carry the right kind of access. */
  lemma {:induction false} ImportIsOk(cfg: Config, t: Trace, a: nat)
    ensures ImportOk(cfg, t, Import(cfg, t), a)
  {
    if t != [] {
      var p, e := t[..|t| - 1], t[|t| - 1];
      assert t == p + [e];
      ImportIsOk(cfg, p, a);
      TouchedStep(p, e, a);
      var s := Import(cfg, p);
      if e.Mem? {
        AddBytesEffect(cfg, s, e.address, e.address + e.width, MemInstr(p), e.access, a);
      }
      if Relevant(cfg, a) {
        if Touches(e, a) && Margin(s, a) <= MemInstr(p) {
          ByteAccessed(p, e, a, RowsOf(s.rows, a), Margin(s, a));
        } else {
          ByteUntouched(p, e, a, RowsOf(s.rows, a), Margin(s, a));
        }
      }
    }
  }

  // ---------------------------------------------------------------------
  // The right margin
  // ---------------------------------------------------------------------

  /** The bytes that get a row: accessed ones, and all of a given memory map. */
  ghost predicate Imported(cfg: Config, t: Trace, a: nat) {
    && Relevant(cfg, a)
    && (cfg.memoryMap.Some? || exists k :: 0 <= k < |t| && Touches(t[k], a))
  }

  /** Which synthetic row ends byte `a`, given the last instruction. */
  function ClosingRow(cfg: Config, open: map<nat, nat>, a: nat, lastInstr: nat): seq<Row> {
    if a in open && open[a] <= lastInstr then [Row(a, open[a], lastInstr, cfg.rightMargin, true)] else []
  }

  /** `rows` are the final rows: for every byte those of the trace and the closing
      one. */
  ghost predicate Closed(cfg: Config, s: State, open: map<nat, nat>, rows: seq<Row>, lastInstr: nat) {
    forall a: nat :: RowsOf(rows, a) == RowsOf(s.rows, a) + ClosingRow(cfg, open, a, lastInstr)
  }

  /** The open intervals after those of unaccessed mapped bytes were added. */
  ghost predicate Opened(cfg: Config, s: State, open: map<nat, nat>) {
    forall a: nat ::
      && (a in open <==> a in s.open || (cfg.memoryMap.Some? && a in cfg.memoryMap.value))
      && (a in open ==> open[a] == Margin(s, a))
  }

  /** The rows of byte `a` are right: they tile instructions `0 .. n - 1`; a real row
      ends with the next access of every instruction in it, a synthetic row has no
      later access and carries the right-margin kind. */
  ghost predicate Sound(cfg: Config, t: Trace, rs: seq<Row>, a: nat, n: nat) {
    && Tiled(rs, n)
    && forall j | 0 <= j < |rs| ::
         if rs[j].fake then rs[j].access == cfg.rightMargin && Unaccessed(t, a, rs[j]) else Labelled(t, a, rs[j])
  }

  ghost predicate Unaccessed(t: Trace, a: nat, r: Row) {
    forall i | r.instr1 <= i <= r.instr2 :: NextAccess(t, a, i) == None
  }

  /** The last instruction as a 32-bit number: one less than the count, which wraps
      around when there is no instruction at all. */
  function LastInstr(t: Trace): nat {
    Minus1(InstrCount(t))
  }

  function Minus1(n: nat): (r: nat)
    ensures 1 <= n <= TWO_32 ==> r == n - 1
    ensures n == 0 ==> r == 0xffff_ffff
  {
    U32(n - 1)
  }

  /** Closing the open interval of a byte that is in order. */
  lemma {:induction false} CloseByte(cfg: Config, t: Trace, a: nat, rs: seq<Row>, n: nat)
    requires InstrCount(t) >= 1 && ByteOk(t, a, rs, n)
    ensures n < InstrCount(t) ==>
              Sound(cfg, t, rs + [Row(a, n, InstrCount(t) - 1, cfg.rightMargin, true)], a, InstrCount(t))
    ensures n >= InstrCount(t) ==> Sound(cfg, t, rs, a, InstrCount(t))
  {
  }

  /** The final rows of one byte. */
  lemma {:induction false} ClosedAt(
    cfg: Config, s: State, open: map<nat, nat>, rows: seq<Row>, lastInstr: nat, a: nat)
    requires Opened(cfg, s, open) && Closed(cfg, s, open, rows, lastInstr)
    ensures a in open <==> a in s.open || (cfg.memoryMap.Some? && a in cfg.memoryMap.value)
    ensures RowsOf(rows, a) ==
            RowsOf(s.rows, a) +
            if a in open && Margin(s, a) <= lastInstr
            then [Row(a, Margin(s, a), lastInstr, cfg.rightMargin, true)] else []
  {
  }

  lemma {:induction false} NoRows(t: Trace, a: nat, rs: seq<Row>)
    requires ByteOk(t, a, rs, 0)
    ensures rs == []
  {
  }

  lemma {:induction false} SoundAt(
    cfg: Config, t: Trace, s: State, open: map<nat, nat>, rows: seq<Row>, a: nat)
    requires 1 <= InstrCount(t) && Imported(cfg, t, a) && ImportOk(cfg, t, s, a)
    requires Opened(cfg, s, open) && Closed(cfg, s, open, rows, InstrCount(t) - 1)
    ensures Sound(cfg, t, RowsOf(rows, a), a, InstrCount(t))
  {
    ClosedAt(cfg, s, open, rows, InstrCount(t) - 1, a);
    CloseByte(cfg, t, a, RowsOf(s.rows, a), Margin(s, a));
    assert RowsOf(s.rows, a) + [] == RowsOf(s.rows, a);
  }

  lemma {:induction false} ImportedSound(cfg: Config, t: Trace, open: map<nat, nat>, rows: seq<Row>, a: nat)
    requires 1 <= InstrCount(t) < TWO_32 && Imported(cfg, t, a)
    requires Opened(cfg, Import(cfg, t), open) && Closed(cfg, Import(cfg, t), open, rows, LastInstr(t))
    ensures Sound(cfg, t, RowsOf(rows, a), a, InstrCount(t))
  {
    ImportIsOk(cfg, t, a);
    SoundAt(cfg, t, Import(cfg, t), open, rows, a);
  }

  lemma {:induction false} NotImportedEmpty(cfg: Config, t: Trace, open: map<nat, nat>, rows: seq<Row>, a: nat)
    requires !Imported(cfg, t, a)
    requires Opened(cfg, Import(cfg, t), open) && Closed(cfg, Import(cfg, t), open, rows, LastInstr(t))
    ensures RowsOf(rows, a) == []
  {
    var s := Import(cfg, t);
    ImportIsOk(cfg, t, a);
    ClosedAt(cfg, s, open, rows, LastInstr(t), a);
    if Relevant(cfg, a) {
      NoRows(t, a, RowsOf(s.rows, a));
    }
  }

  /** Fault-space soundness for one byte. */
  lemma {:induction false} ByteSound(cfg: Config, t: Trace, open: map<nat, nat>, rows: seq<Row>, a: nat)
    requires 1 <= InstrCount(t) < TWO_32
    requires Opened(cfg, Import(cfg, t), open) && Closed(cfg, Import(cfg, t), open, rows, LastInstr(t))
    ensures Imported(cfg, t, a) ==> Sound(cfg, t, RowsOf(rows, a), a, InstrCount(t))
    ensures !Imported(cfg, t, a) ==> RowsOf(rows, a) == []
  {
    if Imported(cfg, t, a) {
      ImportedSound(cfg, t, open, rows, a);
    } else {
      NotImportedEmpty(cfg, t, open, rows, a);
    }
  }

  /** Without any instruction the count wraps, and every imported byte gets a row
      although there is nothing to cover. */
  lemma {:induction false} NoInstructionsNotSound(cfg: Config, t: Trace, open: map<nat, nat>, rows: seq<Row>, a: nat)
    requires InstrCount(t) == 0 && Imported(cfg, t, a)
    requires Opened(cfg, Import(cfg, t), open) && Closed(cfg, Import(cfg, t), open, rows, LastInstr(t))
    ensures RowsOf(rows, a) != [] && !Sound(cfg, t, RowsOf(rows, a), a, InstrCount(t))
  {
    var s := Import(cfg, t);
    ImportIsOk(cfg, t, a);
    ClosedAt(cfg, s, open, rows, LastInstr(t), a);
    assert Margin(s, a) <= LastInstr(t);
  }

  /** The fault space is sound for all bytes exactly if there is an instruction, or
      nothing to import. */
  lemma {:induction false} SoundExactlyIf(cfg: Config, t: Trace, open: map<nat, nat>, rows: seq<Row>)
    requires InstrCount(t) < TWO_32
    requires Opened(cfg, Import(cfg, t), open) && Closed(cfg, Import(cfg, t), open, rows, LastInstr(t))
    ensures (forall a: nat | Imported(cfg, t, a) :: Sound(cfg, t, RowsOf(rows, a), a, InstrCount(t))) <==>
            InstrCount(t) >= 1 || (forall a: nat :: !Imported(cfg, t, a))
  {
    if InstrCount(t) >= 1 {
      forall a: nat | Imported(cfg, t, a) ensures Sound(cfg, t, RowsOf(rows, a), a, InstrCount(t)) {
        ByteSound(cfg, t, open, rows, a);
      }
    } else {
      forall a: nat | Imported(cfg, t, a) ensures !Sound(cfg, t, RowsOf(rows, a), a, InstrCount(t)) {
        NoInstructionsNotSound(cfg, t, open, rows, a);
      }
    }
  }
}
