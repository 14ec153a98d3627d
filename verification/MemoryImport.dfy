/** The importer object: an event loop over the trace that keeps one open interval
    per byte and emits rows. */
module MemoryImport {
  import opened FaultSpace

  const MAX_INSTR: nat := 0xffff_ffff

  /** The rows that reach the database: write rows only if configured. */
  function Stored(cfg: Config, rows: seq<Row>): seq<Row> {
    if rows == [] then []
    else
      var r := rows[|rows| - 1];
      Stored(cfg, rows[..|rows| - 1]) + if cfg.importWrites || r.access.Read? then [r] else []
  }

  lemma {:induction false} StoredAppend(cfg: Config, rows: seq<Row>, r: Row)
    ensures Stored(cfg, rows + [r]) == Stored(cfg, rows) + if cfg.importWrites || r.access.Read? then [r] else []
  {
  }

  /** With write rows imported, nothing is left out. */
  lemma {:induction false} StoredAll(cfg: Config, rows: seq<Row>)
    requires cfg.importWrites
    ensures Stored(cfg, rows) == rows
  {
    if rows != [] {
      StoredAll(cfg, rows[..|rows| - 1]);
      assert rows == rows[..|rows| - 1] + [rows[|rows| - 1]];
    }
  }

  /** A row is stored, as often as it was made, if it is no write or writes are imported. */
  lemma {:induction false} StoredExactly(cfg: Config, rows: seq<Row>, r: Row)
    ensures multiset(Stored(cfg, rows))[r] ==
            if !cfg.importWrites && r.access.Write? then 0 else multiset(rows)[r]
  {
    if rows != [] {
      var init, last := rows[..|rows| - 1], rows[|rows| - 1];
      StoredExactly(cfg, init, r);
      assert rows == init + [last];
      assert multiset(rows) == multiset(init) + multiset{last};
    }
  }

  /** Without write rows, a byte's stored rows are its read rows, unchanged. */
  lemma {:induction false} StoredRowsOf(cfg: Config, rows: seq<Row>, a: nat)
    ensures RowsOf(Stored(cfg, rows), a) == Stored(cfg, RowsOf(rows, a))
  {
    if rows != [] {
      var init, r := rows[..|rows| - 1], rows[|rows| - 1];
      StoredRowsOf(cfg, init, a);
      assert RowsOf(init, a) + [] == RowsOf(init, a) && Stored(cfg, init) + [] == Stored(cfg, init);
      if cfg.importWrites || r.access.Read? {
        RowsOfAppend(Stored(cfg, init), r, a);
      }
      if r.address == a {
        StoredAppend(cfg, RowsOf(init, a), r);
      }
    }
  }

  /** A row that access `e` by instruction `instr` ends. */
  predicate EndedBy(r: Row, instr: nat, e: Event) {
    Touches(e, r.address) && r.instr2 == instr && r.access == e.access && !r.fake
  }

  /** Only rows that this access ends were added. */
  ghost predicate Appended(rows: seq<Row>, rows': seq<Row>, instr: nat, e: Event) {
    rows <= rows' && forall i | |rows| <= i < |rows'| :: EndedBy(rows'[i], instr, e)
  }

  class MemoryImporter {
    const cfg: Config
    var open: map<nat, nat>
    /** The rows in the database. */
    var rows: seq<Row>
    /** The rows including those of unwanted writes. */
    ghost var all: seq<Row>

    ghost predicate Valid()
      reads this
    {
      rows == Stored(cfg, all)
    }

    ghost function Current(): State
      reads this
    {
      State(open, all)
    }

    constructor (cfg: Config)
      ensures Valid() && this.cfg == cfg && Current() == State(map[], [])
    {
      this.cfg := cfg;
      open, rows, all := map[], [], [];
    }

    method AddTraceEvent(r: Row)
      requires Valid()
      modifies `rows, `all
      ensures Valid() && all == old(all) + [r]
      ensures rows == old(rows) + if cfg.importWrites || r.access.Read? then [r] else []
    {
      StoredAppend(cfg, all, r);
      all := all + [r];
      if !cfg.importWrites && r.access.Write? {
        return;
      }
      rows := rows + [r];
    }

    /** Reading an open interval creates it if it does not exist. */
    method GetOpenEC(a: nat) returns (n: nat)
      modifies `open
      ensures n == Margin(old(Current()), a) && open == old(open)[a := n]
    {
      if a !in open {
        open := open[a := 0];
      }
      n := open[a];
    }

    /** One byte of an access. */
    method HandleByte(a: nat, instr: nat, e: Event)
      requires Valid() && Touches(e, a)
      modifies this
      ensures Valid() && Current() == AddByte(cfg, old(Current()), a, instr, e.access)
      ensures Appended(old(rows), rows, instr, e)
    {
      if cfg.memoryMap.Some? && a !in cfg.memoryMap.value {
        return;
      }
      var left := GetOpenEC(a);
      if left <= instr {
        CloseOne(a, left, instr, e);
      }
    }

    /** Ends the open interval of an accessed byte. */
    method CloseOne(a: nat, left: nat, instr: nat, e: Event)
      requires Valid() && Touches(e, a)
      modifies this
      ensures Valid() && Appended(old(rows), rows, instr, e)
      ensures open == old(open)[a := instr + 1] && all == old(all) + [Row(a, left, instr, e.access, false)]
    {
      AddTraceEvent(Row(a, left, instr, e.access, false));
      open := open[a := instr + 1];
    }

    method HandleMemEvent(instr: nat, e: Event)
      requires Valid() && e.Mem?
      modifies this
      ensures Valid() && Current() == HandleMem(cfg, old(Current()), instr, e)
      ensures Appended(old(rows), rows, instr, e)
    {
      var hi := e.address + e.width;
      for a := e.address to hi
        invariant Valid() && Appended(old(rows), rows, instr, e)
        invariant Current() == AddBytes(cfg, old(Current()), e.address, a, instr, e.access)
      {
        HandleByte(a, instr, e);
      }
    }

    /** Mapped bytes that were never accessed get an open interval from the start. */
    method OpenUnusedEcIntervals()
      requires Valid()
      modifies `open
      ensures Valid() && Opened(cfg, old(Current()), open)
    {
      if cfg.memoryMap.Some? {
        var todo := cfg.memoryMap.value;
        ghost var before := Current();
        while todo != {}
          invariant todo <= cfg.memoryMap.value && Valid() && all == old(all)
          invariant forall a: nat ::
                      && (a in open <==> a in before.open || (a in cfg.memoryMap.value && a !in todo))
                      && (a in open ==> open[a] == Margin(before, a))
        {
          var a :| a in todo;
          todo := todo - {a};
          if a !in open {
            open := open[a := 0];
          }
        }
      }
    }

    /** Ends every open interval at the last instruction with a synthetic access. */
    method CloseEcIntervals(lastInstr: nat)
      requires Valid()
      modifies `rows, `all
      ensures Valid() && Closed(cfg, old(Current()), open, all, lastInstr)
      ensures old(rows) <= rows && forall i | |old(rows)| <= i < |rows| :: rows[i].fake
    {
      var todo := open.Keys;
      ghost var s := Current();
      while todo != {}
        invariant todo <= open.Keys && Valid()
        invariant old(rows) <= rows && forall i | |old(rows)| <= i < |rows| :: rows[i].fake
        invariant forall a: nat :: RowsOf(all, a) ==
                    RowsOf(s.rows, a) + if a in todo then [] else ClosingRow(cfg, open, a, lastInstr)
      {
        var a :| a in todo;
        todo := todo - {a};
        if open[a] > lastInstr {
          continue;
        }
        var r := Row(a, open[a], lastInstr, cfg.rightMargin, true);
        ghost var was := all;
        AddTraceEvent(r);
        forall b: nat ensures RowsOf(all, b) == RowsOf(was, b) + if b == a then [r] else [] {
          RowsOfAppend(was, r, b);
        }
      }
    }

    /** What is promised once a whole trace was imported. */
    ghost predicate Done(t: Trace)
      reads this
    {
      && Valid()
      && Opened(cfg, Import(cfg, t), open)
      && Closed(cfg, Import(cfg, t), open, all, LastInstr(t))
    }

    /** Then every imported byte has in the database what is wanted of a sound division of
        the instructions: all of it if write rows are wanted as well. */
    lemma {:induction false} StoredSound(t: Trace, a: nat)
      requires Done(t) && 1 <= InstrCount(t) <= MAX_INSTR
      ensures RowsOf(rows, a) == Stored(cfg, RowsOf(all, a))
      ensures Imported(cfg, t, a) ==> Sound(cfg, t, RowsOf(all, a), a, InstrCount(t))
      ensures Imported(cfg, t, a) && cfg.importWrites ==> Sound(cfg, t, RowsOf(rows, a), a, InstrCount(t))
      ensures !Imported(cfg, t, a) ==> RowsOf(rows, a) == []
    {
      ByteSound(cfg, t, open, all, a);
      StoredRowsOf(cfg, all, a);
      if cfg.importWrites { StoredAll(cfg, RowsOf(all, a)); }
    }

    method Finish(instr: nat, ghost t: Trace)
      requires Valid() && instr == InstrCount(t) && Current() == Import(cfg, t)
      modifies this
      ensures Done(t)
      ensures old(rows) <= rows && forall i | |old(rows)| <= i < |rows| :: rows[i].fake
    {
      var lastInstr := Minus1(instr);
      ghost var s := Current();
      OpenUnusedEcIntervals();
      CloseEcIntervals(lastInstr);
      assert forall a: nat :: RowsOf(all, a) == RowsOf(s.rows, a) + ClosingRow(cfg, open, a, lastInstr);
    }

    /** The event loop; fails only if the instruction counter would overflow. */
    method CopyToDatabase(t: Trace) returns (ok: bool)
      requires Valid() && Current() == State(map[], [])
      modifies this
      ensures ok <==> InstrCount(t) <= MAX_INSTR
      ensures ok ==> Done(t)
      ensures ok && InstrCount(t) >= 1 ==> forall a: nat ::
                && RowsOf(rows, a) == Stored(cfg, RowsOf(all, a))
                && (Imported(cfg, t, a) ==> Sound(cfg, t, RowsOf(all, a), a, InstrCount(t)))
                && (Imported(cfg, t, a) && cfg.importWrites ==> Sound(cfg, t, RowsOf(rows, a), a, InstrCount(t)))
                && (!Imported(cfg, t, a) ==> RowsOf(rows, a) == [])
    {
      var instr, instrMemaccess := 0, 0;
      for k := 0 to |t|
        invariant Valid() && Current() == Import(cfg, t[..k])
        invariant instr == InstrCount(t[..k]) <= MAX_INSTR && instrMemaccess == MemInstr(t[..k])
      {
        assert t[..k + 1][..k] == t[..k];
        InstrCountMonotone(t, k + 1);
        if t[k].Ip? {
          if instr == MAX_INSTR {
            return false;
          }
          instrMemaccess := instr;
          instr := instr + 1;
        } else {
          HandleMemEvent(instrMemaccess, t[k]);
        }
      }
      assert t[..|t|] == t;
      Finish(instr, t);
      ok := true;
      if InstrCount(t) >= 1 {
        forall a: nat { StoredSound(t, a); }
      }
    }
  }

  lemma {:induction false} InstrCountMonotone(t: Trace, k: nat)
    requires k <= |t|
    ensures InstrCount(t[..k]) <= InstrCount(t)
    decreases |t|
  {
    if k == |t| {
      assert t[..k] == t;
    } else {
      InstrCountMonotone(t[..|t| - 1], k);
      assert t[..|t| - 1][..k] == t[..k];
    }
  }
}
