/** Watching memory through the MMU: every page of a watched range is made to
    fault.  The object keeps the requested ranges, the shadow configuration and
    the target's memory. */
module MmuWatching {
  import opened Words
  import opened MmuRanges
  import opened MmuMerging
  import opened MmuTable

  const CHUNK: nat := 256

  /** Consecutive words from `start`. */
  function Block(start: nat, data: seq<nat>): (ws: Writes)
    ensures |ws| == |data| && forall k | 0 <= k < |data| :: ws[k] == (start + 4 * k, data[k])
  {
    seq(|data|, k requires 0 <= k < |data| => (start + 4 * k, data[k]))
  }

  /** The writes from `done` to before `i` are consecutive words and not transferred yet. */
  ghost predicate Collected(buf: Writes, done: nat, i: nat, start: nat, data: seq<nat>) {
    && done <= i <= |buf| && |data| == i - done
    && buf[done..i] == Block(start, data)
    && (i < |buf| ==> buf[i].0 == start + 4 * |data|)
  }

  lemma {:induction false} CollectedOne(buf: Writes, done: nat, i: nat, start: nat, data: seq<nat>)
    requires Collected(buf, done, i, start, data) && i < |buf|
    ensures buf[done..i + 1] == Block(start, data + [buf[i].1])
    ensures i + 1 == |buf| || buf[i].0 + 4 == buf[i + 1].0 ==> Collected(buf, done, i + 1, start, data + [buf[i].1])
  {
  }

  lemma {:induction false} CollectedNone(buf: Writes, i: nat, start: nat)
    requires i <= |buf| && (i < |buf| ==> buf[i].0 == start)
    ensures Collected(buf, i, i, start, [])
  {
  }

  lemma {:induction false} TransferredMore(m: Memory, buf: Writes, done: nat, i: nat)
    requires done <= i <= |buf|
    ensures Pokes(Pokes(m, buf[..done]), buf[done..i]) == Pokes(m, buf[..i])
  {
    assert buf[..i] == buf[..done] + buf[done..i];
    PokesAppend(m, buf[..done], buf[done..i]);
  }

  /** Buffered writes go to second-level tables, or unmap a whole section. */
  ghost predicate BufferOk(tb: Tables, conf: seq<Descr>, ws: Writes)
    requires WellFormed(conf)
  {
    forall i | 0 <= i < |ws| :: WriteOk(tb, conf, ws[i].0)
  }

  ghost predicate WriteOk(tb: Tables, conf: seq<Descr>, a: nat)
    requires WellFormed(conf)
  {
    || tb.l2 <= a <= tb.l2 + L2_SIZE - 4
    || exists s | 0 <= s < NUM_SECTIONS :: a == L1Addr(tb, s) && !conf[s].isPage && !conf[s].mapped
  }

  /** Once the buffer is written, memory will match the shadow. */
  ghost predicate WillMatch(tb: Tables, conf: seq<Descr>, m: Memory, ws: Writes) {
    Matches(tb, conf, Pokes(m, ws)) && BufferOk(tb, conf, ws)
  }

  /** Exactly the pages in `us`, besides those unmapped before, are unmapped now. */
  ghost predicate UnmapsExactly(before: seq<Descr>, after: seq<Descr>, us: seq<Unit>)
    requires WellFormed(before) && WellFormed(after)
  {
    forall q | 0 <= q < NUM_PAGES :: Unmapped(after, q) == (Unmapped(before, q) || InUnits(q, us))
  }

  /** The class invariant on values: memory matches the shadow, only watched pages
      are unmapped, and all of them are unless everything is watched. */
  ghost predicate Correct(tb: Tables, conf: seq<Descr>, m: Memory, watch: seq<Range>) {
    && Matches(tb, conf, m)
    && (forall p | 0 <= p < NUM_PAGES && Unmapped(conf, p) :: Watched(p, watch))
    && (!EverythingWatched(watch) ==> forall p | 0 <= p < NUM_PAGES && Watched(p, watch) :: Unmapped(conf, p))
  }

  /** The watched pages are exactly the unmapped ones. */
  ghost predicate Exact(conf: seq<Descr>, watch: seq<Range>)
    requires WellFormed(conf)
  {
    forall p | 0 <= p < NUM_PAGES :: Unmapped(conf, p) <==> Watched(p, watch)
  }

  /** In a correct state that does not watch everything, an access faults exactly
      if its page overlaps a watched range, and otherwise reaches its own address. */
  lemma {:induction false} AccessFaultsExactly(tb: Tables, conf: seq<Descr>, m: Memory, watch: seq<Range>, va: nat)
    requires ValidTables(tb) && Correct(tb, conf, m, watch) && !EverythingWatched(watch) && va < TWO_32
    ensures Walk(tb, m, va) == if Watched(va / PAGE, watch) then Fault else Physical(va)
  {
    WalkMatches(tb, conf, m, va);
  }

  /** The table the boot code sets up: every section mapped to itself. */
  ghost predicate IdentityTable(tb: Tables, m: Memory) {
    forall s | 0 <= s < NUM_SECTIONS :: Holds(m, L1Addr(tb, s), SectionWord(s, true))
  }

  lemma {:induction false} NoPendingL1(tb: Tables, conf: seq<Descr>, ws: Writes, s: nat)
    requires ValidTables(tb) && WellFormed(conf) && BufferOk(tb, conf, ws)
    requires s < NUM_SECTIONS && (conf[s].isPage || conf[s].mapped)
    ensures forall i | 0 <= i < |ws| :: ws[i].0 != L1Addr(tb, s)
  {
  }

  lemma {:induction false} BufferOkAppend(tb: Tables, conf: seq<Descr>, a: Writes, b: Writes)
    requires WellFormed(conf) && BufferOk(tb, conf, a) && BufferOk(tb, conf, b)
    ensures BufferOk(tb, conf, a + b)
  {
  }

  /** Changing the entry of a section whose first-level word is not in the buffer. */
  lemma {:induction false} BufferOkUpdate(tb: Tables, conf: seq<Descr>, ws: Writes, s: nat, d: Descr)
    requires ValidTables(tb) && WellFormed(conf) && BufferOk(tb, conf, ws) && s < NUM_SECTIONS
    requires WellFormed(conf[s := d])
    requires conf[s].isPage || conf[s].mapped || (!d.isPage && !d.mapped)
    ensures BufferOk(tb, conf[s := d], ws)
  {
  }

  lemma {:induction false} FillBufferOk(tb: Tables, conf: seq<Descr>, s: nat)
    requires WellFormed(conf) && s < NUM_SECTIONS
    ensures BufferOk(tb, conf, FillWords(tb, s, 256))
  {
    forall i | 0 <= i < 256 ensures WriteOk(tb, conf, FillWords(tb, s, 256)[i].0) {
      FillAddresses(tb, s, 256, i);
    }
  }

  /** Linking a second-level table at once and buffering its contents. */
  lemma {:induction false} TableWillMatch(tb: Tables, conf: seq<Descr>, m: Memory, ws: Writes, s: nat)
    requires ValidTables(tb) && WillMatch(tb, conf, m, ws) && s < NUM_SECTIONS
    requires !conf[s].isPage && conf[s].mapped
    ensures var conf' := conf[s := conf[s].(isPage := true, second := AllMapped())];
            && WillMatch(tb, conf', m[L1Addr(tb, s) := LinkWord(tb, s)], ws + FillWords(tb, s, 256))
            && UnmapsExactly(conf, conf', [])
  {
    var conf' := conf[s := conf[s].(isPage := true, second := AllMapped())];
    var m1 := m[L1Addr(tb, s) := LinkWord(tb, s)];
    BecomesTable(tb, conf, Pokes(m, ws), s);
    NoPendingL1(tb, conf, ws, s);
    PokesCommute(m, ws, L1Addr(tb, s), LinkWord(tb, s));
    PokesAppend(m1, ws, FillWords(tb, s, 256));
    BufferOkUpdate(tb, conf, ws, s, conf'[s]);
    FillBufferOk(tb, conf', s);
    BufferOkAppend(tb, conf', ws, FillWords(tb, s, 256));
  }

  lemma {:induction false} PageWillMatch(tb: Tables, conf: seq<Descr>, m: Memory, ws: Writes, p: nat)
    requires ValidTables(tb) && WillMatch(tb, conf, m, ws) && p < NUM_PAGES && conf[p / 256].isPage
    ensures WellFormed(PageCleared(conf, p))
    ensures WillMatch(tb, PageCleared(conf, p), m, ws + [PageWrite(tb, p)])
    ensures UnmapsExactly(conf, PageCleared(conf, p), [Page(p)])
  {
    var conf', w := PageCleared(conf, p), [PageWrite(tb, p)];
    PageUnmaps(tb, conf, Pokes(m, ws), p);
    assert (ws + w)[..|ws|] == ws;
    BufferOkUpdate(tb, conf, ws, p / 256, conf'[p / 256]);
    BufferOkAppend(tb, conf', ws, w);
    forall q | 0 <= q < NUM_PAGES ensures Unmapped(conf', q) == (Unmapped(conf, q) || InUnits(q, [Page(p)])) {
      assert InUnit(q, [Page(p)][0]) <==> q == p;
    }
  }

  lemma {:induction false} ClearedFurther(conf: seq<Descr>, p: nat)
    requires WellFormed(conf) && p < NUM_PAGES && conf[p / 256].isPage && conf[p / 256].second[p % 256]
    ensures AllFurther(conf, PageCleared(conf, p)) && PageCleared(conf, p) != conf
  {
    OneFurther(conf, p / 256, ClearedIn(conf[p / 256], p % 256));
  }

  lemma {:induction false} SectionWillMatch(tb: Tables, conf: seq<Descr>, m: Memory, ws: Writes, s: nat)
    requires ValidTables(tb) && WillMatch(tb, conf, m, ws) && s < NUM_SECTIONS
    ensures var conf' := conf[s := conf[s].(isPage := false, mapped := false)];
            && WillMatch(tb, conf', m, ws + [(L1Addr(tb, s), SectionWord(s, false))])
            && UnmapsExactly(conf, conf', [Section(s)])
  {
    var conf' := conf[s := conf[s].(isPage := false, mapped := false)];
    var w := [(L1Addr(tb, s), SectionWord(s, false))];
    SectionUnmaps(tb, conf, Pokes(m, ws), s);
    assert (ws + w)[..|ws|] == ws;
    BufferOkUpdate(tb, conf, ws, s, conf'[s]);
    assert WriteOk(tb, conf', w[0].0);
    BufferOkAppend(tb, conf', ws, w);
    forall q | 0 <= q < NUM_PAGES ensures Unmapped(conf', q) == (Unmapped(conf, q) || InUnits(q, [Section(s)])) {
      assert InUnits(q, [Section(s)]) <==> InUnit(q, [Section(s)][0]);
    }
  }

  lemma {:induction false} UnmapsCompose(a: seq<Descr>, b: seq<Descr>, c: seq<Descr>, us: seq<Unit>, vs: seq<Unit>)
    requires WellFormed(a) && WellFormed(b) && WellFormed(c)
    requires UnmapsExactly(a, b, us) && UnmapsExactly(b, c, vs)
    ensures UnmapsExactly(a, c, us + vs)
  {
    forall q | 0 <= q < NUM_PAGES ensures Unmapped(c, q) == (Unmapped(a, q) || InUnits(q, us + vs)) {
      InUnitsAppend(q, us, vs);
    }
  }

  lemma {:induction false} InUnitsAppend(p: int, us: seq<Unit>, vs: seq<Unit>)
    ensures InUnits(p, us + vs) <==> InUnits(p, us) || InUnits(p, vs)
  {
    if InUnits(p, us) {
      var i :| 0 <= i < |us| && InUnit(p, us[i]);
      assert InUnit(p, (us + vs)[i]);
    }
    if InUnits(p, vs) {
      var i :| 0 <= i < |vs| && InUnit(p, vs[i]);
      assert InUnit(p, (us + vs)[|us| + i]);
    }
  }

  /** Exactly the pages covered by `rs` are unmapped in addition. */
  ghost predicate UnmapsCovered(before: seq<Descr>, after: seq<Descr>, rs: seq<Range>)
    requires WellFormed(before) && WellFormed(after)
  {
    forall q | 0 <= q < NUM_PAGES :: Unmapped(after, q) == (Unmapped(before, q) || Covered(q, rs))
  }

  lemma {:induction false} UnmapsCoveredStep(
    a: seq<Descr>, b: seq<Descr>, c: seq<Descr>, rs: seq<Range>, k: nat, us: seq<Unit>)
    requires WellFormed(a) && WellFormed(b) && WellFormed(c) && k < |rs| && Aligned(rs[k])
    requires UnmapsCovered(a, b, rs[..k]) && UnmapsExactly(b, c, us)
    requires Tiles(us, rs[k].address / PAGE, (rs[k].address + rs[k].width) / PAGE)
    ensures UnmapsCovered(a, c, rs[..k + 1])
  {
  }

  /** Exactly the pages that reach the table from `watch` are unmapped in addition. */
  ghost predicate UnmapsReached(before: seq<Descr>, after: seq<Descr>, watch: seq<Range>)
    requires WellFormed(before) && WellFormed(after)
  {
    forall q | 0 <= q < NUM_PAGES :: Unmapped(after, q) == (Unmapped(before, q) || Reached(q, watch))
  }

  /** Page `p` is watched, but only by ranges that are lost. */
  ghost predicate Lost(p: int, watch: seq<Range>) {
    0 <= p < NUM_PAGES && Watched(p, watch) && !Reached(p, watch)
  }

  /** Unmapping the pages that reach the table re-establishes correctness.  The state is
      exact if and only if every lost page was unmapped before; if it was exact before,
      that is, if every lost page was watched before. */
  lemma {:induction false} AddIsCorrect(
    tb: Tables, before: seq<Descr>, after: seq<Descr>, m: Memory, watchBefore: seq<Range>, watch: seq<Range>)
    requires WellFormed(before) && Matches(tb, after, m) && UnmapsReached(before, after, watch)
    requires forall p | 0 <= p < NUM_PAGES && Unmapped(before, p) :: Watched(p, watchBefore)
    requires watchBefore <= watch && AllValid(watch)
    ensures Correct(tb, after, m, watch)
    ensures Exact(after, watch) <==> forall p | Lost(p, watch) :: Unmapped(before, p)
    ensures Exact(before, watchBefore) ==>
              (Exact(after, watch) <==> forall p | Lost(p, watch) :: Watched(p, watchBefore))
  {
    LostIffAll(watch);
    forall p | 0 <= p < NUM_PAGES && Unmapped(after, p) ensures Watched(p, watch) {
      if Unmapped(before, p) {
        var i :| 0 <= i < |watchBefore| && Overlaps(p, watchBefore[i]);
        assert Overlaps(p, watch[i]);
      }
    }
    if Exact(after, watch) {
      forall p | Lost(p, watch) ensures Unmapped(before, p) {
        assert Unmapped(after, p);
      }
    }
    if forall p | Lost(p, watch) :: Unmapped(before, p) {
      forall p | 0 <= p < NUM_PAGES && Watched(p, watch) ensures Unmapped(after, p) {
        assert Lost(p, watch) || Reached(p, watch);
      }
    }
  }

  /** Page `p` reached the table in one of the updates, each given by all its requests. */
  ghost predicate ReachedOnce(p: int, updates: seq<seq<Range>>) {
    exists k | 0 <= k < |updates| :: Reached(p, updates[k])
  }

  /** Exactly the pages that reached the table in some update are unmapped. */
  ghost predicate Follows(conf: seq<Descr>, updates: seq<seq<Range>>)
    requires WellFormed(conf)
  {
    forall p | 0 <= p < NUM_PAGES :: Unmapped(conf, p) <==> ReachedOnce(p, updates)
  }

  lemma {:induction false} FollowsStep(
    before: seq<Descr>, after: seq<Descr>, updates: seq<seq<Range>>, watch: seq<Range>)
    requires WellFormed(before) && WellFormed(after) && Follows(before, updates) && UnmapsReached(before, after, watch)
    ensures Follows(after, updates + [watch])
  {
    var more := updates + [watch];
    forall p | 0 <= p < NUM_PAGES ensures Unmapped(after, p) <==> ReachedOnce(p, more) {
      if ReachedOnce(p, updates) {
        var k :| 0 <= k < |updates| && Reached(p, updates[k]);
        assert Reached(p, more[k]);
      }
      if Reached(p, watch) { assert Reached(p, more[|updates|]); }
    }
  }

  /** The two halves of memory: the upper one is lost.  So an update with the lower half
      after the upper one is exact, and an update with the upper half after the lower
      one is not. */
  lemma {:induction false} HalvesLost(rs: seq<Range>, p: int)
    requires rs == [UPPER, LOWER] || rs == [LOWER, UPPER]
    ensures AllValid(rs) && EverythingWatched(rs)
    ensures Lost(p, rs) <==> NUM_PAGES / 2 <= p < NUM_PAGES
    ensures Lost(p, rs) ==> Watched(p, [UPPER]) && !Watched(p, [LOWER])
  {
    forall q ensures Overlaps(q, LOWER) <==> 0 <= q < NUM_PAGES / 2 { }
    forall q ensures Overlaps(q, UPPER) <==> NUM_PAGES / 2 <= q < NUM_PAGES { }
    assert UPPER in rs && LOWER in rs;
    forall q | 0 <= q < NUM_PAGES ensures Watched(q, rs) { WatchedIn(q, rs); }
    forall g | 0 <= g < NUM_PAGES / 2 ensures WatchedEarly(g, rs) { }
    assert Dropped(UPPER, rs) && !Dropped(LOWER, rs);
    assert [UPPER][0] == UPPER;
  }

  const LOWER: Range := Range(0, 0x8000_0000)

  const UPPER: Range := Range(0x8000_0000, 0x8000_0000)

  /** A request for all of memory but its last byte: aligned, it covers no page. */
  lemma {:induction false} WholeSpaceLost()
    ensures var r := Range(0, 0xffff_ffff);
            ValidRange(r) && EverythingWatched([r]) && AlignRange(r) == Range(0, 0)
  {
    var r := Range(0, 0xffff_ffff);
    forall p | 0 <= p < NUM_PAGES ensures Watched(p, [r]) {
      assert Overlaps(p, [r][0]);
    }
  }

  class MmuWatch {
    const tb: Tables
    const conf: array<Descr>
    var watch: seq<Range>
    var addWaiting: seq<Range>
    var mem: Memory

    /** The requests of every update since the last reboot. */
    ghost var updates: seq<seq<Range>>

    ghost predicate Valid()
      reads this, conf
    {
      && conf.Length == NUM_SECTIONS && ValidTables(tb)
      && Correct(tb, conf[..], mem, watch) && Follows(conf[..], updates)
      && (forall i | 0 <= i < |watch| :: ValidRange(watch[i]))
      && (forall i | 0 <= i < |addWaiting| :: ValidRange(addWaiting[i]))
    }

    constructor (tb: Tables, bootMem: Memory)
      requires ValidTables(tb) && IdentityTable(tb, bootMem)
      ensures Valid() && fresh(conf) && watch == [] && addWaiting == [] && updates == []
      ensures this.tb == tb && mem == bootMem
    {
      this.tb, watch, addWaiting, mem, updates := tb, [], [], bootMem, [];
      conf := new Descr[NUM_SECTIONS](_ => MAPPED_SECTION);
    }

    /** Resets the shadow; the boot code sets up the identity table again. */
    method Reboot(bootMem: Memory)
      requires conf.Length == NUM_SECTIONS && ValidTables(tb) && IdentityTable(tb, bootMem)
      modifies this, conf
      ensures Valid() && watch == [] && addWaiting == [] && mem == bootMem && updates == []
      ensures forall p | 0 <= p < NUM_PAGES :: !Unmapped(conf[..], p)
    {
      watch, addWaiting, mem, updates := [], [], bootMem, [];
      for i := 0 to NUM_SECTIONS
        invariant watch == [] && addWaiting == [] && mem == bootMem && updates == []
        invariant forall s | 0 <= s < i :: !conf[s].isPage && conf[s].mapped
      {
        if conf[i].isPage {
          conf[i] := conf[i].(isPage := false, second := []);
        }
        conf[i] := conf[i].(mapped := true);
      }
      assert forall s | 0 <= s < NUM_SECTIONS :: conf[..][s] == conf[s];
    }

    /** A watchpoint request that is served by the MMU. */
    method RequestWatch(r: Range)
      requires Valid() && ValidRange(r)
      modifies `addWaiting
      ensures Valid() && addWaiting == old(addWaiting) + [r]
    {
      addWaiting := addWaiting + [r];
    }

    /** One transfer of consecutive words to the target. */
    method WriteToMemory(start: nat, data: seq<nat>)
      requires 0 < |data| <= CHUNK
      modifies `mem
      ensures mem == Pokes(old(mem), Block(start, data))
    {
      for k := 0 to |data|
        invariant mem == Pokes(old(mem), Block(start, data)[..k])
      {
        assert Block(start, data)[..k + 1][..k] == Block(start, data)[..k];
        mem := mem[start + 4 * k := data[k]];
      }
      assert Block(start, data)[..|data|] == Block(start, data);
    }

    /** Runs of consecutive addresses, at most 256 words each, are transferred at
        once; the effect is that of the single writes in order. */
    method ExecuteBufferedWrites(buf: Writes)
      requires forall i | 0 <= i < |buf| :: 0 < buf[i].0 && buf[i].0 + 4 <= TWO_32
      modifies `mem
      ensures mem == Pokes(old(mem), buf)
    {
      if buf == [] {
        return;
      }
      var start: nat, data: seq<nat>, i: nat := buf[0].0, [], 0;
      ghost var done := 0;
      CollectedNone(buf, 0, start);
      assert buf[..0] == [];
      while i < |buf|
        invariant Collected(buf, done, i, start, data) && |data| < CHUNK
        invariant mem == Pokes(old(mem), buf[..done])
        invariant i == |buf| ==> done == i
      {
        CollectedOne(buf, done, i, start, data);
        data := data + [buf[i].1];
        if i + 1 == |buf| || U32(buf[i].0 + 4) != buf[i + 1].0 || |data| == CHUNK {
          WriteToMemory(start, data);
          TransferredMore(old(mem), buf, done, i + 1);
          data, done := [], i + 1;
          if i + 1 < |buf| {
            start := buf[i + 1].0;
          }
          CollectedNone(buf, i + 1, start);
        }
        i := i + 1;
      }
      assert buf[..|buf|] == buf;
    }

    /** Links a second-level table with all pages mapped in place of a section. */
    method SplitSection(index: nat, buf0: Writes) returns (buf: Writes)
      requires conf.Length == NUM_SECTIONS && index < NUM_PAGES
      modifies `mem, conf
      ensures var s := index / 256;
              && conf[..] == old(conf[..])[s := old(conf[s]).(isPage := true, second := AllMapped())]
              && mem == old(mem)[L1Addr(tb, s) := LinkWord(tb, s)]
              && buf == buf0 + FillWords(tb, s, 256)
    {
      buf := buf0;
      ghost var s := index / 256;
      var tableAddress := tb.l2 + (index - index % 256) * 4;
      mem := mem[tb.l1 + index / 256 * 4 := tableAddress + 0x1e9];
      var second: seq<bool> := [];
      for i := 0 to 256
        invariant |second| == i && (forall k | 0 <= k < i :: second[k])
        invariant buf == buf0 + FillWords(tb, s, i)
        invariant conf[..] == old(conf[..]) && mem == old(mem)[L1Addr(tb, s) := LinkWord(tb, s)]
      {
        second := second + [true];
        buf := buf + [(tableAddress + i * 4, (index - index % 256 + i) * PAGE + 0x32)];
        assert FillWords(tb, s, i + 1) ==
               FillWords(tb, s, i) + [(L2Addr(tb, s * 256 + i), PageWord(s * 256 + i, true))];
      }
      assert second == AllMapped();
      conf[index / 256] := conf[index / 256].(isPage := true, second := second);
    }

    /** Rewrites the descriptor of a page of a table. */
    method ClearPage(index: nat, buf0: Writes) returns (buf: Writes)
      requires conf.Length == NUM_SECTIONS && WellFormed(conf[..]) && index < NUM_PAGES && conf[index / 256].isPage
      modifies conf
      ensures conf[..] == PageCleared(old(conf[..]), index) && buf == buf0 + [PageWrite(tb, index)]
    {
      ghost var c := conf[..];
      assert conf[index / 256] == c[index / 256];
      buf := buf0 + [(tb.l2 + index * 4, index * PAGE + 0x30)];
      conf[index / 256] := conf[index / 256].(second := conf[index / 256].second[index % 256 := false]);
    }

    /** Unmaps a page of a section that is already a table of pages. */
    method UnmapInTable(index: nat, buf0: Writes) returns (buf: Writes, invalidate: bool)
      requires ValidTables(tb) && conf.Length == NUM_SECTIONS && index < NUM_PAGES
      requires WillMatch(tb, conf[..], mem, buf0) && conf[index / 256].isPage
      modifies conf
      ensures WillMatch(tb, conf[..], mem, buf)
      ensures UnmapsExactly(old(conf[..]), conf[..], [Page(index)])
      ensures !invalidate ==> buf == buf0
      ensures AllFurther(old(conf[..]), conf[..]) && (invalidate <==> conf[..] != old(conf[..]))
    {
      buf, invalidate := buf0, false;
      ghost var c := conf[..];
      assert conf[index / 256] == c[index / 256];
      if conf[index / 256].second[index % 256] {
        PageWillMatch(tb, c, mem, buf, index);
        ClearedFurther(c, index);
        buf := ClearPage(index, buf);
        invalidate := true;
      } else {
        AlreadyUnmapped(c, Page(index));
      }
    }

    /** A page candidate: its section is split into pages first if necessary. */
    method UnmapPage(index: nat, buf0: Writes) returns (buf: Writes, invalidate: bool)
      requires ValidTables(tb) && conf.Length == NUM_SECTIONS && index < NUM_PAGES
      requires WillMatch(tb, conf[..], mem, buf0)
      modifies `mem, conf
      ensures WillMatch(tb, conf[..], mem, buf)
      ensures UnmapsExactly(old(conf[..]), conf[..], [Page(index)])
      ensures !invalidate ==> buf == buf0 && mem == old(mem)
      ensures AllFurther(old(conf[..]), conf[..]) && (invalidate <==> conf[..] != old(conf[..]))
    {
      buf, invalidate := buf0, false;
      ghost var c0 := conf[..];
      assert conf[index / 256] == c0[index / 256];
      if !conf[index / 256].isPage {
        if !conf[index / 256].mapped {
          AlreadyUnmapped(c0, Page(index));
          return;
        }
        TableWillMatch(tb, c0, mem, buf0, index / 256);
        OneFurther(c0, index / 256, c0[index / 256].(isPage := true, second := AllMapped()));
        buf := SplitSection(index, buf);
        invalidate := true;
      }
      ghost var c1 := conf[..];
      assert UnmapsExactly(c0, c1, []) && AllFurther(c0, c1) && (invalidate <==> c1 != c0);
      var changed;
      buf, changed := UnmapInTable(index, buf);
      invalidate := invalidate || changed;
      UnmapsCompose(c0, c1, conf[..], [], [Page(index)]);
      assert [] + [Page(index)] == [Page(index)];
      AllFurtherTrans(c0, c1, conf[..]);
    }

    /** Rewrites the descriptor of a section. */
    method ClearSection(index: nat, buf0: Writes) returns (buf: Writes)
      requires conf.Length == NUM_SECTIONS && index < NUM_SECTIONS
      modifies conf
      ensures conf[..] == old(conf[..])[index := old(conf[index]).(isPage := false, mapped := false)]
      ensures buf == buf0 + [(L1Addr(tb, index), SectionWord(index, false))]
    {
      buf := buf0 + [(tb.l1 + index * 4, index * SECTION + 0xc00)];
      conf[index] := conf[index].(isPage := false, mapped := false);
    }

    /** A section candidate: whatever its pages were, the section is unmapped. */
    method UnmapSection(index: nat, buf0: Writes) returns (buf: Writes, invalidate: bool)
      requires ValidTables(tb) && conf.Length == NUM_SECTIONS && index < NUM_SECTIONS
      requires WillMatch(tb, conf[..], mem, buf0)
      modifies conf
      ensures WillMatch(tb, conf[..], mem, buf)
      ensures UnmapsExactly(old(conf[..]), conf[..], [Section(index)])
      ensures conf[..] == old(conf[..])[index := old(conf[index]).(isPage := false, mapped := false)]
      ensures !invalidate ==> buf == buf0
      ensures AllFurther(old(conf[..]), conf[..]) && (invalidate <==> conf[..] != old(conf[..]))
    {
      buf, invalidate := buf0, false;
      ghost var c0 := conf[..];
      assert conf[index] == c0[index];
      if conf[index].isPage || conf[index].mapped {
        SectionWillMatch(tb, c0, mem, buf0, index);
        OneFurther(c0, index, c0[index].(isPage := false, mapped := false));
        buf := ClearSection(index, buf);
        invalidate := true;
      } else {
        assert c0[index := c0[index].(isPage := false, mapped := false)] == c0;
        AlreadyUnmapped(c0, Section(index));
      }
    }

    /** Nothing needs to be done for a unit that is unmapped already. */
    lemma {:induction false} AlreadyUnmapped(c: seq<Descr>, u: Unit)
      requires WellFormed(c) && ValidUnit(u)
      ensures (forall q | 0 <= q < NUM_PAGES && InUnit(q, u) :: Unmapped(c, q)) ==> UnmapsExactly(c, c, [u])
    {
    }

    method UnmapUnits(us: seq<Unit>, buf0: Writes) returns (buf: Writes, invalidate: bool)
      requires ValidTables(tb) && conf.Length == NUM_SECTIONS
      requires WillMatch(tb, conf[..], mem, buf0) && forall i | 0 <= i < |us| :: ValidUnit(us[i])
      modifies `mem, conf
      ensures WillMatch(tb, conf[..], mem, buf)
      ensures UnmapsExactly(old(conf[..]), conf[..], us)
      ensures !invalidate ==> buf == buf0 && mem == old(mem)
      ensures AllFurther(old(conf[..]), conf[..]) && (invalidate <==> conf[..] != old(conf[..]))
    {
      buf, invalidate := buf0, false;
      for k := 0 to |us|
        invariant WillMatch(tb, conf[..], mem, buf)
        invariant UnmapsExactly(old(conf[..]), conf[..], us[..k])
        invariant !invalidate ==> buf == buf0 && mem == old(mem)
        invariant AllFurther(old(conf[..]), conf[..]) && (invalidate <==> conf[..] != old(conf[..]))
      {
        ghost var c := conf[..];
        var changed;
        if us[k].Page? {
          buf, changed := UnmapPage(us[k].index, buf);
        } else {
          buf, changed := UnmapSection(us[k].index, buf);
        }
        UnmapsCompose(old(conf[..]), c, conf[..], us[..k], [us[k]]);
        assert us[..k + 1] == us[..k] + [us[k]];
        AllFurtherTrans(old(conf[..]), c, conf[..]);
        invalidate := invalidate || changed;
      }
      assert us[..|us|] == us;
    }

    /** Unmaps all merged ranges, buffering the table writes. */
    method UnmapRanges(rs: seq<Range>) returns (buf: Writes, invalidate: bool)
      requires ValidTables(tb) && conf.Length == NUM_SECTIONS
      requires Matches(tb, conf[..], mem) && AllAligned(rs)
      modifies `mem, conf
      ensures WillMatch(tb, conf[..], mem, buf)
      ensures UnmapsCovered(old(conf[..]), conf[..], rs)
      ensures !invalidate ==> buf == [] && mem == old(mem)
      ensures AllFurther(old(conf[..]), conf[..]) && (invalidate <==> conf[..] != old(conf[..]))
    {
      buf, invalidate := [], false;
      for k := 0 to |rs|
        invariant WillMatch(tb, conf[..], mem, buf)
        invariant UnmapsCovered(old(conf[..]), conf[..], rs[..k])
        invariant !invalidate ==> buf == [] && mem == old(mem)
        invariant AllFurther(old(conf[..]), conf[..]) && (invalidate <==> conf[..] != old(conf[..]))
      {
        ghost var c := conf[..];
        var units := DivideIntoPagesAndSections(rs[k]);
        var changed;
        buf, changed := UnmapUnits(units, buf);
        UnmapsCoveredStep(old(conf[..]), c, conf[..], rs, k, units);
        AllFurtherTrans(old(conf[..]), c, conf[..]);
        invalidate := invalidate || changed;
      }
      assert rs[..|rs|] == rs;
    }

    /** Takes over the waiting requests; a request that is already watched ends the
        program. */
    method TakeWaiting() returns (fatal: bool)
      requires forall i | 0 <= i < |addWaiting| :: ValidRange(addWaiting[i])
      requires forall i | 0 <= i < |watch| :: ValidRange(watch[i])
      modifies `watch, `addWaiting
      ensures fatal <==> exists i | 0 <= i < |old(addWaiting)| ::
                           old(addWaiting)[i] in old(watch) + old(addWaiting)[..i]
      ensures !fatal ==> watch == old(watch) + old(addWaiting) && addWaiting == []
    {
      fatal := false;
      for i := 0 to |addWaiting|
        invariant addWaiting == old(addWaiting) && watch == old(watch) + addWaiting[..i]
        invariant forall k | 0 <= k < i :: addWaiting[k] !in old(watch) + addWaiting[..k]
      {
        if addWaiting[i] in watch {
          fatal := true;
          return;
        }
        watch := watch + [addWaiting[i]];
      }
      addWaiting := [];
    }

    /** One update with the requests that were waiting.  The TLB is to be invalidated
        exactly if the shadow changed; otherwise nothing is written. */
    method UpdateMmuWatchAdd() returns (fatal: bool, invalidate: bool)
      requires Valid()
      modifies this, conf
      ensures fatal <==> exists i | 0 <= i < |old(addWaiting)| ::
                           old(addWaiting)[i] in old(watch) + old(addWaiting)[..i]
      ensures !fatal ==> Valid() && watch == old(watch) + old(addWaiting) && addWaiting == []
      ensures !fatal && !invalidate ==> mem == old(mem)
      ensures !fatal ==> AllFurther(old(conf[..]), conf[..]) && (invalidate <==> conf[..] != old(conf[..]))
      ensures !fatal ==> UnmapsReached(old(conf[..]), conf[..], watch) && updates == old(updates) + [watch]
      ensures !fatal ==> (Exact(conf[..], watch) <==> forall p | Lost(p, watch) :: ReachedOnce(p, old(updates)))
      ensures !fatal && Exact(old(conf[..]), old(watch)) ==>
                (Exact(conf[..], watch) <==> forall p | Lost(p, watch) :: Watched(p, old(watch)))
      ensures !fatal && (forall p | 0 <= p < NUM_PAGES :: !Unmapped(old(conf[..]), p)) ==>
                (Exact(conf[..], watch) <==> !EverythingWatched(watch))
    {
      invalidate := false;
      fatal := TakeWaiting();
      if fatal {
        return;
      }
      var aligned := ForcePageAlignment(watch);
      AlignReaches(watch, aligned);
      var ranges := MergeMemRanges(aligned);
      var buf;
      buf, invalidate := UnmapRanges(ranges);
      CoveredIsReached(old(conf[..]), conf[..], ranges, watch);
      BufferAddresses(conf[..], buf);
      ExecuteBufferedWrites(buf);
      AddIsCorrect(tb, old(conf[..]), conf[..], mem, old(watch), watch);
      FollowsStep(old(conf[..]), conf[..], updates, watch);
      updates := updates + [watch];
      LostIffAll(watch);
    }

    lemma {:induction false} CoveredIsReached(before: seq<Descr>, after: seq<Descr>, rs: seq<Range>, watch: seq<Range>)
      requires WellFormed(before) && WellFormed(after) && UnmapsCovered(before, after, rs)
      requires forall p :: Covered(p, rs) <==> Reached(p, watch)
      ensures UnmapsReached(before, after, watch)
    {
    }

    lemma {:induction false} BufferAddresses(c: seq<Descr>, buf: Writes)
      requires ValidTables(tb) && WellFormed(c) && BufferOk(tb, c, buf)
      ensures forall i | 0 <= i < |buf| :: 0 < buf[i].0 && buf[i].0 + 4 <= TWO_32
    {
    }
  }
}
