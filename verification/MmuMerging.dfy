/** Sorting and merging watched ranges, and what merging loses.  The width of a union
    that is the whole address space wraps to 0; the range at the end is lost then. */
module MmuMerging {
  import opened Words
  import opened MmuRanges

  // ---------------------------------------------------------------------
  // What reaches the table
  // ---------------------------------------------------------------------

  const LAST_PAGE: nat := NUM_PAGES - 1

  /** Page `p` is watched by a range that leaves out the last page. */
  ghost predicate WatchedEarly(p: int, rs: seq<Range>) {
    exists r | r in rs :: Overlaps(p, r) && !Overlaps(LAST_PAGE, r)
  }

  /** A range up to the last page is lost if the ranges that leave that page out watch
      everything below it. */
  ghost predicate Dropped(r: Range, rs: seq<Range>) {
    Overlaps(LAST_PAGE, r) && forall g | 0 <= g < r.address / PAGE :: WatchedEarly(g, rs)
  }

  /** Page `p` is watched by a range that is not lost. */
  ghost predicate Reached(p: int, rs: seq<Range>) {
    exists r | r in rs :: Overlaps(p, r) && !Dropped(r, rs)
  }

  lemma {:induction false} WatchedIn(p: int, rs: seq<Range>)
    ensures Watched(p, rs) <==> exists r | r in rs :: Overlaps(p, r)
  {
    if Watched(p, rs) {
      var i :| 0 <= i < |rs| && Overlaps(p, rs[i]);
      assert rs[i] in rs;
    }
  }

  lemma {:induction false} DroppedWatchesAll(r: Range, rs: seq<Range>)
    requires ValidRange(r) && r in rs && Dropped(r, rs)
    ensures EverythingWatched(rs)
  {
    forall p | 0 <= p < NUM_PAGES ensures Watched(p, rs) {
      OverlapsByCount(p, r);
      OverlapsByCount(LAST_PAGE, r);
      WatchedIn(p, rs);
      if p < r.address / PAGE { assert WatchedEarly(p, rs); }
    }
  }

  /** From page `p` on there is a first page not watched early. */
  lemma {:induction false} FirstGap(rs: seq<Range>, p: nat) returns (g: nat)
    requires p <= LAST_PAGE && forall q | 0 <= q < p :: WatchedEarly(q, rs)
    ensures g <= LAST_PAGE && !WatchedEarly(g, rs) && forall q | 0 <= q < g :: WatchedEarly(q, rs)
    decreases LAST_PAGE - p
  {
    if WatchedEarly(p, rs) && p < LAST_PAGE {
      g := FirstGap(rs, p + 1);
    } else {
      g := p;
    }
  }

  /** Pages are lost if and only if everything is watched. */
  lemma {:induction false} LostIffAll(rs: seq<Range>)
    requires AllValid(rs)
    ensures forall p | Reached(p, rs) :: Watched(p, rs)
    ensures !EverythingWatched(rs) ==> forall p | Watched(p, rs) :: Reached(p, rs)
    ensures EverythingWatched(rs) ==> exists p | 0 <= p < NUM_PAGES :: !Reached(p, rs)
  {
    forall p | Reached(p, rs) ensures Watched(p, rs) { WatchedIn(p, rs); }
    if !EverythingWatched(rs) {
      forall p | Watched(p, rs) ensures Reached(p, rs) {
        WatchedIn(p, rs);
        var r :| r in rs && Overlaps(p, r);
        if Dropped(r, rs) { DroppedWatchesAll(r, rs); }
      }
    } else {
      var g := FirstGap(rs, 0);
      forall r | r in rs && Overlaps(g, r) ensures Dropped(r, rs) { OverlapsByCount(g, r); }
      assert !Reached(g, rs);
    }
  }

  // ---------------------------------------------------------------------
  // Alignment
  // ---------------------------------------------------------------------

  /** Aligning keeps the pages of a range, except that a request for the whole address
      space is lost. */
  lemma {:induction false} AlignKeeps(r: Range, p: int)
    requires ValidRange(r)
    ensures Aligned(AlignRange(r)) && AlignRange(r).address / PAGE == r.address / PAGE
    ensures Overlaps(0, r) && Overlaps(LAST_PAGE, r) ==> r.address / PAGE == 0 && !Overlaps(p, AlignRange(r))
    ensures !(Overlaps(0, r) && Overlaps(LAST_PAGE, r)) ==> (Overlaps(p, AlignRange(r)) <==> Overlaps(p, r))
  {
    AlignShape(r);
    OverlapsByCount(p, r);
    OverlapsByCount(0, r);
    OverlapsByCount(LAST_PAGE, r);
    AlignExact(r);
    AlignedOverlaps(p, AlignRange(r));
  }

  lemma {:induction false} AlignKeepsEarly(rs: seq<Range>, out: seq<Range>, p: int)
    requires AllValid(rs) && AlignedTo(rs, out)
    ensures WatchedEarly(p, out) <==> WatchedEarly(p, rs)
  {
    if WatchedEarly(p, rs) {
      var i :| 0 <= i < |rs| && Overlaps(p, rs[i]) && !Overlaps(LAST_PAGE, rs[i]);
      AlignKeeps(rs[i], p);
      AlignKeeps(rs[i], LAST_PAGE);
      assert out[i] in out;
    }
    if WatchedEarly(p, out) {
      var i :| 0 <= i < |out| && Overlaps(p, out[i]) && !Overlaps(LAST_PAGE, out[i]);
      AlignKeeps(rs[i], p);
      AlignKeeps(rs[i], LAST_PAGE);
      assert rs[i] in rs;
    }
  }

  lemma {:induction false} AlignKeepsDropped(rs: seq<Range>, out: seq<Range>, i: nat, p: int)
    requires AllValid(rs) && AlignedTo(rs, out) && i < |rs|
    ensures Overlaps(p, out[i]) && !Dropped(out[i], out) <==> Overlaps(p, rs[i]) && !Dropped(rs[i], rs)
  {
    AlignKeeps(rs[i], p);
    AlignKeeps(rs[i], LAST_PAGE);
    forall g ensures WatchedEarly(g, out) <==> WatchedEarly(g, rs) { AlignKeepsEarly(rs, out, g); }
  }

  /** Aligning does not change which pages reach the table. */
  lemma {:induction false} AlignReaches(rs: seq<Range>, out: seq<Range>)
    requires AllValid(rs) && AlignedTo(rs, out)
    ensures AllAligned(out)
    ensures forall p :: Reached(p, out) <==> Reached(p, rs)
  {
    forall i | 0 <= i < |out| ensures Aligned(out[i]) { AlignKeeps(rs[i], 0); }
    forall p ensures Reached(p, out) <==> Reached(p, rs) {
      forall i | 0 <= i < |rs|
        ensures Overlaps(p, out[i]) && !Dropped(out[i], out) <==> Overlaps(p, rs[i]) && !Dropped(rs[i], rs)
      {
        AlignKeepsDropped(rs, out, i, p);
      }
      if Reached(p, rs) {
        var i :| 0 <= i < |rs| && Overlaps(p, rs[i]) && !Dropped(rs[i], rs);
        assert out[i] in out;
      }
      if Reached(p, out) {
        var i :| 0 <= i < |out| && Overlaps(p, out[i]) && !Dropped(out[i], out);
        assert rs[i] in rs;
      }
    }
  }

  // ---------------------------------------------------------------------
  // Sorting
  // ---------------------------------------------------------------------

  ghost predicate Sorted(rs: seq<Range>) {
    forall i, j | 0 <= i < j < |rs| :: rs[i].address <= rs[j].address
  }

  /** Some arrangement sorted by address, as the library sort promises. */
  method SortByAddress(rs: seq<Range>) returns (out: seq<Range>)
    ensures Sorted(out) && multiset(out) == multiset(rs)
  {
    out := [];
    for n := 0 to |rs|
      invariant Sorted(out) && multiset(out) == multiset(rs[..n])
    {
      assert rs[..n + 1] == rs[..n] + [rs[n]];
      out := Insert(out, rs[n]);
    }
    assert rs[..|rs|] == rs;
  }

  method Insert(rs: seq<Range>, r: Range) returns (out: seq<Range>)
    requires Sorted(rs)
    ensures Sorted(out) && multiset(out) == multiset(rs) + multiset{r}
  {
    var k := |rs|;
    while k > 0 && r.address < rs[k - 1].address
      invariant 0 <= k <= |rs| && forall j | k <= j < |rs| :: r.address < rs[j].address
    {
      k := k - 1;
    }
    out := InsertAt(rs, k, r);
  }

  function InsertAt(rs: seq<Range>, k: nat, r: Range): (out: seq<Range>)
    requires Sorted(rs) && k <= |rs|
    requires k > 0 ==> rs[k - 1].address <= r.address
    requires forall j | k <= j < |rs| :: r.address < rs[j].address
    ensures Sorted(out)
    ensures multiset(out) == multiset(rs) + multiset{r}
  {
    InsertedSorted(rs, k, r);
    assert rs == rs[..k] + rs[k..];
    rs[..k] + ([r] + rs[k..])
  }

  lemma {:induction false} InsertedSorted(rs: seq<Range>, k: nat, r: Range)
    requires Sorted(rs) && k <= |rs|
    requires k > 0 ==> rs[k - 1].address <= r.address
    requires forall j | k <= j < |rs| :: r.address < rs[j].address
    ensures Sorted(rs[..k] + ([r] + rs[k..]))
  {
  }

  /** Which pages reach the table does not depend on the order. */
  lemma {:induction false} PermutationReaches(a: seq<Range>, b: seq<Range>)
    requires multiset(a) == multiset(b)
    ensures forall r :: r in a <==> r in b
    ensures forall p :: Reached(p, a) <==> Reached(p, b)
  {
    assert forall r :: r in multiset(a) <==> r in a;
    assert forall r :: r in multiset(b) <==> r in b;
    assert forall p :: WatchedEarly(p, a) <==> WatchedEarly(p, b);
    assert forall r :: Dropped(r, a) <==> Dropped(r, b);
  }

  // ---------------------------------------------------------------------
  // Merging
  // ---------------------------------------------------------------------

  /** The merge of two neighbours, with the wrap-around of the source. */
  function Joined(a: Range, b: Range): Range {
    var additive := U32(U32(b.address - a.address) + b.width);
    if additive > a.width then Range(a.address, additive) else a
  }

  predicate Touches(a: Range, b: Range) {
    U32(a.address + a.width) >= b.address
  }

  /** The union of two touching ranges, unless it is the whole address space: then the
      second range, which ends it, is lost.  The first never ends it. */
  lemma {:induction false} JoinedExact(a: Range, b: Range, p: int)
    requires Aligned(a) && Aligned(b) && a.address <= b.address && Touches(a, b)
    ensures Aligned(Joined(a, b)) && Joined(a, b).address == a.address && !Overlaps(LAST_PAGE, a)
    ensures if a.address == 0 && Overlaps(LAST_PAGE, b)
            then Joined(a, b) == a && (0 <= p * PAGE < b.address ==> Overlaps(p, a))
            else Overlaps(p, Joined(a, b)) <==> Overlaps(p, a) || Overlaps(p, b)
  {
    AlignedOverlaps(p, a);
    AlignedOverlaps(p, b);
    AlignedOverlaps(p, Joined(a, b));
    AlignedOverlaps(LAST_PAGE, a);
    AlignedOverlaps(LAST_PAGE, b);
  }

  /** `out` is `rs` with the ranges at `i` and `i + 1` joined. */
  ghost predicate JoinedAt(rs: seq<Range>, i: nat, out: seq<Range>) {
    i + 1 < |rs| && out == rs[..i] + [Joined(rs[i], rs[i + 1])] + rs[i + 2..]
  }

  lemma {:induction false} JoinedIn(rs: seq<Range>, i: nat, out: seq<Range>, r: Range)
    requires JoinedAt(rs, i, out)
    ensures Joined(rs[i], rs[i + 1]) in out
    ensures r in out ==> r == Joined(rs[i], rs[i + 1]) || r in rs
    ensures r in rs ==> r == rs[i] || r == rs[i + 1] || r in out
  {
    assert out[i] == Joined(rs[i], rs[i + 1]);
    if r in rs {
      var k :| 0 <= k < |rs| && rs[k] == r;
      if k < i { assert out[k] == r; } else if k > i + 1 { assert out[k - 1] == r; }
    }
  }

  /** Joining at the start of memory: early pages stay watched, and a range that ends
      memory is lost already. */
  lemma {:induction false} JoinFirstEarly(rs: seq<Range>, out: seq<Range>, p: int)
    requires AllAligned(rs) && JoinedAt(rs, 0, out)
    requires rs[0].address == 0 && Touches(rs[0], rs[1])
    ensures WatchedEarly(p, out) <==> WatchedEarly(p, rs)
  {
    var a, b := rs[0], rs[1];
    JoinedExact(a, b, p);
    JoinedExact(a, b, LAST_PAGE);
    if WatchedEarly(p, out) {
      var r :| r in out && Overlaps(p, r) && !Overlaps(LAST_PAGE, r);
      JoinedIn(rs, 0, out, r);
      assert a in rs && b in rs;
    }
    if WatchedEarly(p, rs) {
      var r :| r in rs && Overlaps(p, r) && !Overlaps(LAST_PAGE, r);
      JoinedIn(rs, 0, out, r);
    }
  }

  lemma {:induction false} JoinFirstReaches(rs: seq<Range>, out: seq<Range>)
    requires AllAligned(rs) && JoinedAt(rs, 0, out)
    requires rs[0].address == 0 && Touches(rs[0], rs[1])
    ensures forall p :: Reached(p, out) <==> Reached(p, rs)
  {
    var a, b := rs[0], rs[1];
    forall p ensures WatchedEarly(p, out) <==> WatchedEarly(p, rs) { JoinFirstEarly(rs, out, p); }
    assert forall r :: Dropped(r, out) <==> Dropped(r, rs);
    if Overlaps(LAST_PAGE, b) {
      forall g | 0 <= g < b.address / PAGE ensures WatchedEarly(g, rs) {
        JoinedExact(a, b, g);
        assert a in rs;
      }
      assert Dropped(b, rs);
    }
    forall p ensures Reached(p, out) <==> Reached(p, rs) {
      JoinedExact(a, b, p);
      JoinedExact(a, b, LAST_PAGE);
      if Reached(p, out) {
        var r :| r in out && Overlaps(p, r) && !Dropped(r, out);
        JoinedIn(rs, 0, out, r);
        assert a in rs && b in rs;
      }
      if Reached(p, rs) {
        var r :| r in rs && Overlaps(p, r) && !Dropped(r, rs);
        JoinedIn(rs, 0, out, r);
      }
    }
  }

  /** Page `q` is not watched and lies below the ranges from index `n` on and below all
      that end memory. */
  ghost predicate Gap(rs: seq<Range>, q: int, n: nat) {
    && 0 <= q && !Watched(q, rs)
    && forall k | 0 <= k < |rs| && (n <= k || Overlaps(LAST_PAGE, rs[k])) :: q < rs[k].address / PAGE
  }

  /** Below such a page nothing is lost. */
  lemma {:induction false} GapReaches(rs: seq<Range>, q: int, n: nat)
    requires Gap(rs, q, n)
    ensures forall p :: Reached(p, rs) <==> Watched(p, rs)
  {
    forall r | r in rs ensures !Dropped(r, rs) {
      if WatchedEarly(q, rs) { WatchedIn(q, rs); }
    }
    forall p ensures Reached(p, rs) <==> Watched(p, rs) { WatchedIn(p, rs); }
  }

  /** Joining above a gap keeps the pages watched, and the gap. */
  lemma {:induction false} JoinLaterWatches(rs: seq<Range>, i: nat, out: seq<Range>, p: int)
    requires AllAligned(rs) && JoinedAt(rs, i, out)
    requires 0 < rs[i].address <= rs[i + 1].address && Touches(rs[i], rs[i + 1])
    ensures Watched(p, out) <==> Watched(p, rs)
  {
    JoinedExact(rs[i], rs[i + 1], p);
    WatchedIn(p, rs);
    WatchedIn(p, out);
    if Watched(p, out) {
      var r :| r in out && Overlaps(p, r);
      JoinedIn(rs, i, out, r);
      assert rs[i] in rs && rs[i + 1] in rs;
    }
    if Watched(p, rs) {
      var r :| r in rs && Overlaps(p, r);
      JoinedIn(rs, i, out, r);
    }
  }

  lemma {:induction false} JoinLaterReaches(rs: seq<Range>, i: nat, out: seq<Range>, q: int, n: nat)
    requires AllAligned(rs) && JoinedAt(rs, i, out) && n <= i && Gap(rs, q, n)
    requires rs[i].address <= rs[i + 1].address && Touches(rs[i], rs[i + 1])
    ensures Gap(out, q, n)
    ensures forall p :: Reached(p, out) <==> Reached(p, rs)
  {
    assert q < rs[i].address / PAGE;
    forall p ensures Watched(p, out) <==> Watched(p, rs) { JoinLaterWatches(rs, i, out, p); }
    JoinedExact(rs[i], rs[i + 1], 0);
    GapReaches(rs, q, n);
    GapReaches(out, q, n);
  }

  /** If the first range touches no other, there is a gap behind it, or at page 0. */
  lemma {:induction false} GapAfterFirst(rs: seq<Range>) returns (q: nat)
    requires AllAligned(rs) && Sorted(rs)
    requires |rs| >= 2 ==> !Touches(rs[0], rs[1])
    ensures Gap(rs, q, 1)
    ensures rs != [] && rs[0].address > 0 ==> q == 0
  {
    q := if rs == [] || rs[0].address > 0 then 0 else rs[0].width / PAGE;
    forall k | 0 <= k < |rs| ensures !Overlaps(q, rs[k]) && (1 <= k || rs[0].address > 0 ==> q < rs[k].address / PAGE) {
      AlignedOverlaps(q, rs[k]);
      if k >= 1 { assert rs[0].address <= rs[1].address <= rs[k].address; }
    }
    if rs != [] { AlignedOverlaps(LAST_PAGE, rs[0]); }
  }

  lemma {:induction false} GapAtZero(rs: seq<Range>)
    requires AllAligned(rs) && Sorted(rs) && rs != [] && rs[0].address > 0
    ensures Gap(rs, 0, 0)
  {
    forall k | 0 <= k < |rs| ensures !Overlaps(0, rs[k]) && 0 < rs[k].address / PAGE {
      AlignedOverlaps(0, rs[k]);
      if k >= 1 { assert rs[0].address <= rs[k].address; }
    }
  }

  /** Sorts and merges.  The merged ranges cover exactly the pages of the ranges that are
      not lost. */
  method MergeMemRanges(input: seq<Range>) returns (rs: seq<Range>)
    requires AllAligned(input)
    ensures AllAligned(rs) && Sorted(rs)
    ensures forall p :: Covered(p, rs) <==> Reached(p, input)
  {
    rs := SortByAddress(input);
    PermutationReaches(input, rs);
    forall k | 0 <= k < |rs| ensures Aligned(rs[k]) { assert rs[k] in input; }
    var i := 0;
    ghost var gap := 0;
    while i + 1 < |rs|
      invariant AllAligned(rs) && Sorted(rs) && i <= |rs| && (i < |rs| || rs == [])
      invariant forall p :: Reached(p, rs) <==> Reached(p, input)
      invariant i > 0 ==> Gap(rs, gap, 1)
      decreases |rs| - i
    {
      if Touches(rs[i], rs[i + 1]) {
        var joined := MergeAt(rs, i);
        JoinedShape(rs, i, joined);
        JoinReaches(rs, i, joined, gap);
        rs := joined;
      } else {
        if i == 0 { gap := GapAfterFirst(rs); }
        i := i + 1;
      }
    }
    if i == 0 { gap := GapAfterFirst(rs); }
    GapReaches(rs, gap, 1);
    WatchedIsCovered(rs);
  }

  lemma {:induction false} WatchedIsCovered(rs: seq<Range>)
    requires AllAligned(rs)
    ensures forall p :: Covered(p, rs) <==> Watched(p, rs)
  {
    forall p, i | 0 <= i < |rs| ensures Overlaps(p, rs[i]) <==> Inside(p, rs[i]) { AlignedOverlaps(p, rs[i]); }
  }

  lemma {:induction false} JoinedShape(rs: seq<Range>, i: nat, out: seq<Range>)
    requires AllAligned(rs) && Sorted(rs) && JoinedAt(rs, i, out) && Touches(rs[i], rs[i + 1])
    ensures AllAligned(out) && Sorted(out) && |out| == |rs| - 1
  {
    JoinedExact(rs[i], rs[i + 1], 0);
  }

  /** Joining does not change which pages reach the table. */
  lemma {:induction false} JoinReaches(rs: seq<Range>, i: nat, out: seq<Range>, gap: int)
    requires AllAligned(rs) && Sorted(rs) && JoinedAt(rs, i, out) && Touches(rs[i], rs[i + 1])
    requires i > 0 ==> Gap(rs, gap, 1)
    ensures i > 0 ==> Gap(out, gap, 1)
    ensures forall p :: Reached(p, out) <==> Reached(p, rs)
  {
    if i > 0 {
      JoinLaterReaches(rs, i, out, gap, 1);
    } else if rs[0].address == 0 {
      JoinFirstReaches(rs, out);
    } else {
      GapAtZero(rs);
      JoinLaterReaches(rs, 0, out, 0, 0);
    }
  }

  method MergeAt(rs: seq<Range>, i: nat) returns (out: seq<Range>)
    requires i + 1 < |rs|
    ensures JoinedAt(rs, i, out)
  {
    var additive := U32(U32(rs[i + 1].address - rs[i].address) + rs[i + 1].width);
    var r := rs[i];
    if additive > r.width {
      r := Range(r.address, additive);
    }
    out := rs[..i] + [r] + rs[i + 2..];
  }
}
