/** Watched memory ranges: page alignment, sorting, merging and splitting into
    sections and pages, with the 32-bit arithmetic of the source. */
module MmuRanges {
  import opened Words

  const PAGE: nat := 0x1000
  const SECTION: nat := 0x10_0000
  const NUM_PAGES: nat := 0x10_0000
  const NUM_SECTIONS: nat := 0x1000

  datatype Range = Range(address: nat, width: nat)

  /** A range of bytes inside the 32-bit address space. */
  predicate ValidRange(r: Range) {
    r.address < TWO_32 && r.width < TWO_32 && r.address + r.width <= TWO_32
  }

  predicate Aligned(r: Range) {
    ValidRange(r) && r.address % PAGE == 0 && r.width % PAGE == 0
  }

  /** Page `p` contains a byte of the range (or its start, if it is empty and lies
      inside the page). */
  predicate Overlaps(p: int, r: Range) {
    p * PAGE < r.address + r.width && r.address < (p + 1) * PAGE
  }

  /** Page `p` lies inside an aligned range. */
  predicate Inside(p: int, r: Range) {
    r.address <= p * PAGE < r.address + r.width
  }

  ghost predicate Watched(p: int, rs: seq<Range>) {
    exists i | 0 <= i < |rs| :: Overlaps(p, rs[i])
  }

  ghost predicate Covered(p: int, rs: seq<Range>) {
    exists i | 0 <= i < |rs| :: Inside(p, rs[i])
  }

  /** The requests together cover the whole address space. */
  ghost predicate EverythingWatched(rs: seq<Range>) {
    forall p | 0 <= p < NUM_PAGES :: Watched(p, rs)
  }

  // ---------------------------------------------------------------------
  // Alignment
  // ---------------------------------------------------------------------

  function AlignRange(r: Range): Range {
    var off := r.address % PAGE;
    var a := if off != 0 then r.address - off else r.address;
    var w := if off != 0 then U32(r.width + off) else r.width;
    Range(a, if w % PAGE != 0 then U32(w + (PAGE - w % PAGE)) else w)
  }

  /** The number of pages a range touches. */
  function PageCount(r: Range): nat {
    (r.address % PAGE + r.width + (PAGE - 1)) / PAGE
  }

  lemma {:induction false} AlignShape(r: Range)
    requires ValidRange(r)
    ensures AlignRange(r) == Range(r.address / PAGE * PAGE, U32(PageCount(r) * PAGE))
    ensures r.address / PAGE + PageCount(r) <= NUM_PAGES
  {
    var off := r.address % PAGE;
    var w := r.width + off;
    var n := PageCount(r);
    assert n * PAGE == if w % PAGE == 0 then w else w + (PAGE - w % PAGE);
    if w >= TWO_32 {
      assert w % PAGE != 0 || w == TWO_32;
    }
  }

  lemma {:induction false} OverlapsByCount(p: int, r: Range)
    ensures Overlaps(p, r) <==> r.address / PAGE <= p < r.address / PAGE + PageCount(r)
  {
  }

  /** Aligning keeps exactly the pages the range overlaps, unless the range
      covers the whole address space: then its width wraps to 0. */
  lemma {:induction false} AlignExact(r: Range)
    requires ValidRange(r)
    ensures Aligned(AlignRange(r))
    ensures (forall p | 0 <= p < NUM_PAGES :: Overlaps(p, r))
         || (forall p :: Overlaps(p, r) <==> Inside(p, AlignRange(r)))
    ensures forall p | Inside(p, AlignRange(r)) :: Overlaps(p, r)
  {
    AlignShape(r);
    forall p ensures Overlaps(p, r) <==> r.address / PAGE <= p < r.address / PAGE + PageCount(r) {
      OverlapsByCount(p, r);
    }
    if PageCount(r) < NUM_PAGES {
      assert AlignRange(r).width == PageCount(r) * PAGE;
    } else {
      assert AlignRange(r).width == 0;
    }
  }

  method ForcePageAlignment(rs: seq<Range>) returns (out: seq<Range>)
    ensures AlignedTo(rs, out)
  {
    out := [];
    for i := 0 to |rs|
      invariant |out| == i && forall k | 0 <= k < i :: out[k] == AlignRange(rs[k])
    {
      var r := rs[i];
      var address, width := r.address, r.width;
      if r.address % PAGE != 0 {
        address := r.address - r.address % PAGE;
        width := U32(r.width + r.address % PAGE);
      }
      if width % PAGE != 0 {
        width := U32(width + (PAGE - width % PAGE));
      }
      out := out + [Range(address, width)];
    }
  }

  ghost predicate AllValid(rs: seq<Range>) {
    forall i | 0 <= i < |rs| :: ValidRange(rs[i])
  }

  ghost predicate AllAligned(rs: seq<Range>) {
    forall i | 0 <= i < |rs| :: Aligned(rs[i])
  }

  /** `out` are the ranges `rs`, aligned. */
  ghost predicate AlignedTo(rs: seq<Range>, out: seq<Range>) {
    |out| == |rs| && forall i | 0 <= i < |rs| :: out[i] == AlignRange(rs[i])
  }

  /** An aligned range overlaps exactly the pages inside it. */
  lemma {:induction false} AlignedOverlaps(p: int, r: Range)
    requires Aligned(r)
    ensures Overlaps(p, r) <==> Inside(p, r)
  {
  }

  // ---------------------------------------------------------------------
  // Splitting
  // ---------------------------------------------------------------------

  /** A second-level (page) or first-level (section) descriptor to unmap. */
  datatype Unit = Page(index: nat) | Section(index: nat)

  predicate ValidUnit(u: Unit) {
    if u.Page? then u.index < NUM_PAGES else u.index < NUM_SECTIONS
  }

  /** Page `p` belongs to the descriptor. */
  predicate InUnit(p: int, u: Unit) {
    match u
    case Page(i) => p == i
    case Section(i) => i * 256 <= p < (i + 1) * 256
  }

  ghost predicate InUnits(p: int, us: seq<Unit>) {
    exists i | 0 <= i < |us| :: InUnit(p, us[i])
  }

  /** The units cover exactly the pages in `[lo, hi)`, in ascending order and each
      once. */
  ghost predicate Tiles(us: seq<Unit>, lo: int, hi: int) {
    && lo <= hi
    && (forall i | 0 <= i < |us| :: ValidUnit(us[i]))
    && (forall p :: InUnits(p, us) <==> lo <= p < hi)
    && (forall i, j, p, q | 0 <= i < j < |us| && InUnit(p, us[i]) && InUnit(q, us[j]) :: p < q)
  }

  lemma {:induction false} TilesStep(us: seq<Unit>, lo: int, hi: int, u: Unit, next: int)
    requires Tiles(us, lo, hi) && ValidUnit(u)
    requires hi <= next && forall p :: InUnit(p, u) <==> hi <= p < next
    ensures Tiles(us + [u], lo, next)
  {
    var out := us + [u];
    forall p ensures InUnits(p, out) <==> lo <= p < next {
      if InUnits(p, out) {
        var i :| 0 <= i < |out| && InUnit(p, out[i]);
        if i < |us| { assert InUnit(p, us[i]) && InUnits(p, us); }
      }
      if lo <= p < hi {
        assert InUnits(p, us);
        var i :| 0 <= i < |us| && InUnit(p, us[i]);
        assert InUnit(p, out[i]);
      } else if hi <= p < next {
        assert InUnit(p, out[|us|]);
      }
    }
    forall i, j, p, q | 0 <= i < j < |out| && InUnit(p, out[i]) && InUnit(q, out[j]) ensures p < q {
      if j < |us| {
        assert InUnit(p, us[i]) && InUnit(q, us[j]);
      } else {
        assert InUnit(p, us[i]);
        assert InUnits(p, us);
      }
    }
  }

  /** Pages are used only where a whole section does not lie within `[lo, hi)`. */
  ghost predicate PagesOnlyAtEnds(us: seq<Unit>, lo: int, hi: int) {
    forall i | 0 <= i < |us| && us[i].Page? :: us[i].index / 256 * 256 < lo || hi < (us[i].index / 256 + 1) * 256
  }

  lemma {:induction false} OneUnitMore(us: seq<Unit>, lo: int, hi: int, u: Unit)
    requires PagesOnlyAtEnds(us, lo, hi)
    requires u.Page? ==> u.index / 256 * 256 < lo || hi < (u.index / 256 + 1) * 256
    ensures PagesOnlyAtEnds(us + [u], lo, hi)
  {
  }

  /** Before the first section boundary: the page `p` is the first one, or still in the same,
      incomplete section, or that boundary. */
  predicate InFront(p: int, lo: int) {
    p == lo || (lo % 256 != 0 && (p % 256 == 0 || p / 256 == lo / 256))
  }

  lemma {:induction false} FrontPage(p: int, lo: int)
    requires InFront(p, lo) && p % 256 != 0
    ensures p / 256 * 256 < lo && InFront(p + 1, lo)
  {
  }

  /** After the last whole section. */
  predicate Behind(p: int, hi: int) {
    p < hi ==> hi < (p / 256 + 1) * 256
  }

  lemma {:induction false} BehindPage(p: int, hi: int)
    requires Behind(p, hi) && p < hi
    ensures Behind(p + 1, hi)
  {
  }

  /** The page at an aligned address. */
  lemma {:induction false} PageAt(r: Range, address: int, width: int)
    requires Position(r, address, width)
    ensures address % SECTION == 0 <==> address / PAGE % 256 == 0
    ensures width == 0 <==> address / PAGE == (r.address + r.width) / PAGE
    ensures width < SECTION <==> (r.address + r.width) / PAGE < address / PAGE + 256
    ensures address / PAGE <= (r.address + r.width) / PAGE && (address + PAGE) / PAGE == address / PAGE + 1
  {
  }

  /** The units split off a range so far, up to `address`. */
  ghost predicate SplitOff(r: Range, us: seq<Unit>, address: int, width: int) {
    && Position(r, address, width)
    && Tiles(us, r.address / PAGE, address / PAGE)
    && PagesOnlyAtEnds(us, r.address / PAGE, (r.address + r.width) / PAGE)
  }

  method TakePage(us: seq<Unit>, ghost r: Range, address: nat, ghost width: int) returns (out: seq<Unit>)
    requires SplitOff(r, us, address, width) && width > 0
    requires var s := address / PAGE / 256; s * 256 < r.address / PAGE || (r.address + r.width) / PAGE < (s + 1) * 256
    ensures SplitOff(r, out, address + PAGE, width - PAGE)
  {
    PositionStep(r, address, width, PAGE);
    OneUnitMore(us, r.address / PAGE, (r.address + r.width) / PAGE, Page(address / PAGE));
    out := OnePage(us, r.address / PAGE, address);
  }

  method TakeSection(us: seq<Unit>, ghost r: Range, address: nat, ghost width: int) returns (out: seq<Unit>)
    requires SplitOff(r, us, address, width) && width >= SECTION && address % SECTION == 0
    ensures SplitOff(r, out, address + SECTION, width - SECTION) && (address + SECTION) % SECTION == 0
  {
    PositionStep(r, address, width, SECTION);
    OneUnitMore(us, r.address / PAGE, (r.address + r.width) / PAGE, Section(address / SECTION));
    out := OneSection(us, r.address / PAGE, address);
  }

  /** Pages up to the first section boundary, whole sections, remaining pages. */
  method DivideIntoPagesAndSections(r: Range) returns (out: seq<Unit>)
    requires Aligned(r)
    ensures Tiles(out, r.address / PAGE, (r.address + r.width) / PAGE)
    ensures PagesOnlyAtEnds(out, r.address / PAGE, (r.address + r.width) / PAGE)
  {
    var address, width := r.address, r.width;
    out := [];
    while width > 0 && address % SECTION != 0
      invariant SplitOff(r, out, address, width) && InFront(address / PAGE, r.address / PAGE)
    {
      PageAt(r, address, width);
      FrontPage(address / PAGE, r.address / PAGE);
      out := TakePage(out, r, address, width);
      address, width := address + PAGE, width - PAGE;
    }
    out := DivideRest(r, out, address, width);
  }

  method DivideRest(r: Range, us: seq<Unit>, address0: nat, width0: nat) returns (out: seq<Unit>)
    requires SplitOff(r, us, address0, width0) && (address0 % SECTION == 0 || width0 == 0)
    ensures SplitOff(r, out, r.address + r.width, 0)
  {
    var address, width := address0, width0;
    out := us;
    while width >= SECTION
      invariant SplitOff(r, out, address, width) && (address % SECTION == 0 || width == 0)
    {
      out := TakeSection(out, r, address, width);
      address, width := address + SECTION, width - SECTION;
    }
    PageAt(r, address, width);
    while width > 0
      invariant SplitOff(r, out, address, width) && Behind(address / PAGE, (r.address + r.width) / PAGE)
    {
      PageAt(r, address, width);
      BehindPage(address / PAGE, (r.address + r.width) / PAGE);
      out := TakePage(out, r, address, width);
      address, width := address + PAGE, width - PAGE;
    }
  }

  /** How far the split of an aligned range has come. */
  ghost predicate Position(r: Range, address: int, width: int) {
    && address + width == r.address + r.width <= TWO_32
    && r.address <= address && 0 <= width
    && address % PAGE == 0 && width % PAGE == 0
  }

  lemma {:induction false} PositionStep(r: Range, address: int, width: int, d: nat)
    requires Position(r, address, width) && width > 0 && (d == PAGE || (d == SECTION && width >= SECTION))
    ensures Position(r, address + d, width - d)
    ensures d == SECTION && address % SECTION == 0 ==> (address + d) % SECTION == 0
  {
  }

  method OnePage(us: seq<Unit>, ghost lo: int, address: nat) returns (out: seq<Unit>)
    requires address < TWO_32 && address % PAGE == 0 && Tiles(us, lo, address / PAGE)
    ensures out == us + [Page(address / PAGE)] && Tiles(out, lo, (address + PAGE) / PAGE)
  {
    var index := (address / SECTION) * 256 + (address / PAGE) % 256;
    assert index == address / PAGE;
    TilesStep(us, lo, address / PAGE, Page(index), (address + PAGE) / PAGE);
    out := us + [Page(index)];
  }

  method OneSection(us: seq<Unit>, ghost lo: int, address: nat) returns (out: seq<Unit>)
    requires address + SECTION <= TWO_32 && address % SECTION == 0 && Tiles(us, lo, address / PAGE)
    ensures out == us + [Section(address / SECTION)] && Tiles(out, lo, (address + SECTION) / PAGE)
  {
    var index := address / SECTION;
    assert address == index * SECTION;
    assert address / PAGE == index * 256 && (address + SECTION) / PAGE == (index + 1) * 256;
    TilesStep(us, lo, address / PAGE, Section(index), (address + SECTION) / PAGE);
    out := us + [Section(index)];
  }
}
