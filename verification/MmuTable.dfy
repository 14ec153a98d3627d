/** The two-level translation table in target memory, the host's shadow of it, and
    how a walk of the table (section B3.5 of the ARMv7-A Architecture Reference
    Manual, DDI 0406C) sees the descriptors the host writes. */
module MmuTable {
  import opened Words
  import opened MmuRanges

  /** Target memory by word address. */
  type Memory = map<nat, nat>

  /** Where the first-level table and the second-level tables lie. */
  datatype Tables = Tables(l1: nat, l2: nat)

  const L1_SIZE: nat := 0x4000
  const L2_SIZE: nat := 0x40_0000

  predicate ValidTables(tb: Tables) {
    && 0 < tb.l1 && tb.l1 + L1_SIZE <= TWO_32
    && 0 < tb.l2 && tb.l2 % 0x400 == 0 && tb.l2 + L2_SIZE <= TWO_32
    && (tb.l1 + L1_SIZE <= tb.l2 || tb.l2 + L2_SIZE <= tb.l1)
  }

  function L1Addr(tb: Tables, s: nat): nat { tb.l1 + s * 4 }

  function L2Addr(tb: Tables, p: nat): nat { tb.l2 + p * 4 }

  // The descriptor words; the flag bits lie below the address bits, so combining
  // them with `|` in the source is the addition written here.
  function SectionWord(s: nat, mapped: bool): nat { s * SECTION + if mapped then 0xc02 else 0xc00 }

  function LinkWord(tb: Tables, s: nat): nat { L2Addr(tb, s * 256) + 0x1e9 }

  function PageWord(p: nat, mapped: bool): nat { p * PAGE + if mapped then 0x32 else 0x30 }

  // ---------------------------------------------------------------------
  // The table walk
  // ---------------------------------------------------------------------

  datatype Translation = Fault | Physical(address: nat)

  /** Reading a word that was never written is treated as a fault descriptor. */
  function Load(m: Memory, a: nat): nat { if a in m then m[a] else 0 }

  /** First level: bits 1:0 select fault (00), second-level table (01) or section
      (10, bit 18 clear).  Second level: fault (00) or small page (1x). */
  function Walk(tb: Tables, m: Memory, va: nat): Translation {
    var d1 := Load(m, L1Addr(tb, va / SECTION));
    if d1 % 4 == 2 && (d1 / 0x4_0000) % 2 == 0 then Physical(d1 / SECTION * SECTION + va % SECTION)
    else if d1 % 4 == 1 then
      var d2 := Load(m, d1 / 0x400 * 0x400 + (va / PAGE) % 256 * 4);
      if d2 % 4 >= 2 then Physical(d2 / PAGE * PAGE + va % PAGE) else Fault
    else Fault
  }

  // ---------------------------------------------------------------------
  // The shadow configuration
  // ---------------------------------------------------------------------

  /** One first-level entry; `second` is only meaningful for a page entry, `mapped`
      only for a section entry. */
  datatype Descr = Descr(isPage: bool, mapped: bool, second: seq<bool>)

  const MAPPED_SECTION: Descr := Descr(false, true, [])

  predicate WellFormed(conf: seq<Descr>) {
    |conf| == NUM_SECTIONS && forall s | 0 <= s < NUM_SECTIONS :: conf[s].isPage ==> |conf[s].second| == 256
  }

  /** How updates may change a descriptor: a mapped section becomes a table, pages of a
      table are unmapped, and either becomes an unmapped section; never back. */
  predicate Further(a: Descr, b: Descr) {
    || a == b
    || (!a.isPage && a.mapped && (b.isPage || !b.mapped))
    || (a.isPage && !b.isPage && !b.mapped)
    || (a.isPage && b.isPage && a.mapped == b.mapped && Fewer(a.second, b.second))
  }

  predicate Fewer(a: seq<bool>, b: seq<bool>) {
    |a| == |b| && forall j | 0 <= j < |a| :: b[j] ==> a[j]
  }

  predicate AllFurther(a: seq<Descr>, b: seq<Descr>) {
    |a| == |b| && forall s | 0 <= s < |a| :: Further(a[s], b[s])
  }

  lemma {:induction false} FurtherTrans(a: Descr, b: Descr, c: Descr)
    requires Further(a, b) && Further(b, c)
    ensures Further(a, c)
    ensures a == c ==> a == b
  {
    if a == c && a.isPage && b.isPage { assert a.second == b.second; }
  }

  /** Updates never undo each other: the shadow is as before only if no step changed it. */
  lemma {:induction false} AllFurtherTrans(a: seq<Descr>, b: seq<Descr>, c: seq<Descr>)
    requires AllFurther(a, b) && AllFurther(b, c)
    ensures AllFurther(a, c)
    ensures a == c <==> a == b && b == c
  {
    forall s | 0 <= s < |a| ensures Further(a[s], c[s]) && (a[s] == c[s] ==> a[s] == b[s]) {
      FurtherTrans(a[s], b[s], c[s]);
    }
  }

  lemma {:induction false} OneFurther(conf: seq<Descr>, s: nat, d: Descr)
    requires s < |conf| && Further(conf[s], d)
    ensures AllFurther(conf, conf[s := d])
    ensures conf[s := d] == conf <==> conf[s] == d
  {
    assert conf[s := d][s] == d;
  }

  predicate Unmapped(conf: seq<Descr>, p: nat)
    requires WellFormed(conf) && p < NUM_PAGES
  {
    var d := conf[p / 256];
    if d.isPage then !d.second[p % 256] else !d.mapped
  }

  /** `m` holds the word `v` at address `a`. */
  predicate Holds(m: Memory, a: nat, v: nat) { a in m && m[a] == v }

  /** The second-level word of page `j` of section `s` is as it should be. */
  predicate PageHolds(tb: Tables, m: Memory, s: nat, j: nat, mapped: bool) {
    Holds(m, L2Addr(tb, s * 256 + j), PageWord(s * 256 + j, mapped))
  }

  /** Memory agrees with the shadow entry of section `s`. */
  ghost predicate EntryMatches(tb: Tables, d: Descr, m: Memory, s: nat)
    requires d.isPage ==> |d.second| == 256
  {
    if d.isPage then
      && Holds(m, L1Addr(tb, s), LinkWord(tb, s))
      && forall j | 0 <= j < 256 :: PageHolds(tb, m, s, j, d.second[j])
    else
      Holds(m, L1Addr(tb, s), SectionWord(s, d.mapped))
  }

  ghost predicate Matches(tb: Tables, conf: seq<Descr>, m: Memory) {
    WellFormed(conf) && forall s | 0 <= s < NUM_SECTIONS :: EntryMatches(tb, conf[s], m, s)
  }

  /** A walk of a matching table faults exactly on unmapped pages and translates
      every other address to itself. */
  lemma {:induction false} WalkMatches(tb: Tables, conf: seq<Descr>, m: Memory, va: nat)
    requires ValidTables(tb) && Matches(tb, conf, m) && va < TWO_32
    ensures Walk(tb, m, va) == if Unmapped(conf, va / PAGE) then Fault else Physical(va)
  {
    var s, p := va / SECTION, va / PAGE;
    assert p / 256 == s && p == s * 256 + p % 256;
    var d := conf[s];
    assert EntryMatches(tb, d, m, s);
    if d.isPage {
      var j := p % 256;
      assert PageHolds(tb, m, s, j, d.second[j]);
      LinkWordBits(tb, s);
      PageWordBits(p, d.second[j]);
    } else {
      SectionWordBits(s, d.mapped);
    }
  }

  lemma {:induction false} LinkWordBits(tb: Tables, s: nat)
    requires ValidTables(tb) && s < NUM_SECTIONS
    ensures LinkWord(tb, s) % 4 == 1 && LinkWord(tb, s) / 0x400 * 0x400 == L2Addr(tb, s * 256)
    ensures LinkWord(tb, s) < TWO_32
  {
    var k := tb.l2 / 0x400 + s;
    assert L2Addr(tb, s * 256) == k * 0x400 && LinkWord(tb, s) == k * 0x400 + 0x1e9;
  }

  lemma {:induction false} PageWordBits(p: nat, mapped: bool)
    requires p < NUM_PAGES
    ensures PageWord(p, mapped) % 4 == (if mapped then 2 else 0) && PageWord(p, mapped) / PAGE == p
    ensures PageWord(p, mapped) < TWO_32
  {
    var q := p * 0x400 + 12;
    assert PageWord(p, mapped) == 4 * q + if mapped then 2 else 0;
  }

  lemma {:induction false} SectionWordBits(s: nat, mapped: bool)
    requires s < NUM_SECTIONS
    ensures SectionWord(s, mapped) % 4 == (if mapped then 2 else 0)
    ensures SectionWord(s, mapped) / SECTION == s && (SectionWord(s, mapped) / 0x4_0000) % 2 == 0
    ensures SectionWord(s, mapped) < TWO_32
  {
    var flags := if mapped then 0xc02 else 0xc00;
    assert SectionWord(s, mapped) == (s * 4) * 0x4_0000 + flags;
    assert SectionWord(s, mapped) / 0x4_0000 == s * 4;
  }

  // ---------------------------------------------------------------------
  // Sequences of word writes
  // ---------------------------------------------------------------------

  type Writes = seq<(nat, nat)>

  /** The writes performed one by one, in order. */
  function Pokes(m: Memory, ws: Writes): Memory {
    if ws == [] then m
    else
      var w := ws[|ws| - 1];
      Pokes(m, ws[..|ws| - 1])[w.0 := w.1]
  }

  lemma {:induction false} PokesAppend(m: Memory, a: Writes, b: Writes)
    ensures Pokes(m, a + b) == Pokes(Pokes(m, a), b)
    decreases |b|
  {
    if b == [] {
      assert a + b == a;
    } else {
      assert (a + b)[..|a + b| - 1] == a + b[..|b| - 1];
      PokesAppend(m, a, b[..|b| - 1]);
    }
  }

  /** A write may be moved before others that do not touch its address. */
  lemma {:induction false} PokesCommute(m: Memory, ws: Writes, a: nat, v: nat)
    requires forall i | 0 <= i < |ws| :: ws[i].0 != a
    ensures Pokes(m[a := v], ws) == Pokes(m, ws)[a := v]
  {
    if ws != [] {
      PokesCommute(m, ws[..|ws| - 1], a, v);
    }
  }

  predicate Agree(m: Memory, m': Memory, a: nat) {
    (a in m <==> a in m') && (a in m ==> m[a] == m'[a])
  }

  /** The words of a fresh second-level table, all pages mapped. */
  function FillWords(tb: Tables, s: nat, n: nat): (ws: Writes)
    ensures |ws| == n
  {
    if n == 0 then []
    else FillWords(tb, s, n - 1) + [(L2Addr(tb, s * 256 + (n - 1)), PageWord(s * 256 + (n - 1), true))]
  }

  lemma {:induction false} FillEffect(tb: Tables, m: Memory, m': Memory, s: nat, n: nat)
    requires m' == Pokes(m, FillWords(tb, s, n))
    ensures forall j | 0 <= j < n :: PageHolds(tb, m', s, j, true)
    ensures forall a: nat | a < L2Addr(tb, s * 256) || L2Addr(tb, s * 256 + n) <= a :: Agree(m, m', a)
  {
    if n > 0 {
      var m1 := Pokes(m, FillWords(tb, s, n - 1));
      FillEffect(tb, m, m1, s, n - 1);
      assert FillWords(tb, s, n)[..n - 1] == FillWords(tb, s, n - 1);
      assert m' == m1[L2Addr(tb, s * 256 + (n - 1)) := PageWord(s * 256 + (n - 1), true)];
      forall a: nat | a < L2Addr(tb, s * 256) || L2Addr(tb, s * 256 + n) <= a ensures Agree(m, m', a) {
        assert Agree(m, m1, a);
      }
      forall j | 0 <= j < n ensures PageHolds(tb, m', s, j, true) {
        if j < n - 1 { assert PageHolds(tb, m1, s, j, true); }
      }
    }
  }

  lemma {:induction false} FillAddresses(tb: Tables, s: nat, n: nat, i: nat)
    requires i < n
    ensures FillWords(tb, s, n)[i].0 == L2Addr(tb, s * 256 + i)
  {
    if i < n - 1 { FillAddresses(tb, s, n - 1, i); }
  }

  // ---------------------------------------------------------------------
  // Effect of unmapping on memory and shadow
  // ---------------------------------------------------------------------

  predicate PageAgrees(tb: Tables, m: Memory, m': Memory, t: nat, j: nat) {
    Agree(m, m', L2Addr(tb, t * 256 + j))
  }

  /** The words of section `t` are the same in both memories. */
  ghost predicate EntryAgrees(tb: Tables, m: Memory, m': Memory, t: nat) {
    && Agree(m, m', L1Addr(tb, t))
    && forall j | 0 <= j < 256 :: PageAgrees(tb, m, m', t, j)
  }

  lemma {:induction false} EntryFrame(tb: Tables, d: Descr, m: Memory, m': Memory, t: nat)
    requires d.isPage ==> |d.second| == 256
    requires EntryMatches(tb, d, m, t) && EntryAgrees(tb, m, m', t)
    ensures EntryMatches(tb, d, m', t)
  {
    if d.isPage {
      forall j | 0 <= j < 256 ensures PageHolds(tb, m', t, j, d.second[j]) {
        assert PageHolds(tb, m, t, j, d.second[j]) && PageAgrees(tb, m, m', t, j);
      }
    }
  }

  /** Only words of section `s` change. */
  ghost predicate ChangesOnly(tb: Tables, m: Memory, m': Memory, s: nat) {
    forall t | 0 <= t < NUM_SECTIONS && t != s :: EntryAgrees(tb, m, m', t)
  }

  lemma {:induction false} MatchesUpdate(tb: Tables, conf: seq<Descr>, m: Memory, m': Memory, s: nat, d: Descr)
    requires Matches(tb, conf, m) && s < NUM_SECTIONS && ChangesOnly(tb, m, m', s)
    requires (d.isPage ==> |d.second| == 256) && EntryMatches(tb, d, m', s)
    ensures Matches(tb, conf[s := d], m')
  {
    var conf' := conf[s := d];
    forall t | 0 <= t < NUM_SECTIONS ensures EntryMatches(tb, conf'[t], m', t) {
      if t != s {
        assert EntryMatches(tb, conf[t], m, t);
        EntryFrame(tb, conf[t], m, m', t);
      }
    }
  }

  function AllMapped(): (s: seq<bool>)
    ensures |s| == 256 && forall i | 0 <= i < 256 :: s[i]
  {
    seq(256, _ => true)
  }

  /** Turning a section into a table of mapped pages keeps the mapping. */
  lemma {:induction false} BecomesTable(tb: Tables, conf: seq<Descr>, m: Memory, s: nat)
    requires ValidTables(tb) && Matches(tb, conf, m) && s < NUM_SECTIONS && !conf[s].isPage && conf[s].mapped
    ensures var m' := Pokes(m[L1Addr(tb, s) := LinkWord(tb, s)], FillWords(tb, s, 256));
            var conf' := conf[s := conf[s].(isPage := true, second := AllMapped())];
            && Matches(tb, conf', m')
            && forall q | 0 <= q < NUM_PAGES :: Unmapped(conf', q) == Unmapped(conf, q)
  {
    var m1 := m[L1Addr(tb, s) := LinkWord(tb, s)];
    var m' := Pokes(m1, FillWords(tb, s, 256));
    var d := conf[s].(isPage := true, second := AllMapped());
    FillEffect(tb, m1, m', s, 256);
    forall t | 0 <= t < NUM_SECTIONS && t != s ensures EntryAgrees(tb, m, m', t) {
      assert Agree(m1, m', L1Addr(tb, t));
      forall j | 0 <= j < 256 ensures PageAgrees(tb, m, m', t, j) {
        assert Agree(m1, m', L2Addr(tb, t * 256 + j));
      }
    }
    assert Agree(m1, m', L1Addr(tb, s));
    MatchesUpdate(tb, conf, m, m', s, d);
  }

  /** The shadow with page `p` of a table unmapped. */
  function PageCleared(conf: seq<Descr>, p: nat): seq<Descr>
    requires WellFormed(conf) && p < NUM_PAGES && conf[p / 256].isPage
  {
    conf[p / 256 := ClearedIn(conf[p / 256], p % 256)]
  }

  function ClearedIn(d: Descr, j: nat): Descr
    requires j < |d.second|
  {
    d.(second := d.second[j := false])
  }

  function PageWrite(tb: Tables, p: nat): (nat, nat) {
    (L2Addr(tb, p), PageWord(p, false))
  }

  /** Unmapping one page of a table. */
  lemma {:induction false} PageUnmaps(tb: Tables, conf: seq<Descr>, m: Memory, p: nat)
    requires ValidTables(tb) && Matches(tb, conf, m) && p < NUM_PAGES && conf[p / 256].isPage
    ensures var conf', w := PageCleared(conf, p), PageWrite(tb, p);
            && Matches(tb, conf', m[w.0 := w.1])
            && forall q | 0 <= q < NUM_PAGES :: Unmapped(conf', q) == (Unmapped(conf, q) || q == p)
  {
    var s, j := p / 256, p % 256;
    var m' := m[L2Addr(tb, p) := PageWord(p, false)];
    var d := ClearedIn(conf[s], j);
    assert EntryMatches(tb, conf[s], m, s);
    forall k | 0 <= k < 256 ensures PageHolds(tb, m', s, k, d.second[k]) {
      assert PageHolds(tb, m, s, k, conf[s].second[k]);
    }
    assert ChangesOnly(tb, m, m', s);
    MatchesUpdate(tb, conf, m, m', s, d);
    var conf' := conf[s := d];
    forall q | 0 <= q < NUM_PAGES ensures Unmapped(conf', q) == (Unmapped(conf, q) || q == p) {
      assert q == q / 256 * 256 + q % 256;
    }
  }

  /** Unmapping a whole section, whatever it was before. */
  lemma {:induction false} SectionUnmaps(tb: Tables, conf: seq<Descr>, m: Memory, s: nat)
    requires ValidTables(tb) && Matches(tb, conf, m) && s < NUM_SECTIONS
    ensures var m' := m[L1Addr(tb, s) := SectionWord(s, false)];
            var conf' := conf[s := conf[s].(isPage := false, mapped := false)];
            && Matches(tb, conf', m')
            && forall q | 0 <= q < NUM_PAGES :: Unmapped(conf', q) == (Unmapped(conf, q) || InUnit(q, Section(s)))
  {
  }
}
