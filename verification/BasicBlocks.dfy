/** Basic-block regions of an instruction stream: one pass finds the leader
    addresses, a second one cuts the stream at them. */
module BasicBlocks {

  /** The addresses of the executed instructions, in order. */
  type Stream = seq<nat>

  type Widths = map<nat, nat>

  function Width(w: Widths, a: nat): nat {
    if a in w then w[a] else 0
  }

  predicate InSameRegion(w: Widths, previous: nat, next: nat) {
    previous + Width(w, previous) == next
  }

  /** `next` starts inside the instruction at `previous`. */
  predicate Odd(w: Widths, previous: nat, next: nat) {
    previous < next < previous + Width(w, previous)
  }

  /** The leaders found from position `k` on; an odd event is skipped together with
      both of its transitions. */
  function Found(w: Widths, s: Stream, k: nat): set<nat>
    decreases |s| - k
  {
    if k + 1 >= |s| then {}
    else if Odd(w, s[k], s[k + 1]) then Found(w, s, k + 2)
    else (if InSameRegion(w, s[k], s[k + 1]) then {} else {s[k + 1], s[k] + Width(w, s[k])}) + Found(w, s, k + 1)
  }

  function Leaders(w: Widths, s: Stream): set<nat>
    requires s != []
  {
    {s[0]} + Found(w, s, 0)
  }

  /** The positions whose width the first pass looks up, from `k` on, are known. */
  predicate Known(w: Widths, s: Stream, k: nat)
    decreases |s| - k
  {
    k + 1 >= |s| || (s[k] in w && Known(w, s, if Odd(w, s[k], s[k + 1]) then k + 2 else k + 1))
  }

  ghost predicate NoOddEvents(w: Widths, s: Stream) {
    forall k | 0 <= k < |s| - 1 :: NotOddAt(w, s, k)
  }

  predicate NotOddAt(w: Widths, s: Stream, k: nat)
    requires k < |s| - 1
  {
    !Odd(w, s[k], s[k + 1])
  }

  predicate Jumps(w: Widths, s: Stream, k: nat)
    requires k < |s| - 1
  {
    !InSameRegion(w, s[k], s[k + 1])
  }

  /** Without odd events, both sides of every jump are leaders. */
  lemma {:induction false} JumpsFound(w: Widths, s: Stream, k: nat, j: nat)
    requires NoOddEvents(w, s) && k <= j < |s| - 1 && Jumps(w, s, j)
    ensures s[j + 1] in Found(w, s, k) && s[j] + Width(w, s[j]) in Found(w, s, k)
    decreases j - k
  {
    assert NotOddAt(w, s, k);
    if k < j { JumpsFound(w, s, k + 1, j); }
  }

  /** Without odd events, the first pass looks up every width but the last. */
  lemma {:induction false} KnownIff(w: Widths, s: Stream, k: nat)
    requires NoOddEvents(w, s)
    ensures Known(w, s, k) <==> forall j | k <= j < |s| - 1 :: s[j] in w
    decreases |s| - k
  {
    if k + 1 < |s| {
      assert NotOddAt(w, s, k);
      KnownIff(w, s, k + 1);
    }
  }

  /** Both sides of every jump are leaders. */
  ghost predicate JumpsLed(w: Widths, s: Stream)
    requires s != []
  {
    forall k | 0 <= k < |s| - 1 :: JumpLed(w, s, k)
  }

  ghost predicate JumpLed(w: Widths, s: Stream, k: nat)
    requires k < |s| - 1
  {
    Jumps(w, s, k) ==> s[k + 1] in Leaders(w, s) && s[k] + Width(w, s[k]) in Leaders(w, s)
  }

  lemma {:induction false} NoOddJumpsLed(w: Widths, s: Stream)
    requires s != [] && NoOddEvents(w, s)
    ensures JumpsLed(w, s)
  {
    forall k | 0 <= k < |s| - 1 ensures JumpLed(w, s, k) {
      if Jumps(w, s, k) { JumpsFound(w, s, 0, k); }
    }
  }

  /** `a` is where a jump goes, or what follows the jumping instruction. */
  ghost predicate SideOfJump(w: Widths, s: Stream, a: nat) {
    exists k | 0 <= k < |s| - 1 ::
      Jumps(w, s, k) && !Odd(w, s[k], s[k + 1]) && (a == s[k + 1] || a == s[k] + Width(w, s[k]))
  }

  lemma {:induction false} FoundAreSides(w: Widths, s: Stream, k: nat, a: nat)
    requires a in Found(w, s, k)
    ensures SideOfJump(w, s, a)
    decreases |s| - k
  {
    if Odd(w, s[k], s[k + 1]) {
      FoundAreSides(w, s, k + 2, a);
    } else if a in Found(w, s, k + 1) {
      FoundAreSides(w, s, k + 1, a);
    } else {
      assert Jumps(w, s, k);
    }
  }

  /** There are no other leaders than the first instruction and the sides of jumps; without
      odd events these are all leaders. */
  lemma {:induction false} LeadersAreSides(w: Widths, s: Stream, a: nat)
    requires s != []
    ensures a in Leaders(w, s) ==> a == s[0] || SideOfJump(w, s, a)
    ensures NoOddEvents(w, s) ==> (a in Leaders(w, s) <==> a == s[0] || SideOfJump(w, s, a))
  {
    if a in Found(w, s, 0) { FoundAreSides(w, s, 0, a); }
    if NoOddEvents(w, s) && SideOfJump(w, s, a) {
      var k :| 0 <= k < |s| - 1 && Jumps(w, s, k) && (a == s[k + 1] || a == s[k] + Width(w, s[k]));
      JumpsFound(w, s, 0, k);
    }
  }

  // ---------------------------------------------------------------------
  // Regions
  // ---------------------------------------------------------------------

  /** Positions `begin .. end` of the stream. */
  datatype Region = Region(id: nat, begin: nat, end: nat, count: nat)

  /** Consecutive regions from position 0 up to `n`, numbered in order; a region
      begins at position 0 or at a leader and holds no other leader. */
  ghost predicate Cut(s: Stream, leaders: set<nat>, rs: seq<Region>, n: nat) {
    && n <= |s|
    && (rs == [] ==> n == 0)
    && (rs != [] ==> rs[0].begin == 0 && rs[|rs| - 1].end + 1 == n)
    && (forall i | 0 <= i < |rs| :: RegionOk(s, leaders, rs[i], i, n))
    && (forall i | 0 <= i < |rs| - 1 :: Follows(rs, i))
  }

  ghost predicate RegionOk(s: Stream, leaders: set<nat>, r: Region, i: nat, n: nat) {
    && r.id == i && r.begin <= r.end < n <= |s| && r.count == r.end - r.begin + 1
    && (0 < r.begin ==> s[r.begin] in leaders)
    && (forall p | r.begin < p <= r.end :: s[p] !in leaders)
  }

  ghost predicate Follows(rs: seq<Region>, i: nat)
    requires i < |rs| - 1
  {
    rs[i + 1].begin == rs[i].end + 1
  }

  /** Every position of the stream lies in exactly one region. */
  lemma {:induction false} RegionsPartition(s: Stream, leaders: set<nat>, rs: seq<Region>, p: nat)
    requires Cut(s, leaders, rs, |s|) && p < |s|
    ensures exists i :: 0 <= i < |rs| && rs[i].begin <= p <= rs[i].end
    ensures forall i, j | 0 <= i < j < |rs| :: rs[i].end < rs[j].begin
  {
    forall i, j | 0 <= i < j < |rs| ensures rs[i].end < rs[j].begin { RegionsOrdered(s, leaders, rs, |s|, i, j); }
    var i := 0;
    while i < |rs| && rs[i].end < p
      invariant 0 <= i <= |rs| && (i < |rs| ==> rs[i].begin <= p)
      invariant i == |rs| ==> rs[|rs| - 1].end < p
    {
      if i + 1 < |rs| { assert Follows(rs, i); }
      i := i + 1;
    }
    assert rs[i].begin <= p <= rs[i].end;
  }

  lemma {:induction false} RegionsOrdered(s: Stream, leaders: set<nat>, rs: seq<Region>, n: nat, i: nat, j: nat)
    requires Cut(s, leaders, rs, n) && i < j < |rs|
    ensures rs[i].end < rs[j].begin
    decreases j
  {
    assert Follows(rs, j - 1) && RegionOk(s, leaders, rs[j - 1], j - 1, n);
    if i < j - 1 { RegionsOrdered(s, leaders, rs, n, i, j - 1); }
  }

  /** Regions are as long as possible: one that is not the last ends only before the first
      instruction of the stream or a side of a jump. */
  lemma {:induction false} RegionsEndAtSides(w: Widths, s: Stream, rs: seq<Region>, i: nat)
    requires s != [] && Cut(s, Leaders(w, s), rs, |s|) && i < |rs| - 1
    ensures rs[i].end + 1 < |s|
    ensures s[rs[i].end + 1] == s[0] || SideOfJump(w, s, s[rs[i].end + 1])
  {
    assert Follows(rs, i) && RegionOk(s, Leaders(w, s), rs[i + 1], i + 1, |s|);
    LeadersAreSides(w, s, s[rs[i].end + 1]);
  }

  /** Inside a region control only falls through. */
  lemma {:induction false} FallsThrough(w: Widths, s: Stream, r: Region, i: nat, p: nat)
    requires s != [] && JumpsLed(w, s) && RegionOk(s, Leaders(w, s), r, i, |s|)
    requires r.begin <= p < r.end
    ensures s[p + 1] == s[p] + Width(w, s[p])
  {
    assert JumpLed(w, s, p);
  }

  /** Two regions that start at the same address run through the same addresses. */
  lemma {:induction false} SamePath(w: Widths, s: Stream, r: Region, q: Region, i: nat, j: nat, k: nat)
    requires s != [] && JumpsLed(w, s)
    requires RegionOk(s, Leaders(w, s), r, i, |s|) && RegionOk(s, Leaders(w, s), q, j, |s|)
    requires s[r.begin] == s[q.begin] && k < r.count && k < q.count
    ensures s[r.begin + k] == s[q.begin + k]
    decreases k
  {
    if k > 0 {
      SamePath(w, s, r, q, i, j, k - 1);
      FallsThrough(w, s, r, i, r.begin + k - 1);
      FallsThrough(w, s, q, j, q.begin + k - 1);
    }
  }

  /** The addresses of a region. */
  function Code(s: Stream, r: Region): Stream
    requires r.begin <= r.end < |s|
  {
    s[r.begin..r.end + 1]
  }

  /** A region that is not the last one ends where every region with the same leader
      would end. */
  lemma {:induction false} NoLonger(w: Widths, s: Stream, rs: seq<Region>, i: nat, j: nat)
    requires s != [] && JumpsLed(w, s) && Cut(s, Leaders(w, s), rs, |s|)
    requires i < |rs| - 1 && j < |rs| && s[rs[i].begin] == s[rs[j].begin]
    ensures rs[j].count <= rs[i].count
  {
    var r, q := rs[i], rs[j];
    assert Follows(rs, i) && RegionOk(s, Leaders(w, s), rs[i + 1], i + 1, |s|);
    assert RegionOk(s, Leaders(w, s), r, i, |s|) && RegionOk(s, Leaders(w, s), q, j, |s|);
    assert JumpLed(w, s, r.end);
    if r.count < q.count {
      var n := r.count;
      SamePath(w, s, r, q, i, j, n - 1);
      FallsThrough(w, s, q, j, q.begin + n - 1);
    }
  }

  /** Regions with the same leader hold the same instructions; only the last region of
      the trace may be cut short. */
  lemma {:induction false} SameLeaderSameCode(w: Widths, s: Stream, rs: seq<Region>, i: nat, j: nat)
    requires s != [] && JumpsLed(w, s) && Cut(s, Leaders(w, s), rs, |s|)
    requires i < |rs| - 1 && j < |rs| && s[rs[i].begin] == s[rs[j].begin]
    ensures RegionOk(s, Leaders(w, s), rs[i], i, |s|) && RegionOk(s, Leaders(w, s), rs[j], j, |s|)
    ensures Code(s, rs[j]) <= Code(s, rs[i])
    ensures j < |rs| - 1 ==> Code(s, rs[j]) == Code(s, rs[i])
  {
    NoLonger(w, s, rs, i, j);
    if j < |rs| - 1 { NoLonger(w, s, rs, j, i); }
    forall k | 0 <= k < rs[j].count ensures Code(s, rs[j])[k] == Code(s, rs[i])[k] {
      SamePath(w, s, rs[i], rs[j], i, j, k);
    }
  }

  /** In particular if no event lies inside another instruction. */
  lemma {:induction false} SameLeaderSameCodeNoOdd(w: Widths, s: Stream, rs: seq<Region>, i: nat, j: nat)
    requires s != [] && NoOddEvents(w, s) && Cut(s, Leaders(w, s), rs, |s|)
    requires i < |rs| - 1 && j < |rs| && s[rs[i].begin] == s[rs[j].begin]
    ensures RegionOk(s, Leaders(w, s), rs[i], i, |s|) && RegionOk(s, Leaders(w, s), rs[j], j, |s|)
    ensures Code(s, rs[j]) <= Code(s, rs[i])
    ensures j < |rs| - 1 ==> Code(s, rs[j]) == Code(s, rs[i])
  {
    NoOddJumpsLed(w, s);
    SameLeaderSameCode(w, s, rs, i, j);
  }

  /** An event inside another instruction is harmless if both sides of the skipped jumps
      are leaders for another reason: here 2 and 4 are executed after jumps as well. */
  lemma {:induction false} HarmlessOddEvent()
    ensures var w: Widths := map[0 := 4, 2 := 2, 4 := 4, 8 := 4];
            var s: Stream := [8, 2, 8, 4, 8, 0, 2, 4];
            Known(w, s, 0) && !NoOddEvents(w, s) && JumpsLed(w, s)
  {
    var w: Widths := map[0 := 4, 2 := 2, 4 := 4, 8 := 4];
    var s: Stream := [8, 2, 8, 4, 8, 0, 2, 4];
    assert !NotOddAt(w, s, 5);
    assert Found(w, s, 7) == {} && Known(w, s, 7);
    assert Found(w, s, 5) == {} && Known(w, s, 5);
    assert Found(w, s, 4) == {0, 12} && Known(w, s, 4);
    assert Found(w, s, 3) == {0, 12} && Known(w, s, 3);
    assert Found(w, s, 2) == {4, 12, 0} && Known(w, s, 2);
    assert Found(w, s, 1) == {8, 4, 12, 0} && Known(w, s, 1);
    assert Found(w, s, 0) == {2, 12, 8, 4, 0};
  }

  /** The converse does not hold: a skipped jump does no harm either if its region has a
      leader of its own. */
  lemma {:induction false} UnledJumpAlone()
    ensures var w: Widths := map[0 := 4, 2 := 2];
            var s: Stream := [0, 2];
            Known(w, s, 0) && !JumpsLed(w, s) && Cut(s, Leaders(w, s), [Region(0, 0, 1, 2)], |s|)
  {
    var w: Widths := map[0 := 4, 2 := 2];
    var s: Stream := [0, 2];
    assert !JumpLed(w, s, 0);
  }

  /** With an event inside another instruction the property can fail: two complete
      regions start at address 0 but run through different addresses. */
  lemma {:induction false} OddEventBreaksRegions()
    ensures var w: Widths := map[0 := 4, 4 := 4, 8 := 4];
            var s: Stream := [0, 2, 8, 0, 4, 8, 0];
            var rs := [Region(0, 0, 2, 3), Region(1, 3, 5, 3), Region(2, 6, 6, 1)];
            && Known(w, s, 0)
            && Cut(s, Leaders(w, s), rs, |s|)
            && s[rs[0].begin] == s[rs[1].begin]
            && Code(s, rs[0]) != Code(s, rs[1])
  {
    var w: Widths := map[0 := 4, 4 := 4, 8 := 4];
    var s: Stream := [0, 2, 8, 0, 4, 8, 0];
    var rs := [Region(0, 0, 2, 3), Region(1, 3, 5, 3), Region(2, 6, 6, 1)];
    assert Found(w, s, 6) == {} && Known(w, s, 6);
    assert Found(w, s, 5) == {0, 12} && Known(w, s, 5);
    assert Found(w, s, 4) == {0, 12} && Known(w, s, 4);
    assert Found(w, s, 3) == {0, 12} && Known(w, s, 3);
    assert Found(w, s, 2) == {0, 12} && Known(w, s, 2);
    assert Leaders(w, s) == {0, 12};
    assert Follows(rs, 0) && Follows(rs, 1);
    assert Code(s, rs[0])[1] == 2 && Code(s, rs[1])[1] == 4;
  }

  class BasicBlockPruner {
    const instructions: Widths
    var leaders: set<nat>
    var regions: seq<Region>

    constructor (instructions: Widths)
      ensures this.instructions == instructions && leaders == {} && regions == []
    {
      this.instructions := instructions;
      leaders, regions := {}, [];
    }

    /** First pass.  Fails on an empty trace, and when the width of an instruction is
        not in the disassembly. */
    method FindRegionLeaders(s: Stream) returns (ok: bool)
      requires leaders == {}
      modifies `leaders
      ensures ok <==> s != [] && Known(instructions, s, 0)
      ensures ok ==> leaders == Leaders(instructions, s)
    {
      if s == [] {
        return false;
      }
      leaders := {s[0]};
      var k := 0;
      while k + 1 < |s|
        invariant Known(instructions, s, 0) <==> Known(instructions, s, k)
        invariant leaders + Found(instructions, s, k) == Leaders(instructions, s)
        decreases |s| - k
      {
        var previous, next := s[k], s[k + 1];
        if previous !in instructions {
          return false;
        }
        var width := instructions[previous];
        if previous < next < previous + width {
          k := k + 2;
          continue;
        }
        if previous + width != next {
          leaders := leaders + {next};
          leaders := leaders + {previous + width};
        }
        k := k + 1;
      }
      ok := true;
    }

    /** Second pass: a new region starts at every leader. */
    method FindRegions(s: Stream)
      requires regions == []
      modifies `regions
      ensures Cut(s, leaders, regions, |s|)
    {
      var k := 0;
      while k < |s|
        invariant Cut(s, leaders, regions, k) && (k < |s| ==> k == 0 || s[k] in leaders)
      {
        var begin, count := k, 0;
        var end := k;
        while true
          invariant begin <= k < |s| && count == k - begin
          invariant end == if k == begin then begin else k - 1
          invariant forall p | begin < p <= k :: s[p] !in leaders
          decreases |s| - k
        {
          end := k;
          count := count + 1;
          k := k + 1;
          if !(k < |s| && s[k] !in leaders) {
            break;
          }
        }
        CutStep(s, leaders, regions, begin, end, count);
        regions := regions + [Region(|regions|, begin, end, count)];
      }
    }
  }

  lemma {:induction false} CutStep(s: Stream, leaders: set<nat>, rs: seq<Region>, begin: nat, end: nat, count: nat)
    requires Cut(s, leaders, rs, begin) && begin <= end < |s| && count == end - begin + 1
    requires begin == 0 || s[begin] in leaders
    requires forall p | begin < p <= end :: s[p] !in leaders
    ensures Cut(s, leaders, rs + [Region(|rs|, begin, end, count)], end + 1)
  {
    var out := rs + [Region(|rs|, begin, end, count)];
    forall i | 0 <= i < |out| ensures RegionOk(s, leaders, out[i], i, end + 1) {
      if i < |rs| { assert RegionOk(s, leaders, rs[i], i, begin); }
    }
    forall i | 0 <= i < |out| - 1 ensures Follows(out, i) {
      if i < |rs| - 1 { assert Follows(rs, i); }
    }
  }
}
