/** Day 5: the almanac. Seeds pass through a chain of piecewise maps; each map entry shifts
    one interval of source values onto an interval of destination values. */
module Day05 {
  import opened Wrappers
  import opened Text

  datatype Entry = Entry(destStart: nat, sourceStart: nat, length: nat)
  datatype ValueRange = ValueRange(start: nat, length: nat)
  datatype Almanac = Almanac(seeds: seq<nat>, maps: seq<seq<Entry>>)

  // ---------------------------------------------------------------------------------------
  // Converting single values

  function SourceEnd(e: Entry): nat { e.sourceStart + e.length }

  predicate Covers(e: Entry, source: nat) { e.sourceStart <= source < SourceEnd(e) }

  /** `AlmanacMapEntry::convert`. */
  function EntryConvert(e: Entry, source: nat): Option<nat>
  {
    if Covers(e, source) then Some(source - e.sourceStart + e.destStart) else None
  }

  /** An entry maps its source interval onto its destination interval of the same length,
      keeping the offset from the start. */
  lemma EntryImage(e: Entry, source: nat)
    ensures EntryConvert(e, source).Some? <==> e.sourceStart <= source < e.sourceStart + e.length
    ensures EntryConvert(e, source).Some? ==>
              var dest := EntryConvert(e, source).value;
              e.destStart <= dest < e.destStart + e.length && dest - e.destStart == source - e.sourceStart
  {
  }

  /** `AlmanacMap::convert`: the first entry covering the value converts it; a value no
      entry covers is left as it is. */
  function MapConvert(m: seq<Entry>, source: nat): nat
  {
    if m == [] then source
    else
      match EntryConvert(m[0], source)
      case Some(dest) => dest
      case None => MapConvert(m[1..], source)
  }

  /** The first covering entry decides. */
  lemma {:induction false} MapConvertFirst(m: seq<Entry>, source: nat, i: nat)
    requires i < |m| && Covers(m[i], source)
    requires forall j :: 0 <= j < i ==> !Covers(m[j], source)
    ensures MapConvert(m, source) == source - m[i].sourceStart + m[i].destStart
    decreases i
  {
    if i > 0 {
      assert !Covers(m[0], source);
      MapConvertFirst(m[1..], source, i - 1);
    }
  }

  /** Without a covering entry the value is unchanged. */
  lemma {:induction false} MapConvertIdentity(m: seq<Entry>, source: nat)
    requires forall j :: 0 <= j < |m| ==> !Covers(m[j], source)
    ensures MapConvert(m, source) == source
    decreases |m|
  {
    if m != [] {
      assert !Covers(m[0], source);
      MapConvertIdentity(m[1..], source);
    }
  }

  /** Two values covered by exactly the same entries are converted by the same shift. */
  lemma {:induction false} MapConvertShift(m: seq<Entry>, a: nat, x: nat)
    requires a <= x
    requires forall j :: 0 <= j < |m| ==> (Covers(m[j], a) <==> Covers(m[j], x))
    ensures MapConvert(m, x) == MapConvert(m, a) + (x - a)
    decreases |m|
  {
    if m != [] {
      assert Covers(m[0], a) <==> Covers(m[0], x);
      MapConvertShift(m[1..], a, x);
    }
  }

  const SEED_TO_SOIL := [Entry(50, 98, 2), Entry(52, 50, 48)]

  /** The seed-to-soil map of the puzzle's example. */
  lemma SeedToSoilExample()
    ensures MapConvert(SEED_TO_SOIL, 79) == 81 && MapConvert(SEED_TO_SOIL, 14) == 14
    ensures MapConvert(SEED_TO_SOIL, 55) == 57 && MapConvert(SEED_TO_SOIL, 13) == 13
  {
  }

  /** `Almanac::seed_to_location`: the maps applied in order. */
  function Location(maps: seq<seq<Entry>>, seed: nat): nat
  {
    if maps == [] then seed else MapConvert(maps[|maps| - 1], Location(maps[..|maps| - 1], seed))
  }

  /** Applying a chain of maps is applying its first part, then its second. */
  lemma {:induction false} LocationCompose(first: seq<seq<Entry>>, second: seq<seq<Entry>>, seed: nat)
    ensures Location(first + second, seed) == Location(second, Location(first, seed))
    decreases |second|
  {
    if second == [] {
      assert first + second == first;
    } else {
      var n := |second| - 1;
      assert (first + second)[..|first + second| - 1] == first + second[..n];
      LocationCompose(first, second[..n], seed);
    }
  }

  // ---------------------------------------------------------------------------------------
  // Ordered sets of cut points, as the `BTreeSet` keeps them

  predicate Increasing(s: seq<nat>)
  {
    forall i, j :: 0 <= i < j < |s| ==> s[i] < s[j]
  }

  /** Iteration over a `BTreeSet` whose elements are all below `bound`: the elements in
      ascending order. */
  function Ascending(s: set<nat>, bound: nat): (r: seq<nat>)
    ensures Increasing(r)
    ensures forall y :: y in r <==> y in s && y < bound
  {
    if bound == 0 then []
    else
      var below := Ascending(s, bound - 1);
      assert forall i :: 0 <= i < |below| ==> below[i] < bound - 1 by {
        forall i | 0 <= i < |below| ensures below[i] < bound - 1 {
          assert below[i] in below;
        }
      }
      if bound - 1 in s then below + [bound - 1] else below
  }

  function End(range: ValueRange): nat { range.start + range.length }

  /** The test in `convert_range` that skips an entry lying wholly before or after the range. */
  predicate Apart(e: Entry, range: ValueRange)
  {
    End(range) < e.sourceStart || range.start > SourceEnd(e)
  }

  /** The cut points one entry adds: its start when that is after the range's start, and its
      end when that is before the range's end. */
  function EntryCuts(e: Entry, range: ValueRange): set<nat>
  {
    if Apart(e, range) then {}
    else
      (if e.sourceStart > range.start then {e.sourceStart} else {}) +
      (if SourceEnd(e) < End(range) then {SourceEnd(e)} else {})
  }

  /** The cut points of the first `n` entries. Each lies within the range. */
  function Cuts(m: seq<Entry>, range: ValueRange, n: nat): (r: set<nat>)
    requires n <= |m|
    ensures forall y :: y in r ==> range.start <= y <= End(range)
  {
    if n == 0 then {} else Cuts(m, range, n - 1) + EntryCuts(m[n - 1], range)
  }

  /** The `BTreeSet` of `convert_range`: the entries' cut points and the range's end. */
  function CutSet(m: seq<Entry>, range: ValueRange): set<nat>
  {
    Cuts(m, range, |m|) + {End(range)}
  }

  /** The cut points in ascending order. They lie within the range and the last is its end. */
  function CutPoints(m: seq<Entry>, range: ValueRange): (r: seq<nat>)
    ensures Increasing(r) && |r| > 0 && r[|r| - 1] == End(range)
    ensures forall k :: 0 <= k < |r| ==> range.start <= r[k] <= End(range)
  {
    var cuts := Ascending(CutSet(m, range), End(range) + 1);
    assert End(range) in cuts;
    assert forall k :: 0 <= k < |cuts| ==> cuts[k] in CutSet(m, range);
    var i :| 0 <= i < |cuts| && cuts[i] == End(range);
    var last := |cuts| - 1;
    assert cuts[last] in CutSet(m, range);
    cuts
  }

  /** An entry boundary that lies strictly inside the range, or at its start for an entry's
      end, is a cut point. */
  lemma {:induction false} BoundaryIsCut(m: seq<Entry>, range: ValueRange, n: nat, i: nat)
    requires i < n <= |m|
    ensures range.start < m[i].sourceStart <= End(range) ==> m[i].sourceStart in Cuts(m, range, n)
    ensures range.start <= SourceEnd(m[i]) < End(range) ==> SourceEnd(m[i]) in Cuts(m, range, n)
    decreases n
  {
    if i < n - 1 {
      BoundaryIsCut(m, range, n - 1, i);
    }
  }

  // ---------------------------------------------------------------------------------------
  // Converting ranges

  /** The source value where piece `k` begins: the range's start, then each cut in turn. */
  function PieceStart(start: nat, cuts: seq<nat>, k: nat): nat
    requires k < |cuts|
  {
    if k == 0 then start else cuts[k - 1]
  }

  /** The pieces between consecutive cut points, each converted at its first value. */
  function Pieces(m: seq<Entry>, start: nat, cuts: seq<nat>): (r: seq<ValueRange>)
    requires Increasing(cuts) && (cuts != [] ==> start <= cuts[0])
    ensures |r| == |cuts|
  {
    seq(|cuts|, k requires 0 <= k < |cuts| =>
      ValueRange(MapConvert(m, PieceStart(start, cuts, k)), cuts[k] - PieceStart(start, cuts, k)))
  }

  /** `AlmanacMap::convert_range`: collects the cut points in a `BTreeSet`, then walks them in
      ascending order, emitting one converted piece per cut. */
  method ConvertRange(m: seq<Entry>, range: ValueRange) returns (output: seq<ValueRange>)
    ensures output == Pieces(m, range.start, CutPoints(m, range))
  {
    var slices := CollectCuts(m, range);
    var positions := Ascending(slices, range.start + range.length + 1);
    assert positions == CutPoints(m, range);
    output := WalkCuts(m, range.start, positions);
  }

  /** The first half of `convert_range`: the cut points of every entry, then the range's end. */
  method CollectCuts(m: seq<Entry>, range: ValueRange) returns (slices: set<nat>)
    ensures slices == CutSet(m, range)
  {
    slices := {};
    var rangeEnd := range.start + range.length;
    for i := 0 to |m|
      invariant slices == Cuts(m, range, i)
    {
      var entry := m[i];
      var sourceEnd := entry.sourceStart + entry.length;
      if rangeEnd < entry.sourceStart || range.start > sourceEnd {
        continue;
      }
      if entry.sourceStart > range.start {
        slices := slices + {entry.sourceStart};
      }
      if sourceEnd < rangeEnd {
        slices := slices + {sourceEnd};
      }
    }
    slices := slices + {rangeEnd};
  }

  /** The second half of `convert_range`: one piece from `current` to each cut in turn. */
  method WalkCuts(m: seq<Entry>, start: nat, slices: seq<nat>) returns (output: seq<ValueRange>)
    requires Increasing(slices) && (slices != [] ==> start <= slices[0])
    ensures output == Pieces(m, start, slices)
  {
    output := [];
    var current := start;
    for i := 0 to |slices|
      invariant current == if i == 0 then start else slices[i - 1]
      invariant output == Pieces(m, start, slices)[..i]
    {
      var position := slices[i];
      output := output + [ValueRange(MapConvert(m, current), position - current)];
      current := position;
    }
  }

  /** The summed length of a list of ranges. */
  function TotalLength(ranges: seq<ValueRange>): nat
  {
    if ranges == [] then 0 else TotalLength(ranges[..|ranges| - 1]) + ranges[|ranges| - 1].length
  }

  /** The lengths of the first `k` pieces reach from the start to the cut before piece `k`. */
  lemma {:induction false} PiecesPrefixLength(m: seq<Entry>, start: nat, cuts: seq<nat>, k: nat)
    requires Increasing(cuts) && cuts != [] && start <= cuts[0]
    requires k < |cuts|
    ensures PieceStart(start, cuts, k) >= start
    ensures TotalLength(Pieces(m, start, cuts)[..k]) == PieceStart(start, cuts, k) - start
    decreases k
  {
    var pieces := Pieces(m, start, cuts);
    if k > 0 {
      PiecesPrefixLength(m, start, cuts, k - 1);
      assert pieces[..k][..k - 1] == pieces[..k - 1];
    }
  }

  /** The pieces' lengths add up to the range's length. */
  lemma PiecesTotal(m: seq<Entry>, range: ValueRange)
    ensures TotalLength(Pieces(m, range.start, CutPoints(m, range))) == range.length
  {
    var cuts := CutPoints(m, range);
    var pieces := Pieces(m, range.start, cuts);
    var k := |cuts| - 1;
    PiecesPrefixLength(m, range.start, cuts, k);
    assert pieces[..k + 1] == pieces && pieces[..k + 1][..k] == pieces[..k];
  }

  /** No entry boundary lies inside a piece: every value of the piece is covered by the same
      entries as its first value. */
  lemma SameCover(m: seq<Entry>, range: ValueRange, k: nat, x: nat, j: nat)
    requires k < |CutPoints(m, range)| && j < |m|
    requires PieceStart(range.start, CutPoints(m, range), k) <= x < CutPoints(m, range)[k]
    ensures Covers(m[j], PieceStart(range.start, CutPoints(m, range), k)) <==> Covers(m[j], x)
  {
    var cuts := CutPoints(m, range);
    var a := PieceStart(range.start, cuts, k);
    var b := cuts[k];
    var inner := Cuts(m, range, |m|);
    assert forall c :: c in inner ==> c in cuts;
    assert a >= range.start by {
      if k > 0 {
        assert range.start <= cuts[k - 1];
      }
    }
    // Cuts are increasing, so no cut point lies strictly between a and b.
    forall c | c in inner
      ensures c <= a || b <= c
    {
      assert c in cuts;
      var i :| 0 <= i < |cuts| && cuts[i] == c;
      if i < k {
        assert cuts[i] <= cuts[k - 1];
      } else {
        assert cuts[k] <= cuts[i];
      }
    }
    BoundaryIsCut(m, range, |m|, j);
  }

  /** Each piece is the image of a contiguous stretch of the range: piece `k` starts where the
      lengths of the pieces before it end, and its `d`-th value converts to its start plus `d`. */
  lemma PieceShift(m: seq<Entry>, range: ValueRange, k: nat, d: nat)
    requires k < |CutPoints(m, range)|
    requires d < Pieces(m, range.start, CutPoints(m, range))[k].length
    ensures var pieces := Pieces(m, range.start, CutPoints(m, range));
            MapConvert(m, range.start + TotalLength(pieces[..k]) + d) == pieces[k].start + d
  {
    var cuts := CutPoints(m, range);
    var pieces := Pieces(m, range.start, cuts);
    var a := PieceStart(range.start, cuts, k);
    PiecesPrefixLength(m, range.start, cuts, k);
    assert pieces[k] == ValueRange(MapConvert(m, a), cuts[k] - a);
    CutShift(m, range, k, d);
  }

  /** Inside piece `k`, conversion is a shift by the offset from the piece's first value. */
  lemma CutShift(m: seq<Entry>, range: ValueRange, k: nat, d: nat)
    requires k < |CutPoints(m, range)|
    requires PieceStart(range.start, CutPoints(m, range), k) + d < CutPoints(m, range)[k]
    ensures var a := PieceStart(range.start, CutPoints(m, range), k);
            MapConvert(m, a + d) == MapConvert(m, a) + d
  {
    var a := PieceStart(range.start, CutPoints(m, range), k);
    forall j | 0 <= j < |m| ensures Covers(m[j], a) <==> Covers(m[j], a + d) {
      SameCover(m, range, k, a + d, j);
    }
    MapConvertShift(m, a, a + d);
  }

  // ---------------------------------------------------------------------------------------
  // Seeds, ranges of seeds and the lowest location

  /** `Almanac::seed_ranges`: the seeds read in pairs as (start, length). An odd seed count
      makes the source index past the end and panic. */
  function SeedRanges(seeds: seq<nat>): (r: seq<ValueRange>)
    requires |seeds| % 2 == 0
    ensures |r| == |seeds| / 2
  {
    seq(|seeds| / 2, k requires 0 <= k < |seeds| / 2 => ValueRange(seeds[2 * k], seeds[2 * k + 1]))
  }

  /** The ranges written back out as start, length, start, length, ... */
  function Flatten(ranges: seq<ValueRange>): (r: seq<nat>)
    ensures |r| == 2 * |ranges|
  {
    if ranges == [] then [] else Flatten(ranges[..|ranges| - 1]) + [ranges[|ranges| - 1].start, ranges[|ranges| - 1].length]
  }

  /** Reading the seeds in pairs loses nothing: the pairs flatten back to the seeds. */
  lemma {:induction false} SeedRangesFlatten(seeds: seq<nat>)
    requires |seeds| % 2 == 0
    ensures Flatten(SeedRanges(seeds)) == seeds
    decreases |seeds|
  {
    if seeds != [] {
      var init := seeds[..|seeds| - 2];
      var ranges := SeedRanges(seeds);
      assert ranges[..|ranges| - 1] == SeedRanges(init);
      SeedRangesFlatten(init);
      assert seeds == init + [seeds[|seeds| - 2], seeds[|seeds| - 1]];
    }
  }

  /** `Iterator::min`: the least value, or `None` for no values. */
  function Minimum(values: seq<nat>): (r: Option<nat>)
    ensures r.None? <==> values == []
    ensures r.Some? ==> r.value in values && forall k :: 0 <= k < |values| ==> r.value <= values[k]
  {
    if values == [] then None
    else
      var last := values[|values| - 1];
      match Minimum(values[..|values| - 1])
      case None => Some(last)
      case Some(least) => Some(if least <= last then least else last)
  }

  /** `part_one` once the almanac has parsed: the lowest location of any seed. */
  function LowestLocation(almanac: Almanac): (r: Option<nat>)
    ensures r.None? <==> almanac.seeds == []
    ensures r.Some? ==> exists k :: 0 <= k < |almanac.seeds| && r.value == Location(almanac.maps, almanac.seeds[k])
    ensures r.Some? ==> forall k :: 0 <= k < |almanac.seeds| ==> r.value <= Location(almanac.maps, almanac.seeds[k])
  {
    var locations := seq(|almanac.seeds|, k requires 0 <= k < |almanac.seeds| => Location(almanac.maps, almanac.seeds[k]));
    var r := Minimum(locations);
    assert r.Some? ==> exists k :: 0 <= k < |locations| && r.value == locations[k];
    assert forall k :: 0 <= k < |locations| ==> locations[k] == Location(almanac.maps, almanac.seeds[k]);
    r
  }

  function RangePieces(m: seq<Entry>, range: ValueRange): seq<ValueRange>
  {
    Pieces(m, range.start, CutPoints(m, range))
  }

  /** One map applied to every range: the pieces of each range in turn. */
  function Stage(m: seq<Entry>, ranges: seq<ValueRange>): seq<ValueRange>
  {
    if ranges == [] then [] else Stage(m, ranges[..|ranges| - 1]) + RangePieces(m, ranges[|ranges| - 1])
  }

  /** All maps applied in order to the ranges. */
  function Through(maps: seq<seq<Entry>>, ranges: seq<ValueRange>): seq<ValueRange>
  {
    if maps == [] then ranges else Stage(maps[|maps| - 1], Through(maps[..|maps| - 1], ranges))
  }

  function Starts(ranges: seq<ValueRange>): (r: seq<nat>)
    ensures |r| == |ranges|
  {
    seq(|ranges|, k requires 0 <= k < |ranges| => ranges[k].start)
  }

  /** The inner loop of `part_two`: every current range converted, the pieces collected. */
  method ConvertAll(m: seq<Entry>, current: seq<ValueRange>) returns (future: seq<ValueRange>)
    ensures future == Stage(m, current)
  {
    future := [];
    for i := 0 to |current|
      invariant future == Stage(m, current[..i])
    {
      var pieces := ConvertRange(m, current[i]);
      assert current[..i + 1][..i] == current[..i];
      future := future + pieces;
    }
    assert current[..|current|] == current;
  }

  /** `part_two` once the almanac has parsed: the ranges of seeds pushed through each map in
      turn, then the lowest start of the final pieces. */
  method LowestLocationOfRanges(almanac: Almanac) returns (r: Option<nat>)
    requires |almanac.seeds| % 2 == 0
    ensures r == Minimum(Starts(Through(almanac.maps, SeedRanges(almanac.seeds))))
  {
    var seedRanges := SeedRanges(almanac.seeds);
    var current := seedRanges;
    for i := 0 to |almanac.maps|
      invariant current == Through(almanac.maps[..i], seedRanges)
    {
      assert almanac.maps[..i + 1][..i] == almanac.maps[..i];
      current := ConvertAll(almanac.maps[i], current);
    }
    assert almanac.maps[..|almanac.maps|] == almanac.maps;
    r := Minimum(Starts(current));
  }

  // ---------------------------------------------------------------------------------------
  // What part two computes

  predicate Within(range: ValueRange, v: nat) { range.start <= v < End(range) }

  /** A value of the range, or its start when the range is empty. */
  predicate Reaches(range: ValueRange, v: nat) { range.start <= v && (v < End(range) || v == range.start) }

  /** An offset below the total length falls in exactly one piece. */
  lemma {:induction false} LocatePiece(pieces: seq<ValueRange>, offset: nat) returns (k: nat)
    requires offset < TotalLength(pieces)
    ensures k < |pieces| && TotalLength(pieces[..k]) <= offset < TotalLength(pieces[..k]) + pieces[k].length
    decreases |pieces|
  {
    var n := |pieces| - 1;
    if offset < TotalLength(pieces[..n]) {
      k := LocatePiece(pieces[..n], offset);
      assert pieces[..n][..k] == pieces[..k];
    } else {
      k := n;
    }
  }

  /** Every value of a range converts to a value inside one of its pieces. */
  lemma RangeCovered(m: seq<Entry>, range: ValueRange, x: nat) returns (q: ValueRange)
    requires Within(range, x)
    ensures q in RangePieces(m, range) && Within(q, MapConvert(m, x))
  {
    var pieces := RangePieces(m, range);
    PiecesTotal(m, range);
    var k := LocatePiece(pieces, x - range.start);
    var d := x - range.start - TotalLength(pieces[..k]);
    PieceShift(m, range, k, d);
    q := pieces[k];
  }

  lemma {:induction false} StageCovered(m: seq<Entry>, ranges: seq<ValueRange>, i: nat, x: nat) returns (q: ValueRange)
    requires i < |ranges| && Within(ranges[i], x)
    ensures q in Stage(m, ranges) && Within(q, MapConvert(m, x))
    decreases |ranges|
  {
    var n := |ranges| - 1;
    if i < n {
      assert ranges[..n][i] == ranges[i];
      q := StageCovered(m, ranges[..n], i, x);
    } else {
      q := RangeCovered(m, ranges[n], x);
    }
  }

  /** Every value of every starting range reaches, through all maps, a value inside a final piece. */
  lemma {:induction false} ThroughCovered(maps: seq<seq<Entry>>, ranges: seq<ValueRange>, i: nat, x: nat) returns (q: ValueRange)
    requires i < |ranges| && Within(ranges[i], x)
    ensures q in Through(maps, ranges) && Within(q, Location(maps, x))
    decreases |maps|
  {
    if maps == [] {
      q := ranges[i];
    } else {
      var n := |maps| - 1;
      var before := ThroughCovered(maps[..n], ranges, i, x);
      var earlier := Through(maps[..n], ranges);
      var j :| 0 <= j < |earlier| && earlier[j] == before;
      q := StageCovered(maps[n], earlier, j, Location(maps[..n], x));
    }
  }

  /** Each value a piece reaches is the conversion of a value its range reaches. */
  lemma PieceOrigin(m: seq<Entry>, range: ValueRange, k: nat, v: nat) returns (y: nat)
    requires k < |RangePieces(m, range)| && Reaches(RangePieces(m, range)[k], v)
    ensures Reaches(range, y) && v == MapConvert(m, y)
  {
    var cuts := CutPoints(m, range);
    var pieces := RangePieces(m, range);
    var q := pieces[k];
    var a := PieceStart(range.start, cuts, k);
    PiecesPrefixLength(m, range.start, cuts, k);
    if k > 0 {
      assert cuts[k - 1] < cuts[k];
    }
    var d := v - q.start;
    y := a + d;
    if d < q.length {
      PieceShift(m, range, k, d);
    } else {
      assert q.start == MapConvert(m, a);
    }
  }

  lemma {:induction false} StageOrigin(m: seq<Entry>, ranges: seq<ValueRange>, q: ValueRange, v: nat) returns (i: nat, y: nat)
    requires q in Stage(m, ranges) && Reaches(q, v)
    ensures i < |ranges| && Reaches(ranges[i], y) && v == MapConvert(m, y)
    decreases |ranges|
  {
    var n := |ranges| - 1;
    var earlier := Stage(m, ranges[..n]);
    if q in earlier {
      i, y := StageOrigin(m, ranges[..n], q, v);
      assert ranges[..n][i] == ranges[i];
    } else {
      var pieces := RangePieces(m, ranges[n]);
      var k :| 0 <= k < |pieces| && pieces[k] == q;
      i := n;
      y := PieceOrigin(m, ranges[n], k, v);
    }
  }

  /** Each value a final piece reaches is the location of a value some starting range reaches. */
  lemma {:induction false} ThroughOrigin(maps: seq<seq<Entry>>, ranges: seq<ValueRange>, q: ValueRange, v: nat) returns (i: nat, x: nat)
    requires q in Through(maps, ranges) && Reaches(q, v)
    ensures i < |ranges| && Reaches(ranges[i], x) && v == Location(maps, x)
    decreases |maps|
  {
    if maps == [] {
      i :| 0 <= i < |ranges| && ranges[i] == q;
      x := v;
    } else {
      var n := |maps| - 1;
      var earlier := Through(maps[..n], ranges);
      var j, y := StageOrigin(maps[n], earlier, q, v);
      i, x := ThroughOrigin(maps[..n], ranges, earlier[j], y);
    }
  }

  /** Each range gives at least one piece, so pieces remain exactly when ranges were given. */
  lemma {:induction false} StageEmpty(m: seq<Entry>, ranges: seq<ValueRange>)
    ensures Stage(m, ranges) == [] <==> ranges == []
  {
  }

  lemma {:induction false} ThroughEmpty(maps: seq<seq<Entry>>, ranges: seq<ValueRange>)
    ensures Through(maps, ranges) == [] <==> ranges == []
    decreases |maps|
  {
    if maps != [] {
      var n := |maps| - 1;
      ThroughEmpty(maps[..n], ranges);
      StageEmpty(maps[n], Through(maps[..n], ranges));
    }
  }

  /** The answer of part two is no higher than the location of any seed in any seed range. */
  lemma LowestLocationOfRangesBelow(almanac: Almanac, i: nat, x: nat)
    requires |almanac.seeds| % 2 == 0
    requires i < |almanac.seeds| / 2 && Within(SeedRanges(almanac.seeds)[i], x)
    ensures var r := Minimum(Starts(Through(almanac.maps, SeedRanges(almanac.seeds))));
            r.Some? && r.value <= Location(almanac.maps, x)
  {
    var finals := Through(almanac.maps, SeedRanges(almanac.seeds));
    var q := ThroughCovered(almanac.maps, SeedRanges(almanac.seeds), i, x);
    var j :| 0 <= j < |finals| && finals[j] == q;
    assert Starts(finals)[j] == q.start;
  }

  /** The answer of part two is the location of a seed in a seed range, or of the start of an
      empty seed range; so with no empty seed ranges it is the lowest location of any seed in
      them. There is an answer exactly when there are seeds. */
  lemma LowestLocationOfRangesAttained(almanac: Almanac)
    requires |almanac.seeds| % 2 == 0
    ensures var r := Minimum(Starts(Through(almanac.maps, SeedRanges(almanac.seeds))));
            (r.None? <==> almanac.seeds == []) &&
            (r.Some? ==> exists i, x :: 0 <= i < |almanac.seeds| / 2 && Reaches(SeedRanges(almanac.seeds)[i], x) && r.value == Location(almanac.maps, x))
  {
    var seedRanges := SeedRanges(almanac.seeds);
    var finals := Through(almanac.maps, seedRanges);
    ThroughEmpty(almanac.maps, seedRanges);
    var r := Minimum(Starts(finals));
    if r.Some? {
      var j :| 0 <= j < |finals| && Starts(finals)[j] == r.value;
      var i, x := ThroughOrigin(almanac.maps, seedRanges, finals[j], finals[j].start);
    }
  }

  // ---------------------------------------------------------------------------------------
  // Parsing

  /** `u64::from_str`. */
  function U64Of(s: String): (r: Result<nat>)
    ensures r.Ok? ==> r.value < U64_LIMIT
  {
    match ParseUnsigned(s, U64_LIMIT)
    case None => Err
    case Some(v) => Ok(v)
  }

  /** A map entry line: exactly three `u64` values, destination start, source start and length. */
  function EntryOf(text: String): Result<Entry>
  {
    var words := SplitWhitespace(text);
    if |words| != 3 then Err
    else
      match U64Of(words[0])
      case Err => Err
      case Ok(destStart) =>
        match U64Of(words[1])
        case Err => Err
        case Ok(sourceStart) =>
          match U64Of(words[2])
          case Err => Err
          case Ok(length) => Ok(Entry(destStart, sourceStart, length))
  }

  /** `AlmanacMapEntry::from_str`: each word's parse result is kept in the slot its position
      names; a fourth word is an error at once, and a slot never filled, or filled with an
      error, is an error at the end. */
  method ParseEntry(text: String) returns (r: Result<Entry>)
    ensures r == EntryOf(text)
  {
    var destStart: Result<nat> := Err;
    var sourceStart: Result<nat> := Err;
    var length: Result<nat> := Err;
    var words := SplitWhitespace(text);
    for ix := 0 to |words|
      invariant ix <= 3
      invariant destStart == if ix > 0 then U64Of(words[0]) else Err
      invariant sourceStart == if ix > 1 then U64Of(words[1]) else Err
      invariant length == if ix > 2 then U64Of(words[2]) else Err
    {
      var value := U64Of(words[ix]);
      if ix == 0 {
        destStart := value;
      } else if ix == 1 {
        sourceStart := value;
      } else if ix == 2 {
        length := value;
      } else {
        return Err;
      }
    }
    if destStart.Err? || sourceStart.Err? || length.Err? {
      return Err;
    }
    r := Ok(Entry(destStart.value, sourceStart.value, length.value));
  }

  function EntryText(e: Entry): String
  {
    Join([Decimal(e.destStart), Decimal(e.sourceStart), Decimal(e.length)], " ")
  }

  /** An entry with `u64` values, written out with single spaces, parses back to itself. */
  lemma EntryRoundTrip(e: Entry)
    requires e.destStart < U64_LIMIT && e.sourceStart < U64_LIMIT && e.length < U64_LIMIT
    ensures EntryOf(EntryText(e)) == Ok(e)
  {
    var words := [Decimal(e.destStart), Decimal(e.sourceStart), Decimal(e.length)];
    forall k, i | 0 <= k < 3 && 0 <= i < |words[k]| ensures !IsWhitespace(words[k][i]) {
      assert IsDigit(words[k][i]);
    }
    SplitWhitespaceJoin(words);
    ParseDecimal(e.destStart, U64_LIMIT);
    ParseDecimal(e.sourceStart, U64_LIMIT);
    ParseDecimal(e.length, U64_LIMIT);
  }

  /** A map section: a header line, then one entry per line. */
  function MapOf(text: String): Result<seq<Entry>>
  {
    var lines := Lines(text);
    if lines == [] then Ok([]) else ParseEach(EntryOf, lines[1..])
  }

  /** `AlmanacMap::from_str`: skips the first line and parses each later one as an entry. */
  method ParseMap(text: String) returns (r: Result<seq<Entry>>)
    ensures r == MapOf(text)
  {
    var lines := Lines(text);
    var entries := [];
    for ix := 0 to |lines|
      invariant ix == 0 ==> entries == []
      invariant ix > 0 ==> ParseEach(EntryOf, lines[1..ix]) == Ok(entries)
    {
      if ix == 0 {
        assert lines[1..1] == [];
        continue;
      }
      var entry := ParseEntry(lines[ix]);
      if entry.Err? {
        ParseEachSkipFails(EntryOf, lines, ix);
        return Err;
      }
      ParseEachSkipStep(EntryOf, lines, ix, entry.value);
      entries := entries + [entry.value];
    }
    if lines == [] {
      return Ok([]);
    }
    assert lines[1..|lines|] == lines[1..];
    r := Ok(entries);
  }

  /** The first section: "seeds: " and the seed values. */
  function SeedsOf(section: String): Result<seq<nat>>
  {
    match StripPrefix(section, "seeds: ")
    case None => Err
    case Some(seedsText) => ParseEach(U64Of, SplitWhitespace(seedsText))
  }

  /** The first section of `Almanac::from_str`, pushing each seed in turn. */
  method ParseSeeds(section: String) returns (r: Result<seq<nat>>)
    ensures r == SeedsOf(section)
  {
    var seedsText := StripPrefix(section, "seeds: ");
    if seedsText.None? {
      return Err;
    }
    var words := SplitWhitespace(seedsText.value);
    var seeds := [];
    for i := 0 to |words|
      invariant ParseEach(U64Of, words[..i]) == Ok(seeds)
    {
      var seed := U64Of(words[i]);
      if seed.Err? {
        ParseEachFails(U64Of, words, i);
        return Err;
      }
      ParseEachExtend(U64Of, words, i, seed.value);
      seeds := seeds + [seed.value];
    }
    assert words[..|words|] == words;
    r := Ok(seeds);
  }

  /** The almanac: sections separated by blank lines, the seeds first and then the maps. */
  function AlmanacOf(text: String): Result<Almanac>
  {
    var sections := Split(text, "\n\n");
    match SeedsOf(sections[0])
    case Err => Err
    case Ok(seeds) =>
      match ParseEach(MapOf, sections[1..])
      case Err => Err
      case Ok(maps) => Ok(Almanac(seeds, maps))
  }

  /** `Almanac::from_str`. */
  method ParseAlmanac(text: String) returns (r: Result<Almanac>)
    ensures r == AlmanacOf(text)
  {
    var sections := Split(text, "\n\n");
    var seeds := [];
    var maps := [];
    for ix := 0 to |sections|
      invariant ix > 0 ==> SeedsOf(sections[0]) == Ok(seeds)
      invariant ix == 0 ==> maps == []
      invariant ix > 0 ==> ParseEach(MapOf, sections[1..ix]) == Ok(maps)
    {
      if ix == 0 {
        assert sections[1..1] == [];
        var parsed := ParseSeeds(sections[0]);
        if parsed.Err? {
          return Err;
        }
        seeds := parsed.value;
      } else {
        var parsedMap := ParseMap(sections[ix]);
        if parsedMap.Err? {
          ParseEachSkipFails(MapOf, sections, ix);
          return Err;
        }
        ParseEachSkipStep(MapOf, sections, ix, parsedMap.value);
        maps := maps + [parsedMap.value];
      }
    }
    assert sections[1..|sections|] == sections[1..];
    r := Ok(Almanac(seeds, maps));
  }

  /** `part_one`: the lowest location of the seeds, or `None` when the almanac does not parse
      or lists no seeds. */
  function PartOne(input: String): (r: Option<nat>)
    ensures r.None? <==> AlmanacOf(input).Err? || AlmanacOf(input).value.seeds == []
    ensures r.Some? ==> AlmanacOf(input).Ok? &&
                        var almanac := AlmanacOf(input).value;
                        && (exists k :: 0 <= k < |almanac.seeds| && r.value == Location(almanac.maps, almanac.seeds[k]))
                        && (forall k :: 0 <= k < |almanac.seeds| ==> r.value <= Location(almanac.maps, almanac.seeds[k]))
  {
    match AlmanacOf(input)
    case Err => None
    case Ok(almanac) => LowestLocation(almanac)
  }

  /** `part_two`: the lowest start of the ranges of seeds after every map. An almanac with an
      odd number of seeds makes `seed_ranges` index past the end. */
  method PartTwo(input: String) returns (r: Option<nat>)
    requires AlmanacOf(input).Ok? ==> |AlmanacOf(input).value.seeds| % 2 == 0
    ensures r == match AlmanacOf(input)
                 case Err => None
                 case Ok(almanac) => Minimum(Starts(Through(almanac.maps, SeedRanges(almanac.seeds))))
  {
    var almanac := ParseAlmanac(input);
    if almanac.Err? {
      return None;
    }
    r := LowestLocationOfRanges(almanac.value);
  }
}
