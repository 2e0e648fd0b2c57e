/** Cosmic Expansion (`src/bin/11.rs`): distances between galaxies on a 140 by 140 star map
    whose empty rows and columns count twice.

    A star is stored as the number of its cell, `row * GRID_SIZE + col`. The distance between
    two stars is measured along each axis separately: every row or column crossed on the way,
    not counting the one the walk starts in, costs 2 when it holds no star and 1 otherwise. */
module Day11 {
  import opened Wrappers
  import opened Text

  const GRID_SIZE: nat := 140
  const CELLS: nat := GRID_SIZE * GRID_SIZE

  /** `StarMap`: the stars in reading order, and which rows and which columns hold none. */
  datatype StarMap = StarMap(stars: seq<nat>, emptyRows: seq<bool>, emptyCols: seq<bool>)

  /** The two flag arrays have one entry per row and per column. */
  predicate ValidStarMap(m: StarMap)
  {
    |m.emptyRows| == GRID_SIZE && |m.emptyCols| == GRID_SIZE
  }

  // ---------------------------------------------------------------------------------------
  // Distances

  /** The cost of crossing one row or column. */
  function Weight(empty: bool): nat
  {
    if empty then 2 else 1
  }

  /** The cost of the rows (or columns) `lo + 1` to `hi`, inclusive: the sum over the range
      `(lo + 1)..=hi`, which is empty when `hi <= lo`. */
  function Span(empty: seq<bool>, lo: nat, hi: nat): (s: nat)
    requires hi <= lo || hi < |empty|
    ensures lo <= hi ==> hi - lo <= s <= 2 * (hi - lo)
    ensures hi <= lo ==> s == 0
    decreases hi
  {
    if hi <= lo then 0 else Span(empty, lo, hi - 1) + Weight(empty[hi])
  }

  /** The cost of one axis: the two coordinates are put in order first. */
  function AxisDistance(empty: seq<bool>, a: nat, b: nat): nat
    requires a == b || (a < |empty| && b < |empty|)
  {
    if a > b then Span(empty, b, a) else Span(empty, a, b)
  }

  /** The row of a star lies within the row flags, unless both stars share a row and no row
      is crossed: otherwise `galactic_distance` indexes past the end of `empty_rows`. */
  predicate RowsIndexable(first: nat, second: nat)
  {
    first / GRID_SIZE == second / GRID_SIZE || (first / GRID_SIZE < GRID_SIZE && second / GRID_SIZE < GRID_SIZE)
  }

  /** `StarMap::galactic_distance`: the column cost plus the row cost. */
  function GalacticDistance(m: StarMap, first: nat, second: nat): nat
    requires ValidStarMap(m) && RowsIndexable(first, second)
  {
    AxisDistance(m.emptyCols, first % GRID_SIZE, second % GRID_SIZE)
      + AxisDistance(m.emptyRows, first / GRID_SIZE, second / GRID_SIZE)
  }

  /** The distance between two cells on the plain, unexpanded grid. */
  function Manhattan(first: nat, second: nat): nat
  {
    Gap(first % GRID_SIZE, second % GRID_SIZE) + Gap(first / GRID_SIZE, second / GRID_SIZE)
  }

  function Gap(a: nat, b: nat): nat
  {
    if a > b then a - b else b - a
  }

  /** The distance does not depend on the order of the two stars. */
  lemma GalacticSymmetric(m: StarMap, first: nat, second: nat)
    requires ValidStarMap(m) && RowsIndexable(first, second)
    ensures RowsIndexable(second, first)
    ensures GalacticDistance(m, first, second) == GalacticDistance(m, second, first)
  {
  }

  /** A star is at distance 0 from itself. */
  lemma GalacticSelf(m: StarMap, star: nat)
    requires ValidStarMap(m)
    ensures RowsIndexable(star, star) && GalacticDistance(m, star, star) == 0
  {
  }

  /** Expansion at most doubles a distance: the expanded distance lies between the plain
      distance and twice it, and it is the plain distance when no crossed row or column is
      empty. */
  lemma GalacticBounds(m: StarMap, first: nat, second: nat)
    requires ValidStarMap(m) && RowsIndexable(first, second)
    ensures Manhattan(first, second) <= GalacticDistance(m, first, second) <= 2 * Manhattan(first, second)
  {
  }

  /** The cost of a range is the cost of its two halves. */
  lemma {:induction false} SpanSplit(empty: seq<bool>, lo: nat, mid: nat, hi: nat)
    requires lo <= mid <= hi && (hi <= lo || hi < |empty|)
    ensures Span(empty, lo, hi) == Span(empty, lo, mid) + Span(empty, mid, hi)
    decreases hi
  {
    if mid < hi {
      SpanSplit(empty, lo, mid, hi - 1);
    }
  }

  /** Going through a third row or column never shortens the way along an axis. */
  lemma AxisTriangle(empty: seq<bool>, a: nat, b: nat, c: nat)
    requires a < |empty| && b < |empty| && c < |empty|
    ensures AxisDistance(empty, a, c) <= AxisDistance(empty, a, b) + AxisDistance(empty, b, c)
  {
    var lo := if a < c then a else c;
    var hi := if a < c then c else a;
    if b <= lo {
      SpanSplit(empty, b, lo, hi);
    } else if b >= hi {
      SpanSplit(empty, lo, hi, b);
    } else {
      SpanSplit(empty, lo, b, hi);
    }
  }

  /** The expanded distance obeys the triangle inequality. */
  lemma GalacticTriangle(m: StarMap, first: nat, via: nat, second: nat)
    requires ValidStarMap(m) && first < CELLS && via < CELLS && second < CELLS
    ensures RowsIndexable(first, via) && RowsIndexable(via, second) && RowsIndexable(first, second)
    ensures GalacticDistance(m, first, second) <= GalacticDistance(m, first, via) + GalacticDistance(m, via, second)
  {
    AxisTriangle(m.emptyCols, first % GRID_SIZE, via % GRID_SIZE, second % GRID_SIZE);
    AxisTriangle(m.emptyRows, first / GRID_SIZE, via / GRID_SIZE, second / GRID_SIZE);
  }

  // ---------------------------------------------------------------------------------------
  // The total over pairs

  /** Every star lies in a row of the map. */
  predicate StarsInGrid(stars: seq<nat>)
  {
    forall i :: 0 <= i < |stars| ==> stars[i] < CELLS
  }

  /** The distances from `first` to each of `others`, added up. */
  function DistancesFrom(m: StarMap, first: nat, others: seq<nat>): nat
    requires ValidStarMap(m) && first < CELLS && StarsInGrid(others)
  {
    if others == [] then 0 else GalacticDistance(m, first, others[0]) + DistancesFrom(m, first, others[1..])
  }

  /** `StarMap::total_galactic_distance`: each star with each later star. */
  function TotalDistance(m: StarMap, stars: seq<nat>): nat
    requires ValidStarMap(m) && StarsInGrid(stars)
  {
    if stars == [] then 0 else DistancesFrom(m, stars[0], stars[1..]) + TotalDistance(m, stars[1..])
  }

  /** The sum over ordered pairs: each star of `stars` with every star of `others`. */
  function OrderedPairs(m: StarMap, stars: seq<nat>, others: seq<nat>): nat
    requires ValidStarMap(m) && StarsInGrid(stars) && StarsInGrid(others)
  {
    if stars == [] then 0 else DistancesFrom(m, stars[0], others) + OrderedPairs(m, stars[1..], others)
  }

  /** The distances to one star, added up over `others`, are the distances from it. */
  lemma {:induction false} DistancesTo(m: StarMap, others: seq<nat>, star: nat)
    requires ValidStarMap(m) && StarsInGrid(others) && star < CELLS
    ensures OrderedPairs(m, others, [star]) == DistancesFrom(m, star, others)
  {
    if others != [] {
      DistancesTo(m, others[1..], star);
      GalacticSymmetric(m, others[0], star);
      assert [star][1..] == [];
      assert DistancesFrom(m, others[0], [star]) == GalacticDistance(m, others[0], star);
    }
  }

  /** Adding a star at the front of the second list. */
  lemma {:induction false} OrderedPairsFront(m: StarMap, stars: seq<nat>, first: nat, others: seq<nat>)
    requires ValidStarMap(m) && StarsInGrid(stars) && StarsInGrid(others) && first < CELLS
    ensures StarsInGrid([first] + others)
    ensures OrderedPairs(m, stars, [first] + others)
         == OrderedPairs(m, stars, [first]) + OrderedPairs(m, stars, others)
    decreases |stars|
  {
    assert ([first] + others)[1..] == others;
    if stars != [] {
      OrderedPairsFront(m, stars[1..], first, others);
      assert [first][1..] == [];
      assert DistancesFrom(m, stars[0], [first] + others)
          == GalacticDistance(m, stars[0], first) + DistancesFrom(m, stars[0], others);
      assert DistancesFrom(m, stars[0], [first]) == GalacticDistance(m, stars[0], first);
    }
  }

  /** The total over unordered pairs is half the total over ordered pairs: counting each pair
      once, in either order, loses nothing. */
  lemma {:induction false} TotalIsHalfOrdered(m: StarMap, stars: seq<nat>)
    requires ValidStarMap(m) && StarsInGrid(stars)
    ensures 2 * TotalDistance(m, stars) == OrderedPairs(m, stars, stars)
  {
    if stars != [] {
      var first, rest := stars[0], stars[1..];
      assert stars == [first] + rest;
      TotalIsHalfOrdered(m, rest);
      OrderedPairsFront(m, rest, first, rest);
      DistancesTo(m, rest, first);
      GalacticSelf(m, first);
    }
  }

  // ---------------------------------------------------------------------------------------
  // Reading the map

  /** The stars of one line, in order, numbered as cells of row `row`. */
  function RowStars(row: nat, line: String): (s: seq<nat>)
  {
    if line == [] then []
    else RowStars(row, line[..|line| - 1]) + (if line[|line| - 1] == '#' then [row * GRID_SIZE + |line| - 1] else [])
  }

  /** The stars of the lines, in reading order. */
  function StarsIn(lines: seq<String>): seq<nat>
  {
    if lines == [] then [] else StarsIn(lines[..|lines| - 1]) + RowStars(|lines| - 1, lines[|lines| - 1])
  }

  /** Line `row` holds a star. */
  predicate RowHasStar(lines: seq<String>, row: int)
  {
    0 <= row < |lines| && '#' in lines[row]
  }

  /** Some line holds a star in column `col`. */
  predicate ColHasStar(lines: seq<String>, col: int)
  {
    lines != [] && (ColHasStar(lines[..|lines| - 1], col) || (0 <= col < |lines[|lines| - 1]| && lines[|lines| - 1][col] == '#'))
  }

  /** Reading one more line adds its stars at the end. */
  lemma ReadStars(done: seq<String>, line: String)
    ensures StarsIn(done + [line]) == StarsIn(done) + RowStars(|done|, line)
  {
    assert (done + [line])[..|done|] == done;
  }

  /** Reading one more line adds a row with a star if the line holds one. */
  lemma ReadRowFlag(done: seq<String>, line: String, y: int)
    ensures RowHasStar(done + [line], y) <==> RowHasStar(done, y) || (y == |done| && '#' in line)
  {
    if 0 <= y < |done| {
      assert (done + [line])[y] == done[y];
    }
  }

  /** Reading one more line adds the columns of its stars. */
  lemma ReadColFlag(done: seq<String>, line: String, x: int)
    ensures ColHasStar(done + [line], x) <==> ColHasStar(done, x) || (0 <= x < |line| && line[x] == '#')
  {
    assert (done + [line])[..|done|] == done;
  }

  /** Every star of the input is inside the grid: `from_str` would index past the end of the
      flag arrays otherwise. */
  predicate StarsFit(lines: seq<String>)
  {
    forall row, col :: 0 <= row < |lines| && 0 <= col < |lines[row]| && lines[row][col] == '#' ==>
      row < GRID_SIZE && col < GRID_SIZE
  }

  /** The map that `from_str` builds. */
  function Parsed(lines: seq<String>): StarMap
  {
    StarMap(StarsIn(lines), seq(GRID_SIZE, row => !RowHasStar(lines, row)),
            seq(GRID_SIZE, col => !ColHasStar(lines, col)))
  }

  /** `StarMap::from_str`: never an error. */
  method FromStr(input: String) returns (r: Result<StarMap>)
    requires StarsFit(Lines(input))
    ensures r == Ok(Parsed(Lines(input)))
  {
    var lines := Lines(input);
    var stars: seq<nat> := [];
    var emptyRows := new bool[GRID_SIZE](_ => true);
    var emptyCols := new bool[GRID_SIZE](_ => true);
    for row := 0 to |lines|
      invariant stars == StarsIn(lines[..row])
      invariant forall y :: 0 <= y < GRID_SIZE ==> (emptyRows[y] <==> !RowHasStar(lines[..row], y))
      invariant forall x :: 0 <= x < GRID_SIZE ==> (emptyCols[x] <==> !ColHasStar(lines[..row], x))
    {
      assert lines[..row + 1] == lines[..row] + [lines[row]];
      stars := ReadLine(lines[..row], lines[row], stars, emptyRows, emptyCols);
    }
    assert lines[..|lines|] == lines;
    var parsed := Parsed(lines);
    assert emptyRows[..] == parsed.emptyRows by {
      forall y | 0 <= y < GRID_SIZE
        ensures emptyRows[y] == parsed.emptyRows[y]
      {
      }
    }
    assert emptyCols[..] == parsed.emptyCols by {
      forall x | 0 <= x < GRID_SIZE
        ensures emptyCols[x] == parsed.emptyCols[x]
      {
      }
    }
    return Ok(StarMap(stars, emptyRows[..], emptyCols[..]));
  }

  /** The inner loop of `from_str`: the stars of one more line, pushed in order, clearing the
      flags of their row and column. */
  method ReadLine(done: seq<String>, line: String, stars: seq<nat>, emptyRows: array<bool>, emptyCols: array<bool>)
    returns (after: seq<nat>)
    requires emptyRows.Length == GRID_SIZE && emptyCols.Length == GRID_SIZE && emptyRows != emptyCols
    requires forall col :: 0 <= col < |line| && line[col] == '#' ==> |done| < GRID_SIZE && col < GRID_SIZE
    requires stars == StarsIn(done)
    requires forall y :: 0 <= y < GRID_SIZE ==> (emptyRows[y] <==> !RowHasStar(done, y))
    requires forall x :: 0 <= x < GRID_SIZE ==> (emptyCols[x] <==> !ColHasStar(done, x))
    modifies emptyRows, emptyCols
    ensures after == StarsIn(done + [line])
    ensures forall y :: 0 <= y < GRID_SIZE ==> (emptyRows[y] <==> !RowHasStar(done + [line], y))
    ensures forall x :: 0 <= x < GRID_SIZE ==> (emptyCols[x] <==> !ColHasStar(done + [line], x))
  {
    var row := |done|;
    after := stars;
    for col := 0 to |line|
      invariant after == StarsIn(done) + RowStars(row, line[..col])
      invariant forall y :: 0 <= y < GRID_SIZE ==>
                  (emptyRows[y] <==> !RowHasStar(done, y) && !(y == row && '#' in line[..col]))
      invariant forall x :: 0 <= x < GRID_SIZE ==>
                  (emptyCols[x] <==> !ColHasStar(done, x) && !(x < col && line[x] == '#'))
    {
      assert line[..col + 1] == line[..col] + [line[col]];
      if line[col] == '#' {
        emptyRows[row] := false;
        emptyCols[col] := false;
        after := after + [row * GRID_SIZE + col];
      }
    }
    assert line[..|line|] == line;
    ReadStars(done, line);
    forall y | 0 <= y < GRID_SIZE
      ensures emptyRows[y] <==> !RowHasStar(done + [line], y)
    {
      ReadRowFlag(done, line, y);
    }
    forall x | 0 <= x < GRID_SIZE
      ensures emptyCols[x] <==> !ColHasStar(done + [line], x)
    {
      ReadColFlag(done, line, x);
    }
  }

  /** A star of the parsed list is a '#' of the input at that row and column. */
  lemma {:induction false} RowStarsAre(row: nat, line: String, s: nat)
    requires forall col :: 0 <= col < |line| && line[col] == '#' ==> col < GRID_SIZE
    ensures s in RowStars(row, line) <==>
              s / GRID_SIZE == row && s % GRID_SIZE < |line| && line[s % GRID_SIZE] == '#'
  {
    if line != [] {
      var last := |line| - 1;
      RowStarsAre(row, line[..last], s);
      if line[last] == '#' {
        CellOf(row, last);
      }
      if s / GRID_SIZE == row && s % GRID_SIZE == last {
        CellOf(s / GRID_SIZE, s % GRID_SIZE);
      }
    }
  }

  /** The cell of a row and a column gives back the row and the column. */
  lemma CellOf(row: nat, col: nat)
    requires col < GRID_SIZE
    ensures (row * GRID_SIZE + col) / GRID_SIZE == row && (row * GRID_SIZE + col) % GRID_SIZE == col
  {
  }

  /** The stars of a line lie in its row, in increasing order. */
  lemma {:induction false} RowStarsOrdered(row: nat, line: String)
    requires forall col :: 0 <= col < |line| && line[col] == '#' ==> col < GRID_SIZE
    ensures forall i :: 0 <= i < |RowStars(row, line)| ==>
              row * GRID_SIZE <= RowStars(row, line)[i] < row * GRID_SIZE + GRID_SIZE
    ensures Increasing(RowStars(row, line))
  {
    if line != [] {
      RowStarsOrdered(row, line[..|line| - 1]);
      var before := RowStars(row, line[..|line| - 1]);
      assert forall i :: 0 <= i < |before| ==> before[i] < row * GRID_SIZE + |line| - 1 by {
        forall i | 0 <= i < |before|
          ensures before[i] < row * GRID_SIZE + |line| - 1
        {
          RowStarsAre(row, line[..|line| - 1], before[i]);
          CellSplit(before[i]);
        }
      }
    }
  }

  /** Strictly increasing: every star comes after the one before it in reading order. */
  predicate Increasing(s: seq<nat>)
  {
    forall i, j :: 0 <= i < j < |s| ==> s[i] < s[j]
  }

  /** A cell in a row above `row` comes before the first cell of `row`. */
  lemma RowBelow(s: nat, row: nat)
    requires s / GRID_SIZE < row
    ensures s < row * GRID_SIZE
  {
    CellSplit(s);
    assert (s / GRID_SIZE + 1) * GRID_SIZE <= row * GRID_SIZE;
  }

  /** A cell is its row times the row length plus its column. */
  lemma CellSplit(s: nat)
    ensures s == (s / GRID_SIZE) * GRID_SIZE + s % GRID_SIZE && s % GRID_SIZE < GRID_SIZE
  {
  }

  /** The parsed stars are exactly the '#' characters of the input, numbered as cells, in
      reading order, and all of them inside the grid. */
  lemma {:induction false} StarsInAre(lines: seq<String>)
    requires StarsFit(lines)
    ensures Increasing(StarsIn(lines)) && StarsInGrid(StarsIn(lines))
    ensures forall s: nat :: s in StarsIn(lines) <==>
              s / GRID_SIZE < |lines| && s % GRID_SIZE < |lines[s / GRID_SIZE]|
              && lines[s / GRID_SIZE][s % GRID_SIZE] == '#'
  {
    if lines != [] {
      var last := |lines| - 1;
      var init := lines[..last];
      assert StarsFit(init) by {
        forall row, col | 0 <= row < |init| && 0 <= col < |init[row]| && init[row][col] == '#'
          ensures row < GRID_SIZE && col < GRID_SIZE
        {
          assert lines[row][col] == '#';
        }
      }
      StarsInAre(init);
      var before, after := StarsIn(init), RowStars(last, lines[last]);
      RowStarsOrdered(last, lines[last]);
      forall s: nat
        ensures s in after <==> s / GRID_SIZE == last && s % GRID_SIZE < |lines[last]|
                                && lines[last][s % GRID_SIZE] == '#'
      {
        RowStarsAre(last, lines[last], s);
      }
      forall i | 0 <= i < |before|
        ensures before[i] < last * GRID_SIZE
      {
        assert before[i] in before;
        RowBelow(before[i], last);
      }
      forall i | 0 <= i < |after|
        ensures after[i] < CELLS
      {
        if after != [] {
          assert lines[last][after[i] % GRID_SIZE] == '#' by {
            assert after[i] in after;
          }
        }
      }
    }
  }

  /** The parsed map has one flag per row and per column, and its stars are in the grid. */
  lemma ParsedValid(lines: seq<String>)
    requires StarsFit(lines)
    ensures ValidStarMap(Parsed(lines)) && StarsInGrid(Parsed(lines).stars)
  {
    StarsInAre(lines);
  }

  /** `StarMap::total_galactic_distance` on a map. */
  function TotalGalacticDistance(m: StarMap): nat
    requires ValidStarMap(m) && StarsInGrid(m.stars)
  {
    TotalDistance(m, m.stars)
  }

  /** `part_one`: the total distance over all pairs of stars of the input. */
  method PartOne(input: String) returns (r: Option<nat>)
    requires StarsFit(Lines(input))
    ensures ValidStarMap(Parsed(Lines(input))) && StarsInGrid(Parsed(Lines(input)).stars)
    ensures r == Some(TotalGalacticDistance(Parsed(Lines(input))))
  {
    var starmap := FromStr(input);
    ParsedValid(Lines(input));
    return Some(TotalGalacticDistance(starmap.value));
  }
}

/** The unit tests of `src/bin/11.rs`. */
module Day11Examples {
  import opened Day11

  function Position(row: nat, col: nat): nat
  {
    row * GRID_SIZE + col
  }

  predicate EmptyRow(row: int)
  {
    !(row == 0 || row == 1 || row == 2 || row == 4 || row == 5 || row == 6 || row == 8 || row == 9)
  }

  predicate EmptyCol(col: int)
  {
    !(col == 0 || col == 1 || col == 3 || col == 4 || col == 6 || col == 7 || col == 9)
  }

  /** The star map of the example, as the tests build it, with the stars written as cell
      numbers. */
  function ExampleMap(): (m: StarMap)
    ensures ValidStarMap(m) && StarsInGrid(m.stars)
  {
    StarMap([3, 147, 280, 566, 701, 849, 1127, 1260, 1264], seq(GRID_SIZE, EmptyRow), seq(GRID_SIZE, EmptyCol))
  }

  lemma ExampleStars()
    ensures ExampleMap().stars
         == [Position(0, 3), Position(1, 7), Position(2, 0), Position(4, 6), Position(5, 1),
             Position(6, 9), Position(8, 7), Position(9, 0), Position(9, 4)]
  {
  }

  /** The cost of rows 1 to `k` of the example: empty rows 3 and 7 count twice. */
  function RowPrefix(k: nat): nat
  {
    match k
    case 0 => 0 case 1 => 1 case 2 => 2 case 3 => 4 case 4 => 5
    case 5 => 6 case 6 => 7 case 7 => 9 case 8 => 10 case _ => 11
  }

  /** The cost of columns 1 to `k` of the example: empty columns 2, 5 and 8 count twice. */
  function ColPrefix(k: nat): nat
  {
    match k
    case 0 => 0 case 1 => 1 case 2 => 3 case 3 => 4 case 4 => 5
    case 5 => 7 case 6 => 8 case 7 => 9 case 8 => 11 case _ => 12
  }

  lemma {:induction false} RowPrefixes(rows: seq<bool>, k: nat)
    requires |rows| == GRID_SIZE && forall r :: 0 <= r < 10 ==> rows[r] == EmptyRow(r)
    requires k < 10
    ensures Span(rows, 0, k) == RowPrefix(k)
  {
    if k > 0 {
      RowPrefixes(rows, k - 1);
    }
  }

  lemma {:induction false} ColPrefixes(cols: seq<bool>, k: nat)
    requires |cols| == GRID_SIZE && forall c :: 0 <= c < 10 ==> cols[c] == EmptyCol(c)
    requires k < 10
    ensures Span(cols, 0, k) == ColPrefix(k)
  {
    if k > 0 {
      ColPrefixes(cols, k - 1);
    }
  }

  lemma ColAxis(i: nat, j: nat)
    requires i < 9 && j < 9
    ensures AxisDistance(ExampleMap().emptyCols, StarCol(i), StarCol(j)) == Gap(ColPrefix(StarCol(i)), ColPrefix(StarCol(j)))
  {
    var cols := ExampleMap().emptyCols;
    AxisByPrefix(cols, StarCol(i), StarCol(j));
    ColPrefixes(cols, StarCol(i));
    ColPrefixes(cols, StarCol(j));
  }

  lemma RowAxis(i: nat, j: nat)
    requires i < 9 && j < 9
    ensures AxisDistance(ExampleMap().emptyRows, StarRow(i), StarRow(j)) == Gap(RowPrefix(StarRow(i)), RowPrefix(StarRow(j)))
  {
    var rows := ExampleMap().emptyRows;
    AxisByPrefix(rows, StarRow(i), StarRow(j));
    RowPrefixes(rows, StarRow(i));
    RowPrefixes(rows, StarRow(j));
  }

  /** Along one axis, the cost is the difference of the two prefix costs. */
  lemma AxisByPrefix(empty: seq<bool>, a: nat, b: nat)
    requires a < |empty| && b < |empty|
    ensures AxisDistance(empty, a, b) == Gap(Span(empty, 0, a), Span(empty, 0, b))
  {
    if a > b {
      SpanSplit(empty, 0, b, a);
    } else {
      SpanSplit(empty, 0, a, b);
    }
  }

  /** The row and the column of each star of the example. */
  function StarRow(i: nat): nat
  {
    match i
    case 0 => 0 case 1 => 1 case 2 => 2 case 3 => 4 case 4 => 5
    case 5 => 6 case 6 => 8 case _ => 9
  }

  function StarCol(i: nat): nat
  {
    match i
    case 0 => 3 case 1 => 7 case 2 => 0 case 3 => 6 case 4 => 1
    case 5 => 9 case 6 => 7 case 7 => 0 case _ => 4
  }

  lemma StarCell(i: nat)
    requires i < 9
    ensures ExampleMap().stars[i] % GRID_SIZE == StarCol(i) && ExampleMap().stars[i] / GRID_SIZE == StarRow(i)
  {
    assert ExampleMap().stars[i] == StarRow(i) * GRID_SIZE + StarCol(i);
    CellOf(StarRow(i), StarCol(i));
  }

  /** The distance between stars `i` and `j` of the example, read off the prefix tables. */
  function TableDistance(i: nat, j: nat): nat
  {
    Gap(ColPrefix(StarCol(i)), ColPrefix(StarCol(j))) + Gap(RowPrefix(StarRow(i)), RowPrefix(StarRow(j)))
  }

  lemma ExampleDistance(i: nat, j: nat)
    requires i < 9 && j < 9
    ensures GalacticDistance(ExampleMap(), ExampleMap().stars[i], ExampleMap().stars[j]) == TableDistance(i, j)
  {
    StarCell(i);
    StarCell(j);
    ColAxis(i, j);
    RowAxis(i, j);
  }

  lemma GalacticDistanceFirstExample()
    ensures GalacticDistance(ExampleMap(), ExampleMap().stars[0], ExampleMap().stars[6]) == 15
  {
    ExampleDistance(0, 6);
  }

  lemma GalacticDistanceSecondExample()
    ensures GalacticDistance(ExampleMap(), ExampleMap().stars[2], ExampleMap().stars[5]) == 17
  {
    ExampleDistance(2, 5);
  }

  lemma GalacticDistanceThirdExample()
    ensures GalacticDistance(ExampleMap(), ExampleMap().stars[7], ExampleMap().stars[8]) == 5
  {
    ExampleDistance(7, 8);
  }

  /** The distances from star `i` to the stars from the `k`-th on, read off the tables. */
  function TableFrom(i: nat, k: nat): nat
    requires k <= 9
    decreases 9 - k
  {
    if k == 9 then 0 else TableDistance(i, k) + TableFrom(i, k + 1)
  }

  lemma {:induction false} DistancesFromTable(i: nat, k: nat)
    requires i < 9 && k <= 9
    ensures DistancesFrom(ExampleMap(), ExampleMap().stars[i], ExampleMap().stars[k..]) == TableFrom(i, k)
    decreases 9 - k
  {
    var s := ExampleMap().stars;
    if k < 9 {
      DistancesFromTable(i, k + 1);
      ExampleDistance(i, k);
      assert s[k..][1..] == s[k + 1..];
    }
  }

  /** The total over the stars from the `k`-th on. */
  function SuffixTotal(k: nat): nat
  {
    match k
    case 0 => 374 case 1 => 287 case 2 => 208 case 3 => 135 case 4 => 92
    case 5 => 53 case 6 => 20 case 7 => 5 case _ => 0
  }

  /** The distances from each star to the later ones, read off the tables. */
  function FromTotal(i: nat): nat
  {
    match i
    case 0 => 87 case 1 => 79 case 2 => 73 case 3 => 43 case 4 => 39
    case 5 => 33 case 6 => 15 case 7 => 5 case _ => 0
  }

  lemma TableTotalZero()
    ensures TableFrom(0, 1) == FromTotal(0)
  {
    assert TableFrom(0, 1) == 87;
  }

  lemma TableTotalOne()
    ensures TableFrom(1, 2) == FromTotal(1)
  {
    assert TableFrom(1, 2) == 79;
  }

  lemma TableTotalsSecond(i: nat)
    requires 2 <= i < 4
    ensures TableFrom(i, i + 1) == FromTotal(i)
  {
    if i == 2 {
      assert TableFrom(2, 3) == 73;
    } else {
      assert TableFrom(3, 4) == 43;
    }
  }

  lemma TableTotalsLast(i: nat)
    requires 4 <= i < 8
    ensures TableFrom(i, i + 1) == FromTotal(i)
  {
    if i == 4 {
      assert TableFrom(4, 5) == 39;
    } else if i == 5 {
      assert TableFrom(5, 6) == 33;
    } else if i == 6 {
      assert TableFrom(6, 7) == 15;
    } else {
      assert TableFrom(7, 8) == 5;
    }
  }

  lemma {:induction false} TotalFrom(k: nat)
    requires k <= 9
    ensures TotalDistance(ExampleMap(), ExampleMap().stars[k..]) == SuffixTotal(k)
    decreases 9 - k
  {
    var stars := ExampleMap().stars;
    if k < 9 {
      TotalFrom(k + 1);
      assert stars[k..][1..] == stars[k + 1..];
      if k < 8 {
        DistancesFromTable(k, k + 1);
        if k == 0 {
          TableTotalZero();
        } else if k == 1 {
          TableTotalOne();
        } else if k < 4 {
          TableTotalsSecond(k);
        } else {
          TableTotalsLast(k);
        }
      }
    }
  }

  /** The total over all pairs of stars of the example, which `part_one` returns. */
  lemma TotalExample()
    ensures TotalDistance(ExampleMap(), ExampleMap().stars) == 374
  {
    TotalFrom(0);
    assert ExampleMap().stars[0..] == ExampleMap().stars;
  }
}
