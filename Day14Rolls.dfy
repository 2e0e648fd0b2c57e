/** Parabolic Reflector Dish (`src/bin/14.rs`): the dish and its four rolls.

    The grid has 100 by 100 cells; the rock at row `row` and column `col` is stored at
    `row * GRID_SIZE + col`. A column (for north and south) or a row (for west and east) is
    called a line here, and `Cell(vertical, line, k)` is the `k`-th cell of a line. */
module Day14Rolls {
  import opened Day14Lines

  const GRID_SIZE: nat := 100
  const CELLS: nat := GRID_SIZE * GRID_SIZE

  /** `Dish`: its grid of rocks, compared and hashed as a whole. */
  datatype Dish = Dish(grid: seq<Rock>)

  predicate ValidDish(d: Dish)
  {
    |d.grid| == CELLS
  }

  // ---------------------------------------------------------------------------------------
  // Lines of the grid

  /** The line a cell lies on: its column when lines are vertical, its row otherwise. */
  function LineOf(vertical: bool, i: nat): nat
  {
    if vertical then i % GRID_SIZE else i / GRID_SIZE
  }

  /** The position of a cell along its line. */
  function IndexOf(vertical: bool, i: nat): nat
  {
    if vertical then i / GRID_SIZE else i % GRID_SIZE
  }

  /** The `k`-th cell of a line: `k * GRID_SIZE + line` down a column, `line * GRID_SIZE + k`
      along a row. */
  function Cell(vertical: bool, line: nat, k: nat): (i: nat)
    requires line < GRID_SIZE && k < GRID_SIZE
    ensures i < CELLS
    ensures LineOf(vertical, i) == line && IndexOf(vertical, i) == k
  {
    if vertical then k * GRID_SIZE + line else line * GRID_SIZE + k
  }

  /** The first cell of a row; the whole row lies inside the grid. */
  function RowStart(row: nat): (start: nat)
    requires row < GRID_SIZE
    ensures start + GRID_SIZE <= CELLS
  {
    assert row * GRID_SIZE <= (GRID_SIZE - 1) * GRID_SIZE;
    row * GRID_SIZE
  }

  /** Every cell is the `IndexOf`-th cell of its line. */
  lemma CellOf(vertical: bool, i: nat)
    requires i < CELLS
    ensures LineOf(vertical, i) < GRID_SIZE && IndexOf(vertical, i) < GRID_SIZE
    ensures Cell(vertical, LineOf(vertical, i), IndexOf(vertical, i)) == i
  {
  }

  /** The rocks of a line, in order. */
  function Line(g: seq<Rock>, vertical: bool, line: nat): (l: seq<Rock>)
    requires |g| == CELLS && line < GRID_SIZE
    ensures |l| == GRID_SIZE
  {
    seq(GRID_SIZE, k requires 0 <= k < GRID_SIZE => g[Cell(vertical, line, k)])
  }

  /** Writing one cell changes one place of one line. */
  lemma LineUpdate(g: seq<Rock>, vertical: bool, line: nat, k: nat, x: Rock, other: nat)
    requires |g| == CELLS && line < GRID_SIZE && k < GRID_SIZE && other < GRID_SIZE
    ensures Line(g[Cell(vertical, line, k) := x], vertical, other)
         == if other == line then Line(g, vertical, line)[k := x] else Line(g, vertical, other)
  {
    var h := g[Cell(vertical, line, k) := x];
    forall m | 0 <= m < GRID_SIZE
      ensures Line(h, vertical, other)[m] == (if other == line then Line(g, vertical, line)[k := x] else Line(g, vertical, other))[m]
    {
      var c := Cell(vertical, other, m);
      assert c == Cell(vertical, line, k) <==> other == line && m == k;
    }
  }

  /** Two grids with the same lines are the same grid. */
  lemma LinesDetermine(a: seq<Rock>, b: seq<Rock>, vertical: bool)
    requires |a| == CELLS && |b| == CELLS
    requires forall line :: 0 <= line < GRID_SIZE ==> Line(a, vertical, line) == Line(b, vertical, line)
    ensures a == b
  {
    forall i | 0 <= i < CELLS
      ensures a[i] == b[i]
    {
      CellOf(vertical, i);
      var line, k := LineOf(vertical, i), IndexOf(vertical, i);
      assert Line(a, vertical, line)[k] == Line(b, vertical, line)[k];
    }
  }

  /** A grid of empty cells has empty lines. */
  lemma EmptyLines(g: seq<Rock>, vertical: bool, line: nat)
    requires |g| == CELLS && line < GRID_SIZE
    requires forall i :: 0 <= i < CELLS ==> g[i] == Empty
    ensures Line(g, vertical, line) == Empties(GRID_SIZE)
  {
  }

  // ---------------------------------------------------------------------------------------
  // The four rolls, as functions of the grid

  function TiltLine(l: seq<Rock>, toEnd: bool): (r: seq<Rock>)
    ensures |r| == |l|
  {
    if toEnd then TiltEnd(l) else Tilt(l)
  }

  /** The grid after every line is tilted, towards the start or the end of the lines. */
  function Rolled(g: seq<Rock>, vertical: bool, toEnd: bool): (r: seq<Rock>)
    requires |g| == CELLS
    ensures |r| == CELLS
  {
    seq(CELLS, i requires 0 <= i < CELLS =>
      CellOf(vertical, i);
      TiltLine(Line(g, vertical, LineOf(vertical, i)), toEnd)[IndexOf(vertical, i)])
  }

  /** Each line of a rolled grid is that line tilted. */
  lemma RolledLines(g: seq<Rock>, vertical: bool, toEnd: bool, line: nat)
    requires |g| == CELLS && line < GRID_SIZE
    ensures Line(Rolled(g, vertical, toEnd), vertical, line) == TiltLine(Line(g, vertical, line), toEnd)
  {
  }

  function North(g: seq<Rock>): (r: seq<Rock>)
    requires |g| == CELLS
    ensures |r| == CELLS
  {
    Rolled(g, true, false)
  }

  function South(g: seq<Rock>): (r: seq<Rock>)
    requires |g| == CELLS
    ensures |r| == CELLS
  {
    Rolled(g, true, true)
  }

  function West(g: seq<Rock>): (r: seq<Rock>)
    requires |g| == CELLS
    ensures |r| == CELLS
  {
    Rolled(g, false, false)
  }

  function East(g: seq<Rock>): (r: seq<Rock>)
    requires |g| == CELLS
    ensures |r| == CELLS
  {
    Rolled(g, false, true)
  }

  // ---------------------------------------------------------------------------------------
  // The loops of `roll_north` and `roll_west`

  /** The line being built after the first `|t|` cells are tilted: the rest is still empty. */
  lemma PaddedSettle(t: seq<Rock>, limit: nat, x: Rock, n: nat)
    requires limit <= |t|
    ensures Settle(t, limit, x) + Empties(n) == match x
      case Empty => t + Empties(n + 1)
      case Cube => (t + Empties(n + 1))[|t| := Cube]
      case Rounded => (t + Empties(n + 1))[limit := Rounded]
  {
    var a := Settle(t, limit, x) + Empties(n);
    var b := t + Empties(n + 1);
    forall m | 0 <= m < |a|
      ensures a[m] == (match x
        case Empty => b
        case Cube => b[|t| := Cube]
        case Rounded => b[limit := Rounded])[m]
    {
      if m < |t| {
        assert b[m] == t[m];
      }
    }
  }

  /** The grid after the inner loop of `roll_north` or `roll_west` meets `x`, the `k`-th cell of
      the line: a cube rock is copied, a rounded rock is written at `limit`. */
  function SlideWrite(g: seq<Rock>, vertical: bool, line: nat, k: nat, limit: nat, x: Rock): (h: seq<Rock>)
    requires |g| == CELLS && line < GRID_SIZE && k < GRID_SIZE && limit < GRID_SIZE
    ensures |h| == CELLS
  {
    match x
    case Empty => g
    case Cube => g[Cell(vertical, line, k) := Cube]
    case Rounded => g[Cell(vertical, line, limit) := Rounded]
  }

  /** What one write does to the lines. */
  lemma SlideWriteLines(g: seq<Rock>, vertical: bool, line: nat, k: nat, limit: nat, x: Rock)
    requires |g| == CELLS && line < GRID_SIZE && k < GRID_SIZE && limit < GRID_SIZE
    ensures var h := SlideWrite(g, vertical, line, k, limit, x);
      && Line(h, vertical, line) == (match x
        case Empty => Line(g, vertical, line)
        case Cube => Line(g, vertical, line)[k := Cube]
        case Rounded => Line(g, vertical, line)[limit := Rounded])
      && forall other :: 0 <= other < GRID_SIZE && other != line ==> Line(h, vertical, other) == Line(g, vertical, other)
  {
    var h := SlideWrite(g, vertical, line, k, limit, x);
    forall other | 0 <= other < GRID_SIZE
      ensures other == line && x != Empty ==> Line(h, vertical, line) == Line(g, vertical, line)[(if x == Cube then k else limit) := x]
      ensures other != line ==> Line(h, vertical, other) == Line(g, vertical, other)
    {
      if x == Cube {
        LineUpdate(g, vertical, line, k, Cube, other);
      } else if x == Rounded {
        LineUpdate(g, vertical, line, limit, Rounded, other);
      }
    }
  }

  /** One step of the inner loop keeps the line equal to the tilt of the cells seen so far,
      followed by cells not yet written, and leaves the other lines alone. */
  lemma SlideStep(g: seq<Rock>, source: seq<Rock>, vertical: bool, line: nat, k: nat)
    requires |g| == CELLS && line < GRID_SIZE && k < GRID_SIZE && |source| == GRID_SIZE
    requires Line(g, vertical, line) == Tilt(source[..k]) + Empties(GRID_SIZE - k)
    ensures Limit(source[..k]) < GRID_SIZE
    ensures Limit(source[..k + 1])
         == if source[k] == Cube then k + 1 else if source[k] == Rounded then Limit(source[..k]) + 1 else Limit(source[..k])
    ensures var h := SlideWrite(g, vertical, line, k, Limit(source[..k]), source[k]);
      && Line(h, vertical, line) == Tilt(source[..k + 1]) + Empties(GRID_SIZE - k - 1)
      && forall other :: 0 <= other < GRID_SIZE && other != line ==> Line(h, vertical, other) == Line(g, vertical, other)
  {
    var x, limit := source[k], Limit(source[..k]);
    assert source[..k + 1] == source[..k] + [x];
    TiltSnoc(source[..k], x);
    PaddedSettle(Tilt(source[..k]), limit, x, GRID_SIZE - k - 1);
    SlideWriteLines(g, vertical, line, k, limit, x);
  }

  /** The inner loop of `roll_north` (down column `line`) and of `roll_west` (along row
      `line`): `limit` is where the next rounded rock comes to rest. */
  method SlideToStart(grid: seq<Rock>, rolled: array<Rock>, vertical: bool, line: nat)
    requires |grid| == CELLS && rolled.Length == CELLS && line < GRID_SIZE
    requires Line(rolled[..], vertical, line) == Empties(GRID_SIZE)
    modifies rolled
    ensures Line(rolled[..], vertical, line) == Tilt(Line(grid, vertical, line))
    ensures forall other :: 0 <= other < GRID_SIZE && other != line ==>
      Line(rolled[..], vertical, other) == Line(old(rolled[..]), vertical, other)
  {
    ghost var source := Line(grid, vertical, line);
    var limit := 0;
    for k := 0 to GRID_SIZE
      invariant limit == Limit(source[..k])
      invariant Line(rolled[..], vertical, line) == Tilt(source[..k]) + Empties(GRID_SIZE - k)
      invariant forall other :: 0 <= other < GRID_SIZE && other != line ==>
        Line(rolled[..], vertical, other) == Line(old(rolled[..]), vertical, other)
    {
      SlideStep(rolled[..], source, vertical, line, k);
      ghost var written := SlideWrite(rolled[..], vertical, line, k, limit, source[k]);
      match grid[Cell(vertical, line, k)] {
        case Empty =>
        case Cube =>
          limit := k + 1;
          rolled[Cell(vertical, line, k)] := Cube;
        case Rounded =>
          rolled[Cell(vertical, line, limit)] := Rounded;
          limit := limit + 1;
      }
      assert rolled[..] == written;
    }
    assert source[..GRID_SIZE] == source;
  }

  // ---------------------------------------------------------------------------------------
  // The loops of `roll_south` and `roll_east`

  lemma ReverseSnoc(s: seq<Rock>, k: nat)
    requires k < |s|
    ensures Reverse(s[k..]) == Reverse(s[k + 1..]) + [s[k]]
  {
  }

  /** One more cell in front of a line being tilted towards its end. */
  lemma TiltEndCons(s: seq<Rock>, k: nat)
    requires k < |s|
    ensures var rest := Reverse(s[k + 1..]);
      && TiltEnd(s[k..]) == Reverse(Settle(Tilt(rest), Limit(rest), s[k]))
      && Limit(Reverse(s[k..]))
        == if s[k] == Cube then |s| - k else if s[k] == Rounded then Limit(rest) + 1 else Limit(rest)
  {
    ReverseSnoc(s, k);
    TiltSnoc(Reverse(s[k + 1..]), s[k]);
  }

  /** The line being built from its end after the last `|t|` cells are tilted. */
  lemma PaddedSettleEnd(t: seq<Rock>, limit: nat, x: Rock, n: nat)
    requires limit <= |t|
    ensures Empties(n) + Reverse(Settle(t, limit, x)) == match x
      case Empty => Empties(n + 1) + Reverse(t)
      case Cube => (Empties(n + 1) + Reverse(t))[n := Cube]
      case Rounded => (Empties(n + 1) + Reverse(t))[n + |t| - limit := Rounded]
  {
    var a := Empties(n) + Reverse(Settle(t, limit, x));
    var b := Empties(n + 1) + Reverse(t);
    forall m | 0 <= m < |a|
      ensures a[m] == (match x
        case Empty => b
        case Cube => b[n := Cube]
        case Rounded => b[n + |t| - limit := Rounded])[m]
    {
      if m > n {
        assert b[m] == Reverse(t)[m - n - 1];
      }
    }
  }

  /** One step of the inner loop of `roll_south` or `roll_east`, at cell `k`: the line is the
      tilt towards the end of the cells seen so far, after cells not yet written. The
      source's `limit` is `GRID_SIZE - 1 - Limit(Reverse(source[k + 1..]))`. */
  lemma EndStep(g: seq<Rock>, source: seq<Rock>, vertical: bool, line: nat, k: nat)
    requires |g| == CELLS && line < GRID_SIZE && k < GRID_SIZE && |source| == GRID_SIZE
    requires Line(g, vertical, line) == Empties(k + 1) + TiltEnd(source[k + 1..])
    ensures k <= GRID_SIZE - 1 - Limit(Reverse(source[k + 1..]))
    ensures var limit := Limit(Reverse(source[k + 1..]));
      Limit(Reverse(source[k..]))
        == if source[k] == Cube then GRID_SIZE - k else if source[k] == Rounded then limit + 1 else limit
    ensures var h := SlideWrite(g, vertical, line, k, GRID_SIZE - 1 - Limit(Reverse(source[k + 1..])), source[k]);
      && Line(h, vertical, line) == Empties(k) + TiltEnd(source[k..])
      && forall other :: 0 <= other < GRID_SIZE && other != line ==> Line(h, vertical, other) == Line(g, vertical, other)
  {
    TiltEndCons(source, k);
    EndStepLine(g, source, vertical, line, k, Reverse(source[k + 1..]));
  }

  lemma EndStepLine(g: seq<Rock>, source: seq<Rock>, vertical: bool, line: nat, k: nat, rest: seq<Rock>)
    requires |g| == CELLS && line < GRID_SIZE && k < GRID_SIZE && |source| == GRID_SIZE
    requires rest == Reverse(source[k + 1..])
    requires Line(g, vertical, line) == Empties(k + 1) + Reverse(Tilt(rest))
    requires TiltEnd(source[k..]) == Reverse(Settle(Tilt(rest), Limit(rest), source[k]))
    ensures var h := SlideWrite(g, vertical, line, k, GRID_SIZE - 1 - Limit(rest), source[k]);
      && Line(h, vertical, line) == Empties(k) + TiltEnd(source[k..])
      && forall other :: 0 <= other < GRID_SIZE && other != line ==> Line(h, vertical, other) == Line(g, vertical, other)
  {
    PaddedSettleEnd(Tilt(rest), Limit(rest), source[k], k);
    SlideWriteLines(g, vertical, line, k, GRID_SIZE - 1 - Limit(rest), source[k]);
  }

  /** The inner loop of `roll_south` (up column `line`) and of `roll_east` (backwards along
      row `line`). `limit` saturates at zero, which only happens once the line is done. */
  method SlideToEnd(grid: seq<Rock>, rolled: array<Rock>, vertical: bool, line: nat)
    requires |grid| == CELLS && rolled.Length == CELLS && line < GRID_SIZE
    requires Line(rolled[..], vertical, line) == Empties(GRID_SIZE)
    modifies rolled
    ensures Line(rolled[..], vertical, line) == TiltEnd(Line(grid, vertical, line))
    ensures forall other :: 0 <= other < GRID_SIZE && other != line ==>
      Line(rolled[..], vertical, other) == Line(old(rolled[..]), vertical, other)
  {
    ghost var source := Line(grid, vertical, line);
    var limit := GRID_SIZE - 1;
    assert Empties(GRID_SIZE) + TiltEnd(source[GRID_SIZE..]) == Empties(GRID_SIZE);
    for k := GRID_SIZE downto 0
      invariant Line(rolled[..], vertical, line) == Empties(k) + TiltEnd(source[k..])
      invariant k > 0 ==> limit + Limit(Reverse(source[k..])) == GRID_SIZE - 1
      invariant forall other :: 0 <= other < GRID_SIZE && other != line ==>
        Line(rolled[..], vertical, other) == Line(old(rolled[..]), vertical, other)
    {
      EndStep(rolled[..], source, vertical, line, k);
      ghost var written := SlideWrite(rolled[..], vertical, line, k, limit, source[k]);
      match grid[Cell(vertical, line, k)] {
        case Empty =>
        case Cube =>
          limit := if k > 0 then k - 1 else 0;
          rolled[Cell(vertical, line, k)] := Cube;
        case Rounded =>
          rolled[Cell(vertical, line, limit)] := Rounded;
          limit := if limit > 0 then limit - 1 else 0;
      }
      assert rolled[..] == written;
    }
    assert source[0..] == source;
  }

  /** The outer loop of `roll_south` (over columns) and of `roll_east` (over rows). */
  method RollToEnd(d: Dish, vertical: bool) returns (r: Dish)
    requires ValidDish(d)
    ensures r.grid == Rolled(d.grid, vertical, true)
  {
    var rolled := new Rock[CELLS](_ => Empty);
    forall l | 0 <= l < GRID_SIZE {
      EmptyLines(rolled[..], vertical, l);
    }
    for line := 0 to GRID_SIZE
      invariant forall l :: 0 <= l < line ==> Line(rolled[..], vertical, l) == TiltEnd(Line(d.grid, vertical, l))
      invariant forall l :: line <= l < GRID_SIZE ==> Line(rolled[..], vertical, l) == Empties(GRID_SIZE)
    {
      SlideToEnd(d.grid, rolled, vertical, line);
    }
    forall l | 0 <= l < GRID_SIZE {
      RolledLines(d.grid, vertical, true, l);
    }
    LinesDetermine(rolled[..], Rolled(d.grid, vertical, true), vertical);
    r := Dish(rolled[..]);
  }

  /** The outer loop of `roll_north` (over columns) and of `roll_west` (over rows). */
  method RollToStart(d: Dish, vertical: bool) returns (r: Dish)
    requires ValidDish(d)
    ensures r.grid == Rolled(d.grid, vertical, false)
  {
    var rolled := new Rock[CELLS](_ => Empty);
    forall l | 0 <= l < GRID_SIZE {
      EmptyLines(rolled[..], vertical, l);
    }
    for line := 0 to GRID_SIZE
      invariant forall l :: 0 <= l < line ==> Line(rolled[..], vertical, l) == Tilt(Line(d.grid, vertical, l))
      invariant forall l :: line <= l < GRID_SIZE ==> Line(rolled[..], vertical, l) == Empties(GRID_SIZE)
    {
      SlideToStart(d.grid, rolled, vertical, line);
    }
    forall l | 0 <= l < GRID_SIZE {
      RolledLines(d.grid, vertical, false, l);
    }
    LinesDetermine(rolled[..], Rolled(d.grid, vertical, false), vertical);
    r := Dish(rolled[..]);
  }

  /** `roll_north`. */
  method RollNorth(d: Dish) returns (r: Dish)
    requires ValidDish(d)
    ensures r.grid == North(d.grid)
  {
    r := RollToStart(d, true);
  }

  /** `roll_west`. */
  method RollWest(d: Dish) returns (r: Dish)
    requires ValidDish(d)
    ensures r.grid == West(d.grid)
  {
    r := RollToStart(d, false);
  }

  /** `roll_south`. */
  method RollSouth(d: Dish) returns (r: Dish)
    requires ValidDish(d)
    ensures r.grid == South(d.grid)
  {
    r := RollToEnd(d, true);
  }

  /** `roll_east`. */
  method RollEast(d: Dish) returns (r: Dish)
    requires ValidDish(d)
    ensures r.grid == East(d.grid)
  {
    r := RollToEnd(d, false);
  }

  // ---------------------------------------------------------------------------------------
  // What every roll keeps and establishes

  /** A roll leaves every cube rock where it is and puts none anywhere else. */
  lemma RolledKeepsCubes(g: seq<Rock>, vertical: bool, toEnd: bool, i: nat)
    requires |g| == CELLS && i < CELLS
    ensures Rolled(g, vertical, toEnd)[i] == Cube <==> g[i] == Cube
  {
    CellOf(vertical, i);
    var l := Line(g, vertical, LineOf(vertical, i));
    assert l[IndexOf(vertical, i)] == g[i];
    if toEnd {
      TiltEndLaws(l);
    } else {
      TiltLaws(l);
    }
  }

  /** A roll keeps the number of rocks of each kind on every line it rolls along. */
  lemma RolledCounts(g: seq<Rock>, vertical: bool, toEnd: bool, line: nat, k: Rock)
    requires |g| == CELLS && line < GRID_SIZE
    ensures Count(Line(Rolled(g, vertical, toEnd), vertical, line), k) == Count(Line(g, vertical, line), k)
  {
    RolledLines(g, vertical, toEnd, line);
    if toEnd {
      TiltEndLaws(Line(g, vertical, line));
    } else {
      TiltLaws(Line(g, vertical, line));
    }
  }

  /** After a roll towards the start of the lines, the cell before a rounded rock is not
      empty. */
  lemma RolledSettledStart(g: seq<Rock>, vertical: bool, line: nat, k: nat)
    requires |g| == CELLS && line < GRID_SIZE && 0 < k < GRID_SIZE
    ensures Rolled(g, vertical, false)[Cell(vertical, line, k)] == Rounded
        ==> Rolled(g, vertical, false)[Cell(vertical, line, k - 1)] != Empty
  {
    RolledLines(g, vertical, false, line);
    TiltLaws(Line(g, vertical, line));
    var l := Line(Rolled(g, vertical, false), vertical, line);
    assert l[k] == Rolled(g, vertical, false)[Cell(vertical, line, k)];
    assert l[k - 1] == Rolled(g, vertical, false)[Cell(vertical, line, k - 1)];
  }

  /** After a roll towards the end of the lines, the cell after a rounded rock is not
      empty. */
  lemma RolledSettledEnd(g: seq<Rock>, vertical: bool, line: nat, k: nat)
    requires |g| == CELLS && line < GRID_SIZE && k + 1 < GRID_SIZE
    ensures Rolled(g, vertical, true)[Cell(vertical, line, k)] == Rounded
        ==> Rolled(g, vertical, true)[Cell(vertical, line, k + 1)] != Empty
  {
    RolledLines(g, vertical, true, line);
    TiltEndLaws(Line(g, vertical, line));
    var l := Line(Rolled(g, vertical, true), vertical, line);
    assert l[k] == Rolled(g, vertical, true)[Cell(vertical, line, k)];
    assert l[k + 1] == Rolled(g, vertical, true)[Cell(vertical, line, k + 1)];
  }

  /** `roll_north` keeps the cube rocks and the number of rounded rocks of each column, and
      leaves no rounded rock with an empty cell north of it. */
  lemma NorthLaws(g: seq<Rock>, row: nat, col: nat)
    requires |g| == CELLS && row < GRID_SIZE && col < GRID_SIZE
    ensures North(g)[Cell(true, col, row)] == Cube <==> g[Cell(true, col, row)] == Cube
    ensures Count(Line(North(g), true, col), Rounded) == Count(Line(g, true, col), Rounded)
    ensures row > 0 && North(g)[Cell(true, col, row)] == Rounded ==> North(g)[Cell(true, col, row - 1)] != Empty
  {
    RolledKeepsCubes(g, true, false, Cell(true, col, row));
    RolledCounts(g, true, false, col, Rounded);
    if row > 0 {
      RolledSettledStart(g, true, col, row);
    }
  }

  /** `roll_south` keeps the cube rocks and the number of rounded rocks of each column, and
      leaves no rounded rock with an empty cell south of it. */
  lemma SouthLaws(g: seq<Rock>, row: nat, col: nat)
    requires |g| == CELLS && row < GRID_SIZE && col < GRID_SIZE
    ensures South(g)[Cell(true, col, row)] == Cube <==> g[Cell(true, col, row)] == Cube
    ensures Count(Line(South(g), true, col), Rounded) == Count(Line(g, true, col), Rounded)
    ensures row + 1 < GRID_SIZE && South(g)[Cell(true, col, row)] == Rounded ==> South(g)[Cell(true, col, row + 1)] != Empty
  {
    RolledKeepsCubes(g, true, true, Cell(true, col, row));
    RolledCounts(g, true, true, col, Rounded);
    if row + 1 < GRID_SIZE {
      RolledSettledEnd(g, true, col, row);
    }
  }

  /** `roll_west` keeps the cube rocks and the number of rounded rocks of each row, and
      leaves no rounded rock with an empty cell west of it. */
  lemma WestLaws(g: seq<Rock>, row: nat, col: nat)
    requires |g| == CELLS && row < GRID_SIZE && col < GRID_SIZE
    ensures West(g)[Cell(false, row, col)] == Cube <==> g[Cell(false, row, col)] == Cube
    ensures Count(Line(West(g), false, row), Rounded) == Count(Line(g, false, row), Rounded)
    ensures col > 0 && West(g)[Cell(false, row, col)] == Rounded ==> West(g)[Cell(false, row, col - 1)] != Empty
  {
    RolledKeepsCubes(g, false, false, Cell(false, row, col));
    RolledCounts(g, false, false, row, Rounded);
    if col > 0 {
      RolledSettledStart(g, false, row, col);
    }
  }

  /** `roll_east` keeps the cube rocks and the number of rounded rocks of each row, and
      leaves no rounded rock with an empty cell east of it. */
  lemma EastLaws(g: seq<Rock>, row: nat, col: nat)
    requires |g| == CELLS && row < GRID_SIZE && col < GRID_SIZE
    ensures East(g)[Cell(false, row, col)] == Cube <==> g[Cell(false, row, col)] == Cube
    ensures Count(Line(East(g), false, row), Rounded) == Count(Line(g, false, row), Rounded)
    ensures col + 1 < GRID_SIZE && East(g)[Cell(false, row, col)] == Rounded ==> East(g)[Cell(false, row, col + 1)] != Empty
  {
    RolledKeepsCubes(g, false, true, Cell(false, row, col));
    RolledCounts(g, false, true, row, Rounded);
    if col + 1 < GRID_SIZE {
      RolledSettledEnd(g, false, row, col);
    }
  }
}
