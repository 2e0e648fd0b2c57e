/** Parabolic Reflector Dish (`src/bin/14.rs`): the spin cycle, the load on the north support
    beams, the shortcut through repeated states, the reading of the dish and the two parts. */
module Day14 {
  import opened Wrappers
  import opened Text
  import opened Divisibility
  import opened Iteration
  import opened Day14Lines
  import opened Day14Rolls

  // ---------------------------------------------------------------------------------------
  // The spin cycle

  /** `tilt_cycle`, as a function of the grid: north, then west, then south, then east. */
  function Cycle(g: seq<Rock>): (r: seq<Rock>)
    requires |g| == CELLS
    ensures |r| == CELLS
  {
    RollsFrom(g, 0)
  }

  /** Roll number `k` of a spin cycle. */
  function Roll(g: seq<Rock>, k: nat): (r: seq<Rock>)
    requires |g| == CELLS && k < 4
    ensures |r| == CELLS
  {
    if k == 0 then North(g) else if k == 1 then West(g) else if k == 2 then South(g) else East(g)
  }

  /** The rolls of a spin cycle from number `k` on. */
  function RollsFrom(g: seq<Rock>, k: nat): (r: seq<Rock>)
    requires |g| == CELLS && k <= 4
    ensures |r| == CELLS
    decreases 4 - k
  {
    if k == 4 then g else RollsFrom(Roll(g, k), k + 1)
  }

  /** `tilt_cycle`. */
  method TiltCycle(d: Dish) returns (r: Dish)
    requires ValidDish(d)
    ensures ValidDish(r) && r.grid == Cycle(d.grid)
  {
    var north := RollNorth(d);
    assert Cycle(d.grid) == RollsFrom(north.grid, 1);
    var west := RollWest(north);
    assert RollsFrom(north.grid, 1) == RollsFrom(west.grid, 2);
    var south := RollSouth(west);
    assert RollsFrom(west.grid, 2) == RollsFrom(south.grid, 3);
    r := RollEast(south);
    assert RollsFrom(south.grid, 3) == RollsFrom(r.grid, 4) == r.grid;
  }

  /** The spin cycle on any grid: grids of another size are not dishes and stay as they are. */
  function SpinCycle(g: seq<Rock>): (r: seq<Rock>)
    ensures |r| == |g|
  {
    if |g| == CELLS then Cycle(g) else g
  }

  /** The grid after `n` spin cycles. */
  function Spin(g: seq<Rock>, n: nat): seq<Rock>
  {
    Iterate(SpinCycle, g, n)
  }

  /** Spinning keeps the size of the grid, and one more cycle is `Cycle`. */
  lemma {:induction false} SpinNext(g: seq<Rock>, n: nat)
    requires |g| == CELLS
    ensures |Spin(g, n)| == CELLS && Spin(g, n + 1) == Cycle(Spin(g, n))
  {
    if n > 0 {
      SpinNext(g, n - 1);
    }
  }

  /** A spin cycle leaves every cube rock where it is and puts none anywhere else. */
  lemma CycleKeepsCubes(g: seq<Rock>, i: nat)
    requires |g| == CELLS && i < CELLS
    ensures Cycle(g)[i] == Cube <==> g[i] == Cube
  {
    var north := North(g);
    var west := West(north);
    var south := South(west);
    assert Cycle(g) == RollsFrom(north, 1);
    assert RollsFrom(north, 1) == RollsFrom(west, 2);
    assert RollsFrom(west, 2) == RollsFrom(south, 3);
    assert RollsFrom(south, 3) == RollsFrom(East(south), 4) == East(south);
    RolledKeepsCubes(g, true, false, i);
    RolledKeepsCubes(north, false, false, i);
    RolledKeepsCubes(west, true, true, i);
    RolledKeepsCubes(south, false, true, i);
  }

  /** `h` has a cube rock exactly where `g` has one. */
  predicate SameCubes(g: seq<Rock>, h: seq<Rock>)
  {
    |h| == |g| && forall i :: 0 <= i < |g| ==> (h[i] == Cube <==> g[i] == Cube)
  }

  lemma SpinCycleKeepsCubes(g: seq<Rock>, h: seq<Rock>)
    requires |g| == CELLS && SameCubes(g, h)
    ensures SameCubes(g, SpinCycle(h))
  {
    forall i | 0 <= i < CELLS
      ensures SpinCycle(h)[i] == Cube <==> h[i] == Cube
    {
      CycleKeepsCubes(h, i);
    }
  }

  /** So do any number of them. */
  lemma SpinKeepsCubes(g: seq<Rock>, n: nat)
    requires |g| == CELLS
    ensures SameCubes(g, Spin(g, n))
  {
    forall h | SameCubes(g, h)
      ensures SameCubes(g, SpinCycle(h))
    {
      SpinCycleKeepsCubes(g, h);
    }
    IterateKeeps(SpinCycle, g, n, h => SameCubes(g, h));
  }

  // ---------------------------------------------------------------------------------------
  // The load on the north support beams

  /** The load of the first `n` cells: a rounded rock in row `pos / GRID_SIZE` adds
      `GRID_SIZE - pos / GRID_SIZE`. */
  function LoadUpTo(g: seq<Rock>, n: nat): nat
    requires n <= |g| == CELLS
  {
    if n == 0 then 0
    else LoadUpTo(g, n - 1) + (if g[n - 1] == Rounded then GRID_SIZE - (n - 1) / GRID_SIZE else 0)
  }

  /** `load_on_north_support_beams`. */
  function Load(g: seq<Rock>): nat
    requires |g| == CELLS
  {
    LoadUpTo(g, CELLS)
  }

  /** Every rounded rock adds between 1 and `GRID_SIZE`. */
  lemma {:induction false} LoadUpToBounds(g: seq<Rock>, n: nat)
    requires n <= |g| == CELLS
    ensures CountIn(g, 0, n, Rounded) <= LoadUpTo(g, n) <= GRID_SIZE * CountIn(g, 0, n, Rounded)
  {
    if n > 0 {
      LoadUpToBounds(g, n - 1);
    }
  }

  lemma LoadBounds(g: seq<Rock>)
    requires |g| == CELLS
    ensures Count(g, Rounded) <= Load(g) <= GRID_SIZE * Count(g, Rounded)
  {
    LoadUpToBounds(g, CELLS);
  }

  /** The load of `count` rocks of weight `weight` each. */
  function Weighted(weight: nat, count: nat): nat
  {
    if count == 0 then 0 else Weighted(weight, count - 1) + weight
  }

  /** The load row by row: the first `rows` rows, each weighing `GRID_SIZE - row` per rounded
      rock. */
  function RowLoads(g: seq<Rock>, rows: nat): nat
    requires |g| == CELLS && rows <= GRID_SIZE
  {
    if rows == 0 then 0
    else RowLoads(g, rows - 1) + Weighted(GRID_SIZE - (rows - 1), RowCount(g, rows - 1))
  }

  /** The number of rounded rocks in row `row`. */
  function RowCount(g: seq<Rock>, row: nat): nat
    requires |g| == CELLS && row < GRID_SIZE
  {
    CountIn(g, RowStart(row), RowStart(row) + GRID_SIZE, Rounded)
  }

  /** A row counted cell by cell is the count of that line of the grid. */
  lemma RowCountLine(g: seq<Rock>, row: nat)
    requires |g| == CELLS && row < GRID_SIZE
    ensures RowCount(g, row) == Count(Line(g, false, row), Rounded)
  {
    var l := Line(g, false, row);
    assert forall m :: 0 <= m < GRID_SIZE ==> l[m] == g[m + RowStart(row)];
    CountInShift(l, g, 0, GRID_SIZE, RowStart(row), Rounded);
  }

  /** The load up to column `m` of row `row`. */
  lemma {:induction false} LoadUpToRow(g: seq<Rock>, row: nat, m: nat)
    requires |g| == CELLS && row < GRID_SIZE && m <= GRID_SIZE
    ensures LoadUpTo(g, RowStart(row) + m)
         == RowLoads(g, row) + Weighted(GRID_SIZE - row, CountIn(g, RowStart(row), RowStart(row) + m, Rounded))
    decreases row, m
  {
    if m > 0 {
      LoadUpToRow(g, row, m - 1);
      LoadUpToColumn(g, row, m);
    } else if row > 0 {
      LoadUpToRow(g, row - 1, GRID_SIZE);
      LoadUpToNextRow(g, row);
    }
  }

  /** A whole row adds `GRID_SIZE - row` per rounded rock of the row. */
  lemma LoadUpToNextRow(g: seq<Rock>, row: nat)
    requires |g| == CELLS && 0 < row < GRID_SIZE
    requires LoadUpTo(g, RowStart(row - 1) + GRID_SIZE)
          == RowLoads(g, row - 1) + Weighted(GRID_SIZE - (row - 1), CountIn(g, RowStart(row - 1), RowStart(row - 1) + GRID_SIZE, Rounded))
    ensures LoadUpTo(g, RowStart(row))
         == RowLoads(g, row) + Weighted(GRID_SIZE - row, CountIn(g, RowStart(row), RowStart(row), Rounded))
  {
    assert RowStart(row) == RowStart(row - 1) + GRID_SIZE;
  }

  /** One more cell of row `row` adds `GRID_SIZE - row` when it holds a rounded rock. */
  lemma LoadUpToColumn(g: seq<Rock>, row: nat, m: nat)
    requires |g| == CELLS && row < GRID_SIZE && 0 < m <= GRID_SIZE
    requires LoadUpTo(g, RowStart(row) + m - 1)
          == RowLoads(g, row) + Weighted(GRID_SIZE - row, CountIn(g, RowStart(row), RowStart(row) + m - 1, Rounded))
    ensures LoadUpTo(g, RowStart(row) + m)
         == RowLoads(g, row) + Weighted(GRID_SIZE - row, CountIn(g, RowStart(row), RowStart(row) + m, Rounded))
  {
    var start := RowStart(row);
    var before := CountIn(g, start, start + m - 1, Rounded);
    var after := CountIn(g, start, start + m, Rounded);
    var w := GRID_SIZE - row;
    assert (start + m - 1) / GRID_SIZE == row by {
      ModUnique(start + m - 1, GRID_SIZE, row, m - 1);
    }
    if g[start + m - 1] == Rounded {
      assert after == before + 1;
      assert LoadUpTo(g, start + m) == LoadUpTo(g, start + m - 1) + w;
    } else {
      assert after == before;
      assert LoadUpTo(g, start + m) == LoadUpTo(g, start + m - 1);
    }
  }

  /** The load is the sum over the rows of `GRID_SIZE - row` per rounded rock of the row. */
  lemma LoadByRows(g: seq<Rock>)
    requires |g| == CELLS
    ensures Load(g) == RowLoads(g, GRID_SIZE)
  {
    LoadUpToRow(g, GRID_SIZE - 1, GRID_SIZE);
    assert RowStart(GRID_SIZE - 1) + GRID_SIZE == CELLS;
  }

  /** Grids with the same number of rounded rocks in every row have the same load. */
  lemma {:induction false} SameRowCounts(a: seq<Rock>, b: seq<Rock>, rows: nat)
    requires |a| == CELLS && |b| == CELLS && rows <= GRID_SIZE
    requires forall row :: 0 <= row < GRID_SIZE ==> RowCount(a, row) == RowCount(b, row)
    ensures RowLoads(a, rows) == RowLoads(b, rows)
  {
    if rows > 0 {
      SameRowCounts(a, b, rows - 1);
    }
  }

  /** Rolling west or east moves rocks only within their rows, so the north load stays. */
  lemma SidewaysKeepsLoad(g: seq<Rock>)
    requires |g| == CELLS
    ensures Load(West(g)) == Load(g) && Load(East(g)) == Load(g)
  {
    forall row | 0 <= row < GRID_SIZE
      ensures RowCount(West(g), row) == RowCount(g, row)
      ensures RowCount(East(g), row) == RowCount(g, row)
    {
      RolledCounts(g, false, false, row, Rounded);
      RolledCounts(g, false, true, row, Rounded);
      RowCountLine(g, row);
      RowCountLine(West(g), row);
      RowCountLine(East(g), row);
    }
    SameRowCounts(West(g), g, GRID_SIZE);
    SameRowCounts(East(g), g, GRID_SIZE);
    LoadByRows(g);
    LoadByRows(West(g));
    LoadByRows(East(g));
  }

  /** `load_after_cycles`: spin until a grid repeats, then skip whole periods. */
  /** `count` more spin cycles, from the state after `done` of them. */
  method TiltCycles(d: Dish, count: nat, ghost start: seq<Rock>, ghost done: nat) returns (r: Dish)
    requires ValidDish(d) && |start| == CELLS && d.grid == Spin(start, done)
    ensures ValidDish(r) && r.grid == Spin(start, done + count)
  {
    r := d;
    for i := 0 to count
      invariant ValidDish(r) && r.grid == Spin(start, done + i)
    {
      var next := TiltCycle(r);
      SpinStep(start, done + i, r.grid, next.grid);
      r := next;
    }
  }

  /** Once the grid after `cycle` spin cycles is the grid after `first` of them, the grid
      after `cycles` is the grid after only the cycles left over from whole repeats. */
  lemma SpinShortcut(start: seq<Rock>, first: nat, cycle: nat, cycles: nat, remaining: nat,
                     repeated: seq<Rock>, rest: seq<Rock>)
    requires first < cycle <= cycles && remaining == (cycles - cycle) % (cycle - first)
    requires repeated == Spin(start, first) && repeated == Spin(start, cycle)
    requires rest == Spin(start, cycle + remaining)
    ensures rest == Spin(start, cycles)
  {
    Shortcut(SpinCycle, start, first, cycle, cycles);
  }

  /** Every recorded grid is the grid after its own number of spin cycles, each below `cycle`. */
  predicate Recorded(start: seq<Rock>, visited: map<Dish, nat>, cycle: nat)
  {
    forall s :: s in visited ==> 1 <= visited[s] < cycle && s.grid == Spin(start, visited[s])
  }

  /** Recording the grid after `cycle` spin cycles keeps every recorded grid the grid after
      its own number of cycles. */
  lemma Remember(start: seq<Rock>, visited: map<Dish, nat>, state: Dish, cycle: nat)
    requires Recorded(start, visited, cycle)
    requires 1 <= cycle && state.grid == Spin(start, cycle)
    ensures Recorded(start, visited[state := cycle], cycle + 1)
  {
  }

  /** A spin cycle after `n` of them is the `n + 1`-th. */
  lemma SpinStep(start: seq<Rock>, n: nat, previous: seq<Rock>, next: seq<Rock>)
    requires |start| == CELLS && |previous| == CELLS
    requires previous == Spin(start, n) && next == Cycle(previous)
    ensures next == Spin(start, n + 1)
  {
    SpinNext(start, n);
  }

  method LoadAfterCycles(d: Dish, cycles: nat) returns (load: nat)
    requires ValidDish(d)
    ensures |Spin(d.grid, cycles)| == CELLS && load == Load(Spin(d.grid, cycles))
  {
    var state := SpinCycles(d, cycles);
    load := Load(state.grid);
  }

  /** The loop of `load_after_cycles`: spin, and once a state comes back, skip the whole
      repeats and spin only the cycles left over. */
  method SpinCycles(d: Dish, cycles: nat) returns (state: Dish)
    requires ValidDish(d)
    ensures ValidDish(state) && state.grid == Spin(d.grid, cycles)
  {
    var visited: map<Dish, nat> := map[];
    state := d;
    var cycle := 1;
    while cycle <= cycles
      invariant 1 <= cycle <= cycles + 1
      invariant ValidDish(state) && state.grid == Spin(d.grid, cycle - 1)
      invariant Recorded(d.grid, visited, cycle)
    {
      state := TiltCycles(state, 1, d.grid, cycle - 1);
      if state in visited {
        state := SkipRepeats(state, visited, d.grid, cycle, cycles);
        return;
      }
      Remember(d.grid, visited, state, cycle);
      visited := visited[state := cycle];
      cycle := cycle + 1;
    }
  }

  /** The found-repeat branch of `load_after_cycles`: the grid after `cycle` spin cycles was
      seen before, so spinning the cycles left over from whole repeats reaches the grid after
      all `cycles`. */
  method SkipRepeats(state: Dish, visited: map<Dish, nat>, ghost start: seq<Rock>, cycle: nat, cycles: nat)
    returns (r: Dish)
    requires ValidDish(state) && |start| == CELLS && state.grid == Spin(start, cycle)
    requires Recorded(start, visited, cycle) && state in visited && cycle <= cycles
    ensures ValidDish(r) && r.grid == Spin(start, cycles)
  {
    var firstVisited := visited[state];
    var repeatLength := cycle - firstVisited;
    var remaining := (cycles - cycle) % repeatLength;
    r := TiltCycles(state, remaining, start, cycle);
    SpinShortcut(start, firstVisited, cycle, cycles, remaining, state.grid, r.grid);
  }

  // ---------------------------------------------------------------------------------------
  // Reading the dish

  /** `Rock::try_from`. */
  function ParseRock(ch: char): Result<Rock>
  {
    match ch
    case '.' => Ok(Empty)
    case '#' => Ok(Cube)
    case 'O' => Ok(Rounded)
    case _ => Err
  }

  /** The character of a rock in the puzzle input. */
  function Symbol(rock: Rock): char
  {
    match rock
    case Empty => '.'
    case Cube => '#'
    case Rounded => 'O'
  }

  /** A rock's character reads back as that rock, and a character that reads as a rock is that
      rock's character: only '.', '#' and 'O' are accepted. */
  lemma ParseRockSymbol(rock: Rock, ch: char)
    ensures ParseRock(Symbol(rock)) == Ok(rock)
    ensures ParseRock(ch).Ok? ==> Symbol(ParseRock(ch).value) == ch
  {
  }

  /** Every character lands inside the grid: `from_str` would panic otherwise. */
  predicate Fits(lines: seq<String>)
  {
    forall row :: 0 <= row < |lines| ==> row * GRID_SIZE + |lines[row]| <= CELLS
  }

  /** The grid after writing the rocks of `line` from cell `rowStart` on, or the error of its
      first character that is not a rock. */
  function WriteLine(g: seq<Rock>, rowStart: nat, line: String): (r: Result<seq<Rock>>)
    requires |g| == CELLS && rowStart + |line| <= CELLS
    ensures r.Ok? ==> |r.value| == CELLS
  {
    if line == [] then Ok(g)
    else match WriteLine(g, rowStart, line[..|line| - 1])
      case Err => Err
      case Ok(before) =>
        match ParseRock(line[|line| - 1])
        case Err => Err
        case Ok(rock) => Ok(before[rowStart + |line| - 1 := rock])
  }

  /** The grid after writing `lines`, row by row, starting from an empty grid. */
  function WriteLines(lines: seq<String>): (r: Result<seq<Rock>>)
    requires Fits(lines)
    ensures r.Ok? ==> |r.value| == CELLS
  {
    if lines == [] then Ok(Empties(CELLS))
    else match WriteLines(lines[..|lines| - 1])
      case Err => Err
      case Ok(g) => WriteLine(g, (|lines| - 1) * GRID_SIZE, lines[|lines| - 1])
  }

  predicate RockChars(line: String)
  {
    forall col :: 0 <= col < |line| ==> ParseRock(line[col]).Ok?
  }

  /** A line is written exactly when all its characters are rocks. */
  lemma {:induction false} WriteLineOk(g: seq<Rock>, rowStart: nat, line: String)
    requires |g| == CELLS && rowStart + |line| <= CELLS
    ensures WriteLine(g, rowStart, line).Ok? <==> RockChars(line)
  {
    if line != [] {
      var init := line[..|line| - 1];
      WriteLineOk(g, rowStart, init);
      assert forall col :: 0 <= col < |init| ==> init[col] == line[col];
    }
  }

  /** The input is read exactly when all its characters are rocks. */
  lemma {:induction false} WriteLinesOk(lines: seq<String>)
    requires Fits(lines)
    ensures WriteLines(lines).Ok? <==> forall row :: 0 <= row < |lines| ==> RockChars(lines[row])
  {
    if lines != [] {
      var last := |lines| - 1;
      var init := lines[..last];
      WriteLinesOk(init);
      assert forall row :: 0 <= row < last ==> init[row] == lines[row];
      if WriteLines(init).Ok? {
        WriteLineOk(WriteLines(init).value, last * GRID_SIZE, lines[last]);
      }
    }
  }

  /** The cells of a line are the only cells it writes. */
  lemma {:induction false} WriteLineAt(g: seq<Rock>, rowStart: nat, line: String, pos: nat)
    requires |g| == CELLS && rowStart + |line| <= CELLS && pos < CELLS
    requires WriteLine(g, rowStart, line).Ok?
    ensures rowStart <= pos < rowStart + |line| ==> ParseRock(line[pos - rowStart]).Ok?
    ensures WriteLine(g, rowStart, line).value[pos]
         == if rowStart <= pos < rowStart + |line| then ParseRock(line[pos - rowStart]).value else g[pos]
  {
    if line != [] {
      WriteLineAt(g, rowStart, line[..|line| - 1], pos);
    }
  }

  /** The lines of the input as the grid of the puzzle: at most `GRID_SIZE` of them, none
      longer than `GRID_SIZE`. */
  predicate InGrid(lines: seq<String>)
  {
    |lines| <= GRID_SIZE && forall row :: 0 <= row < |lines| ==> |lines[row]| <= GRID_SIZE
  }

  lemma InGridFits(lines: seq<String>)
    requires InGrid(lines)
    ensures Fits(lines)
  {
    forall row | 0 <= row < |lines|
      ensures row * GRID_SIZE + |lines[row]| <= CELLS
    {
      assert row * GRID_SIZE <= (GRID_SIZE - 1) * GRID_SIZE;
    }
  }

  /** In a grid-shaped input that reads, the cell of row `row` and column `col` holds the rock
      of the character there, and a cell no character covers is empty. */
  lemma {:induction false} ParsedCell(lines: seq<String>, row: nat, col: nat)
    requires InGrid(lines) && row < GRID_SIZE && col < GRID_SIZE
    ensures Fits(lines)
    ensures WriteLines(lines).Ok? && row < |lines| && col < |lines[row]| ==>
      var rock := ParseRock(lines[row][col]);
      rock.Ok? && WriteLines(lines).value[row * GRID_SIZE + col] == rock.value
    ensures WriteLines(lines).Ok? && !(row < |lines| && col < |lines[row]|) ==>
      WriteLines(lines).value[row * GRID_SIZE + col] == Empty
  {
    InGridFits(lines);
    if lines != [] && WriteLines(lines).Ok? {
      var last := |lines| - 1;
      var init := lines[..last];
      assert InGrid(init);
      ParsedCell(init, row, col);
      WriteLineAt(WriteLines(init).value, last * GRID_SIZE, lines[last], row * GRID_SIZE + col);
      if row < last {
        assert row * GRID_SIZE + col < last * GRID_SIZE;
      } else if row > last {
        assert row * GRID_SIZE >= last * GRID_SIZE + GRID_SIZE;
      }
    }
  }

  /** `Dish::from_str`: the first character that is not a rock is an error. */
  method FromStr(input: String) returns (r: Result<Dish>)
    requires Fits(Lines(input))
    ensures r.Ok? <==> WriteLines(Lines(input)).Ok?
    ensures r.Ok? ==> ValidDish(r.value) && r.value.grid == WriteLines(Lines(input)).value
  {
    var lines := Lines(input);
    var grid := new Rock[CELLS](_ => Empty);
    assert grid[..] == Empties(CELLS);
    for row := 0 to |lines|
      invariant Fits(lines[..row])
      invariant WriteLines(lines[..row]) == Ok(grid[..])
    {
      var rowStart := row * GRID_SIZE;
      var line := lines[row];
      ghost var previous := grid[..];
      assert line[..|line|] == line;
      for col := 0 to |line|
        invariant WriteLine(previous, rowStart, line[..col]) == Ok(grid[..])
      {
        assert line[..col + 1][..col] == line[..col];
        var rock := ParseRock(line[col]);
        if rock.Err? {
          WriteLinesOk(lines);
          assert !RockChars(lines[row]);
          return Err;
        }
        grid[rowStart + col] := rock.value;
      }
      assert lines[..row + 1][..row] == lines[..row];
    }
    assert lines[..|lines|] == lines;
    return Ok(Dish(grid[..]));
  }

  // ---------------------------------------------------------------------------------------
  // The two parts

  /** `part_one`: the load after rolling north, or nothing when the input does not read. */
  method PartOne(input: String) returns (r: Option<nat>)
    requires Fits(Lines(input))
    ensures r.Some? <==> WriteLines(Lines(input)).Ok?
    ensures r.Some? ==> r.value == Load(North(WriteLines(Lines(input)).value))
  {
    var dish := FromStr(input);
    if dish.Ok? {
      var rolled := RollNorth(dish.value);
      r := Some(Load(rolled.grid));
    } else {
      r := None;
    }
  }

  /** `part_two`: the load after a billion spin cycles. */
  method PartTwo(input: String) returns (r: Option<nat>)
    requires Fits(Lines(input))
    ensures r.Some? <==> WriteLines(Lines(input)).Ok?
    ensures r.Some? ==> var g := Spin(WriteLines(Lines(input)).value, 1_000_000_000);
      |g| == CELLS && r.value == Load(g)
  {
    var dish := FromStr(input);
    if dish.Ok? {
      var load := LoadAfterCycles(dish.value, 1_000_000_000);
      r := Some(load);
    } else {
      r := None;
    }
  }
}
