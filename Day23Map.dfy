/** Day 23: the trail map of a forest walk. The map is a square of 141 by 141 cells stored
    row-major; a cell is open ground, the start, the finish, forest, or a steep slope that
    can only be left downhill (east for '>', south for 'v'). The text is read line by line:
    an open cell on the first line is the start, and the last open cell seen on any later
    line is the finish. */
module Day23Map {
  import opened Wrappers
  import opened Text
  import opened Divisibility
  import opened GridText

  /** The side of the square map. */
  const GRID_SIZE: nat := 141

  /** The number of cells of the map. */
  const CELLS: nat := GRID_SIZE * GRID_SIZE

  datatype Direction = North | East | South | West

  /** The directions in the order a hike tries them. */
  const COMPASS: seq<Direction> := [North, East, South, West]

  datatype Trail = Empty | Start | Finish | Forest | SlopeWE | SlopeNS

  /** `Trail::can_exit_in_direction`: whether a hike may leave the cell in that direction. */
  function CanExit(trail: Trail, direction: Direction): bool
  {
    match trail
    case Empty | Start => true
    case Forest | Finish => false
    case SlopeNS => direction == South
    case SlopeWE => direction == East
  }

  /** The directions a cell can be left in. */
  function Exits(trail: Trail): (exits: set<Direction>)
    ensures forall d :: d in exits <==> CanExit(trail, d)
  {
    set d: Direction | CanExit(trail, d)
  }

  /** Open ground and the start can be left every way, forest and the finish not at all,
      and a slope only downhill. */
  lemma ExitsOfTrails()
    ensures Exits(Empty) == Exits(Start) == {North, East, South, West}
    ensures Exits(Forest) == Exits(Finish) == {}
    ensures Exits(SlopeNS) == {South} && Exits(SlopeWE) == {East}
  {
    assert forall d: Direction :: d in Exits(Empty) && d in Exits(Start);
    forall d | d in Exits(Start)
      ensures d in {North, East, South, West}
    {
      match d
      case North =>
      case East =>
      case South =>
      case West =>
    }
  }

  /** The change of row and of column a step in the direction makes. */
  function RowOffset(d: Direction): int
  {
    match d
    case North => -1
    case South => 1
    case _ => 0
  }

  function ColOffset(d: Direction): int
  {
    match d
    case West => -1
    case East => 1
    case _ => 0
  }

  /** The direction back. */
  function Opposite(d: Direction): Direction
  {
    match d
    case North => South
    case East => West
    case South => North
    case West => East
  }

  /** The index of the cell in row `row`, column `col`. */
  function Cell(row: nat, col: nat): nat
  {
    row * GRID_SIZE + col
  }

  /** A cell's row and column give it back. */
  lemma CellOfRowCol(row: nat, col: nat)
    requires col < GRID_SIZE
    ensures Cell(row, col) / GRID_SIZE == row && Cell(row, col) % GRID_SIZE == col
  {
    ModUnique(Cell(row, col), GRID_SIZE, row, col);
  }

  /** A cell lies on the map exactly when its row does. */
  lemma CellInGrid(row: nat, col: nat)
    requires col < GRID_SIZE
    ensures Cell(row, col) < CELLS <==> row < GRID_SIZE
  {
    if row < GRID_SIZE {
      MulSub(GRID_SIZE, GRID_SIZE, row);
      MulAtLeast(GRID_SIZE, GRID_SIZE - row);
    } else {
      MulSub(GRID_SIZE, row, GRID_SIZE);
      MulNonnegative(GRID_SIZE, row - GRID_SIZE);
    }
  }

  /** Every index is the cell of its row and column. */
  lemma RowColOfCell(pos: nat)
    ensures pos == Cell(pos / GRID_SIZE, pos % GRID_SIZE) && pos % GRID_SIZE < GRID_SIZE
  {
    DivMod(pos, GRID_SIZE);
  }

  /** `TrailMap::step_in_direction`: the neighbouring cell, or None off the edge. */
  function StepInDirection(pos: nat, direction: Direction): Option<nat>
  {
    var row := pos / GRID_SIZE;
    var col := pos % GRID_SIZE;
    match direction
    case North => if row > 0 then Some(pos - GRID_SIZE) else None
    case East => if col + 1 < GRID_SIZE then Some(pos + 1) else None
    case South => if row + 1 < GRID_SIZE then Some(pos + GRID_SIZE) else None
    case West => if col > 0 then Some(pos - 1) else None
  }

  /** From a cell of the map, a step is None exactly when the neighbour in that direction
      lies off the map, and otherwise it is that neighbour. */
  lemma StepInDirectionCells(row: nat, col: nat, direction: Direction)
    requires row < GRID_SIZE && col < GRID_SIZE
    ensures var next := StepInDirection(Cell(row, col), direction);
            var nextRow := row + RowOffset(direction);
            var nextCol := col + ColOffset(direction);
            && (next.Some? <==> 0 <= nextRow < GRID_SIZE && 0 <= nextCol < GRID_SIZE)
            && (next.Some? ==> next.value == Cell(nextRow, nextCol))
  {
    CellOfRowCol(row, col);
    var pos := Cell(row, col);
    if direction == North && row > 0 {
      assert pos - GRID_SIZE == (row - 1) * GRID_SIZE + col;
    } else if direction == South {
      assert pos + GRID_SIZE == (row + 1) * GRID_SIZE + col;
    }
  }

  /** A step from a cell of the map stays on the map. */
  lemma StepInGrid(pos: nat, direction: Direction)
    requires pos < CELLS
    ensures var next := StepInDirection(pos, direction);
            next.Some? ==> next.value < CELLS
  {
    RowColOfCell(pos);
    var row, col := pos / GRID_SIZE, pos % GRID_SIZE;
    CellInGrid(row, col);
    StepInDirectionCells(row, col, direction);
    if StepInDirection(pos, direction).Some? {
      CellInGrid(row + RowOffset(direction), col + ColOffset(direction));
    }
  }

  /** A step that stays on the map can be walked back. */
  lemma StepBack(pos: nat, direction: Direction)
    requires pos < CELLS
    ensures var next := StepInDirection(pos, direction);
            next.Some? ==> StepInDirection(next.value, Opposite(direction)) == Some(pos)
  {
    RowColOfCell(pos);
    var row, col := pos / GRID_SIZE, pos % GRID_SIZE;
    CellInGrid(row, col);
    StepInDirectionCells(row, col, direction);
    if StepInDirection(pos, direction).Some? {
      StepInDirectionCells(row + RowOffset(direction), col + ColOffset(direction), Opposite(direction));
    }
  }

  // ---------------------------------------------------------------------------------------
  // Reading the map

  /** The cell a character stands for, wherever it is: '.' is open ground. */
  function TrailChar(ch: char): Result<Trail>
  {
    match ch
    case '.' => Ok(Empty)
    case '#' => Ok(Forest)
    case '>' => Ok(SlopeWE)
    case 'v' => Ok(SlopeNS)
    case _ => Err
  }

  /** The cell a character on line `row` stands for: '.' on the first line is the start. */
  function ReadTrail(ch: char, row: nat): (r: Result<Trail>)
    ensures r.Err? <==> TrailChar(ch).Err?
    ensures r.Ok? ==> (r.value == Start <==> ch == '.' && row == 0)
  {
    if ch == '.' && row == 0 then Ok(Start) else TrailChar(ch)
  }

  /** An open cell below the first line, at or after character `col` of line `row`. */
  predicate DotFrom(lines: seq<String>, row: nat, col: nat)
  {
    exists r, k :: row <= r < |lines| && 0 < r && 0 <= k < |lines[r]| && (r > row || k >= col) && lines[r][k] == '.'
  }

  /** An open cell below the first line from here on is either this one or one further on. */
  lemma DotStep(lines: seq<String>, row: nat, col: nat)
    requires row < |lines| && col <= |lines[row]|
    ensures col == |lines[row]| ==> (DotFrom(lines, row, col) <==> DotFrom(lines, row + 1, 0))
    ensures col < |lines[row]| ==>
              (DotFrom(lines, row, col) <==> (row > 0 && lines[row][col] == '.') || DotFrom(lines, row, col + 1))
  {
    if DotFrom(lines, row, col) {
      var r, k :| row <= r < |lines| && 0 < r && 0 <= k < |lines[r]| && (r > row || k >= col) && lines[r][k] == '.';
      if col < |lines[row]| && (r > row || k > col) {
        assert DotFrom(lines, row, col + 1);
      }
    }
  }

  /** The cells and the finish after reading every character from character `col` of line
      `row` on, or `Err` at the first character that is not part of a map. */
  function ReadFrom(lines: seq<String>, row: nat, col: nat, trails: seq<Trail>, finish: Option<nat>): (r: Result<(seq<Trail>, Option<nat>)>)
    requires Fits(lines, GRID_SIZE) && |trails| == CELLS && (finish.Some? ==> finish.value < CELLS)
    requires row <= |lines| && (row < |lines| ==> col <= |lines[row]|)
    ensures r.Ok? ==> |r.value.0| == CELLS && (r.value.1.Some? ==> r.value.1.value < CELLS)
    decreases |lines| - row, if row < |lines| then |lines[row]| - col else 0
  {
    if row == |lines| then Ok((trails, finish))
    else if col == |lines[row]| then ReadFrom(lines, row + 1, 0, trails, finish)
    else match ReadTrail(lines[row][col], row)
      case Err => Err
      case Ok(trail) =>
        var pos := Cell(row, col);
        ReadFrom(lines, row, col + 1, trails[pos := trail], if trail == Empty && lines[row][col] == '.' then Some(pos) else finish)
  }

  /** The map the text describes: every character read into a map of open ground, and the
      finish marked; `Err` on a character that is not part of a map or without a finish. */
  function MapOf(input: String): (r: Result<seq<Trail>>)
    requires Fits(Lines(input), GRID_SIZE)
    ensures r.Ok? ==> |r.value| == CELLS
  {
    match ReadFrom(Lines(input), 0, 0, seq(CELLS, _ => Empty), None)
    case Err => Err
    case Ok((trails, None)) => Err
    case Ok((trails, Some(finish))) => Ok(trails[finish := Finish])
  }

  /** Reading fails exactly at a character that is not part of a map. */
  lemma {:induction false} ReadFails(lines: seq<String>, row: nat, col: nat, trails: seq<Trail>, finish: Option<nat>)
    requires Fits(lines, GRID_SIZE) && |trails| == CELLS && (finish.Some? ==> finish.value < CELLS)
    requires row <= |lines| && (row < |lines| ==> col <= |lines[row]|)
    ensures ReadFrom(lines, row, col, trails, finish).Err? <==> BadCharFrom(TrailChar, lines, row, col)
    decreases |lines| - row, if row < |lines| then |lines[row]| - col else 0
  {
    if row < |lines| {
      BadCharStep(TrailChar, lines, row, col);
      if col == |lines[row]| {
        ReadFails(lines, row + 1, 0, trails, finish);
      } else if TrailChar(lines[row][col]).Ok? {
        var trail := ReadTrail(lines[row][col], row).value;
        var pos := Cell(row, col);
        ReadFails(lines, row, col + 1, trails[pos := trail], if trail == Empty && lines[row][col] == '.' then Some(pos) else finish);
      }
    }
  }

  /** Cell `pos` is written by an open cell below the first line, and no open cell below the
      first line comes after that one. */
  predicate LastDot(lines: seq<String>, pos: nat)
  {
    exists r, k :: 0 < r < |lines| && 0 <= k < |lines[r]| && lines[r][k] == '.' && !DotFrom(lines, r, k + 1) && pos == Cell(r, k)
  }

  /** Reading keeps the finish it has unless an open cell below the first line follows, and
      then the finish is the last such cell. */
  lemma {:induction false} ReadFinish(lines: seq<String>, row: nat, col: nat, trails: seq<Trail>, finish: Option<nat>)
    requires Fits(lines, GRID_SIZE) && |trails| == CELLS && (finish.Some? ==> finish.value < CELLS)
    requires row <= |lines| && (row < |lines| ==> col <= |lines[row]|)
    requires ReadFrom(lines, row, col, trails, finish).Ok?
    ensures var found := ReadFrom(lines, row, col, trails, finish).value.1;
            && (!DotFrom(lines, row, col) ==> found == finish)
            && (DotFrom(lines, row, col) ==> found.Some? && LastDot(lines, found.value))
    decreases |lines| - row, if row < |lines| then |lines[row]| - col else 0
  {
    if row < |lines| {
      DotStep(lines, row, col);
      if col == |lines[row]| {
        ReadFinish(lines, row + 1, 0, trails, finish);
      } else {
        var trail := ReadTrail(lines[row][col], row).value;
        var pos := Cell(row, col);
        var next := if trail == Empty && lines[row][col] == '.' then Some(pos) else finish;
        ReadFinish(lines, row, col + 1, trails[pos := trail], next);
      }
    }
  }

  /** With lines no longer than a row of the map, reading puts each character's cell in its
      own place and leaves every other cell as it was. */
  lemma {:induction false} ReadCells(lines: seq<String>, row: nat, col: nat, trails: seq<Trail>, finish: Option<nat>)
    requires Fits(lines, GRID_SIZE) && ShortLines(lines, GRID_SIZE) && |trails| == CELLS
    requires finish.Some? ==> finish.value < CELLS
    requires row <= |lines| && (row < |lines| ==> col <= |lines[row]|)
    requires ReadFrom(lines, row, col, trails, finish).Ok?
    ensures var read := ReadFrom(lines, row, col, trails, finish).value.0;
            |read| == CELLS
            && forall pos :: 0 <= pos < CELLS ==>
                 if WrittenFrom(GRID_SIZE, lines, row, col, pos)
                 then ReadTrail(lines[pos / GRID_SIZE][pos % GRID_SIZE], pos / GRID_SIZE) == Ok(read[pos])
                 else read[pos] == trails[pos]
    decreases |lines| - row, if row < |lines| then |lines[row]| - col else 0
  {
    if row == |lines| {
    } else if col == |lines[row]| {
      ReadCells(lines, row + 1, 0, trails, finish);
    } else {
      var trail := ReadTrail(lines[row][col], row).value;
      var pos := Cell(row, col);
      CellOfRowCol(row, col);
      ReadCells(lines, row, col + 1, trails[pos := trail], if trail == Empty && lines[row][col] == '.' then Some(pos) else finish);
    }
  }

  /** The text is refused exactly when it holds a character that is not part of a map, or
      no open cell below its first line. */
  lemma MapFails(input: String)
    requires Fits(Lines(input), GRID_SIZE)
    ensures MapOf(input).Err? <==> BadCharFrom(TrailChar, Lines(input), 0, 0) || !DotFrom(Lines(input), 0, 0)
  {
    var empty := seq(CELLS, _ => Empty);
    ReadFails(Lines(input), 0, 0, empty, None);
    if ReadFrom(Lines(input), 0, 0, empty, None).Ok? {
      ReadFinish(Lines(input), 0, 0, empty, None);
    }
  }

  /** With lines no longer than a row, the map read from the text has, at each character's
      cell, the cell that character stands for, except for the finish, which is the last
      open cell below the first line; every other cell is open ground. */
  lemma MapCells(input: String)
    requires Fits(Lines(input), GRID_SIZE) && ShortLines(Lines(input), GRID_SIZE)
    requires MapOf(input).Ok?
    ensures var trails := MapOf(input).value;
            |trails| == CELLS
            && (exists finish :: 0 <= finish < CELLS && LastDot(Lines(input), finish) && trails[finish] == Finish)
            && forall pos :: 0 <= pos < CELLS && trails[pos] != Finish ==>
                 if WrittenFrom(GRID_SIZE, Lines(input), 0, 0, pos)
                 then ReadTrail(Lines(input)[pos / GRID_SIZE][pos % GRID_SIZE], pos / GRID_SIZE) == Ok(trails[pos])
                 else trails[pos] == Empty
  {
    var lines := Lines(input);
    var empty := seq(CELLS, _ => Empty);
    ReadCells(lines, 0, 0, empty, None);
    ReadFinish(lines, 0, 0, empty, None);
    var read := ReadFrom(lines, 0, 0, empty, None).value;
    var finish := read.1.value;
    assert finish < CELLS by {
      RowColOfCell(finish);
      CellInGrid(finish / GRID_SIZE, finish % GRID_SIZE);
    }
  }

  /** The match on one character of `from_str`: its cell written into `trails`, and the
      finish moved to it when it is open ground below the first line; not `ok` on a character
      that is not part of a map. */
  method PlaceTrail(trails: array<Trail>, row: nat, col: nat, ch: char, finish: Option<nat>) returns (ok: bool, next: Option<nat>)
    requires trails.Length == CELLS && Cell(row, col) < CELLS
    modifies trails
    ensures ok <==> ReadTrail(ch, row).Ok?
    ensures ok ==> var trail := ReadTrail(ch, row).value;
                   && trails[..] == old(trails[..])[Cell(row, col) := trail]
                   && next == if trail == Empty && ch == '.' then Some(Cell(row, col)) else finish
  {
    var pos := row * GRID_SIZE + col;
    next := finish;
    ok := true;
    match ch
    case '.' =>
      if row == 0 {
        trails[pos] := Start;
      } else {
        trails[pos] := Empty;
        next := Some(pos);
      }
    case '#' => trails[pos] := Forest;
    case '>' => trails[pos] := SlopeWE;
    case 'v' => trails[pos] := SlopeNS;
    case _ => ok := false;
  }

  /** `TrailMap::from_str`: every character of every line into its cell of a map of open
      ground, remembering the last open cell below the first line, which becomes the finish. */
  method FromStr(input: String) returns (r: Result<seq<Trail>>)
    requires Fits(Lines(input), GRID_SIZE)
    ensures r == MapOf(input)
  {
    var lines := Lines(input);
    var trails := new Trail[CELLS](_ => Empty);
    var finish: Option<nat> := None;
    ghost var empty := seq(CELLS, _ => Empty);
    assert trails[..] == empty;
    for row := 0 to |lines|
      invariant finish.Some? ==> finish.value < CELLS
      invariant ReadFrom(lines, row, 0, trails[..], finish) == ReadFrom(lines, 0, 0, empty, None)
    {
      var line := lines[row];
      for col := 0 to |line|
        invariant finish.Some? ==> finish.value < CELLS
        invariant ReadFrom(lines, row, col, trails[..], finish) == ReadFrom(lines, 0, 0, empty, None)
      {
        var ok;
        ok, finish := PlaceTrail(trails, row, col, line[col], finish);
        if !ok {
          return Err;
        }
      }
    }
    match finish
    case None => return Err;
    case Some(f) => trails[f] := Finish;
    r := Ok(trails[..]);
  }
}
