/** Reading the maze of `src/bin/10.rs`, and the two parts.

    `from_str` writes the pipe of the character in column `col` of line `row` into cell
    `row * GRID_SIZE + col`; the start is the cell of the last 'S'. A line longer than the
    grid spills into the next row, where the next line overwrites it, and a cell past the
    end of the grid is a panic. */
module Day10 {
  import opened Wrappers
  import opened Text
  import opened Day10Pipes
  import opened Day10Maze
  import opened Day10Enclosed

  /** Every character lands inside the grid: `from_str` would panic otherwise. */
  predicate Fits(lines: seq<String>)
  {
    forall row :: 0 <= row < |lines| ==> row * GRID_SIZE + |lines[row]| <= CELLS
  }

  /** No pipes, start at cell 0. */
  function Empty(): (m: Maze)
    ensures |m.grid| == CELLS && m.start == 0
    ensures forall pos :: 0 <= pos < CELLS ==> m.grid[pos] == None
  {
    Maze(0, seq(CELLS, _ => None))
  }

  /** The maze after writing the characters of `line` from cell `rowStart` on. */
  function WriteLine(m: Maze, rowStart: nat, line: String): (r: Maze)
    requires |m.grid| == CELLS && rowStart + |line| <= CELLS
    ensures |r.grid| == CELLS
  {
    if line == [] then m
    else
      var before := WriteLine(m, rowStart, line[..|line| - 1]);
      var pos, ch := rowStart + |line| - 1, line[|line| - 1];
      Maze(if ch == 'S' then pos else before.start, before.grid[pos := ReadFromChar(ch)])
  }

  /** The maze after writing `lines`, row by row. */
  function WriteLines(lines: seq<String>): (r: Maze)
    requires Fits(lines)
    ensures |r.grid| == CELLS
  {
    if lines == [] then Empty()
    else WriteLine(WriteLines(lines[..|lines| - 1]), (|lines| - 1) * GRID_SIZE, lines[|lines| - 1])
  }

  /** `Maze::from_str`: never an error. */
  method FromStr(input: String) returns (r: Result<Maze>)
    requires Fits(Lines(input))
    ensures r == Ok(WriteLines(Lines(input)))
  {
    var lines := Lines(input);
    var start := 0;
    var grid := new Option<Pipe>[CELLS](_ => None);
    assert Maze(start, grid[..]) == Empty();
    for row := 0 to |lines|
      invariant Fits(lines[..row])
      invariant Maze(start, grid[..]) == WriteLines(lines[..row])
    {
      var rowStart := row * GRID_SIZE;
      var line := lines[row];
      ghost var previous := WriteLines(lines[..row]);
      assert line[..|line|] == line;
      for col := 0 to |line|
        invariant Maze(start, grid[..]) == WriteLine(previous, rowStart, line[..col])
      {
        assert line[..col + 1][..col] == line[..col];
        var pos := rowStart + col;
        grid[pos] := ReadFromChar(line[col]);
        if line[col] == 'S' {
          start := pos;
        }
      }
      assert lines[..row + 1][..row] == lines[..row];
    }
    assert lines[..|lines|] == lines;
    return Ok(Maze(start, grid[..]));
  }

  /** The cells of a line are the only cells it writes. */
  lemma {:induction false} WriteLineAt(m: Maze, rowStart: nat, line: String, pos: nat)
    requires |m.grid| == CELLS && rowStart + |line| <= CELLS && pos < CELLS
    ensures WriteLine(m, rowStart, line).grid[pos]
         == if rowStart <= pos < rowStart + |line| then ReadFromChar(line[pos - rowStart]) else m.grid[pos]
  {
    if line != [] {
      WriteLineAt(m, rowStart, line[..|line| - 1], pos);
    }
  }

  /** The lines of the input as the grid of the puzzle: at most `GRID_SIZE` of them, none
      longer than `GRID_SIZE`. */
  predicate InGrid(lines: seq<String>)
  {
    |lines| <= GRID_SIZE && forall row :: 0 <= row < |lines| ==> |lines[row]| <= GRID_SIZE
  }

  lemma InGridFits(lines: seq<String>)
    requires InGrid(lines)
    ensures Fits(lines)
  {
    forall row | 0 <= row < |lines|
      ensures row * GRID_SIZE + |lines[row]| <= CELLS
    {
      assert row * GRID_SIZE <= (GRID_SIZE - 1) * GRID_SIZE;
    }
  }

  /** In a grid-shaped input, the cell of row `row` and column `col` holds the pipe of the
      character there, and a cell no character covers holds nothing. */
  lemma {:induction false} ParsedCell(lines: seq<String>, row: nat, col: nat)
    requires InGrid(lines) && row < GRID_SIZE && col < GRID_SIZE
    ensures Fits(lines)
    ensures WriteLines(lines).grid[row * GRID_SIZE + col]
         == if row < |lines| && col < |lines[row]| then ReadFromChar(lines[row][col]) else None
  {
    InGridFits(lines);
    if lines != [] {
      var last := |lines| - 1;
      var init := lines[..last];
      assert InGrid(init);
      ParsedCell(init, row, col);
      WriteLineAt(WriteLines(init), last * GRID_SIZE, lines[last], row * GRID_SIZE + col);
      if row < last {
        assert row * GRID_SIZE + col < last * GRID_SIZE;
      } else if row > last {
        assert row * GRID_SIZE >= last * GRID_SIZE + GRID_SIZE;
      }
    }
  }

  /** An 'S' in the grid: the start is that cell or the cell of a later 'S'. */
  lemma {:induction false} ParsedStart(lines: seq<String>, row: nat, col: nat)
    requires InGrid(lines) && row < |lines| && col < |lines[row]| && lines[row][col] == 'S'
    ensures Fits(lines)
    ensures row * GRID_SIZE + col <= WriteLines(lines).start
    ensures exists r, c :: 0 <= r < |lines| && 0 <= c < |lines[r]| && lines[r][c] == 'S'
                           && WriteLines(lines).start == r * GRID_SIZE + c
  {
    InGridFits(lines);
    var last := |lines| - 1;
    var init := lines[..last];
    assert InGrid(init);
    var line := lines[last];
    if exists c :: 0 <= c < |line| && line[c] == 'S' {
      var c := LastS(WriteLines(init), last * GRID_SIZE, line);
      assert row * GRID_SIZE + col <= last * GRID_SIZE + c by {
        if row == last {
          assert col <= c;
        } else {
          assert row * GRID_SIZE + col < last * GRID_SIZE;
        }
      }
      assert lines[last][c] == 'S';
    } else {
      NoS(WriteLines(init), last * GRID_SIZE, line);
      assert row < last;
      assert init[row] == lines[row];
      ParsedStart(init, row, col);
      var r, c :| 0 <= r < |init| && 0 <= c < |init[r]| && init[r][c] == 'S'
                   && WriteLines(init).start == r * GRID_SIZE + c;
      assert lines[r] == init[r];
    }
  }

  /** A line with an 'S' moves the start to its last 'S'. */
  lemma {:induction false} LastS(m: Maze, rowStart: nat, line: String) returns (c: nat)
    requires |m.grid| == CELLS && rowStart + |line| <= CELLS
    requires exists c :: 0 <= c < |line| && line[c] == 'S'
    ensures c < |line| && line[c] == 'S' && WriteLine(m, rowStart, line).start == rowStart + c
    ensures forall c' :: c < c' < |line| ==> line[c'] != 'S'
  {
    var init := line[..|line| - 1];
    if line[|line| - 1] == 'S' {
      c := |line| - 1;
    } else {
      var k :| 0 <= k < |line| && line[k] == 'S';
      assert init[k] == 'S';
      c := LastS(m, rowStart, init);
      assert forall c' :: c < c' < |line| - 1 ==> init[c'] == line[c'];
    }
  }

  /** A line without an 'S' leaves the start alone. */
  lemma {:induction false} NoS(m: Maze, rowStart: nat, line: String)
    requires |m.grid| == CELLS && rowStart + |line| <= CELLS
    requires forall c :: 0 <= c < |line| ==> line[c] != 'S'
    ensures WriteLine(m, rowStart, line).start == m.start
  {
    if line != [] {
      NoS(m, rowStart, line[..|line| - 1]);
    }
  }

  /** `part_one`: the furthest point of the loop. */
  method PartOne(input: String) returns (r: Option<nat>)
    requires Fits(Lines(input)) && EscapesAfterMeeting(WriteLines(Lines(input)))
    ensures r.Some? ==> r.value >= 2 && FirstMeeting(WriteLines(Lines(input)), r.value - 1)
    ensures r.None? ==> forall d1, k1: nat, d2, k2: nat :: !Meet(WriteLines(Lines(input)), d1, k1, d2, k2)
    ensures r.None? ==> forall d :: Stops(WriteLines(Lines(input)), d)
  {
    var maze := FromStr(input);
    r := FurthestPointInLoop(maze.value);
  }

  /** `part_two`: the number of enclosed cells. */
  method PartTwo(input: String) returns (r: Option<nat>)
    requires Fits(Lines(input)) && StartInside(WriteLines(Lines(input)))
    ensures r == Some(SealedUpTo(WriteLines(Lines(input)), CELLS))
  {
    var maze := FromStr(input);
    var n := SpacesEnclosedByLoop(maze.value);
    r := Some(n);
  }
}
