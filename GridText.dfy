/** Reading a square grid from text, as the `from_str` of the contraption (day 16) and the
    city (day 17) do: character `col` of line `row` is parsed into cell `row * size + col`
    of a grid that starts out filled with a default, and the first character that does not
    parse makes the whole text an error. */
module GridText {
  import opened Wrappers
  import opened Text
  import opened Divisibility

  /** Every character's cell lies in the grid; the source indexes a fixed-size array and
      panics otherwise. A line's characters fit when its last one does. */
  predicate Fits(lines: seq<String>, size: nat)
  {
    forall row :: 0 <= row < |lines| && lines[row] != [] ==> row * size + |lines[row]| <= size * size
  }

  /** The grid after parsing every character from character `col` of line `row` on into
      `grid`, or `Err` at the first character `parse` refuses. */
  function LayoutFrom<T>(parse: char -> Result<T>, size: nat, lines: seq<String>, row: nat, col: nat, grid: seq<T>): Result<seq<T>>
    requires Fits(lines, size) && |grid| == size * size
    requires row <= |lines| && (row < |lines| ==> col <= |lines[row]|)
    decreases |lines| - row, if row < |lines| then |lines[row]| - col else 0
  {
    if row == |lines| then Ok(grid)
    else if col == |lines[row]| then LayoutFrom(parse, size, lines, row + 1, 0, grid)
    else match parse(lines[row][col])
      case Err => Err
      case Ok(cell) => LayoutFrom(parse, size, lines, row, col + 1, grid[row * size + col := cell])
  }

  /** The whole text laid out over a grid filled with `default`. */
  function Layout<T>(parse: char -> Result<T>, size: nat, lines: seq<String>, default: T): Result<seq<T>>
    requires Fits(lines, size)
  {
    LayoutFrom(parse, size, lines, 0, 0, seq(size * size, _ => default))
  }

  /** A character `parse` refuses, at or after character `col` of line `row`. */
  predicate BadCharFrom<T>(parse: char -> Result<T>, lines: seq<String>, row: nat, col: nat)
  {
    exists r, k :: row <= r < |lines| && 0 <= k < |lines[r]| && (r > row || k >= col) && parse(lines[r][k]).Err?
  }

  /** A refused character from here on is either this one or one further on. */
  lemma BadCharStep<T>(parse: char -> Result<T>, lines: seq<String>, row: nat, col: nat)
    requires row < |lines| && col <= |lines[row]|
    ensures col == |lines[row]| ==> (BadCharFrom(parse, lines, row, col) <==> BadCharFrom(parse, lines, row + 1, 0))
    ensures col < |lines[row]| ==>
              (BadCharFrom(parse, lines, row, col) <==> parse(lines[row][col]).Err? || BadCharFrom(parse, lines, row, col + 1))
  {
    if BadCharFrom(parse, lines, row, col) {
      var r, k :| row <= r < |lines| && 0 <= k < |lines[r]| && (r > row || k >= col) && parse(lines[r][k]).Err?;
      if col < |lines[row]| && (r > row || k > col) {
        assert BadCharFrom(parse, lines, row, col + 1);
      }
    }
  }

  /** The layout fails exactly when a character from the current one on is refused. */
  lemma {:induction false} LayoutFails<T>(parse: char -> Result<T>, size: nat, lines: seq<String>, row: nat, col: nat, grid: seq<T>)
    requires Fits(lines, size) && |grid| == size * size
    requires row <= |lines| && (row < |lines| ==> col <= |lines[row]|)
    ensures LayoutFrom(parse, size, lines, row, col, grid).Err? <==> BadCharFrom(parse, lines, row, col)
    decreases |lines| - row, if row < |lines| then |lines[row]| - col else 0
  {
    if row < |lines| {
      BadCharStep(parse, lines, row, col);
      if col == |lines[row]| {
        LayoutFails(parse, size, lines, row + 1, 0, grid);
      } else if parse(lines[row][col]).Ok? {
        LayoutFails(parse, size, lines, row, col + 1, grid[row * size + col := parse(lines[row][col]).value]);
      }
    }
  }

  /** Lines no longer than a row of the grid, so that no line runs into the next row. */
  predicate ShortLines(lines: seq<String>, size: nat)
  {
    forall row :: 0 <= row < |lines| ==> |lines[row]| <= size
  }

  /** Cell `pos` is written by a character at or after character `col` of line `row`. */
  predicate WrittenFrom(size: nat, lines: seq<String>, row: nat, col: nat, pos: nat)
    requires size > 0
  {
    var r := pos / size;
    var k := pos % size;
    row <= r < |lines| && k < |lines[r]| && (r > row || k >= col)
  }

  /** With lines no longer than a row, the layout puts each character's cell in its own place
      and leaves every other cell as it was. */
  lemma {:induction false} LayoutCells<T>(parse: char -> Result<T>, size: nat, lines: seq<String>, row: nat, col: nat, grid: seq<T>)
    requires size > 0 && Fits(lines, size) && ShortLines(lines, size) && |grid| == size * size
    requires row <= |lines| && (row < |lines| ==> col <= |lines[row]|)
    requires LayoutFrom(parse, size, lines, row, col, grid).Ok?
    ensures var laid := LayoutFrom(parse, size, lines, row, col, grid).value;
            |laid| == size * size
            && forall pos :: 0 <= pos < size * size ==>
                 if WrittenFrom(size, lines, row, col, pos)
                 then parse(lines[pos / size][pos % size]) == Ok(laid[pos])
                 else laid[pos] == grid[pos]
    decreases |lines| - row, if row < |lines| then |lines[row]| - col else 0
  {
    if row == |lines| {
    } else if col == |lines[row]| {
      LayoutCells(parse, size, lines, row + 1, 0, grid);
    } else {
      var cell := parse(lines[row][col]).value;
      var here := row * size + col;
      ModUnique(here, size, row, col);
      LayoutCells(parse, size, lines, row, col + 1, grid[here := cell]);
    }
  }

  /** `from_str`'s two loops: the characters of each line in turn, each into its cell of a
      grid filled with `default`, stopping at the first refused character. */
  method ReadGrid<T>(parse: char -> Result<T>, size: nat, input: String, default: T) returns (r: Result<seq<T>>)
    requires Fits(Lines(input), size)
    ensures r.Err? <==> BadCharFrom(parse, Lines(input), 0, 0)
    ensures r.Ok? ==> |r.value| == size * size && Layout(parse, size, Lines(input), default) == r
  {
    var lines := Lines(input);
    var grid := new T[size * size](_ => default);
    ghost var empty := seq(size * size, _ => default);
    LayoutFails(parse, size, lines, 0, 0, empty);
    assert grid[..] == empty;
    for row := 0 to |lines|
      invariant LayoutFrom(parse, size, lines, row, 0, grid[..]) == LayoutFrom(parse, size, lines, 0, 0, empty)
    {
      var line := lines[row];
      for col := 0 to |line|
        invariant LayoutFrom(parse, size, lines, row, col, grid[..]) == LayoutFrom(parse, size, lines, 0, 0, empty)
      {
        var cell := parse(line[col]);
        if cell.Err? {
          return Err;
        }
        grid[row * size + col] := cell.value;
      }
    }
    r := Ok(grid[..]);
  }
}
