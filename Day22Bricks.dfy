/** Day 22, reading the bricks. A brick is a line of unit cubes in a column of sand
    GRID_SIZE cubes wide and deep; each cube is one cell index counted across x, then y,
    then z, so the cell straight below a cube is one layer of GRID_SIZE * GRID_SIZE cells
    lower. */
module Day22Bricks {
  import opened Wrappers
  import opened Text
  import Sorting

  const GRID_SIZE: nat := 10
  const GRID_HEIGHT: nat := 310
  /** Cells in one horizontal layer. */
  const LAYER: nat := GRID_SIZE * GRID_SIZE
  /** Cells in the whole column, the size of the occupancy table. */
  const CELLS: nat := GRID_HEIGHT * LAYER

  /** The cell indices of a brick's cubes. */
  type Brick = seq<nat>

  /** `cube`: the cell index of the cube at (x, y, z). */
  function Cube(x: nat, y: nat, z: nat): nat
  {
    z * GRID_SIZE * GRID_SIZE + y * GRID_SIZE + x
  }

  /** Within the column's width and depth, a cell index gives its coordinates back. */
  lemma CubeCoordinates(x: nat, y: nat, z: nat)
    requires x < GRID_SIZE && y < GRID_SIZE
    ensures Cube(x, y, z) % GRID_SIZE == x
    ensures Cube(x, y, z) / GRID_SIZE % GRID_SIZE == y
    ensures Cube(x, y, z) / LAYER == z
  {
  }

  /** The cube one higher is one layer on. */
  lemma CubeAbove(x: nat, y: nat, z: nat)
    ensures Cube(x, y, z + 1) == Cube(x, y, z) + LAYER
  {
  }

  // ---------------------------------------------------------------------------------------
  // One cube

  function UsizeOf(s: String): Option<nat>
  {
    ParseUnsigned(s, USIZE_LIMIT)
  }

  /** A cube's text: exactly three comma-separated `usize` values. */
  function CubeOf(text: String): Option<(nat, nat, nat)>
  {
    var parts := Split(text, ",");
    if |parts| != 3 then None
    else
      var x, y, z := UsizeOf(parts[0]), UsizeOf(parts[1]), UsizeOf(parts[2]);
      if x.Some? && y.Some? && z.Some? then Some((x.value, y.value, z.value)) else None
  }

  /** `read_cube`: each part's parse result goes into the slot its position names; a fourth
      part gives None at once, and a slot never filled, or filled with None, gives None at
      the end. */
  method ReadCube(text: String) returns (r: Option<(nat, nat, nat)>)
    ensures r == CubeOf(text)
  {
    var x: Option<nat> := None;
    var y: Option<nat> := None;
    var z: Option<nat> := None;
    var parts := Split(text, ",");
    for ix := 0 to |parts|
      invariant ix <= 3
      invariant x == if ix > 0 then UsizeOf(parts[0]) else None
      invariant y == if ix > 1 then UsizeOf(parts[1]) else None
      invariant z == if ix > 2 then UsizeOf(parts[2]) else None
    {
      var value := UsizeOf(parts[ix]);
      if ix == 0 {
        x := value;
      } else if ix == 1 {
        y := value;
      } else if ix == 2 {
        z := value;
      } else {
        return None;
      }
    }
    if x.None? || y.None? || z.None? {
      return None;
    }
    r := Some((x.value, y.value, z.value));
  }

  function CubeText(x: nat, y: nat, z: nat): String
  {
    Join([Decimal(x), Decimal(y), Decimal(z)], ",")
  }

  /** Three `usize` values written with commas between them read back as themselves. */
  lemma CubeRoundTrip(x: nat, y: nat, z: nat)
    requires x < USIZE_LIMIT && y < USIZE_LIMIT && z < USIZE_LIMIT
    ensures CubeOf(CubeText(x, y, z)) == Some((x, y, z))
  {
    var parts := [Decimal(x), Decimal(y), Decimal(z)];
    forall k | 0 <= k < 3 ensures ',' !in parts[k] {
      DigitsOnly(parts[k]);
    }
    SplitJoin(parts, ",");
    ParseDecimal(x, USIZE_LIMIT);
    ParseDecimal(y, USIZE_LIMIT);
    ParseDecimal(z, USIZE_LIMIT);
  }

  /** A decimal numeral holds no comma, no tilde and no line feed. */
  lemma DigitsOnly(s: String)
    requires AllDigits(s)
    ensures ',' !in s && '~' !in s && '\n' !in s
  {
    forall i | 0 <= i < |s| ensures s[i] != ',' && s[i] != '~' && s[i] != '\n' {
      assert IsDigit(s[i]);
    }
  }

  lemma CubeTextChars(x: nat, y: nat, z: nat)
    ensures '~' !in CubeText(x, y, z) && '\n' !in CubeText(x, y, z)
  {
    var parts := [Decimal(x), Decimal(y), Decimal(z)];
    forall k | 0 <= k < 3 ensures '~' !in parts[k] && '\n' !in parts[k] {
      DecimalRoundTrip([x, y, z][k]);
      DigitsOnly(parts[k]);
    }
    NotInJoin(parts, ",", '~');
    NotInJoin(parts, ",", '\n');
  }

  // ---------------------------------------------------------------------------------------
  // One brick

  /** A coordinate `k` steps from `start` on its way to `last`, where it then stays. */
  function Toward(start: nat, last: nat, k: nat): nat
  {
    if start + k < last then start + k else last
  }

  function Max(a: nat, b: nat): nat { if a < b then b else a }

  /** The number of steps from one corner to the other: the longest side less one. */
  function Steps(first: (nat, nat, nat), last: (nat, nat, nat)): nat
    requires first.0 <= last.0 && first.1 <= last.1 && first.2 <= last.2
  {
    Max(Max(last.0 - first.0, last.1 - first.1), last.2 - first.2)
  }

  /** The cubes from `first` to `last` inclusive, every coordinate advancing by one per cube
      until it reaches its end. */
  function Line(first: (nat, nat, nat), last: (nat, nat, nat)): Brick
    requires first.0 <= last.0 && first.1 <= last.1 && first.2 <= last.2
  {
    seq(Steps(first, last) + 1, k requires 0 <= k =>
      Cube(Toward(first.0, last.0, k), Toward(first.1, last.1, k), Toward(first.2, last.2, k)))
  }

  /** A brick's line: two cubes separated by '~', neither end coordinate below its start. */
  function BrickOf(line: String): Option<Brick>
  {
    match SplitOnce(line, "~")
    case None => None
    case Some(halves) =>
      match CubeOf(halves.0)
      case None => None
      case Some(first) =>
        match CubeOf(halves.1)
        case None => None
        case Some(last) =>
          if first.0 <= last.0 && first.1 <= last.1 && first.2 <= last.2 then Some(Line(first, last))
          else None
  }

  /** `read_brick`: pushes the current cube and moves each coordinate one on until the
      last cube is reached, which is pushed too. */
  method ReadBrick(line: String) returns (r: Option<Brick>)
    ensures r == BrickOf(line)
  {
    var halves := SplitOnce(line, "~");
    if halves.None? {
      return None;
    }
    var first := ReadCube(halves.value.0);
    if first.None? {
      return None;
    }
    var last := ReadCube(halves.value.1);
    if last.None? {
      return None;
    }
    if first.value.0 > last.value.0 || first.value.1 > last.value.1 || first.value.2 > last.value.2 {
      return None;
    }
    assert BrickOf(line) == Some(Line(first.value, last.value)) by {
      assert CubeOf(halves.value.0) == first && CubeOf(halves.value.1) == last;
    }
    var brick := CubesBetween(first.value, last.value);
    r := Some(brick);
  }

  /** The loop of `read_brick`. */
  method CubesBetween(first: (nat, nat, nat), last: (nat, nat, nat)) returns (brick: Brick)
    requires first.0 <= last.0 && first.1 <= last.1 && first.2 <= last.2
    ensures brick == Line(first, last)
  {
    var x, y, z := first.0, first.1, first.2;
    ghost var cubes := Line(first, last);
    brick := [];
    ghost var k: nat := 0;
    while (x, y, z) != last
      invariant k <= Steps(first, last)
      invariant x == Toward(first.0, last.0, k)
      invariant y == Toward(first.1, last.1, k)
      invariant z == Toward(first.2, last.2, k)
      invariant brick == cubes[..k]
      decreases (last.0 - x) + (last.1 - y) + (last.2 - z)
    {
      brick := brick + [Cube(x, y, z)];
      x := x + if x < last.0 then 1 else 0;
      y := y + if y < last.1 then 1 else 0;
      z := z + if z < last.2 then 1 else 0;
      k := k + 1;
    }
    brick := brick + [Cube(x, y, z)];
    assert brick == cubes;
  }

  /** A brick runs from its first corner to its last, and never has fewer cubes than its
      longest side. */
  lemma BrickEnds(first: (nat, nat, nat), last: (nat, nat, nat))
    requires first.0 <= last.0 && first.1 <= last.1 && first.2 <= last.2
    ensures var cubes := Line(first, last);
            && cubes[0] == Cube(first.0, first.1, first.2)
            && cubes[|cubes| - 1] == Cube(last.0, last.1, last.2)
            && |cubes| > last.0 - first.0 && |cubes| > last.1 - first.1 && |cubes| > last.2 - first.2
  {
  }

  /** A brick standing upright from (x, y, z) to (x, y, top) is the column of cubes between,
      each one layer above the one before. */
  lemma UprightBrick(x: nat, y: nat, z: nat, top: nat)
    requires z <= top
    ensures var cubes := Line((x, y, z), (x, y, top));
            && |cubes| == top - z + 1
            && forall k :: 0 <= k < |cubes| ==> cubes[k] == Cube(x, y, z) + k * LAYER
  {
  }

  function BrickText(first: (nat, nat, nat), last: (nat, nat, nat)): String
  {
    CubeText(first.0, first.1, first.2) + "~" + CubeText(last.0, last.1, last.2)
  }

  /** Two corners of `usize` values written as a brick's line read back as the brick
      between them; with an end coordinate below its start they read as nothing. */
  lemma BrickRoundTrip(first: (nat, nat, nat), last: (nat, nat, nat))
    requires first.0 < USIZE_LIMIT && first.1 < USIZE_LIMIT && first.2 < USIZE_LIMIT
    requires last.0 < USIZE_LIMIT && last.1 < USIZE_LIMIT && last.2 < USIZE_LIMIT
    ensures BrickOf(BrickText(first, last)) ==
              if first.0 <= last.0 && first.1 <= last.1 && first.2 <= last.2 then Some(Line(first, last)) else None
  {
    CubeTextChars(first.0, first.1, first.2);
    FindAfter(CubeText(first.0, first.1, first.2), "~", CubeText(last.0, last.1, last.2));
    CubeRoundTrip(first.0, first.1, first.2);
    CubeRoundTrip(last.0, last.1, last.2);
  }

  // ---------------------------------------------------------------------------------------
  // All the bricks

  /** The bricks of the lines that read as bricks, in the order of the lines. */
  function Parsed(lines: seq<String>): (bricks: seq<Brick>)
  {
    if lines == [] then []
    else
      Parsed(lines[..|lines| - 1]) +
      match BrickOf(lines[|lines| - 1])
      case Some(brick) => [brick]
      case None => []
  }

  /** Every brick read has at least one cube. */
  lemma {:induction false} ParsedNonEmpty(lines: seq<String>)
    ensures forall i :: 0 <= i < |Parsed(lines)| ==> Parsed(lines)[i] != []
  {
    if lines != [] {
      ParsedNonEmpty(lines[..|lines| - 1]);
    }
  }

  /** The order `read_bricks` sorts by: first cubes ascending, bricks without cubes last. */
  predicate NotAfter(a: Brick, b: Brick)
  {
    b == [] || (a != [] && a[0] <= b[0])
  }

  predicate SortedByFirst(bricks: seq<Brick>)
  {
    forall i, j :: 0 <= i < j < |bricks| ==> NotAfter(bricks[i], bricks[j])
  }

  /** `brick` put in front of the first brick it does not come after. */
  function InsertBrick(brick: Brick, sorted: seq<Brick>): (r: seq<Brick>)
    requires SortedByFirst(sorted)
    ensures SortedByFirst(r) && multiset(r) == multiset(sorted) + multiset{brick}
  {
    if sorted == [] then [brick]
    else if NotAfter(brick, sorted[0]) then
      [brick] + sorted
    else
      var tail := InsertBrick(brick, sorted[1..]);
      assert sorted == [sorted[0]] + sorted[1..];
      Sorting.BoundBelow(sorted[0], tail, sorted[1..], brick, NotAfter);
      [sorted[0]] + tail
  }

  /** The library's unstable sort under the comparator of `read_bricks`. Bricks with the same
      first cube may come out in any order; this model keeps the order of insertion. */
  function SortByFirst(bricks: seq<Brick>): (r: seq<Brick>)
    ensures SortedByFirst(r) && multiset(r) == multiset(bricks)
  {
    if bricks == [] then []
    else
      assert bricks == bricks[..|bricks| - 1] + [bricks[|bricks| - 1]];
      InsertBrick(bricks[|bricks| - 1], SortByFirst(bricks[..|bricks| - 1]))
  }

  /** `read_bricks`: the bricks of the lines that read, others skipped, sorted by first cube. */
  method ReadBricks(input: String) returns (bricks: seq<Brick>)
    ensures bricks == SortByFirst(Parsed(Lines(input)))
    ensures multiset(bricks) == multiset(Parsed(Lines(input)))
    ensures SortedByFirst(bricks)
    ensures forall i :: 0 <= i < |bricks| ==> bricks[i] != []
  {
    var read := ReadEach(Lines(input));
    bricks := SortByFirst(read);
    ParsedNonEmpty(Lines(input));
    forall i | 0 <= i < |bricks| ensures bricks[i] != [] {
      assert bricks[i] in multiset(read);
    }
  }

  /** The loop of `read_bricks`, pushing each brick that reads. */
  method ReadEach(lines: seq<String>) returns (read: seq<Brick>)
    ensures read == Parsed(lines)
  {
    read := [];
    for i := 0 to |lines|
      invariant read == Parsed(lines[..i])
    {
      var brick := ReadBrick(lines[i]);
      assert lines[..i + 1][..i] == lines[..i];
      if brick.Some? {
        read := read + [brick.value];
      }
    }
    assert lines[..|lines|] == lines;
  }
}
