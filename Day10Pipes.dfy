/** The pipes and positions of `src/bin/10.rs`.

    The maze is a square grid of `GRID_SIZE` by `GRID_SIZE` cells, numbered row by row, so
    cell `pos` sits in row `pos / GRID_SIZE` and column `pos % GRID_SIZE`. A pipe joins two
    edges of its cell. Part one walks along pipes from edge to edge (`EdgePosition`); part
    two floods the gaps between pipes, moving from corner to corner of the cells
    (`CornerPosition`). */
module Day10Pipes {
  import opened Wrappers

  const GRID_SIZE: nat := 140

  /** `GRID_SIZE * GRID_SIZE`, the number of cells. */
  const CELLS: nat := 19600

  datatype Direction = North | East | South | West

  /** The four directions in the order in which the source tries them. */
  const COMPASS: seq<Direction> := [North, East, South, West]

  function Opposite(d: Direction): (o: Direction)
    ensures o != d
  {
    match d
    case North => South
    case East => West
    case South => North
    case West => East
  }

  /** A pipe joining two edges of a cell. */
  datatype Pipe = Pipe(first: Direction, second: Direction)

  /** Entering a pipe by one of its ends leaves it by the other; any other edge is closed. */
  function Traverse(pipe: Pipe, edge: Direction): (r: Option<Direction>)
    ensures r.Some? <==> edge == pipe.first || edge == pipe.second
    ensures edge == pipe.first ==> r == Some(pipe.second)
    ensures edge == pipe.second ==> r == Some(pipe.first)
  {
    if edge == pipe.first then Some(pipe.second)
    else if edge == pipe.second then Some(pipe.first)
    else None
  }

  /** Traversing a pipe with two distinct ends and then traversing back returns to the edge
      one started from. */
  lemma TraverseBack(pipe: Pipe, edge: Direction)
    requires pipe.first != pipe.second
    requires Traverse(pipe, edge).Some?
    ensures Traverse(pipe, Traverse(pipe, edge).value) == Some(edge)
    ensures Traverse(pipe, edge).value != edge
  {
  }

  /** The six pipe characters; every other character, the start 'S' included, is no pipe. */
  function ReadFromChar(ch: char): (r: Option<Pipe>)
    ensures r.Some? <==> ch in "|-LJ7F"
    ensures r.Some? ==> r.value.first != r.value.second
  {
    match ch
    case '|' => Some(Pipe(North, South))
    case '-' => Some(Pipe(East, West))
    case 'L' => Some(Pipe(North, East))
    case 'J' => Some(Pipe(North, West))
    case '7' => Some(Pipe(South, West))
    case 'F' => Some(Pipe(East, South))
    case _ => None
  }

  /** Distinct characters read as distinct pipes. */
  lemma ReadFromCharInjective(a: char, b: char)
    requires ReadFromChar(a).Some? && ReadFromChar(a) == ReadFromChar(b)
    ensures a == b
  {
  }

  /** Every way of joining two distinct edges has a character, in one order or the other. */
  lemma EveryPipeHasChar(x: Direction, y: Direction)
    requires x != y
    ensures exists ch :: ch in "|-LJ7F" && ReadFromChar(ch) in {Some(Pipe(x, y)), Some(Pipe(y, x))}
  {
    var ch :=
      if {x, y} == {North, South} then '|'
      else if {x, y} == {East, West} then '-'
      else if {x, y} == {North, East} then 'L'
      else if {x, y} == {North, West} then 'J'
      else if {x, y} == {South, West} then '7'
      else 'F';
    assert ReadFromChar(ch) in {Some(Pipe(x, y)), Some(Pipe(y, x))};
  }

  // ---------------------------------------------------------------------------------------
  // Walking along pipes

  /** A position on an edge of a cell, with the number of pipes traversed so far. */
  datatype EdgePosition = EdgePosition(pos: nat, edge: Direction, steps: nat)

  /** The unsigned subtraction in `cross_edge` does not underflow. */
  predicate CanCross(e: EdgePosition)
  {
    (e.edge == North ==> e.pos >= GRID_SIZE) && (e.edge == West ==> e.pos >= 1)
  }

  /** The same edge seen from the cell on its other side. East and West are one cell apart in
      the numbering, so crossing East out of the last column lands in the first column of the
      next row. */
  function CrossEdge(e: EdgePosition): (r: EdgePosition)
    requires CanCross(e)
    ensures r.edge == Opposite(e.edge) && r.steps == e.steps
    ensures CanCross(r)
    ensures r.pos != e.pos
    ensures e.edge in {North, South} ==> r.pos % GRID_SIZE == e.pos % GRID_SIZE
  {
    match e.edge
    case North => EdgePosition(e.pos - GRID_SIZE, South, e.steps)
    case East => EdgePosition(e.pos + 1, West, e.steps)
    case South => EdgePosition(e.pos + GRID_SIZE, North, e.steps)
    case West => EdgePosition(e.pos - 1, East, e.steps)
  }

  /** Crossing an edge twice comes back to where one started. */
  lemma CrossEdgeBack(e: EdgePosition)
    requires CanCross(e)
    ensures CrossEdge(CrossEdge(e)) == e
  {
  }

  /** Entering the pipe of the cell by the current edge and leaving by its other end. */
  function TraversePipe(e: EdgePosition, pipe: Pipe): (r: Option<EdgePosition>)
    ensures r.Some? <==> e.edge == pipe.first || e.edge == pipe.second
    ensures r.Some? ==> r.value.pos == e.pos && r.value.steps == e.steps + 1
    ensures r.Some? ==> Traverse(pipe, e.edge) == Some(r.value.edge)
  {
    match Traverse(pipe, e.edge)
    case None => None
    case Some(edge) => Some(EdgePosition(e.pos, edge, e.steps + 1))
  }

  /** Going through a pipe and back returns to the starting edge, two steps later. */
  lemma TraversePipeBack(e: EdgePosition, pipe: Pipe)
    requires pipe.first != pipe.second
    requires TraversePipe(e, pipe).Some?
    ensures TraversePipe(TraversePipe(e, pipe).value, pipe) == Some(e.(steps := e.steps + 2))
  {
  }

  // ---------------------------------------------------------------------------------------
  // Moving between corners

  datatype Corner = TopLeft | TopRight | BottomLeft | BottomRight

  /** Which half-segment of the cell a move from a corner crosses, for the moves that stay
      inside the cell: the half-segment from the centre towards the returned edge. Moves that
      leave the cell cross nothing. */
  function MoveCrosses(corner: Corner, direction: Direction): (r: Option<Direction>)
    ensures r.Some? <==> InCell(corner, direction).Some?
  {
    match (corner, direction)
    case (TopLeft, East) => Some(North)
    case (TopRight, West) => Some(North)
    case (TopLeft, South) => Some(West)
    case (BottomLeft, North) => Some(West)
    case (TopRight, South) => Some(East)
    case (BottomRight, North) => Some(East)
    case (BottomLeft, East) => Some(South)
    case (BottomRight, West) => Some(South)
    case _ => None
  }

  /** Undoing a move inside a cell crosses the same half-segment. */
  lemma MoveCrossesBack(corner: Corner, direction: Direction)
    requires InCell(corner, direction).Some?
    ensures InCell(InCell(corner, direction).value, Opposite(direction)) == Some(corner)
    ensures MoveCrosses(InCell(corner, direction).value, Opposite(direction)) == MoveCrosses(corner, direction)
  {
  }

  /** The corner of the same cell that a move reaches, when it stays inside the cell. */
  function InCell(corner: Corner, direction: Direction): Option<Corner>
  {
    match (direction, corner)
    case (North, BottomLeft) => Some(TopLeft)
    case (West, TopRight) => Some(TopLeft)
    case (North, BottomRight) => Some(TopRight)
    case (East, TopLeft) => Some(TopRight)
    case (East, BottomLeft) => Some(BottomRight)
    case (South, TopRight) => Some(BottomRight)
    case (South, TopLeft) => Some(BottomLeft)
    case (West, BottomRight) => Some(BottomLeft)
    case _ => None
  }

  datatype CornerPosition = CornerPosition(pos: nat, corner: Corner)

  /** The neighbouring cells of a cell, `None` where the grid ends. */
  datatype Neighbours = Neighbours(north: Option<nat>, east: Option<nat>, south: Option<nat>, west: Option<nat>)

  /** The neighbours as `adjacent_positions` computes them: the west neighbour is the
      previous cell in the numbering whenever there is one, even from the first column. */
  function NeighboursAsWritten(pos: nat): Neighbours
  {
    Neighbours(
      if pos >= GRID_SIZE then Some(pos - GRID_SIZE) else None,
      if pos % GRID_SIZE == GRID_SIZE - 1 then None else Some(pos + 1),
      if pos / GRID_SIZE == GRID_SIZE - 1 then None else Some(pos + GRID_SIZE),
      if pos >= 1 then Some(pos - 1) else None)
  }

  /** The neighbours of a cell in the grid: nothing west of the first column. */
  function CellNeighbours(pos: nat): Neighbours
  {
    NeighboursAsWritten(pos).(west := if pos % GRID_SIZE == 0 then None else Some(pos - 1))
  }

  /** A move that stays in the cell is blocked when it crosses a half-segment of the pipe. */
  predicate Blocked(corner: Corner, pipe: Option<Pipe>, direction: Direction)
  {
    match MoveCrosses(corner, direction)
    case None => false
    case Some(cross) => pipe.Some? && (pipe.value.first == cross || pipe.value.second == cross)
  }

  /** Where a move from a corner ends: a corner of the same cell, or the facing corner of the
      neighbouring cell. */
  function Destination(p: CornerPosition, near: Neighbours, direction: Direction): Option<CornerPosition>
  {
    match (direction, p.corner)
    case (North, TopLeft) => if near.north.Some? then Some(CornerPosition(near.north.value, BottomLeft)) else None
    case (North, TopRight) => if near.north.Some? then Some(CornerPosition(near.north.value, BottomRight)) else None
    case (East, TopRight) => if near.east.Some? then Some(CornerPosition(near.east.value, TopLeft)) else None
    case (East, BottomRight) => if near.east.Some? then Some(CornerPosition(near.east.value, BottomLeft)) else None
    case (South, BottomLeft) => if near.south.Some? then Some(CornerPosition(near.south.value, TopLeft)) else None
    case (South, BottomRight) => if near.south.Some? then Some(CornerPosition(near.south.value, TopRight)) else None
    case (West, TopLeft) => if near.west.Some? then Some(CornerPosition(near.west.value, TopRight)) else None
    case (West, BottomLeft) => if near.west.Some? then Some(CornerPosition(near.west.value, BottomRight)) else None
    case _ => Some(CornerPosition(p.pos, InCell(p.corner, direction).value))
  }

  /** One move of the flood, unless the pipe blocks it. */
  function Move(p: CornerPosition, pipe: Option<Pipe>, near: Neighbours, direction: Direction): Option<CornerPosition>
  {
    if Blocked(p.corner, pipe, direction) then None else Destination(p, near, direction)
  }

  /** The moves that succeed, in the order of `directions`. */
  function Moves(p: CornerPosition, pipe: Option<Pipe>, near: Neighbours, directions: seq<Direction>): (r: seq<CornerPosition>)
    ensures forall q :: q in r <==> exists i :: 0 <= i < |directions| && Move(p, pipe, near, directions[i]) == Some(q)
  {
    if directions == [] then []
    else
      var rest := Moves(p, pipe, near, directions[1..]);
      assert forall q :: (exists i :: 1 <= i < |directions| && Move(p, pipe, near, directions[i]) == Some(q)) ==>
                         q in rest by {
        forall q, i | 1 <= i < |directions| && Move(p, pipe, near, directions[i]) == Some(q)
          ensures q in rest
        {
          assert directions[1..][i - 1] == directions[i];
        }
      }
      match Move(p, pipe, near, directions[0])
      case None => rest
      case Some(q) => [q] + rest
  }

  /** `adjacent_positions` as written, with the west neighbour taken across the row break. */
  function AdjacentPositionsAsWritten(p: CornerPosition, pipe: Option<Pipe>): seq<CornerPosition>
  {
    Moves(p, pipe, NeighboursAsWritten(p.pos), COMPASS)
  }

  /** The two cells are the same or share an edge in the grid. */
  predicate Touching(a: nat, b: nat)
  {
    a == b
    || a + GRID_SIZE == b || b + GRID_SIZE == a
    || ((a + 1 == b || b + 1 == a) && a / GRID_SIZE == b / GRID_SIZE)
  }

  /** The corners one move away: every move stays in the grid, reaches the same or a
      touching cell, and is one of the four moves that the pipe does not block. */
  function AdjacentPositions(p: CornerPosition, pipe: Option<Pipe>): (r: seq<CornerPosition>)
    requires p.pos < CELLS
    ensures forall q :: q in r ==> q.pos < CELLS && Touching(p.pos, q.pos)
    ensures forall q :: q in r <==> exists d :: Move(p, pipe, CellNeighbours(p.pos), d) == Some(q)
  {
    var r := Moves(p, pipe, CellNeighbours(p.pos), COMPASS);
    forall q | q in r
      ensures q.pos < CELLS && Touching(p.pos, q.pos)
    {
      var i :| 0 <= i < 4 && Move(p, pipe, CellNeighbours(p.pos), COMPASS[i]) == Some(q);
      MoveStays(p, pipe, COMPASS[i]);
    }
    forall q, d | Move(p, pipe, CellNeighbours(p.pos), d) == Some(q)
      ensures q in r
    {
      assert COMPASS[IndexOf(d)] == d;
    }
    r
  }

  function IndexOf(d: Direction): (i: nat)
    ensures i < 4 && COMPASS[i] == d
  {
    match d
    case North => 0
    case East => 1
    case South => 2
    case West => 3
  }

  lemma MoveStays(p: CornerPosition, pipe: Option<Pipe>, d: Direction)
    requires p.pos < CELLS
    requires Move(p, pipe, CellNeighbours(p.pos), d).Some?
    ensures Move(p, pipe, CellNeighbours(p.pos), d).value.pos < CELLS
    ensures Touching(p.pos, Move(p, pipe, CellNeighbours(p.pos), d).value.pos)
  {
  }

  /** A move can always be undone by the opposite move: within a cell the same half-segment
      would be crossed, and between cells nothing is crossed. */
  lemma MoveBack(p: CornerPosition, pipe: Option<Pipe>, other: Option<Pipe>, d: Direction)
    requires p.pos < CELLS
    requires Move(p, pipe, CellNeighbours(p.pos), d).Some?
    requires Move(p, pipe, CellNeighbours(p.pos), d).value.pos == p.pos ==> other == pipe
    ensures var q := Move(p, pipe, CellNeighbours(p.pos), d).value;
            Move(q, other, CellNeighbours(q.pos), Opposite(d)) == Some(p)
  {
  }

  /** Adjacency is symmetric, given the pipe of each cell. */
  lemma AdjacentSymmetric(p: CornerPosition, q: CornerPosition, pipes: seq<Option<Pipe>>)
    requires |pipes| == CELLS && p.pos < CELLS
    requires q in AdjacentPositions(p, pipes[p.pos])
    ensures q.pos < CELLS && p in AdjacentPositions(q, pipes[q.pos])
  {
    var d :| Move(p, pipes[p.pos], CellNeighbours(p.pos), d) == Some(q);
    MoveBack(p, pipes[p.pos], pipes[q.pos], d);
  }

  /** The moves in compass order, one direction at a time. */
  lemma MovesOfCompass(p: CornerPosition, pipe: Option<Pipe>, near: Neighbours)
    ensures Moves(p, pipe, near, COMPASS)
         == Listed(Move(p, pipe, near, North)) + (Listed(Move(p, pipe, near, East))
          + (Listed(Move(p, pipe, near, South)) + Listed(Move(p, pipe, near, West))))
  {
    assert [North, East, South, West][1..] == [East, South, West];
    assert [East, South, West][1..] == [South, West];
    assert [South, West][1..] == [West];
    assert [West][1..] == [];
    MovesCons(p, pipe, near, [West]);
    MovesCons(p, pipe, near, [South, West]);
    MovesCons(p, pipe, near, [East, South, West]);
    MovesCons(p, pipe, near, [North, East, South, West]);
  }

  lemma MovesCons(p: CornerPosition, pipe: Option<Pipe>, near: Neighbours, directions: seq<Direction>)
    requires directions != []
    ensures Moves(p, pipe, near, directions) == Listed(Move(p, pipe, near, directions[0])) + Moves(p, pipe, near, directions[1..])
  {
  }

  /** The position of a move that succeeds, as a list. */
  /** No move is blocked: all four, in compass order. */
  lemma FourMoves(p: CornerPosition, pipe: Option<Pipe>, near: Neighbours)
    requires forall d :: Move(p, pipe, near, d).Some?
    ensures Moves(p, pipe, near, COMPASS)
         == [Move(p, pipe, near, North).value, Move(p, pipe, near, East).value,
             Move(p, pipe, near, South).value, Move(p, pipe, near, West).value]
  {
    MovesOfCompass(p, pipe, near);
  }

  function Listed(m: Option<CornerPosition>): seq<CornerPosition>
  {
    if m.Some? then [m.value] else []
  }

  /** As written, the first cell of the second row has the last cell of the first row as its
      west neighbour, while that cell has no east neighbour: the move cannot be undone, and
      it joins two cells that do not touch. */
  lemma AsWrittenWestWraps()
    ensures CornerPosition(139, TopRight) in AdjacentPositionsAsWritten(CornerPosition(140, TopLeft), None)
    ensures CornerPosition(140, TopLeft) !in AdjacentPositionsAsWritten(CornerPosition(139, TopRight), None)
    ensures !Touching(140, 139)
  {
    AsWrittenWestMove();
    AsWrittenNoEastMove();
  }

  lemma AsWrittenWestMove()
    ensures CornerPosition(139, TopRight) in AdjacentPositionsAsWritten(CornerPosition(140, TopLeft), None)
  {
    var p := CornerPosition(140, TopLeft);
    assert NeighboursAsWritten(140) == Neighbours(Some(0), Some(141), Some(280), Some(139));
    assert Move(p, None, NeighboursAsWritten(140), West) == Some(CornerPosition(139, TopRight));
  }

  lemma AsWrittenNoEastMove()
    ensures CornerPosition(140, TopLeft) !in AdjacentPositionsAsWritten(CornerPosition(139, TopRight), None)
  {
    var q := CornerPosition(139, TopRight);
    assert NeighboursAsWritten(139) == Neighbours(None, None, Some(279), Some(138));
    assert Move(q, None, NeighboursAsWritten(139), North) == None;
    assert Move(q, None, NeighboursAsWritten(139), East) == None;
    assert Move(q, None, NeighboursAsWritten(139), South) == Some(CornerPosition(139, BottomRight));
    assert Move(q, None, NeighboursAsWritten(139), West) == Some(CornerPosition(139, TopLeft));
    MovesOfCompass(q, None, NeighboursAsWritten(139));
  }
}

/** The unit tests of `src/bin/10.rs` for pipes and corners. */
module Day10PipesExamples {
  import opened Wrappers
  import opened Day10Pipes

  lemma ReadFromCharExamples()
    ensures ReadFromChar('!') == None && ReadFromChar('.') == None
    ensures ReadFromChar('-') == Some(Pipe(East, West))
    ensures ReadFromChar('|') == Some(Pipe(North, South))
    ensures ReadFromChar('F') == Some(Pipe(East, South))
  {
  }

  lemma TraverseExamples()
    ensures Traverse(Pipe(East, West), North) == None
    ensures Traverse(Pipe(East, West), East) == Some(West)
    ensures Traverse(Pipe(East, West), South) == None
    ensures Traverse(Pipe(East, West), West) == Some(East)
    ensures Traverse(Pipe(East, South), North) == None
    ensures Traverse(Pipe(East, South), East) == Some(South)
    ensures Traverse(Pipe(East, South), South) == Some(East)
    ensures Traverse(Pipe(East, South), West) == None
  {
  }

  function Position(row: nat, col: nat): nat
  {
    row * GRID_SIZE + col
  }

  lemma AdjacentTopLeftExample()
    ensures AdjacentPositions(CornerPosition(Position(0, 0), TopLeft), Some(Pipe(East, South)))
         == [CornerPosition(Position(0, 0), TopRight), CornerPosition(Position(0, 0), BottomLeft)]
  {
    var p, pipe := CornerPosition(0, TopLeft), Some(Pipe(East, South));
    var near := CellNeighbours(0);
    assert Move(p, pipe, near, North) == None;
    assert Move(p, pipe, near, East) == Some(CornerPosition(0, TopRight));
    assert Move(p, pipe, near, South) == Some(CornerPosition(0, BottomLeft));
    assert Move(p, pipe, near, West) == None;
    MovesOfCompass(p, pipe, near);
  }

  lemma AdjacentTopRightExample()
    ensures AdjacentPositions(CornerPosition(Position(2, 2), TopRight), Some(Pipe(East, West)))
         == [CornerPosition(Position(1, 2), BottomRight), CornerPosition(Position(2, 3), TopLeft),
             CornerPosition(Position(2, 2), TopLeft)]
  {
    var p, pipe := CornerPosition(282, TopRight), Some(Pipe(East, West));
    var near := CellNeighbours(282);
    assert near == Neighbours(Some(142), Some(283), Some(422), Some(281));
    assert Move(p, pipe, near, North) == Some(CornerPosition(142, BottomRight));
    assert Move(p, pipe, near, East) == Some(CornerPosition(283, TopLeft));
    assert Move(p, pipe, near, South) == None;
    assert Move(p, pipe, near, West) == Some(CornerPosition(282, TopLeft));
    MovesOfCompass(p, pipe, near);
  }

  lemma AdjacentBottomRightExample()
    ensures AdjacentPositions(CornerPosition(Position(3, 3), BottomRight), None)
         == [CornerPosition(Position(3, 3), TopRight), CornerPosition(Position(3, 4), BottomLeft),
             CornerPosition(Position(4, 3), TopRight), CornerPosition(Position(3, 3), BottomLeft)]
  {
    var p, pipe := CornerPosition(423, BottomRight), None;
    var near := CellNeighbours(423);
    assert near == Neighbours(Some(283), Some(424), Some(563), Some(422));
    assert Move(p, pipe, near, North) == Some(CornerPosition(423, TopRight));
    assert Move(p, pipe, near, East) == Some(CornerPosition(424, BottomLeft));
    assert Move(p, pipe, near, South) == Some(CornerPosition(563, TopRight));
    assert Move(p, pipe, near, West) == Some(CornerPosition(423, BottomLeft));
    FourMoves(p, pipe, near);
  }
}
