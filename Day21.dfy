/** Day 21: an elf walking a garden of plots and rocks. The garden is a row-major grid of
    `height` rows of `width` cells; each step moves every reachable position one cell north,
    east, south or west onto a plot, and the model proves that the positions after `n` steps
    are exactly the ends of the `n`-step walks from the start. On the infinitely repeated
    garden a position also carries the tile it is in, and the model proves that a step moves
    its unrolled coordinates by exactly one cell. */
module Day21 {
  import opened Wrappers
  import opened Text
  import opened Divisibility

  datatype Direction = North | East | South | West

  /** The directions in the order the steps try them. */
  const COMPASS: seq<Direction> := [North, East, South, West]

  /** The change of row and of column a step in the direction makes. */
  function RowOffset(d: Direction): int
  {
    match d
    case North => -1
    case South => 1
    case _ => 0
  }

  function ColOffset(d: Direction): int
  {
    match d
    case West => -1
    case East => 1
    case _ => 0
  }

  datatype Garden = Garden(height: nat, width: nat, start: nat, rocks: seq<bool>)

  /** A garden whose rocks fill the whole `height` by `width` rectangle, with the start in it:
      what the parser builds from rectangular text. */
  predicate Valid(g: Garden)
  {
    g.width > 0 && g.height > 0 && |g.rocks| == g.height * g.width && g.start < |g.rocks|
  }

  /** The index of the cell in row `row`, column `col`. */
  function Cell(g: Garden, row: nat, col: nat): nat
  {
    row * g.width + col
  }

  function Row(g: Garden, position: nat): nat
    requires g.width > 0
  {
    position / g.width
  }

  function Col(g: Garden, position: nat): nat
    requires g.width > 0
  {
    position % g.width
  }

  /** A cell's row and column give it back. */
  lemma CellOfRowCol(g: Garden, row: nat, col: nat)
    requires g.width > 0 && col < g.width
    ensures Row(g, Cell(g, row, col)) == row && Col(g, Cell(g, row, col)) == col
  {
    ModUnique(Cell(g, row, col), g.width, row, col);
  }

  /** A cell lies inside the grid exactly when its row does. */
  lemma CellInGrid(g: Garden, row: nat, col: nat)
    requires g.width > 0 && col < g.width
    ensures Cell(g, row, col) < g.height * g.width <==> row < g.height
  {
    if row < g.height {
      MulSub(g.width, g.height, row);
      MulAtLeast(g.width, g.height - row);
    } else {
      MulSub(g.width, row, g.height);
      MulNonnegative(g.width, row - g.height);
    }
  }

  /** Every position is the cell of its row and column. */
  lemma RowColOfCell(g: Garden, position: nat)
    requires g.width > 0
    ensures position == Cell(g, Row(g, position), Col(g, position)) && Col(g, position) < g.width
  {
    DivMod(position, g.width);
  }

  // ---------------------------------------------------------------------------------------
  // One step on the garden

  /** `Garden::step_in_direction`: the neighbouring cell, or None off the edge. */
  function StepInDirection(g: Garden, position: nat, direction: Direction): Option<nat>
    requires g.width > 0
  {
    var row := position / g.width;
    var col := position % g.width;
    match direction
    case North => if position >= g.width then Some(position - g.width) else None
    case East => if col + 1 < g.width then Some(position + 1) else None
    case South => if row + 1 < g.height then Some(position + g.width) else None
    case West => if col > 0 then Some(position - 1) else None
  }

  /** From a cell in the grid, a step is None exactly when the neighbour in that direction
      lies off the grid, and otherwise it is that neighbour. */
  lemma StepInDirectionCells(g: Garden, row: nat, col: nat, direction: Direction)
    requires g.width > 0 && row < g.height && col < g.width
    ensures var next := StepInDirection(g, Cell(g, row, col), direction);
            var nextRow := row + RowOffset(direction);
            var nextCol := col + ColOffset(direction);
            && (next.Some? <==> 0 <= nextRow < g.height && 0 <= nextCol < g.width)
            && (next.Some? ==> next.value == Cell(g, nextRow, nextCol))
  {
    CellOfRowCol(g, row, col);
    var position := Cell(g, row, col);
    if direction == North {
      if row > 0 {
        assert position - g.width == (row - 1) * g.width + col;
      } else {
        assert position < g.width;
      }
    } else if direction == South {
      assert position + g.width == (row + 1) * g.width + col;
    }
  }

  /** A step from a cell in the grid stays in the grid. */
  lemma StepInGrid(g: Garden, position: nat, direction: Direction)
    requires Valid(g) && position < |g.rocks|
    ensures var next := StepInDirection(g, position, direction);
            next.Some? ==> next.value < |g.rocks|
  {
    RowColOfCell(g, position);
    var row, col := Row(g, position), Col(g, position);
    CellInGrid(g, row, col);
    StepInDirectionCells(g, row, col, direction);
    var next := StepInDirection(g, position, direction);
    if next.Some? {
      CellInGrid(g, row + RowOffset(direction), col + ColOffset(direction));
    }
  }

  // ---------------------------------------------------------------------------------------
  // All positions one step on

  /** Every position lies in the grid. */
  predicate InGrid(g: Garden, positions: set<nat>)
  {
    forall p :: p in positions ==> p < |g.rocks|
  }

  /** The plots one step from `p` in the first `k` directions of the compass. */
  function MovesUpTo(g: Garden, p: nat, k: nat): (moves: set<nat>)
    requires Valid(g) && p < |g.rocks| && k <= |COMPASS|
    ensures InGrid(g, moves)
  {
    if k == 0 then {}
    else
      var earlier := MovesUpTo(g, p, k - 1);
      match StepInDirection(g, p, COMPASS[k - 1])
      case None => earlier
      case Some(next) =>
        StepInGrid(g, p, COMPASS[k - 1]);
        if g.rocks[next] then earlier else earlier + {next}
  }

  /** The plot a step reaches, if any. */
  function Kept(g: Garden, next: Option<nat>): set<nat>
  {
    if next.Some? && next.value < |g.rocks| && !g.rocks[next.value] then {next.value} else {}
  }

  /** The plots one step from `p`, direction by direction. */
  lemma MovesListed(g: Garden, p: nat)
    requires Valid(g) && p < |g.rocks|
    ensures MovesUpTo(g, p, 4) == Kept(g, StepInDirection(g, p, North)) + Kept(g, StepInDirection(g, p, East))
                                 + Kept(g, StepInDirection(g, p, South)) + Kept(g, StepInDirection(g, p, West))
  {
    MovesUpToStep(g, p, 0);
    MovesUpToStep(g, p, 1);
    MovesUpToStep(g, p, 2);
    MovesUpToStep(g, p, 3);
  }

  lemma MovesUpToStep(g: Garden, p: nat, k: nat)
    requires Valid(g) && p < |g.rocks| && k < |COMPASS|
    ensures MovesUpTo(g, p, k + 1) == MovesUpTo(g, p, k) + Kept(g, StepInDirection(g, p, COMPASS[k]))
  {
    StepInGrid(g, p, COMPASS[k]);
  }

  /** The plots one step from `p`. */
  function Moves(g: Garden, p: nat): set<nat>
    requires Valid(g) && p < |g.rocks|
  {
    MovesUpTo(g, p, |COMPASS|)
  }

  /** The plots one step from any of the positions. */
  function StepFrom(g: Garden, positions: set<nat>): (after: set<nat>)
    requires Valid(g) && InGrid(g, positions)
    ensures InGrid(g, after)
  {
    set p, next | p in positions && next in Moves(g, p) :: next
  }

  /** The number of rows plus the number of columns between two places. */
  function Manhattan(row: int, col: int, otherRow: int, otherCol: int): nat
  {
    var rows := row - otherRow;
    var cols := col - otherCol;
    (if rows < 0 then -rows else rows) + (if cols < 0 then -cols else cols)
  }

  /** One step changes the distance from any place by exactly one. */
  lemma ManhattanStep(a: int, b: int, p: int, q: int, r: int, t: int)
    requires Manhattan(p, q, r, t) == 1
    ensures var before, after := Manhattan(a, b, p, q), Manhattan(a, b, r, t);
            after == before + 1 || after + 1 == before
  {
  }

  /** The row and column distance between two cells. */
  function Distance(g: Garden, p: nat, q: nat): nat
    requires g.width > 0
  {
    Manhattan(Row(g, p), Col(g, p), Row(g, q), Col(g, q))
  }

  /** The plots one step from `p` are exactly the cells of the grid at distance one from it
      that are not rocks. */
  lemma MovesAreNeighbours(g: Garden, p: nat, q: nat)
    requires Valid(g) && p < |g.rocks|
    ensures q in Moves(g, p) <==> q < |g.rocks| && !g.rocks[q] && Distance(g, p, q) == 1
  {
    RowColOfCell(g, p);
    RowColOfCell(g, q);
    var row, col := Row(g, p), Col(g, p);
    CellInGrid(g, row, col);
    forall k | 0 <= k < |COMPASS|
      ensures var next := StepInDirection(g, p, COMPASS[k]);
              next.Some? ==> next.value < |g.rocks| && Distance(g, p, next.value) == 1
      ensures var next := StepInDirection(g, p, COMPASS[k]);
              next.None? <==> !(0 <= row + RowOffset(COMPASS[k]) < g.height && 0 <= col + ColOffset(COMPASS[k]) < g.width)
    {
      var d := COMPASS[k];
      StepInDirectionCells(g, row, col, d);
      StepInGrid(g, p, d);
      if StepInDirection(g, p, d).Some? {
        CellOfRowCol(g, row + RowOffset(d), col + ColOffset(d));
      }
    }
    MovesUpToMembers(g, p, q, |COMPASS|);
    if q < |g.rocks| && !g.rocks[q] && Distance(g, p, q) == 1 {
      var d := DirectionTowards(g, p, q);
      StepInDirectionCells(g, row, col, d);
      CellInGrid(g, Row(g, q), Col(g, q));
      assert COMPASS[Index(d)] == d;
    }
  }

  /** The position of a direction in the compass. */
  function Index(d: Direction): (k: nat)
    ensures k < |COMPASS| && COMPASS[k] == d
  {
    match d
    case North => 0
    case East => 1
    case South => 2
    case West => 3
  }

  /** The direction from `p` to a cell at distance one. */
  function DirectionTowards(g: Garden, p: nat, q: nat): (d: Direction)
    requires g.width > 0 && Distance(g, p, q) == 1
    ensures Row(g, q) == Row(g, p) + RowOffset(d) && Col(g, q) == Col(g, p) + ColOffset(d)
  {
    if Row(g, q) < Row(g, p) then North
    else if Row(g, q) > Row(g, p) then South
    else if Col(g, q) > Col(g, p) then East
    else West
  }

  /** The members of the moves in the first `k` directions. */
  lemma {:induction false} MovesUpToMembers(g: Garden, p: nat, q: nat, k: nat)
    requires Valid(g) && p < |g.rocks| && k <= |COMPASS|
    ensures q in MovesUpTo(g, p, k) <==>
              q < |g.rocks| && !g.rocks[q] && exists j :: 0 <= j < k && StepInDirection(g, p, COMPASS[j]) == Some(q)
  {
    if k > 0 {
      MovesUpToMembers(g, p, q, k - 1);
      StepInGrid(g, p, COMPASS[k - 1]);
    }
  }

  /** `step_from_positions` gives exactly the plots at distance one from some position. */
  lemma StepFromNeighbours(g: Garden, positions: set<nat>, q: nat)
    requires Valid(g) && InGrid(g, positions)
    ensures q in StepFrom(g, positions) <==>
              q < |g.rocks| && !g.rocks[q] && exists p :: p in positions && Distance(g, p, q) == 1
  {
    if q in StepFrom(g, positions) {
      var p :| p in positions && q in Moves(g, p);
      MovesAreNeighbours(g, p, q);
    }
    if q < |g.rocks| && !g.rocks[q] && exists p :: p in positions && Distance(g, p, q) == 1 {
      var p :| p in positions && Distance(g, p, q) == 1;
      MovesAreNeighbours(g, p, q);
    }
  }

  /** The steps from one more position add that position's moves. */
  lemma StepFromAdd(g: Garden, positions: set<nat>, p: nat)
    requires Valid(g) && InGrid(g, positions) && p < |g.rocks|
    ensures InGrid(g, positions + {p})
    ensures StepFrom(g, positions + {p}) == StepFrom(g, positions) + Moves(g, p)
  {
  }

  lemma StepFromUnion(g: Garden, some: set<nat>, others: set<nat>, all: set<nat>)
    requires Valid(g) && InGrid(g, some) && InGrid(g, others) && all == some + others
    ensures InGrid(g, all)
    ensures StepFrom(g, all) == StepFrom(g, some) + StepFrom(g, others)
  {
  }

  /** The inner loop of `Garden::step_from_positions`: each compass direction in turn,
      the neighbour inserted when it is on the grid and no rock. */
  method InsertMoves(g: Garden, p: nat, before: set<nat>) returns (after: set<nat>)
    requires Valid(g) && p < |g.rocks|
    ensures after == before + Moves(g, p)
  {
    after := before;
    for k := 0 to |COMPASS|
      invariant after == before + MovesUpTo(g, p, k)
    {
      var next := StepInDirection(g, p, COMPASS[k]);
      if next.Some? {
        StepInGrid(g, p, COMPASS[k]);
        if !g.rocks[next.value] {
          assert MovesUpTo(g, p, k + 1) == MovesUpTo(g, p, k) + {next.value};
          after := after + {next.value};
        } else {
          assert MovesUpTo(g, p, k + 1) == MovesUpTo(g, p, k);
        }
      } else {
        assert MovesUpTo(g, p, k + 1) == MovesUpTo(g, p, k);
      }
    }
  }

  /** `Garden::step_from_positions`: the moves of every position gathered. */
  method StepFromPositions(g: Garden, positions: set<nat>) returns (after: set<nat>)
    requires Valid(g) && InGrid(g, positions)
    ensures after == StepFrom(g, positions)
  {
    after := {};
    var remaining := positions;
    ghost var done: set<nat> := {};
    while remaining != {}
      invariant remaining <= positions && done == positions - remaining
      invariant after == StepFrom(g, done)
      decreases |remaining|
    {
      var p :| p in remaining;
      after := InsertMoves(g, p, after);
      StepFromAdd(g, done, p);
      done := done + {p};
      remaining := remaining - {p};
    }
  }

  // ---------------------------------------------------------------------------------------
  // Walks of n steps

  /** The positions after `n` steps from the start. */
  function Reachable(g: Garden, n: nat): (positions: set<nat>)
    requires Valid(g)
    ensures InGrid(g, positions)
  {
    if n == 0 then {g.start} else StepFrom(g, Reachable(g, n - 1))
  }

  /** One more step from the positions after `n` steps. */
  lemma ReachableStep(g: Garden, n: nat, before: set<nat>, after: set<nat>)
    requires Valid(g) && Reachable(g, n) == before && StepFrom(g, before) == after
    ensures Reachable(g, n + 1) == after
  {
  }

  /** `path` is a walk from the start: every cell after the first is a plot of the grid at
      distance one from the cell before it. */
  predicate Walk(g: Garden, path: seq<nat>)
    requires Valid(g)
  {
    && |path| >= 1 && path[0] == g.start
    && forall i :: 0 < i < |path| ==> path[i] < |g.rocks| && !g.rocks[path[i]] && Distance(g, path[i - 1], path[i]) == 1
  }

  /** `path` is a walk of `n` steps ending at `q`. */
  predicate WalkTo(g: Garden, path: seq<nat>, n: nat, q: nat)
    requires Valid(g)
  {
    Walk(g, path) && |path| == n + 1 && path[n] == q
  }

  /** A walk of `n` steps to a neighbour of `q` extends to a walk of `n + 1` steps to `q`. */
  lemma WalkExtend(g: Garden, path: seq<nat>, n: nat, p: nat, q: nat)
    requires Valid(g) && WalkTo(g, path, n, p)
    requires q < |g.rocks| && !g.rocks[q] && Distance(g, p, q) == 1
    ensures WalkTo(g, path + [q], n + 1, q)
  {
    var longer := path + [q];
    forall i | 0 < i < |longer|
      ensures longer[i] < |g.rocks| && !g.rocks[longer[i]] && Distance(g, longer[i - 1], longer[i]) == 1
    {
      if i < |path| {
        assert longer[i] == path[i] && longer[i - 1] == path[i - 1];
      }
    }
  }

  /** A walk of `n + 1` steps is a walk of `n` steps and one step more. */
  lemma WalkShorten(g: Garden, path: seq<nat>, n: nat, q: nat)
    requires Valid(g) && WalkTo(g, path, n + 1, q)
    ensures WalkTo(g, path[..n + 1], n, path[n])
    ensures q < |g.rocks| && !g.rocks[q] && Distance(g, path[n], q) == 1
  {
    var shorter := path[..n + 1];
    forall i | 0 < i < |shorter|
      ensures shorter[i] < |g.rocks| && !g.rocks[shorter[i]] && Distance(g, shorter[i - 1], shorter[i]) == 1
    {
      assert shorter[i] == path[i] && shorter[i - 1] == path[i - 1];
    }
  }

  /** The positions after `n` steps are exactly the ends of the walks of `n` steps. */
  lemma {:induction false} ReachableWalks(g: Garden, n: nat, q: nat)
    requires Valid(g)
    ensures q in Reachable(g, n) <==> exists path :: WalkTo(g, path, n, q)
  {
    if n == 0 {
      if q in Reachable(g, n) {
        assert WalkTo(g, [q], 0, q);
      }
    } else {
      var before := Reachable(g, n - 1);
      StepFromNeighbours(g, before, q);
      if q in Reachable(g, n) {
        var p :| p in before && Distance(g, p, q) == 1;
        ReachableWalks(g, n - 1, p);
        var path :| WalkTo(g, path, n - 1, p);
        WalkExtend(g, path, n - 1, p, q);
      }
      if exists path :: WalkTo(g, path, n, q) {
        var path :| WalkTo(g, path, n, q);
        WalkShorten(g, path, n - 1, q);
        ReachableWalks(g, n - 1, path[n - 1]);
      }
    }
  }

  /** The arithmetic of one more step: a distance that changes by one stays within the
      steps taken and keeps their parity. */
  lemma ParityStep(n: nat, before: nat, after: nat)
    requires n > 0 && before <= n - 1 && (n - 1 - before) % 2 == 0
    requires after == before + 1 || after + 1 == before
    ensures after <= n && (n - after) % 2 == 0
  {
    if after + 1 == before {
      assert n - after == (n - 1 - before) + 2;
    }
  }

  /** A place within `n - 1` steps of `(a, b)`, at the right parity, is one step from a
      place within `n` steps at the parity of `n`. */
  lemma NearStep(n: nat, a: int, b: int, p: int, q: int, r: int, t: int)
    requires n > 0 && Manhattan(p, q, r, t) == 1
    requires Manhattan(a, b, p, q) <= n - 1 && (n - 1 - Manhattan(a, b, p, q)) % 2 == 0
    ensures Manhattan(a, b, r, t) <= n && (n - Manhattan(a, b, r, t)) % 2 == 0
  {
    ManhattanStep(a, b, p, q, r, t);
    ParityStep(n, Manhattan(a, b, p, q), Manhattan(a, b, r, t));
  }

  /** After `n` steps the elf is at most `n` cells from the start, and an even number of
      steps short of `n`: a cell is reachable only on every other step. */
  lemma {:induction false} ReachableNear(g: Garden, n: nat, q: nat)
    requires Valid(g) && q in Reachable(g, n)
    ensures Distance(g, g.start, q) <= n && (n - Distance(g, g.start, q)) % 2 == 0
  {
    if n == 0 {
      assert q == g.start;
    } else {
      var before := Reachable(g, n - 1);
      var p :| p in before && q in Moves(g, p);
      MovesAreNeighbours(g, p, q);
      ReachableNear(g, n - 1, p);
      NearStep(n, Row(g, g.start), Col(g, g.start), Row(g, p), Col(g, p), Row(g, q), Col(g, q));
    }
  }

  /** `Garden::total_reachable_in_steps`: the positions stepped `steps` times from the start,
      counted. */
  method TotalReachableInSteps(g: Garden, steps: nat) returns (count: nat)
    requires Valid(g)
    ensures count == |Reachable(g, steps)|
  {
    var positions := {g.start};
    for i := 0 to steps
      invariant positions == Reachable(g, i)
    {
      positions := StepFromPositions(g, positions);
    }
    count := |positions|;
  }

  // ---------------------------------------------------------------------------------------
  // The repeated garden

  /** A position on the garden repeated in every direction: the tile, counted in gardens
      east (`x`) and south (`y`) of the original, and the cell within it. */
  datatype RepeatedGridPosition = RepeatedGridPosition(x: int, y: int, position: nat)

  /** `Garden::step_in_direction_on_repeated_grid`: within the tile when the neighbour is
      on it, otherwise onto the opposite edge of the neighbouring tile. */
  function StepInDirectionOnRepeatedGrid(g: Garden, from: RepeatedGridPosition, direction: Direction): RepeatedGridPosition
    requires g.width > 0 && g.height > 0
  {
    var row := from.position / g.width;
    var col := from.position % g.width;
    match direction
    case North =>
      if row > 0 then
        assert from.position >= g.width by {
          RowColOfCell(g, from.position);
          MulAtLeast(g.width, row);
        }
        RepeatedGridPosition(from.x, from.y, from.position - g.width)
      else RepeatedGridPosition(from.x, from.y - 1, (g.height - 1) * g.width + col)
    case East =>
      if col + 1 < g.width then RepeatedGridPosition(from.x, from.y, from.position + 1)
      else RepeatedGridPosition(from.x + 1, from.y, row * g.width)
    case South =>
      if row + 1 < g.height then RepeatedGridPosition(from.x, from.y, from.position + g.width)
      else RepeatedGridPosition(from.x, from.y + 1, col)
    case West =>
      if col > 0 then
        assert from.position >= 1 by {
          RowColOfCell(g, from.position);
        }
        RepeatedGridPosition(from.x, from.y, from.position - 1)
      else RepeatedGridPosition(from.x - 1, from.y, g.width * row + g.width - 1)
  }

  /** The row of a repeated position counted across all tiles. */
  function GlobalRow(g: Garden, p: RepeatedGridPosition): int
    requires g.width > 0
  {
    p.y * g.height + Row(g, p.position)
  }

  /** The column of a repeated position counted across all tiles. */
  function GlobalCol(g: Garden, p: RepeatedGridPosition): int
    requires g.width > 0
  {
    p.x * g.width + Col(g, p.position)
  }

  /** `to` is where a step from `from` in `direction` should land: on the garden, the global
      row and column moved by the direction's offsets, the same tile and the same cell as
      the step on the single garden when that step is possible, otherwise the tile changed by
      one in the direction of the step. */
  predicate SteppedTo(g: Garden, from: RepeatedGridPosition, direction: Direction, to: RepeatedGridPosition)
    requires g.width > 0
  {
    var plain := StepInDirection(g, from.position, direction);
    && to.position < g.height * g.width
    && GlobalRow(g, to) == GlobalRow(g, from) + RowOffset(direction)
    && GlobalCol(g, to) == GlobalCol(g, from) + ColOffset(direction)
    && (plain.Some? ==> to == RepeatedGridPosition(from.x, from.y, plain.value))
    && (plain.None? ==> to.x == from.x + ColOffset(direction) && to.y == from.y + RowOffset(direction))
  }

  /** A step on the repeated garden always moves, one cell in its direction. */
  lemma RepeatedStepMoves(g: Garden, from: RepeatedGridPosition, direction: Direction)
    requires Valid(g) && from.position < |g.rocks|
    ensures SteppedTo(g, from, direction, StepInDirectionOnRepeatedGrid(g, from, direction))
  {
    RowColOfCell(g, from.position);
    var row, col := Row(g, from.position), Col(g, from.position);
    CellInGrid(g, row, col);
    StepInDirectionCells(g, row, col, direction);
    match direction {
      case North => RepeatedNorth(g, from, row, col);
      case East => RepeatedEast(g, from, row, col);
      case South => RepeatedSouth(g, from, row, col);
      case West => RepeatedWest(g, from, row, col);
    }
  }

  lemma RepeatedNorth(g: Garden, from: RepeatedGridPosition, row: nat, col: nat)
    requires Valid(g) && row < g.height && col < g.width && from.position == Cell(g, row, col)
    ensures SteppedTo(g, from, North, StepInDirectionOnRepeatedGrid(g, from, North))
  {
    CellOfRowCol(g, row, col);
    StepInDirectionCells(g, row, col, North);
    var to := StepInDirectionOnRepeatedGrid(g, from, North);
    if row == 0 {
      CellOfRowCol(g, g.height - 1, col);
      CellInGrid(g, g.height - 1, col);
      assert GlobalRow(g, to) == (from.y - 1) * g.height + g.height - 1;
    } else {
      CellOfRowCol(g, row - 1, col);
      CellInGrid(g, row - 1, col);
    }
  }

  lemma RepeatedEast(g: Garden, from: RepeatedGridPosition, row: nat, col: nat)
    requires Valid(g) && row < g.height && col < g.width && from.position == Cell(g, row, col)
    ensures SteppedTo(g, from, East, StepInDirectionOnRepeatedGrid(g, from, East))
  {
    CellOfRowCol(g, row, col);
    StepInDirectionCells(g, row, col, East);
    var to := StepInDirectionOnRepeatedGrid(g, from, East);
    CellInGrid(g, row, col);
    if col + 1 == g.width {
      CellOfRowCol(g, row, 0);
      CellInGrid(g, row, 0);
      assert GlobalCol(g, to) == (from.x + 1) * g.width;
    } else {
      CellOfRowCol(g, row, col + 1);
      CellInGrid(g, row, col + 1);
    }
  }

  lemma RepeatedSouth(g: Garden, from: RepeatedGridPosition, row: nat, col: nat)
    requires Valid(g) && row < g.height && col < g.width && from.position == Cell(g, row, col)
    ensures SteppedTo(g, from, South, StepInDirectionOnRepeatedGrid(g, from, South))
  {
    CellOfRowCol(g, row, col);
    StepInDirectionCells(g, row, col, South);
    var to := StepInDirectionOnRepeatedGrid(g, from, South);
    if row + 1 == g.height {
      CellOfRowCol(g, 0, col);
      assert GlobalRow(g, to) == (from.y + 1) * g.height;
    } else {
      CellOfRowCol(g, row + 1, col);
      CellInGrid(g, row + 1, col);
    }
  }

  lemma RepeatedWest(g: Garden, from: RepeatedGridPosition, row: nat, col: nat)
    requires Valid(g) && row < g.height && col < g.width && from.position == Cell(g, row, col)
    ensures SteppedTo(g, from, West, StepInDirectionOnRepeatedGrid(g, from, West))
  {
    CellOfRowCol(g, row, col);
    StepInDirectionCells(g, row, col, West);
    var to := StepInDirectionOnRepeatedGrid(g, from, West);
    CellInGrid(g, row, col);
    if col == 0 {
      assert to.position == Cell(g, row, g.width - 1);
      CellOfRowCol(g, row, g.width - 1);
      CellInGrid(g, row, g.width - 1);
      assert GlobalCol(g, to) == (from.x - 1) * g.width + g.width - 1;
    } else {
      CellOfRowCol(g, row, col - 1);
      CellInGrid(g, row, col - 1);
    }
  }

  /** A step on the repeated garden stays on the tiles' grid. */
  lemma RepeatedStepOnTiles(g: Garden, from: RepeatedGridPosition, direction: Direction)
    requires Valid(g) && from.position < |g.rocks|
    ensures StepInDirectionOnRepeatedGrid(g, from, direction).position < |g.rocks|
  {
    RepeatedStepMoves(g, from, direction);
  }

  /** Where the single garden has a step, the repeated one takes the same step on the same tile. */
  lemma RepeatedStepWithinTile(g: Garden, from: RepeatedGridPosition, direction: Direction)
    requires Valid(g) && from.position < |g.rocks| && StepInDirection(g, from.position, direction).Some?
    ensures StepInDirectionOnRepeatedGrid(g, from, direction)
            == RepeatedGridPosition(from.x, from.y, StepInDirection(g, from.position, direction).value)
  {
    RepeatedStepMoves(g, from, direction);
  }

  /** Positions on the repeated garden are told apart by their global row and column. */
  lemma GlobalUnique(g: Garden, a: RepeatedGridPosition, b: RepeatedGridPosition)
    requires Valid(g) && a.position < |g.rocks| && b.position < |g.rocks|
    requires GlobalRow(g, a) == GlobalRow(g, b) && GlobalCol(g, a) == GlobalCol(g, b)
    ensures a == b
  {
    RowColOfCell(g, a.position);
    RowColOfCell(g, b.position);
    CellInGrid(g, Row(g, a.position), Col(g, a.position));
    CellInGrid(g, Row(g, b.position), Col(g, b.position));
    ModUnique(GlobalRow(g, a), g.height, a.y, Row(g, a.position));
    ModUnique(GlobalRow(g, b), g.height, b.y, Row(g, b.position));
    ModUnique(GlobalCol(g, a), g.width, a.x, Col(g, a.position));
    ModUnique(GlobalCol(g, b), g.width, b.x, Col(g, b.position));
  }

  /** Every repeated position lies on its tile's grid. */
  predicate OnTiles(g: Garden, positions: set<RepeatedGridPosition>)
  {
    forall p :: p in positions ==> p.position < |g.rocks|
  }

  /** The plots one step from `p` on the repeated garden, in the first `k` directions. */
  function RepeatedMovesUpTo(g: Garden, p: RepeatedGridPosition, k: nat): (moves: set<RepeatedGridPosition>)
    requires Valid(g) && p.position < |g.rocks| && k <= |COMPASS|
    ensures OnTiles(g, moves)
  {
    if k == 0 then {}
    else
      var earlier := RepeatedMovesUpTo(g, p, k - 1);
      var next := StepInDirectionOnRepeatedGrid(g, p, COMPASS[k - 1]);
      RepeatedStepOnTiles(g, p, COMPASS[k - 1]);
      if g.rocks[next.position] then earlier else earlier + {next}
  }

  function RepeatedMoves(g: Garden, p: RepeatedGridPosition): set<RepeatedGridPosition>
    requires Valid(g) && p.position < |g.rocks|
  {
    RepeatedMovesUpTo(g, p, |COMPASS|)
  }

  /** The plots one step from any of the positions on the repeated garden. */
  function RepeatedStepFrom(g: Garden, positions: set<RepeatedGridPosition>): (after: set<RepeatedGridPosition>)
    requires Valid(g) && OnTiles(g, positions)
    ensures OnTiles(g, after)
  {
    set p, next | p in positions && next in RepeatedMoves(g, p) :: next
  }

  /** The row and column distance between two positions of the repeated garden. */
  function GlobalDistance(g: Garden, p: RepeatedGridPosition, q: RepeatedGridPosition): nat
    requires g.width > 0
  {
    Manhattan(GlobalRow(g, p), GlobalCol(g, p), GlobalRow(g, q), GlobalCol(g, q))
  }

  /** The direction from `p` to a repeated position at distance one. */
  function GlobalDirectionTowards(g: Garden, p: RepeatedGridPosition, q: RepeatedGridPosition): (d: Direction)
    requires g.width > 0 && GlobalDistance(g, p, q) == 1
    ensures GlobalRow(g, q) == GlobalRow(g, p) + RowOffset(d) && GlobalCol(g, q) == GlobalCol(g, p) + ColOffset(d)
  {
    if GlobalRow(g, q) < GlobalRow(g, p) then North
    else if GlobalRow(g, q) > GlobalRow(g, p) then South
    else if GlobalCol(g, q) > GlobalCol(g, p) then East
    else West
  }

  /** The members of the repeated moves in the first `k` directions. */
  lemma {:induction false} RepeatedMovesUpToMembers(g: Garden, p: RepeatedGridPosition, q: RepeatedGridPosition, k: nat)
    requires Valid(g) && p.position < |g.rocks| && k <= |COMPASS|
    ensures q in RepeatedMovesUpTo(g, p, k) <==>
              q.position < |g.rocks| && !g.rocks[q.position]
              && exists j :: 0 <= j < k && StepInDirectionOnRepeatedGrid(g, p, COMPASS[j]) == q
  {
    if k > 0 {
      RepeatedMovesUpToMembers(g, p, q, k - 1);
      RepeatedStepOnTiles(g, p, COMPASS[k - 1]);
    }
  }

  /** The plots one step from `p` on the repeated garden are exactly the positions at global
      distance one that are not rocks. */
  lemma RepeatedMovesAreNeighbours(g: Garden, p: RepeatedGridPosition, q: RepeatedGridPosition)
    requires Valid(g) && p.position < |g.rocks|
    ensures q in RepeatedMoves(g, p) <==> q.position < |g.rocks| && !g.rocks[q.position] && GlobalDistance(g, p, q) == 1
  {
    RepeatedMovesUpToMembers(g, p, q, |COMPASS|);
    if q in RepeatedMoves(g, p) {
      var j :| 0 <= j < |COMPASS| && StepInDirectionOnRepeatedGrid(g, p, COMPASS[j]) == q;
      RepeatedStepMoves(g, p, COMPASS[j]);
    }
    if q.position < |g.rocks| && !g.rocks[q.position] && GlobalDistance(g, p, q) == 1 {
      var d := GlobalDirectionTowards(g, p, q);
      var to := StepInDirectionOnRepeatedGrid(g, p, d);
      RepeatedStepMoves(g, p, d);
      GlobalUnique(g, to, q);
      assert COMPASS[Index(d)] == d;
    }
  }

  /** `step_from_positions_on_repeated_grid` gives exactly the plots at global distance one
      from some position. */
  lemma RepeatedStepFromNeighbours(g: Garden, positions: set<RepeatedGridPosition>, q: RepeatedGridPosition)
    requires Valid(g) && OnTiles(g, positions)
    ensures q in RepeatedStepFrom(g, positions) <==>
              q.position < |g.rocks| && !g.rocks[q.position] && exists p :: p in positions && GlobalDistance(g, p, q) == 1
  {
    if q in RepeatedStepFrom(g, positions) {
      var p :| p in positions && q in RepeatedMoves(g, p);
      RepeatedMovesAreNeighbours(g, p, q);
    }
    if q.position < |g.rocks| && !g.rocks[q.position] && exists p :: p in positions && GlobalDistance(g, p, q) == 1 {
      var p :| p in positions && GlobalDistance(g, p, q) == 1;
      RepeatedMovesAreNeighbours(g, p, q);
    }
  }

  lemma RepeatedStepFromAdd(g: Garden, positions: set<RepeatedGridPosition>, p: RepeatedGridPosition)
    requires Valid(g) && OnTiles(g, positions) && p.position < |g.rocks|
    ensures RepeatedStepFrom(g, positions + {p}) == RepeatedStepFrom(g, positions) + RepeatedMoves(g, p)
  {
  }

  /** The inner loop of `Garden::step_from_positions_on_repeated_grid`: each compass
      direction in turn, the neighbour inserted when it is no rock. */
  method InsertMovesOnRepeatedGrid(g: Garden, p: RepeatedGridPosition, before: set<RepeatedGridPosition>) returns (after: set<RepeatedGridPosition>)
    requires Valid(g) && p.position < |g.rocks|
    ensures after == before + RepeatedMoves(g, p)
  {
    after := before;
    for k := 0 to |COMPASS|
      invariant after == before + RepeatedMovesUpTo(g, p, k)
    {
      var next := StepInDirectionOnRepeatedGrid(g, p, COMPASS[k]);
      RepeatedStepOnTiles(g, p, COMPASS[k]);
      if !g.rocks[next.position] {
        assert RepeatedMovesUpTo(g, p, k + 1) == RepeatedMovesUpTo(g, p, k) + {next};
        after := after + {next};
      } else {
        assert RepeatedMovesUpTo(g, p, k + 1) == RepeatedMovesUpTo(g, p, k);
      }
    }
  }

  /** `Garden::step_from_positions_on_repeated_grid`: the moves of every position
      gathered. */
  method StepFromPositionsOnRepeatedGrid(g: Garden, positions: set<RepeatedGridPosition>) returns (after: set<RepeatedGridPosition>)
    requires Valid(g) && OnTiles(g, positions)
    ensures after == RepeatedStepFrom(g, positions)
  {
    after := {};
    var remaining := positions;
    ghost var done: set<RepeatedGridPosition> := {};
    while remaining != {}
      invariant remaining <= positions && done == positions - remaining
      invariant after == RepeatedStepFrom(g, done)
      decreases |remaining|
    {
      var p :| p in remaining;
      after := InsertMovesOnRepeatedGrid(g, p, after);
      RepeatedStepFromAdd(g, done, p);
      done := done + {p};
      remaining := remaining - {p};
    }
  }

  function RepeatedReachable(g: Garden, n: nat): (positions: set<RepeatedGridPosition>)
    requires Valid(g)
    ensures OnTiles(g, positions)
  {
    if n == 0 then {RepeatedGridPosition(0, 0, g.start)} else RepeatedStepFrom(g, RepeatedReachable(g, n - 1))
  }

  /** Every position the single garden reaches in `n` steps is reached on the original tile
      of the repeated garden. */
  lemma {:induction false} ReachableOnOriginalTile(g: Garden, n: nat, q: nat)
    requires Valid(g) && q in Reachable(g, n)
    ensures RepeatedGridPosition(0, 0, q) in RepeatedReachable(g, n)
  {
    if n > 0 {
      var before := Reachable(g, n - 1);
      var p :| p in before && q in Moves(g, p);
      ReachableOnOriginalTile(g, n - 1, p);
      MovesUpToMembers(g, p, q, |COMPASS|);
      var j :| 0 <= j < |COMPASS| && StepInDirection(g, p, COMPASS[j]) == Some(q);
      var from, to := RepeatedGridPosition(0, 0, p), RepeatedGridPosition(0, 0, q);
      RepeatedStepWithinTile(g, from, COMPASS[j]);
      RepeatedMovesUpToMembers(g, from, to, |COMPASS|);
      assert to in RepeatedMoves(g, from);
      assert from in RepeatedReachable(g, n - 1);
    }
  }

  /** A position stepped to comes from one a global distance of one away. */
  lemma RepeatedPredecessor(g: Garden, positions: set<RepeatedGridPosition>, q: RepeatedGridPosition) returns (p: RepeatedGridPosition)
    requires Valid(g) && OnTiles(g, positions) && q in RepeatedStepFrom(g, positions)
    ensures p in positions && GlobalDistance(g, p, q) == 1
  {
    p :| p in positions && q in RepeatedMoves(g, p);
    RepeatedMovesAreNeighbours(g, p, q);
  }

  /** `NearStep` in the coordinates of the repeated garden. */
  lemma GlobalNearStep(g: Garden, n: nat, origin: RepeatedGridPosition, p: RepeatedGridPosition, q: RepeatedGridPosition)
    requires g.width > 0 && n > 0 && GlobalDistance(g, p, q) == 1
    requires GlobalDistance(g, origin, p) <= n - 1 && (n - 1 - GlobalDistance(g, origin, p)) % 2 == 0
    ensures GlobalDistance(g, origin, q) <= n && (n - GlobalDistance(g, origin, q)) % 2 == 0
  {
    NearStep(n, GlobalRow(g, origin), GlobalCol(g, origin), GlobalRow(g, p), GlobalCol(g, p), GlobalRow(g, q), GlobalCol(g, q));
  }

  /** The repeated garden's positions after `n` steps lie within `n` cells of the start,
      an even number of steps short of `n`. */
  lemma {:induction false} RepeatedReachableNear(g: Garden, n: nat, q: RepeatedGridPosition)
    requires Valid(g) && q in RepeatedReachable(g, n)
    ensures var d := GlobalDistance(g, RepeatedGridPosition(0, 0, g.start), q);
            d <= n && (n - d) % 2 == 0
  {
    var origin := RepeatedGridPosition(0, 0, g.start);
    if n == 0 {
      assert q == origin;
    } else {
      var before := RepeatedReachable(g, n - 1);
      var p := RepeatedPredecessor(g, before, q);
      RepeatedReachableNear(g, n - 1, p);
      GlobalNearStep(g, n, origin, p, q);
    }
  }

  /** `Garden::total_reachable_on_repeated_grid`: the repeated positions stepped `steps`
      times from the start, counted. */
  method TotalReachableOnRepeatedGrid(g: Garden, steps: nat) returns (count: nat)
    requires Valid(g)
    ensures count == |RepeatedReachable(g, steps)|
  {
    var positions := {RepeatedGridPosition(0, 0, g.start)};
    for i := 0 to steps
      invariant positions == RepeatedReachable(g, i)
    {
      positions := StepFromPositionsOnRepeatedGrid(g, positions);
    }
    count := |positions|;
  }

  // ---------------------------------------------------------------------------------------
  // Reading the garden

  /** The characters a garden is drawn with: a rock, the start and a plot. */
  predicate GardenChar(c: char)
  {
    c == '#' || c == 'S' || c == '.'
  }

  predicate GardenLine(line: String)
  {
    forall c :: 0 <= c < |line| ==> GardenChar(line[c])
  }

  predicate GardenLines(lines: seq<String>)
  {
    forall r :: 0 <= r < |lines| ==> GardenLine(lines[r])
  }

  /** The rock flags of one line, one per character, pushed left to right. */
  function RowRocks(line: String): seq<bool>
  {
    if |line| == 0 then [] else RowRocks(line[..|line| - 1]) + [line[|line| - 1] == '#']
  }

  /** The rock flags of all the lines, row after row with no padding. */
  function Rocks(lines: seq<String>): seq<bool>
  {
    if |lines| == 0 then [] else Rocks(lines[..|lines| - 1]) + RowRocks(lines[|lines| - 1])
  }

  /** The longest line's length, zero without lines. */
  function MaxWidth(lines: seq<String>): nat
  {
    if |lines| == 0 then 0
    else
      var earlier := MaxWidth(lines[..|lines| - 1]);
      if earlier < |lines[|lines| - 1]| then |lines[|lines| - 1]| else earlier
  }

  /** The column of the line's last 'S'. */
  function LastS(line: String): Option<nat>
  {
    if |line| == 0 then None
    else if line[|line| - 1] == 'S' then Some(|line| - 1)
    else LastS(line[..|line| - 1])
  }

  /** The start after reading `line` as row `row` with `width` the widest line so far:
      its last 'S' when it has one, otherwise the start found before. */
  function StartAfter(earlier: Option<nat>, row: nat, width: nat, line: String): Option<nat>
  {
    match LastS(line)
    case Some(col) => Some(row * width + col)
    case None => earlier
  }

  /** The start the reading records: the last 'S', at its row times the width of the widest
      line read up to and including that row, plus its column. */
  function StartIn(lines: seq<String>): Option<nat>
  {
    if |lines| == 0 then None
    else StartAfter(StartIn(lines[..|lines| - 1]), |lines| - 1, MaxWidth(lines), lines[|lines| - 1])
  }

  /** What `Garden::from_str` returns: an error at any character other than '#', 'S' and
      '.', or when there is no 'S'; otherwise as many rows as lines, the longest line's width,
      the start recorded and the rocks read. */
  function GardenOf(input: String): Result<Garden>
  {
    var lines := Lines(input);
    if !GardenLines(lines) then Err
    else
      match StartIn(lines)
      case None => Err
      case Some(start) => Ok(Garden(|lines|, MaxWidth(lines), start, Rocks(lines)))
  }

  /** Reading one more line extends the rocks, the width, the start and the check of the
      characters by that line. */
  lemma ReadStep(lines: seq<String>, row: nat)
    requires row < |lines|
    ensures var before, after := lines[..row], lines[..row + 1];
            && Rocks(after) == Rocks(before) + RowRocks(lines[row])
            && MaxWidth(after) == (if MaxWidth(before) < |lines[row]| then |lines[row]| else MaxWidth(before))
            && StartIn(after) == StartAfter(StartIn(before), row, MaxWidth(after), lines[row])
            && (GardenLines(after) <==> GardenLines(before) && GardenLine(lines[row]))
  {
    assert lines[..row + 1][..row] == lines[..row];
  }

  /** The inner loop of `Garden::from_str`: one line read character by character, pushing a
      rock flag for each and recording the start at every 'S'; false at any other
      character. */
  method ReadLine(row: nat, width: nat, line: String, rocksBefore: seq<bool>, startBefore: Option<nat>)
    returns (ok: bool, rocks: seq<bool>, start: Option<nat>)
    ensures ok <==> GardenLine(line)
    ensures ok ==> rocks == rocksBefore + RowRocks(line) && start == StartAfter(startBefore, row, width, line)
  {
    rocks, start := rocksBefore, startBefore;
    for col := 0 to |line|
      invariant rocks == rocksBefore + RowRocks(line[..col])
      invariant start == StartAfter(startBefore, row, width, line[..col])
      invariant GardenLine(line[..col])
    {
      assert line[..col + 1][..col] == line[..col];
      match line[col] {
        case '#' =>
          rocks := rocks + [true];
        case 'S' =>
          rocks := rocks + [false];
          start := Some(row * width + col);
        case '.' =>
          rocks := rocks + [false];
        case _ =>
          return false, rocks, start;
      }
    }
    assert line[..|line|] == line;
    ok := true;
  }

  /** `Garden::from_str`: the lines read in turn, the height and the widest line's width
      tracked, the error returned at the first character that is no garden character or when
      no 'S' was read. */
  method FromStr(input: String) returns (r: Result<Garden>)
    ensures r == GardenOf(input)
  {
    var lines := Lines(input);
    var rocks: seq<bool> := [];
    var start: Option<nat> := None;
    var width: nat := 0;
    var height: nat := 0;
    for row := 0 to |lines|
      invariant height == row && width == MaxWidth(lines[..row])
      invariant rocks == Rocks(lines[..row]) && start == StartIn(lines[..row])
      invariant GardenLines(lines[..row])
    {
      var line := lines[row];
      ReadStep(lines, row);
      height := row + 1;
      width := if width < |line| then |line| else width;
      var ok;
      ok, rocks, start := ReadLine(row, width, line, rocks, start);
      if !ok {
        return Err;
      }
    }
    assert lines[..|lines|] == lines;
    match start {
      case None => r := Err;
      case Some(s) => r := Ok(Garden(height, width, s, rocks));
    }
  }

  // ---------------------------------------------------------------------------------------
  // What the reading gives

  /** Every line is `width` characters long. */
  predicate Rectangular(lines: seq<String>, width: nat)
  {
    forall r :: 0 <= r < |lines| ==> |lines[r]| == width
  }

  predicate HasS(lines: seq<String>)
  {
    exists r, c :: 0 <= r < |lines| && 0 <= c < |lines[r]| && lines[r][c] == 'S'
  }

  /** `row`, `col` is the last 'S' in reading order. */
  predicate LastStartAt(lines: seq<String>, row: nat, col: nat)
  {
    && row < |lines| && col < |lines[row]| && lines[row][col] == 'S'
    && forall r, c :: 0 <= r < |lines| && 0 <= c < |lines[r]| && lines[r][c] == 'S' ==>
         r < row || (r == row && c <= col)
  }

  lemma {:induction false} RowRocksAt(line: String)
    ensures |RowRocks(line)| == |line|
    ensures forall c :: 0 <= c < |line| ==> RowRocks(line)[c] == (line[c] == '#')
  {
    if |line| > 0 {
      RowRocksAt(line[..|line| - 1]);
    }
  }

  /** Rectangular lines read as `width` rock flags per line, and their widest line is
      `width` long. */
  lemma {:induction false} RectangularSize(lines: seq<String>, width: nat)
    requires Rectangular(lines, width)
    ensures |Rocks(lines)| == |lines| * width && MaxWidth(lines) == (if |lines| == 0 then 0 else width)
  {
    if |lines| > 0 {
      var last := |lines| - 1;
      RectangularSize(lines[..last], width);
      RowRocksAt(lines[last]);
      OneMoreRow(last, width);
    }
  }

  lemma OneMoreRow(rows: nat, width: nat)
    ensures (rows + 1) * width == rows * width + width
  {
  }

  /** The rocks of rectangular lines lie row after row, each line's at its row's cells. */
  lemma {:induction false} RectangularRock(lines: seq<String>, width: nat, r: nat, c: nat)
    requires Rectangular(lines, width) && r < |lines| && c < width
    ensures r * width + c < |Rocks(lines)| && Rocks(lines)[r * width + c] == (lines[r][c] == '#')
  {
    var last := |lines| - 1;
    var before := lines[..last];
    RectangularSize(before, width);
    RowRocksAt(lines[last]);
    var rocks, earlier, row := Rocks(lines), Rocks(before), RowRocks(lines[last]);
    assert rocks == earlier + row;
    if r < last {
      RectangularRock(before, width, r, c);
      CellBelow(r, c, width, last);
      assert lines[r] == before[r];
      assert rocks[r * width + c] == earlier[r * width + c];
    } else {
      assert rocks[r * width + c] == row[c];
    }
  }

  /** A cell of a row below `height` lies below `height` rows. */
  lemma CellBelow(row: nat, col: nat, width: nat, height: nat)
    requires row < height && col < width
    ensures row * width + col < height * width
  {
    MulSub(width, height, row);
    MulAtLeast(width, height - row);
  }

  lemma {:induction false} LastSFacts(line: String)
    ensures match LastS(line)
            case Some(col) => col < |line| && line[col] == 'S' && forall c :: col < c < |line| ==> line[c] != 'S'
            case None => forall c :: 0 <= c < |line| ==> line[c] != 'S'
  {
    if |line| > 0 {
      LastSFacts(line[..|line| - 1]);
    }
  }

  /** Reading finds a start exactly when some line holds an 'S'. */
  lemma {:induction false} StartFound(lines: seq<String>)
    ensures StartIn(lines).Some? <==> HasS(lines)
  {
    if |lines| > 0 {
      var last := |lines| - 1;
      StartFound(lines[..last]);
      LastSFacts(lines[last]);
      if HasS(lines) && LastS(lines[last]).None? {
        var r, c :| 0 <= r < |lines| && 0 <= c < |lines[r]| && lines[r][c] == 'S';
        assert lines[..last][r] == lines[r];
      }
      if HasS(lines[..last]) {
        var r, c :| 0 <= r < last && 0 <= c < |lines[..last][r]| && lines[..last][r][c] == 'S';
        assert lines[r][c] == 'S';
      }
      if LastS(lines[last]).Some? {
        assert lines[last][LastS(lines[last]).value] == 'S';
      }
    }
  }

  /** On rectangular lines the start read is the cell of the last 'S'. */
  lemma {:induction false} RectangularStart(lines: seq<String>, width: nat) returns (row: nat, col: nat)
    requires Rectangular(lines, width) && StartIn(lines).Some?
    ensures LastStartAt(lines, row, col) && StartIn(lines) == Some(row * width + col)
  {
    var last := |lines| - 1;
    var before := lines[..last];
    RectangularSize(lines, width);
    LastSFacts(lines[last]);
    match LastS(lines[last]) {
      case Some(c) =>
        row, col := last, c;
      case None =>
        row, col := RectangularStart(before, width);
        forall r, c | 0 <= r < |lines| && 0 <= c < |lines[r]| && lines[r][c] == 'S'
          ensures r < row || (r == row && c <= col)
        {
          assert r < last;
          assert before[r] == lines[r];
        }
    }
  }

  /** `Garden::from_str` fails exactly at a character other than '#', 'S' and '.', or when no
      line holds an 'S'. */
  lemma GardenErrors(input: String)
    ensures GardenOf(input).Err? <==> !GardenLines(Lines(input)) || !HasS(Lines(input))
  {
    StartFound(Lines(input));
  }

  /** Rectangular lines of garden characters with an 'S' read as a valid garden of their
      size: the rock at each row and column is that line's '#', and the start is the last
      'S'. */
  lemma RectangularGarden(input: String, width: nat)
    requires Rectangular(Lines(input), width) && GardenLines(Lines(input)) && HasS(Lines(input))
    ensures GardenOf(input).Ok?
    ensures var g, lines := GardenOf(input).value, Lines(input);
            && Valid(g) && g.height == |lines| && g.width == width
            && (forall r, c :: 0 <= r < |lines| && 0 <= c < width ==>
                  Cell(g, r, c) < |g.rocks| && g.rocks[Cell(g, r, c)] == (lines[r][c] == '#'))
            && LastStartAt(lines, Row(g, g.start), Col(g, g.start))
  {
    var lines := Lines(input);
    StartFound(lines);
    RectangularSize(lines, width);
    var row, col := RectangularStart(lines, width);
    var g := GardenOf(input).value;
    forall r, c | 0 <= r < |lines| && 0 <= c < width
      ensures Cell(g, r, c) < |g.rocks| && g.rocks[Cell(g, r, c)] == (lines[r][c] == '#')
    {
      RectangularRock(lines, width, r, c);
    }
    CellOfRowCol(g, row, col);
    CellBelow(row, col, width, |lines|);
  }

  /** `part_one`: the plots reachable in 64 steps of the garden read, None when it does not
      read. */
  method PartOne(input: String) returns (r: Option<nat>)
    requires GardenOf(input).Ok? ==> Valid(GardenOf(input).value)
    ensures r.Some? <==> GardenOf(input).Ok?
    ensures r.Some? ==> r.value == |Reachable(GardenOf(input).value, 64)|
  {
    var garden := FromStr(input);
    match garden {
      case Ok(g) =>
        var count := TotalReachableInSteps(g, 64);
        r := Some(count);
      case Err =>
        r := None;
    }
  }
}
