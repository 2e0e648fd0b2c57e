/** Part two of `src/bin/10.rs`: the cells enclosed by the loop.

    `spaces_enclosed_by_loop` floods the gaps between the pipes from the top-left corner of
    the grid, moving from corner to corner of the cells and never across a pipe. The start
    cell takes the pipe that joins its first two connecting edges. A cell none of whose four
    corners the flood reaches is enclosed. */
module Day10Enclosed {
  import opened Wrappers
  import opened Day10Pipes
  import opened Day10Maze

  // ---------------------------------------------------------------------------------------
  // The visit tracker: one byte per cell, one bit per corner

  /** The bit of a corner in the byte of its cell. */
  function CornerBit(c: Corner): bv8
  {
    match c
    case TopLeft => 1
    case TopRight => 2
    case BottomLeft => 4
    case BottomRight => 8
  }

  /** Setting the bit of one corner sets it, leaves the other three as they were, and keeps
      the byte below 16. */
  lemma SetBit(x: bv8, c: Corner)
    ensures (x | CornerBit(c)) & CornerBit(c) != 0
    ensures forall e :: e != c ==> ((x | CornerBit(c)) & CornerBit(e) != 0 <==> x & CornerBit(e) != 0)
    ensures x & CornerBit(c) != 0 ==> x | CornerBit(c) == x
    ensures x & CornerBit(c) == 0 ==> Clear(x | CornerBit(c)) + 1 == Clear(x)
    ensures x < 16 ==> x | CornerBit(c) < 16
  {
  }

  /** A byte below 16 is zero exactly when none of the four corners is set. */
  lemma ZeroIffNoCorner(x: bv8)
    requires x < 16
    ensures x == 0 <==> forall c :: x & CornerBit(c) == 0
  {
    if x != 0 {
      assert x & 1 != 0 || x & 2 != 0 || x & 4 != 0 || x & 8 != 0;
      var c := if x & 1 != 0 then TopLeft else if x & 2 != 0 then TopRight
               else if x & 4 != 0 then BottomLeft else BottomRight;
      assert x & CornerBit(c) != 0;
    }
  }

  /** How many of the four corner bits of a byte are clear. */
  function Clear(x: bv8): nat
  {
    (if x & 1 == 0 then 1 else 0) + (if x & 2 == 0 then 1 else 0)
    + (if x & 4 == 0 then 1 else 0) + (if x & 8 == 0 then 1 else 0)
  }

  /** The clear corner bits of all the bytes. */
  function ClearCorners(s: seq<bv8>): nat
  {
    if s == [] then 0 else ClearCorners(s[..|s| - 1]) + Clear(s[|s| - 1])
  }

  /** Replacing one byte changes the clear bits by the difference for that byte. */
  lemma {:induction false} ClearCornersUpdate(s: seq<bv8>, i: nat, x: bv8)
    requires i < |s|
    ensures ClearCorners(s[i := x]) + Clear(s[i]) == ClearCorners(s) + Clear(x)
    decreases |s|
  {
    var t := s[i := x];
    if i < |s| - 1 {
      assert t[..|t| - 1] == s[..|s| - 1][i := x];
      ClearCornersUpdate(s[..|s| - 1], i, x);
    } else {
      assert t[..|t| - 1] == s[..|s| - 1];
    }
  }

  /** The number of zero bytes. */
  function CountZero(s: seq<bv8>): nat
  {
    if s == [] then 0 else CountZero(s[..|s| - 1]) + (if s[|s| - 1] == 0 then 1 else 0)
  }

  /** `CornerVisitTracker`: the corners visited by the flood. */
  class CornerVisitTracker {
    const cells: array<bv8>

    ghost predicate Valid()
      reads this, cells
    {
      cells.Length == CELLS && forall i :: 0 <= i < CELLS ==> cells[i] < 16
    }

    /** The flood has visited corner `p`. */
    ghost predicate Visited(p: CornerPosition)
      reads this, cells
    {
      p.pos < cells.Length && cells[p.pos] & CornerBit(p.corner) != 0
    }

    /** `new`: no corner visited. */
    constructor ()
      ensures Valid() && fresh(cells)
      ensures forall p :: !Visited(p)
    {
      cells := new bv8[CELLS](_ => 0);
    }

    /** `visit`: marks the corner and tells whether it was marked before; nothing else
        changes, and a first visit clears one corner bit fewer. */
    method Visit(p: CornerPosition) returns (visited: bool)
      requires Valid() && p.pos < CELLS
      modifies cells
      ensures Valid()
      ensures visited == old(Visited(p)) && Visited(p)
      ensures forall q :: q != p ==> (Visited(q) <==> old(Visited(q)))
      ensures visited ==> cells[..] == old(cells[..])
      ensures !visited ==> ClearCorners(cells[..]) + 1 == ClearCorners(old(cells[..]))
    {
      var value := CornerBit(p.corner);
      visited := cells[p.pos] & value == value;
      SetBit(cells[p.pos], p.corner);
      ghost var before := cells[..];
      cells[p.pos] := cells[p.pos] | value;
      assert cells[..] == before[p.pos := cells[p.pos]];
      ClearCornersUpdate(before, p.pos, cells[p.pos]);
    }

    /** `count_unvisited`: the number of cells with no corner visited. */
    method CountUnvisited() returns (n: nat)
      requires Valid()
      ensures n == CountZero(cells[..])
      ensures forall pos :: 0 <= pos < CELLS ==>
                (cells[pos] == 0 <==> forall c :: !Visited(CornerPosition(pos, c)))
    {
      n := 0;
      for i := 0 to cells.Length
        invariant n == CountZero(cells[..i])
      {
        assert cells[..i + 1][..i] == cells[..i];
        n := n + if cells[i] == 0 then 1 else 0;
      }
      assert cells[..cells.Length] == cells[..];
      forall pos | 0 <= pos < CELLS
        ensures cells[pos] == 0 <==> forall c :: !Visited(CornerPosition(pos, c))
      {
        ZeroIffNoCorner(cells[pos]);
        assert (forall c :: !Visited(CornerPosition(pos, c))) <==> forall c :: cells[pos] & CornerBit(c) == 0 by {
          forall c
            ensures !Visited(CornerPosition(pos, c)) <==> cells[pos] & CornerBit(c) == 0
          {
          }
        }
      }
    }
  }

  // ---------------------------------------------------------------------------------------
  // The pipe under the start

  /** Crossing out of the start in every direction stays in the grid: `replacement_start_pipe`
      would panic otherwise. */
  predicate StartInside(m: Maze)
  {
    ValidMaze(m) && GRID_SIZE <= m.start < CELLS - GRID_SIZE
  }

  /** The cell across edge `d` of the start has a pipe with an end on that edge. */
  predicate ConnectsBack(m: Maze, d: Direction)
    requires StartInside(m)
  {
    var cross := CrossEdge(EdgePosition(m.start, d, 0));
    m.grid[cross.pos].Some? && TraversePipe(cross, m.grid[cross.pos].value).Some?
  }

  /** The start connects by edge `d` exactly when the walker of part one leaving by `d` goes
      on past the first neighbour's pipe. */
  lemma ConnectsBackWalks(m: Maze, d: Direction)
    requires StartInside(m)
    ensures ConnectsBack(m, d) <==> !WalkAt(m, d, 1).Ended?
  {
    WalkNext(m, d, 0, CrossEdge(EdgePosition(m.start, d, 0)));
  }

  /** The directions of `dirs` by which the start connects, in order. */
  function Connecting(m: Maze, dirs: seq<Direction>): (r: seq<Direction>)
    requires StartInside(m)
    ensures forall d :: d in r <==> d in dirs && ConnectsBack(m, d)
  {
    if dirs == [] then []
    else (if ConnectsBack(m, dirs[0]) then [dirs[0]] else []) + Connecting(m, dirs[1..])
  }

  /** The connecting directions of the compass, one at a time. */
  lemma ConnectingCompass(m: Maze)
    requires StartInside(m)
    ensures Connecting(m, COMPASS)
         == Kept(m, North) + (Kept(m, East) + (Kept(m, South) + Kept(m, West)))
  {
    assert COMPASS[1..] == [East, South, West];
    assert [East, South, West][1..] == [South, West];
    assert [South, West][1..] == [West];
    assert [West][1..] == [];
    assert Connecting(m, [West]) == Kept(m, West);
    assert Connecting(m, [South, West]) == Kept(m, South) + Kept(m, West);
    assert Connecting(m, [East, South, West]) == Kept(m, East) + (Kept(m, South) + Kept(m, West));
  }

  function Kept(m: Maze, d: Direction): seq<Direction>
    requires StartInside(m)
  {
    if ConnectsBack(m, d) then [d] else []
  }

  /** `replacement_start_pipe`: the pipe joining the first two connecting edges of the start,
      in compass order, if there are two. */
  function ReplacementStartPipe(m: Maze): Option<Pipe>
    requires StartInside(m)
  {
    var c := Connecting(m, COMPASS);
    if |c| >= 2 then Some(Pipe(c[0], c[1])) else None
  }

  /** The replacement pipe joins two connecting edges, the first two in compass order; there
      is none only when at most one edge connects. */
  lemma ReplacementStartPipeConnects(m: Maze)
    requires StartInside(m)
    ensures var r := ReplacementStartPipe(m);
            r.Some? ==> ConnectsBack(m, r.value.first) && ConnectsBack(m, r.value.second)
                        && IndexOf(r.value.first) < IndexOf(r.value.second)
                        && forall d :: IndexOf(d) < IndexOf(r.value.second) && d != r.value.first
                                       ==> !ConnectsBack(m, d)
    ensures ReplacementStartPipe(m).None? ==>
              forall d1, d2 :: ConnectsBack(m, d1) && ConnectsBack(m, d2) ==> d1 == d2
  {
    ConnectingCompass(m);
  }

  // ---------------------------------------------------------------------------------------
  // The flood

  /** The pipe the flood meets in a cell: the replacement pipe in the start cell. */
  function PipeAt(m: Maze, pos: nat): Option<Pipe>
    requires StartInside(m) && pos < CELLS
  {
    if pos == m.start then ReplacementStartPipe(m) else m.grid[pos]
  }

  /** The corners one move of the flood away. */
  function Adjacent(m: Maze, p: CornerPosition): (r: seq<CornerPosition>)
    requires StartInside(m) && p.pos < CELLS
    ensures forall q :: q in r ==> q.pos < CELLS
  {
    AdjacentPositions(p, PipeAt(m, p.pos))
  }

  /** Where the flood starts: the top-left corner of the grid. */
  const ORIGIN := CornerPosition(0, TopLeft)

  /** A walk of the flood from the origin, one move at a time. */
  ghost predicate Path(m: Maze, path: seq<CornerPosition>)
    requires StartInside(m)
  {
    path != [] && path[0] == ORIGIN
    && (forall i :: 0 <= i < |path| ==> path[i].pos < CELLS)
    && (forall i :: 0 <= i < |path| - 1 ==> path[i].pos < CELLS && path[i + 1] in Adjacent(m, path[i]))
  }

  /** The flood can reach corner `q`. */
  ghost predicate Reachable(m: Maze, q: CornerPosition)
    requires StartInside(m)
  {
    exists path :: Path(m, path) && path[|path| - 1] == q
  }

  lemma ReachableOrigin(m: Maze)
    requires StartInside(m)
    ensures Reachable(m, ORIGIN)
  {
    assert Path(m, [ORIGIN]);
  }

  /** One move from a reachable corner reaches a corner. */
  lemma ReachableStep(m: Maze, p: CornerPosition, q: CornerPosition)
    requires StartInside(m) && p.pos < CELLS && Reachable(m, p) && q in Adjacent(m, p)
    ensures Reachable(m, q)
  {
    var path :| Path(m, path) && path[|path| - 1] == p;
    var path' := path + [q];
    assert forall i :: 0 <= i < |path| ==> path'[i] == path[i];
    assert Path(m, path');
  }

  /** A set of corners that holds the origin and every move out of its corners holds every
      reachable corner. */
  lemma ClosedHoldsReachable(m: Maze, seen: set<CornerPosition>, q: CornerPosition)
    requires StartInside(m) && ORIGIN in seen
    requires forall p :: p in seen ==> p.pos < CELLS
    requires forall p, r | p in seen && p.pos < CELLS && r in Adjacent(m, p) :: r in seen
    requires Reachable(m, q)
    ensures q in seen
  {
    var path :| Path(m, path) && path[|path| - 1] == q;
    PathInside(m, seen, path, |path| - 1);
  }

  lemma {:induction false} PathInside(m: Maze, seen: set<CornerPosition>, path: seq<CornerPosition>, i: nat)
    requires StartInside(m) && ORIGIN in seen
    requires forall p :: p in seen ==> p.pos < CELLS
    requires forall p, r | p in seen && p.pos < CELLS && r in Adjacent(m, p) :: r in seen
    requires Path(m, path) && i < |path|
    ensures path[i] in seen
  {
    if i > 0 {
      PathInside(m, seen, path, i - 1);
      assert path[i] in Adjacent(m, path[i - 1]);
    }
  }

  /** No corner of cell `pos` is reachable. */
  ghost predicate Sealed(m: Maze, pos: nat)
    requires StartInside(m)
  {
    forall c :: !Reachable(m, CornerPosition(pos, c))
  }

  /** The number of sealed cells among the first `n`. */
  ghost function SealedUpTo(m: Maze, n: nat): nat
    requires StartInside(m)
  {
    if n == 0 then 0 else SealedUpTo(m, n - 1) + if Sealed(m, n - 1) then 1 else 0
  }

  /** The count of zero bytes is the count of sealed cells, when the two agree cell by cell. */
  lemma {:induction false} CountZeroSealed(m: Maze, s: seq<bv8>, n: nat)
    requires StartInside(m) && n <= |s|
    requires forall pos :: 0 <= pos < n ==> (s[pos] == 0 <==> Sealed(m, pos))
    ensures CountZero(s[..n]) == SealedUpTo(m, n)
  {
    if n > 0 {
      assert s[..n][..n - 1] == s[..n - 1];
      CountZeroSealed(m, s, n - 1);
    }
  }

  /** The first cell is never enclosed: its top-left corner is where the flood starts. */
  lemma {:induction false} FewerThanAllSealed(m: Maze, n: nat)
    requires StartInside(m) && n >= 1
    ensures SealedUpTo(m, n) < n
  {
    if n == 1 {
      ReachableOrigin(m);
      assert !Sealed(m, 0);
    } else {
      FewerThanAllSealed(m, n - 1);
    }
  }

  /** The state of the flood: the corners visited and the queue are reachable, the origin has
      been visited or is waiting, and every move out of a visited corner leads to a visited
      or waiting corner. */
  ghost predicate Flooding(m: Maze, seen: set<CornerPosition>, queue: seq<CornerPosition>)
    requires StartInside(m)
  {
    (forall p :: p in seen ==> p.pos < CELLS && Reachable(m, p))
    && (forall q :: q in queue ==> q.pos < CELLS && Reachable(m, q))
    && (forall p, q | p in seen && p.pos < CELLS && q in Adjacent(m, p) :: q in seen || q in queue)
    && (ORIGIN in seen || ORIGIN in queue)
  }

  lemma FloodStart(m: Maze)
    requires StartInside(m)
    ensures Flooding(m, {}, [ORIGIN])
  {
    ReachableOrigin(m);
  }

  /** Popping a corner: dropped when visited already, otherwise visited, with its moves queued. */
  lemma FloodStep(m: Maze, seen: set<CornerPosition>, queue: seq<CornerPosition>)
    requires StartInside(m) && Flooding(m, seen, queue) && queue != []
    ensures queue[0].pos < CELLS
    ensures queue[0] in seen ==> Flooding(m, seen, queue[1..])
    ensures queue[0] !in seen ==> Flooding(m, seen + {queue[0]}, queue[1..] + Adjacent(m, queue[0]))
  {
    var p := queue[0];
    forall q | q in queue
      ensures q == p || q in queue[1..]
    {
      var i :| 0 <= i < |queue| && queue[i] == q;
      if i > 0 {
        assert queue[1..][i - 1] == q;
      }
    }
    if p !in seen {
      forall q | q in Adjacent(m, p)
        ensures Reachable(m, q)
      {
        ReachableStep(m, p, q);
      }
    }
  }

  /** An empty queue: the visited corners are exactly the reachable ones. */
  lemma FloodDone(m: Maze, seen: set<CornerPosition>)
    requires StartInside(m) && Flooding(m, seen, [])
    ensures forall q: CornerPosition :: q.pos < CELLS ==> (q in seen <==> Reachable(m, q))
  {
    forall q: CornerPosition | q.pos < CELLS && Reachable(m, q)
      ensures q in seen
    {
      ClosedHoldsReachable(m, seen, q);
    }
  }

  /** `spaces_enclosed_by_loop`: the number of cells with no corner the flood reaches. */
  method SpacesEnclosedByLoop(m: Maze) returns (r: nat)
    requires StartInside(m)
    ensures r == SealedUpTo(m, CELLS)
  {
    var visited := new CornerVisitTracker();
    var queue: seq<CornerPosition> := [ORIGIN];
    var startPipe := ReplacementStartPipe(m);
    ghost var seen: set<CornerPosition> := {};
    FloodStart(m);
    while queue != []
      invariant visited.Valid() && fresh(visited.cells)
      invariant forall p :: visited.Visited(p) <==> p in seen
      // an equation, so that the verifier keeps the state as one fact instead of its parts
      invariant Flooding(m, seen, queue) == true
      decreases ClearCorners(visited.cells[..]), |queue|
    {
      FloodStep(m, seen, queue);
      var pos := queue[0];
      queue := queue[1..];
      var already := visited.Visit(pos);
      if !already {
        var pipe := if pos.pos == m.start then startPipe else m.grid[pos.pos];
        assert AdjacentPositions(pos, pipe) == Adjacent(m, pos);
        queue := queue + AdjacentPositions(pos, pipe);
        seen := seen + {pos};
      }
    }
    FloodDone(m, seen);
    r := visited.CountUnvisited();
    CountZeroSealed(m, visited.cells[..], CELLS);
    assert visited.cells[..][..CELLS] == visited.cells[..];
  }
}
